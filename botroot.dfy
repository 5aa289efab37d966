/** `minimaxRoot` of ChessBotLogic.ts, proved against its specification, and what the
    root promises: a safe move, its searched value, and a rank among the first three. */
module BotRoot {
  import opened Pieces
  import opened Boards
  import opened ExtValues
  import opened Evaluation
  import opened Search
  import opened Ranking
  import opened Sequences
  import opened MoveGen
  import opened BotLogic
  import opened RootSpec

  /** `minimaxRoot`: scores every safe move with a full-window alpha-beta search of the
      position it leads to, ranks them best first and draws one of the first three. */
  method MinimaxRoot(b: Board, depth: nat, isMax: bool, rnd: real) returns (move: Option<Move>, value: Ext)
    requires depth >= 1 && 0.0 <= rnd < 1.0
    ensures RootResult(move, value) == Root(b, depth, isMax, rnd)
  {
    var moves := GetAllLegalMovesSafe(b, isMax);
    if |moves| == 0 {
      return None, if isMax then NegInf else PosInf;
    }
    var moveScores := ScoreMoves(b, depth, isMax, moves);
    move, value := ChooseMove(moveScores, isMax, rnd);
  }

  /** The end of `minimaxRoot`: sort best first, keep the first `topN`, draw one. The
      draw is one of the scored entries, fewer than `topN` entries beat it, and when the
      random index is 0 no entry does. */
  method ChooseMove(moveScores: seq<Scored>, isMax: bool, rnd: real) returns (move: Option<Move>, value: Ext)
    requires moveScores != [] && 0.0 <= rnd < 1.0
    ensures RootResult(move, value) == Choice(moveScores, isMax, rnd)
    ensures move.Some? && Scored(move.value, value) in moveScores
    ensures CountBetter(moveScores, value, isMax) < TopN(|moveScores|)
    ensures Pick(rnd, TopN(|moveScores|)) == 0 ==>
      forall q | 0 <= q < |moveScores| :: !Better(isMax, moveScores[q].score, value)
  {
    ChoicePicks(moveScores, isMax, rnd);
    var sorted := Sort(moveScores, isMax);
    var topN := TopN(|sorted|);
    var chosen := sorted[Pick(rnd, topN)];
    move, value := Some(chosen.move), chosen.score;
  }

  /** The scoring loop of `minimaxRoot`: each move is played on a copy and searched
      with the full window (-Infinity, +Infinity), the opponent to move. */
  method ScoreMoves(b: Board, depth: nat, isMax: bool, moves: seq<Move>) returns (moveScores: seq<Scored>)
    requires depth >= 1
    ensures moveScores == Scores(moves, ChildValues(Bot, b, depth, isMax))
  {
    ghost var val := ChildValues(Bot, b, depth, isMax);
    ghost var es := Scores(moves, val);
    moveScores := [];
    for k := 0 to |moves|
      invariant moveScores == es[..k]
    {
      var entry := ScoreMove(b, depth, isMax, moves[k]);
      assert val(moves[k]) == ChildValue(Bot, b, moves[k], depth, isMax);
      PrefixPush(es, k);
      moveScores := moveScores + [entry];
    }
    assert es[..|moves|] == es;
  }

  /** One entry of `moveScores`: the move played on a copy, searched with the full
      window (-Infinity, +Infinity) by the opponent one ply shallower. */
  method ScoreMove(b: Board, depth: nat, isMax: bool, move: Move) returns (entry: Scored)
    requires depth >= 1
    ensures entry == Scored(move, ChildValue(Bot, b, move, depth, isMax))
  {
    var d := depth - 1;
    var copy := Apply(b, move);
    var evalScore := MinimaxAlphaBeta(copy, d, NegInf, PosInf, !isMax);
    FullWindow(copy, d, !isMax);
    ChildValueIs(Bot, b, move, depth, d, isMax);
    entry := Scored(move, evalScore);
  }

  /** The root reports no move, with the losing infinity, exactly when the side has no
      safe move. */
  lemma RootNone(b: Board, depth: nat, isMax: bool, rnd: real)
    requires depth >= 1 && 0.0 <= rnd < 1.0
    ensures var r := Root(b, depth, isMax, rnd);
      && (r.move.None? <==> SafeMoves(b, isMax) == [])
      && (r.move.None? ==> r.value == if isMax then NegInf else PosInf)
  {
    var ms := SafeMoves(b, isMax);
    if ms != [] {
      ScoresChoice(ms, ChildValues(Bot, b, depth, isMax), isMax, rnd);
    }
  }

  /** Otherwise the root plays one of the safe moves: a generated move after which the
      mover's own king is not in check. */
  lemma RootSafe(b: Board, depth: nat, isMax: bool, rnd: real)
    requires depth >= 1 && 0.0 <= rnd < 1.0 && SafeMoves(b, isMax) != []
    ensures var r := Root(b, depth, isMax, rnd);
      && r.move.Some? && r.move.value in SafeMoves(b, isMax)
      && r.move.value in AllMoves(b, isMax, true) && !InCheck(Apply(b, r.move.value), isMax)
  {
    var ms := SafeMoves(b, isMax);
    ScoresChoice(ms, ChildValues(Bot, b, depth, isMax), isMax, rnd);
    var r := Root(b, depth, isMax, rnd);
    SafeMovesSpec(b, isMax, r.move.value);
  }

  /** The value the root reports is the minimax value of the position its move leads
      to, and it is a finite number. */
  lemma RootValue(b: Board, depth: nat, isMax: bool, rnd: real)
    requires depth >= 1 && 0.0 <= rnd < 1.0 && SafeMoves(b, isMax) != []
    ensures var r := Root(b, depth, isMax, rnd);
      r.move.Some? && r.value == ChildValue(Bot, b, r.move.value, depth, isMax) && r.value.Fin?
  {
    var ms := SafeMoves(b, isMax);
    ScoresChoice(ms, ChildValues(Bot, b, depth, isMax), isMax, rnd);
    var r := Root(b, depth, isMax, rnd);
    var d := depth - 1;
    ChildFinite(Bot, b, r.move.value, depth, d, isMax);
  }

  /** The randomisation never picks a move that `topN` (at most three) or more safe
      moves beat. */
  lemma RootRank(b: Board, depth: nat, isMax: bool, rnd: real)
    requires depth >= 1 && 0.0 <= rnd < 1.0 && SafeMoves(b, isMax) != []
    ensures var ms := SafeMoves(b, isMax);
      CountBetter(Scores(ms, ChildValues(Bot, b, depth, isMax)), Root(b, depth, isMax, rnd).value, isMax) < TopN(|ms|)
  {
    ScoresRank(SafeMoves(b, isMax), ChildValues(Bot, b, depth, isMax), isMax, rnd);
  }

  /** A draw of the first place (`rnd * topN < 1`) picks a move that no safe move
      beats. */
  lemma RootBest(b: Board, depth: nat, isMax: bool, rnd: real)
    requires depth >= 1 && 0.0 <= rnd < 1.0 && SafeMoves(b, isMax) != []
    requires Pick(rnd, TopN(|SafeMoves(b, isMax)|)) == 0
    ensures forall m | m in SafeMoves(b, isMax) ::
      !Better(isMax, ChildValue(Bot, b, m, depth, isMax), Root(b, depth, isMax, rnd).value)
  {
    var ms := SafeMoves(b, isMax);
    var val := ChildValues(Bot, b, depth, isMax);
    ScoresBest(ms, val, isMax, rnd);
    forall m | m in ms ensures val(m) == ChildValue(Bot, b, m, depth, isMax) { }
  }
}
