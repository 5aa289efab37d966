/** The older engine kept in ChessGame.tsx, which the page's own bot plays with: the
    move generator without castling, the material-only evaluator, the plain minimax
    search and a root that keeps the first strictly best move. Every method is proved
    equal to the specification function it is named after. */
module LegacyEngine {
  import opened Pieces
  import opened Boards
  import opened MoveGen
  import opened MoveGenFacts
  import opened Evaluation
  import opened ExtValues
  import Search
  import opened Ranking
  import opened RootSpec

  // Move generation.

  /** `getPseudoLegalMoves` of ChessGame.tsx: the blocks of the bot's generator, the
      king's without castling. */
  method GetPseudoLegalMoves(b: Board, row: Coord, col: Coord) returns (moves: seq<Square>)
    ensures moves == PseudoMoves(b, row, col, false)
  {
    moves := [];
    if b[row][col] == Empty {
      return;
    }
    var w, k := b[row][col].white, b[row][col].kind;
    if k == Pawn {
      moves := PushPawnMoves(b, row, col, w);
    }
    if k == Rook || k == Queen {
      var ray := SlideMoves(b, row, col, RookDirs, w);
      assert moves == [];
      moves := moves + ray;
    }
    if k == Bishop || k == Queen {
      var ray := SlideMoves(b, row, col, BishopDirs, w);
      assert moves == if k == Queen then Slides(b, row, col, RookDirs, w) else [];
      moves := moves + ray;
    }
    if k == Knight {
      moves := LeapMoves(b, row, col, KnightJumps, w);
    }
    if k == King {
      moves := LeapMoves(b, row, col, KingSteps, w);
    }
  }

  /** The two generators agree on every square except that the bot's king adds the
      castling candidates after its steps. */
  lemma BotAddsCastling(b: Board, row: Coord, col: Coord)
    ensures PseudoMoves(b, row, col, true) ==
      PseudoMoves(b, row, col, false)
      + (if b[row][col].Piece? && b[row][col].kind == King then Castling(b, row, col, b[row][col].white) else [])
  {
  }

  /** Every move of the older generator is a move of the bot's generator. */
  lemma LegacyMovesAreBotMoves(b: Board, side: bool, m: Move)
    requires m in AllMoves(b, side, false)
    ensures m in AllMoves(b, side, true)
  {
    AllMovesMembers(b, side, false, m);
    AllMovesMembers(b, side, true, m);
    BotAddsCastling(b, m.from.row, m.from.col);
  }

  /** `getAllLegalMoves` of ChessGame.tsx: the pseudo-legal moves of every piece of
      the side, row by row. */
  method GetAllLegalMoves(b: Board, isWhiteTurn: bool) returns (moves: seq<Move>)
    ensures moves == AllMoves(b, isWhiteTurn, false)
  {
    ghost var t := PseudoTable(b, false);
    moves := [];
    for i := 0 to 8
      invariant moves + MovesFrom(b, isWhiteTurn, t, i, 0) == AllMoves(b, isWhiteTurn, false)
    {
      for j := 0 to 8
        invariant moves + MovesFrom(b, isWhiteTurn, t, i, j) == AllMoves(b, isWhiteTurn, false)
      {
        ScanStep(b, isWhiteTurn, t, i, j, moves, AllMoves(b, isWhiteTurn, false));
        moves := SquareScan(b, isWhiteTurn, i, j, moves);
      }
      MovesFromRowEnd(b, isWhiteTurn, t, i);
    }
  }

  /** The body of the scan: the square's moves when it holds a piece of the side. */
  method SquareScan(b: Board, isWhiteTurn: bool, i: Coord, j: Coord, moves0: seq<Move>)
    returns (moves: seq<Move>)
    ensures moves == moves0 + SquareMoves(b, isWhiteTurn, PseudoTable(b, false), i, j)
  {
    moves := moves0;
    PseudoTableAt(b, false, i, j);
    var piece := Code(b[i][j]);
    OwnedBySideTest(b[i][j], isWhiteTurn);
    if (isWhiteTurn && IsWhite(piece)) || (!isWhiteTurn && IsBlack(piece)) {
      var pseudoMoves := GetPseudoLegalMoves(b, i, j);
      moves := PushMoves(moves, Square(i, j), pseudoMoves);
    }
  }

  // Evaluation.

  /** `evaluateBoard` of ChessGame.tsx: the signed material, an integer. */
  method EvaluateBoard(b: Board) returns (score: int)
    ensures score == Evaluate(Legacy, b)
  {
    score := 0;
    for i := 0 to 8
      invariant score + MaterialFrom(Legacy, b, i, 0) == Material(Legacy, b)
    {
      for j := 0 to 8
        invariant score + MaterialFrom(Legacy, b, i, j) == Material(Legacy, b)
      {
        var piece := b[i][j];
        if piece != Empty {
          var val := PieceScore(Legacy, piece.kind);
          score := score + if piece.white then val else -val;
        }
      }
    }
  }

  // Search.

  /** `isMaximizing ? Math.max(best, evalScore) : Math.min(best, evalScore)` */
  function Extreme(isMax: bool, x: Ext, y: Ext): Ext
  {
    if isMax then Max(x, y) else Min(x, y)
  }

  /** One iteration of the loop of `minimax`: folding subtree `k` into the running
      best leaves the value of the whole node unchanged. */
  lemma ExtremeStep(ts: seq<Search.Tree>, k: nat, isMax: bool, best: Ext)
    requires k < |ts|
    ensures Extreme(isMax, best, Search.TreeExtreme(ts[k..], isMax))
      == Extreme(isMax, Extreme(isMax, best, Search.TreeValue(ts[k], !isMax)), Search.TreeExtreme(ts[k + 1..], isMax))
  {
    assert ts[k..][0] == ts[k] && ts[k..][1..] == ts[k + 1..];
    var v, rest := Search.TreeValue(ts[k], !isMax), Search.TreeExtreme(ts[k + 1..], isMax);
    if isMax { MaxAssociative(best, v, rest); } else { MinAssociative(best, v, rest); }
  }

  /** The loop of `minimax` starts from the infinity that loses for the mover and ends
      when no subtree is left. */
  lemma ExtremeEnds(ts: seq<Search.Tree>, isMax: bool, best: Ext)
    ensures Extreme(isMax, if isMax then NegInf else PosInf, Search.TreeExtreme(ts[0..], isMax)) == Search.TreeExtreme(ts, isMax)
    ensures Extreme(isMax, best, Search.TreeExtreme(ts[|ts|..], isMax)) == best
  {
    assert ts[0..] == ts && ts[|ts|..] == [];
  }

  /** `minimax(board, depth, isMax)` of ChessGame.tsx. */
  method Minimax(b: Board, depth: nat, isMax: bool) returns (v: Ext)
    ensures v == Search.Minimax(Legacy, b, depth, isMax)
    decreases depth, 2
  {
    if depth == 0 {
      Search.MinimaxLeaf(Legacy, b, depth, isMax);
      var e := EvaluateBoard(b);
      return Fin(e);
    }
    var moves := GetAllLegalMoves(b, isMax);
    if |moves| == 0 {
      Search.MinimaxLeaf(Legacy, b, depth, isMax);
      var e := EvaluateBoard(b);
      return Fin(e);
    }
    Search.MinimaxNode(Legacy, b, depth, isMax);
    v := BestOf(b, depth, isMax, moves);
  }

  /** The loop of `minimax` over the moves, from -Infinity or +Infinity. */
  method BestOf(b: Board, depth: nat, isMax: bool, moves: seq<Move>) returns (best: Ext)
    requires depth >= 1 && moves == Search.Moves(Legacy, b, isMax) && moves != []
    ensures best == Search.TreeExtreme(Search.GameTree(Legacy, b, depth, isMax).kids, isMax)
    decreases depth, 1
  {
    ghost var ts := Search.GameTree(Legacy, b, depth, isMax).kids;
    best := if isMax then NegInf else PosInf;
    ExtremeEnds(ts, isMax, best);
    for k := 0 to |moves|
      invariant Extreme(isMax, best, Search.TreeExtreme(ts[k..], isMax)) == Search.TreeExtreme(ts, isMax)
    {
      ExtremeStep(ts, k, isMax, best);
      var evalScore := ChildMinimax(b, depth, isMax, moves, k);
      best := if isMax then Max(best, evalScore) else Min(best, evalScore);
    }
    ExtremeEnds(ts, isMax, best);
  }

  /** One child of the loop: the move played on a copy and searched one ply shallower
      by the other side. */
  method ChildMinimax(b: Board, depth: nat, isMax: bool, moves: seq<Move>, k: nat) returns (v: Ext)
    requires depth >= 1 && moves == Search.Moves(Legacy, b, isMax) && k < |moves|
    ensures v == Search.TreeValue(Search.GameTree(Legacy, b, depth, isMax).kids[k], !isMax)
    decreases depth, 0
  {
    var d := depth - 1;
    Search.GameTreeKid(Legacy, b, depth, isMax, k, d);
    var copy := Apply(b, moves[k]);
    v := Minimax(copy, d, !isMax);
  }

  // The root.

  /** The choice of the loop of `minimaxRoot` after the scored moves `es`: a move is
      kept when it scores strictly better than the one kept so far, starting from the
      infinity that loses for the mover. */
  function FirstBest(es: seq<Scored>, isMax: bool): RootResult
    decreases |es|
  {
    if es == [] then RootResult(None, if isMax then NegInf else PosInf)
    else
      var r := FirstBest(es[..|es| - 1], isMax);
      var last := es[|es| - 1];
      if Better(isMax, last.score, r.value) then RootResult(Some(last.move), last.score) else r
  }

  /** `minimaxRoot(board, depth, isMax)` of ChessGame.tsx: every move of the older
      generator scored by the plain search one ply shallower, the first best kept. */
  function LegacyRoot(b: Board, depth: nat, isMax: bool): RootResult
    requires depth >= 1
  {
    FirstBest(Scores(Search.Moves(Legacy, b, isMax), ChildValues(Legacy, b, depth, isMax)), isMax)
  }

  /** The loop keeps the first entry that no entry beats: when every score is finite,
      a move is kept exactly when there is one, it is an entry with its own score, no
      entry scores strictly better, and every entry before it scores strictly worse. */
  lemma {:induction false} FirstBestSpec(es: seq<Scored>, isMax: bool)
    requires forall q | 0 <= q < |es| :: es[q].score.Fin?
    ensures var r := FirstBest(es, isMax);
      && (r.move.None? <==> es == [])
      && (es == [] ==> r.value == if isMax then NegInf else PosInf)
      && (forall q | 0 <= q < |es| :: !Better(isMax, es[q].score, r.value))
      && (es != [] ==> exists k | 0 <= k < |es| ::
            es[k] == Scored(r.move.value, r.value) && forall q | 0 <= q < k :: Better(isMax, r.value, es[q].score))
    decreases |es|
  {
    if es != [] {
      var n := |es|;
      var pre := es[..n - 1];
      var last := es[n - 1];
      assert forall q | 0 <= q < |pre| :: pre[q] == es[q];
      FirstBestSpec(pre, isMax);
      var r0 := FirstBest(pre, isMax);
      var r := FirstBest(es, isMax);
      if Better(isMax, last.score, r0.value) {
        assert r == RootResult(Some(last.move), last.score);
        forall q | 0 <= q < n ensures !Better(isMax, es[q].score, r.value) {
          if q < n - 1 {
            assert !Better(isMax, pre[q].score, r0.value);
            if Better(isMax, es[q].score, r.value) {
              BetterTransitive(isMax, es[q].score, r.value, r0.value);
            }
          }
        }
        forall q | 0 <= q < n - 1 ensures Better(isMax, r.value, es[q].score) {
          assert !Better(isMax, pre[q].score, r0.value);
          NotBetterTotal(isMax, pre[q].score, r0.value);
          if pre[q].score != r0.value {
            BetterTransitive(isMax, r.value, r0.value, es[q].score);
          }
        }
      } else {
        assert r == r0 && pre != [];
        var k :| 0 <= k < |pre| && pre[k] == Scored(r0.move.value, r0.value)
          && forall q | 0 <= q < k :: Better(isMax, r0.value, pre[q].score);
        assert es[k] == pre[k];
      }
    }
  }

  lemma FirstBestStep(es: seq<Scored>, k: nat, isMax: bool)
    requires k < |es|
    ensures FirstBest(es[..k + 1], isMax) ==
      var r := FirstBest(es[..k], isMax);
      if Better(isMax, es[k].score, r.value) then RootResult(Some(es[k].move), es[k].score) else r
  {
    assert es[..k + 1][..k] == es[..k];
  }

  lemma FirstBestEnds(es: seq<Scored>, isMax: bool)
    ensures FirstBest(es[..0], isMax) == RootResult(None, if isMax then NegInf else PosInf)
    ensures FirstBest(es[..|es|], isMax) == FirstBest(es, isMax)
  {
    assert es[..0] == [] && es[..|es|] == es;
  }

  /** `minimaxRoot` of ChessGame.tsx: each move played on a copy and searched by the
      plain minimax one ply shallower; a move is kept when it is strictly better than
      the best so far. */
  method MinimaxRoot(b: Board, depth: nat, isMax: bool) returns (bestMove: Option<Move>, bestEval: Ext)
    requires depth >= 1
    ensures RootResult(bestMove, bestEval) == LegacyRoot(b, depth, isMax)
  {
    var moves := GetAllLegalMoves(b, isMax);
    ghost var es := Scores(moves, ChildValues(Legacy, b, depth, isMax));
    bestMove := None;
    bestEval := if isMax then NegInf else PosInf;
    FirstBestEnds(es, isMax);
    for k := 0 to |moves|
      invariant RootResult(bestMove, bestEval) == FirstBest(es[..k], isMax)
    {
      FirstBestStep(es, k, isMax);
      var evalScore := ScoreChild(b, depth, isMax, moves[k]);
      assert es[k] == Scored(moves[k], evalScore);
      if if isMax then Lt(bestEval, evalScore) else Lt(evalScore, bestEval) {
        bestEval := evalScore;
        bestMove := Some(moves[k]);
      }
    }
    FirstBestEnds(es, isMax);
  }

  /** The body of the loop of `minimaxRoot`: the move played on a copy and searched by
      the other side one ply shallower. */
  method ScoreChild(b: Board, depth: nat, isMax: bool, move: Move) returns (evalScore: Ext)
    requires depth >= 1
    ensures evalScore == ChildValues(Legacy, b, depth, isMax)(move)
  {
    var d := depth - 1;
    var copy := Apply(b, move);
    evalScore := Minimax(copy, d, !isMax);
    Search.ChildValueIs(Legacy, b, move, depth, d, isMax);
  }

  /** `FirstBestSpec` for the moves `ms` scored by `val`. */
  lemma FirstBestOf(ms: seq<Move>, val: Move -> Ext, isMax: bool)
    requires forall m | m in ms :: val(m).Fin?
    ensures var r := FirstBest(Scores(ms, val), isMax);
      && (r.move.None? <==> ms == [])
      && (ms == [] ==> r.value == if isMax then NegInf else PosInf)
      && (forall m | m in ms :: !Better(isMax, val(m), r.value))
      && (ms != [] ==> exists k | 0 <= k < |ms| ::
            ms[k] == r.move.value && r.value == val(ms[k]) && forall q | 0 <= q < k :: Better(isMax, r.value, val(ms[q])))
  {
    var es := Scores(ms, val);
    assert forall q | 0 <= q < |ms| :: es[q].score == val(ms[q]) && ms[q] in ms;
    FirstBestSpec(es, isMax);
    var r := FirstBest(es, isMax);
    forall m | m in ms ensures !Better(isMax, val(m), r.value) {
      var q :| 0 <= q < |ms| && ms[q] == m;
      assert !Better(isMax, es[q].score, r.value);
    }
    if ms != [] {
      var k :| 0 <= k < |es| && es[k] == Scored(r.move.value, r.value)
        && forall q | 0 <= q < k :: Better(isMax, r.value, es[q].score);
      assert ms[k] == r.move.value;
    }
  }

  /** The root reports no move, with the losing infinity, exactly when the side has no
      move. */
  lemma LegacyRootNone(b: Board, depth: nat, isMax: bool)
    requires depth >= 1
    ensures var r := LegacyRoot(b, depth, isMax);
      && (r.move.None? <==> Search.Moves(Legacy, b, isMax) == [])
      && (r.move.None? ==> r.value == if isMax then NegInf else PosInf)
  {
    ChildValuesFinite(Legacy, b, depth, isMax);
    FirstBestOf(Search.Moves(Legacy, b, isMax), ChildValues(Legacy, b, depth, isMax), isMax);
  }

  /** Otherwise the root plays the first of the side's moves whose child value no move
      beats, and reports that value. */
  lemma LegacyRootFirstBest(b: Board, depth: nat, isMax: bool)
    requires depth >= 1 && Search.Moves(Legacy, b, isMax) != []
    ensures var r := LegacyRoot(b, depth, isMax);
      var ms := Search.Moves(Legacy, b, isMax);
      && r.move.Some?
      && (forall m | m in ms :: !Better(isMax, Search.ChildValue(Legacy, b, m, depth, isMax), r.value))
      && exists k | 0 <= k < |ms| ::
           && ms[k] == r.move.value && r.value == Search.ChildValue(Legacy, b, ms[k], depth, isMax)
           && forall q | 0 <= q < k :: Better(isMax, r.value, Search.ChildValue(Legacy, b, ms[q], depth, isMax))
  {
    var ms := Search.Moves(Legacy, b, isMax);
    var val := ChildValues(Legacy, b, depth, isMax);
    ChildValuesFinite(Legacy, b, depth, isMax);
    FirstBestOf(ms, val, isMax);
    assert forall m: Move :: val(m) == Search.ChildValue(Legacy, b, m, depth, isMax);
  }

  /** The value the root reports is the minimax value of the position itself. */
  lemma LegacyRootIsMinimax(b: Board, depth: nat, isMax: bool)
    requires depth >= 1 && Search.Moves(Legacy, b, isMax) != []
    ensures LegacyRoot(b, depth, isMax).value == Search.Minimax(Legacy, b, depth, isMax)
  {
    var ms := Search.Moves(Legacy, b, isMax);
    var r := LegacyRoot(b, depth, isMax);
    var v := Search.Minimax(Legacy, b, depth, isMax);
    LegacyRootFirstBest(b, depth, isMax);
    Search.MinimaxIsBestChild(Legacy, b, depth, isMax);
    var k :| 0 <= k < |ms| && ms[k] == r.move.value && r.value == Search.ChildValue(Legacy, b, ms[k], depth, isMax);
    assert ms[k] in ms;
    var m :| m in ms && v == Search.ChildValue(Legacy, b, m, depth, isMax);
    assert !Better(isMax, v, r.value);
    LeTotal(v, r.value);
    if isMax { LeAntisymmetric(r.value, v); } else { LeAntisymmetric(v, r.value); }
  }
}
