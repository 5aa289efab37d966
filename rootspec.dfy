/** The specification of `minimaxRoot` of ChessBotLogic.ts: every safe move is scored
    with a full-window search, the scores are ranked best first and one of the first
    three is drawn at random. The draw `Math.random()` is the parameter `rnd`. */
module RootSpec {
  import opened Pieces
  import opened Boards
  import opened ExtValues
  import opened Evaluation
  import opened Search
  import opened Ranking
  import opened BotLogic

  /** What `minimaxRoot` returns: the chosen move, or none, and its score. */
  datatype RootResult = RootResult(move: Option<Move>, value: Ext)

  /** Each move of `ms` with its value under `val`, in the order of `ms`. */
  function Scores(ms: seq<Move>, val: Move -> Ext): (es: seq<Scored>)
    ensures |es| == |ms|
  {
    seq(|ms|, k requires 0 <= k < |ms| => Scored(ms[k], val(ms[k])))
  }

  /** The score `minimaxRoot` gives a move: the value of the position it leads to,
      searched one ply shallower by the opponent (by the bot with the full window). */
  function ChildValues(e: Engine, b: Board, depth: nat, isMax: bool): Move -> Ext
    requires depth >= 1
  {
    (m: Move) => ChildValue(e, b, m, depth, isMax)
  }

  /** Every move's score is a finite number. */
  lemma ChildValuesFinite(e: Engine, b: Board, depth: nat, isMax: bool)
    requires depth >= 1
    ensures forall m: Move :: ChildValues(e, b, depth, isMax)(m).Fin?
  {
    var d := depth - 1;
    forall m: Move ensures ChildValues(e, b, depth, isMax)(m).Fin? {
      ChildFinite(e, b, m, depth, d, isMax);
    }
  }

  /** `Math.min(3, moveScores.length)` */
  function TopN(n: nat): (r: nat)
    ensures r <= 3 && r <= n && (n > 0 ==> r > 0)
  {
    if n < 3 then n else 3
  }

  /** `Math.floor(Math.random() * topN)` for the draw `rnd` in [0, 1). */
  function Pick(rnd: real, n: nat): (i: nat)
    requires 0.0 <= rnd < 1.0 && n > 0
    ensures i < n
    ensures i == 0 <==> rnd * (n as real) < 1.0
  {
    assert 0.0 <= rnd * (n as real) < n as real;
    (rnd * (n as real)).Floor
  }

  /** The draw among the best `topN` of the scored moves `es`, ranked best first. */
  function Choice(es: seq<Scored>, isMax: bool, rnd: real): RootResult
    requires es != [] && 0.0 <= rnd < 1.0
  {
    var ranked := Sort(es, isMax);
    var chosen := ranked[Pick(rnd, TopN(|ranked|))];
    RootResult(Some(chosen.move), chosen.score)
  }

  /** `minimaxRoot(board, depth, isMax)` with `Math.random()` returning `rnd`: no move
      and the losing infinity when the side has no safe move, otherwise the draw among
      the scored safe moves (`moveScores`, in generation order). */
  function Root(b: Board, depth: nat, isMax: bool, rnd: real): RootResult
    requires depth >= 1 && 0.0 <= rnd < 1.0
  {
    if SafeMoves(b, isMax) == [] then RootResult(None, if isMax then NegInf else PosInf)
    else Choice(Scores(SafeMoves(b, isMax), ChildValues(Bot, b, depth, isMax)), isMax, rnd)
  }

  /** The draw picks one of the scored moves, with its score; fewer than `topN` entries
      beat it, and a draw of the first place picks one that no entry beats. */
  lemma ChoicePicks(es: seq<Scored>, isMax: bool, rnd: real)
    requires es != [] && 0.0 <= rnd < 1.0
    ensures var r := Choice(es, isMax, rnd);
      && r.move.Some?
      && (exists k | 0 <= k < |es| :: es[k] == Scored(r.move.value, r.value))
      && CountBetter(es, r.value, isMax) < TopN(|es|)
      && (Pick(rnd, TopN(|es|)) == 0 ==> forall q | 0 <= q < |es| :: !Better(isMax, es[q].score, r.value))
  {
    var ranked := Sort(es, isMax);
    var idx := Pick(rnd, TopN(|ranked|));
    var chosen := ranked[idx];
    assert chosen in multiset(es);
    SortRanked(es, isMax);
    RankedPosition(ranked, isMax, idx);
    CountSort(es, chosen.score, isMax);
    if idx == 0 {
      CountZero(es, chosen.score, isMax);
    }
  }

  /** The drawn move is one of `ms`, and its score is that move's value. */
  lemma ScoresChoice(ms: seq<Move>, val: Move -> Ext, isMax: bool, rnd: real)
    requires ms != [] && 0.0 <= rnd < 1.0
    ensures var r := Choice(Scores(ms, val), isMax, rnd);
      r.move.Some? && r.move.value in ms && r.value == val(r.move.value)
  {
    var es := Scores(ms, val);
    ChoicePicks(es, isMax, rnd);
    var r := Choice(es, isMax, rnd);
    var k :| 0 <= k < |es| && es[k] == Scored(r.move.value, r.value);
    assert ms[k] == r.move.value;
  }

  /** A draw of the first place (`rnd * topN < 1`) picks a move whose value no move of `ms` beats. */
  lemma ScoresBest(ms: seq<Move>, val: Move -> Ext, isMax: bool, rnd: real)
    requires ms != [] && 0.0 <= rnd < 1.0 && Pick(rnd, TopN(|ms|)) == 0
    ensures forall m | m in ms :: !Better(isMax, val(m), Choice(Scores(ms, val), isMax, rnd).value)
  {
    var es := Scores(ms, val);
    ChoicePicks(es, isMax, rnd);
    var v := Choice(es, isMax, rnd).value;
    forall m | m in ms ensures !Better(isMax, val(m), v) {
      var k :| 0 <= k < |ms| && ms[k] == m;
      assert es[k].score == val(m);
    }
  }

  /** The drawn move's score is at most `topN - 1` places from the best. */
  lemma ScoresRank(ms: seq<Move>, val: Move -> Ext, isMax: bool, rnd: real)
    requires ms != [] && 0.0 <= rnd < 1.0
    ensures CountBetter(Scores(ms, val), Choice(Scores(ms, val), isMax, rnd).value, isMax) < TopN(|ms|)
  {
    ChoicePicks(Scores(ms, val), isMax, rnd);
  }
}
