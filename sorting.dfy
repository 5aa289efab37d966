/** Ranking of the root moves by their scores, as `moveScores.sort` with the
    comparator `isMax ? b.score - a.score : a.score - b.score`: best first for the side
    to move. */
module Ranking {
  import opened Boards
  import opened ExtValues
  import opened Sequences

  /** An entry of `moveScores`. */
  datatype Scored = Scored(move: Move, score: Ext)

  /** `x` is strictly better than `y` for the mover: larger for white, smaller for black. */
  predicate Better(isMax: bool, x: Ext, y: Ext)
  {
    if isMax then Lt(y, x) else Lt(x, y)
  }

  /** Best first: no entry is strictly better than an entry before it. */
  predicate Ranked(es: seq<Scored>, isMax: bool)
  {
    forall p, q | 0 <= p < q < |es| :: !Better(isMax, es[q].score, es[p].score)
  }

  /** How many entries score strictly better than `v`. */
  function CountBetter(es: seq<Scored>, v: Ext, isMax: bool): (n: nat)
    ensures n <= |es|
  {
    if es == [] then 0
    else (if Better(isMax, es[0].score, v) then 1 else 0) + CountBetter(es[1..], v, isMax)
  }

  /** Places `x` before the first entry of `es` that is not strictly better than it. */
  function Insert(x: Scored, es: seq<Scored>, isMax: bool): (r: seq<Scored>)
    ensures multiset(r) == multiset(es) + multiset{x}
    ensures |r| == |es| + 1
  {
    if es == [] || !Better(isMax, es[0].score, x.score) then [x] + es
    else
      assert es == [es[0]] + es[1..];
      [es[0]] + Insert(x, es[1..], isMax)
  }

  /** The sorted copy of `es`, best first. */
  function Sort(es: seq<Scored>, isMax: bool): (r: seq<Scored>)
    ensures multiset(r) == multiset(es)
    ensures |r| == |es|
  {
    if es == [] then []
    else
      assert es == [es[0]] + es[1..];
      Insert(es[0], Sort(es[1..], isMax), isMax)
  }

  lemma BetterTransitive(isMax: bool, x: Ext, y: Ext, z: Ext)
    requires Better(isMax, x, y) && Better(isMax, y, z)
    ensures Better(isMax, x, z)
  {
    if isMax { LeTransitive(z, y, x); } else { LeTransitive(x, y, z); }
  }

  lemma NotBetterTotal(isMax: bool, x: Ext, y: Ext)
    requires !Better(isMax, x, y)
    ensures x == y || Better(isMax, y, x)
  {
    LeTotal(x, y);
  }

  lemma {:induction false} InsertRanked(x: Scored, es: seq<Scored>, isMax: bool)
    requires Ranked(es, isMax)
    ensures Ranked(Insert(x, es, isMax), isMax)
    decreases |es|
  {
    if es != [] && Better(isMax, es[0].score, x.score) {
      assert Ranked(es[1..], isMax) by {
        forall p, q | 0 <= p < q < |es[1..]| ensures !Better(isMax, es[1..][q].score, es[1..][p].score) {
          assert es[1..][q] == es[q + 1] && es[1..][p] == es[p + 1];
        }
      }
      InsertRanked(x, es[1..], isMax);
      var tail := Insert(x, es[1..], isMax);
      var r := [es[0]] + tail;
      forall q | 0 < q < |r| ensures !Better(isMax, r[q].score, r[0].score) {
        assert r[q] in multiset(tail);
        assert r[q] == x || r[q] in es[1..];
        if r[q] != x {
          var k :| 0 <= k < |es[1..]| && es[1..][k] == r[q];
          assert es[k + 1] == r[q];
        }
      }
      forall p, q | 0 <= p < q < |r| ensures !Better(isMax, r[q].score, r[p].score) {
        if p > 0 {
          assert r[p] == tail[p - 1] && r[q] == tail[q - 1];
        }
      }
    } else {
      var r := [x] + es;
      forall p, q | 0 <= p < q < |r| ensures !Better(isMax, r[q].score, r[p].score) {
        if p == 0 {
          assert r[q] == es[q - 1];
          if q > 1 {
            NotBetterTotal(isMax, es[0].score, x.score);
            if es[0].score != x.score && Better(isMax, es[q - 1].score, x.score) {
              BetterTransitive(isMax, es[q - 1].score, x.score, es[0].score);
            }
          }
        } else {
          assert r[p] == es[p - 1] && r[q] == es[q - 1];
        }
      }
    }
  }

  /** `sort`: the entries best first. */
  lemma {:induction false} SortRanked(es: seq<Scored>, isMax: bool)
    ensures Ranked(Sort(es, isMax), isMax)
    decreases |es|
  {
    if es != [] {
      SortRanked(es[1..], isMax);
      InsertRanked(es[0], Sort(es[1..], isMax), isMax);
    }
  }

  lemma {:induction false} CountInsert(x: Scored, es: seq<Scored>, v: Ext, isMax: bool)
    ensures CountBetter(Insert(x, es, isMax), v, isMax) == CountBetter([x], v, isMax) + CountBetter(es, v, isMax)
    decreases |es|
  {
    if es != [] && Better(isMax, es[0].score, x.score) {
      CountInsert(x, es[1..], v, isMax);
      assert ([es[0]] + Insert(x, es[1..], isMax))[1..] == Insert(x, es[1..], isMax);
    } else {
      assert ([x] + es)[1..] == es;
    }
  }

  /** Sorting neither adds nor drops an entry better than any given score. */
  lemma {:induction false} CountSort(es: seq<Scored>, v: Ext, isMax: bool)
    ensures CountBetter(Sort(es, isMax), v, isMax) == CountBetter(es, v, isMax)
    decreases |es|
  {
    if es != [] {
      CountSort(es[1..], v, isMax);
      CountInsert(es[0], Sort(es[1..], isMax), v, isMax);
    }
  }

  lemma {:induction false} CountNone(es: seq<Scored>, v: Ext, isMax: bool)
    requires forall q | 0 <= q < |es| :: !Better(isMax, es[q].score, v)
    ensures CountBetter(es, v, isMax) == 0
    decreases |es|
  {
    if es != [] {
      CountNone(es[1..], v, isMax);
    }
  }

  /** No entry beats `v` when none is counted. */
  lemma {:induction false} CountZero(es: seq<Scored>, v: Ext, isMax: bool)
    requires CountBetter(es, v, isMax) == 0
    ensures forall q | 0 <= q < |es| :: !Better(isMax, es[q].score, v)
    decreases |es|
  {
    if es != [] {
      CountZero(es[1..], v, isMax);
      forall q | 0 < q < |es| ensures !Better(isMax, es[q].score, v) {
        assert es[q] == es[1..][q - 1];
      }
    }
  }

  lemma {:induction false} CountPrefix(es: seq<Scored>, v: Ext, isMax: bool, n: nat)
    requires n <= |es|
    requires forall q | n <= q < |es| :: !Better(isMax, es[q].score, v)
    ensures CountBetter(es, v, isMax) <= n
    decreases n
  {
    if n == 0 {
      CountNone(es, v, isMax);
    } else {
      CountPrefix(es[1..], v, isMax, n - 1);
    }
  }

  /** In a ranked list, fewer than `idx + 1` entries beat the entry at `idx`. */
  lemma RankedPosition(es: seq<Scored>, isMax: bool, idx: nat)
    requires Ranked(es, isMax) && idx < |es|
    ensures CountBetter(es, es[idx].score, isMax) <= idx
  {
    forall q | idx <= q < |es| ensures !Better(isMax, es[q].score, es[idx].score) {
      if q == idx {
        assert !Lt(es[q].score, es[q].score);
      }
    }
    CountPrefix(es, es[idx].score, isMax, idx);
  }

  /** The entries scoring exactly `v`. */
  function ScoreIs(v: Ext): Scored -> bool
  {
    (e: Scored) => e.score == v
  }

  lemma FilterCons(x: Scored, es: seq<Scored>, keep: Scored -> bool)
    ensures Filter([x] + es, keep) == (if keep(x) then [x] else []) + Filter(es, keep)
  {
    assert ([x] + es)[0] == x && ([x] + es)[1..] == es;
  }

  /** Inserting puts `x` before every entry of equal score: among the entries of one score,
      `x` comes first and the others keep their order. */
  lemma {:induction false} InsertStable(x: Scored, es: seq<Scored>, isMax: bool, v: Ext)
    ensures Filter(Insert(x, es, isMax), ScoreIs(v)) == Filter([x] + es, ScoreIs(v))
    decreases |es|
  {
    if es != [] && Better(isMax, es[0].score, x.score) {
      InsertStable(x, es[1..], isMax, v);
      FilterCons(es[0], Insert(x, es[1..], isMax), ScoreIs(v));
      FilterCons(x, es[1..], ScoreIs(v));
      FilterCons(x, es, ScoreIs(v));
      assert es == [es[0]] + es[1..];
      FilterCons(es[0], es[1..], ScoreIs(v));
      assert !(es[0].score == v && x.score == v);
    }
  }

  /** `sort` is stable: the entries of any one score keep their relative order. */
  lemma {:induction false} SortStable(es: seq<Scored>, isMax: bool, v: Ext)
    ensures Filter(Sort(es, isMax), ScoreIs(v)) == Filter(es, ScoreIs(v))
    decreases |es|
  {
    if es != [] {
      SortStable(es[1..], isMax, v);
      InsertStable(es[0], Sort(es[1..], isMax), isMax, v);
      FilterCons(es[0], Sort(es[1..], isMax), ScoreIs(v));
      assert es == [es[0]] + es[1..];
      FilterCons(es[0], es[1..], ScoreIs(v));
    }
  }
}
