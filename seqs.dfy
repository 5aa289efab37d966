/** Order-preserving filtering of a sequence, the shape of every "try each candidate and
    push the ones that pass" loop of the engine. */
module Sequences {

  /** The entries of `xs` that satisfy `keep`, in their order. */
  function Filter<T>(xs: seq<T>, keep: T -> bool): (r: seq<T>)
    ensures |r| <= |xs|
  {
    if xs == [] then []
    else (if keep(xs[0]) then [xs[0]] else []) + Filter(xs[1..], keep)
  }

  /** `xs` is `ys` with some entries dropped and the rest kept in their order. */
  predicate Embeds<T(==)>(xs: seq<T>, ys: seq<T>)
    decreases |ys|
  {
    if xs == [] then true
    else if ys == [] then false
    else (xs[0] == ys[0] && Embeds(xs[1..], ys[1..])) || Embeds(xs, ys[1..])
  }

  lemma {:induction false} FilterAppend<T>(xs: seq<T>, ys: seq<T>, keep: T -> bool)
    ensures Filter(xs + ys, keep) == Filter(xs, keep) + Filter(ys, keep)
    decreases |xs|
  {
    if xs == [] {
      assert xs + ys == ys;
    } else {
      FilterAppend(xs[1..], ys, keep);
      var head := if keep(xs[0]) then [xs[0]] else [];
      assert (xs + ys)[0] == xs[0];
      assert (xs + ys)[1..] == xs[1..] + ys;
      calc {
        Filter(xs + ys, keep);
        head + Filter(xs[1..] + ys, keep);
        head + (Filter(xs[1..], keep) + Filter(ys, keep));
        (head + Filter(xs[1..], keep)) + Filter(ys, keep);
      }
    }
  }

  /** Filtering a sequence extended by one entry. */
  lemma FilterPush<T>(xs: seq<T>, x: T, keep: T -> bool)
    ensures Filter(xs + [x], keep) == Filter(xs, keep) + if keep(x) then [x] else []
  {
    FilterAppend(xs, [x], keep);
    assert [x][1..] == [];
  }

  /** One step of a filtering loop: `acc` holds the kept entries of `xs`, and `x` is
      pushed exactly when it passes. */
  lemma FilterExtend<T>(acc0: seq<T>, xs: seq<T>, x: T, keep: T -> bool, acc: seq<T>, kept: bool)
    requires acc == acc0 + Filter(xs, keep) && kept == keep(x)
    ensures (if kept then acc + [x] else acc) == acc0 + Filter(xs + [x], keep)
  {
    FilterPush(xs, x, keep);
  }

  /** A prefix one entry longer. */
  lemma PrefixPush<T>(xs: seq<T>, k: nat)
    requires k < |xs|
    ensures xs[..k + 1] == xs[..k] + [xs[k]]
  {
  }

  /** Filtering keeps an entry exactly when it was there and passes. */
  lemma {:induction false} FilterMembers<T>(xs: seq<T>, keep: T -> bool, x: T)
    ensures x in Filter(xs, keep) <==> x in xs && keep(x)
    decreases |xs|
  {
    if xs != [] {
      FilterMembers(xs[1..], keep, x);
      assert xs == [xs[0]] + xs[1..];
    }
  }

  /** A filter that passes everything is the identity. */
  lemma {:induction false} FilterAll<T>(xs: seq<T>, keep: T -> bool)
    requires forall k | 0 <= k < |xs| :: keep(xs[k])
    ensures Filter(xs, keep) == xs
    decreases |xs|
  {
    if xs != [] {
      FilterAll(xs[1..], keep);
      assert xs == [xs[0]] + xs[1..];
    }
  }

  lemma EmbedsSkip<T>(xs: seq<T>, ys: seq<T>, y: T)
    requires Embeds(xs, ys)
    ensures Embeds(xs, [y] + ys)
  {
    assert ([y] + ys)[1..] == ys;
  }

  /** The filtered sequence is a subsequence of the original. */
  lemma {:induction false} FilterEmbeds<T>(xs: seq<T>, keep: T -> bool)
    ensures Embeds(Filter(xs, keep), xs)
    decreases |xs|
  {
    if xs != [] {
      FilterEmbeds(xs[1..], keep);
      var rest := Filter(xs[1..], keep);
      if keep(xs[0]) {
        assert ([xs[0]] + rest)[1..] == rest;
      } else {
        assert Filter(xs, keep) == rest;
      }
    }
  }
}
