/** Runs of an abstract reader `f` over a sequence, and spans in order, stated
    once for every element type so that the proofs using them need not unfold
    the elements' own definitions. */
module Seqs {
  import opened Wrappers

  /** `f` reads `xs[k]` as `ys[k]`. Kept as a predicate of its own so that a
      quantifier over `k` fires only where this fact is asked for. */
  ghost predicate ReadAt<X, Y>(f: X -> Option<Y>, xs: seq<X>, ys: seq<Y>, k: nat) {
    k < |xs| && k < |ys| && f(xs[k]) == Some(ys[k])
  }

  /** `ys` is what `f` reads from the longest prefix of `xs` on which it
      succeeds. */
  ghost predicate IsRun<X, Y>(f: X -> Option<Y>, xs: seq<X>, ys: seq<Y>) {
    && |ys| <= |xs|
    && (forall k :: 0 <= k < |ys| ==> ReadAt(f, xs, ys, k))
    && (|ys| < |xs| ==> f(xs[|ys|]).None?)
  }

  lemma RunAt<X, Y>(f: X -> Option<Y>, xs: seq<X>, ys: seq<Y>, k: nat)
    requires IsRun(f, xs, ys) && k < |ys|
    ensures k < |xs| && f(xs[k]) == Some(ys[k])
  {
    assert ReadAt(f, xs, ys, k);
  }

  /** Nothing is read from an empty sequence or one whose first element fails. */
  lemma EmptyRun<X, Y>(f: X -> Option<Y>, xs: seq<X>)
    requires xs == [] || f(xs[0]).None?
    ensures IsRun(f, xs, [])
  {
  }

  /** A run extended at the front: if `f` reads `xs[0]` as `y` and `ys` is the
      run of `xs[1..]`, then `[y] + ys` is the run of `xs`. */
  lemma ConsRun<X, Y>(f: X -> Option<Y>, xs: seq<X>, y: Y, ys: seq<Y>)
    requires |xs| >= 1 && f(xs[0]) == Some(y)
    requires IsRun(f, xs[1..], ys)
    ensures IsRun(f, xs, [y] + ys)
  {
    forall k | 0 <= k < |[y] + ys|
      ensures ReadAt(f, xs, [y] + ys, k)
    {
      if k > 0 {
        assert ReadAt(f, xs[1..], ys, k - 1);
        assert xs[k] == xs[1..][k - 1];
      }
    }
    if |[y] + ys| < |xs| {
      assert xs[|[y] + ys|] == xs[1..][|ys|];
    }
  }

  /** The run is determined by `f` and `xs`. */
  lemma {:induction false} RunUnique<X, Y>(f: X -> Option<Y>, xs: seq<X>, ys: seq<Y>, zs: seq<Y>)
    requires IsRun(f, xs, ys) && IsRun(f, xs, zs)
    ensures ys == zs
    decreases |xs|
  {
    if ys != [] {
      assert ReadAt(f, xs, ys, 0);
    }
    if zs != [] {
      assert ReadAt(f, xs, zs, 0);
    }
    if ys != [] && zs != [] {
      forall k | 0 <= k < |ys| - 1
        ensures ReadAt(f, xs[1..], ys[1..], k)
      {
        assert ReadAt(f, xs, ys, k + 1);
      }
      forall k | 0 <= k < |zs| - 1
        ensures ReadAt(f, xs[1..], zs[1..], k)
      {
        assert ReadAt(f, xs, zs, k + 1);
      }
      if |ys| - 1 < |xs| - 1 {
        assert xs[1..][|ys| - 1] == xs[|ys|];
      }
      if |zs| - 1 < |xs| - 1 {
        assert xs[1..][|zs| - 1] == xs[|zs|];
      }
      RunUnique(f, xs[1..], ys[1..], zs[1..]);
      assert ys == [ys[0]] + ys[1..] && zs == [zs[0]] + zs[1..];
    }
  }

  /** Spans in increasing order: each one ends before the next begins. */
  predicate Ordered<X>(start: X -> nat, end: X -> nat, xs: seq<X>) {
    forall j :: 0 <= j < |xs| - 1 ==> end(xs[j]) <= start(xs[j + 1])
  }
}
