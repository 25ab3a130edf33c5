/** The left-to-right, non-overlapping search of `finditer`, over positions
    `0..n-1` of any document. `hit(i)` says that a match starts at `i`,
    `found(i)` is that match, and `start`/`end` give a match's span; after a
    match the search resumes at its end, otherwise at the next position. */
module Finditer {
  import Seqs

  /** Every match found starts where it was found and ends after that, within
      the document. */
  predicate Spans<M>(n: nat, hit: nat -> bool, found: nat -> M, start: M -> nat, end: M -> nat) {
    forall i :: 0 <= i < n && hit(i) ==> start(found(i)) == i < end(found(i)) <= n
  }

  /** No match contains the start of another one after its own start. */
  predicate NoHitInside<M>(n: nat, hit: nat -> bool, found: nat -> M, end: M -> nat) {
    forall p, q :: 0 <= p < n && hit(p) && p < q < end(found(p)) ==> !hit(q)
  }

  /** `m` is what the search finds at a hit at or after `from`. */
  ghost predicate Reported<M>(n: nat, hit: nat -> bool, found: nat -> M, start: M -> nat, from: nat, m: M) {
    from <= start(m) < n && hit(start(m)) && m == found(start(m))
  }

  function Search<M>(n: nat, hit: nat -> bool, found: nat -> M, start: M -> nat, end: M -> nat,
                     from: nat): seq<M>
    requires from <= n && Spans(n, hit, found, start, end)
    decreases n - from
  {
    if from == n then []
    else if hit(from) then [found(from)] + Search(n, hit, found, start, end, end(found(from)))
    else Search(n, hit, found, start, end, from + 1)
  }

  /** Every match reported was found at a hit at or after `from`, and the
      matches come in document order without overlapping. */
  lemma {:induction false} SearchSound<M>(n: nat, hit: nat -> bool, found: nat -> M,
                                          start: M -> nat, end: M -> nat, from: nat)
    requires from <= n && Spans(n, hit, found, start, end)
    ensures forall j :: 0 <= j < |Search(n, hit, found, start, end, from)| ==>
              Reported(n, hit, found, start, from, Search(n, hit, found, start, end, from)[j])
    ensures Seqs.Ordered(start, end, Search(n, hit, found, start, end, from))
    decreases n - from
  {
    if from < n {
      if hit(from) {
        var m := found(from);
        assert start(m) == from < end(m) <= n;
        var rest := Search(n, hit, found, start, end, end(m));
        SearchSound(n, hit, found, start, end, end(m));
        var ms := [m] + rest;
        assert Search(n, hit, found, start, end, from) == ms;
        forall j | 1 <= j < |ms|
          ensures Reported(n, hit, found, start, from, ms[j])
        {
          assert ms[j] == rest[j - 1];
          assert Reported(n, hit, found, start, end(m), rest[j - 1]);
        }
        forall j | 0 <= j < |ms| - 1
          ensures end(ms[j]) <= start(ms[j + 1])
        {
          assert ms[j + 1] == rest[j];
          if j > 0 {
            assert ms[j] == rest[j - 1];
          }
        }
      } else {
        assert Search(n, hit, found, start, end, from) == Search(n, hit, found, start, end, from + 1);
        SearchSound(n, hit, found, start, end, from + 1);
      }
    }
  }

  /** The search reports nothing exactly when there is no hit at or after
      `from`. */
  lemma {:induction false} SearchEmptyIff<M>(n: nat, hit: nat -> bool, found: nat -> M,
                                             start: M -> nat, end: M -> nat, from: nat)
    requires from <= n && Spans(n, hit, found, start, end)
    ensures Search(n, hit, found, start, end, from) == [] <==> forall i :: from <= i < n ==> !hit(i)
    decreases n - from
  {
    if from < n && !hit(from) {
      SearchEmptyIff(n, hit, found, start, end, from + 1);
    }
  }

  /** When no match contains another hit, every hit at or after `from` starts
      one of the reported matches; `j` is its index. */
  lemma {:induction false} SearchComplete<M>(n: nat, hit: nat -> bool, found: nat -> M,
                                             start: M -> nat, end: M -> nat, from: nat, i: nat)
    returns (j: nat)
    requires from <= i < n && hit(i)
    requires Spans(n, hit, found, start, end) && NoHitInside(n, hit, found, end)
    ensures j < |Search(n, hit, found, start, end, from)|
    ensures start(Search(n, hit, found, start, end, from)[j]) == i
    decreases n - from
  {
    var ms := Search(n, hit, found, start, end, from);
    if i == from {
      assert ms[0] == found(from);
      j := 0;
    } else if hit(from) {
      var m := found(from);
      var rest := Search(n, hit, found, start, end, end(m));
      assert ms == [m] + rest;
      var j' := SearchComplete(n, hit, found, start, end, end(m), i);
      assert ms[j' + 1] == rest[j'];
      j := j' + 1;
    } else {
      j := SearchComplete(n, hit, found, start, end, from + 1, i);
    }
  }
}
