/**
 * Order-preserving removal of repeated elements.
 *
 * Both day normalisers of the program keep the first occurrence of every
 * value and drop later repeats, walking the list once with a `seen` set.
 */
module Deduplication {

  predicate Distinct<T(==)>(xs: seq<T>) {
    forall i, j :: 0 <= i < j < |xs| ==> xs[i] != xs[j]
  }

  /** Index of the first occurrence of `x` in `xs`. */
  function FirstIndex<T(==)>(xs: seq<T>, x: T): (i: nat)
    requires x in xs
    ensures i < |xs| && xs[i] == x
    ensures x !in xs[..i]
  {
    if xs[0] == x then 0
    else
      var i := 1 + FirstIndex(xs[1..], x);
      assert xs[..i] == [xs[0]] + xs[1..][..i - 1];
      i
  }

  lemma FirstIndexOfTail<T>(xs: seq<T>, y: T)
    requires |xs| > 0 && y in xs[1..] && y != xs[0]
    ensures FirstIndex(xs, y) == 1 + FirstIndex(xs[1..], y)
  {
  }

  /**
   * The elements of `xs` not in `seen`, each kept at its first occurrence:
   * the state of the source's loop after `seen` has been filled.
   */
  function DedupFrom<T(==)>(xs: seq<T>, seen: set<T>): (r: seq<T>)
    ensures Distinct(r)
    ensures forall k :: 0 <= k < |r| ==> r[k] in xs && r[k] !in seen
    ensures forall k :: 0 <= k < |xs| ==> xs[k] in seen || xs[k] in r
    ensures |r| <= |xs|
    decreases |xs|
  {
    if |xs| == 0 then []
    else if xs[0] in seen then DedupFrom(xs[1..], seen)
    else [xs[0]] + DedupFrom(xs[1..], seen + {xs[0]})
  }

  /** `xs` without repeats, in first-occurrence order. */
  function Dedup<T(==)>(xs: seq<T>): (r: seq<T>)
    ensures Distinct(r)
    ensures forall k :: 0 <= k < |r| ==> r[k] in xs
    ensures forall k :: 0 <= k < |xs| ==> xs[k] in r
    ensures |r| <= |xs|
  {
    DedupFrom(xs, {})
  }

  /**
   * The survivors of `DedupFrom` appear in the order in which they first
   * occur in the input.
   */
  lemma {:induction false} DedupFromOrder<T>(xs: seq<T>, seen: set<T>)
    ensures forall i, j :: 0 <= i < j < |DedupFrom(xs, seen)| ==>
      FirstIndex(xs, DedupFrom(xs, seen)[i]) < FirstIndex(xs, DedupFrom(xs, seen)[j])
    decreases |xs|
  {
    if |xs| > 0 {
      var x := xs[0];
      var r := DedupFrom(xs, seen);
      if x in seen {
        DedupFromOrder(xs[1..], seen);
        forall k | 0 <= k < |r|
          ensures FirstIndex(xs, r[k]) == 1 + FirstIndex(xs[1..], r[k])
        {
          FirstIndexOfTail(xs, r[k]);
        }
      } else {
        var rest := DedupFrom(xs[1..], seen + {x});
        DedupFromOrder(xs[1..], seen + {x});
        assert r == [x] + rest;
        forall k | 0 <= k < |rest|
          ensures FirstIndex(xs, rest[k]) == 1 + FirstIndex(xs[1..], rest[k])
        {
          assert rest[k] in rest;
          FirstIndexOfTail(xs, rest[k]);
        }
        forall i, j | 0 <= i < j < |r|
          ensures FirstIndex(xs, r[i]) < FirstIndex(xs, r[j])
        {
          if i > 0 {
            assert r[i] == rest[i - 1] && r[j] == rest[j - 1];
          } else {
            assert r[j] == rest[j - 1];
          }
        }
      }
    }
  }

  /** `Dedup` keeps first-occurrence order. */
  lemma DedupOrder<T>(xs: seq<T>)
    ensures forall i, j :: 0 <= i < j < |Dedup(xs)| ==>
      FirstIndex(xs, Dedup(xs)[i]) < FirstIndex(xs, Dedup(xs)[j])
  {
    DedupFromOrder(xs, {});
  }

  /** A list without repeats is left as it is. */
  lemma {:induction false} DedupFromDistinct<T>(xs: seq<T>, seen: set<T>)
    requires Distinct(xs)
    requires forall k :: 0 <= k < |xs| ==> xs[k] !in seen
    ensures DedupFrom(xs, seen) == xs
    decreases |xs|
  {
    if |xs| > 0 {
      assert forall k :: 0 <= k < |xs[1..]| ==> xs[1..][k] !in seen + {xs[0]} by {
        forall k | 0 <= k < |xs[1..]| ensures xs[1..][k] != xs[0] {
          assert xs[1..][k] == xs[k + 1];
        }
      }
      DedupFromDistinct(xs[1..], seen + {xs[0]});
      assert [xs[0]] + xs[1..] == xs;
    }
  }

  lemma DedupOfDistinct<T>(xs: seq<T>)
    requires Distinct(xs)
    ensures Dedup(xs) == xs
  {
    DedupFromDistinct(xs, {});
  }

  /** Deduplicating twice is deduplicating once. */
  lemma DedupIdempotent<T>(xs: seq<T>)
    ensures Dedup(Dedup(xs)) == Dedup(xs)
  {
    DedupOfDistinct(Dedup(xs));
  }

  /**
   * The source's loop: walk `xs` once, appending every element not yet in
   * `seen`. It computes `Dedup`.
   */
  method DedupScan<T(==)>(xs: seq<T>) returns (out: seq<T>)
    ensures out == Dedup(xs)
  {
    var seen: set<T> := {};
    out := [];
    var i := 0;
    while i < |xs|
      invariant 0 <= i <= |xs|
      invariant out + DedupFrom(xs[i..], seen) == Dedup(xs)
    {
      assert xs[i..][1..] == xs[i + 1..];
      if xs[i] !in seen {
        seen := seen + {xs[i]};
        out := out + [xs[i]];
      }
      i := i + 1;
    }
  }
}
