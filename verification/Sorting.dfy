/** Sorting by a total order, and sorted lists of distinct values. */
module Sorting {
  /** What `sort` needs: a total order. */
  ghost predicate TotalOrder<T(!new)>(leq: (T, T) -> bool) {
    && (forall a, b :: leq(a, b) || leq(b, a))
    && (forall a, b :: leq(a, b) && leq(b, a) ==> a == b)
    && (forall a, b, c :: leq(a, b) && leq(b, c) ==> leq(a, c))
  }

  function Insert<T>(leq: (T, T) -> bool, x: T, sorted: seq<T>): seq<T> {
    if sorted == [] || leq(x, sorted[0]) then [x] + sorted else [sorted[0]] + Insert(leq, x, sorted[1..])
  }

  function Sort<T>(leq: (T, T) -> bool, xs: seq<T>): seq<T> {
    if xs == [] then [] else Insert(leq, xs[0], Sort(leq, xs[1..]))
  }

  ghost predicate IsSorted<T>(leq: (T, T) -> bool, xs: seq<T>) {
    forall i, j :: 0 <= i < j < |xs| ==> leq(xs[i], xs[j])
  }

  lemma {:induction false} InsertCounts<T>(leq: (T, T) -> bool, x: T, sorted: seq<T>)
    ensures multiset(Insert(leq, x, sorted)) == multiset(sorted) + multiset{x}
  {
    if sorted != [] {
      assert sorted == [sorted[0]] + sorted[1..];
      if !leq(x, sorted[0]) {
        InsertCounts(leq, x, sorted[1..]);
      }
    }
  }

  lemma {:induction false} InsertSorts<T(!new)>(leq: (T, T) -> bool, x: T, sorted: seq<T>)
    requires TotalOrder(leq) && IsSorted(leq, sorted)
    ensures IsSorted(leq, Insert(leq, x, sorted))
    ensures multiset(Insert(leq, x, sorted)) == multiset(sorted) + multiset{x}
  {
    InsertCounts(leq, x, sorted);
    if sorted != [] {
      var first, rest := sorted[0], sorted[1..];
      assert sorted == [first] + rest;
      if leq(x, first) {
      } else {
        InsertSorts(leq, x, rest);
        forall y | y in Insert(leq, x, rest) ensures leq(first, y) {
          assert y in multiset(rest) + multiset{x};
        }
      }
    }
  }

  lemma {:induction false} SortSorts<T(!new)>(leq: (T, T) -> bool, xs: seq<T>)
    requires TotalOrder(leq)
    ensures IsSorted(leq, Sort(leq, xs)) && multiset(Sort(leq, xs)) == multiset(xs)
  {
    if xs != [] {
      SortSorts(leq, xs[1..]);
      InsertSorts(leq, xs[0], Sort(leq, xs[1..]));
      assert xs == [xs[0]] + xs[1..];
    }
  }

  lemma {:induction false} SortedIsUnique<T(!new)>(leq: (T, T) -> bool, a: seq<T>, b: seq<T>)
    requires TotalOrder(leq) && IsSorted(leq, a) && IsSorted(leq, b) && multiset(a) == multiset(b)
    ensures a == b
    decreases |a|
  {
    assert |a| == |multiset(a)| == |multiset(b)| == |b|;
    if a != [] {
      SameFirst(leq, a, b);
      assert a == [a[0]] + a[1..] && b == [b[0]] + b[1..];
      SortedIsUnique(leq, a[1..], b[1..]);
    }
  }

  lemma FirstIsLeast<T(!new)>(leq: (T, T) -> bool, a: seq<T>, x: T)
    requires IsSorted(leq, a) && (forall y :: leq(y, y)) && x in a
    ensures leq(a[0], x)
  {
    var k :| 0 <= k < |a| && a[k] == x;
  }

  lemma RestCounts<T>(a: seq<T>)
    requires a != []
    ensures multiset(a[1..]) == multiset(a) - multiset{a[0]}
  {
    assert a == [a[0]] + a[1..];
  }

  lemma SameFirst<T(!new)>(leq: (T, T) -> bool, a: seq<T>, b: seq<T>)
    requires TotalOrder(leq) && IsSorted(leq, a) && IsSorted(leq, b) && multiset(a) == multiset(b) && |a| == |b| > 0
    ensures a[0] == b[0] && multiset(a[1..]) == multiset(b[1..])
  {
    var first, other := a[0], b[0];
    assert first in multiset(a) && other in multiset(b);
    FirstIsLeast(leq, a, other);
    FirstIsLeast(leq, b, first);
    RestCounts(a);
    RestCounts(b);
  }

  /** Two lists sort to the same list exactly when they are permutations of each other. */
  lemma {:induction false} SortForgetsOrder<T(!new)>(leq: (T, T) -> bool, a: seq<T>, b: seq<T>)
    requires TotalOrder(leq)
    ensures Sort(leq, a) == Sort(leq, b) <==> multiset(a) == multiset(b)
  {
    SortSorts(leq, a);
    SortSorts(leq, b);
    if multiset(a) == multiset(b) {
      SortedIsUnique(leq, Sort(leq, a), Sort(leq, b));
    }
  }

  /** First occurrences only: the insertion order of a JavaScript `Set`. */
  function Distinct<T(==)>(xs: seq<T>): seq<T> {
    if xs == [] then []
    else
      var before, last := Distinct(xs[..|xs| - 1]), xs[|xs| - 1];
      if last in before then before else before + [last]
  }

  function SortedUnique<T(==)>(leq: (T, T) -> bool, xs: seq<T>): seq<T> {
    Sort(leq, Distinct(xs))
  }

  ghost predicate IsDistinct<T>(xs: seq<T>) {
    forall i, j :: 0 <= i < j < |xs| ==> xs[i] != xs[j]
  }

  lemma {:induction false} DistinctKeepsValues<T>(xs: seq<T>)
    ensures IsDistinct(Distinct(xs))
    ensures forall x :: x in Distinct(xs) <==> x in xs
  {
    if xs != [] {
      var n := |xs| - 1;
      DistinctKeepsValues(xs[..n]);
      assert xs == xs[..n] + [xs[n]];
    }
  }

  lemma {:induction false} SortKeepsValues<T(!new)>(leq: (T, T) -> bool, xs: seq<T>)
    requires TotalOrder(leq)
    ensures forall x :: x in Sort(leq, xs) <==> x in xs
  {
    SortSorts(leq, xs);
    forall x ensures x in Sort(leq, xs) <==> x in xs {
      assert x in multiset(xs) <==> x in xs;
      assert x in multiset(Sort(leq, xs)) <==> x in Sort(leq, xs);
    }
  }

  lemma {:induction false} DistinctCounts<T>(xs: seq<T>, x: T)
    requires IsDistinct(xs)
    ensures multiset(xs)[x] == if x in xs then 1 else 0
  {
    if xs != [] {
      var n := |xs| - 1;
      DistinctCounts(xs[..n], x);
      assert xs == xs[..n] + [xs[n]];
    }
  }

  lemma EqualsCountTwice<T>(xs: seq<T>, i: nat, j: nat)
    requires i < j < |xs| && xs[i] == xs[j]
    ensures multiset(xs)[xs[j]] >= 2
  {
    assert xs == xs[..j] + [xs[j]] + xs[j + 1..];
    assert xs[i] in xs[..j];
    assert multiset(xs) == multiset(xs[..j]) + multiset{xs[j]} + multiset(xs[j + 1..]);
  }

  lemma CountsMakeDistinct<T>(xs: seq<T>)
    requires forall x :: multiset(xs)[x] <= 1
    ensures IsDistinct(xs)
  {
    forall i, j | 0 <= i < j < |xs| ensures xs[i] != xs[j] {
      if xs[i] == xs[j] {
        EqualsCountTwice(xs, i, j);
      }
    }
  }

  lemma {:induction false} SortKeepsDistinct<T(!new)>(leq: (T, T) -> bool, xs: seq<T>)
    requires TotalOrder(leq) && IsDistinct(xs)
    ensures IsSorted(leq, Sort(leq, xs)) && IsDistinct(Sort(leq, xs))
    ensures forall x :: x in Sort(leq, xs) <==> x in xs
  {
    SortSorts(leq, xs);
    SortKeepsValues(leq, xs);
    forall x ensures multiset(Sort(leq, xs))[x] <= 1 {
      DistinctCounts(xs, x);
    }
    CountsMakeDistinct(Sort(leq, xs));
  }

  /** `sortedUnique` lists every value once, in order. */
  lemma SortedUniqueLists<T(!new)>(leq: (T, T) -> bool, xs: seq<T>)
    requires TotalOrder(leq)
    ensures IsSorted(leq, SortedUnique(leq, xs)) && IsDistinct(SortedUnique(leq, xs))
    ensures forall x :: x in SortedUnique(leq, xs) <==> x in xs
  {
    DistinctKeepsValues(xs);
    SortKeepsDistinct(leq, Distinct(xs));
  }

  /** Two lists have the same sorted list of distinct values exactly when they have the
      same set of values. */
  lemma SortedUniqueIsTheSet<T(!new)>(leq: (T, T) -> bool, a: seq<T>, b: seq<T>)
    requires TotalOrder(leq)
    ensures SortedUnique(leq, a) == SortedUnique(leq, b) <==> (forall x :: x in a <==> x in b)
  {
    SortedUniqueLists(leq, a);
    SortedUniqueLists(leq, b);
    if forall x :: x in a <==> x in b {
      var p, q := SortedUnique(leq, a), SortedUnique(leq, b);
      forall x ensures multiset(p)[x] == multiset(q)[x] {
        DistinctCounts(p, x);
        DistinctCounts(q, x);
      }
      assert multiset(p) == multiset(q);
      SortedIsUnique(leq, p, q);
    }
  }
}
