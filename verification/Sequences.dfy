/** Facts about sequences that several components use. */
module Sequences {
  lemma Assoc<T>(a: seq<T>, b: seq<T>, c: seq<T>, d: seq<T>)
    ensures a + b + c + d == a + (b + c + d) == a + (b + (c + d))
    ensures a + b + c == a + (b + c)
  {
    assert a + b + c + d == a + (b + c + d);
    assert b + c + d == b + (c + d);
  }

  function Flatten<T>(groups: seq<seq<T>>): seq<T> {
    if groups == [] then [] else Flatten(groups[..|groups| - 1]) + groups[|groups| - 1]
  }

  lemma {:induction false} FlattenCons<T>(first: seq<T>, rest: seq<seq<T>>)
    ensures Flatten([first] + rest) == first + Flatten(rest)
  {
    var groups := [first] + rest;
    var n := |rest|;
    if n == 0 {
      assert groups == [first] && groups[..0] == [];
    } else {
      assert groups[..n] == [first] + rest[..n - 1] && groups[n] == rest[n - 1];
      FlattenCons(first, rest[..n - 1]);
      Assoc(first, Flatten(rest[..n - 1]), rest[n - 1], []);
    }
  }

  lemma {:induction false} FlattenPush<T>(groups: seq<seq<T>>, group: seq<T>)
    ensures Flatten(groups + [group]) == Flatten(groups) + group
  {
    assert (groups + [group])[..|groups|] == groups;
  }

  lemma WithoutCounts<T>(s: seq<T>, k: nat)
    requires k < |s|
    ensures multiset(s[..k] + s[k + 1..]) == multiset(s) - multiset{s[k]}
  {
    assert s == s[..k] + [s[k]] + s[k + 1..];
  }

  function Map<A, B>(f: A -> B, s: seq<A>): seq<B> {
    if s == [] then [] else [f(s[0])] + Map(f, s[1..])
  }

  lemma {:induction false} MapWithout<A, B>(f: A -> B, s: seq<A>, k: nat)
    requires k < |s|
    ensures multiset(Map(f, s)) == multiset{f(s[k])} + multiset(Map(f, s[..k] + s[k + 1..]))
  {
    var left := s[..k] + s[k + 1..];
    if k == 0 {
      assert left == s[1..];
    } else {
      MapWithout(f, s[1..], k - 1);
      assert left[0] == s[0] && left[1..] == s[1..][..k - 1] + s[1..][k..];
    }
  }

  /** Mapping a permutation gives a permutation. */
  lemma {:induction false} MapForgetsOrder<A, B>(f: A -> B, a: seq<A>, b: seq<A>)
    requires multiset(a) == multiset(b)
    ensures multiset(Map(f, a)) == multiset(Map(f, b))
    decreases |a|
  {
    if a == [] {
      assert |b| == |multiset(b)| == 0;
    } else {
      assert a[0] in multiset(b);
      var k :| 0 <= k < |b| && b[k] == a[0];
      WithoutCounts(a, 0);
      assert a[..0] + a[1..] == a[1..];
      WithoutCounts(b, k);
      MapForgetsOrder(f, a[1..], b[..k] + b[k + 1..]);
      MapWithout(f, b, k);
    }
  }
}
