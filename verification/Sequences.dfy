/** Facts about sequences and their multisets that several models need. */
module Sequences {

  function Without<T>(s: seq<T>, k: nat): seq<T>
    requires k < |s|
  {
    s[..k] + s[k + 1..]
  }

  lemma MultisetWithout<T>(s: seq<T>, k: nat)
    requires k < |s|
    ensures multiset(s) == multiset(Without(s, k)) + multiset{s[k]}
  {
    var low, high := s[..k], s[k + 1..];
    assert s == low + ([s[k]] + high);
    assert multiset(s) == multiset(low) + multiset([s[k]] + high);
    assert multiset([s[k]] + high) == multiset{s[k]} + multiset(high);
  }

  lemma SmallerMultiset<T>(a: multiset<T>, b: multiset<T>, x: T)
    requires a + multiset{x} <= b + multiset{x}
    ensures a <= b
  {
    assert a == (a + multiset{x}) - multiset{x} && b == (b + multiset{x}) - multiset{x};
  }

  /** The last element of `some` can be found in `all`; without it the rest of
      `some` still fits in the rest of `all`. */
  lemma MatchLast<T>(some: seq<T>, all: seq<T>) returns (k: nat)
    requires some != [] && multiset(some) <= multiset(all)
    ensures k < |all| && all[k] == some[|some| - 1]
    ensures multiset(some[..|some| - 1]) <= multiset(Without(all, k))
  {
    var n := |some| - 1;
    var x := some[n];
    assert x in multiset(some);
    k :| 0 <= k < |all| && all[k] == x;
    MultisetWithout(some, n);
    MultisetWithout(all, k);
    assert Without(some, n) == some[..n];
    SmallerMultiset(multiset(some[..n]), multiset(Without(all, k)), x);
  }

  function Filter<T>(s: seq<T>, keep: T -> bool): seq<T> {
    if s == [] then []
    else Filter(s[..|s| - 1], keep) + (if keep(s[|s| - 1]) then [s[|s| - 1]] else [])
  }

  lemma {:induction false} FilterMember<T>(s: seq<T>, keep: T -> bool, x: T)
    ensures x in Filter(s, keep) <==> x in s && keep(x)
    decreases |s|
  {
    if s != [] {
      FilterMember(s[..|s| - 1], keep, x);
      assert s == s[..|s| - 1] + [s[|s| - 1]];
    }
  }

  lemma {:induction false} FilterAgree<T>(s: seq<T>, p: T -> bool, q: T -> bool)
    requires forall x :: x in s ==> p(x) == q(x)
    ensures Filter(s, p) == Filter(s, q)
    decreases |s|
  {
    if s != [] {
      FilterAgree(s[..|s| - 1], p, q);
    }
  }

  lemma {:induction false} FilterAll<T>(s: seq<T>, keep: T -> bool)
    requires forall x :: x in s ==> keep(x)
    ensures Filter(s, keep) == s
    decreases |s|
  {
    if s != [] {
      FilterAll(s[..|s| - 1], keep);
      assert s == s[..|s| - 1] + [s[|s| - 1]];
    }
  }

  lemma Regroup<T>(out: seq<T>, piece: seq<T>, rest: seq<T>)
    ensures out + (piece + rest) == out + piece + rest
  {
  }

  lemma {:induction false} FilterNone<T>(s: seq<T>, keep: T -> bool)
    ensures Filter(s, keep) == [] <==> forall i :: 0 <= i < |s| ==> !keep(s[i])
    decreases |s|
  {
    if s != [] {
      FilterNone(s[..|s| - 1], keep);
    }
  }

  /** The pieces for the elements, one after the other. */
  function Collect<T, U>(s: seq<T>, pick: T -> seq<U>): seq<U> {
    if s == [] then [] else Collect(s[..|s| - 1], pick) + pick(s[|s| - 1])
  }

  lemma {:induction false} CollectAppend<T, U>(a: seq<T>, b: seq<T>, pick: T -> seq<U>)
    ensures Collect(a + b, pick) == Collect(a, pick) + Collect(b, pick)
    decreases |b|
  {
    if b == [] {
      assert a + b == a;
    } else {
      var n := |b| - 1;
      CollectAppend(a, b[..n], pick);
      assert (a + b)[..|a| + n] == a + b[..n];
    }
  }

  lemma CollectOne<T, U>(x: T, pick: T -> seq<U>)
    ensures Collect([x], pick) == pick(x)
  {
    assert [x][..0] == [];
  }
}
