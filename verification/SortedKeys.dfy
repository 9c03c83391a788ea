/** Sets of strings and their sorted listings: the program's ordered sets, and the
    vectors it sorts before it stores them. */
module SortedKeys {

  /** The order of strings: by the first difference, a prefix first. */
  predicate Below(a: string, b: string) {
    if b == [] then false
    else if a == [] then true
    else a[0] < b[0] || (a[0] == b[0] && Below(a[1..], b[1..]))
  }

  lemma {:induction false} BelowIsTotal(a: string, b: string)
    ensures !(Below(a, b) && Below(b, a))
    ensures a == b || Below(a, b) || Below(b, a)
    ensures a == b ==> !Below(a, b)
  {
    if a != [] && b != [] && a[0] == b[0] {
      BelowIsTotal(a[1..], b[1..]);
      assert a == [a[0]] + a[1..] && b == [b[0]] + b[1..];
    }
  }

  lemma {:induction false} BelowIsTransitive(a: string, b: string, c: string)
    requires Below(a, b) && Below(b, c)
    ensures Below(a, c)
  {
    if a != [] && a[0] == b[0] == c[0] {
      BelowIsTransitive(a[1..], b[1..], c[1..]);
    }
  }

  /** Up to `k` the strings agree; there `a` ends, or has the smaller character. */
  predicate FirstDiffersBelow(a: string, b: string, k: nat) {
    k <= |a| && k < |b| && a[..k] == b[..k] && (k == |a| || a[k] < b[k])
  }

  /** The order goes by the first difference, and a proper prefix comes first. */
  lemma {:induction false} BelowMeans(a: string, b: string)
    ensures Below(a, b) <==> exists k :: FirstDiffersBelow(a, b, k)
    decreases |a|
  {
    if a == [] || b == [] {
      assert b != [] ==> FirstDiffersBelow(a, b, 0);
    } else {
      var x, y := a[1..], b[1..];
      BelowMeans(x, y);
      if a[0] < b[0] {
        assert FirstDiffersBelow(a, b, 0);
      }
      if k: nat :| FirstDiffersBelow(x, y, k) && a[0] == b[0] {
        assert a[..k + 1] == [a[0]] + x[..k] && b[..k + 1] == [b[0]] + y[..k];
        assert FirstDiffersBelow(a, b, k + 1);
      }
      if k: nat :| FirstDiffersBelow(a, b, k) {
        if k > 0 {
          assert a[0] == a[..k][0] == b[..k][0] == b[0];
          assert x[..k - 1] == a[..k][1..] && y[..k - 1] == b[..k][1..];
          assert FirstDiffersBelow(x, y, k - 1);
        }
      }
    }
  }

  ghost predicate StrictlySorted(s: seq<string>) {
    forall i, j :: 0 <= i < j < |s| ==> Below(s[i], s[j])
  }

  function Elements(s: seq<string>): set<string> {
    set key | key in s
  }

  /** There is one strictly sorted listing of a set. */
  lemma {:induction false} SortedIsCanonical(a: seq<string>, b: seq<string>)
    requires StrictlySorted(a) && StrictlySorted(b) && Elements(a) == Elements(b)
    ensures a == b
  {
    if a == [] || b == [] {
      assert forall s: seq<string> :: s != [] ==> s[0] in Elements(s);
    } else {
      SameLeast(a, b);
      SameRest(a);
      SameRest(b);
      assert StrictlySorted(a[1..]) && StrictlySorted(b[1..]);
      SortedIsCanonical(a[1..], b[1..]);
      assert a == [a[0]] + a[1..] && b == [b[0]] + b[1..];
    }
  }

  lemma SameLeast(a: seq<string>, b: seq<string>)
    requires a != [] && b != [] && StrictlySorted(a) && StrictlySorted(b) && Elements(a) == Elements(b)
    ensures a[0] == b[0]
  {
    assert a[0] in Elements(b) && b[0] in Elements(a);
    var i :| 0 <= i < |b| && b[i] == a[0];
    var j :| 0 <= j < |a| && a[j] == b[0];
    BelowIsTotal(a[0], b[0]);
  }

  lemma SameRest(s: seq<string>)
    requires s != [] && StrictlySorted(s)
    ensures Elements(s[1..]) == Elements(s) - {s[0]}
  {
    assert s == [s[0]] + s[1..];
    forall key | key in s[1..]
      ensures key != s[0]
    {
      BelowIsTotal(key, key);
    }
  }

  /** Put `key` in its place. */
  function Insert(s: seq<string>, key: string): (r: seq<string>)
    requires StrictlySorted(s) && key !in s
    ensures StrictlySorted(r) && Elements(r) == Elements(s) + {key}
  {
    if s == [] then [key]
    else if Below(key, s[0]) then
      assert StrictlySorted([key] + s) by {
        forall i | 0 < i < |s|
          ensures Below(key, s[i])
        {
          BelowIsTransitive(key, s[0], s[i]);
        }
      }
      [key] + s
    else
      var rest := Insert(s[1..], key);
      assert StrictlySorted([s[0]] + rest) by {
        BelowIsTotal(s[0], key);
        forall i | 0 <= i < |rest|
          ensures Below(s[0], rest[i])
        {
          assert rest[i] in Elements(rest);
        }
      }
      [s[0]] + rest
  }

  /** The strictly sorted listing of a set. */
  ghost function Sorted(keys: set<string>): (s: seq<string>)
    ensures StrictlySorted(s) && Elements(s) == keys
  {
    if keys == {} then [] else
      var key :| key in keys;
      assert key !in Elements(Sorted(keys - {key}));
      Insert(Sorted(keys - {key}), key)
  }

  /** Whatever order the set is walked in, the listing is the same. */
  method SortKeys(keys: set<string>) returns (sorted: seq<string>)
    ensures sorted == Sorted(keys)
  {
    sorted := [];
    var todo := keys;
    while todo != {}
      invariant StrictlySorted(sorted) && Elements(sorted) == keys - todo && todo <= keys
      decreases todo
    {
      var key :| key in todo;
      assert key !in Elements(sorted);
      sorted := Insert(sorted, key);
      todo := todo - {key};
    }
    SortedIsCanonical(sorted, Sorted(keys));
  }

  lemma SortedHasNoDuplicates(s: seq<string>)
    requires StrictlySorted(s)
    ensures |Elements(s)| == |s| && forall i, j :: 0 <= i < j < |s| ==> s[i] != s[j]
    decreases |s|
  {
    forall i, j | 0 <= i < j < |s|
      ensures s[i] != s[j]
    {
      BelowIsTotal(s[i], s[j]);
    }
    if s != [] {
      SameRest(s);
      assert StrictlySorted(s[1..]);
      SortedHasNoDuplicates(s[1..]);
    }
  }

  // ----- Sorting a list that may hold duplicates

  ghost predicate Ascending(s: seq<string>) {
    forall i, j :: 0 <= i < j < |s| ==> !Below(s[j], s[i])
  }

  function InsertAscending(s: seq<string>, x: string): (r: seq<string>)
    requires Ascending(s)
    ensures Ascending(r) && multiset(r) == multiset(s) + multiset{x}
  {
    if s == [] || !Below(s[0], x) then
      AscendingFront(x, s);
      [x] + s
    else
      var rest := InsertAscending(s[1..], x);
      assert s == [s[0]] + s[1..];
      AscendingAfter(s, x, rest);
      [s[0]] + rest
  }

  lemma AscendingFront(x: string, s: seq<string>)
    requires Ascending(s) && (s != [] ==> !Below(s[0], x))
    ensures Ascending([x] + s)
  {
    var r := [x] + s;
    forall j | 0 < j < |r|
      ensures !Below(r[j], x)
    {
      BelowIsTotal(s[j - 1], x);
      BelowIsTotal(s[0], s[j - 1]);
      if Below(s[j - 1], x) && s[0] != s[j - 1] {
        assert Below(s[0], s[j - 1]);
        BelowIsTransitive(s[0], s[j - 1], x);
      }
    }
  }

  lemma AscendingAfter(s: seq<string>, x: string, rest: seq<string>)
    requires s != [] && Ascending(s) && Below(s[0], x)
    requires Ascending(rest) && multiset(rest) == multiset(s[1..]) + multiset{x}
    ensures Ascending([s[0]] + rest)
  {
    forall j | 0 <= j < |rest|
      ensures !Below(rest[j], s[0])
    {
      BelowIsTotal(s[0], x);
      assert rest[j] in multiset(rest);
      assert rest[j] in s[1..] || rest[j] == x;
    }
  }

  function SortStrings(s: seq<string>): (r: seq<string>)
    ensures Ascending(r) && multiset(r) == multiset(s)
  {
    if s == [] then []
    else
      assert s == s[..|s| - 1] + [s[|s| - 1]];
      InsertAscending(SortStrings(s[..|s| - 1]), s[|s| - 1])
  }

  /** There is one ascending arrangement of a multiset. */
  lemma {:induction false} AscendingIsCanonical(a: seq<string>, b: seq<string>)
    requires Ascending(a) && Ascending(b) && multiset(a) == multiset(b)
    ensures a == b
    decreases |a|
  {
    hide Ascending;
    assert |a| == |multiset(a)| == |multiset(b)| == |b|;
    if a != [] {
      SameFirst(a, b);
      RestAscends(a);
      RestAscends(b);
      AscendingIsCanonical(a[1..], b[1..]);
      assert a == [a[0]] + a[1..] && b == [b[0]] + b[1..];
    }
  }

  lemma RestAscends(s: seq<string>)
    requires s != [] && Ascending(s)
    ensures Ascending(s[1..]) && multiset(s[1..]) == multiset(s) - multiset{s[0]}
  {
    assert s == [s[0]] + s[1..];
  }

  lemma SameFirst(a: seq<string>, b: seq<string>)
    requires a != [] && b != [] && Ascending(a) && Ascending(b) && multiset(a) == multiset(b)
    ensures a[0] == b[0]
  {
    hide Below;
    assert a[0] in multiset(b) && b[0] in multiset(a);
    var i :| 0 <= i < |b| && b[i] == a[0];
    var j :| 0 <= j < |a| && a[j] == b[0];
    BelowIsTotal(a[0], b[0]);
  }
}
