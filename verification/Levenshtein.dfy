/** Edit distance and typo suggestions (crates/config/src/levenshtein.rs).

    `Distance` is the specification of the two-row table the program fills in.
    It is justified from outside by `IsLeastEditCount`: it is the length of the
    shortest chain of one-element edits, and it is shown to be a metric. */
module Levenshtein {
  import opened Wrappers
  import opened Text

  function Last(s: string): char
    requires s != []
  {
    s[|s| - 1]
  }

  function Init(s: string): string
    requires s != []
  {
    s[..|s| - 1]
  }

  function Mismatch(x: char, y: char): nat {
    if x != y then 1 else 0
  }

  /** The distance between two strings, by their last elements. */
  function Distance(a: string, b: string): nat
    decreases |a| + |b|
  {
    if a == [] then |b|
    else if b == [] then |a|
    else
      Min(Min(Distance(Init(a), b) + 1, Distance(a, Init(b)) + 1),
          Distance(Init(a), Init(b)) + Mismatch(Last(a), Last(b)))
  }

  /** The table cell for the prefixes of length i and j, from its three neighbours. */
  lemma TableCell(a: string, b: string, i: nat, j: nat)
    requires 1 <= i <= |a| && 1 <= j <= |b|
    ensures Distance(a[..i], b[..j])
         == Min(Min(Distance(a[..i - 1], b[..j]) + 1, Distance(a[..i], b[..j - 1]) + 1),
                Distance(a[..i - 1], b[..j - 1]) + Mismatch(a[i - 1], b[j - 1]))
  {
    hide Distance;
    hide Min;
    hide Mismatch;
    var x, y := a[..i], b[..j];
    assert Init(x) == a[..i - 1] && Init(y) == b[..j - 1];
    LastCell(x, y);
  }

  lemma LastCell(x: string, y: string)
    requires x != [] && y != []
    ensures Distance(x, y)
         == Min(Min(Distance(Init(x), y) + 1, Distance(x, Init(y)) + 1),
                Distance(Init(x), Init(y)) + Mismatch(Last(x), Last(y)))
  {
    hide Init;
    hide Last;
    hide Min;
    hide Mismatch;
  }

  lemma TableEdge(a: string, b: string)
    ensures a == [] ==> Distance(a, b) == |b|
    ensures b == [] ==> Distance(a, b) == |a|
  {
  }

  /** The two-row dynamic program: `prev` holds row i - 1 and `curr` row i. */
  method ComputeDistance(a: string, b: string) returns (d: nat)
    ensures d == Distance(a, b)
  {
    hide Distance;
    if |a| == 0 {
      TableEdge(a, b);
      return |b|;
    }
    if |b| == 0 {
      TableEdge(a, b);
      return |a|;
    }
    var prev := new nat[|b| + 1](j => j);
    var curr := new nat[|b| + 1](_ => 0);
    forall j | 0 <= j <= |b|
      ensures Distance(a[..0], b[..j]) == j
    {
      TableEdge(a[..0], b[..j]);
    }
    for i := 1 to |a| + 1
      invariant prev != curr && fresh(prev) && fresh(curr)
      invariant prev.Length == curr.Length == |b| + 1
      invariant forall j :: 0 <= j <= |b| ==> prev[j] == Distance(a[..i - 1], b[..j])
    {
      curr[0] := i;
      TableEdge(a[..i], b[..0]);
      for j := 1 to |b| + 1
        invariant forall k :: 0 <= k <= |b| ==> prev[k] == Distance(a[..i - 1], b[..k])
        invariant forall k :: 0 <= k < j ==> curr[k] == Distance(a[..i], b[..k])
      {
        var cost := if a[i - 1] != b[j - 1] then 1 else 0;
        TableCell(a, b, i, j);
        curr[j] := Min(Min(prev[j] + 1, curr[j - 1] + 1), prev[j - 1] + cost);
      }
      prev, curr := curr, prev;
    }
    assert a[..|a|] == a && b[..|b|] == b;
    return prev[|b|];
  }

  // ----- The metric laws

  /** Removing the last element of either string changes the distance by at most one. */
  lemma {:induction false} DropLastStep(a: string, b: string)
    ensures a != [] ==> Distance(a, b) <= Distance(Init(a), b) + 1
    ensures b != [] ==> Distance(a, b) <= Distance(a, Init(b)) + 1
    decreases |a| + |b|
  {
  }

  lemma {:induction false} LastStep(a: string, b: string)
    ensures a != [] && b != [] ==> Distance(a, b) <= Distance(Init(a), Init(b)) + Mismatch(Last(a), Last(b))
  {
  }

  /** One of the three ways of ending is always a best one. */
  lemma {:induction false} BestLastStep(a: string, b: string)
    requires a != [] || b != []
    ensures || (a != [] && Distance(a, b) == Distance(Init(a), b) + 1)
            || (b != [] && Distance(a, b) == Distance(a, Init(b)) + 1)
            || (a != [] && b != []
                && Distance(a, b) == Distance(Init(a), Init(b)) + Mismatch(Last(a), Last(b)))
  {
  }

  lemma {:induction false} ZeroIffEqual(a: string, b: string)
    ensures Distance(a, b) == 0 <==> a == b
    decreases |a| + |b|
  {
    if a != [] && b != [] {
      ZeroIffEqual(Init(a), Init(b));
      assert a == Init(a) + [Last(a)] && b == Init(b) + [Last(b)];
    }
  }

  lemma {:induction false} Symmetric(a: string, b: string)
    ensures Distance(a, b) == Distance(b, a)
    decreases |a| + |b|
  {
    if a != [] && b != [] {
      Symmetric(Init(a), b);
      Symmetric(a, Init(b));
      Symmetric(Init(a), Init(b));
    }
  }

  lemma {:induction false} LengthBounds(a: string, b: string)
    ensures |a| <= |b| + Distance(a, b)
    ensures |b| <= |a| + Distance(a, b)
    ensures Distance(a, b) <= if |a| <= |b| then |b| else |a|
    decreases |a| + |b|
  {
    if a != [] && b != [] {
      LengthBounds(Init(a), b);
      LengthBounds(a, Init(b));
      LengthBounds(Init(a), Init(b));
    }
  }

  lemma {:induction false} TriangleInequality(a: string, b: string, c: string)
    ensures Distance(a, c) <= Distance(a, b) + Distance(b, c)
    decreases |a| + |b| + |c|
  {
    if a == [] || b == [] || c == [] {
      LengthBounds(a, b);
      LengthBounds(b, c);
      LengthBounds(a, c);
    } else {
      // The last step of a best way from a to b and of one from b to c.
      TriangleInequality(Init(a), b, c);
      TriangleInequality(a, b, Init(c));
      TriangleInequality(a, Init(b), c);
      TriangleInequality(a, Init(b), Init(c));
      TriangleInequality(Init(a), Init(b), c);
      TriangleInequality(Init(a), Init(b), Init(c));
    }
  }

  // ----- Optimality: the least number of one-element edits

  /** `y` is obtained from `x` by replacing, removing or adding one element. */
  ghost predicate OneEdit(x: string, y: string) {
    exists p: string, q: string, old_: string, new_: string :: EditAt(x, y, p, q, old_, new_)
  }

  ghost predicate EditAt(x: string, y: string, p: string, q: string, old_: string, new_: string) {
    && x == p + old_ + q
    && y == p + new_ + q
    && |old_| <= 1 && |new_| <= 1
  }

  /** A chain of strings, each one edit away from the one before. */
  ghost predicate EditChain(chain: seq<string>, a: string, b: string) {
    && chain != [] && chain[0] == a && chain[|chain| - 1] == b
    && forall i :: 0 < i < |chain| ==> OneEdit(chain[i - 1], chain[i])
  }

  lemma {:induction false} CommonSuffix(u: string, v: string, q: string)
    ensures Distance(u + q, v + q) <= Distance(u, v)
    decreases |q|
  {
    if q == [] {
      assert u + q == u && v + q == v;
    } else {
      hide Distance;
      CommonSuffix(u, v, Init(q));
      assert Init(u + q) == u + Init(q) && Init(v + q) == v + Init(q);
      LastStep(u + q, v + q);
    }
  }

  lemma {:induction false} EditAtEnd(p: string, old_: string, new_: string)
    requires |old_| <= 1 && |new_| <= 1
    ensures Distance(p + old_, p + new_) <= 1
  {
    hide Distance;
    ZeroIffEqual(p, p);
    if old_ == [] && new_ == [] {
      assert p + old_ == p == p + new_;
    } else if old_ == [] {
      assert p + old_ == p && Init(p + new_) == p;
      DropLastStep(p, p + new_);
    } else if new_ == [] {
      assert p + new_ == p && Init(p + old_) == p;
      DropLastStep(p + old_, p);
    } else {
      assert Init(p + old_) == p == Init(p + new_);
      LastStep(p + old_, p + new_);
    }
  }

  lemma OneEditIsNear(x: string, y: string)
    requires OneEdit(x, y)
    ensures Distance(x, y) <= 1
  {
    var p: string, q: string, old_: string, new_: string :| EditAt(x, y, p, q, old_, new_);
    CommonSuffix(p + old_, p + new_, q);
    EditAtEnd(p, old_, new_);
  }

  /** Lower bound: no chain is shorter than the distance. */
  lemma {:induction false} ChainIsLongEnough(chain: seq<string>, a: string, b: string)
    requires EditChain(chain, a, b)
    ensures Distance(a, b) <= |chain| - 1
    decreases |chain|
  {
    if |chain| == 1 {
      ZeroIffEqual(a, b);
    } else {
      var shorter := chain[..|chain| - 1];
      var next := shorter[|shorter| - 1];
      ChainIsLongEnough(shorter, a, next);
      OneEditIsNear(next, b);
      TriangleInequality(a, next, b);
    }
  }

  /** Appending the same element to every string of a chain. */
  function AppendToAll(chain: seq<string>, x: char): seq<string> {
    seq(|chain|, i requires 0 <= i < |chain| => chain[i] + [x])
  }

  lemma AppendToAllIsChain(chain: seq<string>, a: string, b: string, x: char)
    requires EditChain(chain, a, b)
    ensures EditChain(AppendToAll(chain, x), a + [x], b + [x])
  {
    var longer := AppendToAll(chain, x);
    forall i | 0 < i < |longer|
      ensures OneEdit(longer[i - 1], longer[i])
    {
      var p: string, q: string, old_: string, new_: string :| EditAt(chain[i - 1], chain[i], p, q, old_, new_);
      assert EditAt(longer[i - 1], longer[i], p, q + [x], old_, new_);
    }
  }

  /** Extending a chain by one more edit. */
  lemma ExtendChain(chain: seq<string>, a: string, b: string, c: string)
    requires EditChain(chain, a, b) && OneEdit(b, c)
    ensures EditChain(chain + [c], a, c)
  {
  }

  /** Putting one more edit in front of a chain. */
  lemma PrependChain(chain: seq<string>, a: string, b: string, c: string)
    requires OneEdit(a, b) && EditChain(chain, b, c)
    ensures EditChain([a] + chain, a, c)
  {
    var longer := [a] + chain;
    forall i | 0 < i < |longer|
      ensures OneEdit(longer[i - 1], longer[i])
    {
      assert longer[i] == chain[i - 1];
    }
  }

  lemma LastElementEdits(s: string, x: char)
    requires s != []
    ensures OneEdit(s, Init(s)) && OneEdit(Init(s), s) && OneEdit(Init(s) + [x], s)
  {
    var y := Last(s);
    assert EditAt(s, Init(s), Init(s), [], [y], []);
    assert EditAt(Init(s), s, Init(s), [], [], [y]);
    assert EditAt(Init(s) + [x], s, Init(s), [], [x], [y]);
  }

  /** Achievability: some chain has exactly the distance as its length. */
  lemma {:induction false} ShortestChain(a: string, b: string) returns (chain: seq<string>)
    ensures EditChain(chain, a, b) && |chain| - 1 == Distance(a, b)
    decreases |a| + |b|, 1
  {
    if a == [] && b == [] {
      chain := [a];
      return;
    }
    BestLastStep(a, b);
    if b != [] && Distance(a, b) == Distance(a, Init(b)) + 1 {
      chain := ShortestChain(a, Init(b));
      LastElementEdits(b, Last(b));
      ExtendChain(chain, a, Init(b), b);
      chain := chain + [b];
    } else if a != [] && Distance(a, b) == Distance(Init(a), b) + 1 {
      chain := ShortestChain(Init(a), b);
      LastElementEdits(a, Last(a));
      PrependChain(chain, a, Init(a), b);
      chain := [a] + chain;
    } else {
      chain := ShortestChainSameEnd(a, b);
    }
  }

  lemma {:induction false} ShortestChainSameEnd(a: string, b: string) returns (chain: seq<string>)
    requires a != [] && b != []
    requires Distance(a, b) == Distance(Init(a), Init(b)) + Mismatch(Last(a), Last(b))
    ensures EditChain(chain, a, b) && |chain| - 1 == Distance(a, b)
    decreases |a| + |b|, 0
  {
    var x, y := Last(a), Last(b);
    var shorter := ShortestChain(Init(a), Init(b));
    AppendToAllIsChain(shorter, Init(a), Init(b), x);
    chain := AppendToAll(shorter, x);
    assert Init(a) + [x] == a && Init(b) + [y] == b;
    if x != y {
      LastElementEdits(b, x);
      ExtendChain(chain, a, Init(b) + [x], b);
      chain := chain + [b];
    }
  }

  /** The distance is the least number of one-element edits from `a` to `b`. */
  lemma IsLeastEditCount(a: string, b: string)
    ensures exists chain: seq<string> :: EditChain(chain, a, b) && |chain| - 1 == Distance(a, b)
    ensures forall chain: seq<string> :: EditChain(chain, a, b) ==> Distance(a, b) <= |chain| - 1
  {
    var _ := ShortestChain(a, b);
    forall chain: seq<string> | EditChain(chain, a, b)
      ensures Distance(a, b) <= |chain| - 1
    {
      ChainIsLongEnough(chain, a, b);
    }
  }

  // ----- Suggestions

  function ToAsciiLowercase(s: string): string {
    seq(|s|, i requires 0 <= i < |s| => AsciiLower(s[i]))
  }

  /** How far a candidate is from the input, ignoring ASCII case. */
  function TypoDistance(input: string, candidate: string): nat {
    Distance(ToAsciiLowercase(input), ToAsciiLowercase(candidate))
  }

  /** Candidate `k` is the first of the nearest ones. */
  ghost predicate IsFirstNearest(input: string, candidates: seq<string>, k: nat) {
    && k < |candidates|
    && (forall i :: 0 <= i < |candidates| ==>
          TypoDistance(input, candidates[k]) <= TypoDistance(input, candidates[i]))
    && (forall i :: 0 <= i < k ==>
          TypoDistance(input, candidates[k]) < TypoDistance(input, candidates[i]))
  }

  /** A typo that is worth a suggestion. */
  predicate Plausible(input: string, d: nat) {
    0 < d <= 2 && d < |input| / 2
  }

  method ClosestMatch(input: string, candidates: seq<string>) returns (r: Option<string>)
    ensures r.Some? ==> exists k: nat :: IsFirstNearest(input, candidates, k) && r.value == candidates[k]
                                    && Plausible(input, TypoDistance(input, candidates[k]))
    ensures r.None? ==> forall k: nat :: IsFirstNearest(input, candidates, k)
                                    ==> !Plausible(input, TypoDistance(input, candidates[k]))
  {
    var inputLower := ToAsciiLowercase(input);
    var best: Option<(string, nat)> := None;
    ghost var at := 0;
    for n := 0 to |candidates|
      invariant best.None? <==> n == 0
      invariant best.Some? ==> at < n && best.value.0 == candidates[at]
                               && best.value.1 == TypoDistance(input, candidates[at])
                               && IsFirstNearest(input, candidates[..n], at)
    {
      var candidate := candidates[n];
      var d := ComputeDistance(inputLower, ToAsciiLowercase(candidate));
      if best.None? || d < best.value.1 {
        best := Some((candidate, d));
        at := n;
      }
      assert candidates[..n + 1] == candidates[..n] + [candidate];
    }
    assert candidates[..|candidates|] == candidates;
    if best.Some? && best.value.1 > 0 && best.value.1 <= 2 && |inputLower| / 2 > best.value.1 {
      r := Some(best.value.0);
      assert IsFirstNearest(input, candidates, at);
    } else {
      r := None;
      forall k: nat | IsFirstNearest(input, candidates, k)
        ensures !Plausible(input, TypoDistance(input, candidates[k]))
      {
        assert k == at;
      }
    }
  }

  /** A suggestion differs from the input by more than case, and by at most two edits. */
  lemma SuggestionIsNeverTheInput(input: string, candidate: string)
    requires Plausible(input, TypoDistance(input, candidate))
    ensures ToAsciiLowercase(input) != ToAsciiLowercase(candidate)
    ensures |candidate| <= |input| + 2 && |input| <= |candidate| + 2
    ensures |input| >= 4
  {
    ZeroIffEqual(ToAsciiLowercase(input), ToAsciiLowercase(candidate));
    LengthBounds(ToAsciiLowercase(input), ToAsciiLowercase(candidate));
  }

  /** Ignoring case, that many edits lead from the input to the candidate. */
  ghost predicate WithinEdits(input: string, candidate: string, n: nat) {
    exists chain: seq<string> :: EditChain(chain, ToAsciiLowercase(input), ToAsciiLowercase(candidate)) && |chain| - 1 <= n
  }

  lemma WithinIffNear(input: string, candidate: string, n: nat)
    ensures WithinEdits(input, candidate, n) <==> TypoDistance(input, candidate) <= n
  {
    hide EditChain;
    IsLeastEditCount(ToAsciiLowercase(input), ToAsciiLowercase(candidate));
  }

  /** A candidate is worth a suggestion exactly when it is one edit away from an input
      of at least four characters, or two edits from one of at least six. */
  lemma PlausibleMeans(input: string, candidate: string)
    ensures Plausible(input, TypoDistance(input, candidate))
       <==> && !WithinEdits(input, candidate, 0)
            && ((WithinEdits(input, candidate, 1) && |input| >= 4) || (WithinEdits(input, candidate, 2) && |input| >= 6))
  {
    WithinIffNear(input, candidate, 0);
    WithinIffNear(input, candidate, 1);
    WithinIffNear(input, candidate, 2);
    hide WithinEdits;
    hide TypoDistance;
  }
}
