/** Filtering clone groups against a saved baseline (crates/cli/src/baseline.rs).

    An instance's `file` is its path relative to the project root. */
module CloneBaseline {
  import opened Text
  import opened Sequences
  import opened SortedKeys
  import opened DuplicationStats
  import opened Decimals

  function PartOf(i: Instance): string {
    i.file + ":" + (Print(i.startLine) + "-" + Print(i.endLine))
  }

  function PartsOf(instances: seq<Instance>): (parts: seq<string>)
    ensures |parts| == |instances|
    ensures forall k :: 0 <= k < |instances| ==> parts[k] == PartOf(instances[k])
  {
    seq(|instances|, k requires 0 <= k < |instances| => PartOf(instances[k]))
  }

  function CloneGroupKey(g: Group): string {
    Join(SortStrings(PartsOf(g.instances)), "|")
  }

  predicate IsUnsaved(g: Group, baseline: seq<string>) {
    CloneGroupKey(g) !in baseline
  }

  /** Retain the groups the baseline does not hold; the statistics are recomputed
      from what is left. */
  method FilterNewCloneGroups(groups: seq<Group>, totalLines: nat, baseline: seq<string>)
    returns (kept: seq<Group>, stats: Stats)
    ensures kept == Filter(groups, (g: Group) => IsUnsaved(g, baseline))
    ensures IsStatsOf(stats, kept, totalLines)
  {
    hide CloneGroupKey;
    kept := [];
    for k := 0 to |groups|
      invariant kept == Filter(groups[..k], (g: Group) => IsUnsaved(g, baseline))
    {
      assert groups[..k + 1][..k] == groups[..k];
      if CloneGroupKey(groups[k]) !in baseline {
        kept := kept + [groups[k]];
      }
    }
    assert groups[..|groups|] == groups;
    stats := RecomputeStats(kept, totalLines);
  }

  /** from_report. */
  function KeysOf(groups: seq<Group>): (keys: seq<string>)
    ensures |keys| == |groups| && forall k :: 0 <= k < |groups| ==> keys[k] == CloneGroupKey(groups[k])
  {
    seq(|groups|, k requires 0 <= k < |groups| => CloneGroupKey(groups[k]))
  }

  // ----- What a key says

  lemma RangeHasNoColon(i: Instance)
    ensures var range := Print(i.startLine) + "-" + Print(i.endLine); ':' !in range && '|' !in range
    ensures '-' !in Print(i.endLine) && '|' !in Print(i.endLine)
  {
    PrintIsNumeral(i.startLine);
    PrintIsNumeral(i.endLine);
  }

  /** A part tells the file and both lines, whatever the file is called. */
  lemma PartIsInjective(i: Instance, j: Instance)
    requires PartOf(i) == PartOf(j)
    ensures i == j
  {
    hide Print;
    RangeHasNoColon(i);
    RangeHasNoColon(j);
    var ri, rj := Print(i.startLine) + "-" + Print(i.endLine), Print(j.startLine) + "-" + Print(j.endLine);
    assert i.file + ":" + ri == j.file + ":" + rj;
    LastSplit(i.file, j.file, ri, rj, ':');
    LastSplit(Print(i.startLine), Print(j.startLine), Print(i.endLine), Print(j.endLine), '-');
    PrintIsNumeral(i.startLine);
    PrintIsNumeral(j.startLine);
    PrintIsNumeral(i.endLine);
    PrintIsNumeral(j.endLine);
  }

  lemma PartsWithout(instances: seq<Instance>, k: nat)
    requires k < |instances|
    ensures PartsOf(Without(instances, k)) == Without(PartsOf(instances), k)
  {
  }

  /** The parts agree as multisets exactly when the instances do. */
  lemma {:induction false} PartsAgreeIff(a: seq<Instance>, b: seq<Instance>)
    ensures multiset(PartsOf(a)) == multiset(PartsOf(b)) <==> multiset(a) == multiset(b)
    decreases |a|
  {
    var p, q := PartsOf(a), PartsOf(b);
    assert |multiset(a)| == |a| == |multiset(p)| && |multiset(b)| == |b| == |multiset(q)|;
    if multiset(p) == multiset(q) || multiset(a) == multiset(b) {
      if a != [] {
        var k := Counterpart(a, b);
        PartsWithout(a, 0);
        PartsWithout(b, k);
        MultisetWithout(a, 0);
        MultisetWithout(b, k);
        MultisetWithout(p, 0);
        MultisetWithout(q, k);
        hide PartsOf;
        PartsAgreeIff(Without(a, 0), Without(b, k));
        SameRestIff(multiset(Without(a, 0)), multiset(Without(b, k)), a[0]);
        SameRestIff(multiset(Without(p, 0)), multiset(Without(q, k)), p[0]);
      }
    }
  }

  lemma SameRestIff<T>(a: multiset<T>, b: multiset<T>, x: T)
    ensures a == b <==> a + multiset{x} == b + multiset{x}
  {
    assert (a + multiset{x}) - multiset{x} == a && (b + multiset{x}) - multiset{x} == b;
  }

  lemma Counterpart(a: seq<Instance>, b: seq<Instance>) returns (k: nat)
    requires a != []
    requires multiset(PartsOf(a)) == multiset(PartsOf(b)) || multiset(a) == multiset(b)
    ensures k < |b| && b[k] == a[0] && PartsOf(b)[k] == PartsOf(a)[0]
  {
    if multiset(a) == multiset(b) {
      assert a[0] in multiset(b);
      k :| 0 <= k < |b| && b[k] == a[0];
    } else {
      assert PartsOf(a)[0] in multiset(PartsOf(b));
      k :| 0 <= k < |b| && PartsOf(b)[k] == PartsOf(a)[0];
      PartIsInjective(a[0], b[k]);
    }
  }

  // ----- When different groups share a key

  function SortedParts(g: Group): seq<string> {
    SortStrings(PartsOf(g.instances))
  }

  lemma PartOfSorted(g: Group, k: nat) returns (i: Instance)
    requires k < |SortedParts(g)|
    ensures i in g.instances && SortedParts(g)[k] == PartOf(i)
  {
    hide PartOf;
    var sorted, parts := SortedParts(g), PartsOf(g.instances);
    assert sorted[k] in multiset(sorted);
    assert sorted[k] in parts;
    var j :| 0 <= j < |parts| && parts[j] == sorted[k];
    i := g.instances[j];
  }

  lemma SortedPartsAreNotEmpty(g: Group)
    ensures NoneEmpty(SortedParts(g))
  {
    hide SortedParts;
    forall part | part in SortedParts(g)
      ensures part != ""
    {
      var k :| 0 <= k < |SortedParts(g)| && SortedParts(g)[k] == part;
      var i := PartOfSorted(g, k);
    }
  }

  lemma BarIsInName(i: Instance, start: string)
    requires StartsWith(PartOf(i), start + "|")
    ensures StartsWith(i.file, start + "|")
  {
    RangeHasNoColon(i);
    hide Print;
    var part, n, k := PartOf(i), |i.file|, |start|;
    var range := Print(i.startLine) + "-" + Print(i.endLine);
    assert part[..k + 1][k] == '|' && part[k] == '|';
    assert part[n] == ':';
    assert forall m :: n < m < |part| ==> part[m] == range[m - n - 1];
    assert forall m :: n < m < |part| ==> part[m] in range;
    assert i.file[..k + 1] == part[..k + 1];
  }

  /** A file name in `h` begins with the text of an instance in `g` and a bar. */
  ghost predicate HidesPart(g: Group, h: Group) {
    exists i, j :: i in g.instances && j in h.instances && StartsWith(j.file, PartOf(i) + "|")
  }

  /** Different groups share a key only if a file name of one of them begins with
      the text of an instance of the other and a bar. */
  lemma SameKeyHidesPart(g: Group, h: Group)
    requires CloneGroupKey(g) == CloneGroupKey(h) && multiset(g.instances) != multiset(h.instances)
    ensures HidesPart(g, h) || HidesPart(h, g)
  {
    var p, q := SortedParts(g), SortedParts(h);
    PartsAgreeIff(g.instances, h.instances);
    assert p != q;
    SortedPartsAreNotEmpty(g);
    SortedPartsAreNotEmpty(h);
    assert CloneGroupKey(g) == Join(p, "|") && CloneGroupKey(h) == Join(q, "|");
    hide CloneGroupKey;
    hide SortedParts;
    hide PartOf;
    hide StartsWith;
    var k := FirstDifference(p, q);
    var i := PartOfSorted(g, k);
    var j := PartOfSorted(h, k);
    if StartsWith(q[k], p[k] + "|") {
      BarIsInName(j, PartOf(i));
    } else {
      BarIsInName(i, PartOf(j));
    }
  }

  /** Unless a file name hides a part, the key tells the instances. */
  lemma KeysTellInstances(g: Group, h: Group)
    requires !HidesPart(g, h) && !HidesPart(h, g)
    ensures CloneGroupKey(g) == CloneGroupKey(h) <==> multiset(g.instances) == multiset(h.instances)
  {
    hide HidesPart;
    hide CloneGroupKey;
    if multiset(g.instances) == multiset(h.instances) {
      KeyIgnoresOrder(g, h);
    } else if CloneGroupKey(g) == CloneGroupKey(h) {
      SameKeyHidesPart(g, h);
    }
  }

  /** The order of the instances never changes the key. */
  lemma KeyIgnoresOrder(g: Group, h: Group)
    requires multiset(g.instances) == multiset(h.instances)
    ensures CloneGroupKey(g) == CloneGroupKey(h)
  {
    PartsAgreeIff(g.instances, h.instances);
    AscendingIsCanonical(SortStrings(PartsOf(g.instances)), SortStrings(PartsOf(h.instances)));
  }

  // ----- What filtering does

  /** A baseline saved from a report leaves nothing of a report that has only those
      groups, in any order and with their instances in any order. */
  lemma OwnBaselineDropsAll(saved: seq<Group>, now: seq<Group>, kept: seq<Group>)
    requires forall k :: 0 <= k < |now| ==>
               exists j :: 0 <= j < |saved| && multiset(now[k].instances) == multiset(saved[j].instances)
    requires kept == Filter(now, (g: Group) => IsUnsaved(g, KeysOf(saved)))
    ensures kept == []
  {
    forall k | 0 <= k < |now|
      ensures !IsUnsaved(now[k], KeysOf(saved))
    {
      var j :| 0 <= j < |saved| && multiset(now[k].instances) == multiset(saved[j].instances);
      KeyIgnoresOrder(now[k], saved[j]);
      assert KeysOf(saved)[j] == CloneGroupKey(now[k]);
    }
    FilterNone(now, (g: Group) => IsUnsaved(g, KeysOf(saved)));
  }

  lemma {:induction false} FilterIsSubmultiset<T>(s: seq<T>, keep: T -> bool)
    ensures multiset(Filter(s, keep)) <= multiset(s)
    decreases |s|
  {
    if s != [] {
      FilterIsSubmultiset(s[..|s| - 1], keep);
      assert s == s[..|s| - 1] + [s[|s| - 1]];
    }
  }

  /** Filtering against any baseline raises none of the numbers. */
  lemma FilteringNeverRaises(groups: seq<Group>, totalLines: nat, baseline: seq<string>, kept: seq<Group>, s: Stats, t: Stats)
    requires kept == Filter(groups, (g: Group) => IsUnsaved(g, baseline))
    requires IsStatsOf(s, kept, totalLines) && IsStatsOf(t, groups, totalLines)
    ensures s.duplicatedLines <= t.duplicatedLines && s.filesWithClones <= t.filesWithClones
    ensures s.duplicatedTokens <= t.duplicatedTokens && s.cloneInstances <= t.cloneInstances
    ensures s.cloneGroups <= t.cloneGroups && s.duplicationPercentage <= t.duplicationPercentage
  {
    FilterIsSubmultiset(groups, (g: Group) => IsUnsaved(g, baseline));
    FewerGroupsFewerDuplicates(kept, groups, totalLines, s, t);
  }

  // ----- Every file name that begins with a part and a bar makes groups collide

  lemma {:induction false} BelowBehind(s: string, t: string, u: string)
    ensures Below(s + t, s + u) == Below(t, u)
    decreases |s|
  {
    if s == "" {
      assert s + t == t && s + u == u;
    } else {
      BelowBehind(s[1..], t, u);
      assert (s + t)[1..] == s[1..] + t && (s + u)[1..] == s[1..] + u;
    }
  }

  /** Going on never puts a text before one it was not before. */
  lemma {:induction false} LongerIsNotBelow(a: string, b: string, t: string)
    requires !Below(b, a)
    ensures !Below(b + t, a)
    decreases |b|
  {
    if a != [] && b != [] && a[0] == b[0] {
      LongerIsNotBelow(a[1..], b[1..], t);
      assert (b + t)[1..] == b[1..] + t;
    }
  }

  lemma KeyOfTwo(i: Instance, j: Instance)
    requires !Below(PartOf(j), PartOf(i))
    ensures CloneGroupKey(Group([i, j], 0)) == PartOf(i) + "|" + PartOf(j)
  {
    hide PartOf;
    hide Below;
    var p, q := PartOf(i), PartOf(j);
    assert PartsOf([i, j]) == [p, q];
    AscendingIsCanonical(SortStrings([p, q]), [p, q]);
    hide PartsOf;
    hide SortStrings;
    assert [p, q][1..] == [q] && Join([q], "|") == q;
    assert Join([p, q], "|") == p + "|" + q;
  }

  lemma LineParts(r: string)
    ensures PartOf(Instance(r, 1, 1)) == r + ":1-1" && PartOf(Instance(r, 2, 2)) == r + ":2-2"
    ensures PartOf(Instance(r, 3, 3)) == r + ":3-3"
  {
    assert Print(1) == "1" && Print(2) == "2" && Print(3) == "3";
    hide Print;
    assert "1" + "-" + "1" == "1-1" && "2" + "-" + "2" == "2-2" && "3" + "-" + "3" == "3-3";
    assert r + ":" + "1-1" == r + ":1-1" && r + ":" + "2-2" == r + ":2-2" && r + ":" + "3-3" == r + ":3-3";
  }

  lemma LinesInOrder(r: string, t: string)
    ensures !Below(r + ":2-2", r + ":1-1" + t) && !Below(r + ":3-3", r + ":2-2" + t)
    ensures Below(r + ":1-1", r + ":2-2")
  {
    BelowBehind(r, ":2-2", ":1-1" + t);
    BelowBehind(r, ":3-3", ":2-2" + t);
    BelowBehind(r, ":1-1", ":2-2");
    assert r + (":1-1" + t) == r + ":1-1" + t && r + (":2-2" + t) == r + ":2-2" + t;
    DigitsDecide(":2-2", ":1-1" + t);
    DigitsDecide(":3-3", ":2-2" + t);
    assert Below(":1-1", ":2-2") by {
      assert ":1-1"[1..][0] < ":2-2"[1..][0];
    }
  }

  lemma DigitsDecide(a: string, b: string)
    requires |a| > 1 && |b| > 1 && a[0] == b[0] && a[1] > b[1]
    ensures !Below(a, b)
  {
    assert a[1..][0] == a[1] && b[1..][0] == b[1];
  }

  /** Whatever the instance `i` and the text `r`: a group with the file name that
      starts with the text of `i` and a bar and goes on with `r`, and a different
      group, both of two different instances, share their key. */
  lemma NameWithPartCollides(i: Instance, r: string) returns (g: Group, h: Group)
    ensures CloneGroupKey(g) == CloneGroupKey(h) && multiset(g.instances) != multiset(h.instances)
    ensures |g.instances| == |h.instances| == 2 && g.instances[0] != g.instances[1] && h.instances[0] != h.instances[1]
    ensures g.instances[0].file == PartOf(i) + "|" + r || g.instances[1].file == PartOf(i) + "|" + r
  {
    LineParts(r);
    if Below(PartOf(Instance(r, 2, 2)), PartOf(i)) {
      g, h := CollideAfter(i, r);
    } else {
      g, h := CollideBefore(i, r);
    }
  }

  lemma TextsBefore(p: string, r: string)
    ensures var name, long := p + "|" + r, r + ":2-2|" + p + "|" + r;
            && long + ":3-3" == r + ":2-2" + ("|" + p + "|" + r + ":3-3")
            && (name + ":2-2") + "|" + (name + ":3-3") == p + "|" + (long + ":3-3")
  {
    assert ":2-2|" == ":2-2" + "|";
  }

  /** The text of `i` sorts no later than `r` on lines 2 to 2. */
  lemma CollideBefore(i: Instance, r: string) returns (g: Group, h: Group)
    requires !Below(r + ":2-2", PartOf(i))
    ensures CloneGroupKey(g) == CloneGroupKey(h) && multiset(g.instances) != multiset(h.instances)
    ensures |g.instances| == |h.instances| == 2 && g.instances[0] != g.instances[1] && h.instances[0] != h.instances[1]
    ensures g.instances[0].file == PartOf(i) + "|" + r
  {
    hide PartOf;
    hide Below;
    hide CloneGroupKey;
    var p := PartOf(i);
    var name, long := p + "|" + r, r + ":2-2|" + p + "|" + r;
    var a, b, c := Instance(name, 2, 2), Instance(name, 3, 3), Instance(long, 3, 3);
    g, h := Group([a, b], 0), Group([i, c], 0);
    LineParts(name);
    LineParts(long);
    TextsBefore(p, r);
    LinesInOrder(name, "");
    assert name + ":2-2" + "" == name + ":2-2";
    KeyOfTwo(a, b);
    LongerIsNotBelow(p, r + ":2-2", "|" + p + "|" + r + ":3-3");
    KeyOfTwo(i, c);
    assert PartOf(a) != p && PartOf(c) != p;
    assert a in multiset(g.instances) && a !in multiset(h.instances);
  }

  lemma TextsAfter(i: Instance, r: string)
    ensures var p, name := PartOf(i), PartOf(i) + "|" + r;
            && PartOf(Instance(r + ":1-1|" + i.file, i.startLine, i.endLine)) == r + ":1-1" + ("|" + p)
            && name + ":2-2" == p + ("|" + r + ":2-2")
            && (r + ":1-1") + "|" + (name + ":2-2") == (r + ":1-1" + ("|" + p)) + "|" + (r + ":2-2")
  {
    hide Print;
    assert ":1-1|" == ":1-1" + "|";
  }

  /** The text of `i` sorts after `r` on lines 2 to 2. */
  lemma CollideAfter(i: Instance, r: string) returns (g: Group, h: Group)
    requires Below(r + ":2-2", PartOf(i))
    ensures CloneGroupKey(g) == CloneGroupKey(h) && multiset(g.instances) != multiset(h.instances)
    ensures |g.instances| == |h.instances| == 2 && g.instances[0] != g.instances[1] && h.instances[0] != h.instances[1]
    ensures g.instances[1].file == PartOf(i) + "|" + r
  {
    hide PartOf;
    hide Below;
    hide CloneGroupKey;
    var p := PartOf(i);
    var name := p + "|" + r;
    var a, b := Instance(r, 1, 1), Instance(name, 2, 2);
    var c, d := Instance(r + ":1-1|" + i.file, i.startLine, i.endLine), Instance(r, 2, 2);
    g, h := Group([a, b], 0), Group([c, d], 0);
    LineParts(r);
    LineParts(name);
    TextsAfter(i, r);
    LinesInOrder(r, "|" + p);
    BelowIsTransitive(r + ":1-1", r + ":2-2", p);
    BelowIsTotal(r + ":1-1", p);
    LongerIsNotBelow(r + ":1-1", p, "|" + r + ":2-2");
    KeyOfTwo(a, b);
    KeyOfTwo(c, d);
    assert |c.file| > |r|;
    assert a in multiset(g.instances) && a !in multiset(h.instances);
  }
}
