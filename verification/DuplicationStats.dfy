/** Duplication statistics after filtering (crates/cli/src/baseline.rs). */
module DuplicationStats {
  import opened Sequences

  datatype Instance = Instance(file: string, startLine: nat, endLine: nat)

  datatype Group = Group(instances: seq<Instance>, tokenCount: nat)

  datatype Stats = Stats(filesWithClones: nat, totalLines: nat, duplicatedLines: nat, duplicatedTokens: nat,
                         cloneGroups: nat, cloneInstances: nat, duplicationPercentage: real)

  /** A line of a file that some clone covers. */
  ghost predicate Covers(groups: seq<Group>, file: string, line: nat) {
    exists g, i :: InInstance(groups, g, i, file, line)
  }

  ghost predicate InInstance(groups: seq<Group>, g: int, i: int, file: string, line: nat) {
    && 0 <= g < |groups| && 0 <= i < |groups[g].instances|
    && groups[g].instances[i].file == file
    && groups[g].instances[i].startLine <= line <= groups[g].instances[i].endLine
  }

  ghost predicate HasInstanceIn(groups: seq<Group>, file: string) {
    exists g, i :: 0 <= g < |groups| && 0 <= i < |groups[g].instances| && groups[g].instances[i].file == file
  }

  /** `lines` is exactly the set of covered (file, line) pairs. */
  ghost predicate IsCoverage(lines: set<(string, nat)>, groups: seq<Group>) {
    forall file: string, line: nat :: (file, line) in lines <==> Covers(groups, file, line)
  }

  ghost predicate IsFileSet(files: set<string>, groups: seq<Group>) {
    forall file: string :: file in files <==> HasInstanceIn(groups, file)
  }

  function InstanceCount(groups: seq<Group>): nat {
    if groups == [] then 0
    else InstanceCount(groups[..|groups| - 1]) + |groups[|groups| - 1].instances|
  }

  function TokenCount(groups: seq<Group>): nat {
    if groups == [] then 0
    else TokenCount(groups[..|groups| - 1])
         + GroupTokens(groups[|groups| - 1])
  }

  function GroupTokens(g: Group): nat {
    g.tokenCount * |g.instances|
  }

  function Percentage(duplicatedLines: nat, totalLines: nat): real {
    if totalLines > 0 then (duplicatedLines as real / totalLines as real) * 100.0 else 0.0
  }

  // ----- Sets of pairs held as a map from file to lines

  type LineMap = map<string, set<nat>>

  ghost function Pairs(lines: LineMap, files: set<string>): set<(string, nat)>
    requires files <= lines.Keys
  {
    set file, line | file in files && line in lines[file] :: (file, line)
  }

  ghost function FilePairs(file: string, lines: set<nat>): set<(string, nat)> {
    set line | line in lines :: (file, line)
  }

  lemma {:induction false} PairsOfOneFile(file: string, lines: set<nat>)
    ensures |FilePairs(file, lines)| == |lines|
    decreases |lines|
  {
    if lines == {} {
      assert FilePairs(file, lines) == {};
    } else {
      var x :| x in lines;
      PairsOfOneFile(file, lines - {x});
      assert FilePairs(file, lines) == FilePairs(file, lines - {x}) + {(file, x)};
      assert (file, x) !in FilePairs(file, lines - {x});
    }
  }

  lemma PairsStep(lines: LineMap, files: set<string>, file: string)
    requires files <= lines.Keys && file in lines && file !in files
    ensures |Pairs(lines, files + {file})| == |Pairs(lines, files)| + |lines[file]|
  {
    PairsOfOneFile(file, lines[file]);
    assert Pairs(lines, files + {file}) == Pairs(lines, files) + FilePairs(file, lines[file]);
    assert Pairs(lines, files) !! FilePairs(file, lines[file]);
  }

  method SumOfSizes(lines: LineMap) returns (total: nat)
    ensures total == |Pairs(lines, lines.Keys)|
  {
    total := 0;
    var todo := lines.Keys;
    assert Pairs(lines, {}) == {};
    while todo != {}
      invariant todo <= lines.Keys
      invariant total == |Pairs(lines, lines.Keys - todo)|
      decreases todo
    {
      var file :| file in todo;
      PairsStep(lines, lines.Keys - todo, file);
      assert lines.Keys - todo + {file} == lines.Keys - (todo - {file});
      total := total + |lines[file]|;
      todo := todo - {file};
    }
    assert lines.Keys - todo == lines.Keys;
  }

  method RecomputeStats(groups: seq<Group>, totalLines: nat) returns (stats: Stats)
    ensures IsStatsOf(stats, groups, totalLines)
  {
    var filesWithClones: set<string> := {};
    var fileDupLines: LineMap := map[];
    var duplicatedTokens, cloneInstances := 0, 0;
    for g := 0 to |groups|
      invariant filesWithClones == fileDupLines.Keys
      invariant Describes(fileDupLines, groups[..g])
      invariant duplicatedTokens == TokenCount(groups[..g])
      invariant cloneInstances == InstanceCount(groups[..g])
    {
      var group := groups[g];
      assert groups[..g] + [Group([], group.tokenCount)] == groups[..g] + [group.(instances := group.instances[..0])];
      EmptyGroup(fileDupLines, groups[..g], group.tokenCount);
      for i := 0 to |group.instances|
        invariant filesWithClones == fileDupLines.Keys
        invariant Describes(fileDupLines, groups[..g] + [group.(instances := group.instances[..i])])
        invariant cloneInstances == InstanceCount(groups[..g]) + i
      {
        var instance := group.instances[i];
        filesWithClones := filesWithClones + {instance.file};
        cloneInstances := cloneInstances + 1;
        var lines: set<nat> := if instance.file in fileDupLines then fileDupLines[instance.file] else {};
        ghost var before := lines;
        var line := instance.startLine;
        while line <= instance.endLine
          invariant instance.startLine <= line
          invariant line <= instance.endLine + 1 || line == instance.startLine
          invariant forall l: nat :: l in lines <==> l in before || instance.startLine <= l < line
        {
          lines := lines + {line};
          line := line + 1;
        }
        OneMoreInstance(fileDupLines, groups[..g], group, i, lines);
        fileDupLines := fileDupLines[instance.file := lines];
      }
      assert group.(instances := group.instances[..|group.instances|]) == group;
      assert groups[..g + 1] == groups[..g] + [group];
      duplicatedTokens := duplicatedTokens + GroupTokens(group);
    }
    assert groups[..|groups|] == groups;
    var duplicatedLines := SumOfSizes(fileDupLines);
    assert IsCoverage(Pairs(fileDupLines, fileDupLines.Keys), groups);
    assert IsFileSet(filesWithClones, groups);
    stats := Stats(|filesWithClones|, totalLines, duplicatedLines, duplicatedTokens, |groups|, cloneInstances,
                   Percentage(duplicatedLines, totalLines));
  }

  /** The per-file line sets of these groups. */
  ghost predicate Describes(lines: LineMap, groups: seq<Group>) {
    && (forall file: string :: file in lines <==> HasInstanceIn(groups, file))
    && (forall file: string, line: nat :: (file in lines && line in lines[file]) <==> Covers(groups, file, line))
  }

  lemma EmptyGroup(lines: LineMap, groups: seq<Group>, tokens: nat)
    requires Describes(lines, groups)
    ensures Describes(lines, groups + [Group([], tokens)])
  {
    var more := groups + [Group([], tokens)];
    forall file: string
      ensures HasInstanceIn(groups, file) <==> HasInstanceIn(more, file)
    {
      if HasInstanceIn(groups, file) {
        var g, i :| 0 <= g < |groups| && 0 <= i < |groups[g].instances| && groups[g].instances[i].file == file;
        assert more[g].instances[i].file == file;
      }
    }
    forall file: string, line: nat
      ensures Covers(groups, file, line) <==> Covers(more, file, line)
    {
      if Covers(groups, file, line) {
        var g, i :| InInstance(groups, g, i, file, line);
        assert InInstance(more, g, i, file, line);
      }
      if Covers(more, file, line) {
        var g, i :| InInstance(more, g, i, file, line);
        assert InInstance(groups, g, i, file, line);
      }
    }
  }

  lemma OneMoreInstance(lines: LineMap, groups: seq<Group>, group: Group, i: nat, updated: set<nat>)
    requires i < |group.instances|
    requires Describes(lines, groups + [group.(instances := group.instances[..i])])
    requires var instance := group.instances[i];
             var old_ := if instance.file in lines then lines[instance.file] else {};
             forall l: nat :: l in updated <==> l in old_ || instance.startLine <= l <= instance.endLine
    ensures Describes(lines[group.instances[i].file := updated], groups + [group.(instances := group.instances[..i + 1])])
  {
    var instance := group.instances[i];
    var before := groups + [group.(instances := group.instances[..i])];
    var after := groups + [group.(instances := group.instances[..i + 1])];
    var n := |groups|;
    forall file: string
      ensures HasInstanceIn(after, file) <==> HasInstanceIn(before, file) || file == instance.file
    {
      if HasInstanceIn(before, file) {
        var g, k :| 0 <= g < |before| && 0 <= k < |before[g].instances| && before[g].instances[k].file == file;
        assert after[g].instances[k].file == file;
      }
      assert after[n].instances[i] == instance;
      if HasInstanceIn(after, file) && file != instance.file {
        var g, k :| 0 <= g < |after| && 0 <= k < |after[g].instances| && after[g].instances[k].file == file;
        assert before[g].instances[k].file == file;
      }
    }
    forall file: string, line: nat
      ensures Covers(after, file, line)
              <==> Covers(before, file, line) || (file == instance.file && instance.startLine <= line <= instance.endLine)
    {
      if Covers(before, file, line) {
        var g, k :| InInstance(before, g, k, file, line);
        assert InInstance(after, g, k, file, line);
      }
      if file == instance.file && instance.startLine <= line <= instance.endLine {
        assert InInstance(after, n, i, file, line);
      }
      if Covers(after, file, line) {
        var g, k :| InInstance(after, g, k, file, line);
        if g < n || k < i {
          assert InInstance(before, g, k, file, line);
        }
      }
    }
  }

  // ----- What the numbers do not depend on

  lemma {:induction false} TotalsWithout(groups: seq<Group>, k: nat)
    requires k < |groups|
    ensures InstanceCount(groups) == InstanceCount(Without(groups, k)) + |groups[k].instances|
    ensures TokenCount(groups) == TokenCount(Without(groups, k)) + GroupTokens(groups[k])
    decreases |groups|
  {
    var n := |groups| - 1;
    var rest := Without(groups, k);
    if k == n {
      assert rest == groups[..n];
    } else {
      TotalsWithout(groups[..n], k);
      assert rest[..n - 1] == groups[..n][..k] + groups[..n][k + 1..];
    }
  }

  lemma {:induction false} TotalsOfFewer(some: seq<Group>, all: seq<Group>)
    requires multiset(some) <= multiset(all)
    ensures InstanceCount(some) <= InstanceCount(all)
    ensures TokenCount(some) <= TokenCount(all)
    ensures |some| <= |all|
    decreases |some|
  {
    hide GroupTokens;
    if some != [] {
      var n := |some| - 1;
      var k := MatchLast(some, all);
      TotalsOfFewer(some[..n], Without(all, k));
      TotalsWithout(all, k);
    }
  }

  lemma CoverageOfFewer(some: seq<Group>, all: seq<Group>, file: string, line: nat)
    requires multiset(some) <= multiset(all)
    ensures Covers(some, file, line) ==> Covers(all, file, line)
    ensures HasInstanceIn(some, file) ==> HasInstanceIn(all, file)
  {
    if Covers(some, file, line) {
      var g, i :| InInstance(some, g, i, file, line);
      assert some[g] in multiset(some);
      var k :| 0 <= k < |all| && all[k] == some[g];
      assert InInstance(all, k, i, file, line);
    }
    if HasInstanceIn(some, file) {
      var g, i :| 0 <= g < |some| && 0 <= i < |some[g].instances| && some[g].instances[i].file == file;
      assert some[g] in multiset(some);
      var k :| 0 <= k < |all| && all[k] == some[g];
      assert all[k].instances[i].file == file;
    }
  }

  /** `stats` is what RecomputeStats reports for these groups. */
  ghost predicate IsStatsOf(stats: Stats, groups: seq<Group>, totalLines: nat) {
    && (exists covered :: IsCoverage(covered, groups) && stats.duplicatedLines == |covered|)
    && (exists files :: IsFileSet(files, groups) && stats.filesWithClones == |files|)
    && stats.cloneInstances == InstanceCount(groups)
    && stats.duplicatedTokens == TokenCount(groups)
    && stats.cloneGroups == |groups| && stats.totalLines == totalLines
    && stats.duplicationPercentage == Percentage(stats.duplicatedLines, totalLines)
  }

  lemma {:induction false} SmallerSet<T>(a: set<T>, b: set<T>)
    requires a <= b
    ensures |a| <= |b|
  {
    assert b == a + (b - a);
  }

  lemma PercentageMonotone(a: nat, b: nat, total: nat)
    requires a <= b
    ensures Percentage(a, total) <= Percentage(b, total)
  {
    if total > 0 {
      var t := total as real;
      assert b as real / t - a as real / t == (b - a) as real / t >= 0.0;
    }
  }

  lemma SizesMonotone(some: seq<Group>, all: seq<Group>, totalLines: nat, s: Stats, t: Stats)
    requires IsStatsOf(s, some, totalLines) && IsStatsOf(t, all, totalLines)
    requires forall file: string, line: nat :: Covers(some, file, line) ==> Covers(all, file, line)
    requires forall file: string :: HasInstanceIn(some, file) ==> HasInstanceIn(all, file)
    ensures s.duplicatedLines <= t.duplicatedLines && s.filesWithClones <= t.filesWithClones
  {
    hide Covers;
    hide HasInstanceIn;
    hide Percentage;
    var coveredS :| IsCoverage(coveredS, some) && s.duplicatedLines == |coveredS|;
    var coveredT :| IsCoverage(coveredT, all) && t.duplicatedLines == |coveredT|;
    forall p: (string, nat) | p in coveredS
      ensures p in coveredT
    {
      assert p == (p.0, p.1);
    }
    SmallerSet(coveredS, coveredT);
    var filesS :| IsFileSet(filesS, some) && s.filesWithClones == |filesS|;
    var filesT :| IsFileSet(filesT, all) && t.filesWithClones == |filesT|;
    SmallerSet(filesS, filesT);
  }

  /** Dropping groups never raises any of the numbers. */
  lemma FewerGroupsFewerDuplicates(some: seq<Group>, all: seq<Group>, totalLines: nat, s: Stats, t: Stats)
    requires multiset(some) <= multiset(all)
    requires IsStatsOf(s, some, totalLines) && IsStatsOf(t, all, totalLines)
    ensures s.duplicatedLines <= t.duplicatedLines && s.filesWithClones <= t.filesWithClones
    ensures s.duplicatedTokens <= t.duplicatedTokens && s.cloneInstances <= t.cloneInstances
    ensures s.cloneGroups <= t.cloneGroups && s.duplicationPercentage <= t.duplicationPercentage
  {
    hide Percentage;
    TotalsOfFewer(some, all);
    hide Covers;
    hide HasInstanceIn;
    forall file: string, line: nat
      ensures Covers(some, file, line) ==> Covers(all, file, line)
    {
      CoverageOfFewer(some, all, file, line);
    }
    forall file: string
      ensures HasInstanceIn(some, file) ==> HasInstanceIn(all, file)
    {
      CoverageOfFewer(some, all, file, 0);
    }
    SizesMonotone(some, all, totalLines, s, t);
    PercentageMonotone(s.duplicatedLines, t.duplicatedLines, totalLines);
  }

  /** The order of the groups does not matter. */
  lemma GroupOrderIsIrrelevant(one: seq<Group>, two: seq<Group>, totalLines: nat, s: Stats, t: Stats)
    requires multiset(one) == multiset(two)
    requires IsStatsOf(s, one, totalLines) && IsStatsOf(t, two, totalLines)
    ensures s == t
  {
    FewerGroupsFewerDuplicates(one, two, totalLines, s, t);
    FewerGroupsFewerDuplicates(two, one, totalLines, t, s);
  }

  /** Nor does the order of the instances inside a group. */
  ghost predicate SameInstances(one: seq<Group>, two: seq<Group>) {
    && |one| == |two|
    && forall g :: 0 <= g < |one| ==> one[g].tokenCount == two[g].tokenCount
                                      && multiset(one[g].instances) == multiset(two[g].instances)
  }

  lemma {:induction false} SameTotals(one: seq<Group>, two: seq<Group>)
    requires SameInstances(one, two)
    ensures InstanceCount(one) == InstanceCount(two) && TokenCount(one) == TokenCount(two)
    decreases |one|
  {
    if one != [] {
      var n := |one| - 1;
      SameTotals(one[..n], two[..n]);
      assert |one[n].instances| == |multiset(one[n].instances)| == |two[n].instances|;
    }
  }

  lemma SameCoverage(one: seq<Group>, two: seq<Group>, file: string, line: nat)
    requires SameInstances(one, two)
    ensures Covers(one, file, line) ==> Covers(two, file, line)
    ensures HasInstanceIn(one, file) ==> HasInstanceIn(two, file)
  {
    if Covers(one, file, line) {
      var g, i :| InInstance(one, g, i, file, line);
      assert one[g].instances[i] in multiset(two[g].instances);
      var k :| 0 <= k < |two[g].instances| && two[g].instances[k] == one[g].instances[i];
      assert InInstance(two, g, k, file, line);
    }
    if HasInstanceIn(one, file) {
      var g, i :| 0 <= g < |one| && 0 <= i < |one[g].instances| && one[g].instances[i].file == file;
      assert one[g].instances[i] in multiset(two[g].instances);
      var k :| 0 <= k < |two[g].instances| && two[g].instances[k] == one[g].instances[i];
      assert two[g].instances[k].file == file;
    }
  }

  lemma InstanceOrderIsIrrelevant(one: seq<Group>, two: seq<Group>, totalLines: nat, s: Stats, t: Stats)
    requires SameInstances(one, two)
    requires IsStatsOf(s, one, totalLines) && IsStatsOf(t, two, totalLines)
    ensures s == t
  {
    hide Percentage;
    SameTotals(one, two);
    hide Covers;
    hide HasInstanceIn;
    forall file: string, line: nat
      ensures Covers(one, file, line) <==> Covers(two, file, line)
    {
      SameCoverage(one, two, file, line);
      SameCoverage(two, one, file, line);
    }
    forall file: string
      ensures HasInstanceIn(one, file) <==> HasInstanceIn(two, file)
    {
      SameCoverage(one, two, file, 0);
      SameCoverage(two, one, file, 0);
    }
    SizesMonotone(one, two, totalLines, s, t);
    SizesMonotone(two, one, totalLines, t, s);
  }

  // ----- The percentage

  function SumOfLines(sizes: map<string, nat>, files: seq<string>): nat
    requires forall f :: f in files ==> f in sizes
  {
    if files == [] then 0 else sizes[files[0]] + SumOfLines(sizes, files[1..])
  }

  ghost function FirstLines(n: nat): (lines: set<nat>)
    ensures |lines| == n
    ensures forall l: nat :: l in lines <==> 1 <= l <= n
  {
    if n == 0 then {} else FirstLines(n - 1) + {n}
  }

  ghost function AllLines(sizes: map<string, nat>, files: seq<string>): set<(string, nat)>
    requires forall f :: f in files ==> f in sizes
  {
    if files == [] then {}
    else FilePairs(files[0], FirstLines(sizes[files[0]])) + AllLines(sizes, files[1..])
  }

  lemma {:induction false} AllLinesSize(sizes: map<string, nat>, files: seq<string>)
    requires forall f :: f in files ==> f in sizes
    ensures |AllLines(sizes, files)| <= SumOfLines(sizes, files)
    decreases |files|
  {
    if files != [] {
      AllLinesSize(sizes, files[1..]);
      var range := FirstLines(sizes[files[0]]);
      PairsOfOneFile(files[0], range);
      var one, rest := FilePairs(files[0], range), AllLines(sizes, files[1..]);
      assert |one + rest| == |one| + |rest - one|;
      SmallerSet(rest - one, rest);
    }
  }

  lemma {:induction false} LineIsListed(sizes: map<string, nat>, files: seq<string>, f: string, l: nat)
    requires forall g :: g in files ==> g in sizes
    requires f in files && 1 <= l <= sizes[f]
    ensures (f, l) in AllLines(sizes, files)
    decreases |files|
  {
    if f == files[0] {
      assert l in FirstLines(sizes[f]);
    } else {
      LineIsListed(sizes, files[1..], f, l);
    }
  }

  ghost predicate InsideFiles(groups: seq<Group>, sizes: map<string, nat>, files: seq<string>)
    requires forall f :: f in files ==> f in sizes
  {
    forall g, i :: 0 <= g < |groups| && 0 <= i < |groups[g].instances| ==>
      groups[g].instances[i].file in files
      && 1 <= groups[g].instances[i].startLine
      && groups[g].instances[i].endLine <= sizes[groups[g].instances[i].file]
  }

  lemma CoveredLineIsListed(groups: seq<Group>, sizes: map<string, nat>, files: seq<string>, f: string, l: nat)
    requires forall g :: g in files ==> g in sizes
    requires InsideFiles(groups, sizes, files) && Covers(groups, f, l)
    ensures (f, l) in AllLines(sizes, files)
  {
    var g, i :| InInstance(groups, g, i, f, l);
    LineIsListed(sizes, files, f, l);
  }

  /** With every instance inside its file, at most all lines are duplicated. */
  lemma AtMostHundredPercent(groups: seq<Group>, sizes: map<string, nat>, files: seq<string>, totalLines: nat, s: Stats)
    requires forall f :: f in files ==> f in sizes
    requires SumOfLines(sizes, files) <= totalLines
    requires InsideFiles(groups, sizes, files)
    requires IsStatsOf(s, groups, totalLines)
    ensures 0.0 <= s.duplicationPercentage <= 100.0
  {
    hide InsideFiles;
    hide Covers;
    var covered :| IsCoverage(covered, groups) && s.duplicatedLines == |covered|;
    AllLinesSize(sizes, files);
    forall p: (string, nat) | p in covered
      ensures p in AllLines(sizes, files)
    {
      assert p == (p.0, p.1) && Covers(groups, p.0, p.1);
      CoveredLineIsListed(groups, sizes, files, p.0, p.1);
    }
    SmallerSet(covered, AllLines(sizes, files));
    PercentageBounds(s.duplicatedLines, totalLines);
  }

  lemma PercentageBounds(duplicatedLines: nat, totalLines: nat)
    requires duplicatedLines <= totalLines
    ensures 0.0 <= Percentage(duplicatedLines, totalLines) <= 100.0
  {
    PercentageMonotone(duplicatedLines, totalLines, totalLines);
    PercentageMonotone(0, duplicatedLines, totalLines);
  }

  /** The percentage is the share of duplicated lines in hundredths: a hundred exactly
      when every line is duplicated, and zero when there are no lines at all. */
  lemma PercentageIsShare(groups: seq<Group>, totalLines: nat, s: Stats)
    requires IsStatsOf(s, groups, totalLines)
    ensures totalLines > 0 ==> s.duplicationPercentage * totalLines as real == 100.0 * s.duplicatedLines as real
    ensures totalLines > 0 ==> (s.duplicationPercentage == 100.0 <==> s.duplicatedLines == totalLines)
    ensures totalLines == 0 ==> s.duplicationPercentage == 0.0
  {
    hide Covers;
    if totalLines > 0 {
      var share := s.duplicatedLines as real / totalLines as real;
      assert share * totalLines as real == s.duplicatedLines as real;
      if s.duplicationPercentage == 100.0 {
        assert share == 1.0;
        assert s.duplicatedLines as real == totalLines as real;
      }
    }
  }

  /** The token count of its group, once for every instance. */
  function InstanceTokens(groups: seq<Group>): seq<nat> {
    Collect(groups, (g: Group) => Repeat(g.tokenCount, |g.instances|))
  }

  function Repeat(x: nat, n: nat): seq<nat> {
    seq(n, _ => x)
  }

  function SumOf(s: seq<nat>): nat {
    if s == [] then 0 else SumOf(s[..|s| - 1]) + s[|s| - 1]
  }

  lemma {:induction false} SumOfAppend(a: seq<nat>, b: seq<nat>)
    ensures SumOf(a + b) == SumOf(a) + SumOf(b)
    decreases |b|
  {
    if b == [] {
      assert a + b == a;
    } else {
      var n := |b| - 1;
      SumOfAppend(a, b[..n]);
      assert (a + b)[..|a| + n] == a + b[..n];
    }
  }

  lemma {:induction false} SumOfEqual(n: nat, x: nat)
    ensures SumOf(Repeat(x, n)) == x * n
    decreases n
  {
    if n > 0 {
      SumOfEqual(n - 1, x);
      assert Repeat(x, n)[..n - 1] == Repeat(x, n - 1);
    }
  }

  /** Every instance counts once, with the tokens of its group. */
  lemma {:induction false} EveryInstanceCounts(groups: seq<Group>)
    ensures InstanceCount(groups) == |InstanceTokens(groups)|
    ensures TokenCount(groups) == SumOf(InstanceTokens(groups))
    decreases |groups|
  {
    if groups != [] {
      var n := |groups| - 1;
      var g := groups[n];
      EveryInstanceCounts(groups[..n]);
      SumOfEqual(|g.instances|, g.tokenCount);
      SumOfAppend(InstanceTokens(groups[..n]), Repeat(g.tokenCount, |g.instances|));
    }
  }
}
