/** Filtering complexity findings against a saved baseline
    (crates/cli/src/baseline.rs).

    A finding's `path` is its path relative to the project root, as the program's
    relative_path computes it. */
module HealthBaseline {
  import Decimals
  import opened SeverityMatching
  import opened Sequences
  import opened Text

  datatype Severity = Moderate | High | Critical

  datatype Dimension = Complexity | Crap

  datatype ExceededThreshold =
    Cyclomatic | Cognitive | Both | CrapOnly | CyclomaticCrap | CognitiveCrap | All
  {
    predicate IncludesCyclomatic() {
      Cyclomatic? || Both? || CyclomaticCrap? || All?
    }

    predicate IncludesCognitive() {
      Cognitive? || Both? || CognitiveCrap? || All?
    }

    predicate IncludesCrap() {
      CrapOnly? || CyclomaticCrap? || CognitiveCrap? || All?
    }
  }

  /** The value for the thresholds a finding exceeds: at least one of the three. */
  function FromBools(cyclomatic: bool, cognitive: bool, crap: bool): ExceededThreshold
    requires cyclomatic || cognitive || crap
  {
    match (cyclomatic, cognitive, crap)
    case (true, true, true) => All
    case (true, true, false) => Both
    case (true, false, true) => CyclomaticCrap
    case (false, true, true) => CognitiveCrap
    case (true, false, false) => Cyclomatic
    case (false, true, false) => Cognitive
    case (false, false, _) => CrapOnly
  }

  datatype Finding = Finding(path: string, name: string, line: nat, severity: Severity, exceeded: ExceededThreshold)

  datatype Category = Category(dimension: Dimension, severity: Severity)
  {
    function Key(): string {
      match (dimension, severity)
      case (Complexity, Moderate) => "complexity_moderate"
      case (Complexity, High) => "complexity_high"
      case (Complexity, Critical) => "complexity_critical"
      case (Crap, Moderate) => "crap_moderate"
      case (Crap, High) => "crap_high"
      case (Crap, Critical) => "crap_critical"
    }
  }

  type FileCounts = map<string, nat>
  type FindingCounts = map<string, FileCounts>

  /** `findings` holds keys of the older format, `path:name:line`. */
  datatype BaselineData = BaselineData(findings: seq<string>, findingCounts: FindingCounts)

  const SEVERITIES: seq<Severity> := [Moderate, High, Critical]
  const DIMENSIONS: seq<Dimension> := [Complexity, Crap]

  function SeverityIndex(severity: Severity): nat {
    match severity
    case Moderate => 0
    case High => 1
    case Critical => 2
  }

  /** The buckets a finding counts in: one per dimension it exceeds. */
  function Categories(f: Finding): seq<Category> {
    (if f.exceeded.IncludesCyclomatic() || f.exceeded.IncludesCognitive()
     then [Category(Complexity, f.severity)] else []) +
    (if f.exceeded.IncludesCrap() then [Category(Dimension.Crap, f.severity)] else [])
  }

  /** The buckets, from the thresholds themselves: complexity if one of the two
      complexity thresholds is exceeded, CRAP if that one is, at the finding's own
      severity. */
  lemma BucketsOfThresholds(f: Finding, cyclomatic: bool, cognitive: bool, crap: bool, s: Severity)
    requires cyclomatic || cognitive || crap
    requires f.exceeded == FromBools(cyclomatic, cognitive, crap)
    ensures f.exceeded.IncludesCyclomatic() == cyclomatic && f.exceeded.IncludesCognitive() == cognitive
    ensures f.exceeded.IncludesCrap() == crap
    ensures Category(Complexity, s) in Categories(f) <==> (cyclomatic || cognitive) && s == f.severity
    ensures Category(Dimension.Crap, s) in Categories(f) <==> crap && s == f.severity
  {
  }

  lemma KeysAreDistinct(c: Category, d: Category)
    requires c.Key() == d.Key()
    ensures c == d
  {
    assert |c.Key()| == |d.Key()|;
    assert "complexity_moderate"[11] == 'm' && "complexity_critical"[11] == 'c';
    assert "crap_moderate"[5] == 'm' && "crap_critical"[5] == 'c';
  }

  function Lookup(counts: FileCounts, key: string): nat {
    if key in counts then counts[key] else 0
  }

  // ----- Counting

  function One(b: bool): nat {
    if b then 1 else 0
  }

  /** How many findings of file `path` are in bucket `c`. */
  function CountIn(findings: seq<Finding>, path: string, c: Category): nat {
    if findings == [] then 0
    else
      var f := findings[|findings| - 1];
      CountIn(findings[..|findings| - 1], path, c) + One(f.path == path && c in Categories(f))
  }

  /** `counts` is the bucket table of these findings. */
  ghost predicate Describes(counts: FindingCounts, findings: seq<Finding>) {
    && (forall path :: path in counts <==> exists i :: 0 <= i < |findings| && findings[i].path == path)
    && (forall path, c: Category :: path in counts ==> Lookup(counts[path], c.Key()) == CountIn(findings, path, c))
  }

  lemma {:induction false} NoFileNoCount(findings: seq<Finding>, path: string, c: Category)
    requires forall i :: 0 <= i < |findings| ==> findings[i].path != path
    ensures CountIn(findings, path, c) == 0
    decreases |findings|
  {
    if findings != [] {
      NoFileNoCount(findings[..|findings| - 1], path, c);
    }
  }

  lemma CategoriesDiffer(f: Finding)
    ensures forall i, j :: 0 <= i < j < |Categories(f)| ==> Categories(f)[i] != Categories(f)[j]
  {
  }

  lemma OneMoreCategory(fileCounts: FileCounts, start: FileCounts, categories: seq<Category>, k: nat)
    requires k < |categories| && forall i, j :: 0 <= i < j < |categories| ==> categories[i] != categories[j]
    requires forall c: Category :: Lookup(fileCounts, c.Key()) == Lookup(start, c.Key()) + One(c in categories[..k])
    ensures var key := categories[k].Key();
            var more := fileCounts[key := Lookup(fileCounts, key) + 1];
            forall c: Category :: Lookup(more, c.Key()) == Lookup(start, c.Key()) + One(c in categories[..k + 1])
  {
    var c := categories[k];
    var more := fileCounts[c.Key() := Lookup(fileCounts, c.Key()) + 1];
    forall d: Category
      ensures Lookup(more, d.Key()) == Lookup(start, d.Key()) + One(d in categories[..k + 1])
    {
      assert categories[..k + 1] == categories[..k] + [c];
      assert c !in categories[..k];
      if d != c && d.Key() == c.Key() {
        KeysAreDistinct(c, d);
      }
    }
  }

  /** One finding adds one to each of its categories. */
  method CountFinding(f: Finding, before: FileCounts) returns (fileCounts: FileCounts)
    ensures forall c: Category :: Lookup(fileCounts, c.Key()) == Lookup(before, c.Key()) + One(c in Categories(f))
  {
    fileCounts := before;
    var categories := Categories(f);
    CategoriesDiffer(f);
    hide Categories;
    hide Category.Key;
    for k := 0 to |categories|
      invariant forall c: Category ::
                  Lookup(fileCounts, c.Key()) == Lookup(before, c.Key()) + One(c in categories[..k])
    {
      OneMoreCategory(fileCounts, before, categories, k);
      var key := categories[k].Key();
      fileCounts := fileCounts[key := Lookup(fileCounts, key) + 1];
    }
    assert categories[..|categories|] == categories;
  }

  method HealthFindingCounts(findings: seq<Finding>) returns (counts: FindingCounts)
    ensures Describes(counts, findings)
  {
    counts := map[];
    assert Describes(counts, findings[..0]);
    hide Describes;
    for n := 0 to |findings|
      invariant Describes(counts, findings[..n])
    {
      var f := findings[n];
      var before: FileCounts := if f.path in counts then counts[f.path] else map[];
      var fileCounts := CountFinding(f, before);
      CountsAfterOne(counts, counts[f.path := fileCounts], findings[..n], f, before, fileCounts);
      counts := counts[f.path := fileCounts];
      assert findings[..n + 1] == findings[..n] + [f];
    }
    assert findings[..|findings|] == findings;
  }

  lemma CountsAfterOne(before: FindingCounts, after: FindingCounts, findings: seq<Finding>, f: Finding,
                       old_: FileCounts, new_: FileCounts)
    requires Describes(before, findings)
    requires old_ == if f.path in before then before[f.path] else map[]
    requires after == before[f.path := new_]
    requires forall c: Category :: Lookup(new_, c.Key()) == Lookup(old_, c.Key()) + One(c in Categories(f))
    ensures Describes(after, findings + [f])
  {
    var more := findings + [f];
    assert more[..|more| - 1] == findings;
    forall path
      ensures path in after <==> exists i :: 0 <= i < |more| && more[i].path == path
    {
      if path in after {
        if path in before {
          var i :| 0 <= i < |findings| && findings[i].path == path;
          assert more[i].path == path;
        } else {
          assert more[|findings|].path == path;
        }
      }
      if i :| 0 <= i < |more| && more[i].path == path {
        assert i < |findings| ==> findings[i].path == path;
      }
    }
    forall path, c: Category | path in after
      ensures Lookup(after[path], c.Key()) == CountIn(more, path, c)
    {
      if path !in before {
        NoFileNoCount(findings, path, c);
      }
    }
  }

  function SeverityCountsForDimension(counts: FileCounts, dimension: Dimension): (r: seq<nat>)
    ensures |r| == 3
  {
    seq(3, i requires 0 <= i < 3 => Lookup(counts, Category(dimension, SEVERITIES[i]).Key()))
  }

  function FileCountsOf(counts: FindingCounts, path: string): FileCounts {
    if path in counts then counts[path] else map[]
  }

  /** Bucket `c` of `path` has more findings now than its baseline has room for. */
  predicate Flagged(current: FindingCounts, baseline: FindingCounts, path: string, c: Category) {
    Overflows(SeverityCountsForDimension(FileCountsOf(current, path), c.dimension),
              SeverityCountsForDimension(FileCountsOf(baseline, path), c.dimension),
              SeverityIndex(c.severity))
  }

  method FileOverflowCategories(current: FindingCounts, baseline: FindingCounts, path: string)
    returns (keys: set<string>)
    ensures forall c: Category :: c.Key() in keys <==> Flagged(current, baseline, path, c)
    ensures keys != {} ==> exists c: Category :: Flagged(current, baseline, path, c)
  {
    hide Overflows;
    hide SeverityCountsForDimension;
    keys := {};
    ghost var flagged: set<Category> := {};
    for d := 0 to 2
      invariant forall k :: k in keys ==> exists c :: c in flagged && c.Key() == k
      invariant forall c :: c in flagged ==> c.Key() in keys
      invariant forall c: Category :: c in flagged <==> Flagged(current, baseline, path, c) && c.dimension in DIMENSIONS[..d]
    {
      var dimension := DIMENSIONS[d];
      var overflow := OverflowingSeverities(SeverityCountsForDimension(FileCountsOf(current, path), dimension),
                                            SeverityCountsForDimension(FileCountsOf(baseline, path), dimension));
      ghost var before := flagged;
      for s := 0 to 3
        invariant forall k :: k in keys ==> exists c :: c in flagged && c.Key() == k
        invariant forall c :: c in flagged ==> c.Key() in keys
        invariant forall c: Category :: c in flagged <==>
                    (c in before || (Flagged(current, baseline, path, c) && c.dimension == dimension && SeverityIndex(c.severity) < s))
      {
        var c := Category(dimension, SEVERITIES[s]);
        assert overflow[s] == Flagged(current, baseline, path, c);
        assert forall e: Category :: e.dimension == dimension && SeverityIndex(e.severity) == s ==> e == c;
        if overflow[s] {
          keys := keys + {c.Key()};
          flagged := flagged + {c};
        }
      }
      assert DIMENSIONS[..d + 1] == DIMENSIONS[..d] + [dimension];
    }
    forall c: Category
      ensures c.dimension in DIMENSIONS[..2]
      ensures c.Key() in keys <==> Flagged(current, baseline, path, c)
    {
      assert DIMENSIONS[0] == Complexity && DIMENSIONS[1] == Dimension.Crap;
      if c.Key() in keys {
        var e :| e in flagged && e.Key() == c.Key();
        KeysAreDistinct(c, e);
      }
    }
  }

  method HealthOverflowCategories(current: FindingCounts, baseline: FindingCounts)
    returns (overflowByPath: map<string, set<string>>)
    ensures forall path, c: Category :: (path in overflowByPath && c.Key() in overflowByPath[path])
                                        <==> path in current && Flagged(current, baseline, path, c)
  {
    overflowByPath := map[];
    var todo := current.Keys;
    while todo != {}
      invariant todo <= current.Keys
      invariant overflowByPath.Keys !! todo
      invariant forall path, c: Category :: (path in overflowByPath && c.Key() in overflowByPath[path])
                                            <==> path in current.Keys - todo && Flagged(current, baseline, path, c)
      decreases todo
    {
      var path :| path in todo;
      var keys := FileOverflowCategories(current, baseline, path);
      if keys != {} {
        overflowByPath := overflowByPath[path := keys];
      }
      todo := todo - {path};
    }
  }

  // ----- Filtering

  function LegacyKey(f: Finding): string {
    f.path + ":" + f.name + ":" + Decimals.Print(f.line)
  }

  /** Bucket `c` of `path` has more findings in this run than its baseline has room for. */
  ghost predicate Excessive(findings: seq<Finding>, baseline: FindingCounts, path: string, c: Category) {
    Overflows(SeverityCounts(findings, path, c.dimension),
              SeverityCountsForDimension(FileCountsOf(baseline, path), c.dimension),
              SeverityIndex(c.severity))
  }

  /** A finding is new when the baseline cannot account for it. */
  ghost predicate IsNew(f: Finding, findings: seq<Finding>, baseline: BaselineData) {
    if baseline.findingCounts != map[]
    then exists c :: c in Categories(f) && Excessive(findings, baseline.findingCounts, f.path, c)
    else LegacyKey(f) !in baseline.findings
  }

  ghost function NewFindings(findings: seq<Finding>, baseline: BaselineData): seq<Finding> {
    Filter(findings, f => IsNew(f, findings, baseline))
  }

  lemma LegacyDecision(f: Finding, findings: seq<Finding>, baseline: BaselineData)
    requires baseline.findingCounts == map[]
    ensures LegacyKey(f) !in baseline.findings <==> IsNew(f, findings, baseline)
  {
  }

  lemma OverflowDecision(findings: seq<Finding>, current: FindingCounts, baseline: BaselineData,
                         overflow: map<string, set<string>>, f: Finding)
    requires Describes(current, findings) && f in findings && baseline.findingCounts != map[]
    requires forall path, c: Category :: (path in overflow && c.Key() in overflow[path])
                                         <==> path in current && Flagged(current, baseline.findingCounts, path, c)
    ensures (f.path in overflow && exists c | c in Categories(f) :: c.Key() in overflow[f.path])
            <==> IsNew(f, findings, baseline)
  {
    hide Overflows;
    forall c | c in Categories(f)
      ensures Flagged(current, baseline.findingCounts, f.path, c)
              <==> Excessive(findings, baseline.findingCounts, f.path, c)
    {
      CountsOfFindings(current, findings, f.path, c.dimension);
    }
    assert f.path in current;
  }

  method FilterNewHealthFindings(findings: seq<Finding>, baseline: BaselineData) returns (kept: seq<Finding>)
    ensures kept == NewFindings(findings, baseline)
  {
    hide IsNew;
    hide Flagged;
    ghost var keep := f => IsNew(f, findings, baseline);
    kept := [];
    if baseline.findingCounts != map[] {
      var current := HealthFindingCounts(findings);
      var overflow := HealthOverflowCategories(current, baseline.findingCounts);
      for n := 0 to |findings|
        invariant kept == Filter(findings[..n], keep)
      {
        var f := findings[n];
        var any := f.path in overflow && exists c | c in Categories(f) :: c.Key() in overflow[f.path];
        if any {
          kept := kept + [f];
        }
        OverflowDecision(findings, current, baseline, overflow, f);
        assert any <==> keep(f);
        assert findings[..n + 1][..n] == findings[..n];
      }
    } else {
      for n := 0 to |findings|
        invariant kept == Filter(findings[..n], keep)
      {
        if LegacyKey(findings[n]) !in baseline.findings {
          kept := kept + [findings[n]];
        }
        LegacyDecision(findings[n], findings, baseline);
        assert findings[..n + 1][..n] == findings[..n];
      }
    }
    assert findings[..|findings|] == findings;
  }

  /** The key of the older format tells the path, the name and the line, as long as
      the names hold no colon. */
  lemma LegacyKeyTells(f: Finding, g: Finding)
    requires ':' !in f.name && ':' !in g.name
    ensures LegacyKey(f) == LegacyKey(g) <==> f.path == g.path && f.name == g.name && f.line == g.line
  {
    Decimals.PrintIsNumeral(f.line);
    Decimals.PrintIsNumeral(g.line);
    hide Decimals.Print;
    if LegacyKey(f) == LegacyKey(g) {
      LastSplit(f.path + ":" + f.name, g.path + ":" + g.name, Decimals.Print(f.line), Decimals.Print(g.line), ':');
      LastSplit(f.path, g.path, f.name, g.name, ':');
    }
  }

  // ----- When the filter is silent

  /** Findings of `path` that count in `d` at severity index `s` or worse. */
  function CountAtLeast(findings: seq<Finding>, path: string, d: Dimension, s: nat): nat {
    if findings == [] then 0
    else
      var f := findings[|findings| - 1];
      CountAtLeast(findings[..|findings| - 1], path, d, s)
      + One(f.path == path && Category(d, f.severity) in Categories(f) && s <= SeverityIndex(f.severity))
  }

  lemma CountLast(findings: seq<Finding>, f: Finding, path: string, d: Dimension, s: nat)
    ensures CountAtLeast(findings + [f], path, d, s)
         == CountAtLeast(findings, path, d, s)
            + One(f.path == path && Category(d, f.severity) in Categories(f) && s <= SeverityIndex(f.severity))
    ensures CountAtLeast([f], path, d, s)
         == One(f.path == path && Category(d, f.severity) in Categories(f) && s <= SeverityIndex(f.severity))
  {
    hide Categories;
    var more := findings + [f];
    assert more[..|more| - 1] == findings && more[|more| - 1] == f;
    assert [f][..0] == [];
  }

  function SeverityCounts(findings: seq<Finding>, path: string, d: Dimension): (r: seq<nat>)
    ensures |r| == 3
  {
    [CountIn(findings, path, Category(d, Moderate)), CountIn(findings, path, Category(d, High)),
     CountIn(findings, path, Category(d, Critical))]
  }

  lemma {:induction false} SuffixIsCountAtLeast(findings: seq<Finding>, path: string, d: Dimension, s: nat)
    requires s <= 2
    ensures SumFrom(SeverityCounts(findings, path, d), s) == CountAtLeast(findings, path, d, s)
    decreases |findings|
  {
    ThreeFrom(SeverityCounts(findings, path, d), s);
    if findings != [] {
      hide Categories;
      hide SumFrom;
      var init := findings[..|findings| - 1];
      SuffixIsCountAtLeast(init, path, d, s);
      ThreeFrom(SeverityCounts(init, path, d), s);
    }
  }

  lemma ThreeFrom(r: seq<nat>, s: nat)
    requires |r| == 3 && s <= 2
    ensures SumFrom(r, s) == (if s == 0 then r[0] else 0) + (if s <= 1 then r[1] else 0) + r[2]
  {
    assert SumFrom(r, 3) == 0 && SumFrom(r, 2) == r[2] && SumFrom(r, 1) == r[1] + SumFrom(r, 2);
  }

  lemma CountsOfFindings(current: FindingCounts, findings: seq<Finding>, path: string, d: Dimension)
    requires Describes(current, findings)
    ensures SeverityCountsForDimension(FileCountsOf(current, path), d) == SeverityCounts(findings, path, d)
  {
    if path !in current {
      forall c: Category
        ensures CountIn(findings, path, c) == 0
      {
        NoFileNoCount(findings, path, c);
      }
    }
    assert SEVERITIES[0] == Moderate && SEVERITIES[1] == High && SEVERITIES[2] == Critical;
  }

  ghost predicate FitsBaseline(findings: seq<Finding>, counts: FindingCounts) {
    forall path: string, d: Dimension ::
      Dominated(SeverityCounts(findings, path, d), SeverityCountsForDimension(FileCountsOf(counts, path), d))
  }

  lemma {:induction false} CountedFindingExists(findings: seq<Finding>, path: string, c: Category) returns (i: nat)
    requires CountIn(findings, path, c) > 0
    ensures i < |findings| && findings[i].path == path && c in Categories(findings[i])
    decreases |findings|
  {
    var f := findings[|findings| - 1];
    if f.path == path && c in Categories(f) {
      i := |findings| - 1;
    } else {
      i := CountedFindingExists(findings[..|findings| - 1], path, c);
    }
  }

  lemma FittingBucketIsKnown(findings: seq<Finding>, baseline: FindingCounts, path: string, c: Category)
    requires FitsBaseline(findings, baseline)
    ensures !Excessive(findings, baseline, path, c)
  {
    NoOverflowIffDominated(SeverityCounts(findings, path, c.dimension),
                           SeverityCountsForDimension(FileCountsOf(baseline, path), c.dimension));
  }

  lemma ExcessShowsUp(findings: seq<Finding>, baseline: BaselineData, path: string, d: Dimension)
    returns (i: nat)
    requires baseline.findingCounts != map[]
    requires !Dominated(SeverityCounts(findings, path, d),
                        SeverityCountsForDimension(FileCountsOf(baseline.findingCounts, path), d))
    ensures i < |findings| && IsNew(findings[i], findings, baseline)
  {
    hide Overflows;
    var now := SeverityCounts(findings, path, d);
    var allowed := SeverityCountsForDimension(FileCountsOf(baseline.findingCounts, path), d);
    NoOverflowIffDominated(now, allowed);
    var k :| 0 <= k < 3 && Overflows(now, allowed, k);
    OverflowNeedsFindings(now, allowed, k);
    var c := Category(d, if k == 0 then Moderate else if k == 1 then High else Critical);
    assert now[k] == CountIn(findings, path, c);
    i := CountedFindingExists(findings, path, c);
    assert Excessive(findings, baseline.findingCounts, path, c);
  }

  lemma OverflowNeedsFindings(now: seq<nat>, allowed: seq<nat>, k: nat)
    requires |now| == |allowed| && k < |now| && Overflows(now, allowed, k)
    ensures now[k] > 0
  {
  }

  /** A filter run drops everything exactly when, for every file and dimension,
      the current severities are suffix-dominated by the baseline's. */
  lemma SilentIffFits(findings: seq<Finding>, baseline: BaselineData)
    requires baseline.findingCounts != map[]
    ensures NewFindings(findings, baseline) == [] <==> FitsBaseline(findings, baseline.findingCounts)
  {
    FilterNone(findings, f => IsNew(f, findings, baseline));
    if FitsBaseline(findings, baseline.findingCounts) {
      forall i | 0 <= i < |findings|
        ensures !IsNew(findings[i], findings, baseline)
      {
        forall c | c in Categories(findings[i])
          ensures !Excessive(findings, baseline.findingCounts, findings[i].path, c)
        {
          FittingBucketIsKnown(findings, baseline.findingCounts, findings[i].path, c);
        }
      }
    } else {
      var path: string, d: Dimension :| !Dominated(SeverityCounts(findings, path, d),
                                                   SeverityCountsForDimension(FileCountsOf(baseline.findingCounts, path), d));
      var i := ExcessShowsUp(findings, baseline, path, d);
    }
  }

  // ----- Comparing a later run with the run that saved the baseline

  /** `f` is no worse than `g`: same file, no more dimensions, no higher severity.
      The name and the line are free, so a moved finding still counts. */
  predicate NoWorse(f: Finding, g: Finding) {
    && f.path == g.path
    && SeverityIndex(f.severity) <= SeverityIndex(g.severity)
    && (forall d: Dimension | d in {Complexity, Dimension.Crap} ::
          Category(d, f.severity) in Categories(f) ==> Category(d, g.severity) in Categories(g))
  }

  /** `now` comes from `saved` by deleting findings, reordering them, moving them
      within their file and lowering their severities or dimensions. */
  ghost predicate Improved(now: seq<Finding>, saved: seq<Finding>, kept: seq<Finding>) {
    && |kept| == |now|
    && (forall i :: 0 <= i < |now| ==> NoWorse(now[i], kept[i]))
    && multiset(kept) <= multiset(saved)
  }

  lemma {:induction false} CountPointwise(now: seq<Finding>, kept: seq<Finding>, path: string, d: Dimension, s: nat)
    requires |kept| == |now| && forall i :: 0 <= i < |now| ==> NoWorse(now[i], kept[i])
    ensures CountAtLeast(now, path, d, s) <= CountAtLeast(kept, path, d, s)
    decreases |now|
  {
    if now != [] {
      var n := |now| - 1;
      CountPointwise(now[..n], kept[..n], path, d, s);
      assert NoWorse(now[n], kept[n]);
      assert d in {Complexity, Dimension.Crap};
    }
  }

  lemma {:induction false} CountWithout(findings: seq<Finding>, i: nat, path: string, d: Dimension, s: nat)
    requires i < |findings|
    ensures CountAtLeast(findings, path, d, s)
         == CountAtLeast(Without(findings, i), path, d, s) + CountAtLeast([findings[i]], path, d, s)
    decreases |findings|
  {
    hide Categories;
    hide CountAtLeast;
    hide One;
    var n := |findings| - 1;
    var init, f := findings[..n], findings[n];
    assert findings == init + [f];
    CountLast(init, f, path, d, s);
    if i == n {
      assert Without(findings, i) == init;
    } else {
      CountWithout(init, i, path, d, s);
      assert Without(findings, i) == Without(init, i) + [f];
      CountLast(Without(init, i), f, path, d, s);
    }
  }

  lemma {:induction false} CountOfSubmultiset(kept: seq<Finding>, saved: seq<Finding>, path: string, d: Dimension, s: nat)
    requires multiset(kept) <= multiset(saved)
    ensures CountAtLeast(kept, path, d, s) <= CountAtLeast(saved, path, d, s)
    decreases |kept|
  {
    if kept != [] {
      var n := |kept| - 1;
      var i := MatchLast(kept, saved);
      CountOfSubmultiset(kept[..n], Without(saved, i), path, d, s);
      CountWithout(saved, i, path, d, s);
      CountWithout(kept, n, path, d, s);
      assert kept[..n] + kept[n + 1..] == kept[..n];
    }
  }

  lemma SomethingSaved(counts: FindingCounts, saved: seq<Finding>)
    requires Describes(counts, saved)
    ensures saved != [] ==> counts != map[]
  {
    if saved != [] {
      assert saved[0].path in counts;
    }
  }

  /** A baseline saved from `saved` accounts for every improved run: in particular
      for the same findings again, reordered or shifted. */
  lemma OwnBaselineIsSilent(saved: seq<Finding>, baseline: BaselineData, now: seq<Finding>, kept: seq<Finding>)
    requires baseline.findings == [] && Describes(baseline.findingCounts, saved)
    requires Improved(now, saved, kept)
    ensures NewFindings(now, baseline) == []
  {
    if baseline.findingCounts == map[] {
      SomethingSaved(baseline.findingCounts, saved);
      assert |multiset(kept)| <= |multiset(saved)|;
      assert |multiset(kept)| == |kept|;
    } else {
      forall path: string, d: Dimension
        ensures Dominated(SeverityCounts(now, path, d),
                          SeverityCountsForDimension(FileCountsOf(baseline.findingCounts, path), d))
      {
        CountsOfFindings(baseline.findingCounts, saved, path, d);
        forall s | 0 <= s < 3
          ensures SumFrom(SeverityCounts(now, path, d), s) <= SumFrom(SeverityCounts(saved, path, d), s)
        {
          SuffixIsCountAtLeast(now, path, d, s);
          SuffixIsCountAtLeast(saved, path, d, s);
          CountPointwise(now, kept, path, d, s);
          CountOfSubmultiset(kept, saved, path, d, s);
        }
      }
      SilentIffFits(now, baseline);
    }
  }

  /** Nothing in the baseline can account for a finding in a bucket when the buckets
      of that dimension have no room at its severity or a worse one. */
  lemma NoRoomIsKept(findings: seq<Finding>, baseline: BaselineData, f: Finding, c: Category)
    requires f in findings && c in Categories(f) && baseline.findingCounts != map[]
    requires forall s: Severity :: SeverityIndex(c.severity) <= SeverityIndex(s) ==>
               Lookup(FileCountsOf(baseline.findingCounts, f.path), Category(c.dimension, s).Key()) == 0
    ensures f in NewFindings(findings, baseline)
  {
    var now := SeverityCounts(findings, f.path, c.dimension);
    var allowed := SeverityCountsForDimension(FileCountsOf(baseline.findingCounts, f.path), c.dimension);
    var i :| 0 <= i < |findings| && findings[i] == f;
    CountedOnce(findings, i, c);
    var k := SeverityIndex(c.severity);
    assert forall t :: k <= t < 3 ==> allowed[t] == 0;
    RemainingShrinks(now, allowed, 0, k);
    SumFromZero(Remaining(now, allowed, k), k);
    assert Excessive(findings, baseline.findingCounts, f.path, c);
    FilterMember(findings, f => IsNew(f, findings, baseline), findings[i]);
  }

  /** A count baseline without CRAP counts for a file keeps every finding of the file
      that exceeds the CRAP threshold; one without complexity counts keeps every
      finding that exceeds a complexity threshold. */
  lemma UncountedDimensionIsKept(findings: seq<Finding>, baseline: BaselineData, f: Finding,
                                 cyclomatic: bool, cognitive: bool, crap: bool)
    requires f in findings && baseline.findingCounts != map[]
    requires cyclomatic || cognitive || crap
    requires f.exceeded == FromBools(cyclomatic, cognitive, crap)
    ensures var counts := FileCountsOf(baseline.findingCounts, f.path);
            crap && Lookup(counts, "crap_moderate") == Lookup(counts, "crap_high") == Lookup(counts, "crap_critical") == 0
            ==> f in NewFindings(findings, baseline)
    ensures var counts := FileCountsOf(baseline.findingCounts, f.path);
            (cyclomatic || cognitive) && Lookup(counts, "complexity_moderate") == Lookup(counts, "complexity_high")
                                         == Lookup(counts, "complexity_critical") == 0
            ==> f in NewFindings(findings, baseline)
  {
    hide NewFindings;
    hide Lookup;
    var counts := FileCountsOf(baseline.findingCounts, f.path);
    if crap && Lookup(counts, "crap_moderate") == Lookup(counts, "crap_high") == Lookup(counts, "crap_critical") == 0 {
      NoRoomIsKept(findings, baseline, f, Category(Dimension.Crap, f.severity));
    }
    if (cyclomatic || cognitive) && Lookup(counts, "complexity_moderate") == Lookup(counts, "complexity_high")
                                    == Lookup(counts, "complexity_critical") == 0 {
      NoRoomIsKept(findings, baseline, f, Category(Complexity, f.severity));
    }
  }

  /** A count baseline that does not mention a file keeps all of its findings. */
  lemma UnbaselinedFileIsKept(findings: seq<Finding>, baseline: BaselineData, f: Finding)
    requires f in findings
    requires baseline.findingCounts != map[] && f.path !in baseline.findingCounts
    ensures f in NewFindings(findings, baseline)
  {
    NoRoomIsKept(findings, baseline, f, Categories(f)[0]);
  }

  /** One slot at one severity accounts for a lone finding of that severity or a
      milder one, and for no worse one. */
  lemma OneSlotCoversMilder(f: Finding, room: Severity, d: Dimension, baseline: BaselineData)
    requires Categories(f) == [Category(d, f.severity)]
    requires baseline.findingCounts == map[f.path := map[Category(d, room).Key() := 1]]
    ensures NewFindings([f], baseline) == []
       <==> match room
            case Moderate => f.severity == Moderate
            case High => f.severity != Critical
            case Critical => true
  {
    assert f.path in baseline.findingCounts;
    SilentIffFits([f], baseline);
    forall path: string, e: Dimension, s: nat | s <= 2
      ensures SumFrom(SeverityCounts([f], path, e), s)
           == One(f.path == path && e == d && s <= SeverityIndex(f.severity))
      ensures SumFrom(SeverityCountsForDimension(FileCountsOf(baseline.findingCounts, path), e), s)
           == One(f.path == path && e == d && s <= SeverityIndex(room))
    {
      OneFindingSums(f, d, path, e, s);
      OneSlotSums(f.path, room, d, baseline.findingCounts, path, e, s);
    }
    hide SumFrom;
    hide SeverityCounts;
    hide SeverityCountsForDimension;
    hide NewFindings;
    if SeverityIndex(f.severity) > SeverityIndex(room) {
      assert !Dominated(SeverityCounts([f], f.path, d),
                        SeverityCountsForDimension(FileCountsOf(baseline.findingCounts, f.path), d)) by {
        assert SumFrom(SeverityCounts([f], f.path, d), SeverityIndex(f.severity)) == 1;
      }
    }
  }

  lemma OneFindingSums(f: Finding, d: Dimension, path: string, e: Dimension, s: nat)
    requires Categories(f) == [Category(d, f.severity)] && s <= 2
    ensures SumFrom(SeverityCounts([f], path, e), s) == One(f.path == path && e == d && s <= SeverityIndex(f.severity))
  {
    assert [f][..0] == [];
    assert forall c: Category :: CountIn([f], path, c) == One(f.path == path && c == Category(d, f.severity));
    hide Categories;
    ThreeFrom(SeverityCounts([f], path, e), s);
    hide SumFrom;
    hide CountIn;
  }

  lemma OneSlotSums(file: string, room: Severity, d: Dimension, counts: FindingCounts, path: string, e: Dimension, s: nat)
    requires counts == map[file := map[Category(d, room).Key() := 1]] && s <= 2
    ensures SumFrom(SeverityCountsForDimension(FileCountsOf(counts, path), e), s)
         == One(file == path && e == d && s <= SeverityIndex(room))
  {
    var slots := SeverityCountsForDimension(FileCountsOf(counts, path), e);
    forall t | 0 <= t < 3
      ensures slots[t] == One(file == path && e == d && t == SeverityIndex(room))
    {
      OneSlotAt(file, room, d, counts, path, Category(e, SEVERITIES[t]));
    }
    hide SeverityCountsForDimension;
    ThreeFrom(slots, s);
    hide SumFrom;
  }

  lemma OneSlotAt(file: string, room: Severity, d: Dimension, counts: FindingCounts, path: string, c: Category)
    requires counts == map[file := map[Category(d, room).Key() := 1]]
    ensures Lookup(FileCountsOf(counts, path), c.Key()) == One(file == path && c == Category(d, room))
  {
    if c.Key() == Category(d, room).Key() {
      KeysAreDistinct(c, Category(d, room));
    }
    hide Category.Key;
  }

  lemma {:induction false} CountedOnce(findings: seq<Finding>, i: nat, c: Category)
    requires i < |findings| && c in Categories(findings[i])
    ensures CountIn(findings, findings[i].path, c) > 0
    decreases |findings|
  {
    if i < |findings| - 1 {
      CountedOnce(findings[..|findings| - 1], i, c);
    }
  }

  /** The baseline written for a run. */
  method FromFindings(findings: seq<Finding>) returns (baseline: BaselineData)
    ensures baseline.findings == [] && Describes(baseline.findingCounts, findings)
  {
    var counts := HealthFindingCounts(findings);
    baseline := BaselineData([], counts);
  }
}
