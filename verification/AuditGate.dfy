/** The audit verdict on everything found and on what is new
    (crates/cli/src/audit.rs). */
module AuditGate {
  import opened Wrappers
  import opened AuditKeys
  import opened Sequences

  datatype Verdict = Pass | Warn | Fail

  function Rank(v: Verdict): nat {
    match v
    case Pass => 0
    case Warn => 1
    case Fail => 2
  }

  /** Health findings and clone groups by their keys; `overThreshold` is whether
      the duplication percentage is above a positive threshold. */
  datatype Dupes = Dupes(groups: seq<string>, overThreshold: bool)

  /** What a run produced; a pass that did not run is absent. */
  datatype Run = Run(check: Option<Results>, dupes: Option<Dupes>, health: Option<seq<string>>)

  datatype Snapshot = Snapshot(deadCode: set<string>, health: set<string>, dupes: set<string>)

  ghost predicate HasError(r: Results) {
    || (exists f :: f in r.unusedFiles && f.error)
    || (exists f :: f in r.unusedExports && f.error)
    || (exists f :: f in r.duplicateExports && f.error)
    || (exists c, f :: c in r.others && f in c && f.error)
  }

  function SumOfLengths(collections: seq<seq<KeyedFinding>>): nat {
    if collections == [] then 0
    else SumOfLengths(collections[..|collections| - 1]) + |collections[|collections| - 1]|
  }

  function TotalIssues(r: Results): nat {
    |r.unusedFiles| + |r.unusedExports| + |r.duplicateExports| + SumOfLengths(r.others)
  }

  function VerdictOf(errors: bool, warnings: bool): Verdict {
    if errors then Fail else if warnings then Warn else Pass
  }

  ghost function ComputeVerdict(run: Run): Verdict {
    var checkErrors := run.check.Some? && HasError(run.check.value);
    var checkWarnings := run.check.Some? && !HasError(run.check.value) && TotalIssues(run.check.value) > 0;
    var healthErrors := run.health.Some? && run.health.value != [];
    var dupes := run.dupes.Some? && run.dupes.value.groups != [];
    var dupeErrors := dupes && run.dupes.value.overThreshold;
    VerdictOf(checkErrors || healthErrors || dupeErrors, checkWarnings || (dupes && !dupeErrors))
  }

  /** The base does not have this key; without a base everything is new. */
  predicate IsNew(key: string, base: Option<set<string>>) {
    base.None? || key !in base.value
  }

  function NewKeys(keys: seq<string>, base: Option<set<string>>): seq<string> {
    Filter(keys, (key: string) => IsNew(key, base))
  }

  function NewResults(r: Results, base: Option<set<string>>): Results {
    if base.None? then r else Introduced(r, base.value)
  }

  function DeadCodeBase(base: Option<Snapshot>): Option<set<string>> {
    if base.None? then None else Some(base.value.deadCode)
  }

  function HealthBase(base: Option<Snapshot>): Option<set<string>> {
    if base.None? then None else Some(base.value.health)
  }

  function DupesBase(base: Option<Snapshot>): Option<set<string>> {
    if base.None? then None else Some(base.value.dupes)
  }

  ghost function ComputeIntroducedVerdict(run: Run, base: Option<Snapshot>): Verdict {
    var check := if run.check.Some? then Some(NewResults(run.check.value, DeadCodeBase(base))) else None;
    var checkErrors := check.Some? && HasError(check.value);
    var checkWarnings := check.Some? && !HasError(check.value) && TotalIssues(check.value) > 0;
    var healthErrors := run.health.Some? && exists key :: key in run.health.value && IsNew(key, HealthBase(base));
    var dupes := run.dupes.Some? && |NewKeys(run.dupes.value.groups, DupesBase(base))| > 0;
    var dupeErrors := dupes && run.dupes.value.overThreshold;
    VerdictOf(checkErrors || healthErrors || dupeErrors, checkWarnings || (dupes && !dupeErrors))
  }

  // ----- What each verdict means

  ghost predicate NewFile(r: Results, base: Option<set<string>>, errorsOnly: bool) {
    exists f :: f in r.unusedFiles && (errorsOnly ==> f.error) && (base.Some? ==> FileKey(f) !in base.value)
  }

  ghost predicate NewExport(r: Results, base: Option<set<string>>, errorsOnly: bool) {
    exists f :: f in r.unusedExports && (errorsOnly ==> f.error) && (base.Some? ==> ExportKey(f) !in base.value)
  }

  ghost predicate NewDuplicateExport(r: Results, base: Option<set<string>>, errorsOnly: bool) {
    exists f :: f in r.duplicateExports && (errorsOnly ==> f.error) && (base.Some? ==> DuplicateExportKey(f) !in base.value)
  }

  ghost predicate NewOther(r: Results, base: Option<set<string>>, errorsOnly: bool) {
    exists k :: 0 <= k < |r.others| && NewKeyed(r.others[k], base, errorsOnly)
  }

  ghost predicate NewKeyed(collection: seq<KeyedFinding>, base: Option<set<string>>, errorsOnly: bool) {
    exists f :: f in collection && (errorsOnly ==> f.error) && (base.Some? ==> f.key !in base.value)
  }

  /** A dead-code finding, or one that is an error, that the base does not have. */
  ghost predicate NewDeadCode(run: Run, base: Option<Snapshot>, errorsOnly: bool) {
    run.check.Some? &&
    var r, keys := run.check.value, if base.Some? then Some(base.value.deadCode) else None;
    NewFile(r, keys, errorsOnly) || NewExport(r, keys, errorsOnly) || NewDuplicateExport(r, keys, errorsOnly)
    || NewOther(r, keys, errorsOnly)
  }

  ghost predicate NewHealthFinding(run: Run, base: Option<Snapshot>) {
    run.health.Some? && exists key :: key in run.health.value && (base.Some? ==> key !in base.value.health)
  }

  ghost predicate NewCloneGroup(run: Run, base: Option<Snapshot>) {
    run.dupes.Some? && exists key :: key in run.dupes.value.groups && (base.Some? ==> key !in base.value.dupes)
  }

  lemma IntroducedMembers(r: Results, base: set<string>)
    ensures forall f :: f in Introduced(r, base).unusedFiles <==> f in r.unusedFiles && FileKey(f) !in base
    ensures forall f :: f in Introduced(r, base).unusedExports <==> f in r.unusedExports && ExportKey(f) !in base
    ensures forall f :: f in Introduced(r, base).duplicateExports <==> f in r.duplicateExports && DuplicateExportKey(f) !in base
  {
    hide FileKey;
    hide ExportKey;
    hide DuplicateExportKey;
    forall f: FileFinding
      ensures f in Introduced(r, base).unusedFiles <==> f in r.unusedFiles && FileKey(f) !in base
    {
      FilterMember(r.unusedFiles, (f: FileFinding) => FileKey(f) !in base, f);
    }
    forall f: ExportFinding
      ensures f in Introduced(r, base).unusedExports <==> f in r.unusedExports && ExportKey(f) !in base
    {
      FilterMember(r.unusedExports, (f: ExportFinding) => ExportKey(f) !in base, f);
    }
    forall f: DuplicateExport
      ensures f in Introduced(r, base).duplicateExports <==> f in r.duplicateExports && DuplicateExportKey(f) !in base
    {
      FilterMember(r.duplicateExports, (f: DuplicateExport) => DuplicateExportKey(f) !in base, f);
    }
  }

  lemma KeyedOfBase(collection: seq<KeyedFinding>, keep: KeyedFinding -> bool, base: set<string>, e: bool)
    requires forall f :: keep(f) <==> f.key !in base
    ensures NewKeyed(Filter(collection, keep), None, e) <==> NewKeyed(collection, Some(base), e)
  {
    forall f: KeyedFinding
      ensures f in Filter(collection, keep) <==> f in collection && keep(f)
    {
      FilterMember(collection, keep, f);
    }
  }

  lemma {:induction false} NoIssuesIffEmpty(r: Results)
    ensures TotalIssues(r) == 0 <==> r.unusedFiles == [] && r.unusedExports == [] && r.duplicateExports == []
                                     && forall k :: 0 <= k < |r.others| ==> r.others[k] == []
  {
    NoLengthIffEmpty(r.others);
  }

  lemma {:induction false} NoLengthIffEmpty(collections: seq<seq<KeyedFinding>>)
    ensures SumOfLengths(collections) == 0 <==> forall k :: 0 <= k < |collections| ==> collections[k] == []
    decreases |collections|
  {
    if collections != [] {
      NoLengthIffEmpty(collections[..|collections| - 1]);
    }
  }

  lemma EmptyIffNoMember<T>(s: seq<T>)
    ensures s == [] <==> forall x :: x !in s
  {
    if s != [] {
      assert s[0] in s;
    }
  }

  lemma ErrorMeans(r: Results)
    ensures HasError(r) <==> NewFile(r, None, true) || NewExport(r, None, true) || NewDuplicateExport(r, None, true)
                             || NewOther(r, None, true)
  {
    if c, f :| c in r.others && f in c && f.error {
      var k :| 0 <= k < |r.others| && r.others[k] == c;
      assert f in r.others[k];
    }
    forall k | 0 <= k < |r.others|
      ensures r.others[k] in r.others
    {
    }
  }

  lemma IssueMeans(r: Results)
    ensures TotalIssues(r) > 0 <==> NewFile(r, None, false) || NewExport(r, None, false)
                                    || NewDuplicateExport(r, None, false) || NewOther(r, None, false)
  {
    NoIssuesIffEmpty(r);
    hide TotalIssues;
    EmptyIffNoMember(r.unusedFiles);
    EmptyIffNoMember(r.unusedExports);
    EmptyIffNoMember(r.duplicateExports);
    forall k | 0 <= k < |r.others|
      ensures r.others[k] == [] <==> !NewKeyed(r.others[k], None, false)
    {
      EmptyIffNoMember(r.others[k]);
    }
    hide NewKeyed;
  }

  lemma NewIsIntroduced(r: Results, base: set<string>, e: bool)
    ensures var i := Introduced(r, base);
            && (NewFile(i, None, e) <==> NewFile(r, Some(base), e))
            && (NewExport(i, None, e) <==> NewExport(r, Some(base), e))
            && (NewDuplicateExport(i, None, e) <==> NewDuplicateExport(r, Some(base), e))
            && (NewOther(i, None, e) <==> NewOther(r, Some(base), e))
  {
    IntroducedMembers(r, base);
    hide FileKey;
    hide ExportKey;
    hide DuplicateExportKey;
    forall k | 0 <= k < |r.others|
      ensures NewKeyed(Introduced(r, base).others[k], None, e) <==> NewKeyed(r.others[k], Some(base), e)
    {
      KeyedOfBase(r.others[k], (f: KeyedFinding) => f.key !in base, base, e);
    }
    hide NewKeyed;
  }

  lemma DeadCodeOfBase(run: Run, base: Option<Snapshot>)
    requires run.check.Some?
    ensures var r := NewResults(run.check.value, DeadCodeBase(base));
            && (HasError(r) <==> NewDeadCode(run, base, true))
            && (TotalIssues(r) > 0 <==> NewDeadCode(run, base, false))
  {
    var r := NewResults(run.check.value, DeadCodeBase(base));
    ErrorMeans(r);
    IssueMeans(r);
    if base.Some? {
      NewIsIntroduced(run.check.value, base.value.deadCode, true);
      NewIsIntroduced(run.check.value, base.value.deadCode, false);
    }
    hide Introduced;
    hide HasError;
    hide TotalIssues;
    hide NewFile;
    hide NewExport;
    hide NewDuplicateExport;
    hide NewOther;
  }

  /** The verdict on what the base does not have, over the findings themselves. */
  lemma IntroducedVerdictMeans(run: Run, base: Option<Snapshot>)
    ensures ComputeIntroducedVerdict(run, base) == Fail
       <==> || NewDeadCode(run, base, true) || NewHealthFinding(run, base)
            || (NewCloneGroup(run, base) && run.dupes.value.overThreshold)
    ensures ComputeIntroducedVerdict(run, base) == Pass
       <==> !NewDeadCode(run, base, false) && !NewHealthFinding(run, base) && !NewCloneGroup(run, base)
  {
    if run.check.Some? {
      DeadCodeOfBase(run, base);
    }
    ErrorIsFinding(run, base);
    if run.dupes.Some? {
      GroupsOfBase(run, base);
    }
    assert NewCloneGroup(run, base) ==> run.dupes.Some?;
    assert NewDeadCode(run, base, false) || NewDeadCode(run, base, true) ==> run.check.Some?;
    hide HasError;
    hide TotalIssues;
    hide NewDeadCode;
    hide NewCloneGroup;
    hide NewKeys;
    hide NewResults;
  }

  lemma GroupsOfBase(run: Run, base: Option<Snapshot>)
    requires run.dupes.Some?
    ensures |NewKeys(run.dupes.value.groups, DupesBase(base))| > 0 <==> NewCloneGroup(run, base)
  {
    var groups := run.dupes.value.groups;
    FilterNone(groups, (key: string) => IsNew(key, DupesBase(base)));
    if i :| 0 <= i < |groups| && IsNew(groups[i], DupesBase(base)) {
      assert groups[i] in groups;
    }
  }

  lemma ErrorIsFinding(run: Run, base: Option<Snapshot>)
    ensures NewDeadCode(run, base, true) ==> NewDeadCode(run, base, false)
  {
    hide FileKey;
    hide ExportKey;
    hide DuplicateExportKey;
  }

  /** The full verdict: Fail if some dead-code finding is an error, or there is a
      health finding, or there are clone groups over the threshold; Pass if there is
      no finding and no group at all; otherwise Warn. */
  lemma FullVerdictMeans(run: Run)
    ensures ComputeVerdict(run) == Fail
       <==> || NewDeadCode(run, None, true) || (run.health.Some? && run.health.value != [])
            || (run.dupes.Some? && run.dupes.value.groups != [] && run.dupes.value.overThreshold)
    ensures ComputeVerdict(run) == Pass
       <==> && !NewDeadCode(run, None, false) && (run.health.Some? ==> run.health.value == [])
            && (run.dupes.Some? ==> run.dupes.value.groups == [])
  {
    NoBaseIsFullVerdict(run, None);
    IntroducedVerdictMeans(run, None);
    if run.health.Some? {
      EmptyIffNoMember(run.health.value);
    }
    if run.dupes.Some? {
      EmptyIffNoMember(run.dupes.value.groups);
    }
    hide ComputeVerdict;
    hide ComputeIntroducedVerdict;
    hide NewDeadCode;
  }

  const EMPTY: Snapshot := Snapshot({}, {}, {})

  lemma EmptyBaseKeepsAll(r: Results, base: set<string>)
    requires base == {}
    ensures Introduced(r, base) == r
  {
    FilterAll(r.unusedFiles, (f: FileFinding) => FileKey(f) !in base);
    FilterAll(r.unusedExports, (f: ExportFinding) => ExportKey(f) !in base);
    FilterAll(r.duplicateExports, (f: DuplicateExport) => DuplicateExportKey(f) !in base);
    forall k | 0 <= k < |r.others|
      ensures Introduced(r, base).others[k] == r.others[k]
    {
      FilterAll(r.others[k], (f: KeyedFinding) => f.key !in base);
    }
    assert Introduced(r, base).others == r.others;
  }

  /** With no base, or an empty one, the new-only verdict is the full verdict. */
  lemma NoBaseIsFullVerdict(run: Run, base: Option<Snapshot>)
    requires base == None || base == Some(EMPTY)
    ensures ComputeIntroducedVerdict(run, base) == ComputeVerdict(run)
  {
    hide Introduced;
    hide HasError;
    hide TotalIssues;
    if run.check.Some? && base.Some? {
      EmptyBaseKeepsAll(run.check.value, base.value.deadCode);
    }
    if run.dupes.Some? {
      FilterAll(run.dupes.value.groups, (key: string) => IsNew(key, DupesBase(base)));
    }
    if run.health.Some? && run.health.value != [] {
      assert run.health.value[0] in run.health.value && IsNew(run.health.value[0], HealthBase(base));
    }
  }

  // ----- A larger base never makes the verdict worse

  predicate Larger(a: Snapshot, b: Snapshot) {
    a.deadCode <= b.deadCode && a.health <= b.health && a.dupes <= b.dupes
  }

  lemma {:induction false} FilterShorter<T>(s: seq<T>, p: T -> bool, q: T -> bool)
    requires forall x :: x in s && p(x) ==> q(x)
    ensures |Filter(s, p)| <= |Filter(s, q)|
    decreases |s|
  {
    if s != [] {
      FilterShorter(s[..|s| - 1], p, q);
    }
  }

  lemma {:induction false} SumOfShorter(a: seq<seq<KeyedFinding>>, b: seq<seq<KeyedFinding>>)
    requires |a| == |b| && forall i :: 0 <= i < |a| ==> |a[i]| <= |b[i]|
    ensures SumOfLengths(a) <= SumOfLengths(b)
    decreases |a|
  {
    if a != [] {
      SumOfShorter(a[..|a| - 1], b[..|b| - 1]);
    }
  }

  lemma LargerBaseKeepsFewer(r: Results, a: set<string>, b: set<string>)
    requires a <= b
    ensures TotalIssues(Introduced(r, b)) <= TotalIssues(Introduced(r, a))
    ensures HasError(Introduced(r, b)) ==> HasError(Introduced(r, a))
  {
    var ia, ib := Introduced(r, a), Introduced(r, b);
    FilterShorter(r.unusedFiles, (f: FileFinding) => FileKey(f) !in b, (f: FileFinding) => FileKey(f) !in a);
    FilterShorter(r.unusedExports, (f: ExportFinding) => ExportKey(f) !in b, (f: ExportFinding) => ExportKey(f) !in a);
    FilterShorter(r.duplicateExports, (f: DuplicateExport) => DuplicateExportKey(f) !in b,
                  (f: DuplicateExport) => DuplicateExportKey(f) !in a);
    forall k | 0 <= k < |r.others|
      ensures |ib.others[k]| <= |ia.others[k]|
      ensures forall f :: f in ib.others[k] ==> f in ia.others[k]
    {
      FilterShorter(r.others[k], (f: KeyedFinding) => f.key !in b, (f: KeyedFinding) => f.key !in a);
      forall f | f in ib.others[k]
        ensures f in ia.others[k]
      {
        FilterMember(r.others[k], (f: KeyedFinding) => f.key !in b, f);
        FilterMember(r.others[k], (f: KeyedFinding) => f.key !in a, f);
      }
    }
    SumOfShorter(ib.others, ia.others);
    forall f: FileFinding | f in ib.unusedFiles
      ensures f in ia.unusedFiles
    {
      FilterMember(r.unusedFiles, (f: FileFinding) => FileKey(f) !in b, f);
      FilterMember(r.unusedFiles, (f: FileFinding) => FileKey(f) !in a, f);
    }
    forall f: ExportFinding | f in ib.unusedExports
      ensures f in ia.unusedExports
    {
      FilterMember(r.unusedExports, (f: ExportFinding) => ExportKey(f) !in b, f);
      FilterMember(r.unusedExports, (f: ExportFinding) => ExportKey(f) !in a, f);
    }
    forall f: DuplicateExport | f in ib.duplicateExports
      ensures f in ia.duplicateExports
    {
      FilterMember(r.duplicateExports, (f: DuplicateExport) => DuplicateExportKey(f) !in b, f);
      FilterMember(r.duplicateExports, (f: DuplicateExport) => DuplicateExportKey(f) !in a, f);
    }
    hide Introduced;
    hide Filter;
    hide TotalIssues;
    if c, f :| c in ib.others && f in c && f.error {
      var k :| 0 <= k < |ib.others| && ib.others[k] == c;
      assert ia.others[k] in ia.others && f in ia.others[k];
    }
  }

  /** Under Pass < Warn < Fail the verdict is antitone in the base. */
  lemma VerdictIsAntitone(run: Run, a: Snapshot, b: Snapshot)
    requires Larger(a, b)
    ensures Rank(ComputeIntroducedVerdict(run, Some(b))) <= Rank(ComputeIntroducedVerdict(run, Some(a)))
    ensures ComputeIntroducedVerdict(run, Some(b)) == Fail ==> ComputeIntroducedVerdict(run, Some(a)) == Fail
    ensures ComputeIntroducedVerdict(run, Some(a)) == Pass ==> ComputeIntroducedVerdict(run, Some(b)) == Pass
  {
    if run.check.Some? {
      LargerBaseKeepsFewer(run.check.value, a.deadCode, b.deadCode);
    }
    if run.dupes.Some? {
      FilterShorter(run.dupes.value.groups, (key: string) => IsNew(key, DupesBase(Some(b))),
                    (key: string) => IsNew(key, DupesBase(Some(a))));
    }
    hide HasError;
    hide TotalIssues;
    hide Filter;
  }

  // ----- The three sources of a base snapshot

  /** The snapshot of the current run's own keys. */
  ghost predicate IsCurrentSnapshot(run: Run, s: Snapshot) {
    && (forall key :: key in s.deadCode <==> run.check.Some? && HasKey(run.check.value, key))
    && (forall key :: key in s.health <==> run.health.Some? && key in run.health.value)
    && (forall key :: key in s.dupes <==> run.dupes.Some? && key in run.dupes.value.groups)
  }

  datatype Attribution = Attribution(deadCodeIntroduced: nat, deadCodeInherited: nat,
                                     healthIntroduced: nat, healthInherited: nat,
                                     dupesIntroduced: nat, dupesInherited: nat)

  /** compute_audit_attribution over the run's own keys, as CountIntroduced counts. */
  function Attribute(own: Snapshot, base: Snapshot): Attribution {
    Attribution(|own.deadCode - base.deadCode|, |own.deadCode * base.deadCode|,
                |own.health - base.health|, |own.health * base.health|,
                |own.dupes - base.dupes|, |own.dupes * base.dupes|)
  }

  lemma NonemptyHasMember<T>(s: seq<T>)
    ensures s != [] ==> exists x :: x in s
  {
    if s != [] {
      assert s[0] in s;
    }
  }

  lemma NothingNew(r: Results, base: set<string>)
    requires forall key :: HasKey(r, key) ==> key in base
    ensures !HasError(Introduced(r, base)) && TotalIssues(Introduced(r, base)) == 0
  {
    var i := Introduced(r, base);
    forall f: FileFinding
      ensures f !in i.unusedFiles
    {
      FilterMember(r.unusedFiles, (f: FileFinding) => FileKey(f) !in base, f);
      assert f in r.unusedFiles ==> HasKey(r, FileKey(f));
    }
    forall f: ExportFinding
      ensures f !in i.unusedExports
    {
      FilterMember(r.unusedExports, (f: ExportFinding) => ExportKey(f) !in base, f);
      assert f in r.unusedExports ==> HasKey(r, ExportKey(f));
    }
    forall f: DuplicateExport
      ensures f !in i.duplicateExports
    {
      FilterMember(r.duplicateExports, (f: DuplicateExport) => DuplicateExportKey(f) !in base, f);
      assert f in r.duplicateExports ==> HasKey(r, DuplicateExportKey(f));
    }
    forall k, f: KeyedFinding | 0 <= k < |i.others|
      ensures f !in i.others[k]
    {
      FilterMember(r.others[k], (f: KeyedFinding) => f.key !in base, f);
      assert f in r.others[k] ==> r.others[k] in r.others && HasKey(r, f.key);
    }
    hide Introduced;
    hide HasKey;
    NonemptyHasMember(i.unusedFiles);
    NonemptyHasMember(i.unusedExports);
    NonemptyHasMember(i.duplicateExports);
    forall k | 0 <= k < |i.others|
      ensures |i.others[k]| == 0
    {
      NonemptyHasMember(i.others[k]);
    }
    SumOfEmpty(i.others);
  }

  lemma {:induction false} SumOfEmpty(collections: seq<seq<KeyedFinding>>)
    requires forall k :: 0 <= k < |collections| ==> |collections[k]| == 0
    ensures SumOfLengths(collections) == 0
    decreases |collections|
  {
    if collections != [] {
      SumOfEmpty(collections[..|collections| - 1]);
    }
  }

  lemma AllKnownIsPass(run: Run, own: Snapshot, base: Snapshot)
    requires IsCurrentSnapshot(run, own) && Larger(own, base)
    ensures ComputeIntroducedVerdict(run, Some(base)) == Pass
  {
    if run.check.Some? {
      NothingNew(run.check.value, base.deadCode);
    }
    if run.dupes.Some? {
      var keys := NewKeys(run.dupes.value.groups, DupesBase(Some(base)));
      forall key
        ensures key !in keys
      {
        FilterMember(run.dupes.value.groups, (key: string) => IsNew(key, DupesBase(Some(base))), key);
      }
      NonemptyHasMember(keys);
    }
    hide HasError;
    hide TotalIssues;
    hide Filter;
    hide Introduced;
  }

  /** When every current key is in the true base, using the current keys as the
      base gives the same verdict and the same attribution as the base itself. */
  lemma CurrentKeysStandInForBase(run: Run, own: Snapshot, base: Snapshot)
    requires IsCurrentSnapshot(run, own) && Larger(own, base)
    ensures ComputeIntroducedVerdict(run, Some(own)) == ComputeIntroducedVerdict(run, Some(base)) == Pass
    ensures Attribute(own, own) == Attribute(own, base)
  {
    AllKnownIsPass(run, own, own);
    AllKnownIsPass(run, own, base);
    SameCounts(own.deadCode, base.deadCode);
    SameCounts(own.health, base.health);
    SameCounts(own.dupes, base.dupes);
  }

  lemma SameCounts(own: set<string>, base: set<string>)
    requires own <= base
    ensures own - own == own - base && own * own == own * base
  {
  }

  /** The verdict is Pass exactly when nothing at all is counted as introduced, and
      every key is counted once. */
  lemma PassIffNothingIntroduced(run: Run, own: Snapshot, base: Snapshot)
    requires IsCurrentSnapshot(run, own)
    ensures var a := Attribute(own, base);
            && (ComputeIntroducedVerdict(run, Some(base)) == Pass
                <==> a.deadCodeIntroduced == 0 && a.healthIntroduced == 0 && a.dupesIntroduced == 0)
            && a.deadCodeIntroduced + a.deadCodeInherited == |own.deadCode|
            && a.healthIntroduced + a.healthInherited == |own.health|
            && a.dupesIntroduced + a.dupesInherited == |own.dupes|
  {
    IntroducedVerdictMeans(run, Some(base));
    DeadCodeKeysAreNew(run, own, base);
    SplitByBase(own.deadCode, base.deadCode);
    SplitByBase(own.health, base.health);
    SplitByBase(own.dupes, base.dupes);
    hide ComputeIntroducedVerdict;
    hide NewDeadCode;
    if NewHealthFinding(run, Some(base)) {
      var key :| key in run.health.value && key !in base.health;
      assert key in own.health - base.health;
    }
    if NewCloneGroup(run, Some(base)) {
      var key :| key in run.dupes.value.groups && key !in base.dupes;
      assert key in own.dupes - base.dupes;
    }
  }

  lemma SplitByBase(own: set<string>, base: set<string>)
    ensures |own - base| + |own * base| == |own|
    ensures |own - base| == 0 <==> forall key :: key in own ==> key in base
  {
    assert own == (own - base) + (own * base);
    if |own - base| == 0 {
      assert forall key :: key in own && key !in base ==> key in own - base;
    } else {
      var key :| key in own - base;
    }
  }

  lemma DeadCodeKeysAreNew(run: Run, own: Snapshot, base: Snapshot)
    requires IsCurrentSnapshot(run, own)
    ensures NewDeadCode(run, Some(base), false) <==> exists key :: key in own.deadCode && key !in base.deadCode
  {
    hide FileKey;
    hide ExportKey;
    hide DuplicateExportKey;
    if run.check.Some? {
      KeysOfFindings(run.check.value, base.deadCode);
    }
    hide HasKey;
    hide NewFile;
    hide NewExport;
    hide NewDuplicateExport;
    hide NewOther;
  }

  lemma KeysOfFindings(r: Results, base: set<string>)
    ensures (exists key :: HasKey(r, key) && key !in base)
       <==> || NewFile(r, Some(base), false) || NewExport(r, Some(base), false) || NewDuplicateExport(r, Some(base), false)
            || NewOther(r, Some(base), false)
  {
    hide FileKey;
    hide ExportKey;
    hide DuplicateExportKey;
    if key :| HasKey(r, key) && key !in base {
      if c, f :| c in r.others && f in c && f.key == key {
        var k :| 0 <= k < |r.others| && r.others[k] == c;
        assert NewKeyed(r.others[k], Some(base), false);
      }
    }
    if NewFile(r, Some(base), false) {
      var f :| f in r.unusedFiles && FileKey(f) !in base;
      assert HasKey(r, FileKey(f));
    }
    if NewExport(r, Some(base), false) {
      var f :| f in r.unusedExports && ExportKey(f) !in base;
      assert HasKey(r, ExportKey(f));
    }
    if NewDuplicateExport(r, Some(base), false) {
      var f :| f in r.duplicateExports && DuplicateExportKey(f) !in base;
      assert HasKey(r, DuplicateExportKey(f));
    }
    if k :| 0 <= k < |r.others| && NewKeyed(r.others[k], Some(base), false) {
      var f :| f in r.others[k] && f.key !in base;
      assert r.others[k] in r.others && HasKey(r, f.key);
    }
  }

  /** The base the gate compares against, and whether the base pass was skipped. */
  datatype Base = Base(snapshot: Option<Snapshot>, skipped: bool)

  /** Outside the new-only gate there is no base; otherwise the cache, then a fresh
      base worktree (whose analysis may fail: Some(None)), then the current keys. */
  function ResolveBaseSnapshot(newOnly: bool, cached: Option<Snapshot>, rebuilt: Option<Option<Snapshot>>,
                               own: Snapshot): Option<Base> {
    if !newOnly then Some(Base(None, false))
    else if cached.Some? then Some(Base(cached, false))
    else if rebuilt.Some? then (if rebuilt.value.None? then None else Some(Base(rebuilt.value, false)))
    else Some(Base(Some(own), true))
  }

  ghost function AuditVerdict(newOnly: bool, run: Run, base: Option<Snapshot>): Verdict {
    if newOnly then ComputeIntroducedVerdict(run, base) else ComputeVerdict(run)
  }

  /** Whatever source the base comes from, the gate gives the verdict and the
      attribution it would give against the true base, as long as the stored and
      the rebuilt snapshot are the true one and the base pass is skipped only when
      every current key is in it. */
  lemma EverySourceGivesTheTrueVerdict(newOnly: bool, run: Run, own: Snapshot, truth: Snapshot,
                                       cached: Option<Snapshot>, rebuilt: Option<Option<Snapshot>>)
    requires IsCurrentSnapshot(run, own)
    requires cached.Some? ==> cached.value == truth
    requires rebuilt.Some? && rebuilt.value.Some? ==> rebuilt.value.value == truth
    requires cached.None? && rebuilt.None? ==> Larger(own, truth)
    ensures ResolveBaseSnapshot(newOnly, cached, rebuilt, own).None?
       <==> newOnly && cached.None? && rebuilt == Some(None)
    ensures var r := ResolveBaseSnapshot(newOnly, cached, rebuilt, own);
            r.Some? ==>
              && AuditVerdict(newOnly, run, r.value.snapshot) == AuditVerdict(newOnly, run, Some(truth))
              && (r.value.snapshot.Some? <==> newOnly)
              && (r.value.skipped <==> newOnly && cached.None? && rebuilt.None?)
              && (newOnly ==> Attribute(own, r.value.snapshot.value) == Attribute(own, truth))
  {
    if newOnly && cached.None? && rebuilt.None? {
      CurrentKeysStandInForBase(run, own, truth);
    }
    hide ComputeIntroducedVerdict;
    hide IsCurrentSnapshot;
    hide Attribute;
  }
}
