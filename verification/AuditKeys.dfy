/** New against inherited dead-code findings (crates/cli/src/audit_keys.rs).

    The program's forty-odd finding collections appear as two with their own key
    formats and the direct base lookup, one whose key is put together from a sorted
    list, and any number of others known by the key they print. Paths are relative
    to the project root. */
module AuditKeys {
  import opened Wrappers
  import opened Text
  import opened Sequences
  import opened SortedKeys

  datatype FileFinding = FileFinding(path: string, error: bool)
  datatype ExportFinding = ExportFinding(path: string, name: string, error: bool)
  datatype DuplicateExport = DuplicateExport(name: string, locations: seq<string>, error: bool)
  datatype KeyedFinding = KeyedFinding(key: string, error: bool)

  datatype Results = Results(unusedFiles: seq<FileFinding>, unusedExports: seq<ExportFinding>,
                             duplicateExports: seq<DuplicateExport>, others: seq<seq<KeyedFinding>>)

  function FileKey(f: FileFinding): string {
    "unused-file:" + f.path
  }

  function ExportKey(f: ExportFinding): string {
    "unused-export:" + f.path + ":" + f.name
  }

  /** Drop every element that repeats the one before it. */
  function Dedup(s: seq<string>): seq<string> {
    if |s| <= 1 then s
    else Dedup(s[..|s| - 1]) + (if s[|s| - 1] == s[|s| - 2] then [] else [s[|s| - 1]])
  }

  /** sorted_relative_path_keys, dedup, join. */
  function DuplicateExportKey(f: DuplicateExport): string {
    "duplicate-export:" + f.name + ":" + Join(Dedup(SortStrings(f.locations)), "|")
  }

  lemma {:induction false} DedupIsSorted(s: seq<string>)
    requires Ascending(s)
    ensures StrictlySorted(Dedup(s)) && Elements(Dedup(s)) == Elements(s)
    ensures s != [] ==> Dedup(s) != [] && Dedup(s)[|Dedup(s)| - 1] == s[|s| - 1]
    decreases |s|
  {
    if |s| > 1 {
      var init, x, y := s[..|s| - 1], s[|s| - 2], s[|s| - 1];
      DedupIsSorted(init);
      assert s == init + [y] && init[|init| - 1] == x;
      assert forall z :: z in s <==> z in init || z == y;
      assert x in init;
      assert Dedup(s) == if x == y then Dedup(init) else Dedup(init) + [y];
      forall z
        ensures z in Dedup(s) <==> z in s
      {
        assert z in Dedup(init) <==> z in Elements(Dedup(init));
        assert z in init <==> z in Elements(init);
      }
      if x != y {
        BelowIsTotal(x, y);
        SortedAppend(Dedup(init), y);
      }
    }
  }

  lemma SortedAppend(s: seq<string>, y: string)
    requires s != [] && StrictlySorted(s) && Below(s[|s| - 1], y)
    ensures StrictlySorted(s + [y])
  {
    forall i | 0 <= i < |s| - 1
      ensures Below(s[i], y)
    {
      BelowIsTransitive(s[i], s[|s| - 1], y);
    }
  }

  /** Neither the order nor the repetition of the locations changes the key. */
  lemma DuplicateExportKeyIsStable(f: DuplicateExport, g: DuplicateExport)
    requires f.name == g.name && Elements(f.locations) == Elements(g.locations)
    ensures DuplicateExportKey(f) == DuplicateExportKey(g)
  {
    hide Dedup;
    var a, b := SortStrings(f.locations), SortStrings(g.locations);
    DedupIsSorted(a);
    DedupIsSorted(b);
    SameElements(a, f.locations);
    SameElements(b, g.locations);
    SortedIsCanonical(Dedup(a), Dedup(b));
  }

  lemma SameElements(s: seq<string>, t: seq<string>)
    requires multiset(s) == multiset(t)
    ensures Elements(s) == Elements(t)
  {
    assert forall x :: x in s <==> x in multiset(s);
    assert forall x :: x in t <==> x in multiset(t);
  }

  // ----- What a key tells

  /** The key of an unused file is its path and nothing else's key. */
  lemma FileKeyTells(f: FileFinding, g: FileFinding, e: ExportFinding, d: DuplicateExport)
    ensures FileKey(f) == FileKey(g) <==> f.path == g.path
    ensures FileKey(f) != ExportKey(e) && FileKey(f) != DuplicateExportKey(d) && ExportKey(e) != DuplicateExportKey(d)
  {
    var kind := "unused-file:";
    assert FileKey(f)[|kind|..] == f.path && FileKey(g)[|kind|..] == g.path;
    assert FileKey(f)[7] == 'f' && ExportKey(e)[7] == 'e' && DuplicateExportKey(d)[0] == 'd';
  }

  /** The key of an unused export tells its path and its name, as long as the names
      hold no colon. */
  lemma ExportKeyTells(f: ExportFinding, g: ExportFinding)
    requires ':' !in f.name && ':' !in g.name
    ensures ExportKey(f) == ExportKey(g) <==> f.path == g.path && f.name == g.name
  {
    var kind := "unused-export:";
    assert ExportKey(f)[|kind|..] == f.path + ":" + f.name;
    assert ExportKey(g)[|kind|..] == g.path + ":" + g.name;
    if ExportKey(f) == ExportKey(g) {
      LastSplit(f.path, g.path, f.name, g.name, ':');
    }
  }

  /** Every name with a colon in it is told apart no more. */
  lemma ColonInNameCollides(path: string, before: string, after: string, error: bool)
    ensures ExportKey(ExportFinding(path, before + ":" + after, error))
         == ExportKey(ExportFinding(path + ":" + before, after, error))
  {
  }

  ghost predicate PlainPaths(paths: seq<string>) {
    forall path :: path in paths ==> path != "" && '|' !in path
  }

  /** The key of a duplicate export tells the name and the set of locations, as long
      as the names hold no colon and the paths no bar. */
  lemma DuplicateExportKeyTells(f: DuplicateExport, g: DuplicateExport)
    requires ':' !in f.name && ':' !in g.name && PlainPaths(f.locations) && PlainPaths(g.locations)
    ensures DuplicateExportKey(f) == DuplicateExportKey(g)
       <==> f.name == g.name && Elements(f.locations) == Elements(g.locations)
  {
    hide PlainPaths;
    if f.name == g.name && Elements(f.locations) == Elements(g.locations) {
      DuplicateExportKeyIsStable(f, g);
    } else if DuplicateExportKey(f) == DuplicateExportKey(g) {
      SameKeySameParts(f, g);
      LocationsOfKey(f);
      LocationsOfKey(g);
      hide *;
      JoinTells(Dedup(SortStrings(f.locations)), Dedup(SortStrings(g.locations)));
    }
  }

  lemma SameKeySameParts(f: DuplicateExport, g: DuplicateExport)
    requires ':' !in f.name && ':' !in g.name && DuplicateExportKey(f) == DuplicateExportKey(g)
    ensures f.name == g.name && Join(Dedup(SortStrings(f.locations)), "|") == Join(Dedup(SortStrings(g.locations)), "|")
  {
    hide Join;
    hide Dedup;
    hide SortStrings;
    SplitKey("duplicate-export:", f.name, g.name, Join(Dedup(SortStrings(f.locations)), "|"),
             Join(Dedup(SortStrings(g.locations)), "|"));
  }

  lemma SplitKey(kind: string, name: string, other: string, s: string, t: string)
    requires kind + name + ":" + s == kind + other + ":" + t && ':' !in name && ':' !in other
    ensures name == other && s == t
  {
    var a, b := name + ":" + s, other + ":" + t;
    assert kind + name + ":" + s == kind + a && kind + other + ":" + t == kind + b;
    assert (kind + a)[|kind|..] == a && (kind + b)[|kind|..] == b;
    FirstSplit(name, other, s, t, ':');
  }

  lemma LocationsOfKey(f: DuplicateExport)
    requires PlainPaths(f.locations)
    ensures var unique := Dedup(SortStrings(f.locations)); Elements(unique) == Elements(f.locations) && PlainPaths(unique)
  {
    var sorted := SortStrings(f.locations);
    DedupIsSorted(sorted);
    SameElements(sorted, f.locations);
    hide Dedup;
    forall path | path in Dedup(sorted)
      ensures path in f.locations
    {
      assert path in Elements(Dedup(sorted));
    }
  }

  lemma JoinTells(a: seq<string>, b: seq<string>)
    requires Join(a, "|") == Join(b, "|") && PlainPaths(a) && PlainPaths(b)
    ensures a == b
  {
    if a != b {
      var k := FirstDifference(a, b);
      BarInside(a[k], b[k]);
      BarInside(b[k], a[k]);
    }
  }

  lemma BarInside(start: string, s: string)
    ensures StartsWith(s, start + "|") ==> '|' in s
  {
    if StartsWith(s, start + "|") {
      assert s[|start|] == (start + "|")[|start|];
    }
  }

  // ----- Keys

  /** Some finding has this key. */
  ghost predicate HasKey(r: Results, key: string) {
    || (exists f :: f in r.unusedFiles && FileKey(f) == key)
    || (exists f :: f in r.unusedExports && ExportKey(f) == key)
    || (exists f :: f in r.duplicateExports && DuplicateExportKey(f) == key)
    || (exists c, f :: c in r.others && f in c && f.key == key)
  }

  class DeadCodeKeyCollector {
    var keys: set<string>

    constructor ()
      ensures keys == {}
    {
      keys := {};
    }

    method Insert(key: string)
      modifies this
      ensures keys == old(keys) + {key}
    {
      keys := keys + {key};
    }
  }

  method DeadCodeKeys(r: Results) returns (keys: set<string>)
    ensures forall key :: key in keys <==> HasKey(r, key)
  {
    hide FileKey;
    hide ExportKey;
    hide DuplicateExportKey;
    var collector := new DeadCodeKeyCollector();
    for i := 0 to |r.unusedFiles|
      invariant fresh(collector)
      invariant forall key :: key in collector.keys <==> exists f :: f in r.unusedFiles[..i] && FileKey(f) == key
    {
      assert r.unusedFiles[..i + 1] == r.unusedFiles[..i] + [r.unusedFiles[i]];
      collector.Insert(FileKey(r.unusedFiles[i]));
    }
    assert r.unusedFiles[..|r.unusedFiles|] == r.unusedFiles;
    ghost var files := collector.keys;
    for i := 0 to |r.unusedExports|
      invariant fresh(collector)
      invariant forall key :: key in collector.keys <==>
                  key in files || exists f :: f in r.unusedExports[..i] && ExportKey(f) == key
    {
      assert r.unusedExports[..i + 1] == r.unusedExports[..i] + [r.unusedExports[i]];
      collector.Insert(ExportKey(r.unusedExports[i]));
    }
    assert r.unusedExports[..|r.unusedExports|] == r.unusedExports;
    ghost var exports := collector.keys;
    for i := 0 to |r.duplicateExports|
      invariant fresh(collector)
      invariant forall key :: key in collector.keys <==>
                  key in exports || exists f :: f in r.duplicateExports[..i] && DuplicateExportKey(f) == key
    {
      assert r.duplicateExports[..i + 1] == r.duplicateExports[..i] + [r.duplicateExports[i]];
      collector.Insert(DuplicateExportKey(r.duplicateExports[i]));
    }
    assert r.duplicateExports[..|r.duplicateExports|] == r.duplicateExports;
    ghost var duplicates := collector.keys;
    for c := 0 to |r.others|
      invariant fresh(collector)
      invariant forall key :: key in collector.keys <==>
                  key in duplicates || exists d, f :: d in r.others[..c] && f in d && f.key == key
    {
      ghost var before := collector.keys;
      var collection := r.others[c];
      for i := 0 to |collection|
        invariant fresh(collector)
        invariant forall key :: key in collector.keys <==>
                    key in before || exists f :: f in collection[..i] && f.key == key
      {
        assert collection[..i + 1] == collection[..i] + [collection[i]];
        collector.Insert(collection[i].key);
      }
      assert collection[..|collection|] == collection;
      assert r.others[..c + 1] == r.others[..c] + [collection];
    }
    assert r.others[..|r.others|] == r.others;
    keys := collector.keys;
  }

  // ----- Retaining what was introduced

  /** The plain reading: keep the findings whose key the base does not have. */
  function Introduced(r: Results, base: set<string>): Results {
    Results(Filter(r.unusedFiles, (f: FileFinding) => FileKey(f) !in base),
            Filter(r.unusedExports, (f: ExportFinding) => ExportKey(f) !in base),
            Filter(r.duplicateExports, (f: DuplicateExport) => DuplicateExportKey(f) !in base),
            seq(|r.others|, i requires 0 <= i < |r.others| => Filter(r.others[i], (f: KeyedFinding) => f.key !in base)))
  }

  /** The collections the program retains in place. */
  class AnalysisResults {
    var unusedFiles: seq<FileFinding>
    var unusedExports: seq<ExportFinding>
    var duplicateExports: seq<DuplicateExport>
    var others: seq<seq<KeyedFinding>>

    function Value(): Results
      reads this
    {
      Results(unusedFiles, unusedExports, duplicateExports, others)
    }

    constructor (r: Results)
      ensures Value() == r
    {
      unusedFiles, unusedExports := r.unusedFiles, r.unusedExports;
      duplicateExports, others := r.duplicateExports, r.others;
    }

    /** The direct base lookup of the fast paths. */
    method RetainFastPaths(base: set<string>)
      modifies this
      ensures Value() == old(Value()).(
                unusedFiles := Introduced(old(Value()), base).unusedFiles,
                unusedExports := Introduced(old(Value()), base).unusedExports)
    {
      ghost var r := Value();
      var files: seq<FileFinding> := [];
      for i := 0 to |unusedFiles|
        invariant Value() == r && files == Filter(unusedFiles[..i], (f: FileFinding) => FileKey(f) !in base)
      {
        assert unusedFiles[..i + 1][..i] == unusedFiles[..i];
        if FileKey(unusedFiles[i]) !in base {
          files := files + [unusedFiles[i]];
        }
      }
      assert unusedFiles[..|unusedFiles|] == unusedFiles;
      var exports: seq<ExportFinding> := [];
      for i := 0 to |unusedExports|
        invariant Value() == r && exports == Filter(unusedExports[..i], (f: ExportFinding) => ExportKey(f) !in base)
      {
        assert unusedExports[..i + 1][..i] == unusedExports[..i];
        if ExportKey(unusedExports[i]) !in base {
          exports := exports + [unusedExports[i]];
        }
      }
      assert unusedExports[..|unusedExports|] == unusedExports;
      unusedFiles, unusedExports := files, exports;
    }

    /** The other collections go through the set of introduced keys, which was
        taken before anything was narrowed; both routes agree. */
    method RetainIntroduced(base: Option<set<string>>)
      modifies this
      ensures base.None? ==> Value() == old(Value())
      ensures base.Some? ==> Value() == Introduced(old(Value()), base.value)
    {
      if base.None? {
        return;
      }
      ghost var r := Value();
      hide DuplicateExportKey;
      var all := DeadCodeKeys(Value());
      var introduced := set key | key in all && key !in base.value;
      RetainFastPaths(base.value);
      var duplicates := FilterDuplicates(duplicateExports, introduced);
      FilterAgree(duplicateExports, (f: DuplicateExport) => DuplicateExportKey(f) in introduced,
                  (f: DuplicateExport) => DuplicateExportKey(f) !in base.value);
      var kept := FilterEach(others, introduced);
      forall c | 0 <= c < |r.others|
        ensures kept[c] == Introduced(r, base.value).others[c]
      {
        assert r.others[c] in r.others;
        FilterAgree(r.others[c], (f: KeyedFinding) => f.key in introduced, (f: KeyedFinding) => f.key !in base.value);
      }
      assert kept == Introduced(r, base.value).others;
      duplicateExports, others := duplicates, kept;
    }
  }

  method FilterDuplicates(collection: seq<DuplicateExport>, introduced: set<string>) returns (kept: seq<DuplicateExport>)
    ensures kept == Filter(collection, (f: DuplicateExport) => DuplicateExportKey(f) in introduced)
  {
    hide DuplicateExportKey;
    kept := [];
    for i := 0 to |collection|
      invariant kept == Filter(collection[..i], (f: DuplicateExport) => DuplicateExportKey(f) in introduced)
    {
      assert collection[..i + 1][..i] == collection[..i];
      if DuplicateExportKey(collection[i]) in introduced {
        kept := kept + [collection[i]];
      }
    }
    assert collection[..|collection|] == collection;
  }

  method FilterEach(collections: seq<seq<KeyedFinding>>, introduced: set<string>) returns (kept: seq<seq<KeyedFinding>>)
    ensures |kept| == |collections|
    ensures forall c :: 0 <= c < |collections| ==>
              kept[c] == Filter(collections[c], (f: KeyedFinding) => f.key in introduced)
  {
    kept := [];
    for c := 0 to |collections|
      invariant |kept| == c
      invariant forall d :: 0 <= d < c ==>
                  kept[d] == Filter(collections[d], (f: KeyedFinding) => f.key in introduced)
    {
      var collection := FilterByKeys(collections[c], introduced);
      kept := kept + [collection];
    }
  }

  method FilterByKeys(collection: seq<KeyedFinding>, introduced: set<string>) returns (kept: seq<KeyedFinding>)
    ensures kept == Filter(collection, (f: KeyedFinding) => f.key in introduced)
  {
    kept := [];
    for i := 0 to |collection|
      invariant kept == Filter(collection[..i], (f: KeyedFinding) => f.key in introduced)
    {
      assert collection[..i + 1][..i] == collection[..i];
      if collection[i].key in introduced {
        kept := kept + [collection[i]];
      }
    }
    assert collection[..|collection|] == collection;
  }

  /** The keys of what is retained are exactly the keys the base does not have. */
  lemma IntroducedKeys(r: Results, base: set<string>, key: string)
    ensures HasKey(Introduced(r, base), key) <==> HasKey(r, key) && key !in base
  {
    var i := Introduced(r, base);
    forall f: FileFinding
      ensures f in i.unusedFiles <==> f in r.unusedFiles && FileKey(f) !in base
    {
      FilterMember(r.unusedFiles, (f: FileFinding) => FileKey(f) !in base, f);
    }
    forall f: ExportFinding
      ensures f in i.unusedExports <==> f in r.unusedExports && ExportKey(f) !in base
    {
      FilterMember(r.unusedExports, (f: ExportFinding) => ExportKey(f) !in base, f);
    }
    forall f: DuplicateExport
      ensures f in i.duplicateExports <==> f in r.duplicateExports && DuplicateExportKey(f) !in base
    {
      FilterMember(r.duplicateExports, (f: DuplicateExport) => DuplicateExportKey(f) !in base, f);
    }
    forall k, f: KeyedFinding | 0 <= k < |r.others|
      ensures f in i.others[k] <==> f in r.others[k] && f.key !in base
    {
      FilterMember(r.others[k], (f: KeyedFinding) => f.key !in base, f);
    }
    hide Filter;
    hide FileKey;
    hide ExportKey;
    hide DuplicateExportKey;
    if c, f :| c in r.others && f in c && f.key == key && key !in base {
      var k :| 0 <= k < |r.others| && r.others[k] == c;
      assert i.others[k] in i.others && f in i.others[k];
    }
    if c, f :| c in i.others && f in c && f.key == key {
      var k :| 0 <= k < |i.others| && i.others[k] == c;
      assert r.others[k] in r.others && f in r.others[k];
    }
  }

  /** Retaining twice is retaining once. */
  lemma RetainIsIdempotent(r: Results, base: set<string>)
    ensures Introduced(Introduced(r, base), base) == Introduced(r, base)
  {
    var i := Introduced(r, base);
    forall f: FileFinding | f in i.unusedFiles
      ensures FileKey(f) !in base
    {
      FilterMember(r.unusedFiles, (f: FileFinding) => FileKey(f) !in base, f);
    }
    FilterAll(i.unusedFiles, (f: FileFinding) => FileKey(f) !in base);
    forall f: ExportFinding | f in i.unusedExports
      ensures ExportKey(f) !in base
    {
      FilterMember(r.unusedExports, (f: ExportFinding) => ExportKey(f) !in base, f);
    }
    FilterAll(i.unusedExports, (f: ExportFinding) => ExportKey(f) !in base);
    forall f: DuplicateExport | f in i.duplicateExports
      ensures DuplicateExportKey(f) !in base
    {
      FilterMember(r.duplicateExports, (f: DuplicateExport) => DuplicateExportKey(f) !in base, f);
    }
    FilterAll(i.duplicateExports, (f: DuplicateExport) => DuplicateExportKey(f) !in base);
    forall k | 0 <= k < |r.others|
      ensures Filter(i.others[k], (f: KeyedFinding) => f.key !in base) == i.others[k]
    {
      forall f: KeyedFinding | f in i.others[k]
        ensures f.key !in base
      {
        FilterMember(r.others[k], (f: KeyedFinding) => f.key !in base, f);
      }
      FilterAll(i.others[k], (f: KeyedFinding) => f.key !in base);
    }
    assert Introduced(i, base).others == i.others;
    hide Filter;
    hide DuplicateExportKey;
  }

  // ----- Flags in the JSON report

  datatype Json = Object(fields: map<string, bool>) | NotAnObject

  /** zip: the shorter of the two sequences decides. */
  method AnnotateIssueArray(items: array<Json>, introduced: seq<bool>)
    modifies items
    ensures forall i :: 0 <= i < items.Length && i < |introduced| && old(items[i]).Object? ==>
              items[i] == Object(old(items[i]).fields["introduced" := introduced[i]])
    ensures forall i :: 0 <= i < items.Length && (i >= |introduced| || old(items[i]).NotAnObject?) ==> items[i] == old(items[i])
  {
    var i := 0;
    while i < items.Length && i < |introduced|
      invariant 0 <= i <= items.Length && i <= |introduced|
      invariant forall k :: 0 <= k < i && old(items[k]).Object? ==>
                  items[k] == Object(old(items[k]).fields["introduced" := introduced[k]])
      invariant forall k :: 0 <= k < items.Length && (k >= i || old(items[k]).NotAnObject?) ==> items[k] == old(items[k])
    {
      if items[i].Object? {
        items[i] := Object(items[i].fields["introduced" := introduced[i]]);
      }
      i := i + 1;
    }
  }

  /** The annotator puts the key of a duplicate export together on its own. */
  method FormatDuplicateExport(f: DuplicateExport) returns (key: string)
    ensures key == DuplicateExportKey(f)
  {
    hide SortStrings;
    hide Join;
    var locations := SortStrings(f.locations);
    var unique: seq<string> := [];
    for i := 0 to |locations|
      invariant unique == Dedup(locations[..i])
      invariant i > 0 ==> unique != [] && unique[|unique| - 1] == locations[i - 1]
    {
      assert locations[..i + 1][..i] == locations[..i];
      if unique == [] || unique[|unique| - 1] != locations[i] {
        unique := unique + [locations[i]];
      }
    }
    assert locations[..|locations|] == locations;
    key := "duplicate-export:" + f.name + ":" + Join(unique, "|");
  }

  predicate IssueWasIntroduced(key: string, base: set<string>) {
    key !in base
  }

  /** The flags of the items, once they are annotated. */
  ghost predicate Flagged(items: seq<Json>, flags: seq<bool>) {
    && |items| == |flags|
    && forall i :: 0 <= i < |items| ==>
         items[i].Object? && "introduced" in items[i].fields && items[i].fields["introduced"] == flags[i]
  }

  ghost predicate AllObjects(items: seq<Json>) {
    forall i :: 0 <= i < |items| ==> items[i].Object?
  }

  function FileFlags(findings: seq<FileFinding>, base: set<string>): seq<bool> {
    seq(|findings|, i requires 0 <= i < |findings| => IssueWasIntroduced(FileKey(findings[i]), base))
  }

  function ExportFlags(findings: seq<ExportFinding>, base: set<string>): seq<bool> {
    seq(|findings|, i requires 0 <= i < |findings| => IssueWasIntroduced(ExportKey(findings[i]), base))
  }

  function OtherFlags(findings: seq<KeyedFinding>, base: set<string>): seq<bool> {
    seq(|findings|, i requires 0 <= i < |findings| => IssueWasIntroduced(findings[i].key, base))
  }

  method DuplicateFlags(findings: seq<DuplicateExport>, base: set<string>) returns (flags: seq<bool>)
    ensures |flags| == |findings|
    ensures forall i :: 0 <= i < |findings| ==> flags[i] == (DuplicateExportKey(findings[i]) !in base)
  {
    hide DuplicateExportKey;
    flags := [];
    for i := 0 to |findings|
      invariant |flags| == i
      invariant forall k :: 0 <= k < i ==> flags[k] == (DuplicateExportKey(findings[k]) !in base)
    {
      var key := FormatDuplicateExport(findings[i]);
      flags := flags + [IssueWasIntroduced(key, base)];
    }
  }

  method AnnotateAll(items: array<Json>, flags: seq<bool>)
    requires items.Length == |flags| && AllObjects(items[..])
    modifies items
    ensures Flagged(items[..], flags)
  {
    AnnotateIssueArray(items, flags);
  }

  ghost predicate Distinct(arrays: seq<array<Json>>) {
    forall i, j :: 0 <= i < j < |arrays| ==> arrays[i] != arrays[j]
  }

  ghost predicate ShowsEach(arrays: seq<array<Json>>, collections: seq<seq<KeyedFinding>>)
    reads arrays
  {
    && |arrays| == |collections|
    && forall c :: 0 <= c < |arrays| ==> arrays[c].Length == |collections[c]| && AllObjects(arrays[c][..])
  }

  method AnnotateEach(arrays: seq<array<Json>>, collections: seq<seq<KeyedFinding>>, base: set<string>)
    requires Distinct(arrays) && ShowsEach(arrays, collections)
    modifies arrays
    ensures forall c :: 0 <= c < |arrays| ==> Flagged(arrays[c][..], OtherFlags(collections[c], base))
  {
    hide Flagged;
    hide AllObjects;
    hide OtherFlags;
    for c := 0 to |arrays|
      invariant forall d :: c <= d < |arrays| ==> AllObjects(arrays[d][..])
      invariant forall d :: 0 <= d < c ==> Flagged(arrays[d][..], OtherFlags(collections[d], base))
    {
      LengthOfFlags(collections[c], base);
      AnnotateAll(arrays[c], OtherFlags(collections[c], base));
    }
  }

  lemma LengthOfFlags(findings: seq<KeyedFinding>, base: set<string>)
    ensures |OtherFlags(findings, base)| == |findings|
  {
  }

  /** Which findings are still among the kept ones. */
  function KeptFlags<T(==)>(findings: seq<T>, kept: seq<T>): seq<bool> {
    seq(|findings|, i requires 0 <= i < |findings| => findings[i] in kept)
  }

  /** The arrays of the JSON report, one object per finding. */
  class Report {
    const unusedFiles: array<Json>
    const unusedExports: array<Json>
    const duplicateExports: array<Json>
    const others: seq<array<Json>>

    constructor (unusedFiles: array<Json>, unusedExports: array<Json>, duplicateExports: array<Json>, others: seq<array<Json>>)
      ensures this.unusedFiles == unusedFiles && this.unusedExports == unusedExports
      ensures this.duplicateExports == duplicateExports && this.others == others
    {
      this.unusedFiles, this.unusedExports := unusedFiles, unusedExports;
      this.duplicateExports, this.others := duplicateExports, others;
    }

    /** The report shows these findings, in arrays of their own. */
    ghost predicate Shows(r: Results)
      reads unusedFiles, unusedExports, duplicateExports, others
    {
      && unusedFiles != unusedExports && unusedFiles != duplicateExports && unusedExports != duplicateExports
      && unusedFiles !in others && unusedExports !in others && duplicateExports !in others && Distinct(others)
      && unusedFiles.Length == |r.unusedFiles| && AllObjects(unusedFiles[..])
      && unusedExports.Length == |r.unusedExports| && AllObjects(unusedExports[..])
      && duplicateExports.Length == |r.duplicateExports| && AllObjects(duplicateExports[..])
      && ShowsEach(others, r.others)
    }

    /** Every finding is flagged with whether `kept` still has it. */
    ghost predicate FlagsSay(r: Results, kept: Results)
      reads unusedFiles, unusedExports, duplicateExports, others
    {
      && Flagged(unusedFiles[..], KeptFlags(r.unusedFiles, kept.unusedFiles))
      && Flagged(unusedExports[..], KeptFlags(r.unusedExports, kept.unusedExports))
      && Flagged(duplicateExports[..], KeptFlags(r.duplicateExports, kept.duplicateExports))
      && |others| == |r.others| == |kept.others|
      && forall c :: 0 <= c < |others| ==> Flagged(others[c][..], KeptFlags(r.others[c], kept.others[c]))
    }

    /** annotate_dead_code_json: the flag of every reported finding is true exactly
        when retaining what was introduced keeps the finding. */
    method Annotate(r: Results, base: set<string>)
      requires Shows(r)
      modifies unusedFiles, unusedExports, duplicateExports, others
      ensures FlagsSay(r, Introduced(r, base))
    {
      hide Flagged;
      hide Introduced;
      hide AllObjects;
      var duplicates := DuplicateFlags(r.duplicateExports, base);
      FlagsAgree(r, base, duplicates);
      AnnotateAll(unusedFiles, FileFlags(r.unusedFiles, base));
      AnnotateAll(unusedExports, ExportFlags(r.unusedExports, base));
      AnnotateAll(duplicateExports, duplicates);
      AnnotateEach(others, r.others, base);
    }
  }

  /** An element is kept exactly when its key is not in the base. */
  lemma FlagsAgree(r: Results, base: set<string>, duplicates: seq<bool>)
    requires |duplicates| == |r.duplicateExports|
    requires forall i :: 0 <= i < |r.duplicateExports| ==>
               duplicates[i] == (DuplicateExportKey(r.duplicateExports[i]) !in base)
    ensures FileFlags(r.unusedFiles, base) == KeptFlags(r.unusedFiles, Introduced(r, base).unusedFiles)
    ensures ExportFlags(r.unusedExports, base) == KeptFlags(r.unusedExports, Introduced(r, base).unusedExports)
    ensures duplicates == KeptFlags(r.duplicateExports, Introduced(r, base).duplicateExports)
    ensures |Introduced(r, base).others| == |r.others|
    ensures forall c :: 0 <= c < |r.others| ==>
              OtherFlags(r.others[c], base) == KeptFlags(r.others[c], Introduced(r, base).others[c])
  {
    hide DuplicateExportKey;
    hide FileKey;
    hide ExportKey;
    forall f: FileFinding
      ensures f in Introduced(r, base).unusedFiles <==> f in r.unusedFiles && FileKey(f) !in base
    {
      FilterMember(r.unusedFiles, (f: FileFinding) => FileKey(f) !in base, f);
    }
    forall f: ExportFinding
      ensures f in Introduced(r, base).unusedExports <==> f in r.unusedExports && ExportKey(f) !in base
    {
      FilterMember(r.unusedExports, (f: ExportFinding) => ExportKey(f) !in base, f);
    }
    forall f: DuplicateExport
      ensures f in Introduced(r, base).duplicateExports <==> f in r.duplicateExports && DuplicateExportKey(f) !in base
    {
      FilterMember(r.duplicateExports, (f: DuplicateExport) => DuplicateExportKey(f) !in base, f);
    }
    forall c | 0 <= c < |r.others|
      ensures OtherFlags(r.others[c], base) == KeptFlags(r.others[c], Introduced(r, base).others[c])
    {
      OtherFlagsAgree(r.others[c], base);
    }
    hide Filter;
  }

  lemma OtherFlagsAgree(findings: seq<KeyedFinding>, base: set<string>)
    ensures OtherFlags(findings, base) == KeptFlags(findings, Filter(findings, (f: KeyedFinding) => f.key !in base))
  {
    forall f: KeyedFinding
      ensures f in Filter(findings, (f: KeyedFinding) => f.key !in base) <==> f in findings && f.key !in base
    {
      FilterMember(findings, (f: KeyedFinding) => f.key !in base, f);
    }
  }

  /** The report is annotated from all findings, the verdict looks at a copy that is
      narrowed in place: every flag says whether its finding is left in the copy. */
  method AnnotateAndRetain(report: Report, r: Results, base: set<string>) returns (copy: AnalysisResults)
    requires report.Shows(r)
    modifies report.unusedFiles, report.unusedExports, report.duplicateExports, report.others
    ensures fresh(copy) && report.FlagsSay(r, copy.Value())
  {
    hide Introduced;
    hide Report.FlagsSay;
    copy := new AnalysisResults(r);
    copy.RetainIntroduced(Some(base));
    report.Annotate(r, base);
  }

  // ----- Counting

  /** One more key counted. */
  lemma CountStep(seen: set<string>, key: string, base: set<string>)
    requires key !in seen
    ensures |(seen + {key}) - base| == |seen - base| + (if key in base then 0 else 1)
    ensures |(seen + {key}) * base| == |seen * base| + (if key in base then 1 else 0)
  {
    if key in base {
      assert (seen + {key}) * base == seen * base + {key} && (seen + {key}) - base == seen - base;
    } else {
      assert (seen + {key}) - base == (seen - base) + {key} && (seen + {key}) * base == seen * base;
    }
  }

  method CountIntroduced(keys: set<string>, base: Option<set<string>>) returns (introduced: nat, inherited: nat)
    ensures base.None? ==> introduced == 0 && inherited == 0
    ensures base.Some? ==> introduced == |keys - base.value| && inherited == |keys * base.value|
    ensures base.Some? ==> introduced + inherited == |keys|
  {
    introduced, inherited := 0, 0;
    if base.None? {
      return;
    }
    var todo := keys;
    ghost var seen: set<string> := {};
    while todo != {}
      invariant seen !! todo && seen + todo == keys
      invariant introduced == |seen - base.value| && inherited == |seen * base.value|
      invariant introduced + inherited == |seen|
      decreases todo
    {
      var key :| key in todo;
      CountStep(seen, key, base.value);
      if key in base.value {
        inherited := inherited + 1;
      } else {
        introduced := introduced + 1;
      }
      todo := todo - {key};
      seen := seen + {key};
    }
    assert seen == keys;
  }

  /** The introduced count is the number of keys that retain leaves. */
  lemma IntroducedCountIsRetained(r: Results, base: set<string>, keys: set<string>, retained: set<string>)
    requires forall key :: key in keys <==> HasKey(r, key)
    requires forall key :: key in retained <==> HasKey(Introduced(r, base), key)
    ensures keys - base == retained
  {
    forall key
      ensures key in keys - base <==> key in retained
    {
      IntroducedKeys(r, base, key);
    }
  }
}
