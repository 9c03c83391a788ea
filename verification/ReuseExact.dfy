/** Why the current keys may stand in for the base (crates/cli/src/audit.rs,
    can_reuse_current_as_base): skipping the base pass is sound, and it is refused
    only where an analysis could tell the two trees apart. */
module ReuseExact {
  import opened Wrappers
  import opened Text
  import opened BatchReader
  import opened AuditGate

  /** The files of a tree by their paths relative to the repository. */
  type Tree = map<string, string>

  function At(t: Tree, path: string): Option<string> {
    if path in t then Some(t[path]) else None
  }

  function With(t: Tree, path: string, content: string): Tree {
    t[path := content]
  }

  function Minus(t: Tree, path: string): Tree {
    t - {path}
  }

  /** The program's three tests of a path. */
  datatype Classes = Classes(artifact: string -> bool, input: string -> bool, doc: string -> bool)

  /** What the program finds out about a changed path. */
  function Found(classes: Classes, now: Tree, path: string): ChangedFile {
    ChangedFile(classes.artifact(path), classes.input(path), classes.doc(path), At(now, path), Some(path))
  }

  /** `repository` holds the base tree; its paths have forward slashes and no line break. */
  ghost predicate HoldsBase(repository: string -> Object, baseRef: string, base: Tree) {
    forall path ::
      match repository(baseRef + ":" + path)
      case Missing => path !in base
      case Blob(_, _, content) => path in base && base[path] == content
  }

  predicate PlainPath(path: string) {
    '\\' !in path && '\n' !in path
  }

  lemma PlainPathIsRequested(repository: string -> Object, baseRef: string, base: Tree, path: string)
    requires HoldsBase(repository, baseRef, base) && PlainPath(path)
    ensures BaseContent(repository, baseRef, path) == At(base, path)
  {
    assert ForwardSlashes(path) == path;
  }

  /** An analysis of whole trees that looks neither at cache artifacts nor at documents,
      and cannot tell inputs with equivalent tokens apart. */
  ghost predicate Respects<T>(analysis: Tree -> T, classes: Classes, equivalent: (string, string) -> bool) {
    && (forall t: Tree, path, c ::
          classes.artifact(path) || (!classes.input(path) && classes.doc(path))
          ==> analysis(With(t, path, c)) == analysis(Minus(t, path)))
    && (forall t: Tree, path, c, d ::
          classes.input(path) && equivalent(c, d) ==> analysis(With(t, path, c)) == analysis(With(t, path, d)))
  }

  /** The base's version of one path. */
  function Revert(t: Tree, base: Tree, path: string): Tree {
    if path in base then With(t, path, base[path]) else Minus(t, path)
  }

  function RevertAll(t: Tree, base: Tree, paths: seq<string>): Tree {
    if paths == [] then t else Revert(RevertAll(t, base, paths[..|paths| - 1]), base, paths[|paths| - 1])
  }

  lemma {:induction false} RevertedIsBase(t: Tree, base: Tree, paths: seq<string>, path: string)
    ensures At(RevertAll(t, base, paths), path) == if path in paths then At(base, path) else At(t, path)
    decreases |paths|
  {
    if paths != [] {
      var n := |paths| - 1;
      RevertedIsBase(t, base, paths[..n], path);
      assert paths == paths[..n] + [paths[n]];
    }
  }

  lemma SameTree(t: Tree, u: Tree)
    requires forall path :: At(t, path) == At(u, path)
    ensures t == u
  {
    forall path
      ensures path in t <==> path in u
      ensures path in t ==> t[path] == u[path]
    {
      assert At(t, path) == At(u, path);
    }
  }

  lemma OneRevert<T>(analysis: Tree -> T, classes: Classes, equivalent: (string, string) -> bool,
                     repository: string -> Object, baseRef: string, now: Tree, base: Tree, t: Tree, path: string)
    requires Respects(analysis, classes, equivalent)
    requires HoldsBase(repository, baseRef, base) && PlainPath(path)
    requires Harmless(repository, baseRef, Found(classes, now, path), equivalent)
    requires At(t, path) == At(now, path) || At(t, path) == At(base, path)
    ensures analysis(Revert(t, base, path)) == analysis(t)
  {
    PlainPathIsRequested(repository, baseRef, base, path);
    if path in t {
      assert t == With(t, path, t[path]);
    } else {
      assert t == Minus(t, path);
    }
    hide BaseContent;
  }

  lemma {:induction false} Reverts<T>(analysis: Tree -> T, classes: Classes, equivalent: (string, string) -> bool,
                                      repository: string -> Object, baseRef: string, now: Tree, base: Tree, paths: seq<string>)
    requires Respects(analysis, classes, equivalent) && HoldsBase(repository, baseRef, base)
    requires forall path :: path in paths ==>
               PlainPath(path) && Harmless(repository, baseRef, Found(classes, now, path), equivalent)
    ensures analysis(RevertAll(now, base, paths)) == analysis(now)
    decreases |paths|
  {
    hide Respects;
    hide HoldsBase;
    hide Harmless;
    if paths != [] {
      var n := |paths| - 1;
      assert paths == paths[..n] + [paths[n]];
      Reverts(analysis, classes, equivalent, repository, baseRef, now, base, paths[..n]);
      RevertedIsBase(now, base, paths[..n], paths[n]);
      OneRevert(analysis, classes, equivalent, repository, baseRef, now, base, RevertAll(now, base, paths[..n]), paths[n]);
    }
  }

  /** If every changed file is harmless, no such analysis tells the working tree from
      the base tree: its keys on the working tree are the base's keys. */
  lemma ReuseIsSound<T>(analysis: Tree -> T, classes: Classes, equivalent: (string, string) -> bool,
                        repository: string -> Object, baseRef: string, now: Tree, base: Tree, paths: seq<string>)
    requires Respects(analysis, classes, equivalent) && HoldsBase(repository, baseRef, base)
    requires forall path :: path !in paths ==> At(now, path) == At(base, path)
    requires forall path :: path in paths ==>
               PlainPath(path) && Harmless(repository, baseRef, Found(classes, now, path), equivalent)
    ensures analysis(now) == analysis(base)
  {
    Reverts(analysis, classes, equivalent, repository, baseRef, now, base, paths);
    hide Respects;
    hide HoldsBase;
    hide Harmless;
    forall path
      ensures At(RevertAll(now, base, paths), path) == At(base, path)
    {
      RevertedIsBase(now, base, paths, path);
    }
    SameTree(RevertAll(now, base, paths), base);
  }

  ghost predicate IsEquivalence(equivalent: (string, string) -> bool) {
    && (forall a :: equivalent(a, a))
    && (forall a, b :: equivalent(a, b) ==> equivalent(b, a))
    && (forall a, b, c :: equivalent(a, b) && equivalent(b, c) ==> equivalent(a, c))
  }

  /** A file that is really changed and not harmless: there is such an analysis that
      tells the two trees apart, so the base pass cannot be skipped. */
  lemma RefusalIsNeeded(classes: Classes, equivalent: (string, string) -> bool,
                        repository: string -> Object, baseRef: string, now: Tree, base: Tree, path: string)
    returns (analysis: Tree -> bool)
    requires IsEquivalence(equivalent) && HoldsBase(repository, baseRef, base) && PlainPath(path)
    requires At(now, path) != At(base, path)
    requires !Harmless(repository, baseRef, Found(classes, now, path), equivalent)
    ensures Respects(analysis, classes, equivalent) && analysis(now) != analysis(base)
  {
    PlainPathIsRequested(repository, baseRef, base, path);
    hide BaseContent;
    var seen := At(now, path);
    if !classes.input(path) {
      analysis := (t: Tree) => At(t, path) == seen;
    } else if seen.None? || At(base, path).None? {
      analysis := (t: Tree) => path in t;
    } else {
      analysis := (t: Tree) => path in t && equivalent(t[path], seen.value);
    }
  }

  /** So where the base pass is skipped, the gate gives the verdict and the attribution
      against the base that it would have given by analysing the base tree. */
  lemma SkippedPassGivesTheTrueVerdict(analysis: Tree -> Run, classes: Classes, equivalent: (string, string) -> bool,
                                       repository: string -> Object, baseRef: string, now: Tree, base: Tree,
                                       paths: seq<string>, own: Snapshot, truth: Snapshot)
    requires Respects(analysis, classes, equivalent) && HoldsBase(repository, baseRef, base)
    requires forall path :: path !in paths ==> At(now, path) == At(base, path)
    requires forall path :: path in paths ==>
               PlainPath(path) && Harmless(repository, baseRef, Found(classes, now, path), equivalent)
    requires IsCurrentSnapshot(analysis(now), own) && IsCurrentSnapshot(analysis(base), truth)
    ensures own == truth
    ensures ResolveBaseSnapshot(true, None, None, own) == Some(Base(Some(truth), true))
    ensures AuditVerdict(true, analysis(now), Some(own)) == AuditVerdict(true, analysis(now), Some(truth))
  {
    ReuseIsSound(analysis, classes, equivalent, repository, baseRef, now, base, paths);
    hide AuditGate.ComputeIntroducedVerdict;
    assert own.deadCode == truth.deadCode && own.health == truth.health && own.dupes == truth.dupes;
  }

  // ----- Which object is asked for

  /** A path is asked for with forward slashes, however its parts were separated. */
  lemma {:induction false} PartsAreJoinedBySlashes(parts: seq<string>)
    requires forall part :: part in parts ==> '\\' !in part
    ensures ForwardSlashes(Join(parts, "\\")) == Join(parts, "/")
    ensures ForwardSlashes(Join(parts, "/")) == Join(parts, "/")
  {
    if parts != [] {
      var rest := parts[1..];
      assert parts[0] in parts && forall part :: part in rest ==> part in parts;
      PartsAreJoinedBySlashes(rest);
      SlashesAppend(parts[0], "\\" + Join(rest, "\\"));
      SlashesAppend(parts[0], "/" + Join(rest, "/"));
      SlashesAppend("\\", Join(rest, "\\"));
      SlashesAppend("/", Join(rest, "/"));
      assert ForwardSlashes("\\") == "/" && ForwardSlashes("/") == "/";
      assert ForwardSlashes(parts[0]) == parts[0];
      if |parts| > 1 {
        assert Join(parts, "\\") == parts[0] + ("\\" + Join(rest, "\\"));
        assert Join(parts, "/") == parts[0] + ("/" + Join(rest, "/"));
      }
    }
  }

  lemma SlashesAppend(a: string, b: string)
    ensures ForwardSlashes(a + b) == ForwardSlashes(a) + ForwardSlashes(b)
  {
  }
}
