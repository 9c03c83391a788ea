/** Reading base versions of files through one `git cat-file --batch` child
    (crates/cli/src/audit.rs).

    Bytes are written as characters. The child answers each request line with
    either a `missing` line or a header, the object's bytes and one line break. */
module BatchReader {
  import opened Wrappers
  import opened Text
  import Decimals

  const USIZE_MAX: nat := 0xFFFF_FFFF_FFFF_FFFF

  datatype Object = Missing | Blob(oid: string, kind: string, content: string)

  /** Object names and types are words; a size fits the machine. */
  predicate ObjectOk(o: Object) {
    o.Blob? ==> '\n' !in o.oid && '\n' !in o.kind && |o.content| <= USIZE_MAX
  }

  function Response(spec: string, o: Object): string {
    match o
    case Missing => spec + " missing\n"
    case Blob(oid, kind, content) => oid + " " + kind + " " + Decimals.Print(|content|) + "\n" + content + "\n"
  }

  function ContentOf(o: Object): Option<string> {
    if o.Blob? then Some(o.content) else None
  }

  predicate EndsWith(s: string, suffix: string) {
    |suffix| <= |s| && s[|s| - |suffix|..] == suffix
  }

  /** The part behind the last space. */
  function LastWord(s: string): string {
    if s == [] || s[|s| - 1] == ' ' then [] else LastWord(s[..|s| - 1]) + [s[|s| - 1]]
  }

  /** What the reader makes of a header line. */
  datatype Header = NoHeader | MissingHeader | SizeHeader(size: nat) | BadHeader

  function ParseHeader(line: string): Header {
    if line == [] then NoHeader
    else
      var trimmed := TrimEnd(line, IsSpace);
      if EndsWith(trimmed, " missing") then MissingHeader
      else
        match Decimals.Parse(LastWord(trimmed), USIZE_MAX)
        case None => BadHeader
        case Some(size) => SizeHeader(size)
  }

  // ----- Framing

  lemma {:induction false} LastWordAfterSpace(front: string, word: string)
    requires ' ' !in word
    ensures LastWord(front + " " + word) == word
    decreases |word|
  {
    var s := front + " " + word;
    if word != [] {
      var n := |word| - 1;
      LastWordAfterSpace(front, word[..n]);
      assert s[..|s| - 1] == front + " " + word[..n];
    }
  }

  lemma DigitsAreNoSpaces(n: nat)
    ensures Decimals.Print(n) != [] && ' ' !in Decimals.Print(n)
    ensures var d := Decimals.Print(n); !IsSpace(d[|d| - 1]) && '\n' !in d && d[|d| - 1] != 'g'
  {
    Decimals.PrintIsNumeral(n);
    var d := Decimals.Print(n);
    assert forall k :: 0 <= k < |d| ==> Decimals.IsDigit(d[k]);
  }

  lemma TrimEndOne(s: string, c: char)
    requires s != [] && !IsSpace(s[|s| - 1]) && IsSpace(c)
    ensures TrimEnd(s + [c], IsSpace) == s
  {
    assert (s + [c])[..|s|] == s;
  }

  lemma EndsWithLast(s: string, suffix: string)
    requires suffix != []
    ensures EndsWith(s, suffix) ==> s[|s| - 1] == suffix[|suffix| - 1]
  {
    if EndsWith(s, suffix) {
      assert s[|s| - |suffix|..][|suffix| - 1] == s[|s| - 1];
    }
  }

  /** The header of an object is never taken for a missing line, and gives its size. */
  lemma BlobHeader(oid: string, kind: string, size: nat)
    requires size <= USIZE_MAX
    ensures ParseHeader(oid + " " + kind + " " + Decimals.Print(size) + "\n") == SizeHeader(size)
  {
    var digits := Decimals.Print(size);
    var front := oid + " " + kind;
    var s := front + " " + digits;
    DigitsAreNoSpaces(size);
    assert s[|s| - 1] == digits[|digits| - 1];
    TrimEndOne(s, '\n');
    LastWordAfterSpace(front, digits);
    Decimals.ParsePrint(size, USIZE_MAX);
    assert " missing"[7] == 'g';
    EndsWithLast(s, " missing");
  }

  lemma MissingLine(spec: string)
    ensures ParseHeader(spec + " missing\n") == MissingHeader
  {
    var s := spec + " missing";
    assert s[|s| - 1] == " missing"[7] == 'g';
    TrimEndOne(s, '\n');
    assert spec + " missing\n" == s + ['\n'];
    assert s[|s| - 8..] == " missing";
  }

  // ----- The reader

  /** The child's answers are appended to `stdout` as requests are written; the
      reader has consumed `cursor` bytes of them. */
  class BaseFileReader {
    var stdout: string
    var cursor: nat
    const repository: string -> Object

    /** No byte of an answer is left unread: the next answer starts here. */
    ghost predicate InSync()
      reads this
    {
      cursor == |stdout|
    }

    constructor (repository: string -> Object)
      ensures InSync() && this.repository == repository
    {
      this.repository := repository;
      stdout, cursor := "", 0;
    }

    /** One request line; the child writes its answer. */
    method WriteRequest(spec: string)
      requires '\n' !in spec && cursor <= |stdout|
      modifies this
      ensures cursor == old(cursor)
      ensures stdout == old(stdout) + Response(spec, repository(spec))
    {
      stdout := stdout + Response(spec, repository(spec));
    }

    /** Up to and including the next line break. */
    method ReadLine() returns (line: string)
      requires cursor <= |stdout|
      modifies this`cursor
      ensures old(cursor) <= cursor <= |stdout| && line == stdout[old(cursor)..cursor]
      ensures forall k :: old(cursor) <= k < cursor - 1 ==> stdout[k] != '\n'
      ensures old(cursor) < |stdout| ==> line != [] && (line[|line| - 1] == '\n' || cursor == |stdout|)
    {
      var end := cursor;
      while end < |stdout| && stdout[end] != '\n'
        invariant cursor <= end <= |stdout|
        invariant forall k :: cursor <= k < end ==> stdout[k] != '\n'
      {
        end := end + 1;
      }
      if end < |stdout| {
        end := end + 1;
      }
      line := stdout[cursor..end];
      cursor := end;
    }

    method ReadExact(n: nat) returns (bytes: Option<string>)
      requires cursor <= |stdout|
      modifies this`cursor
      ensures old(cursor) + n <= |stdout| ==>
                bytes == Some(stdout[old(cursor)..old(cursor) + n]) && cursor == old(cursor) + n
      ensures old(cursor) + n > |stdout| ==> bytes == None && cursor == |stdout|
    {
      if cursor + n <= |stdout| {
        bytes := Some(stdout[cursor..cursor + n]);
        cursor := cursor + n;
      } else {
        bytes := None;
        cursor := |stdout|;
      }
    }

    /** The base version of one file. A request and its answer leave the reader in
        sync, whatever bytes the content has. */
    method Read(baseRef: string, path: string) returns (content: Option<string>)
      requires InSync() && '\n' !in baseRef && forall spec :: ObjectOk(repository(spec))
      modifies this
      ensures InSync()
      ensures content == BaseContent(repository, baseRef, path)
    {
      var relative := ForwardSlashes(path);
      if '\n' in relative {
        return None;
      }
      var spec := baseRef + ":" + relative;
      ghost var o := repository(spec);
      ghost var start := cursor;
      WriteRequest(spec);
      ghost var response := Response(spec, o);
      assert stdout[start..] == response;
      var header := ReadLine();
      HeaderOfResponse(spec, o, stdout, start, cursor);
      match ParseHeader(header)
      case NoHeader | BadHeader =>
        return None;
      case MissingHeader =>
        return None;
      case SizeHeader(size) =>
        assert stdout[cursor..] == o.content + "\n";
        assert stdout[cursor..cursor + size] == stdout[cursor..][..size] == o.content;
        content := ReadExact(size);
        assert content == Some(o.content);
        var newline := ReadExact(1);
    }
  }

  function ForwardSlashes(path: string): (r: string)
    ensures |r| == |path|
    ensures '\n' in r <==> '\n' in path
  {
    var r := seq(|path|, k requires 0 <= k < |path| => if path[k] == '\\' then '/' else path[k]);
    assert forall k :: 0 <= k < |path| ==> (r[k] == '\n' <==> path[k] == '\n');
    r
  }

  /** What the object store holds for a path at the base. */
  function BaseContent(repository: string -> Object, baseRef: string, path: string): Option<string> {
    if '\n' in ForwardSlashes(path) then None
    else ContentOf(repository(baseRef + ":" + ForwardSlashes(path)))
  }

  /** The line read first is exactly the header, so what is left is the content
      and its line break, or nothing. */
  lemma HeaderOfResponse(spec: string, o: Object, stdout: string, start: nat, end: nat)
    requires '\n' !in spec && ObjectOk(o)
    requires start <= end <= |stdout| && stdout[start..] == Response(spec, o)
    requires forall k :: start <= k < end - 1 ==> stdout[k] != '\n'
    requires start < end && (stdout[end - 1] == '\n' || end == |stdout|)
    ensures match o
            case Missing => ParseHeader(stdout[start..end]) == MissingHeader && end == |stdout|
            case Blob(_, _, content) =>
              ParseHeader(stdout[start..end]) == SizeHeader(|content|) && stdout[end..] == content + "\n"
  {
    match o
    case Missing =>
      MissingLine(spec);
      var line := spec + " missing";
      assert forall k :: 0 <= k < |line| ==> line[k] == if k < |spec| then spec[k] else " missing"[k - |spec|];
      assert spec + " missing\n" == line + "\n" && line + "\n" + "" == line + "\n";
      FirstLine(line, "", stdout, start, end);
      assert stdout[start..end] == spec + " missing\n" && |stdout[end..]| == 0;
    case Blob(oid, kind, content) =>
      var digits := Decimals.Print(|content|);
      DigitsAreNoSpaces(|content|);
      BlobHeader(oid, kind, |content|);
      var line := oid + " " + kind + " " + digits;
      assert Response(spec, o) == line + "\n" + (content + "\n");
      FirstLine(line, content + "\n", stdout, start, end);
  }

  lemma FirstLine(line: string, rest: string, stdout: string, start: nat, end: nat)
    requires '\n' !in line
    requires start < end <= |stdout| && stdout[start..] == line + "\n" + rest
    requires forall k :: start <= k < end - 1 ==> stdout[k] != '\n'
    requires stdout[end - 1] == '\n' || end == |stdout|
    ensures stdout[start..end] == line + "\n" && stdout[end..] == rest
  {
    var s := stdout[start..];
    var n := |line|;
    assert s[n] == '\n' == stdout[start + n];
    assert forall k :: 0 <= k < n ==> s[k] == line[k];
    assert stdout[end - 1] == s[end - 1 - start];
    assert end == start + n + 1;
    assert stdout[start..end] == s[..n + 1] && stdout[end..] == s[n + 1..];
  }

  /** Any number of reads in a row: the k-th gives the k-th file's base version. */
  method ReadAll(reader: BaseFileReader, baseRef: string, paths: seq<string>) returns (contents: seq<Option<string>>)
    requires reader.InSync() && '\n' !in baseRef && forall spec :: ObjectOk(reader.repository(spec))
    modifies reader
    ensures reader.InSync() && |contents| == |paths|
    ensures forall k :: 0 <= k < |paths| ==> contents[k] == BaseContent(reader.repository, baseRef, paths[k])
  {
    contents := [];
    for i := 0 to |paths|
      invariant reader.InSync() && |contents| == i
      invariant forall k :: 0 <= k < i ==> contents[k] == BaseContent(reader.repository, baseRef, paths[k])
    {
      var content := reader.Read(baseRef, paths[i]);
      contents := contents + [content];
    }
  }

  // ----- Reusing the current keys as the base

  /** How the program classifies a changed file, and what it finds on disk. */
  datatype ChangedFile = ChangedFile(cacheArtifact: bool, analysisInput: bool, doc: bool,
                                     current: Option<string>, relative: Option<string>)

  /** A change that cannot alter the analysis, given that files with equivalent
      tokens are analysed alike. */
  predicate Harmless(repository: string -> Object, baseRef: string, f: ChangedFile, equivalent: (string, string) -> bool) {
    || f.cacheArtifact
    || (!f.analysisInput && f.doc)
    || (&& f.analysisInput && f.current.Some? && f.relative.Some?
        && BaseContent(repository, baseRef, f.relative.value).Some?
        && var base := BaseContent(repository, baseRef, f.relative.value).value;
           f.current.value == base || equivalent(f.current.value, base))
  }

  method CanReuseCurrentAsBase(repository: string -> Object, baseRef: string, files: seq<ChangedFile>,
                               equivalent: (string, string) -> bool) returns (reuse: bool)
    requires '\n' !in baseRef && forall spec :: ObjectOk(repository(spec))
    ensures reuse <==> forall k :: 0 <= k < |files| ==> Harmless(repository, baseRef, files[k], equivalent)
  {
    var reader: BaseFileReader? := null;
    for i := 0 to |files|
      invariant reader != null ==> fresh(reader) && reader.InSync() && reader.repository == repository
      invariant forall k :: 0 <= k < i ==> Harmless(repository, baseRef, files[k], equivalent)
    {
      var f := files[i];
      if f.cacheArtifact {
        continue;
      }
      if !f.analysisInput {
        if f.doc {
          continue;
        }
        return false;
      }
      if f.current.None? || f.relative.None? {
        return false;
      }
      if reader == null {
        reader := new BaseFileReader(repository);
      }
      var base := reader.Read(baseRef, f.relative.value);
      if base.None? {
        return false;
      }
      if f.current.value == base.value {
        continue;
      }
      if !equivalent(f.current.value, base.value) {
        return false;
      }
    }
    return true;
  }
}
