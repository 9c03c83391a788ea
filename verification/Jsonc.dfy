/** Turning JSONC into JSON without moving anything
    (scripts/public-config-corpus.py).

    `StripComments` and `StripTrailingCommas` follow the two scanners on the text
    that is still to be read. `Lex` is an independent reader of JSON tokens. */
module Jsonc {
  import opened Wrappers
  import opened Text
  import opened Sequences

  // ----- The scanner state inside string literals

  /** `inString` and `escape` of the scanners. */
  datatype Mode = Outside | Inside(escape: bool)

  /** The state after one character. */
  function Next(m: Mode, c: char): Mode {
    match m
    case Outside => if c == '"' then Inside(false) else Outside
    case Inside(escape) => if escape then Inside(false) else if c == '\\' then Inside(true)
                           else if c == '"' then Outside else Inside(false)
  }

  function Newlines(s: string): nat {
    if s == [] then 0 else Newlines(s[..|s| - 1]) + (if s[|s| - 1] == '\n' then 1 else 0)
  }

  /** Replace everything but line breaks by spaces. */
  function Blank(s: string): (r: string)
    ensures |r| == |s|
    ensures forall k :: 0 <= k < |s| ==> r[k] == if s[k] == '\n' then '\n' else ' '
  {
    seq(|s|, k requires 0 <= k < |s| => if s[k] == '\n' then '\n' else ' ')
  }

  predicate StartsLineComment(s: string) {
    |s| >= 2 && s[0] == '/' && s[1] == '/'
  }

  predicate StartsBlockComment(s: string) {
    |s| >= 2 && s[0] == '/' && s[1] == '*'
  }

  /** Where a line comment ends: at the line break or the end of the text. */
  function LineEnd(s: string, from: nat): (j: nat)
    requires from <= |s|
    ensures from <= j <= |s| && (j < |s| ==> s[j] == '\n')
    ensures forall k :: from <= k < j ==> s[k] != '\n'
    decreases |s| - from
  {
    if from < |s| && s[from] != '\n' then LineEnd(s, from + 1) else from
  }

  predicate ClosesAt(s: string, j: nat) {
    j + 1 < |s| && s[j] == '*' && s[j + 1] == '/'
  }

  /** Where the scan of a block comment stops: at the closer, or just before the
      last character if there is none. */
  function BlockStop(s: string, from: nat): (j: nat)
    requires 2 <= from <= |s|
    ensures from <= j <= |s| && (ClosesAt(s, j) || j + 1 >= |s|)
    ensures forall k :: from <= k < j ==> !ClosesAt(s, k)
    decreases |s| - from
  {
    if from + 1 < |s| && !ClosesAt(s, from) then BlockStop(s, from + 1) else from
  }

  function BlockEnd(s: string): (j: nat)
    requires StartsBlockComment(s)
    ensures 2 <= j <= |s|
  {
    Min(BlockStop(s, 2) + 2, |s|)
  }

  /** What the comment stripper appends for the rest of the text. */
  function StripComments(s: string, m: Mode): string
    decreases |s|
  {
    if s == [] then []
    else if m == Outside && StartsLineComment(s) then
      Blank(s[..LineEnd(s, 2)]) + StripComments(s[LineEnd(s, 2)..], Outside)
    else if m == Outside && StartsBlockComment(s) then
      Blank(s[..BlockEnd(s)]) + StripComments(s[BlockEnd(s)..], Outside)
    else [s[0]] + StripComments(s[1..], Next(m, s[0]))
  }

  lemma StripEmpty(m: Mode)
    ensures StripComments([], m) == []
  {
  }

  lemma StripStep(s: string, m: Mode)
    requires s != []
    ensures m == Outside && StartsLineComment(s) ==>
              StripComments(s, m) == Blank(s[..LineEnd(s, 2)]) + StripComments(s[LineEnd(s, 2)..], Outside)
    ensures m == Outside && StartsBlockComment(s) ==>
              StripComments(s, m) == Blank(s[..BlockEnd(s)]) + StripComments(s[BlockEnd(s)..], Outside)
    ensures !(m == Outside && (StartsLineComment(s) || StartsBlockComment(s))) ==>
              StripComments(s, m) == [s[0]] + StripComments(s[1..], Next(m, s[0]))
  {
  }

  /** A recorded comment: the line it starts on and its text. */
  datatype Comment = Comment(line: nat, text: string)

  function LineCommentText(s: string): string
    requires StartsLineComment(s)
  {
    Trim(s[2..LineEnd(s, 2)], IsPythonSpace)
  }

  function BlockCommentText(s: string): string
    requires StartsBlockComment(s)
  {
    Join(Words(s[2..BlockStop(s, 2)], IsPythonSpace), " ")
  }

  /** The comments of content[i..], each on the line given by the line breaks
      before it in the whole text. */
  function Comments(content: string, i: nat, m: Mode): seq<Comment>
    requires i <= |content|
    decreases |content| - i
  {
    var s := content[i..];
    var line := 1 + Newlines(content[..i]);
    if s == [] then []
    else if m == Outside && StartsLineComment(s) then
      [Comment(line, LineCommentText(s))] + Comments(content, i + LineEnd(s, 2), Outside)
    else if m == Outside && StartsBlockComment(s) then
      [Comment(line, BlockCommentText(s))] + Comments(content, i + BlockEnd(s), Outside)
    else Comments(content, i + 1, Next(m, s[0]))
  }

  lemma {:induction false} NewlinesAppend(a: string, b: string)
    ensures Newlines(a + b) == Newlines(a) + Newlines(b)
    decreases |b|
  {
    if b == [] {
      assert a + b == a;
    } else {
      var n := |b| - 1;
      NewlinesAppend(a, b[..n]);
      assert (a + b)[..|a| + n] == a + b[..n];
    }
  }

  lemma NewlinesStep(content: string, i: nat, j: nat)
    requires i <= j <= |content|
    ensures Newlines(content[..j]) == Newlines(content[..i]) + Newlines(content[i..j])
  {
    NewlinesAppend(content[..i], content[i..j]);
    assert content[..j] == content[..i] + content[i..j];
  }

  lemma {:induction false} NoNewlines(s: string)
    requires forall k :: 0 <= k < |s| ==> s[k] != '\n'
    ensures Newlines(s) == 0
    decreases |s|
  {
    if s != [] {
      NoNewlines(s[..|s| - 1]);
    }
  }

  /** One character that starts no comment. */
  lemma CharacterStep(content: string, i: nat, m: Mode)
    requires i < |content|
    requires m == Outside ==> !StartsLineComment(content[i..]) && !StartsBlockComment(content[i..])
    ensures StripComments(content[i..], m) == [content[i]] + StripComments(content[i + 1..], Next(m, content[i]))
    ensures Comments(content, i, m) == Comments(content, i + 1, Next(m, content[i]))
    ensures Newlines(content[..i + 1]) == Newlines(content[..i]) + (if content[i] == '\n' then 1 else 0)
  {
    assert content[i..][1..] == content[i + 1..];
    assert content[..i + 1][..i] == content[..i];
  }

  lemma LineCommentStep(content: string, i: nat, j: nat)
    requires i <= |content| && StartsLineComment(content[i..]) && j == i + LineEnd(content[i..], 2)
    ensures StripComments(content[i..], Outside) == Blank(content[i..j]) + StripComments(content[j..], Outside)
    ensures Comments(content, i, Outside)
         == [Comment(1 + Newlines(content[..i]), Trim(content[i + 2..j], IsPythonSpace))] + Comments(content, j, Outside)
    ensures Newlines(content[..j]) == Newlines(content[..i])
    ensures Blank(content[i..j]) == seq(j - i, _ => ' ')
  {
    hide Trim;
    hide Words;
    hide Join;
    hide StripComments;
    hide LineEnd;
    var s := content[i..];
    StripStep(s, Outside);
    assert content[i + 2..j] == s[2..j - i] && content[j..] == s[j - i..] && content[i..j] == s[..j - i];
    NewlinesStep(content, i, j);
    NoNewlines(content[i..j]);
  }

  lemma BlockCommentStep(content: string, i: nat, stop: nat, j: nat)
    requires i <= |content| && StartsBlockComment(content[i..])
    requires stop == i + BlockStop(content[i..], 2) && j == Min(stop + 2, |content|)
    ensures StripComments(content[i..], Outside) == Blank(content[i..j]) + StripComments(content[j..], Outside)
    ensures Comments(content, i, Outside)
         == [Comment(1 + Newlines(content[..i]), Join(Words(content[i + 2..stop], IsPythonSpace), " "))]
            + Comments(content, j, Outside)
    ensures j < |content| ==> Newlines(content[..j]) == Newlines(content[..i]) + Newlines(content[i + 2..stop])
  {
    hide Trim;
    hide Words;
    hide Join;
    hide Newlines;
    hide StripComments;
    hide BlockStop;
    var s := content[i..];
    StripStep(s, Outside);
    var n := BlockEnd(s);
    assert j == i + n && stop - i == BlockStop(s, 2);
    SliceOfSlice(content, i, 0, n);
    SliceOfSlice(content, i, n, |s|);
    BlockNewlines(content, i, stop, j);
    BlockIsRecorded(content, i, stop, j);
    hide Comments;
    hide Blank;
  }

  lemma BlockIsRecorded(content: string, i: nat, stop: nat, j: nat)
    requires i <= |content| && StartsBlockComment(content[i..])
    requires stop == i + BlockStop(content[i..], 2) && j == Min(stop + 2, |content|)
    ensures Comments(content, i, Outside)
         == [Comment(1 + Newlines(content[..i]), Join(Words(content[i + 2..stop], IsPythonSpace), " "))]
            + Comments(content, j, Outside)
  {
    hide Words;
    hide Join;
    hide Newlines;
    hide BlockStop;
    assert content[i + 2..stop] == content[i..][2..stop - i];
  }

  lemma SliceOfSlice(content: string, i: nat, j: nat, k: nat)
    requires i <= |content| && j <= k <= |content| - i
    ensures content[i..][j..k] == content[i + j..i + k]
    ensures j == 0 ==> content[i..][..k] == content[i..i + k]
    ensures k == |content| - i ==> content[i..][j..] == content[i + j..]
  {
  }

  /** The scanner stands at content[i..] in mode `m`, and what it has appended so
      far leads to the right result. */
  ghost predicate OnTrack(content: string, i: nat, m: Mode, out: string, comments: seq<Comment>) {
    && i <= |content|
    && out + StripComments(content[i..], m) == StripComments(content, Outside)
    && comments + Comments(content, i, m) == Comments(content, 0, Outside)
  }

  lemma AtStart(content: string)
    ensures OnTrack(content, 0, Outside, [], []) && Newlines(content[..0]) == 0
  {
    assert content[0..] == content;
  }

  lemma AtEnd(content: string, m: Mode, out: string, comments: seq<Comment>)
    requires OnTrack(content, |content|, m, out, comments)
    ensures out == StripComments(content, Outside) && comments == Comments(content, 0, Outside)
  {
  }

  lemma KeepsCharacter(content: string, i: nat, m: Mode, out: string, comments: seq<Comment>)
    requires i < |content| && OnTrack(content, i, m, out, comments)
    requires m == Outside ==> !StartsLineComment(content[i..]) && !StartsBlockComment(content[i..])
    ensures OnTrack(content, i + 1, Next(m, content[i]), out + [content[i]], comments)
    ensures Newlines(content[..i + 1]) == Newlines(content[..i]) + (if content[i] == '\n' then 1 else 0)
  {
    hide StripComments;
    hide Comments;
    hide Newlines;
    CharacterStep(content, i, m);
    Regroup(out, [content[i]], StripComments(content[i + 1..], Next(m, content[i])));
  }

  lemma BlanksLineComment(content: string, i: nat, j: nat, out: string, comments: seq<Comment>)
    requires OnTrack(content, i, Outside, out, comments)
    requires StartsLineComment(content[i..]) && j == i + LineEnd(content[i..], 2)
    ensures OnTrack(content, j, Outside, out + seq(j - i, _ => ' '),
                    comments + [Comment(1 + Newlines(content[..i]), Trim(content[i + 2..j], IsPythonSpace))])
    ensures Newlines(content[..j]) == Newlines(content[..i])
  {
    hide StripComments;
    hide Comments;
    hide Newlines;
    hide Trim;
    hide LineEnd;
    hide Blank;
    LineCommentStep(content, i, j);
    Regroup(out, Blank(content[i..j]), StripComments(content[j..], Outside));
  }

  lemma BlanksBlockComment(content: string, i: nat, stop: nat, j: nat, out: string, comments: seq<Comment>)
    requires OnTrack(content, i, Outside, out, comments) && StartsBlockComment(content[i..])
    requires stop == i + BlockStop(content[i..], 2) && j == Min(stop + 2, |content|)
    ensures OnTrack(content, j, Outside, out + Blank(content[i..j]),
                    comments + [Comment(1 + Newlines(content[..i]), Join(Words(content[i + 2..stop], IsPythonSpace), " "))])
    ensures j < |content| ==> Newlines(content[..j]) == Newlines(content[..i]) + Newlines(content[i + 2..stop])
  {
    hide StripComments;
    hide Comments;
    hide Newlines;
    hide Words;
    hide Join;
    hide BlockStop;
    hide Blank;
    BlockCommentStep(content, i, stop, j);
    Regroup(out, Blank(content[i..j]), StripComments(content[j..], Outside));
  }

  method StripJsoncComments(content: string) returns (out: string, comments: seq<Comment>)
    ensures out == StripComments(content, Outside)
    ensures comments == Comments(content, 0, Outside)
  {
    hide OnTrack;
    hide StripComments;
    hide Comments;
    hide Newlines;
    hide Trim;
    hide Words;
    hide Join;
    hide Blank;
    hide LineEnd;
    hide BlockStop;
    out, comments := [], [];
    var i := 0;
    var line := 1;
    var inString, escape := false, false;
    AtStart(content);
    while i < |content|
      invariant i <= |content|
      invariant !inString ==> !escape
      invariant OnTrack(content, i, ModeOf(inString, escape), out, comments)
      invariant i < |content| ==> line == 1 + Newlines(content[..i])
    {
      var ch := content[i];
      if inString {
        KeepsCharacter(content, i, Inside(escape), out, comments);
        out := out + [ch];
        if ch == '\n' {
          line := line + 1;
        }
        if escape {
          escape := false;
        } else if ch == '\\' {
          escape := true;
        } else if ch == '"' {
          inString := false;
        }
        i := i + 1;
      } else if ch == '"' {
        KeepsCharacter(content, i, Outside, out, comments);
        inString := true;
        out := out + [ch];
        i := i + 1;
      } else if ch == '/' && i + 1 < |content| && content[i + 1] == '/' {
        var j := ScanLine(content, i);
        BlanksLineComment(content, i, j, out, comments);
        comments := comments + [Comment(line, Trim(content[i + 2..j], IsPythonSpace))];
        out := out + seq(j - i, _ => ' ');
        i := j;
      } else if ch == '/' && i + 1 < |content| && content[i + 1] == '*' {
        var stop, breaks := ScanBlock(content, i);
        var j := Min(stop + 2, |content|);
        BlanksBlockComment(content, i, stop, j, out, comments);
        comments := comments + [Comment(line, Join(Words(content[i + 2..stop], IsPythonSpace), " "))];
        out := out + Blank(content[i..j]);
        line := line + breaks;
        i := j;
      } else {
        KeepsCharacter(content, i, Outside, out, comments);
        out := out + [ch];
        if ch == '\n' {
          line := line + 1;
        }
        i := i + 1;
      }
    }
    AtEnd(content, ModeOf(inString, escape), out, comments);
  }

  function ModeOf(inString: bool, escape: bool): Mode {
    if inString then Inside(escape) else Outside
  }

  method ScanLine(content: string, i: nat) returns (j: nat)
    requires i + 2 <= |content|
    ensures j == i + LineEnd(content[i..], 2)
  {
    ghost var s := content[i..];
    j := i + 2;
    while j < |content| && content[j] != '\n'
      invariant i + 2 <= j <= |content|
      invariant LineEnd(s, 2) == LineEnd(s, j - i)
    {
      j := j + 1;
    }
  }

  /** Also counts the line breaks it passes. */
  method ScanBlock(content: string, i: nat) returns (stop: nat, breaks: nat)
    requires i + 2 <= |content|
    ensures stop == i + BlockStop(content[i..], 2)
    ensures breaks == Newlines(content[i + 2..stop])
  {
    ghost var s := content[i..];
    stop := i + 2;
    breaks := 0;
    while stop < |content| - 1 && !(content[stop] == '*' && content[stop + 1] == '/')
      invariant i + 2 <= stop <= |content|
      invariant BlockStop(s, 2) == BlockStop(s, stop - i)
      invariant breaks == Newlines(content[i + 2..stop])
    {
      if content[stop] == '\n' {
        breaks := breaks + 1;
      }
      assert content[i + 2..stop + 1][..stop - i - 2] == content[i + 2..stop];
      stop := stop + 1;
    }
  }

  lemma BlockNewlines(content: string, i: nat, stop: nat, j: nat)
    requires i + 2 <= stop <= |content| && j == Min(stop + 2, |content|)
    requires content[i] == '/' && content[i + 1] == '*'
    requires stop == i + BlockStop(content[i..], 2)
    ensures j < |content| ==> Newlines(content[..j]) == Newlines(content[..i]) + Newlines(content[i + 2..stop])
  {
    if j < |content| {
      assert ClosesAt(content[i..], stop - i);
      NewlinesStep(content, i, i + 2);
      NewlinesStep(content, i + 2, stop);
      NewlinesStep(content, stop, j);
      NoNewlines(content[i..i + 2]);
      NoNewlines(content[stop..j]);
    }
  }

  // ----- Position preservation and idempotence, for any text

  /** Nothing moves: same length, same line breaks, and a character either stays
      or becomes a space. */
  lemma {:induction false} CommentsKeepPositions(s: string, m: Mode)
    ensures var r := StripComments(s, m);
            && |r| == |s|
            && (forall k :: 0 <= k < |s| ==> (r[k] == '\n' <==> s[k] == '\n'))
            && (forall k :: 0 <= k < |s| ==> r[k] == s[k] || r[k] == ' ')
    decreases |s|
  {
    hide StripComments;
    hide LineEnd;
    hide BlockEnd;
    hide Next;
    if s == [] {
      StripEmpty(m);
      return;
    }
    StripStep(s, m);
    if m == Outside && StartsLineComment(s) {
      CommentsKeepPositions(s[LineEnd(s, 2)..], Outside);
    } else if m == Outside && StartsBlockComment(s) {
      CommentsKeepPositions(s[BlockEnd(s)..], Outside);
    } else {
      CommentsKeepPositions(s[1..], Next(m, s[0]));
    }
  }

  /** A stretch of spaces and line breaks passes through unchanged. */
  lemma {:induction false} BlankPassesThrough(blank: string, rest: string)
    requires forall k :: 0 <= k < |blank| ==> blank[k] == ' ' || blank[k] == '\n'
    ensures StripComments(blank + rest, Outside) == blank + StripComments(rest, Outside)
    decreases |blank|
  {
    hide StripComments;
    if blank == [] {
      assert blank + rest == rest;
    } else {
      assert (blank + rest)[0] == blank[0];
      StripStep(blank + rest, Outside);
      BlankPassesThrough(blank[1..], rest);
      assert (blank + rest)[1..] == blank[1..] + rest;
    }
  }

  lemma {:induction false} CommentStrippingIsIdempotent(s: string, m: Mode)
    ensures StripComments(StripComments(s, m), m) == StripComments(s, m)
    decreases |s|
  {
    if s == [] {
    } else if m == Outside && StartsLineComment(s) {
      var j := LineEnd(s, 2);
      CommentStrippingIsIdempotent(s[j..], Outside);
      BlankPassesThrough(Blank(s[..j]), StripComments(s[j..], Outside));
    } else if m == Outside && StartsBlockComment(s) {
      var j := BlockEnd(s);
      CommentStrippingIsIdempotent(s[j..], Outside);
      BlankPassesThrough(Blank(s[..j]), StripComments(s[j..], Outside));
    } else {
      var rest := s[1..];
      CommentStrippingIsIdempotent(rest, Next(m, s[0]));
      CommentsKeepPositions(rest, Next(m, s[0]));
      var out := StripComments(s, m);
      assert out[1..] == StripComments(rest, Next(m, s[0]));
      if m == Outside && s[0] == '/' && rest != [] {
        // No comment starts at the next character, so it is in the output as it is.
        assert out[1] == rest[0];
      }
    }
  }
}
