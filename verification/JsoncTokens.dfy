/** What stripping does to the JSON tokens of a text
    (scripts/public-config-corpus.py). */
module JsoncTokens {
  import opened Wrappers
  import opened Text
  import opened Jsonc
  import opened Sequences

  // ----- Trailing commas

  predicate IsCloser(c: char) {
    c == ']' || c == '}'
  }

  /** The next character that is not white space closes an array or an object. */
  predicate CloserFollows(s: string) {
    var rest := TrimStart(s, IsPythonSpace);
    rest != [] && IsCloser(rest[0])
  }

  /** What the comma stripper appends for the rest of the text. */
  function StripTrailingCommas(s: string, m: Mode): string
    decreases |s|
  {
    if s == [] then []
    else if m == Outside && s[0] == ',' && CloserFollows(s[1..]) then " " + StripTrailingCommas(s[1..], Outside)
    else [s[0]] + StripTrailingCommas(s[1..], Next(m, s[0]))
  }

  lemma CommaStep(content: string, i: nat, m: Mode)
    requires i < |content|
    ensures StripTrailingCommas(content[i..], m)
         == if m == Outside && content[i] == ',' && CloserFollows(content[i + 1..])
            then " " + StripTrailingCommas(content[i + 1..], Outside)
            else [content[i]] + StripTrailingCommas(content[i + 1..], Next(m, content[i]))
  {
    assert content[i..][1..] == content[i + 1..];
  }

  method StripJsoncTrailingCommas(content: string) returns (out: string)
    ensures out == StripTrailingCommas(content, Outside)
  {
    out := [];
    var i := 0;
    var inString, escape := false, false;
    assert content[0..] == content;
    while i < |content|
      invariant i <= |content|
      invariant !inString ==> !escape
      invariant out + StripTrailingCommas(content[i..], ModeOf(inString, escape)) == StripTrailingCommas(content, Outside)
    {
      hide StripTrailingCommas;
      hide CloserFollows;
      var ch := content[i];
      CommaStep(content, i, ModeOf(inString, escape));
      ghost var rest := StripTrailingCommas(content[i + 1..], Next(ModeOf(inString, escape), ch));
      Regroup(out, [ch], rest);
      if inString {
        out := out + [ch];
        if escape {
          escape := false;
        } else if ch == '\\' {
          escape := true;
        } else if ch == '"' {
          inString := false;
        }
        i := i + 1;
      } else if ch == '"' {
        inString := true;
        out := out + [ch];
        i := i + 1;
      } else {
        var closes := false;
        if ch == ',' {
          closes := LooksAtCloser(content, i + 1);
          Regroup(out, " ", rest);
        }
        out := out + (if closes then " " else [ch]);
        i := i + 1;
      }
    }
  }

  method LooksAtCloser(content: string, from: nat) returns (closes: bool)
    requires from <= |content|
    ensures closes == CloserFollows(content[from..])
  {
    var j := from;
    while j < |content| && IsPythonSpace(content[j])
      invariant from <= j <= |content|
      invariant TrimStart(content[from..], IsPythonSpace) == TrimStart(content[j..], IsPythonSpace)
    {
      assert content[j..][1..] == content[j + 1..];
      j := j + 1;
    }
    return j < |content| && IsCloser(content[j]);
  }

  /** Nothing moves, and only commas outside strings change, into spaces. */
  lemma {:induction false} CommasKeepPositions(s: string, m: Mode)
    ensures var r := StripTrailingCommas(s, m);
            && |r| == |s|
            && (forall k :: 0 <= k < |s| ==> r[k] == s[k] || (s[k] == ',' && r[k] == ' '))
    decreases |s|
  {
    if s != [] {
      CommasKeepPositions(s[1..], Next(m, s[0]));
    }
  }

  // ----- Which commas go, position by position

  /** Whether the character at `k` belongs to a string literal whose opening quote
      stands before it. */
  predicate InString(s: string, k: nat)
    requires k <= |s|
    decreases k
  {
    k > 0 && (if s[k - 1] == '"' && !IsEscaped(s, k - 1) then !InString(s, k - 1) else InString(s, k - 1))
  }

  /** An unescaped backslash of a string literal stands right before `k`. */
  predicate IsEscaped(s: string, k: nat)
    requires k <= |s|
    decreases k
  {
    k > 0 && s[k - 1] == '\\' && InString(s, k - 1) && !IsEscaped(s, k - 1)
  }

  function ModeAt(s: string, k: nat): Mode
    requires k <= |s|
  {
    if InString(s, k) then Inside(IsEscaped(s, k)) else Outside
  }

  lemma ModeStep(s: string, k: nat)
    requires k < |s|
    ensures Next(ModeAt(s, k), s[k]) == ModeAt(s, k + 1)
  {
    assert IsEscaped(s, k) ==> InString(s, k);
  }

  lemma {:induction false} CloserFollowsIff(t: string)
    ensures CloserFollows(t)
       <==> exists j :: 0 <= j < |t| && (t[j] == ']' || t[j] == '}') && forall i :: 0 <= i < j ==> IsPythonSpace(t[i])
    decreases |t|
  {
    if t != [] && IsPythonSpace(t[0]) {
      var rest := t[1..];
      CloserFollowsIff(rest);
      if j :| 0 <= j < |rest| && (rest[j] == ']' || rest[j] == '}') && forall i :: 0 <= i < j ==> IsPythonSpace(rest[i]) {
        assert t[j + 1] == rest[j];
        assert forall i :: 0 < i < j + 1 ==> t[i] == rest[i - 1];
      }
      if j :| 0 <= j < |t| && (t[j] == ']' || t[j] == '}') && forall i :: 0 <= i < j ==> IsPythonSpace(t[i]) {
        assert j > 0 && rest[j - 1] == t[j];
        assert forall i :: 0 <= i < j - 1 ==> rest[i] == t[i + 1];
      }
    } else if t != [] {
      assert TrimStart(t, IsPythonSpace) == t;
    }
  }

  lemma {:induction false} OutputAt(s: string, i: nat, k: nat)
    requires i <= k < |s|
    ensures var r := StripTrailingCommas(s[i..], ModeAt(s, i));
            && |r| == |s| - i
            && r[k - i] == if s[k] == ',' && !InString(s, k) && CloserFollows(s[k + 1..]) then ' ' else s[k]
    decreases k - i
  {
    var t := s[i..];
    CommasKeepPositions(t, ModeAt(s, i));
    CommaStep(s, i, ModeAt(s, i));
    ModeStep(s, i);
    hide StripTrailingCommas;
    hide CloserFollows;
    if i < k {
      hide InString;
      OutputAt(s, i + 1, k);
    }
  }

  /** For any text: the character at `k` changes exactly when it is a comma outside
      string literals that only white space separates from a closing bracket or brace
      behind it. */
  lemma CommaGoesIff(s: string, k: nat)
    requires k < |s|
    ensures var r := StripTrailingCommas(s, Outside);
            && |r| == |s|
            && (r[k] != s[k]
                <==> && s[k] == ',' && !InString(s, k)
                     && exists j :: k < j < |s| && (s[j] == ']' || s[j] == '}') && forall i :: k < i < j ==> IsPythonSpace(s[i]))
  {
    OutputAt(s, 0, k);
    assert s[0..] == s;
    var t := s[k + 1..];
    CloserFollowsIff(t);
    hide StripTrailingCommas;
    hide CloserFollows;
    hide InString;
    if j :| 0 <= j < |t| && (t[j] == ']' || t[j] == '}') && forall i :: 0 <= i < j ==> IsPythonSpace(t[i]) {
      assert s[k + 1 + j] == t[j];
      assert forall i :: k < i < k + 1 + j ==> s[i] == t[i - k - 1];
    }
    if j :| k < j < |s| && (s[j] == ']' || s[j] == '}') && forall i :: k < i < j ==> IsPythonSpace(s[i]) {
      assert t[j - k - 1] == s[j];
      assert forall i :: 0 <= i < j - k - 1 ==> t[i] == s[i + k + 1];
    }
  }

  // ----- When a second pass over the commas changes nothing

  /** A comma at the start of `s`, then only white space up to a trailing comma. */
  predicate DoubleComma(s: string) {
    && s != [] && s[0] == ','
    && var rest := TrimStart(s[1..], IsPythonSpace);
    && rest != [] && rest[0] == ',' && CloserFollows(rest[1..])
  }

  predicate HasDoubleComma(s: string, m: Mode)
    decreases |s|
  {
    s != [] && ((m == Outside && DoubleComma(s)) || HasDoubleComma(s[1..], Next(m, s[0])))
  }

  /** After one pass a closer follows if it did before, or if a removed comma was
      all that stood before it. */
  lemma {:induction false} CloserAfterPass(s: string)
    ensures CloserFollows(StripTrailingCommas(s, Outside)) <==> CloserFollows(s) || DoubleComma("," + s)
    decreases |s|
  {
    assert ("," + s)[1..] == s;
    if s != [] {
      var rest := s[1..];
      var out := StripTrailingCommas(s, Outside);
      assert out[1..] == StripTrailingCommas(rest, Outside) || s[0] == '"';
      CloserAfterPass(rest);
      assert ("," + rest)[1..] == rest;
      if IsPythonSpace(s[0]) {
        assert TrimStart(s, IsPythonSpace) == TrimStart(rest, IsPythonSpace);
      } else {
        assert TrimStart(s, IsPythonSpace) == s;
      }
    }
  }

  /** Stripping trailing commas twice is stripping them once exactly when no
      trailing comma has another comma just before it. */
  lemma {:induction false} CommaStrippingIsIdempotentIff(s: string, m: Mode)
    ensures StripTrailingCommas(StripTrailingCommas(s, m), m) == StripTrailingCommas(s, m) <==> !HasDoubleComma(s, m)
    decreases |s|
  {
    if s != [] {
      var next := Next(m, s[0]);
      var rest := s[1..];
      var out, tail := StripTrailingCommas(s, m), StripTrailingCommas(rest, next);
      CommaStrippingIsIdempotentIff(rest, next);
      CommaFirst(s, m);
      assert out[1..] == tail;
      CommaFirst(out, m);
      var again := StripTrailingCommas(out, m);
      assert again[1..] == StripTrailingCommas(tail, next);
      hide StripTrailingCommas;
      assert out == [out[0]] + tail && again == [again[0]] + StripTrailingCommas(tail, next);
      if m == Outside && s[0] == ',' {
        CloserAfterPass(rest);
        assert "," + rest == s;
      }
      hide CloserFollows;
    }
  }

  lemma CommaFirst(s: string, m: Mode)
    requires s != []
    ensures StripTrailingCommas(s, m)
         == (if m == Outside && s[0] == ',' && CloserFollows(s[1..]) then " " else [s[0]])
            + StripTrailingCommas(s[1..], Next(m, s[0]))
  {
  }

  /** The smallest text that needs two passes. */
  lemma TwoCommasNeedTwoPasses()
    ensures StripTrailingCommas(",,]", Outside) == ", ]"
    ensures StripTrailingCommas(", ]", Outside) == "  ]"
  {
    var s, t := ",,]", ", ]";
    assert s[1..] == ",]" && s[1..][1..] == "]" && s[1..][1..][1..] == "";
    assert t[1..] == " ]" && t[1..][1..] == "]";
    assert TrimStart("]", IsPythonSpace) == "]" && TrimStart(",]", IsPythonSpace) == ",]";
    assert StripTrailingCommas("]", Outside) == "]";
    assert StripTrailingCommas(",]", Outside) == " ]";
    assert TrimStart(" ]", IsPythonSpace) == "]";
    assert StripTrailingCommas(" ]", Outside) == " ]";
  }

  // ----- Printed JSON

  /** A printed text is a sequence of pieces: the three kinds of token, white
      space, and the two kinds of comment. A string's body is as written, with
      its escapes. */
  datatype Piece =
    | Str(body: string) | Punct(c: char) | Word(w: string)
    | Gap(space: string) | LineNote(text: string) | BlockNote(text: string)

  predicate IsJsonSpace(c: char) {
    c == ' ' || c == '\t' || c == '\n' || c == '\r'
  }

  predicate IsPunct(c: char) {
    c == '{' || c == '}' || c == '[' || c == ']' || c == ',' || c == ':'
  }

  /** A character of a number or of true, false, null. */
  predicate IsWordChar(c: char) {
    !IsPythonSpace(c) && c != '"' && !IsPunct(c) && c != '/'
  }

  predicate NotWordChar(c: char) {
    !IsWordChar(c)
  }

  /** What may stand between two quotes: characters other than a quote and a
      backslash, and pairs of a backslash and any character. */
  predicate IsStringBody(body: string)
    decreases |body|
  {
    || body == []
    || (body[0] != '"' && body[0] != '\\' && IsStringBody(body[1..]))
    || (body[0] == '\\' && |body| > 1 && IsStringBody(body[2..]))
  }

  /** The scanners' reading of it: the text never closes the string it is in, and
      ends outside an escape. */
  predicate IsBody(body: string, escape: bool) {
    if body == [] then !escape
    else
      match Next(Inside(escape), body[0])
      case Outside => false
      case Inside(e) => IsBody(body[1..], e)
  }

  predicate PieceOk(p: Piece) {
    match p
    case Str(body) => IsStringBody(body)
    case Punct(c) => IsPunct(c)
    case Word(w) => w != [] && forall k :: 0 <= k < |w| ==> IsWordChar(w[k])
    case Gap(space) => space != [] && forall k :: 0 <= k < |space| ==> IsJsonSpace(space[k])
    case LineNote(text) => '\n' !in text
    case BlockNote(text) => forall k | 0 <= k < |text| - 1 :: !(text[k] == '*' && text[k + 1] == '/')
  }

  lemma {:induction false} StringBodyIsBody(body: string)
    ensures IsStringBody(body) <==> IsBody(body, false)
    decreases |body|
  {
    if body != [] && body[0] == '\\' {
      if |body| > 1 {
        StringBodyIsBody(body[2..]);
        assert body[1..][1..] == body[2..];
      } else {
        assert body[1..] == [];
      }
    } else if body != [] && body[0] != '"' {
      StringBodyIsBody(body[1..]);
    }
  }

  /** Two words need something in between, and a line comment a line break after it
      unless it ends the text. Any number of commas may precede a closer. */
  predicate WellFormed(ps: seq<Piece>) {
    ps == [] ||
    (&& PieceOk(ps[0]) && WellFormed(ps[1..])
     && (ps[0].Word? && |ps| > 1 ==> !ps[1].Word?)
     && (ps[0].LineNote? && |ps| > 1 ==> ps[1].Gap? && ps[1].space != [] && ps[1].space[0] == '\n'))
  }

  function PieceText(p: Piece): string {
    match p
    case Str(body) => "\"" + body + "\""
    case Punct(c) => [c]
    case Word(w) => w
    case Gap(space) => space
    case LineNote(text) => "//" + text
    case BlockNote(text) => "/*" + text + "*/"
  }

  function Render(ps: seq<Piece>): string {
    if ps == [] then [] else PieceText(ps[0]) + Render(ps[1..])
  }

  // ----- Tokens

  datatype Token = StrToken(body: string) | PunctToken(c: char) | WordToken(w: string)

  function Tokens(ps: seq<Piece>): seq<Token> {
    if ps == [] then []
    else
      var rest := Tokens(ps[1..]);
      match ps[0]
      case Str(body) => [StrToken(body)] + rest
      case Punct(c) => [PunctToken(c)] + rest
      case Word(w) => [WordToken(w)] + rest
      case _ => rest
  }

  predicate IsCloserToken(t: Token) {
    t == PunctToken(']') || t == PunctToken('}')
  }

  /** The tokens without the commas that stand before a closer. */
  function WithoutTrailingCommas(ts: seq<Token>): seq<Token> {
    if ts == [] then []
    else if ts[0] == PunctToken(',') && |ts| > 1 && IsCloserToken(ts[1]) then WithoutTrailingCommas(ts[1..])
    else [ts[0]] + WithoutTrailingCommas(ts[1..])
  }

  /** How far the body of a string literal goes, if it is closed at all. */
  function BodyLength(s: string): (n: Option<nat>)
    ensures n.Some? ==> n.value < |s|
    decreases |s|
  {
    if s == [] then None
    else if s[0] == '"' then Some(0)
    else
      var unit := if s[0] == '\\' then 2 else 1;
      if |s| < unit then None
      else
        match BodyLength(s[unit..])
        case None => None
        case Some(n) => Some(n + unit)
  }

  function Prepend(t: Token, ts: Option<seq<Token>>): Option<seq<Token>> {
    match ts
    case None => None
    case Some(rest) => Some([t] + rest)
  }

  /** A reader of JSON tokens; None for text that is not JSON at the token level. */
  function Lex(s: string): Option<seq<Token>>
    decreases |s|
  {
    if s == [] then Some([])
    else if IsJsonSpace(s[0]) then Lex(s[1..])
    else if IsPunct(s[0]) then Prepend(PunctToken(s[0]), Lex(s[1..]))
    else if s[0] == '"' then
      match BodyLength(s[1..])
      case None => None
      case Some(n) => Prepend(StrToken(s[1..][..n]), Lex(s[1..][n + 1..]))
    else
      var w := UpTo(s, NotWordChar);
      UpToIsPrefix(s, NotWordChar);
      if w == [] then None else Prepend(WordToken(w), Lex(s[|w|..]))
  }

  // ----- Comments become gaps

  function BlankPiece(p: Piece): Piece {
    match p
    case LineNote(_) => Gap(Blank(PieceText(p)))
    case BlockNote(_) => Gap(Blank(PieceText(p)))
    case _ => p
  }

  function BlankNotes(ps: seq<Piece>): seq<Piece> {
    if ps == [] then [] else [BlankPiece(ps[0])] + BlankNotes(ps[1..])
  }

  lemma {:induction false} PlainPassesThrough(plain: string, rest: string)
    requires forall k :: 0 <= k < |plain| ==> plain[k] != '/' && plain[k] != '"'
    ensures StripComments(plain + rest, Outside) == plain + StripComments(rest, Outside)
    decreases |plain|
  {
    hide StripComments;
    if plain == [] {
      assert plain + rest == rest;
    } else {
      StripStep(plain + rest, Outside);
      PlainPassesThrough(plain[1..], rest);
      assert (plain + rest)[1..] == plain[1..] + rest;
      assert (plain + rest)[0] == plain[0];
    }
  }

  lemma {:induction false} BodyPassesThrough(body: string, escape: bool, rest: string)
    requires IsBody(body, escape)
    ensures StripComments(body + ("\"" + rest), Inside(escape)) == body + ("\"" + StripComments(rest, Outside))
    decreases |body|
  {
    hide StripComments;
    var s := body + ("\"" + rest);
    StripStep(s, Inside(escape));
    if body == [] {
      assert s == "\"" + rest && s[1..] == rest;
    } else {
      BodyPassesThrough(body[1..], Next(Inside(escape), body[0]).escape, rest);
      assert s[1..] == body[1..] + ("\"" + rest);
    }
  }

  lemma LineNoteEnds(text: string, rest: string)
    requires '\n' !in text && (rest == [] || rest[0] == '\n')
    ensures LineEnd("//" + text + rest, 2) == |text| + 2
  {
    var s := "//" + text + rest;
    assert forall k :: 2 <= k < |text| + 2 ==> s[k] == text[k - 2];
    assert rest != [] ==> s[|text| + 2] == '\n';
  }

  lemma LineNoteIsBlanked(text: string, rest: string)
    requires '\n' !in text && (rest == [] || rest[0] == '\n')
    ensures StripComments("//" + text + rest, Outside) == Blank("//" + text) + StripComments(rest, Outside)
  {
    var s := "//" + text + rest;
    var j := LineEnd(s, 2);
    LineNoteEnds(text, rest);
    assert s[..j] == "//" + text && s[j..] == rest;
  }

  lemma BlockNoteEnds(text: string, rest: string)
    requires forall k :: 0 <= k < |text| - 1 ==> !(text[k] == '*' && text[k + 1] == '/')
    ensures BlockStop("/*" + text + "*/" + rest, 2) == |text| + 2
  {
    var s := "/*" + text + "*/" + rest;
    var n := |text| + 2;
    forall k | 2 <= k < n
      ensures !ClosesAt(s, k)
    {
      assert s[k] == text[k - 2];
      assert k + 1 < n ==> s[k + 1] == text[k - 1];
      assert k + 1 == n ==> s[k + 1] == '*';
      assert k + 1 < n ==> !(text[k - 2] == '*' && text[k - 2 + 1] == '/');
    }
    assert ClosesAt(s, n);
  }

  lemma BlockNoteIsBlanked(text: string, rest: string)
    requires forall k :: 0 <= k < |text| - 1 ==> !(text[k] == '*' && text[k + 1] == '/')
    ensures StripComments("/*" + text + "*/" + rest, Outside) == Blank("/*" + text + "*/") + StripComments(rest, Outside)
  {
    hide StripComments;
    var s := "/*" + text + "*/" + rest;
    var n := |text| + 2;
    BlockNoteEnds(text, rest);
    assert s[..n + 2] == "/*" + text + "*/" && s[n + 2..] == rest;
    BlockStep(s);
  }

  lemma BlockStep(s: string)
    requires StartsBlockComment(s)
    ensures StripComments(s, Outside) == Blank(s[..BlockEnd(s)]) + StripComments(s[BlockEnd(s)..], Outside)
  {
  }

  lemma StrIsKept(body: string, rest: string)
    requires IsStringBody(body)
    ensures StripComments("\"" + body + "\"" + rest, Outside) == "\"" + body + "\"" + StripComments(rest, Outside)
  {
    hide StripComments;
    hide IsBody;
    hide IsStringBody;
    StringBodyIsBody(body);
    BodyPassesThrough(body, false, rest);
    var inner := body + ("\"" + rest);
    var s := "\"" + body + "\"" + rest;
    assert s == "\"" + inner;
    StripStep(s, Outside);
    assert s[1..] == inner;
    assert "\"" + body + "\"" + StripComments(rest, Outside) == "\"" + (body + ("\"" + StripComments(rest, Outside)));
  }

  lemma PieceIsBlanked(p: Piece, rest: string)
    requires PieceOk(p) && (p.LineNote? ==> rest == [] || rest[0] == '\n')
    ensures StripComments(PieceText(p) + rest, Outside) == PieceText(BlankPiece(p)) + StripComments(rest, Outside)
  {
    hide StripComments;
    hide IsStringBody;
    hide Blank;
    match p
    case Str(body) => StrIsKept(body, rest);
    case Punct(c) => PlainPassesThrough([c], rest);
    case Word(w) => PlainPassesThrough(w, rest);
    case Gap(space) => PlainPassesThrough(space, rest);
    case LineNote(text) => LineNoteIsBlanked(text, rest);
    case BlockNote(text) => BlockNoteIsBlanked(text, rest);
  }

  /** Stripping comments blanks the comments and touches nothing else; string
      literals that look like comments included. */
  lemma {:induction false} CommentsBecomeGaps(ps: seq<Piece>)
    requires WellFormed(ps)
    ensures StripComments(Render(ps), Outside) == Render(BlankNotes(ps))
    decreases |ps|
  {
    hide StripComments;
    if ps == [] {
      StripEmpty(Outside);
    } else {
      CommentsBecomeGaps(ps[1..]);
      if ps[0].LineNote? && |ps| > 1 {
        assert Render(ps[1..])[0] == '\n';
      }
      PieceIsBlanked(ps[0], Render(ps[1..]));
      assert BlankNotes(ps)[1..] == BlankNotes(ps[1..]);
    }
  }

  predicate NoNotes(ps: seq<Piece>) {
    forall i :: 0 <= i < |ps| ==> !ps[i].LineNote? && !ps[i].BlockNote?
  }

  lemma {:induction false} BlankNotesIsWellFormed(ps: seq<Piece>)
    requires WellFormed(ps)
    ensures WellFormed(BlankNotes(ps)) && NoNotes(BlankNotes(ps)) && Tokens(BlankNotes(ps)) == Tokens(ps)
    decreases |ps|
  {
    if ps != [] {
      BlankNotesIsWellFormed(ps[1..]);
      assert BlankNotes(ps)[1..] == BlankNotes(ps[1..]);
      assert |ps| > 1 ==> BlankNotes(ps)[1] == BlankPiece(ps[1]);
    }
  }

  // ----- Trailing commas become gaps

  /** The next token after some gaps closes an array or an object. */
  predicate CloserIsNext(ps: seq<Piece>) {
    ps != [] && (if ps[0].Gap? then CloserIsNext(ps[1..]) else ps[0] == Punct(']') || ps[0] == Punct('}'))
  }

  function BlankTrailingCommas(ps: seq<Piece>): seq<Piece> {
    if ps == [] then []
    else [if ps[0] == Punct(',') && CloserIsNext(ps[1..]) then Gap(" ") else ps[0]] + BlankTrailingCommas(ps[1..])
  }

  lemma {:induction false} TrimSpaces(space: string, rest: string)
    requires forall k :: 0 <= k < |space| ==> IsJsonSpace(space[k])
    ensures TrimStart(space + rest, IsPythonSpace) == TrimStart(rest, IsPythonSpace)
    decreases |space|
  {
    if space == [] {
      assert space + rest == rest;
    } else {
      TrimSpaces(space[1..], rest);
      assert (space + rest)[1..] == space[1..] + rest;
    }
  }

  lemma {:induction false} CloserFollowsInText(ps: seq<Piece>)
    requires WellFormed(ps) && NoNotes(ps)
    ensures CloserFollows(Render(ps)) == CloserIsNext(ps)
    decreases |ps|
  {
    if ps != [] {
      var rest := Render(ps[1..]);
      match ps[0]
      case Gap(space) =>
        TrimSpaces(space, rest);
        CloserFollowsInText(ps[1..]);
      case Str(body) => assert Render(ps)[0] == '"';
      case Punct(c) => assert Render(ps)[0] == c;
      case Word(w) => assert Render(ps)[0] == w[0];
    }
  }

  lemma {:induction false} NoCommaPassesThrough(plain: string, rest: string)
    requires forall k :: 0 <= k < |plain| ==> plain[k] != ',' && plain[k] != '"'
    ensures StripTrailingCommas(plain + rest, Outside) == plain + StripTrailingCommas(rest, Outside)
    decreases |plain|
  {
    if plain == [] {
      assert plain + rest == rest;
    } else {
      NoCommaPassesThrough(plain[1..], rest);
      assert (plain + rest)[1..] == plain[1..] + rest;
      assert (plain + rest)[0] == plain[0];
    }
  }

  lemma {:induction false} BodyKeepsCommas(body: string, escape: bool, rest: string)
    requires IsBody(body, escape)
    ensures StripTrailingCommas(body + ("\"" + rest), Inside(escape)) == body + ("\"" + StripTrailingCommas(rest, Outside))
    decreases |body|
  {
    var s := body + ("\"" + rest);
    if body == [] {
      assert s == "\"" + rest && s[1..] == rest;
    } else {
      BodyKeepsCommas(body[1..], Next(Inside(escape), body[0]).escape, rest);
      assert s[1..] == body[1..] + ("\"" + rest);
    }
  }

  lemma {:induction false} TrailingCommasBecomeGaps(ps: seq<Piece>)
    requires WellFormed(ps) && NoNotes(ps)
    ensures StripTrailingCommas(Render(ps), Outside) == Render(BlankTrailingCommas(ps))
    decreases |ps|
  {
    hide CloserFollows;
    if ps != [] {
      var rest := Render(ps[1..]);
      TrailingCommasBecomeGaps(ps[1..]);
      CloserFollowsInText(ps[1..]);
      assert BlankTrailingCommas(ps)[1..] == BlankTrailingCommas(ps[1..]);
      PieceKeepsTokens(ps[0], rest);
    }
  }

  lemma StrKeepsCommas(body: string, rest: string)
    requires IsStringBody(body)
    ensures StripTrailingCommas("\"" + body + "\"" + rest, Outside) == "\"" + body + "\"" + StripTrailingCommas(rest, Outside)
  {
    StringBodyIsBody(body);
    BodyKeepsCommas(body, false, rest);
    hide IsBody;
    hide IsStringBody;
    var s := "\"" + body + "\"" + rest;
    assert s[0] == '"' && s[1..] == body + ("\"" + rest);
    QuoteKeepsCommas(s);
    hide StripTrailingCommas;
    assert "\"" + body + "\"" + StripTrailingCommas(rest, Outside) == "\"" + (body + ("\"" + StripTrailingCommas(rest, Outside)));
  }

  lemma QuoteKeepsCommas(s: string)
    requires s != [] && s[0] == '"'
    ensures StripTrailingCommas(s, Outside) == "\"" + StripTrailingCommas(s[1..], Inside(false))
  {
  }

  lemma PunctKeepsTokens(c: char, rest: string)
    requires c != '"'
    ensures StripTrailingCommas([c] + rest, Outside)
         == (if c == ',' && CloserFollows(rest) then " " else [c]) + StripTrailingCommas(rest, Outside)
  {
    assert ([c] + rest)[1..] == rest;
  }

  lemma PieceKeepsTokens(p: Piece, rest: string)
    requires PieceOk(p) && !p.LineNote? && !p.BlockNote?
    ensures StripTrailingCommas(PieceText(p) + rest, Outside)
         == (if p == Punct(',') && CloserFollows(rest) then " " else PieceText(p)) + StripTrailingCommas(rest, Outside)
  {
    hide CloserFollows;
    hide StripTrailingCommas;
    hide IsStringBody;
    match p
    case Str(body) => StrKeepsCommas(body, rest);
    case Punct(c) => PunctKeepsTokens(c, rest);
    case Word(w) => NoCommaPassesThrough(w, rest);
    case Gap(space) => NoCommaPassesThrough(space, rest);
  }

  lemma {:induction false} BlankTrailingCommasIsWellFormed(ps: seq<Piece>)
    requires WellFormed(ps) && NoNotes(ps)
    ensures WellFormed(BlankTrailingCommas(ps)) && NoNotes(BlankTrailingCommas(ps))
    ensures Tokens(BlankTrailingCommas(ps)) == WithoutTrailingCommas(Tokens(ps))
    decreases |ps|
  {
    if ps != [] {
      BlankTrailingCommasIsWellFormed(ps[1..]);
      assert BlankTrailingCommas(ps)[1..] == BlankTrailingCommas(ps[1..]);
      assert |ps| > 1 ==> BlankTrailingCommas(ps)[1] == BlankTrailingCommas(ps[1..])[0];
      CloserIsNextToken(ps[1..]);
    }
  }

  lemma {:induction false} CloserIsNextToken(ps: seq<Piece>)
    requires NoNotes(ps)
    ensures CloserIsNext(ps) <==> Tokens(ps) != [] && IsCloserToken(Tokens(ps)[0])
    decreases |ps|
  {
    if ps != [] {
      CloserIsNextToken(ps[1..]);
    }
  }

  // ----- Reading the printed text back

  lemma {:induction false} LexSkipsSpace(space: string, rest: string)
    requires forall k :: 0 <= k < |space| ==> IsJsonSpace(space[k])
    ensures Lex(space + rest) == Lex(rest)
    decreases |space|
  {
    if space == [] {
      assert space + rest == rest;
    } else {
      LexSkipsSpace(space[1..], rest);
      assert (space + rest)[1..] == space[1..] + rest;
    }
  }

  lemma {:induction false} BodyIsRead(body: string, rest: string)
    requires IsStringBody(body)
    ensures BodyLength(body + ("\"" + rest)) == Some(|body|)
    decreases |body|
  {
    var s := body + ("\"" + rest);
    if body != [] {
      var unit := if body[0] == '\\' then 2 else 1;
      BodyIsRead(body[unit..], rest);
      assert s[unit..] == body[unit..] + ("\"" + rest);
    }
  }

  lemma {:induction false} WordIsRead(w: string, rest: string)
    requires forall k :: 0 <= k < |w| ==> IsWordChar(w[k])
    requires rest == [] || !IsWordChar(rest[0])
    ensures UpTo(w + rest, NotWordChar) == w
    decreases |w|
  {
    if w == [] {
      assert w + rest == rest;
    } else {
      WordIsRead(w[1..], rest);
      assert (w + rest)[1..] == w[1..] + rest;
    }
  }

  lemma LexStr(body: string, rest: string)
    requires IsStringBody(body)
    ensures Lex("\"" + body + "\"" + rest) == Prepend(StrToken(body), Lex(rest))
  {
    BodyIsRead(body, rest);
    hide IsStringBody;
    hide BodyLength;
    var s := "\"" + body + "\"" + rest;
    assert s[1..] == body + ("\"" + rest);
    assert s[1..][..|body|] == body && s[1..][|body| + 1..] == rest;
  }

  lemma LexWord(w: string, rest: string)
    requires w != [] && forall k :: 0 <= k < |w| ==> IsWordChar(w[k])
    requires rest == [] || !IsWordChar(rest[0])
    ensures Lex(w + rest) == Prepend(WordToken(w), Lex(rest))
  {
    WordIsRead(w, rest);
    var s := w + rest;
    assert s[0] == w[0] && s[|w|..] == rest;
    hide UpTo;
  }

  lemma LexPunct(c: char, rest: string)
    requires IsPunct(c)
    ensures Lex([c] + rest) == Prepend(PunctToken(c), Lex(rest))
  {
    assert ([c] + rest)[1..] == rest;
  }

  lemma LexOneToken(p: Piece, rest: string)
    requires PieceOk(p) && (p.Str? || p.Punct? || p.Word?)
    requires p.Word? ==> rest == [] || !IsWordChar(rest[0])
    ensures Lex(PieceText(p) + rest) == Prepend(Tokens([p])[0], Lex(rest))
  {
    hide Lex;
    hide IsStringBody;
    hide IsWordChar;
    match p
    case Str(body) => LexStr(body, rest);
    case Punct(c) => LexPunct(c, rest);
    case Word(w) => LexWord(w, rest);
  }

  lemma {:induction false} PrintedTextLexes(ps: seq<Piece>)
    requires WellFormed(ps) && NoNotes(ps)
    ensures Lex(Render(ps)) == Some(Tokens(ps))
    decreases |ps|
  {
    hide IsWordChar;
    if ps == [] {
    } else {
      PrintedTextLexes(ps[1..]);
      if ps[0].Gap? {
        LexSkipsSpace(ps[0].space, Render(ps[1..]));
      } else {
        NextStartsNoWord(ps);
        hide Lex;
        LexOneToken(ps[0], Render(ps[1..]));
      }
    }
  }

  lemma NextStartsNoWord(ps: seq<Piece>)
    requires WellFormed(ps) && NoNotes(ps) && ps != []
    ensures ps[0].Word? ==> Render(ps[1..]) == [] || !IsWordChar(Render(ps[1..])[0])
  {
    if |ps| > 1 {
      match ps[1]
      case Str(_) => assert Render(ps[1..])[0] == '"';
      case Punct(c) => assert Render(ps[1..])[0] == c;
      case Gap(space) => assert Render(ps[1..])[0] == space[0];
      case _ =>
    }
  }

  /** However a token sequence is printed, with whatever white space, comments and
      trailing commas, stripping comments and then trailing commas yields a text
      that reads as the same tokens without those commas. */
  lemma StrippedTextHasTheSameTokens(ps: seq<Piece>)
    requires WellFormed(ps)
    ensures Lex(StripTrailingCommas(StripComments(Render(ps), Outside), Outside)) == Some(WithoutTrailingCommas(Tokens(ps)))
  {
    hide StripComments;
    hide StripTrailingCommas;
    hide Lex;
    CommentsBecomeGaps(ps);
    BlankNotesIsWellFormed(ps);
    TrailingCommasBecomeGaps(BlankNotes(ps));
    BlankTrailingCommasIsWellFormed(BlankNotes(ps));
    PrintedTextLexes(BlankTrailingCommas(BlankNotes(ps)));
  }

  // ----- Which tokens are gone

  predicate IsTrailing(ts: seq<Token>, i: nat) {
    i + 1 < |ts| && ts[i] == PunctToken(',') && (ts[i + 1] == PunctToken(']') || ts[i + 1] == PunctToken('}'))
  }

  /** How many of the first `i` tokens are trailing commas. */
  function TrailingBefore(ts: seq<Token>, i: nat): nat
    requires i <= |ts|
  {
    if i == 0 then 0 else (if IsTrailing(ts, 0) then 1 else 0) + TrailingBefore(ts[1..], i - 1)
  }

  /** Every token but a trailing comma is still there, in its place among the others,
      and nothing else is. */
  lemma {:induction false} OnlyTrailingCommasGo(ts: seq<Token>)
    ensures |WithoutTrailingCommas(ts)| + TrailingBefore(ts, |ts|) == |ts|
    ensures forall i :: 0 <= i < |ts| && !IsTrailing(ts, i) ==>
              0 <= i - TrailingBefore(ts, i) < |WithoutTrailingCommas(ts)|
              && WithoutTrailingCommas(ts)[i - TrailingBefore(ts, i)] == ts[i]
    decreases |ts|
  {
    if ts != [] {
      var rest := ts[1..];
      OnlyTrailingCommasGo(rest);
      assert forall i :: 0 <= i < |rest| ==> IsTrailing(rest, i) == IsTrailing(ts, i + 1);
      forall i | 0 <= i < |ts| && !IsTrailing(ts, i)
        ensures 0 <= i - TrailingBefore(ts, i) < |WithoutTrailingCommas(ts)|
                && WithoutTrailingCommas(ts)[i - TrailingBefore(ts, i)] == ts[i]
      {
        if i > 0 {
          assert !IsTrailing(rest, i - 1);
        }
      }
    }
  }

  /** Two commas in a row, the second a trailing one. */
  predicate IsDouble(ts: seq<Token>, i: nat) {
    i < |ts| && ts[i] == PunctToken(',') && IsTrailing(ts, i + 1)
  }

  ghost predicate HasTrailing(ts: seq<Token>) {
    exists i: nat :: IsTrailing(ts, i)
  }

  ghost predicate HasDouble(ts: seq<Token>) {
    exists i: nat :: IsDouble(ts, i)
  }

  lemma HasStep(ts: seq<Token>)
    requires ts != []
    ensures HasTrailing(ts) <==> IsTrailing(ts, 0) || HasTrailing(ts[1..])
    ensures HasDouble(ts) <==> IsDouble(ts, 0) || HasDouble(ts[1..])
  {
    assert forall i: nat :: IsTrailing(ts[1..], i) == IsTrailing(ts, i + 1);
    assert forall i: nat :: IsDouble(ts[1..], i) == IsDouble(ts, i + 1);
    if i: nat :| IsTrailing(ts, i) && i > 0 {
      assert IsTrailing(ts[1..], i - 1);
    }
    if i: nat :| IsDouble(ts, i) && i > 0 {
      assert IsDouble(ts[1..], i - 1);
    }
  }

  /** A trailing comma is left exactly when two commas stood before a closer. */
  lemma {:induction false} TrailingCommaLeftIff(ts: seq<Token>)
    ensures HasTrailing(WithoutTrailingCommas(ts)) <==> HasDouble(ts)
    decreases |ts|
  {
    if ts != [] {
      var rest := ts[1..];
      var out, less := WithoutTrailingCommas(ts), WithoutTrailingCommas(rest);
      TrailingCommaLeftIff(rest);
      FirstLeft(rest);
      HasStep(ts);
      if !IsTrailing(ts, 0) {
        HasStep(out);
        assert out[1..] == less;
      }
      hide HasTrailing;
      hide HasDouble;
    }
  }

  lemma FirstLeft(ts: seq<Token>)
    ensures ts == [] <==> WithoutTrailingCommas(ts) == []
    ensures ts != [] ==> WithoutTrailingCommas(ts)[0] == if IsTrailing(ts, 0) then ts[1] else ts[0]
  {
  }

  /** What comes out of the two strippers reads as tokens without a trailing comma,
      however the tokens were printed, unless two commas stood before a closer. */
  lemma StrippedTextIsClean(ps: seq<Piece>) returns (ts: seq<Token>)
    requires WellFormed(ps)
    requires !HasDouble(Tokens(ps))
    ensures Lex(StripTrailingCommas(StripComments(Render(ps), Outside), Outside)) == Some(ts)
    ensures !HasTrailing(ts)
  {
    ts := WithoutTrailingCommas(Tokens(ps));
    StrippedTextHasTheSameTokens(ps);
    TrailingCommaLeftIff(Tokens(ps));
  }
}
