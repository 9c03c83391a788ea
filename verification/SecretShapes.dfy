/** What counts as a credential, spelled out (crates/cli/src/api.rs). */
module SecretShapes {
  import opened Wrappers
  import opened Text
  import opened Redaction

  /** The alphabet of JSON web tokens and of the program's API keys. */
  const LETTERS: string := "abcdefghijklmnopqrstuvwxyz"
  const CAPITALS: string := "ABCDEFGHIJKLMNOPQRSTUVWXYZ"
  const DIGITS: string := "0123456789"

  predicate IsOfToken(c: char) {
    c in LETTERS || c in CAPITALS || c in DIGITS || c == '_' || c == '.' || c == '-' || c == '='
  }

  predicate IsToken(token: string) {
    token != [] && forall k :: 0 <= k < |token| ==> IsOfToken(token[k])
  }

  predicate IsBlank(s: string) {
    forall k :: 0 <= k < |s| ==> s[k] == ' ' || s[k] == '\t'
  }

  /** PRIVATE-TOKEN in any mixture of cases. */
  predicate IsHeaderWord(s: string) {
    |s| == 13 && forall k :: 0 <= k < 13 ==> s[k] == "PRIVATE-TOKEN"[k] || s[k] == "private-token"[k]
  }

  /** A string of consecutive characters. */
  lemma InOrder(s: string, first: char, last: char)
    requires |s| == last as int - first as int + 1 && forall k :: 0 <= k < |s| ==> s[k] as int == first as int + k
    ensures forall c :: c in s <==> first <= c <= last
  {
    forall c
      ensures c in s <==> first <= c <= last
    {
      if first <= c <= last {
        assert s[c as int - first as int] == c;
      }
    }
  }

  /** The program's ranges are that alphabet. */
  lemma TokenAlphabet()
    ensures forall c :: IsTokenByte(c) <==> IsOfToken(c)
  {
    InOrder(LETTERS, 'a', 'z');
    InOrder(CAPITALS, 'A', 'Z');
    InOrder(DIGITS, '0', '9');
  }

  /** Folding maps every capital to its small letter and leaves the rest alone. */
  lemma FoldingMeans(c: char)
    ensures forall k :: 0 <= k < 26 ==> AsciiLower(CAPITALS[k]) == LETTERS[k]
    ensures c !in CAPITALS ==> AsciiLower(c) == c
  {
    InOrder(CAPITALS, 'A', 'Z');
    assert forall k :: 0 <= k < 26 ==> CAPITALS[k] as int == 65 + k;
    assert forall k :: 0 <= k < 26 ==> LETTERS[k] as int == 97 + k;
  }

  lemma {:induction false} BlankRun(blank: string, rest: string)
    requires IsBlank(blank) && (rest != "" ==> rest[0] != ' ' && rest[0] != '\t')
    ensures Run(blank + rest, NotBlank) == |blank|
    decreases |blank|
  {
    if blank == "" {
      assert blank + rest == rest;
    } else {
      BlankRun(blank[1..], rest);
      assert (blank + rest)[1..] == blank[1..] + rest;
    }
  }

  lemma {:induction false} TokenRun(token: string, rest: string)
    requires (forall k :: 0 <= k < |token| ==> IsOfToken(token[k])) && (rest != "" ==> !IsOfToken(rest[0]))
    ensures Run(token + rest, NotTokenByte) == |token|
    decreases |token|
  {
    TokenAlphabet();
    hide IsTokenByte;
    hide IsOfToken;
    if token == "" {
      assert token + rest == rest;
    } else {
      TokenRun(token[1..], rest);
      assert (token + rest)[1..] == token[1..] + rest;
    }
  }

  lemma TokenIsMasked(kind: Kind, front: string, token: string, rest: string)
    requires TokenStart(kind, front + token + rest) == Some(|front|)
    requires IsToken(token) && (rest != "" ==> !IsOfToken(rest[0]))
    ensures Redact(kind, front + token + rest) == front + "***" + Redact(kind, rest)
  {
    TokenAlphabet();
    TokenRun(token, rest);
    hide IsTokenByte;
    hide IsOfToken;
    hide Redact;
    hide TokenStart;
    hide Run;
    var s := front + token + rest;
    assert s[|front|] == token[0] && s[|front|..] == token + rest && s[..|front|] == front;
    assert SecretEnd(kind, s) == |front| + |token|;
    assert s[|front| + |token|..] == rest;
    RedactStep(kind, s);
  }

  /** A bearer token is masked as a whole, and nothing but it. */
  lemma BearerIsMasked(token: string, rest: string)
    requires IsToken(token) && (rest != "" ==> !IsOfToken(rest[0]))
    ensures Redact(Bearer, "Bearer " + token + rest) == "Bearer ***" + Redact(Bearer, rest)
  {
    hide IsOfToken;
    var s := "Bearer " + token + rest;
    assert s[..7] == BEARER;
    TokenIsMasked(Bearer, "Bearer ", token, rest);
  }

  lemma HeaderWordIsHeader(word: string, rest: string)
    requires IsHeaderWord(word)
    ensures StartsWithIgnoreCase(word + rest, HEADER)
  {
    forall k | 0 <= k < 13
      ensures AsciiLower(word[k]) == AsciiLower(HEADER[k])
    {
      assert AsciiLower("PRIVATE-TOKEN"[k]) == AsciiLower("private-token"[k]);
    }
  }

  /** A PRIVATE-TOKEN header in any case, with its colon and blanks. */
  ghost predicate IsPrivateHeader(header: string) {
    exists word, before, after :: IsHeaderWord(word) && IsBlank(before) && IsBlank(after) && header == word + before + ":" + after
  }

  /** So is a private token, whatever the case of its header and the blanks around the
      colon. */
  lemma PrivateTokenIsMasked(header: string, token: string, rest: string)
    requires IsPrivateHeader(header) && IsToken(token) && (rest != "" ==> !IsOfToken(rest[0]))
    ensures Redact(PrivateToken, header + token + rest) == header + "***" + Redact(PrivateToken, rest)
  {
    hide IsHeaderWord;
    hide IsBlank;
    TokenIsNoBlank(token[0]);
    hide IsOfToken;
    StartBehindHeader(header, token + rest);
    assert header + (token + rest) == header + token + rest;
    TokenIsMasked(PrivateToken, header, token, rest);
  }

  lemma StartBehindHeader(header: string, rest: string)
    requires IsPrivateHeader(header) && rest != "" && rest[0] != ' ' && rest[0] != '\t'
    ensures TokenStart(PrivateToken, header + rest) == Some(|header|)
  {
    hide IsHeaderWord;
    hide IsBlank;
    hide TokenStart;
    var word, before, after :| IsHeaderWord(word) && IsBlank(before) && IsBlank(after) && header == word + before + ":" + after;
    StartOfToken(word, before, after, rest);
  }

  lemma StartOfToken(word: string, before: string, after: string, rest: string)
    requires IsHeaderWord(word) && IsBlank(before) && IsBlank(after)
    requires rest != "" && rest[0] != ' ' && rest[0] != '\t'
    ensures TokenStart(PrivateToken, word + before + ":" + after + rest) == Some(|word| + |before| + 1 + |after|)
  {
    hide IsHeaderWord;
    var tail := before + (":" + after + rest);
    var s := word + before + ":" + after + rest;
    assert s == word + tail && |word| == 13 by {
      WordHasThirteen(word);
    }
    HeaderWordIsHeader(word, tail);
    hide StartsWithIgnoreCase;
    assert s[13..] == tail;
    BlankRun(before, ":" + after + rest);
    var colon := 13 + |before|;
    assert s[colon] == tail[|before|] == ':';
    assert s[colon + 1..] == after + rest;
    BlankRun(after, rest);
  }

  lemma WordHasThirteen(word: string)
    requires IsHeaderWord(word)
    ensures |word| == 13
  {
  }

  /** Nowhere in the sanitized text does a character of a token follow `Bearer ` or a
      PRIVATE-TOKEN header. */
  lemma SanitizedTextShowsNoToken(s: string, front: string, header: string, c: char, rest: string)
    requires header == "Bearer " || IsPrivateHeader(header)
    requires Sanitize(s) == front + header + [c] + rest
    ensures !IsOfToken(c)
  {
    SanitizeLeavesNoSecret(s);
    var out := Sanitize(s);
    hide Sanitize;
    if IsOfToken(c) {
      if header == "Bearer " {
        BearerShowsToken(out, front, c, rest);
      } else {
        PrivateTokenShows(out, front, header, c, rest);
      }
    }
  }

  lemma BearerShowsToken(out: string, front: string, c: char, rest: string)
    requires out == front + "Bearer " + [c] + rest && IsOfToken(c)
    ensures |front| <= |out| && HasSecret(Bearer, out[|front|..])
  {
    TokenAlphabet();
    hide IsTokenByte;
    hide IsOfToken;
    var tail := out[|front|..];
    assert tail == "Bearer " + [c] + rest;
    assert tail[..7] == BEARER && tail[7] == c;
  }

  lemma PrivateTokenShows(out: string, front: string, header: string, c: char, rest: string)
    requires out == front + header + [c] + rest && IsOfToken(c) && IsPrivateHeader(header)
    ensures |front| <= |out| && HasSecret(PrivateToken, out[|front|..])
  {
    var tail := out[|front|..];
    assert tail == header + ([c] + rest);
    TokenIsNoBlank(c);
    StartBehindHeader(header, [c] + rest);
    TokenAlphabet();
    hide IsTokenByte;
    hide IsOfToken;
    hide TokenStart;
    assert tail[|header|] == c;
  }

  lemma TokenIsNoBlank(c: char)
    requires IsOfToken(c)
    ensures c != ' ' && c != '\t'
  {
    TokenAlphabet();
  }
}
