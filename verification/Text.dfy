/** String helpers the programs take from their standard libraries. */
module Text {
  import opened Wrappers

  /** Rust's char::is_whitespace. */
  predicate IsSpace(c: char) {
    || '\t' <= c <= '\r' || c == ' ' || c == '\U{85}' || c == '\U{A0}' || c == '\U{1680}'
    || '\U{2000}' <= c <= '\U{200A}' || c == '\U{2028}' || c == '\U{2029}' || c == '\U{202F}'
    || c == '\U{205F}' || c == '\U{3000}'
  }

  /** Python's str.isspace for one character. */
  predicate IsPythonSpace(c: char) {
    IsSpace(c) || '\U{1C}' <= c <= '\U{1F}'
  }

  /** Rust's char::is_ascii_whitespace. */
  predicate IsAsciiSpace(c: char) {
    c == ' ' || c == '\t' || c == '\n' || c == '\U{0C}' || c == '\r'
  }

  function AsciiLower(c: char): char {
    if 'A' <= c <= 'Z' then (c as int + 32) as char else c
  }

  predicate StartsWith(s: string, prefix: string) {
    |prefix| <= |s| && s[..|prefix|] == prefix
  }

  /** Drop the leading characters that satisfy `p`. */
  function TrimStart(s: string, p: char -> bool): string {
    if s != [] && p(s[0]) then TrimStart(s[1..], p) else s
  }

  function TrimEnd(s: string, p: char -> bool): string {
    if s != [] && p(s[|s| - 1]) then TrimEnd(s[..|s| - 1], p) else s
  }

  function Trim(s: string, p: char -> bool): string {
    TrimEnd(TrimStart(s, p), p)
  }

  /** The longest prefix without a character that satisfies `p`. */
  function UpTo(s: string, p: char -> bool): string {
    if s == [] || p(s[0]) then [] else [s[0]] + UpTo(s[1..], p)
  }

  lemma {:induction false} UpToIsPrefix(s: string, p: char -> bool)
    ensures |UpTo(s, p)| <= |s| && s[..|UpTo(s, p)|] == UpTo(s, p)
    ensures forall i :: 0 <= i < |UpTo(s, p)| ==> !p(s[i])
    ensures |UpTo(s, p)| < |s| ==> p(s[|UpTo(s, p)|])
    decreases |s|
  {
    if s != [] && !p(s[0]) {
      UpToIsPrefix(s[1..], p);
      var u := UpTo(s[1..], p);
      assert s[..1 + |u|] == [s[0]] + s[1..][..|u|];
    }
  }

  /** The words of a line: its maximal runs of characters that are not `p`. */
  function Words(s: string, p: char -> bool): seq<string>
    decreases |s|
  {
    if s == [] then []
    else if p(s[0]) then Words(s[1..], p)
    else
      var w := UpTo(s, p);
      UpToIsPrefix(s, p);
      [w] + Words(s[|w|..], p)
  }

  function Join(words: seq<string>, separator: string): string {
    if words == [] then "" else if |words| == 1 then words[0]
    else words[0] + separator + Join(words[1..], separator)
  }

  lemma {:induction false} UpToStops(word: string, rest: string, p: char -> bool)
    requires forall c :: c in word ==> !p(c)
    requires rest != [] ==> p(rest[0])
    ensures UpTo(word + rest, p) == word
  {
    if word == [] {
      assert word + rest == rest;
    } else {
      assert (word + rest)[1..] == word[1..] + rest;
      UpToStops(word[1..], rest, p);
    }
  }

  ghost predicate IsWord(w: string, p: char -> bool) {
    w != [] && forall c :: c in w ==> !p(c)
  }

  lemma FirstWord(w: string, rest: string, p: char -> bool)
    requires IsWord(w, p) && (rest != [] ==> p(rest[0]))
    ensures Words(w + rest, p) == [w] + Words(rest, p)
  {
    UpToStops(w, rest, p);
    hide UpTo;
    assert (w + rest)[0] == w[0] && w[0] in w;
    assert (w + rest)[|w|..] == rest;
  }

  lemma LeadingSpace(s: string, p: char -> bool)
    requires p(' ')
    ensures Words(" " + s, p) == Words(s, p)
  {
    assert (" " + s)[1..] == s;
  }

  /** Splitting joined words gives the words back. */
  lemma {:induction false} WordsOfJoin(words: seq<string>, p: char -> bool)
    requires p(' ') && forall w :: w in words ==> IsWord(w, p)
    ensures Words(Join(words, " "), p) == words
  {
    hide IsWord;
    if words != [] {
      hide Words;
      var w, more := words[0], words[1..];
      assert w in words && words == [w] + more;
      assert forall v :: v in more ==> v in words;
      WordsOfJoin(more, p);
      if more == [] {
        assert w + "" == w;
        FirstWord(w, "", p);
      } else {
        assert w + (" " + Join(more, " ")) == w + " " + Join(more, " ");
        FirstWord(w, " " + Join(more, " "), p);
        LeadingSpace(Join(more, " "), p);
      }
    }
  }

  lemma {:induction false} JoinIsTrimmed(words: seq<string>, p: char -> bool)
    requires words != [] && forall w :: w in words ==> IsWord(w, p)
    ensures var s := Join(words, " "); 0 < |words[0]| <= |s| && s[..|words[0]|] == words[0] && !p(s[0]) && !p(s[|s| - 1])
  {
    var w := words[0];
    assert w in words && w[0] in w && w[|w| - 1] in w;
    if |words| > 1 {
      assert forall v :: v in words[1..] ==> v in words;
      JoinIsTrimmed(words[1..], p);
      var rest := Join(words[1..], " ");
      assert Join(words, " ") == w + " " + rest;
    }
  }

  // ----- Separators

  lemma LastSplit(a: string, b: string, s: string, t: string, c: char)
    requires a + [c] + s == b + [c] + t && c !in s && c !in t
    ensures a == b && s == t
  {
    var whole := a + [c] + s;
    assert whole[|a|] == c && whole[|b|] == c;
    assert whole[..|a|] == a && whole[..|b|] == b;
    assert whole[|a| + 1..] == s && whole[|b| + 1..] == t;
  }

  lemma FirstSplit(a: string, b: string, s: string, t: string, c: char)
    requires a + [c] + s == b + [c] + t && c !in a && c !in b
    ensures a == b && s == t
  {
    var whole := a + [c] + s;
    assert whole[|a|] == c && whole[|b|] == c;
    assert whole[..|a|] == a && whole[..|b|] == b;
    assert whole[|a| + 1..] == s && whole[|b| + 1..] == t;
  }

  ghost predicate NoneEmpty(parts: seq<string>) {
    forall part :: part in parts ==> part != ""
  }

  /** What follows the first part in the joined text. */
  function AfterFirst(parts: seq<string>): string
    requires parts != []
  {
    if |parts| == 1 then "" else "|" + Join(parts[1..], "|")
  }

  lemma JoinStarts(parts: seq<string>)
    requires parts != []
    ensures Join(parts, "|") == parts[0] + AfterFirst(parts)
  {
  }

  /** Where two lists with the same joined text first differ, one part goes on
      behind the other with a bar. */
  lemma {:induction false} FirstDifference(p: seq<string>, q: seq<string>) returns (k: nat)
    requires p != q && NoneEmpty(p) && NoneEmpty(q) && Join(p, "|") == Join(q, "|")
    ensures k < |p| && k < |q| && (StartsWith(q[k], p[k] + "|") || StartsWith(p[k], q[k] + "|"))
    decreases |p|
  {
    if p != [] {
      assert p[0] in p;
    }
    if q != [] {
      assert q[0] in q;
    }
    JoinStarts(p);
    JoinStarts(q);
    if p[0] == q[0] {
      assert AfterFirst(p) == (p[0] + AfterFirst(p))[|p[0]|..] == (q[0] + AfterFirst(q))[|q[0]|..] == AfterFirst(q);
      assert p == [p[0]] + p[1..] && q == [q[0]] + q[1..];
      assert |p| > 1 ==> AfterFirst(p)[1..] == Join(p[1..], "|");
      assert |q| > 1 ==> AfterFirst(q)[1..] == Join(q[1..], "|");
      assert NoneEmpty(p[1..]) && NoneEmpty(q[1..]) by {
        assert forall part :: part in p[1..] ==> part in p;
        assert forall part :: part in q[1..] ==> part in q;
      }
      k := FirstDifference(p[1..], q[1..]);
      k := k + 1;
    } else {
      k := 0;
      LongerGoesOn(p[0], q[0], AfterFirst(p), AfterFirst(q));
    }
  }

  lemma LongerGoesOn(a: string, b: string, s: string, t: string)
    requires a != b && a + s == b + t
    requires (s != "" ==> s[0] == '|') && (t != "" ==> t[0] == '|')
    ensures StartsWith(b, a + "|") || StartsWith(a, b + "|")
  {
    var whole := a + s;
    assert whole[..|a|] == a && whole[..|b|] == b;
    if |a| < |b| {
      assert whole[|a|] == s[0] == '|' && b[|a|] == whole[|a|];
      assert b[..|a| + 1] == whole[..|a| + 1] == a + "|";
    } else if |b| < |a| {
      assert whole[|b|] == t[0] == '|' && a[|b|] == whole[|b|];
      assert a[..|b| + 1] == whole[..|b| + 1] == b + "|";
    }
  }

  // ----- Occurrences

  /** Does `pattern` occur in `s` at position `i`? */
  predicate OccursAt(s: string, pattern: string, i: nat) {
    i + |pattern| <= |s| && s[i..i + |pattern|] == pattern
  }

  predicate Contains(s: string, pattern: string) {
    exists i | 0 <= i <= |s| :: OccursAt(s, pattern, i)
  }

  /** The first occurrence at or after `from`. */
  function Find(s: string, pattern: string, from: nat): (r: Option<nat>)
    ensures r.Some? ==> from <= r.value && OccursAt(s, pattern, r.value)
    ensures r.Some? ==> forall i :: from <= i < r.value ==> !OccursAt(s, pattern, i)
    ensures r.None? ==> forall i :: from <= i ==> !OccursAt(s, pattern, i)
    decreases |s| - from
  {
    if from + |pattern| > |s| then None
    else if s[from..from + |pattern|] == pattern then Some(from)
    else Find(s, pattern, from + 1)
  }
}
