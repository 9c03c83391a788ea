/** The markers a review comment carries in its text (crates/cli/src/ci.rs). */
module Markers {
  import opened Wrappers
  import opened Text

  const RESOLVED: string := "fallow-resolved-fingerprint:"
  const FINGERPRINT: string := "fallow-fingerprint:"
  const FINGERPRINT_V2: string := "fallow-fingerprint:v2:"

  predicate IsDash(c: char) {
    c == '-'
  }

  predicate EndsValue(c: char) {
    IsAsciiSpace(c) || c == '<'
  }

  /** The second piece of body.split(marker). */
  function AfterMarker(body: string, marker: string): Option<string> {
    match Find(body, marker, 0)
    case None => None
    case Some(i) =>
      var rest := body[i + |marker|..];
      match Find(rest, marker, 0)
      case None => Some(rest)
      case Some(j) => Some(rest[..j])
  }

  function MarkerValue(piece: string): string {
    Trim(Trim(UpTo(TrimStart(piece, IsSpace), EndsValue), IsDash), IsSpace)
  }

  function ExtractMarker(body: string, marker: string): Option<string> {
    match AfterMarker(body, marker)
    case None => None
    case Some(piece) => if MarkerValue(piece) == "" then None else Some(MarkerValue(piece))
  }

  function ExtractFingerprint(body: string): Option<string> {
    if ExtractMarker(body, FINGERPRINT_V2).Some? then ExtractMarker(body, FINGERPRINT_V2)
    else ExtractMarker(body, FINGERPRINT)
  }

  function ShortSha(sha: Option<string>): Option<string> {
    if sha.Some? && |sha.value| >= 7 then Some(sha.value[..7]) else None
  }

  function ResolvedKey(fingerprint: string, sha: Option<string>): string {
    match ShortSha(sha)
    case Some(short) => fingerprint + "@" + short
    case None => fingerprint
  }

  function BodyHead(sha: Option<string>): string {
    match ShortSha(sha)
    case Some(short) => "Resolved in `" + short + "`.\n\n<!-- "
    case None => "Resolved.\n\n<!-- "
  }

  function ResolvedBody(fingerprint: string, sha: Option<string>): string {
    BodyHead(sha) + RESOLVED + " " + ResolvedKey(fingerprint, sha) + " -->"
  }

  // ----- Trimming

  lemma {:induction false} TrimStartFacts(s: string, p: char -> bool)
    ensures var r := TrimStart(s, p);
            && |r| <= |s| && s[|s| - |r|..] == r
            && (r != [] ==> !p(r[0]))
            && (|r| == |s| <==> s == [] || !p(s[0]))
    decreases |s|
  {
    if s != [] && p(s[0]) {
      TrimStartFacts(s[1..], p);
    }
  }

  lemma {:induction false} TrimEndFacts(s: string, p: char -> bool)
    ensures var r := TrimEnd(s, p);
            && |r| <= |s| && s[..|r|] == r
            && (r != [] ==> !p(r[|r| - 1]))
            && (|r| == |s| <==> s == [] || !p(s[|s| - 1]))
    decreases |s|
  {
    if s != [] && p(s[|s| - 1]) {
      TrimEndFacts(s[..|s| - 1], p);
      assert s[..|s| - 1][..|TrimEnd(s, p)|] == s[..|TrimEnd(s, p)|];
    }
  }

  lemma TrimFacts(s: string, p: char -> bool)
    ensures var r := Trim(s, p);
            && |r| <= |s| && (forall k :: 0 <= k < |r| ==> r[k] in s)
            && (r != [] ==> !p(r[0]) && !p(r[|r| - 1]))
            && (|r| == |s| <==> s == [] || (!p(s[0]) && !p(s[|s| - 1])))
            && (|r| == |s| ==> r == s)
  {
    var t := TrimStart(s, p);
    TrimStartFacts(s, p);
    TrimEndFacts(t, p);
    var r := Trim(s, p);
    assert t == s[|s| - |t|..] && r == t[..|r|];
    forall k | 0 <= k < |r|
      ensures r[k] in s
    {
      assert r[k] == t[k] == s[|s| - |t| + k];
    }
    if t != [] {
      assert t[|t| - 1] == s[|s| - 1];
    }
    if |t| == |s| {
      assert t == s;
    }
  }

  // ----- Where a marker can occur

  lemma OccursChars(s: string, pattern: string, i: nat)
    requires OccursAt(s, pattern, i)
    ensures forall k :: 0 <= k < |pattern| ==> s[i + k] == pattern[k]
  {
    forall k | 0 <= k < |pattern|
      ensures s[i + k] == pattern[k]
    {
      assert s[i + k] == s[i..i + |pattern|][k];
    }
  }

  predicate IsHex(c: char) {
    '0' <= c <= '9' || 'a' <= c <= 'f'
  }

  /** Commit ids are hexadecimal. */
  predicate HexSha(sha: Option<string>) {
    sha.Some? ==> forall k :: 0 <= k < |sha.value| ==> IsHex(sha.value[k])
  }

  lemma HeadChars(sha: Option<string>, i: nat)
    requires HexSha(sha) && i < |BodyHead(sha)|
    ensures BodyHead(sha)[i] != ':'
    ensures |BodyHead(sha)| - 9 < i ==> BodyHead(sha)[i] != 'f'
    ensures ShortSha(sha).None? ==> BodyHead(sha)[i] != 'f'
    ensures ShortSha(sha).Some? ==> |BodyHead(sha)| == 29 && BodyHead(sha)[20] == '`'
  {
    var head := BodyHead(sha);
    if ShortSha(sha).Some? {
      var short := ShortSha(sha).value;
      assert |head| == 29;
      assert 13 <= i < 20 ==> head[i] == short[i - 13] && IsHex(short[i - 13]);
      assert i < 13 ==> head[i] == "Resolved in `"[i];
      assert i >= 20 ==> head[i] == "`.\n\n<!-- "[i - 20];
    } else {
      assert head[i] == "Resolved.\n\n<!-- "[i];
    }
  }

  lemma HexDigits(c: char)
    ensures IsHex(c) <==> c in "0123456789abcdef"
  {
    var digits := "0123456789abcdef";
    assert forall k :: 0 <= k < 10 ==> digits[k] as int == 48 + k;
    assert forall k :: 10 <= k < 16 ==> digits[k] as int == 87 + k;
    if '0' <= c <= '9' {
      assert digits[c as int - 48] == c;
    } else if 'a' <= c <= 'f' {
      assert digits[c as int - 87] == c;
    }
  }

  /** With a commit id of at least seven digits the key tells the fingerprint and those
      seven; with a shorter one or none it is the fingerprint. */
  lemma ResolvedKeysAgreeIff(fingerprint: string, sha: string, other: string, later: string)
    requires HexSha(Some(sha)) && HexSha(Some(later)) && |sha| >= 7 && |later| >= 7
    ensures ResolvedKey(fingerprint, Some(sha)) == ResolvedKey(other, Some(later))
       <==> fingerprint == other && sha[..7] == later[..7]
    ensures ResolvedKey(fingerprint, Some(sha[..6])) == ResolvedKey(fingerprint, None) == fingerprint
  {
    var a, b := sha[..7], later[..7];
    assert forall k :: 0 <= k < 7 ==> IsHex(a[k]) && IsHex(b[k]) && a[k] == sha[k] && b[k] == later[k];
    if ResolvedKey(fingerprint, Some(sha)) == ResolvedKey(other, Some(later)) {
      assert ResolvedKey(fingerprint, Some(sha)) == fingerprint + ['@'] + a;
      assert ResolvedKey(other, Some(later)) == other + ['@'] + b;
      LastSplit(fingerprint, other, a, b, '@');
    }
  }

  /** In a reply the resolved marker comes first where it was printed. */
  lemma MarkerIsWhereItWasPrinted(sha: Option<string>, tail: string)
    requires HexSha(sha)
    ensures Find(BodyHead(sha) + RESOLVED + tail, RESOLVED, 0) == Some(|BodyHead(sha)|)
  {
    var head := BodyHead(sha);
    var body := head + RESOLVED + tail;
    assert body[|head|..|head| + |RESOLVED|] == RESOLVED;
    assert OccursAt(body, RESOLVED, |head|);
    forall i | 0 <= i < |head|
      ensures !OccursAt(body, RESOLVED, i)
    {
      NotInHead(sha, tail, i);
    }
  }

  lemma NotInHead(sha: Option<string>, tail: string, i: nat)
    requires HexSha(sha) && i < |BodyHead(sha)|
    ensures !OccursAt(BodyHead(sha) + RESOLVED + tail, RESOLVED, i)
  {
    var head := BodyHead(sha);
    var body := head + RESOLVED + tail;
    HeadChars(sha, i);
    hide BodyHead;
    assert body[i] == head[i];
    assert ShortSha(sha).Some? ==> body[20] == head[20];
    if OccursAt(body, RESOLVED, i) {
      OccursChars(body, RESOLVED, i);
      assert body[i + 0] == RESOLVED[0] == 'f';
      NoBacktick(body, i);
    }
  }

  lemma NoBacktick(body: string, i: nat)
    requires OccursAt(body, RESOLVED, i)
    ensures forall j :: i <= j < i + |RESOLVED| ==> body[j] != '`'
  {
    OccursChars(body, RESOLVED, i);
    forall j | i <= j < i + |RESOLVED|
      ensures body[j] != '`'
    {
      assert body[i + (j - i)] == RESOLVED[j - i];
    }
  }

  predicate IsMarker(marker: string) {
    marker == RESOLVED || marker == FINGERPRINT || marker == FINGERPRINT_V2
  }

  /** Behind the printed marker another one occurs only inside the key. */
  lemma MarkerInsideKey(key: string, marker: string, i: nat)
    requires IsMarker(marker)
    requires OccursAt(" " + key + " -->", marker, i)
    ensures i > 0 && OccursAt(key, marker, i - 1)
  {
    var s := " " + key + " -->";
    var n := |marker|;
    OccursChars(s, marker, i);
    assert s[i + 0] == marker[0] == 'f';
    assert s[i + (n - 1)] == marker[n - 1] == ':';
    assert i + n - 1 < 1 + |key| by {
      assert forall k :: 1 + |key| <= k < |s| ==> s[k] == " -->"[k - 1 - |key|];
    }
    assert key[i - 1..i - 1 + n] == s[i..i + n];
  }

  // ----- The round trip, exactly when it holds

  /** A value that is read back from behind `marker` as it was written. */
  predicate ReadsBack(value: string, marker: string) {
    && value != ""
    && (forall k :: 0 <= k < |value| ==> !EndsValue(value[k]))
    && !Contains(value, marker)
    && !IsSpace(value[0]) && !IsSpace(value[|value| - 1])
    && !IsDash(value[0]) && !IsDash(value[|value| - 1])
  }

  /** A key that is read back from a reply as it was written. */
  predicate Survives(key: string) {
    ReadsBack(key, RESOLVED)
  }

  /** ASCII white space and the less-than sign. */
  const SEPARATORS: string := " \t\n\U{0C}\r<"

  lemma {:induction false} UpToWhole(s: string, rest: string, p: char -> bool)
    requires rest != [] && p(rest[0]) && forall k :: 0 <= k < |s| ==> !p(s[k])
    ensures UpTo(s + rest, p) == s
    decreases |s|
  {
    if s == [] {
      assert s + rest == rest;
    } else {
      UpToWhole(s[1..], rest, p);
      assert (s + rest)[1..] == s[1..] + rest;
    }
  }

  /** The value read from the text right behind the printed marker. */
  lemma ValueOfPlainKey(key: string)
    requires key != "" && !IsSpace(key[0]) && forall k :: 0 <= k < |key| ==> !EndsValue(key[k])
    ensures MarkerValue(" " + key + " -->") == Trim(Trim(key, IsDash), IsSpace)
  {
    var s := " " + key + " -->";
    assert s[1..] == key + " -->";
    assert s[1..][0] == key[0];
    assert TrimStart(s, IsSpace) == TrimStart(s[1..], IsSpace) == s[1..];
    UpToWhole(key, " -->", EndsValue);
  }

  lemma TrimTwice(v: string)
    ensures var r := Trim(Trim(v, IsDash), IsSpace);
            && |r| <= |v| && (forall k :: 0 <= k < |r| ==> r[k] in v)
            && (r != [] ==> !IsSpace(r[0]) && !IsSpace(r[|r| - 1]))
            && (r == v && v != [] ==> !IsDash(v[0]) && !IsDash(v[|v| - 1]))
            && (v != [] && !IsDash(v[0]) && !IsDash(v[|v| - 1]) && !IsSpace(v[0]) && !IsSpace(v[|v| - 1]) ==> r == v)
  {
    var d := Trim(v, IsDash);
    TrimFacts(v, IsDash);
    TrimFacts(d, IsSpace);
    forall k | 0 <= k < |Trim(d, IsSpace)|
      ensures Trim(d, IsSpace)[k] in v
    {
      var j :| 0 <= j < |d| && d[j] == Trim(d, IsSpace)[k];
    }
  }

  /** What a value can be, whatever the text. */
  lemma ValueFacts(piece: string)
    ensures var r := MarkerValue(piece);
            && (forall k :: 0 <= k < |r| ==> !EndsValue(r[k]))
            && (r != [] ==> !IsSpace(r[0]) && !IsSpace(r[|r| - 1]))
            && (piece != [] && IsSpace(piece[0]) ==> |r| <= |piece| - 1)
  {
    var rest := TrimStart(piece, IsSpace);
    var v := UpTo(rest, EndsValue);
    TrimStartFacts(piece, IsSpace);
    UpToIsPrefix(rest, EndsValue);
    TrimTwice(v);
    var r := MarkerValue(piece);
    forall k | 0 <= k < |r|
      ensures !EndsValue(r[k])
    {
      var j :| 0 <= j < |v| && v[j] == r[k];
      assert v[j] == rest[j];
    }
  }

  /** The value read from ` key -->` behind a marker. */
  function ValueBehind(key: string, marker: string): string {
    var tail := " " + key + " -->";
    MarkerValue(if Find(tail, marker, 0).Some? then tail[..Find(tail, marker, 0).value] else tail)
  }

  lemma ReadFromReply(fingerprint: string, sha: Option<string>)
    requires HexSha(sha)
    ensures var v := ValueBehind(ResolvedKey(fingerprint, sha), RESOLVED);
            ExtractMarker(ResolvedBody(fingerprint, sha), RESOLVED) == if v == "" then None else Some(v)
  {
    hide BodyHead;
    hide MarkerValue;
    hide Find;
    var tail := " " + ResolvedKey(fingerprint, sha) + " -->";
    var body := ResolvedBody(fingerprint, sha);
    assert body == BodyHead(sha) + RESOLVED + tail;
    MarkerIsWhereItWasPrinted(sha, tail);
    assert body[|BodyHead(sha)| + |RESOLVED|..] == tail;
  }

  /** A reply's marker is read back as its key exactly when the key survives. */
  lemma MarkerRoundTripIff(fingerprint: string, sha: Option<string>)
    requires HexSha(sha)
    ensures ExtractMarker(ResolvedBody(fingerprint, sha), RESOLVED) == Some(ResolvedKey(fingerprint, sha))
            <==> Survives(ResolvedKey(fingerprint, sha))
  {
    hide ResolvedBody;
    hide ExtractMarker;
    hide ValueBehind;
    hide ReadsBack;
    ReadFromReply(fingerprint, sha);
    KeyRoundTrip(ResolvedKey(fingerprint, sha), RESOLVED);
  }

  lemma KeyRoundTrip(key: string, marker: string)
    requires IsMarker(marker)
    ensures ValueBehind(key, marker) == key && key != "" <==> ReadsBack(key, marker)
  {
    var tail := " " + key + " -->";
    var found := Find(tail, marker, 0);
    if found.Some? {
      MarkerInsideKey(key, marker, found.value);
      assert Contains(key, marker);
      ValueFacts(tail[..found.value]);
      assert |MarkerValue(tail[..found.value])| < |key|;
    } else {
      NoMarkerInKey(key, marker);
      ValueFacts(tail);
      TrimTwice(key);
      if key != "" && !IsSpace(key[0]) && forall k :: 0 <= k < |key| ==> !EndsValue(key[k]) {
        ValueOfPlainKey(key);
      }
    }
  }

  lemma NoMarkerInKey(key: string, marker: string)
    requires Find(" " + key + " -->", marker, 0).None?
    ensures !Contains(key, marker)
  {
    if i :| 0 <= i <= |key| && OccursAt(key, marker, i) {
      var tail := " " + key + " -->";
      assert tail[i + 1..i + 1 + |marker|] == key[i..i + |marker|];
      assert OccursAt(tail, marker, i + 1);
    }
  }

  /** With a commit id the key survives exactly when the fingerprint has no white
      space or '<' in it, does not start with a dash or a space, and does not
      contain the marker. */
  lemma KeySurvivesIff(fingerprint: string, sha: Option<string>)
    requires HexSha(sha) && ShortSha(sha).Some?
    ensures Survives(ResolvedKey(fingerprint, sha))
            <==> && (forall k :: 0 <= k < |fingerprint| ==> fingerprint[k] !in SEPARATORS)
                 && !Contains(fingerprint, RESOLVED)
                 && (fingerprint != "" ==> !IsSpace(fingerprint[0]) && fingerprint[0] != '-')
  {
    var short := ShortSha(sha).value;
    var key := ResolvedKey(fingerprint, sha);
    FingerprintStartsKey(fingerprint, sha);
    assert key[|fingerprint|] == '@' && key[|key| - 1] == short[6];
    HexIsPlain(short[6]);
    hide ResolvedKey;
    if i :| 0 <= i <= |key| && OccursAt(key, RESOLVED, i) {
      MarkerBeforeSha(fingerprint, sha, i);
      assert key[i..i + |RESOLVED|] == fingerprint[i..i + |RESOLVED|];
      assert OccursAt(fingerprint, RESOLVED, i);
    }
    hide HexSha;
    hide OccursAt;
  }

  // ----- What is read when the key does not survive

  /** The marker occurs in the key only where it occurs in the fingerprint. */
  lemma MarkerBeforeSha(fingerprint: string, sha: Option<string>, i: nat)
    requires HexSha(sha) && ShortSha(sha).Some? && OccursAt(ResolvedKey(fingerprint, sha), RESOLVED, i)
    ensures i + |RESOLVED| <= |fingerprint|
  {
    var short := ShortSha(sha).value;
    var key := ResolvedKey(fingerprint, sha);
    var n := |fingerprint|;
    OccursChars(key, RESOLVED, i);
    var last := |RESOLVED| - 1;
    assert key[i + last] == ':';
    assert key[n] == '@';
    assert forall k :: n < k < |key| ==> key[k] == short[k - n - 1] && IsHex(short[k - n - 1]);
  }

  /** A text that is a suffix of itself followed by `t` is made of characters of `t`. */
  lemma {:induction false} SuffixOfItself(f: string, t: string, j: nat)
    requires |t| > 0 && j < |f| && (f + t)[|t|..] == f
    ensures f[j] in t
    decreases |f| - j
  {
    var s := f + t;
    assert f[j] == s[|t|..][j] == s[j + |t|];
    if j + |t| < |f| {
      assert s[j + |t|] == f[j + |t|];
      SuffixOfItself(f, t, j + |t|);
    } else {
      assert s[j + |t|] == t[j + |t| - |f|];
    }
  }

  lemma TrimOfGoodEnd(s: string, p: char -> bool)
    requires s != "" && !p(s[|s| - 1])
    ensures var r := Trim(s, p); 0 < |r| <= |s| && r == s[|s| - |r|..]
  {
    var t := TrimStart(s, p);
    TrimStartKeepsEnd(s, p);
    TrimEndFacts(t, p);
  }

  lemma {:induction false} TrimStartKeepsEnd(s: string, p: char -> bool)
    requires s != "" && !p(s[|s| - 1])
    ensures var t := TrimStart(s, p); 0 < |t| <= |s| && t == s[|s| - |t|..] && !p(t[|t| - 1])
    decreases |s|
  {
    if p(s[0]) {
      TrimStartKeepsEnd(s[1..], p);
      var t := TrimStart(s[1..], p);
      assert s[1..][|s| - 1 - |t|..] == s[|s| - |t|..];
    }
  }

  /** Leading dashes are lost: what is left is never the fingerprint. */
  lemma DashedIsNotRead(fingerprint: string, sha: Option<string>)
    requires HexSha(sha) && ShortSha(sha).Some?
    requires fingerprint != "" && IsDash(fingerprint[0])
    ensures Trim(Trim(ResolvedKey(fingerprint, sha), IsDash), IsSpace) != fingerprint
  {
    hide Trim;
    var short := ShortSha(sha).value;
    var t := "@" + short;
    var key := fingerprint + t;
    assert ResolvedKey(fingerprint, sha) == key && key[|key| - 1] == short[6];
    HexIsPlain(short[6]);
    var d := Trim(key, IsDash);
    var v := Trim(d, IsSpace);
    TrimOfGoodEnd(key, IsDash);
    TrimOfGoodEnd(d, IsSpace);
    assert v == key[|key| - |v|..];
    assert v == fingerprint ==> key[8..] == fingerprint;
    DashNotInShort(t, short);
    hide ResolvedKey;
    if v == fingerprint {
      SuffixOfItself(fingerprint, t, 0);
    }
  }

  lemma HexIsPlain(c: char)
    requires IsHex(c)
    ensures !IsSpace(c) && !IsDash(c)
  {
  }

  lemma DashNotInShort(t: string, short: string)
    requires t == "@" + short && forall k :: 0 <= k < |short| ==> IsHex(short[k])
    ensures '-' !in t
  {
    forall k | 0 <= k < |t|
      ensures t[k] != '-'
    {
      if k > 0 {
        assert t[k] == short[k - 1];
      }
    }
  }

  /** When the key does not survive, neither the key nor the fingerprint is read. */
  lemma UnreadableIsReadAsNeither(fingerprint: string, sha: Option<string>)
    requires HexSha(sha) && !Survives(ResolvedKey(fingerprint, sha))
    ensures ExtractMarker(ResolvedBody(fingerprint, sha), RESOLVED) != Some(ResolvedKey(fingerprint, sha))
    ensures ExtractMarker(ResolvedBody(fingerprint, sha), RESOLVED) != Some(fingerprint)
  {
    MarkerRoundTripIff(fingerprint, sha);
    if ShortSha(sha).Some? {
      hide ResolvedBody;
      hide ExtractMarker;
      ReadFromReply(fingerprint, sha);
      ValueIsNotFingerprint(fingerprint, sha);
      hide Survives;
      hide ValueBehind;
    }
  }

  lemma ValueIsNotFingerprint(fingerprint: string, sha: Option<string>)
    requires HexSha(sha) && ShortSha(sha).Some? && !Survives(ResolvedKey(fingerprint, sha))
    ensures ValueBehind(ResolvedKey(fingerprint, sha), RESOLVED) != fingerprint
  {
    hide MarkerValue;
    hide ResolvedKey;
    var key := ResolvedKey(fingerprint, sha);
    var tail := " " + key + " -->";
    var found := Find(tail, RESOLVED, 0);
    KeySurvivesIff(fingerprint, sha);
    hide Survives;
    if found.Some? {
      MarkerInsideKey(key, RESOLVED, found.value);
      MarkerBeforeSha(fingerprint, sha, found.value - 1);
      ValueFacts(tail[..found.value]);
    } else {
      NoMarkerInKey(key, RESOLVED);
      FingerprintStartsKey(fingerprint, sha);
      ValueFacts(tail);
      if fingerprint != "" && !IsSpace(fingerprint[0]) && forall k :: 0 <= k < |fingerprint| ==> !EndsValue(fingerprint[k]) {
        ValueOfPlainKey(key);
        DashedIsNotRead(fingerprint, sha);
      }
    }
  }

  lemma FingerprintStartsKey(fingerprint: string, sha: Option<string>)
    requires HexSha(sha) && ShortSha(sha).Some?
    ensures var key := ResolvedKey(fingerprint, sha);
            && |fingerprint| < |key| && (forall k :: 0 <= k < |fingerprint| ==> key[k] == fingerprint[k])
            && (forall k :: |fingerprint| <= k < |key| ==> !EndsValue(key[k]))
            && (!Contains(key, RESOLVED) ==> !Contains(fingerprint, RESOLVED))
  {
    var short := ShortSha(sha).value;
    var key := ResolvedKey(fingerprint, sha);
    var n := |fingerprint|;
    assert key[n] == '@';
    assert forall k :: n < k < |key| ==> key[k] == short[k - n - 1] && IsHex(short[k - n - 1]);
    if i :| 0 <= i <= n && OccursAt(fingerprint, RESOLVED, i) {
      assert key[i..i + |RESOLVED|] == fingerprint[i..i + |RESOLVED|];
      assert OccursAt(key, RESOLVED, i);
    }
  }

  // ----- Fingerprints that come from comments

  /** A fingerprint whose replies are read back: it has no marker in it and no dash
      at its ends. Without a commit id the key is the bare fingerprint. */
  predicate Safe(fingerprint: string, sha: Option<string>) {
    && fingerprint != "" && !Contains(fingerprint, RESOLVED) && fingerprint[0] != '-'
    && (ShortSha(sha).None? ==> fingerprint[|fingerprint| - 1] != '-')
  }

  /** For a fingerprint read from a comment, the only kind there is on the provider's
      side, its key survives exactly when the fingerprint is safe. */
  lemma ReceivedSurvivesIffSafe(body: string, fingerprint: string, sha: Option<string>)
    requires HexSha(sha) && ExtractFingerprint(body) == Some(fingerprint)
    ensures Survives(ResolvedKey(fingerprint, sha)) <==> Safe(fingerprint, sha)
  {
    ReceivedFacts(body, fingerprint);
    hide ExtractFingerprint;
    hide Contains;
    hide IsSpace;
    if ShortSha(sha).Some? {
      KeySurvivesIff(fingerprint, sha);
      hide Survives;
      hide EndsValue;
    }
  }

  lemma ReceivedFacts(body: string, fingerprint: string)
    requires ExtractFingerprint(body) == Some(fingerprint)
    ensures fingerprint != "" && !IsSpace(fingerprint[0]) && !IsSpace(fingerprint[|fingerprint| - 1])
    ensures forall k :: 0 <= k < |fingerprint| ==> !EndsValue(fingerprint[k]) && fingerprint[k] !in SEPARATORS
  {
    var marker := if ExtractMarker(body, FINGERPRINT_V2).Some? then FINGERPRINT_V2 else FINGERPRINT;
    ValueFacts(AfterMarker(body, marker).value);
    hide AfterMarker;
    hide MarkerValue;
  }

  /** The value behind a marker that is printed once in a comment. */
  lemma PrintedMarkerIsRead(fingerprint: string, marker: string)
    requires marker == FINGERPRINT || marker == FINGERPRINT_V2
    requires ReadsBack(fingerprint, marker)
    ensures ExtractMarker("<!-- " + marker + " " + fingerprint + " -->", marker) == Some(fingerprint)
  {
    var head, tail := "<!-- ", " " + fingerprint + " -->";
    var body := head + marker + tail;
    assert body == "<!-- " + marker + " " + fingerprint + " -->";
    assert body[5..5 + |marker|] == marker && body[5 + |marker|..] == tail;
    forall i: nat | OccursAt(body, marker, i)
      ensures i == 5
    {
      OnlyWherePrinted(fingerprint, marker, i);
    }
    FoundOnce(body, marker, 5);
    KeyRoundTrip(fingerprint, marker);
    hide Find;
    hide MarkerValue;
    hide ReadsBack;
  }

  lemma FoundOnce(body: string, marker: string, at: nat)
    requires OccursAt(body, marker, at) && forall i: nat :: i < at ==> !OccursAt(body, marker, i)
    ensures Find(body, marker, 0) == Some(at)
  {
  }

  lemma NotFound(body: string, marker: string)
    requires forall i: nat :: !OccursAt(body, marker, i)
    ensures Find(body, marker, 0) == None
  {
  }

  /** A comment that prints a plain fingerprint is read as carrying it. */
  lemma PrintedCommentIsRead(fingerprint: string)
    requires ReadsBack(fingerprint, FINGERPRINT)
    ensures ExtractFingerprint("<!-- " + FINGERPRINT + " " + fingerprint + " -->") == Some(fingerprint)
  {
    var tail := " " + fingerprint + " -->";
    var body := "<!-- " + FINGERPRINT + tail;
    assert body == "<!-- " + FINGERPRINT + " " + fingerprint + " -->";
    assert body[5 + |FINGERPRINT|] == ' ';
    forall i: nat
      ensures !OccursAt(body, FINGERPRINT_V2, i)
    {
      if OccursAt(body, FINGERPRINT_V2, i) {
        V2ContainsV1(body, i);
        V2HasNoSpace(body, i);
        OnlyWherePrinted(fingerprint, FINGERPRINT, i);
      }
    }
    NotFound(body, FINGERPRINT_V2);
    PrintedMarkerIsRead(fingerprint, FINGERPRINT);
    hide Find;
    hide MarkerValue;
    hide ReadsBack;
  }

  /** So is one that prints the versioned marker, whichever other marker the
      fingerprint has in it. */
  lemma PrintedVersionedIsRead(fingerprint: string)
    requires ReadsBack(fingerprint, FINGERPRINT_V2)
    ensures ExtractFingerprint("<!-- " + FINGERPRINT_V2 + " " + fingerprint + " -->") == Some(fingerprint)
  {
    PrintedMarkerIsRead(fingerprint, FINGERPRINT_V2);
    hide ExtractMarker;
    hide ReadsBack;
  }

  lemma V2HasNoSpace(body: string, i: nat)
    requires OccursAt(body, FINGERPRINT_V2, i)
    ensures i + |FINGERPRINT_V2| <= |body| && body[i + |FINGERPRINT|] == 'v'
  {
    OccursChars(body, FINGERPRINT_V2, i);
    assert body[i + 19] == FINGERPRINT_V2[19];
  }

  lemma MarkerHasNoSpace(body: string, marker: string, i: nat)
    requires IsMarker(marker) && OccursAt(body, marker, i)
    ensures forall j :: i <= j < i + |marker| ==> body[j] != ' '
  {
    OccursChars(body, marker, i);
    NoSpaceInMarker(marker);
    forall j | i <= j < i + |marker|
      ensures body[j] != ' '
    {
      assert body[i + (j - i)] == marker[j - i];
    }
  }

  lemma OnlyWherePrinted(fingerprint: string, marker: string, i: nat)
    requires IsMarker(marker) && !Contains(fingerprint, marker)
    requires OccursAt("<!-- " + marker + (" " + fingerprint + " -->"), marker, i)
    ensures i == 5
  {
    hide Contains;
    var tail := " " + fingerprint + " -->";
    var body := "<!-- " + marker + tail;
    var n := |marker|;
    NoSpaceInMarker(marker);
    NotBehindPrinted(fingerprint, marker, i);
    OccursChars(body, marker, i);
    MarkerHasNoSpace(body, marker, i);
    ConcatChars("<!-- ", marker, tail);
    assert body[i + 0] == 'f' && i + n <= |body|;
    hide OccursAt;
    hide IsMarker;
    assert body[5 + n] == ' ';
  }

  lemma NotBehindPrinted(fingerprint: string, marker: string, i: nat)
    requires IsMarker(marker) && !Contains(fingerprint, marker)
    requires OccursAt("<!-- " + marker + (" " + fingerprint + " -->"), marker, i)
    ensures i < 5 + |marker|
  {
    hide IsMarker;
    hide Contains;
    var tail := " " + fingerprint + " -->";
    var body := "<!-- " + marker + tail;
    var m := 5 + |marker|;
    if i >= m {
      assert body[m..] == tail;
      assert tail[i - m..i - m + |marker|] == body[i..i + |marker|];
      MarkerInsideKey(fingerprint, marker, i - m);
      ContainsAt(fingerprint, marker, i - m - 1);
    }
  }

  lemma ContainsAt(s: string, pattern: string, i: nat)
    requires OccursAt(s, pattern, i)
    ensures Contains(s, pattern)
  {
  }

  /** A comment that the program reads as a fingerprint which is not safe. */
  const UNSAFE: string := RESOLVED + "x"

  lemma UnsafeLetters()
    ensures |UNSAFE| == 29 && UNSAFE[28] == 'x' && UNSAFE[0] == 'f' && UNSAFE[9] == 's'
    ensures forall k :: 0 <= k < |UNSAFE| ==> !EndsValue(UNSAFE[k])
    ensures forall k :: 0 <= k < |UNSAFE| && k != 27 ==> UNSAFE[k] != ':'
  {
    assert UNSAFE == "fallow-resolved-fingerprint:x";
  }

  lemma UnsafeReadsBack()
    ensures ReadsBack(UNSAFE, FINGERPRINT)
  {
    UnsafeLetters();
    MarkerLetters();
    forall i: nat
      ensures !OccursAt(UNSAFE, FINGERPRINT, i)
    {
      if OccursAt(UNSAFE, FINGERPRINT, i) {
        FingerprintEnds(UNSAFE, i);
      }
    }
  }

  lemma FingerprintEnds(s: string, i: nat)
    requires OccursAt(s, FINGERPRINT, i)
    ensures i + 19 <= |s| && s[i] == 'f' && s[i + 18] == ':'
  {
    OccursChars(s, FINGERPRINT, i);
    assert s[i + 0] == FINGERPRINT[0] && s[i + 18] == FINGERPRINT[18];
  }

  lemma UnsafeIsReceived()
    ensures ExtractFingerprint("<!-- " + FINGERPRINT + " " + UNSAFE + " -->") == Some(UNSAFE)
    ensures forall sha: Option<string> :: !Safe(UNSAFE, sha)
  {
    assert UNSAFE[0..|RESOLVED|] == RESOLVED;
    ContainsAt(UNSAFE, RESOLVED, 0);
    UnsafeReadsBack();
    hide ReadsBack;
    hide ExtractFingerprint;
    PrintedCommentIsRead(UNSAFE);
  }

  // ----- Replies are not findings

  /** A reply never parses as a fingerprint comment, unless its key contains the
      fingerprint marker. */
  lemma ReplyHasNoFingerprint(fingerprint: string, sha: Option<string>)
    requires HexSha(sha) && !Contains(ResolvedKey(fingerprint, sha), FINGERPRINT)
    ensures ExtractFingerprint(ResolvedBody(fingerprint, sha)) == None
  {
    var key := ResolvedKey(fingerprint, sha);
    var head := BodyHead(sha);
    var body := ResolvedBody(fingerprint, sha);
    forall i | 0 <= i
      ensures !OccursAt(body, FINGERPRINT, i)
    {
      if OccursAt(body, FINGERPRINT, i) {
        FingerprintInsideKey(key, head, body, sha, i);
      }
    }
    forall i | 0 <= i
      ensures !OccursAt(body, FINGERPRINT_V2, i)
    {
      if OccursAt(body, FINGERPRINT_V2, i) {
        V2ContainsV1(body, i);
      }
    }
  }

  lemma FingerprintInsideKey(key: string, head: string, body: string, sha: Option<string>, i: nat)
    requires HexSha(sha) && head == BodyHead(sha) && body == head + RESOLVED + " " + key + " -->"
    requires OccursAt(body, FINGERPRINT, i)
    ensures Contains(key, FINGERPRINT)
  {
    var m := |head| + |RESOLVED|;
    var n := |FINGERPRINT|;
    NotBeforeKey(head, key, body, sha, i);
    var tail := " " + key + " -->";
    assert body[m..] == tail;
    assert tail[i - m..i - m + n] == body[i..i + n];
    MarkerInsideKey(key, FINGERPRINT, i - m);
  }

  lemma V2ContainsV1(body: string, i: nat)
    requires OccursAt(body, FINGERPRINT_V2, i)
    ensures OccursAt(body, FINGERPRINT, i)
  {
    assert FINGERPRINT_V2[..|FINGERPRINT|] == FINGERPRINT;
    assert body[i..i + |FINGERPRINT|] == body[i..i + |FINGERPRINT_V2|][..|FINGERPRINT|];
  }

  lemma NoSpaceInMarker(marker: string)
    requires IsMarker(marker)
    ensures marker != [] && marker[0] == 'f' && forall k :: 0 <= k < |marker| ==> marker[k] != ' '
  {
  }

  lemma MarkerLetters()
    ensures forall k :: 0 <= k < |FINGERPRINT| ==> FINGERPRINT[k] != ' '
    ensures forall k :: 0 <= k < |RESOLVED| - 1 ==> RESOLVED[k] != ':'
    ensures FINGERPRINT[0] == 'f' && FINGERPRINT[|FINGERPRINT| - 1] == ':'
    ensures RESOLVED[|RESOLVED| - |FINGERPRINT|] == 's'
    ensures |FINGERPRINT| == 19 && |RESOLVED| == 28
  {
  }

  lemma ConcatChars(head: string, middle: string, tail: string)
    ensures var s := head + middle + tail;
            && (forall k :: 0 <= k < |head| ==> s[k] == head[k])
            && (forall k :: |head| <= k < |head| + |middle| ==> s[k] == middle[k - |head|])
            && (tail != [] ==> s[|head| + |middle|] == tail[0])
  {
  }

  /** Up to the key, the only colon is the one that ends the printed marker, and
      that marker does not end in the fingerprint marker. */
  lemma NotBeforeKey(head: string, key: string, body: string, sha: Option<string>, i: nat)
    requires HexSha(sha) && head == BodyHead(sha) && body == head + RESOLVED + " " + key + " -->"
    requires OccursAt(body, FINGERPRINT, i)
    ensures i >= |head| + |RESOLVED|
  {
    hide BodyHead;
    hide HexSha;
    assert i + |FINGERPRINT| <= |body|;
    hide OccursAt;
    var m := |head| + |RESOLVED|;
    var n := |FINGERPRINT|;
    var tail := " " + key + " -->";
    assert body == head + RESOLVED + tail;
    ConcatChars(head, RESOLVED, tail);
    OccursChars(body, FINGERPRINT, i);
    MarkerLetters();
    assert tail[0] == ' ';
    if i + n - 1 < |head| {
      HeadChars(sha, i + n - 1);
    }
    assert body[i + (n - 1)] == FINGERPRINT[n - 1];
    assert body[i + 0] == FINGERPRINT[0];
  }

  lemma KeyHasNoFingerprint(fingerprint: string, sha: Option<string>)
    requires HexSha(sha) && !Contains(fingerprint, FINGERPRINT)
    ensures !Contains(ResolvedKey(fingerprint, sha), FINGERPRINT)
  {
    var key := ResolvedKey(fingerprint, sha);
    var n := |fingerprint|;
    if ShortSha(sha).Some? {
      var short := ShortSha(sha).value;
      assert key[n] == '@';
      assert forall k :: n < k < |key| ==> key[k] == short[k - n - 1] && IsHex(short[k - n - 1]);
      forall i | 0 <= i <= |key|
        ensures !OccursAt(key, FINGERPRINT, i)
      {
        if OccursAt(key, FINGERPRINT, i) {
          FingerprintEnds(key, i);
          assert key[i..i + 19] == fingerprint[i..i + 19];
          ContainsAt(fingerprint, FINGERPRINT, i);
        }
      }
    }
  }

  // ----- A fingerprint with the fingerprint marker in it

  const MARKED: string := FINGERPRINT + "x"

  lemma MarkedLetters()
    ensures |MARKED| == 20 && MARKED[0] == 'f' && MARKED[19] == 'x'
    ensures forall k :: 0 <= k < |MARKED| ==> !EndsValue(MARKED[k])
  {
    assert MARKED == "fallow-fingerprint:x";
  }

  /** A comment with both marker versions carries a fingerprint that holds one. */
  lemma MarkedIsReceived(sha: Option<string>)
    ensures ExtractFingerprint("<!-- " + FINGERPRINT_V2 + " " + MARKED + " -->") == Some(MARKED)
    ensures Safe(MARKED, sha)
  {
    MarkedLetters();
    assert ReadsBack(MARKED, FINGERPRINT_V2);
    hide ReadsBack;
    hide ExtractFingerprint;
    PrintedVersionedIsRead(MARKED);
  }

  /** The new fingerprint: what the key of MARKED holds behind the marker. */
  lemma MarkedKey(sha: Option<string>)
    requires HexSha(sha)
    ensures var fresh_ := ResolvedKey("x", sha);
            && ResolvedKey(MARKED, sha) == FINGERPRINT + fresh_ && fresh_ != "" && fresh_[0] == 'x'
            && ':' !in fresh_ && (forall k :: 0 <= k < |fresh_| ==> !EndsValue(fresh_[k]))
            && !IsDash(fresh_[|fresh_| - 1]) && !IsSpace(fresh_[|fresh_| - 1])
  {
    var fresh_ := ResolvedKey("x", sha);
    if ShortSha(sha).Some? {
      var short := ShortSha(sha).value;
      assert fresh_ == "x" + "@" + short;
      assert forall k :: 2 <= k < |fresh_| ==> fresh_[k] == short[k - 2] && IsHex(short[k - 2]);
    }
  }

  lemma SkipsSpace(s: string)
    ensures MarkerValue(" " + s) == MarkerValue(s)
  {
    assert (" " + s)[1..] == s;
  }

  lemma NewValue(fresh_: string)
    requires fresh_ != "" && fresh_[0] == 'x' && forall k :: 0 <= k < |fresh_| ==> !EndsValue(fresh_[k])
    requires !IsDash(fresh_[|fresh_| - 1]) && !IsSpace(fresh_[|fresh_| - 1])
    ensures MarkerValue(fresh_ + " -->") == fresh_
  {
    hide MarkerValue;
    ValueOfPlainKey(fresh_);
    TrimTwice(fresh_);
    SkipsSpace(fresh_ + " -->");
    assert " " + fresh_ + " -->" == " " + (fresh_ + " -->");
  }

  lemma OnlyInKey(sha: Option<string>, rest: string, i: nat)
    requires HexSha(sha) && ':' !in rest
    requires OccursAt(BodyHead(sha) + RESOLVED + " " + FINGERPRINT + rest, FINGERPRINT, i)
    requires rest == ResolvedKey("x", sha) + " -->" && ResolvedKey(MARKED, sha) == FINGERPRINT + ResolvedKey("x", sha)
    ensures i == |BodyHead(sha)| + |RESOLVED| + 1
  {
    hide BodyHead;
    hide HexSha;
    hide ResolvedKey;
    var head, key := BodyHead(sha), ResolvedKey(MARKED, sha);
    var body := head + RESOLVED + " " + FINGERPRINT + rest;
    var m := |head| + |RESOLVED| + 1;
    assert body == head + RESOLVED + " " + key + " -->";
    assert forall j :: m + 19 <= j < |body| ==> body[j] == rest[j - m - 19] && body[j] != ':';
    assert body[m - 1] == ' ';
    MarkerLetters();
    NotBeforeKey(head, key, body, sha, i);
    FingerprintEnds(body, i);
  }

  /** The reply to MARKED is read as a comment with a fingerprint of its own. */
  lemma ReplyCarriesNew(sha: Option<string>)
    requires HexSha(sha)
    ensures ExtractFingerprint(ResolvedBody(MARKED, sha)) == Some(ResolvedKey("x", sha))
  {
    hide IsSpace;
    hide EndsValue;
    hide MarkerValue;
    var fresh_, head := ResolvedKey("x", sha), BodyHead(sha);
    var body, rest := ResolvedBody(MARKED, sha), ResolvedKey("x", sha) + " -->";
    MarkedKey(sha);
    NewValue(fresh_);
    hide ResolvedKey;
    hide BodyHead;
    hide HexSha;
    var m := |head| + |RESOLVED| + 1;
    assert body == head + RESOLVED + " " + FINGERPRINT + rest;
    assert body[m..m + 19] == FINGERPRINT && body[m + 19..] == rest;
    assert ':' !in rest && body[m + 19] == 'x';
    forall i: nat | OccursAt(body, FINGERPRINT, i)
      ensures i == m
    {
      OnlyInKey(sha, rest, i);
    }
    forall i: nat
      ensures !OccursAt(body, FINGERPRINT_V2, i)
    {
      if OccursAt(body, FINGERPRINT_V2, i) {
        V2ContainsV1(body, i);
        V2HasNoSpace(body, i);
      }
    }
    forall i: nat
      ensures !OccursAt(rest, FINGERPRINT, i)
    {
      if OccursAt(rest, FINGERPRINT, i) {
        FingerprintEnds(rest, i);
      }
    }
    FoundOnce(body, FINGERPRINT, m);
    NotFound(body, FINGERPRINT_V2);
    NotFound(rest, FINGERPRINT);
    hide Find;
    hide OccursAt;
  }
}
