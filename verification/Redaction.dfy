/** Masking credentials in network error messages (crates/cli/src/api.rs).

    `Redact` is the plain reading of what the two cursor loops do: walk the text
    and, wherever a credential stands right after its header, put three stars in
    its place. The loops jump from header to header instead. */
module Redaction {
  import opened Wrappers
  import opened Text

  datatype Kind = Bearer | PrivateToken

  const BEARER: string := "Bearer "
  const HEADER: string := "PRIVATE-TOKEN"
  const STARS: string := "***"

  predicate IsTokenByte(c: char) {
    'A' <= c <= 'Z' || 'a' <= c <= 'z' || '0' <= c <= '9' || c == '_' || c == '.' || c == '-' || c == '='
  }

  predicate NotTokenByte(c: char) {
    !IsTokenByte(c)
  }

  predicate NotBlank(c: char) {
    !(c == ' ' || c == '\t')
  }

  /** How many characters at the start of `s` come before the first `stop`. */
  function Run(s: string, stop: char -> bool): (n: nat)
    ensures n <= |s|
    ensures forall k :: 0 <= k < n ==> !stop(s[k])
    ensures n < |s| ==> stop(s[n])
  {
    if s == [] || stop(s[0]) then 0 else 1 + Run(s[1..], stop)
  }

  predicate StartsWithIgnoreCase(s: string, prefix: string) {
    |prefix| <= |s| && forall k :: 0 <= k < |prefix| ==> AsciiLower(s[k]) == AsciiLower(prefix[k])
  }

  /** Where the credential would begin if `s` starts with its header. */
  function TokenStart(kind: Kind, s: string): (t: Option<nat>)
    ensures t.Some? ==> 0 < t.value <= |s|
  {
    match kind
    case Bearer => if StartsWith(s, BEARER) then Some(|BEARER|) else None
    case PrivateToken =>
      if !StartsWithIgnoreCase(s, HEADER) then None
      else
        var colon := |HEADER| + Run(s[|HEADER|..], NotBlank);
        if colon >= |s| || s[colon] != ':' then None
        else Some(colon + 1 + Run(s[colon + 1..], NotBlank))
  }

  /** A credential stands right after a header at the start of `s`. */
  predicate HasSecret(kind: Kind, s: string) {
    TokenStart(kind, s).Some? && TokenStart(kind, s).value < |s| && IsTokenByte(s[TokenStart(kind, s).value])
  }

  /** Where that credential ends: it is a longest run of token bytes. */
  function SecretEnd(kind: Kind, s: string): (e: nat)
    requires HasSecret(kind, s)
    ensures TokenStart(kind, s).value < e <= |s|
  {
    var t := TokenStart(kind, s).value;
    t + Run(s[t..], NotTokenByte)
  }

  function Redact(kind: Kind, s: string): string
    decreases |s|
  {
    if s == [] then []
    else if HasSecret(kind, s) then
      s[..TokenStart(kind, s).value] + STARS + Redact(kind, s[SecretEnd(kind, s)..])
    else [s[0]] + Redact(kind, s[1..])
  }

  // ----- What headers look like

  /** Only the first character of a header can start one. */
  predicate CanStart(kind: Kind, c: char) {
    match kind
    case Bearer => c == 'B'
    case PrivateToken => c == 'P' || c == 'p'
  }

  lemma HeaderShape(kind: Kind, s: string)
    ensures TokenStart(kind, s).Some? ==>
              && CanStart(kind, s[0])
              && (forall k :: 0 < k < TokenStart(kind, s).value ==> !CanStart(kind, s[k]))
              && (forall k :: 0 <= k < TokenStart(kind, s).value ==> s[k] != '*')
  {
    if TokenStart(kind, s).Some? {
      match kind
      case Bearer =>
        assert forall k :: 0 <= k < |BEARER| ==> s[k] == s[..|BEARER|][k];
      case PrivateToken =>
        HeaderLetters(s);
        var colon := |HEADER| + Run(s[|HEADER|..], NotBlank);
        forall k | |HEADER| <= k < TokenStart(kind, s).value
          ensures s[k] == ' ' || s[k] == '\t' || s[k] == ':'
        {
          if k < colon {
            assert s[k] == s[|HEADER|..][k - |HEADER|];
          } else if k > colon {
            assert s[k] == s[colon + 1..][k - colon - 1];
          }
        }
    }
  }

  lemma HeaderLetters(s: string)
    requires StartsWithIgnoreCase(s, HEADER)
    ensures CanStart(PrivateToken, s[0])
    ensures forall k :: 0 < k < |HEADER| ==> !CanStart(PrivateToken, s[k])
    ensures forall k :: 0 <= k < |HEADER| ==> s[k] != '*'
  {
    assert AsciiLower(s[0]) == 'p';
    forall k | 0 < k < |HEADER|
      ensures !CanStart(PrivateToken, s[k]) && s[k] != '*'
    {
      assert AsciiLower(HEADER[k]) != 'p' && AsciiLower(HEADER[k]) != '*';
    }
  }

  /** Whether and where the credential begins depends only on the text up to it,
      as long as what follows is no blank. */
  lemma StartDependsOnPrefix(kind: Kind, s: string, r: string)
    requires TokenStart(kind, s).Some?
    requires var t := TokenStart(kind, s).value;
             && t < |s| && t < |r| && NotBlank(s[t]) && NotBlank(r[t])
             && r[..t] == s[..t]
    ensures TokenStart(kind, r) == TokenStart(kind, s)
  {
    var t := TokenStart(kind, s).value;
    forall k | 0 <= k < t
      ensures r[k] == s[k]
    {
      assert r[k] == r[..t][k] && s[k] == s[..t][k];
    }
    match kind
    case Bearer => assert r[..|BEARER|] == s[..|BEARER|];
    case PrivateToken => PrivateTokenStart(s, r, t);
  }

  lemma PrivateTokenStart(s: string, r: string, t: nat)
    requires TokenStart(PrivateToken, s) == Some(t)
    requires t < |s| && t < |r| && NotBlank(s[t]) && NotBlank(r[t])
    requires forall k :: 0 <= k < t ==> r[k] == s[k]
    ensures TokenStart(PrivateToken, r) == Some(t)
  {
    hide Run;
    var n := |HEADER|;
    var colon := n + Run(s[n..], NotBlank);
    assert s[colon] == s[n..][colon - n];
    SameRun(s[n..], r[n..], NotBlank, colon - n);
    SameRun(s[colon + 1..], r[colon + 1..], NotBlank, t - colon - 1);
  }

  lemma {:induction false} SameRun(s: string, r: string, stop: char -> bool, n: nat)
    requires n < |s| && n < |r| && Run(s, stop) == n && stop(r[n])
    requires forall k :: 0 <= k < n ==> r[k] == s[k]
    ensures Run(r, stop) == n
    decreases n
  {
    if n > 0 {
      SameRun(s[1..], r[1..], stop, n - 1);
    }
  }

  // ----- The output holds no credential

  /** Up to the first star the output is the input. */
  lemma {:induction false} StarFreePrefix(kind: Kind, s: string, n: nat)
    requires n <= |Redact(kind, s)| && forall k :: 0 <= k < n ==> Redact(kind, s)[k] != '*'
    ensures n <= |s| && Redact(kind, s)[..n] == s[..n]
    decreases |s|
  {
    hide Redact;
    hide HasSecret;
    hide TokenStart;
    hide SecretEnd;
    var out := Redact(kind, s);
    if s == [] {
      RedactNothing(kind, s);
    } else if n == 0 {
    } else if HasSecret(kind, s) {
      var t, _ := RedactSplit(kind, s);
      assert out[t] == '*';
      assert out[..n] == s[..t][..n];
    } else {
      RedactStep(kind, s);
      assert out[1..] == Redact(kind, s[1..]);
      StarFreePrefix(kind, s[1..], n - 1);
      assert out[..n] == [s[0]] + out[1..][..n - 1];
    }
  }

  lemma RedactStep(kind: Kind, s: string)
    requires s != []
    ensures HasSecret(kind, s) ==>
              Redact(kind, s) == s[..TokenStart(kind, s).value] + STARS + Redact(kind, s[SecretEnd(kind, s)..])
    ensures !HasSecret(kind, s) ==> Redact(kind, s) == [s[0]] + Redact(kind, s[1..])
  {
  }

  /** Inside a masked header and its stars nothing can start a credential. */
  lemma NoSecretInMask(kind: Kind, s: string, rest: string, i: nat)
    requires HasSecret(kind, s) && i < TokenStart(kind, s).value + 3
    ensures !HasSecret(kind, (s[..TokenStart(kind, s).value] + STARS + rest)[i..])
  {
    hide TokenStart;
    hide CanStart;
    var t := TokenStart(kind, s).value;
    var out := s[..t] + STARS + rest;
    HeaderShape(kind, s);
    HeaderShape(kind, out[i..]);
    assert out[i..][0] == out[i];
    if i >= t {
      assert out[i] == '*';
    } else if i > 0 {
      assert out[i] == s[i];
    } else {
      assert out[0..] == out && out[t] == '*' && out[..t] == s[..t];
      StartDependsOnPrefix(kind, s, out);
    }
  }

  lemma {:induction false} NoSecretInOutput(kind: Kind, s: string, i: nat)
    requires i <= |Redact(kind, s)|
    ensures !HasSecret(kind, Redact(kind, s)[i..])
    decreases |s|
  {
    hide TokenStart;
    hide IsTokenByte;
    var out := Redact(kind, s);
    if s == [] {
      HeaderShape(kind, out[i..]);
      return;
    }
    RedactStep(kind, s);
    hide Redact;
    if HasSecret(kind, s) {
      var t, e := TokenStart(kind, s).value, SecretEnd(kind, s);
      if i >= t + 3 {
        NoSecretInOutput(kind, s[e..], i - t - 3);
        assert out[i..] == Redact(kind, s[e..])[i - t - 3..];
      } else {
        NoSecretInMask(kind, s, Redact(kind, s[e..]), i);
      }
    } else if i > 0 {
      NoSecretInOutput(kind, s[1..], i - 1);
      assert out[i..] == Redact(kind, s[1..])[i - 1..];
    } else {
      assert out[0..] == out;
      if HasSecret(kind, out) {
        SecretFromInput(kind, s);
      }
    }
  }

  /** A credential at the very start of the output was there in the input. */
  lemma SecretFromInput(kind: Kind, s: string)
    requires HasSecret(kind, Redact(kind, s))
    ensures HasSecret(kind, s)
  {
    hide TokenStart;
    hide Redact;
    var out := Redact(kind, s);
    var t := TokenStart(kind, out).value;
    HeaderShape(kind, out);
    StarFreePrefix(kind, s, t + 1);
    assert out[..t + 1][t] == s[..t + 1][t];
    assert out[..t + 1][..t] == out[..t] && s[..t + 1][..t] == s[..t];
    StartDependsOnPrefix(kind, out, s);
  }

  /** A text with no credential is left as it is. */
  lemma {:induction false} RedactIsIdentity(kind: Kind, s: string)
    requires forall i :: 0 <= i <= |s| ==> !HasSecret(kind, s[i..])
    ensures Redact(kind, s) == s
    decreases |s|
  {
    if s != [] {
      assert s[0..] == s;
      forall i | 0 <= i <= |s[1..]|
        ensures !HasSecret(kind, s[1..][i..])
      {
        assert s[1..][i..] == s[i + 1..];
      }
      RedactIsIdentity(kind, s[1..]);
    }
  }

  predicate StarFree(w: string) {
    forall k :: 0 <= k < |w| ==> w[k] != '*'
  }

  lemma OccursInTail(a: string, b: string, w: string, i: nat)
    requires OccursAt(a + b, w, i) && |a| <= i
    ensures OccursAt(b, w, i - |a|)
  {
    assert b[i - |a|..i - |a| + |w|] == (a + b)[i..i + |w|];
  }

  lemma OccursAfterDrop(s: string, e: nat, w: string, k: nat)
    requires e <= |s| && OccursAt(s[e..], w, k)
    ensures OccursAt(s, w, e + k)
  {
    assert s[e + k..e + k + |w|] == s[e..][k..k + |w|];
  }

  lemma OccursBeforeStars(a: string, b: string, w: string, i: nat)
    requires OccursAt(a + STARS + b, w, i) && w != [] && StarFree(w) && i < |a| + 3
    ensures OccursAt(a, w, i)
  {
    var s := a + STARS + b;
    assert s[|a|] == s[|a| + 1] == s[|a| + 2] == '*';
    assert forall k :: 0 <= k < |w| ==> w[k] == s[i..i + |w|][k] == s[i + k];
    assert w[0] == s[i];
    assert a[i..i + |w|] == s[i..i + |w|];
  }

  lemma RedactSplit(kind: Kind, s: string) returns (t: nat, e: nat)
    requires HasSecret(kind, s)
    ensures TokenStart(kind, s) == Some(t) && SecretEnd(kind, s) == e && t < e <= |s|
    ensures Redact(kind, s) == s[..t] + STARS + Redact(kind, s[e..])
  {
    t, e := TokenStart(kind, s).value, SecretEnd(kind, s);
    RedactStep(kind, s);
  }

  /** A stretch of the output without stars comes from the input. */
  lemma {:induction false} StarFreeStretch(kind: Kind, s: string, w: string, i: nat) returns (k: nat)
    requires OccursAt(Redact(kind, s), w, i) && w != [] && StarFree(w)
    ensures OccursAt(s, w, k)
    decreases |s|
  {
    hide TokenStart;
    hide OccursAt;
    hide StarFree;
    hide HasSecret;
    hide SecretEnd;
    hide Redact;
    if s == [] {
      RedactNothing(kind, s);
      return i;
    }
    if HasSecret(kind, s) {
      var t, e := RedactSplit(kind, s);
      if i >= t + 3 {
        OccursInTail(s[..t] + STARS, Redact(kind, s[e..]), w, i);
        k := StarFreeStretch(kind, s[e..], w, i - t - 3);
        OccursAfterDrop(s, e, w, k);
        k := e + k;
      } else {
        OccursBeforeStars(s[..t], Redact(kind, s[e..]), w, i);
        OccursInPrefix(s, t, w, i);
        k := i;
      }
    } else if i > 0 {
      RedactStep(kind, s);
      OccursInTail([s[0]], Redact(kind, s[1..]), w, i);
      k := StarFreeStretch(kind, s[1..], w, i - 1);
      OccursAfterDrop(s, 1, w, k);
      k := 1 + k;
    } else {
      OccursAtStart(kind, s, w);
      k := 0;
    }
  }

  lemma OccursInPrefix(s: string, t: nat, w: string, i: nat)
    requires t <= |s| && OccursAt(s[..t], w, i)
    ensures OccursAt(s, w, i)
  {
    assert s[i..i + |w|] == s[..t][i..i + |w|];
  }

  lemma OccursAtStart(kind: Kind, s: string, w: string)
    requires OccursAt(Redact(kind, s), w, 0) && StarFree(w)
    ensures OccursAt(s, w, 0)
  {
    var out := Redact(kind, s);
    assert forall k :: 0 <= k < |w| ==> w[k] == out[0..|w|][k] == out[k];
    hide Redact;
    StarFreePrefix(kind, s, |w|);
    assert s[0..|w|] == out[0..|w|];
  }

  /** Masking one kind of credential uncovers none of the other. */
  lemma RedactUncoversNothing(kind: Kind, other: Kind, s: string)
    requires forall i :: 0 <= i <= |s| ==> !HasSecret(other, s[i..])
    ensures forall i :: 0 <= i <= |Redact(kind, s)| ==> !HasSecret(other, Redact(kind, s)[i..])
  {
    hide TokenStart;
    hide Redact;
    var out := Redact(kind, s);
    forall i | 0 <= i <= |out|
      ensures !HasSecret(other, out[i..])
    {
      if HasSecret(other, out[i..]) {
        var t := TokenStart(other, out[i..]).value;
        HeaderShape(other, out[i..]);
        var w := out[i..][..t + 1];
        assert out[i..i + t + 1] == w;
        assert StarFree(w);
        var k := StarFreeStretch(kind, s, w, i);
        assert s[k..][..t + 1] == s[k..k + t + 1];
        SameStretch(other, out[i..], s[k..], t, w);
      }
    }
  }

  lemma SameStretch(kind: Kind, s: string, r: string, t: nat, stretch: string)
    requires HasSecret(kind, s) && TokenStart(kind, s) == Some(t) && |stretch| == t + 1
    requires StartsWith(s, stretch) && StartsWith(r, stretch)
    ensures HasSecret(kind, r)
  {
    assert s[t] == s[..t + 1][t] == r[..t + 1][t] == r[t];
    assert s[..t + 1][..t] == s[..t] && r[..t + 1][..t] == r[..t];
    StartDependsOnPrefix(kind, s, r);
  }

  function Sanitize(s: string): string {
    Redact(PrivateToken, Redact(Bearer, s))
  }

  /** No credential of either kind is left, and a second pass changes nothing. */
  lemma SanitizeLeavesNoSecret(s: string)
    ensures forall kind: Kind, i :: 0 <= i <= |Sanitize(s)| ==> !HasSecret(kind, Sanitize(s)[i..])
    ensures Sanitize(Sanitize(s)) == Sanitize(s)
  {
    var once := Redact(Bearer, s);
    var out := Sanitize(s);
    forall i | 0 <= i <= |once|
      ensures !HasSecret(Bearer, once[i..])
    {
      NoSecretInOutput(Bearer, s, i);
    }
    RedactUncoversNothing(PrivateToken, Bearer, once);
    forall i | 0 <= i <= |out|
      ensures !HasSecret(PrivateToken, out[i..])
    {
      NoSecretInOutput(PrivateToken, once, i);
    }
    forall kind: Kind, i | 0 <= i <= |out|
      ensures !HasSecret(kind, out[i..])
    {
    }
    RedactIsIdentity(Bearer, out);
    RedactIsIdentity(PrivateToken, out);
  }

  // ----- The frame: only whole credentials are replaced

  datatype Segment = Kept(text: string) | Secret(text: string)

  function Segments(kind: Kind, s: string): seq<Segment>
    decreases |s|
  {
    if s == [] then []
    else if HasSecret(kind, s) then
      var t, e := TokenStart(kind, s).value, SecretEnd(kind, s);
      [Kept(s[..t]), Secret(s[t..e])] + Segments(kind, s[e..])
    else [Kept([s[0]])] + Segments(kind, s[1..])
  }

  function Original(segments: seq<Segment>): string {
    if segments == [] then [] else segments[0].text + Original(segments[1..])
  }

  function Masked(segments: seq<Segment>): string {
    if segments == [] then []
    else (if segments[0].Secret? then STARS else segments[0].text) + Masked(segments[1..])
  }

  /** A secret segment is the whole credential of the header kept just before it. */
  ghost predicate OnlySecretsMasked(kind: Kind, segments: seq<Segment>) {
    forall i :: 0 <= i < |segments| && segments[i].Secret? ==> IsTheSecret(kind, segments, i)
  }

  predicate IsTheSecret(kind: Kind, segments: seq<Segment>, i: nat)
    requires i < |segments|
  {
    && i > 0 && segments[i - 1].Kept?
    && var rest := Original(segments[i - 1..]);
    && HasSecret(kind, rest)
    && TokenStart(kind, rest).value == |segments[i - 1].text|
    && SecretEnd(kind, rest) == |segments[i - 1].text| + |segments[i].text|
  }

  /** The text is the kept and the secret segments in order; the output is the
      same with every secret replaced by stars. */
  lemma {:induction false} RedactReplacesOnlySecrets(kind: Kind, s: string)
    ensures Original(Segments(kind, s)) == s
    ensures Masked(Segments(kind, s)) == Redact(kind, s)
    ensures OnlySecretsMasked(kind, Segments(kind, s))
    decreases |s|
  {
    hide TokenStart;
    hide HasSecret;
    hide SecretEnd;
    hide OnlySecretsMasked;
    hide Original;
    hide Masked;
    hide Redact;
    hide Segments;
    if s == [] {
      NoSegments(kind);
      return;
    }
    RedactStep(kind, s);
    SegmentsStep(kind, s);
    if HasSecret(kind, s) {
      var t, e := RedactSplit(kind, s);
      RedactReplacesOnlySecrets(kind, s[e..]);
      assert s[..t] + s[t..e] + s[e..] == s;
      TwoMoreSegments(kind, s[..t], s[t..e], Segments(kind, s[e..]));
    } else {
      RedactReplacesOnlySecrets(kind, s[1..]);
      OneMoreSegment(kind, [s[0]], Segments(kind, s[1..]));
      assert [s[0]] + s[1..] == s;
    }
  }

  lemma NoSegments(kind: Kind)
    ensures Segments(kind, []) == [] && Redact(kind, []) == [] && OnlySecretsMasked(kind, [])
    ensures Original([]) == [] && Masked([]) == []
  {
  }

  lemma SegmentsStep(kind: Kind, s: string)
    requires s != []
    ensures HasSecret(kind, s) ==>
              var t, e := TokenStart(kind, s).value, SecretEnd(kind, s);
              Segments(kind, s) == [Kept(s[..t]), Secret(s[t..e])] + Segments(kind, s[e..])
    ensures !HasSecret(kind, s) ==> Segments(kind, s) == [Kept([s[0]])] + Segments(kind, s[1..])
  {
  }

  lemma OneMoreSegment(kind: Kind, text: string, segments: seq<Segment>)
    requires OnlySecretsMasked(kind, segments)
    ensures var more := [Kept(text)] + segments;
            && Original(more) == text + Original(segments) && Masked(more) == text + Masked(segments)
            && OnlySecretsMasked(kind, more)
  {
    var more := [Kept(text)] + segments;
    assert more[1..] == segments;
    hide IsTheSecret;
    forall i | 0 <= i < |more| && more[i].Secret?
      ensures IsTheSecret(kind, more, i)
    {
      ShiftSecret(kind, segments, more, i - 1, 1);
    }
  }

  lemma ShiftSecret(kind: Kind, segments: seq<Segment>, more: seq<Segment>, i: nat, d: nat)
    requires i < |segments| && d <= |more| && more[d..] == segments && IsTheSecret(kind, segments, i)
    ensures IsTheSecret(kind, more, i + d)
  {
    hide TokenStart;
    hide Original;
    assert more[i + d - 1..] == segments[i - 1..];
    assert more[i + d] == more[d..][i] && more[i + d - 1] == more[d..][i - 1];
  }

  lemma TwoMoreSegments(kind: Kind, text: string, secret: string, segments: seq<Segment>)
    requires OnlySecretsMasked(kind, segments)
    requires var s := text + secret + Original(segments);
             HasSecret(kind, s) && TokenStart(kind, s).value == |text| && SecretEnd(kind, s) == |text| + |secret|
    ensures var more := [Kept(text), Secret(secret)] + segments;
            && Original(more) == text + secret + Original(segments) && Masked(more) == text + STARS + Masked(segments)
            && OnlySecretsMasked(kind, more)
  {
    hide TokenStart;
    hide HasSecret;
    hide SecretEnd;
    var more := [Kept(text), Secret(secret)] + segments;
    TextOfTwoMore(text, secret, segments);
    hide Original;
    hide Masked;
    FirstSecret(kind, more);
    hide IsTheSecret;
    forall i | 0 <= i < |more| && more[i].Secret?
      ensures IsTheSecret(kind, more, i)
    {
      if i > 1 {
        assert more[2..] == segments;
        ShiftSecret(kind, segments, more, i - 2, 2);
      }
    }
  }

  lemma TextOfTwoMore(text: string, secret: string, segments: seq<Segment>)
    ensures var more := [Kept(text), Secret(secret)] + segments;
            Original(more) == text + secret + Original(segments) && Masked(more) == text + STARS + Masked(segments)
  {
    var more := [Kept(text), Secret(secret)] + segments;
    var middle := [Secret(secret)] + segments;
    assert more[1..] == middle && middle[1..] == segments;
    assert Original(middle) == secret + Original(segments) && Masked(middle) == STARS + Masked(segments);
    assert text + (secret + Original(segments)) == text + secret + Original(segments);
    assert text + (STARS + Masked(segments)) == text + STARS + Masked(segments);
  }

  lemma FirstSecret(kind: Kind, more: seq<Segment>)
    requires |more| >= 2 && more[0].Kept? && more[1].Secret?
    requires var s := Original(more);
             HasSecret(kind, s) && TokenStart(kind, s).value == |more[0].text|
             && SecretEnd(kind, s) == |more[0].text| + |more[1].text|
    ensures IsTheSecret(kind, more, 1)
  {
    assert more[0..] == more;
  }

  // ----- The cursor loops

  ghost predicate SecretAt(kind: Kind, s: string, i: nat) {
    i <= |s| && HasSecret(kind, s[i..])
  }

  lemma SecretInTail(kind: Kind, s: string, i: nat)
    requires i < |s|
    ensures SecretAt(kind, s[1..], i) == SecretAt(kind, s, i + 1)
  {
    assert s[1..][i..] == s[i + 1..];
  }

  /** No header starts before `n`: the scan may copy that stretch in one go. */
  lemma {:induction false} CopyStretch(kind: Kind, s: string, n: nat)
    requires n <= |s| && forall i :: 0 <= i < n ==> !SecretAt(kind, s, i)
    ensures Redact(kind, s) == s[..n] + Redact(kind, s[n..])
    decreases n
  {
    hide Redact;
    hide HasSecret;
    hide TokenStart;
    hide SecretEnd;
    assert s[0..] == s;
    if n == 0 {
      assert s[..0] == [];
    } else {
      assert !SecretAt(kind, s, 0);
      hide SecretAt;
      RedactStep(kind, s);
      forall i | 0 <= i < n - 1
        ensures !SecretAt(kind, s[1..], i)
      {
        SecretInTail(kind, s, i);
      }
      CopyStretch(kind, s[1..], n - 1);
      SplitAgain(s, n);
    }
  }

  lemma SplitAgain(s: string, n: nat)
    requires 0 < n <= |s|
    ensures s[1..][n - 1..] == s[n..] && s[..n] == [s[0]] + s[1..][..n - 1]
  {
  }

  /** A header with no credential after it is copied as a whole. */
  lemma CopyHeader(kind: Kind, s: string)
    requires TokenStart(kind, s).Some? && !HasSecret(kind, s)
    ensures var t := TokenStart(kind, s).value; Redact(kind, s) == s[..t] + Redact(kind, s[t..])
  {
    hide TokenStart;
    hide CanStart;
    hide Redact;
    var t := TokenStart(kind, s).value;
    HeaderShape(kind, s);
    forall i | 0 <= i < t
      ensures !SecretAt(kind, s, i)
    {
      HeaderShape(kind, s[i..]);
      assert s[0..] == s;
      assert s[i..][0] == s[i];
    }
    CopyStretch(kind, s, t);
  }

  method ScanRun(s: string, from: nat, stop: char -> bool) returns (end: nat)
    requires from <= |s|
    ensures end == from + Run(s[from..], stop)
  {
    end := from;
    while end < |s| && !stop(s[end])
      invariant from <= end <= |s|
      invariant Run(s[from..], stop) == end - from + Run(s[end..], stop)
    {
      assert s[end..][1..] == s[end + 1..];
      end := end + 1;
    }
  }

  lemma BearerAt(s: string, i: nat)
    requires i <= |s|
    ensures TokenStart(Bearer, s[i..]).Some? <==> OccursAt(s, BEARER, i)
  {
    assert OccursAt(s, BEARER, i) ==> s[i..][..|BEARER|] == s[i..i + |BEARER|];
    assert StartsWith(s[i..], BEARER) ==> s[i..i + |BEARER|] == s[i..][..|BEARER|];
  }

  /** One turn of a loop: copy `head`, write `piece`, go on with the rest. */
  lemma LoopTurn(out: string, all: string, whole: string, head: string, here: string, piece: string, rest: string)
    requires out + whole == all && whole == head + here && here == piece + rest
    ensures out + head + piece + rest == all
  {
    assert out + head + piece + rest == out + (head + (piece + rest));
  }

  method RedactBearerTokens(detail: string) returns (out: string)
    ensures out == Redact(Bearer, detail)
  {
    hide Redact;
    out := "";
    var cursor := 0;
    assert detail[0..] == detail;
    while true
      invariant cursor <= |detail|
      invariant out + Redact(Bearer, detail[cursor..]) == Redact(Bearer, detail)
      decreases |detail| - cursor
    {
      var found := Find(detail, BEARER, cursor);
      if found.None? {
        NoMoreBearer(detail, cursor, |detail|);
        RedactNothing(Bearer, detail[|detail|..]);
        assert detail[cursor..|detail|] == detail[cursor..];
        break;
      }
      var start := found.value;
      NoMoreBearer(detail, cursor, start);
      var tokenStart := start + |BEARER|;
      var tokenEnd := ScanRun(detail, tokenStart, NotTokenByte);
      BearerAt(detail, start);
      BearerStep(detail, start, tokenStart, tokenEnd);
      var piece := if tokenEnd == tokenStart then BEARER else "Bearer ***";
      LoopTurn(out, Redact(Bearer, detail), Redact(Bearer, detail[cursor..]), detail[cursor..start],
               Redact(Bearer, detail[start..]), piece, Redact(Bearer, detail[tokenEnd..]));
      out := out + detail[cursor..start] + piece;
      cursor := tokenEnd;
    }
    out := out + detail[cursor..];
  }

  lemma RedactNothing(kind: Kind, s: string)
    requires s == []
    ensures Redact(kind, s) == []
  {
  }

  lemma NoMoreBearer(detail: string, cursor: nat, start: nat)
    requires cursor <= start <= |detail|
    requires forall i :: cursor <= i < start ==> !OccursAt(detail, BEARER, i)
    ensures Redact(Bearer, detail[cursor..]) == detail[cursor..start] + Redact(Bearer, detail[start..])
  {
    hide OccursAt;
    hide Redact;
    var s := detail[cursor..];
    forall i | 0 <= i < start - cursor
      ensures !SecretAt(Bearer, s, i)
    {
      BearerAt(detail, cursor + i);
      assert s[i..] == detail[cursor + i..];
    }
    CopyStretch(Bearer, s, start - cursor);
    assert s[start - cursor..] == detail[start..];
  }

  lemma BearerStep(detail: string, start: nat, tokenStart: nat, tokenEnd: nat)
    requires start <= |detail| && TokenStart(Bearer, detail[start..]).Some?
    requires tokenStart == start + |BEARER| && tokenEnd == tokenStart + Run(detail[tokenStart..], NotTokenByte)
    ensures Redact(Bearer, detail[start..])
         == (if tokenEnd == tokenStart then BEARER else "Bearer ***") + Redact(Bearer, detail[tokenEnd..])
  {
    var s := detail[start..];
    assert s[|BEARER|..] == detail[tokenStart..] && s[..|BEARER|] == BEARER;
    if tokenEnd == tokenStart {
      CopyHeader(Bearer, s);
    } else {
      assert s[|BEARER|] == detail[tokenStart..][0];
      assert HasSecret(Bearer, s) && SecretEnd(Bearer, s) == tokenEnd - start;
      assert s[tokenEnd - start..] == detail[tokenEnd..];
      RedactStep(Bearer, s);
      assert BEARER + STARS == "Bearer ***";
    }
  }

  method FindAsciiCaseInsensitive(haystack: string, from: nat, needle: string) returns (r: Option<nat>)
    ensures r.Some? ==> from <= r.value <= |haystack| && needle != [] && StartsWithIgnoreCase(haystack[r.value..], needle)
                        && forall i :: from <= i < r.value ==> !StartsWithIgnoreCase(haystack[i..], needle)
    ensures r.None? && needle != [] ==> forall i :: from <= i <= |haystack| ==> !StartsWithIgnoreCase(haystack[i..], needle)
  {
    if needle == [] || from >= |haystack| {
      return None;
    }
    var i := from;
    while i + |needle| <= |haystack|
      invariant from <= i <= |haystack|
      invariant forall k :: from <= k < i ==> !StartsWithIgnoreCase(haystack[k..], needle)
    {
      var matches := true;
      var k := 0;
      while k < |needle| && matches
        invariant k <= |needle|
        invariant matches <==> forall m :: 0 <= m < k ==> AsciiLower(haystack[i..][m]) == AsciiLower(needle[m])
      {
        assert haystack[i..][k] == haystack[i + k];
        matches := AsciiLower(haystack[i + k]) == AsciiLower(needle[k]);
        k := k + 1;
      }
      if matches {
        return Some(i);
      }
      i := i + 1;
    }
    return None;
  }

  method RedactPrivateTokens(detail: string) returns (out: string)
    ensures out == Redact(PrivateToken, detail)
  {
    hide Redact;
    hide Run;
    hide StartsWithIgnoreCase;
    hide TokenStart;
    out := "";
    var cursor := 0;
    assert detail[0..] == detail;
    while true
      invariant cursor <= |detail|
      invariant out + Redact(PrivateToken, detail[cursor..]) == Redact(PrivateToken, detail)
      decreases |detail| - cursor
    {
      var found := FindAsciiCaseInsensitive(detail, cursor, HEADER);
      if found.None? {
        NoMoreHeaders(detail, cursor, |detail|);
        RedactNothing(PrivateToken, detail[|detail|..]);
        assert detail[cursor..|detail|] == detail[cursor..];
        break;
      }
      var start := found.value;
      NoMoreHeaders(detail, cursor, start);
      HeaderFits(detail[start..]);
      var colon := ScanRun(detail, start + |HEADER|, NotBlank);
      var piece, next;
      if colon >= |detail| || detail[colon] != ':' {
        HeaderWithoutColon(detail, start, colon);
        piece, next := detail[start..start + 1], start + 1;
      } else {
        var tokenStart := ScanRun(detail, colon + 1, NotBlank);
        next := ScanRun(detail, tokenStart, NotTokenByte);
        HeaderStep(detail, start, colon, tokenStart, next);
        piece := if next == tokenStart then detail[start..tokenStart] else detail[start..tokenStart] + STARS;
      }
      LoopTurn(out, Redact(PrivateToken, detail), Redact(PrivateToken, detail[cursor..]), detail[cursor..start],
               Redact(PrivateToken, detail[start..]), piece, Redact(PrivateToken, detail[next..]));
      out := out + detail[cursor..start] + piece;
      cursor := next;
    }
    out := out + detail[cursor..];
  }

  lemma HeaderFits(s: string)
    requires StartsWithIgnoreCase(s, HEADER)
    ensures |HEADER| <= |s|
  {
  }

  lemma NoMoreHeaders(detail: string, cursor: nat, start: nat)
    requires cursor <= start <= |detail|
    requires forall i :: cursor <= i < start ==> !StartsWithIgnoreCase(detail[i..], HEADER)
    ensures Redact(PrivateToken, detail[cursor..]) == detail[cursor..start] + Redact(PrivateToken, detail[start..])
  {
    hide Redact;
    hide StartsWithIgnoreCase;
    var s := detail[cursor..];
    forall i | 0 <= i < start - cursor
      ensures !SecretAt(PrivateToken, s, i)
    {
      assert s[i..] == detail[cursor + i..];
    }
    CopyStretch(PrivateToken, s, start - cursor);
    assert s[start - cursor..] == detail[start..];
  }

  lemma HeaderWithoutColon(detail: string, start: nat, colon: nat)
    requires start + |HEADER| <= |detail|
    requires colon == start + |HEADER| + Run(detail[start + |HEADER|..], NotBlank)
    requires colon >= |detail| || detail[colon] != ':'
    ensures Redact(PrivateToken, detail[start..]) == detail[start..start + 1] + Redact(PrivateToken, detail[start + 1..])
  {
    hide Run;
    hide StartsWithIgnoreCase;
    var s := detail[start..];
    assert s[|HEADER|..] == detail[start + |HEADER|..];
    assert !HasSecret(PrivateToken, s);
    RedactStep(PrivateToken, s);
    assert s[1..] == detail[start + 1..] && detail[start..start + 1] == [s[0]];
  }

  lemma HeaderStep(detail: string, start: nat, colon: nat, tokenStart: nat, tokenEnd: nat)
    requires start + |HEADER| <= |detail| && StartsWithIgnoreCase(detail[start..], HEADER)
    requires colon == start + |HEADER| + Run(detail[start + |HEADER|..], NotBlank)
    requires colon < |detail| && detail[colon] == ':'
    requires tokenStart == colon + 1 + Run(detail[colon + 1..], NotBlank)
    requires tokenEnd == tokenStart + Run(detail[tokenStart..], NotTokenByte)
    ensures Redact(PrivateToken, detail[start..])
         == (if tokenEnd == tokenStart then detail[start..tokenStart] else detail[start..tokenStart] + STARS)
            + Redact(PrivateToken, detail[tokenEnd..])
  {
    hide Run;
    hide StartsWithIgnoreCase;
    hide Redact;
    var s := detail[start..];
    assert s[|HEADER|..] == detail[start + |HEADER|..] && s[colon - start + 1..] == detail[colon + 1..];
    assert TokenStart(PrivateToken, s) == Some(tokenStart - start);
    assert s[tokenStart - start..] == detail[tokenStart..] && s[..tokenStart - start] == detail[start..tokenStart];
    if tokenEnd == tokenStart {
      assert tokenStart < |detail| ==> NotTokenByte(detail[tokenStart..][0]);
      CopyHeader(PrivateToken, s);
    } else {
      assert !NotTokenByte(detail[tokenStart..][0]);
      assert SecretEnd(PrivateToken, s) == tokenEnd - start;
      assert s[tokenEnd - start..] == detail[tokenEnd..];
      RedactStep(PrivateToken, s);
    }
  }

  method SanitizeNetworkError(detail: string) returns (out: string)
    ensures out == Sanitize(detail)
    ensures forall kind: Kind, i :: 0 <= i <= |out| ==> !HasSecret(kind, out[i..])
  {
    var once := RedactBearerTokens(detail);
    out := RedactPrivateTokens(once);
    SanitizeLeavesNoSecret(detail);
  }
}
