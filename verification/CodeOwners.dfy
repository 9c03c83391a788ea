/** Parsing a CODEOWNERS file and looking up owners (crates/cli/src/codeowners.rs).

    The glob library is a parameter: which globs it accepts, whether it compiles
    a list of them, and which paths a glob matches. */
module CodeOwners {
  import opened Wrappers
  import opened Text
  import opened Decimals

  const MAX_COUNT: nat := 0xFFFF_FFFF

  // ----- Lines

  function ChompCarriageReturn(line: string): string {
    if line != [] && line[|line| - 1] == '\r' then line[..|line| - 1] else line
  }

  /** The lines of a text; a final newline starts no further line. */
  function Lines(s: string): seq<string>
    decreases |s|
  {
    if s == [] then []
    else
      var line := UpTo(s, (c: char) => c == '\n');
      UpToIsPrefix(s, (c: char) => c == '\n');
      if |line| == |s| then [line] else [ChompCarriageReturn(line)] + Lines(s[|line| + 1..])
  }

  datatype SectionHeader = SectionHeader(name: string, defaults: seq<string>)

  /** What follows the section name, without the number of required approvals. */
  function AfterApprovals(after: string): Option<string> {
    if !StartsWith(after, "[") then Some(after)
    else
      var inner := after[1..];
      var close := Find(inner, "]", 0);
      if close.None? then None
      else if close.value == 0 || !(forall i :: 0 <= i < close.value ==> IsDigit(inner[i])) then None
      else Some(inner[close.value + 1..])
  }

  function ParseSectionHeader(line: string): Option<SectionHeader> {
    var rest := if StartsWith(line, "^") then line[1..] else line;
    if !StartsWith(rest, "[") then None
    else
      var inner := rest[1..];
      var close := Find(inner, "]", 0);
      if close.None? || close.value == 0 then None
      else
        var after := AfterApprovals(inner[close.value + 1..]);
        if after.None? || (after.value != [] && !IsSpace(after.value[0])) then None
        else Some(SectionHeader(inner[..close.value], Words(after.value, IsSpace)))
  }

  function TranslatePattern(pattern: string): string {
    var anchored := StartsWith(pattern, "/");
    var rest := if anchored then pattern[1..] else pattern;
    var expanded := if rest != [] && rest[|rest| - 1] == '/' then rest[..|rest| - 1] + "/**" else rest;
    if !anchored && '/' !in expanded then "**/" + expanded else expanded
  }

  datatype Line =
    | Blank
    | Header(header: SectionHeader)
    | Rule(negate: bool, pattern: string, owners: seq<string>)

  function Classify(text: string): Line {
    var line := Trim(text, IsSpace);
    if line == [] || line[0] == '#' then Blank
    else if ParseSectionHeader(line).Some? then Header(ParseSectionHeader(line).value)
    else
      var negate := line[0] == '!';
      var words := Words(if negate then TrimStart(line[1..], IsSpace) else line, IsSpace);
      if words == [] then Blank else Rule(negate, words[0], words[1..])
  }

  function Classified(text: seq<string>): (lines: seq<Line>)
    ensures |lines| == |text|
  {
    seq(|text|, i requires 0 <= i < |text| => Classify(text[i]))
  }

  // ----- Reading the file from the bottom

  /** The nearest header at the end of these lines. */
  function Section(lines: seq<Line>): Option<SectionHeader> {
    if lines == [] then None
    else if lines[|lines| - 1].Header? then Some(lines[|lines| - 1].header)
    else Section(lines[..|lines| - 1])
  }

  function SectionName(section: Option<SectionHeader>): Option<string> {
    if section.None? then None else Some(section.value.name)
  }

  function SectionOwners(section: Option<SectionHeader>): seq<string> {
    if section.None? then [] else section.value.defaults
  }

  /** A rule counts when it names owners, inherits some, or takes ownership away. */
  predicate Effective(line: Line, section: Option<SectionHeader>) {
    line.Rule? && (line.negate || line.owners != [] || SectionOwners(section) != [])
  }

  function OwnersOf(line: Line, section: Option<SectionHeader>): seq<string>
    requires line.Rule?
  {
    if line.negate then [] else if line.owners != [] then line.owners else SectionOwners(section)
  }

  datatype Decision = Decision(negated: bool, owners: seq<string>, pattern: string, section: Option<SectionHeader>)

  /** The last effective rule that matches decides. */
  function Decide(lines: seq<Line>, matches: (string, string) -> bool, path: string): (d: Option<Decision>)
    ensures d.Some? && !d.value.negated ==> d.value.owners != []
  {
    if lines == [] then None
    else
      var above, line := lines[..|lines| - 1], lines[|lines| - 1];
      var section := Section(above);
      if Effective(line, section) && matches(TranslatePattern(line.pattern), path)
      then Some(Decision(line.negate, OwnersOf(line, section), line.pattern, section))
      else Decide(above, matches, path)
  }

  // ----- The parsed file

  datatype CodeOwners = CodeOwners(
    owners: seq<string>, ownerCounts: seq<nat>, patterns: seq<string>, isNegation: seq<bool>,
    sections: seq<Option<string>>, sectionOwners: seq<seq<string>>, hasSections: bool, globs: seq<string>)
  {
    predicate Aligned() {
      |owners| == |ownerCounts| == |patterns| == |isNegation| == |sections| == |sectionOwners| == |globs|
    }

    /** The positions of the globs that match. */
    function Matching(matches: (string, string) -> bool, path: string, n: nat): (r: seq<nat>)
      requires n <= |globs|
      ensures forall k :: k in r <==> 0 <= k < n && matches(globs[k], path)
    {
      if n == 0 then []
      else Matching(matches, path, n - 1) + (if matches(globs[n - 1], path) then [n - 1] else [])
    }

    function LastMatch(matches: (string, string) -> bool, path: string): (r: Option<nat>)
      ensures r.None? ==> forall k :: 0 <= k < |globs| ==> !matches(globs[k], path)
      ensures r.Some? ==> r.value < |globs| && matches(globs[r.value], path)
      ensures r.Some? ==> forall k :: r.value < k < |globs| ==> !matches(globs[k], path)
    {
      MaxOf(Matching(matches, path, |globs|))
    }

    function OwnerOf(matches: (string, string) -> bool, path: string): Option<string>
      requires Aligned()
    {
      var m := LastMatch(matches, path);
      if m.None? || isNegation[m.value] then None else Some(owners[m.value])
    }

    function OwnerCountOf(matches: (string, string) -> bool, path: string): Option<nat>
      requires Aligned()
    {
      var m := LastMatch(matches, path);
      if m.None? then None else Some(if isNegation[m.value] then 0 else ownerCounts[m.value])
    }

    function OwnerAndRuleOf(matches: (string, string) -> bool, path: string): Option<(string, string)>
      requires Aligned()
    {
      var m := LastMatch(matches, path);
      if m.None? || isNegation[m.value] then None else Some((owners[m.value], patterns[m.value]))
    }

    function SectionOf(matches: (string, string) -> bool, path: string): Option<Option<string>>
      requires Aligned()
    {
      var m := LastMatch(matches, path);
      if m.None? || isNegation[m.value] then None else Some(sections[m.value])
    }

    function SectionAndOwnersOf(matches: (string, string) -> bool, path: string): Option<(Option<string>, seq<string>)>
      requires Aligned()
    {
      var m := LastMatch(matches, path);
      if m.None? || isNegation[m.value] then None else Some((sections[m.value], sectionOwners[m.value]))
    }

    function SectionOwnersAndRuleOf(matches: (string, string) -> bool, path: string)
      : Option<(Option<string>, seq<string>, string)>
      requires Aligned()
    {
      var m := LastMatch(matches, path);
      if m.None? || isNegation[m.value] then None
      else Some((sections[m.value], sectionOwners[m.value], patterns[m.value]))
    }
  }

  function MaxOf(s: seq<nat>): (r: Option<nat>)
    ensures r.None? <==> s == []
    ensures r.Some? ==> r.value in s && forall x :: x in s ==> x <= r.value
  {
    if s == [] then None
    else
      var rest, x := MaxOf(s[..|s| - 1]), s[|s| - 1];
      assert s == s[..|s| - 1] + [x];
      if rest.None? || rest.value <= x then Some(x) else rest
  }

  /** One more line: an effective rule adds an entry to every array. */
  function AddLine(c: CodeOwners, line: Line, section: Option<SectionHeader>): (t: CodeOwners)
    requires c.Aligned()
    ensures t.Aligned()
  {
    if line.Header? then c.(hasSections := true)
    else if !Effective(line, section) then c
    else
      var owners := OwnersOf(line, section);
      CodeOwners(c.owners + [if line.negate then "" else owners[0]],
                 c.ownerCounts + [Min(|owners|, MAX_COUNT)],
                 c.patterns + [if line.negate then "!" + line.pattern else line.pattern],
                 c.isNegation + [line.negate],
                 c.sections + [SectionName(section)],
                 c.sectionOwners + [SectionOwners(section)],
                 c.hasSections,
                 c.globs + [TranslatePattern(line.pattern)])
  }

  /** What the parsed file holds: one entry per effective rule, in order. */
  function Table(lines: seq<Line>): (c: CodeOwners)
    ensures c.Aligned()
  {
    if lines == [] then CodeOwners([], [], [], [], [], [], false, [])
    else AddLine(Table(lines[..|lines| - 1]), lines[|lines| - 1], Section(lines[..|lines| - 1]))
  }

  /** The first effective rule whose glob is not valid. */
  function FirstInvalid(lines: seq<Line>, valid: string -> bool): Option<string> {
    if lines == [] then None
    else
      var above, line := lines[..|lines| - 1], lines[|lines| - 1];
      var first := FirstInvalid(above, valid);
      if first.Some? then first
      else if Effective(line, Section(above)) && !valid(TranslatePattern(line.pattern)) then Some(line.pattern)
      else None
  }

  lemma NextLine(lines: seq<Line>, i: nat, valid: string -> bool)
    requires i < |lines|
    ensures Section(lines[..i + 1]) == if lines[i].Header? then Some(lines[i].header) else Section(lines[..i])
    ensures Table(lines[..i + 1]) == AddLine(Table(lines[..i]), lines[i], Section(lines[..i]))
    ensures FirstInvalid(lines[..i], valid).None? ==>
              FirstInvalid(lines[..i + 1], valid)
              == if Effective(lines[i], Section(lines[..i])) && !valid(TranslatePattern(lines[i].pattern))
                 then Some(lines[i].pattern) else None
  {
    assert lines[..i + 1][..i] == lines[..i];
    hide AddLine;
  }

  datatype ParseResult = Ok(value: CodeOwners) | InvalidPattern(pattern: string) | DoesNotCompile

  method Parse(content: string, valid: string -> bool, compiles: seq<string> -> bool) returns (r: ParseResult)
    ensures var lines := Classified(Lines(content));
            var first := FirstInvalid(lines, valid);
            r == if first.Some? then InvalidPattern(first.value)
                 else if compiles(Table(lines).globs) then Ok(Table(lines))
                 else DoesNotCompile
  {
    hide Trim;
    hide TrimStart;
    hide Words;
    hide ParseSectionHeader;
    hide TranslatePattern;
    hide IsSpace;
    var text := Lines(content);
    hide Lines;
    ghost var lines := Classified(text);
    var owners: seq<string>, ownerCounts: seq<nat>, patterns: seq<string>, isNegation: seq<bool> := [], [], [], [];
    var sections: seq<Option<string>>, sectionOwners: seq<seq<string>>, globs: seq<string> := [], [], [];
    var currentSection: Option<string> := None;
    var currentSectionOwners: seq<string> := [];
    var hasSections := false;
    for i := 0 to |text|
      invariant FirstInvalid(lines[..i], valid) == None
      invariant currentSection == SectionName(Section(lines[..i]))
      invariant currentSectionOwners == SectionOwners(Section(lines[..i]))
      invariant CodeOwners(owners, ownerCounts, patterns, isNegation, sections, sectionOwners, hasSections, globs)
             == Table(lines[..i])
    {
      hide Table;
      hide Section;
      hide FirstInvalid;
      NextLine(lines, i, valid);
      assert lines[i] == Classify(text[i]);
      var line := Trim(text[i], IsSpace);
      if line == [] || line[0] == '#' {
        continue;
      }
      var header := ParseSectionHeader(line);
      if header.Some? {
        currentSection := Some(header.value.name);
        currentSectionOwners := header.value.defaults;
        hasSections := true;
        continue;
      }
      var negate, rest := false, line;
      if line[0] == '!' {
        negate, rest := true, TrimStart(line[1..], IsSpace);
      }
      var parts := Words(rest, IsSpace);
      if parts == [] {
        continue;
      }
      var pattern, inlineOwners := parts[0], parts[1..];
      var effectiveOwner, ownerCount := "", 0;
      if !negate {
        if inlineOwners != [] {
          effectiveOwner, ownerCount := inlineOwners[0], Min(|inlineOwners|, MAX_COUNT);
        } else if currentSectionOwners != [] {
          effectiveOwner, ownerCount := currentSectionOwners[0], Min(|currentSectionOwners|, MAX_COUNT);
        } else {
          continue;
        }
      }
      var globPattern := TranslatePattern(pattern);
      if !valid(globPattern) {
        InvalidStays(lines, i + 1, valid);
        return InvalidPattern(pattern);
      }
      globs := globs + [globPattern];
      owners := owners + [effectiveOwner];
      ownerCounts := ownerCounts + [ownerCount];
      patterns := patterns + [if negate then "!" + pattern else pattern];
      isNegation := isNegation + [negate];
      sections := sections + [currentSection];
      sectionOwners := sectionOwners + [currentSectionOwners];
    }
    assert lines[..|text|] == lines;
    if !compiles(globs) {
      return DoesNotCompile;
    }
    r := Ok(CodeOwners(owners, ownerCounts, patterns, isNegation, sections, sectionOwners, hasSections, globs));
  }

  lemma {:induction false} InvalidStays(lines: seq<Line>, i: nat, valid: string -> bool)
    requires i <= |lines| && FirstInvalid(lines[..i], valid).Some?
    ensures FirstInvalid(lines, valid) == FirstInvalid(lines[..i], valid)
    decreases |lines|
  {
    if i == |lines| {
      assert lines[..i] == lines;
    } else {
      assert lines[..|lines| - 1][..i] == lines[..i];
      InvalidStays(lines[..|lines| - 1], i, valid);
    }
  }

  // ----- The parsed file answers as the file read from the bottom

  /** The last matching entry is the entry of the deciding rule. */
  lemma {:induction false} LastMatchDecides(lines: seq<Line>, matches: (string, string) -> bool, path: string)
    ensures var c, d := Table(lines), Decide(lines, matches, path);
            var m := c.LastMatch(matches, path);
            && (m.None? <==> d.None?)
            && (m.Some? ==>
                  && c.isNegation[m.value] == d.value.negated
                  && c.owners[m.value] == (if d.value.negated then "" else d.value.owners[0])
                  && c.ownerCounts[m.value] == Min(|d.value.owners|, MAX_COUNT)
                  && c.patterns[m.value] == (if d.value.negated then "!" + d.value.pattern else d.value.pattern)
                  && c.sections[m.value] == SectionName(d.value.section)
                  && c.sectionOwners[m.value] == SectionOwners(d.value.section))
  {
    hide CodeOwners.LastMatch;
    hide TranslatePattern;
    hide Section;
    hide SectionName;
    hide SectionOwners;
    if lines != [] {
      var above, line := lines[..|lines| - 1], lines[|lines| - 1];
      LastMatchDecides(above, matches, path);
      var c, t := Table(above), Table(lines);
      if Effective(line, Section(above)) {
        var n := |c.globs|;
        assert t.globs == c.globs + [TranslatePattern(line.pattern)];
        assert t.globs[n] == TranslatePattern(line.pattern);
        assert forall k :: 0 <= k < n ==> t.globs[k] == c.globs[k];
        if !matches(t.globs[n], path) {
          SameLastMatch(c, t, matches, path);
        }
      } else {
        assert t.globs == c.globs;
        SameLastMatch(c, t, matches, path);
      }
    }
  }

  /** Globs added at the end that do not match leave the last match alone. */
  lemma SameLastMatch(c: CodeOwners, t: CodeOwners, matches: (string, string) -> bool, path: string)
    requires |c.globs| <= |t.globs| && forall k :: 0 <= k < |c.globs| ==> t.globs[k] == c.globs[k]
    requires forall k :: |c.globs| <= k < |t.globs| ==> !matches(t.globs[k], path)
    ensures c.LastMatch(matches, path) == t.LastMatch(matches, path)
  {
    var m, u := c.LastMatch(matches, path), t.LastMatch(matches, path);
    assert m.Some? ==> matches(t.globs[m.value], path);
    assert u.Some? ==> u.value < |c.globs| && matches(c.globs[u.value], path);
  }

  /** All six lookups are read off the decision: a path without a decision, or one
      that a negation decides, has no owner, but a negation still counts zero. */
  lemma LookupsFollowTheFile(lines: seq<Line>, matches: (string, string) -> bool, path: string)
    ensures var c, d := Table(lines), Decide(lines, matches, path);
            && c.OwnerOf(matches, path)
               == (if d.None? || d.value.negated then None else Some(d.value.owners[0]))
            && c.OwnerCountOf(matches, path)
               == (if d.None? then None else if d.value.negated then Some(0) else Some(Min(|d.value.owners|, MAX_COUNT)))
            && c.OwnerAndRuleOf(matches, path)
               == (if d.None? || d.value.negated then None else Some((d.value.owners[0], d.value.pattern)))
            && c.SectionOf(matches, path)
               == (if d.None? || d.value.negated then None else Some(SectionName(d.value.section)))
            && c.SectionAndOwnersOf(matches, path)
               == (if d.None? || d.value.negated then None
                   else Some((SectionName(d.value.section), SectionOwners(d.value.section))))
            && c.SectionOwnersAndRuleOf(matches, path)
               == (if d.None? || d.value.negated then None
                   else Some((SectionName(d.value.section), SectionOwners(d.value.section), d.value.pattern)))
  {
    LastMatchDecides(lines, matches, path);
    hide Table;
    hide Decide;
  }

  lemma {:induction false} HasSectionsIffHeader(lines: seq<Line>)
    ensures Table(lines).hasSections <==> exists line :: line in lines && line.Header?
    ensures Section(lines).Some? <==> Table(lines).hasSections
  {
    if lines != [] {
      HasSectionsIffHeader(lines[..|lines| - 1]);
      assert lines == lines[..|lines| - 1] + [lines[|lines| - 1]];
    }
  }

  // ----- The form of a section header

  function HeaderText(optional: bool, name: string, approvals: Option<string>, after: string): string {
    (if optional then "^" else "") + ("[" + (name + "]" + (Approvals(approvals) + after)))
  }

  predicate IsHeader(name: string, approvals: Option<string>, after: string) {
    && name != [] && ']' !in name
    && (approvals.Some? ==> approvals.value != [] && forall c :: c in approvals.value ==> IsDigit(c))
    && (after != [] ==> IsSpace(after[0]))
  }

  lemma FindBracket(name: string, rest: string)
    requires ']' !in name
    ensures Find(name + "]" + rest, "]", 0) == Some(|name|)
  {
    var s := name + "]" + rest;
    assert s[|name|..|name| + 1] == "]";
    forall i | 0 <= i < |name|
      ensures !OccursAt(s, "]", i)
    {
      assert s[i..i + 1][0] == name[i];
    }
    assert OccursAt(s, "]", |name|);
  }

  function Approvals(approvals: Option<string>): string {
    if approvals.Some? then "[" + approvals.value + "]" else ""
  }

  lemma ApprovalsAreRead(approvals: Option<string>, after: string)
    requires approvals.Some? ==> approvals.value != [] && forall c :: c in approvals.value ==> IsDigit(c)
    requires after != [] ==> IsSpace(after[0])
    ensures AfterApprovals(Approvals(approvals) + after) == Some(after)
  {
    hide Find;
    var tail := Approvals(approvals) + after;
    if approvals.Some? {
      var inner := approvals.value + "]" + after;
      assert tail == "[" + inner;
      assert tail[1..] == inner && ']' !in approvals.value;
      FindBracket(approvals.value, after);
      assert inner[|approvals.value| + 1..] == after;
      assert forall i :: 0 <= i < |approvals.value| ==> inner[i] == approvals.value[i];
    } else {
      assert tail == after;
    }
  }

  /** A text of this form is read as the header it shows. */
  lemma HeaderIsRead(optional: bool, name: string, approvals: Option<string>, after: string)
    requires IsHeader(name, approvals, after)
    ensures ParseSectionHeader(HeaderText(optional, name, approvals, after)) == Some(SectionHeader(name, Words(after, IsSpace)))
  {
    hide Find;
    hide Words;
    hide AfterApprovals;
    hide Approvals;
    hide IsSpace;
    var tail := Approvals(approvals) + after;
    ApprovalsAreRead(approvals, after);
    var inner := name + "]" + tail;
    FindBracket(name, tail);
    assert inner[|name| + 1..] == tail && inner[..|name|] == name;
    var rest := "[" + inner;
    assert rest[1..] == inner && ("^" + rest)[1..] == rest;
    var line := HeaderText(optional, name, approvals, after);
    assert line == (if optional then "^" + rest else rest);
    assert StartsWith("^" + rest, "^") && StartsWith(rest, "[") && rest[0] != '^';
    assert StartsWith(line, "^") <==> optional;
    assert ParseSectionHeader(line) == Some(SectionHeader(inner[..|name|], Words(after, IsSpace)));
  }

  /** A line is a header exactly when it has this form. */
  lemma HeaderIffForm(line: string, name: string)
    ensures (exists defaults :: ParseSectionHeader(line) == Some(SectionHeader(name, defaults)))
       <==> (exists optional, approvals, after ::
               IsHeader(name, approvals, after) && line == HeaderText(optional, name, approvals, after))
  {
    if optional, approvals, after :| IsHeader(name, approvals, after) && line == HeaderText(optional, name, approvals, after) {
      HeaderIsRead(optional, name, approvals, after);
    }
    if ParseSectionHeader(line).Some? && ParseSectionHeader(line).value.name == name {
      var optional, approvals, after := HeaderHasForm(line);
      assert IsHeader(name, approvals, after) && line == HeaderText(optional, name, approvals, after);
    }
  }

  lemma HeaderHasForm(line: string) returns (optional: bool, approvals: Option<string>, after: string)
    requires ParseSectionHeader(line).Some?
    ensures IsHeader(ParseSectionHeader(line).value.name, approvals, after)
    ensures line == HeaderText(optional, ParseSectionHeader(line).value.name, approvals, after)
  {
    hide Find;
    hide Words;
    hide IsSpace;
    hide AfterApprovals;
    optional := StartsWith(line, "^");
    var rest := if optional then line[1..] else line;
    var inner := rest[1..];
    var name, tail := SplitAtBracket(inner);
    approvals, after := ApprovalsHaveForm(tail);
    assert rest == "[" + inner;
    assert line == (if optional then "^" else "") + rest;
  }

  lemma ApprovalsHaveForm(tail: string) returns (approvals: Option<string>, after: string)
    requires AfterApprovals(tail).Some?
    ensures approvals.Some? ==> approvals.value != [] && forall c :: c in approvals.value ==> IsDigit(c)
    ensures tail == Approvals(approvals) + after && AfterApprovals(tail) == Some(after)
  {
    hide Find;
    approvals, after := None, tail;
    if StartsWith(tail, "[") {
      var inner := tail[1..];
      var count, end := SplitAtBracket(inner);
      approvals, after := Some(count), end;
      assert tail == "[" + inner;
      assert tail == "[" + count + "]" + end;
    }
  }

  lemma SplitAtBracket(s: string) returns (before: string, after: string)
    requires Find(s, "]", 0).Some?
    ensures s == before + "]" + after && ']' !in before && before == s[..Find(s, "]", 0).value]
    ensures after == s[Find(s, "]", 0).value + 1..]
  {
    var i := Find(s, "]", 0).value;
    before, after := s[..i], s[i + 1..];
    assert s == s[..i] + s[i..i + 1] + s[i + 1..];
    forall k | 0 <= k < i
      ensures s[k] != ']'
    {
      assert !OccursAt(s, "]", k) && s[k..k + 1] == [s[k]];
    }
  }

  lemma TrimmedStays(s: string)
    requires s != [] && !IsSpace(s[0]) && !IsSpace(s[|s| - 1])
    ensures TrimStart(s, IsSpace) == s && Trim(s, IsSpace) == s
  {
    hide IsSpace;
  }

  /** A printed rule is read back, as long as its pattern does not open a comment
      or a negation and the line is not a section header. */
  lemma RuleIsRead(negate: bool, pattern: string, owners: seq<string>)
    requires IsWord(pattern, IsSpace) && forall w :: w in owners ==> IsWord(w, IsSpace)
    requires !negate ==> pattern[0] != '#' && pattern[0] != '!' && ParseSectionHeader(Join([pattern] + owners, " ")).None?
    ensures Classify((if negate then "!" else "") + Join([pattern] + owners, " ")) == Rule(negate, pattern, owners)
  {
    assert !IsSpace('!');
    hide IsSpace;
    hide Join;
    hide Trim;
    hide TrimStart;
    hide Words;
    hide ParseSectionHeader;
    hide Classify;
    var words := [pattern] + owners;
    var rule := Join(words, " ");
    assert forall w :: w in words ==> w == pattern || w in owners;
    JoinIsTrimmed(words, IsSpace);
    WordsOfJoin(words, IsSpace);
    assert words[0] == pattern && words[1..] == owners;
    assert rule[0] == pattern[0];
    hide IsWord;
    TrimmedStays(rule);
    if negate {
      var line := "!" + rule;
      assert line[1..] == rule && line[0] == '!' && line[|line| - 1] == rule[|rule| - 1];
      TrimmedStays(line);
      NegationIsNoHeader(line);
      ClassifyRule(line, rule);
    } else {
      assert "" + rule == rule;
      ClassifyRule(rule, rule);
    }
  }

  lemma NegationIsNoHeader(line: string)
    requires line != [] && line[0] == '!'
    ensures ParseSectionHeader(line).None?
  {
  }

  lemma ClassifyRule(line: string, rest: string)
    requires line != [] && Trim(line, IsSpace) == line && line[0] != '#' && ParseSectionHeader(line).None?
    requires rest == if line[0] == '!' then TrimStart(line[1..], IsSpace) else line
    requires Words(rest, IsSpace) != []
    ensures Classify(line) == Rule(line[0] == '!', Words(rest, IsSpace)[0], Words(rest, IsSpace)[1..])
  {
    hide Trim;
    hide TrimStart;
    hide Words;
    hide ParseSectionHeader;
    hide IsSpace;
  }

  /** A leading slash changes the glob of exactly the patterns without a slash. */
  lemma AnchorMattersIffNoSlash(pattern: string)
    requires !StartsWith(pattern, "/")
    ensures TranslatePattern("/" + pattern) == TranslatePattern(pattern) <==> '/' in pattern
  {
    var anchored := "/" + pattern;
    assert anchored[1..] == pattern;
    var last := |pattern| - 1;
    if pattern != [] && pattern[last] == '/' {
      assert (pattern[..last] + "/**")[last] == '/';
    }
  }
}
