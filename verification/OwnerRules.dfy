/** What the lines of a CODEOWNERS file mean (crates/cli/src/codeowners.rs). */
module OwnerRules {
  import opened Wrappers
  import opened Text
  import opened CodeOwners

  // ----- From the text to lines

  /** Every line with a line break behind it, and perhaps a carriage return before that. */
  function PrintLines(lines: seq<string>, windows: bool): string {
    if lines == [] then ""
    else lines[0] + (if windows then "\r\n" else "\n") + PrintLines(lines[1..], windows)
  }

  predicate IsPlainLine(line: string) {
    '\n' !in line && (line != [] ==> line[|line| - 1] != '\r')
  }

  lemma LineIsRead(line: string, ending: string, rest: string)
    requires IsPlainLine(line) && (ending == "\n" || ending == "\r\n")
    ensures Lines(line + ending + rest) == [line] + Lines(rest)
  {
    var isBreak := (c: char) => c == '\n';
    var s := line + ending + rest;
    var head := if ending == "\n" then line else line + "\r";
    assert s == head + ("\n" + rest);
    UpToStops(head, "\n" + rest, isBreak);
    hide UpTo;
    assert ("\n" + rest)[1..] == rest && s[|head| + 1..] == rest;
    assert ChompCarriageReturn(head) == line;
  }

  /** The lines of a printed file, whichever line breaks it has; the last line may go
      without one. */
  lemma {:induction false} PrintedLinesAreRead(lines: seq<string>, windows: bool, last: string)
    requires (forall line :: line in lines ==> IsPlainLine(line)) && '\n' !in last
    ensures Lines(PrintLines(lines, windows) + last) == lines + (if last == "" then [] else [last])
    decreases |lines|
  {
    hide IsPlainLine;
    hide Lines;
    hide PrintLines;
    if lines == [] {
      LastLineIsRead(last);
    } else {
      assert lines[0] in lines && lines == [lines[0]] + lines[1..];
      assert forall line :: line in lines[1..] ==> line in lines;
      PrintedLinesAreRead(lines[1..], windows, last);
      PrintStep(lines, windows, last);
      LineIsRead(lines[0], if windows then "\r\n" else "\n", PrintLines(lines[1..], windows) + last);
    }
  }

  lemma PrintStep(lines: seq<string>, windows: bool, last: string)
    requires lines != []
    ensures PrintLines(lines, windows) + last
         == lines[0] + (if windows then "\r\n" else "\n") + (PrintLines(lines[1..], windows) + last)
  {
  }

  lemma LastLineIsRead(last: string)
    requires '\n' !in last
    ensures Lines(PrintLines([], false) + last) == Lines(PrintLines([], true) + last) == (if last == "" then [] else [last])
  {
    assert PrintLines([], false) + last == PrintLines([], true) + last == last;
    UpToStops(last, "", (c: char) => c == '\n');
    assert last + "" == last;
  }

  lemma {:induction false} SpaceIsTrimmed(space: string, s: string)
    requires forall k :: 0 <= k < |space| ==> IsSpace(space[k])
    ensures TrimStart(space + s, IsSpace) == TrimStart(s, IsSpace)
    decreases |space|
  {
    hide IsSpace;
    if space == [] {
      assert space + s == s;
    } else {
      SpaceIsTrimmed(space[1..], s);
      assert (space + s)[1..] == space[1..] + s;
    }
  }

  lemma {:induction false} TrimEndKeepsFirst(s: string)
    requires s != [] && !IsSpace(s[0])
    ensures TrimEnd(s, IsSpace) != [] && TrimEnd(s, IsSpace)[0] == s[0]
    decreases |s|
  {
    hide IsSpace;
    if IsSpace(s[|s| - 1]) {
      TrimEndKeepsFirst(s[..|s| - 1]);
    }
  }

  /** Comment lines and white space say nothing. */
  lemma CommentIsBlank(space: string, comment: string)
    requires forall k :: 0 <= k < |space| ==> IsSpace(space[k])
    ensures Classify(space + "#" + comment) == Blank && Classify(space) == Blank
  {
    var text := "#" + comment;
    assert space + "#" + comment == space + text && space + "" == space;
    SpaceIsTrimmed(space, text);
    SpaceIsTrimmed(space, "");
    TrimEndKeepsFirst(text);
  }

  /** A printed header is read with the owners it names. */
  lemma HeaderOwnersAreRead(optional: bool, name: string, approvals: Option<string>, owners: seq<string>)
    requires IsHeader(name, approvals, "") && forall w :: w in owners ==> IsWord(w, IsSpace)
    ensures ParseSectionHeader(HeaderText(optional, name, approvals, " " + Join(owners, " "))) == Some(SectionHeader(name, owners))
  {
    HeaderIsRead(optional, name, approvals, " " + Join(owners, " "));
    LeadingSpace(Join(owners, " "), IsSpace);
    WordsOfJoin(owners, IsSpace);
    hide HeaderText;
    hide ParseSectionHeader;
    hide Words;
    hide Join;
  }

  /** The globs of all patterns: anchored ones start at the root, a trailing slash
      means everything below, and only a name without a slash matches anywhere. */
  lemma GlobsOfPatterns(name: string)
    requires name != "" && name[0] != '/' && name[|name| - 1] != '/'
    ensures TranslatePattern("/" + name) == name
    ensures TranslatePattern("/" + name + "/") == TranslatePattern(name + "/") == name + "/**"
    ensures TranslatePattern(name) == if '/' in name then name else "**/" + name
  {
    GlobOfAnchored(name);
    GlobOfDirectory(name);
  }

  lemma GlobOfAnchored(name: string)
    requires name != "" && name[0] != '/' && name[|name| - 1] != '/'
    ensures TranslatePattern("/" + name) == name
    ensures TranslatePattern(name) == if '/' in name then name else "**/" + name
  {
    assert ("/" + name)[1..] == name;
  }

  lemma GlobOfDirectory(name: string)
    requires name != "" && name[0] != '/'
    ensures TranslatePattern("/" + name + "/") == TranslatePattern(name + "/") == name + "/**"
  {
    var directory := name + "/";
    assert "/" + name + "/" == "/" + directory && ("/" + directory)[1..] == directory;
    assert directory[..|name|] == name && directory[0] == name[0];
    assert (name + "/**")[|name|] == '/';
  }

  // ----- Sections

  /** The header that counts is the nearest one above. */
  lemma {:induction false} NearestHeaderCounts(above: seq<Line>, header: SectionHeader, between: seq<Line>)
    requires forall line :: line in between ==> !line.Header?
    ensures Section(above + [Header(header)] + between) == Some(header)
    ensures Section(between) == None
    decreases |between|
  {
    var lines := above + [Header(header)] + between;
    if between != [] {
      var n := |between| - 1;
      assert forall line :: line in between[..n] ==> line in between;
      NearestHeaderCounts(above, header, between[..n]);
      assert lines[..|lines| - 1] == above + [Header(header)] + between[..n];
      assert lines[|lines| - 1] == between[n] && between[n] in between;
    }
  }

  lemma SectionSkips(above: seq<Line>, line: Line, below: seq<Line>)
    requires !line.Header?
    ensures Section(above + [line] + below) == Section(above + below)
    decreases |below|
  {
    var lines := above + [line] + below;
    if below == [] {
      assert lines[..|lines| - 1] == above && above + below == above;
    } else {
      var n := |below| - 1;
      SectionSkips(above, line, below[..n]);
      assert lines[..|lines| - 1] == above + [line] + below[..n];
      assert (above + below)[..|above + below| - 1] == above + below[..n];
    }
  }

  // ----- Which rule decides, and for whom

  predicate HasDefaults(above: seq<Line>) {
    Section(above).Some? && Section(above).value.defaults != []
  }

  /** A rule without owners where its section has none to inherit changes nothing. */
  lemma {:induction false} OwnerlessRuleIsIgnored(above: seq<Line>, pattern: string, below: seq<Line>)
    requires !HasDefaults(above)
    ensures Table(above + [Rule(false, pattern, [])] + below) == Table(above + below)
    decreases |below|
  {
    var line := Rule(false, pattern, []);
    var lines := above + [line] + below;
    if below == [] {
      assert lines[..|lines| - 1] == above && above + below == above;
    } else {
      var n := |below| - 1;
      OwnerlessRuleIsIgnored(above, pattern, below[..n]);
      SectionSkips(above, line, below[..n]);
      assert lines[..|lines| - 1] == above + [line] + below[..n] && lines[|lines| - 1] == below[n];
      assert (above + below)[..|above + below| - 1] == above + below[..n];
      hide AddLine;
    }
  }

  /** Rules that do not match add no entry that matches. */
  lemma {:induction false} RestDoesNotMatch(above: seq<Line>, below: seq<Line>, matches: (string, string) -> bool, path: string)
    requires forall line :: line in below && line.Rule? ==> !matches(TranslatePattern(line.pattern), path)
    ensures var c, t := Table(above), Table(above + below);
            && |c.globs| <= |t.globs| && (forall k :: 0 <= k < |c.globs| ==> t.globs[k] == c.globs[k])
            && (forall k :: |c.globs| <= k < |t.globs| ==> !matches(t.globs[k], path))
            && (forall k :: 0 <= k < |c.globs| ==>
                  t.owners[k] == c.owners[k] && t.ownerCounts[k] == c.ownerCounts[k] && t.isNegation[k] == c.isNegation[k]
                  && t.patterns[k] == c.patterns[k] && t.sections[k] == c.sections[k])
    decreases |below|
  {
    hide TranslatePattern;
    hide Section;
    var lines := above + below;
    if below == [] {
      assert lines == above;
    } else {
      var n := |below| - 1;
      var line := below[n];
      assert forall other :: other in below[..n] ==> other in below;
      assert line in below;
      RestDoesNotMatch(above, below[..n], matches, path);
      assert lines[..|lines| - 1] == above + below[..n] && lines[|lines| - 1] == line;
      var c, t := Table(above + below[..n]), Table(lines);
      assert t == AddLine(c, line, Section(above + below[..n]));
      hide Table;
      hide OwnersOf;
    }
  }

  /** The last rule that matches decides, if it takes ownership away, names owners or
      has a section to inherit from: a negation leaves the path unowned; named owners
      win over those of the section; without them the section's owners hold. */
  lemma LastRuleDecides(above: seq<Line>, line: Line, below: seq<Line>, matches: (string, string) -> bool, path: string)
    requires line.Rule? && matches(TranslatePattern(line.pattern), path)
    requires forall other :: other in below && other.Rule? ==> !matches(TranslatePattern(other.pattern), path)
    ensures var c := Table(above + [line] + below);
            && (line.negate ==> c.OwnerOf(matches, path) == None && c.OwnerCountOf(matches, path) == Some(0))
            && (!line.negate && line.owners != [] ==>
                  && c.OwnerAndRuleOf(matches, path) == Some((line.owners[0], line.pattern))
                  && c.OwnerCountOf(matches, path) == Some(Min(|line.owners|, MAX_COUNT)))
            && (!line.negate && line.owners == [] && HasDefaults(above) ==>
                  && c.OwnerAndRuleOf(matches, path) == Some((Section(above).value.defaults[0], line.pattern))
                  && c.OwnerCountOf(matches, path) == Some(Min(|Section(above).value.defaults|, MAX_COUNT)))
            && (!line.negate && (line.owners != [] || HasDefaults(above)) ==>
                  c.SectionOf(matches, path)
                  == Some(if Section(above).Some? then Some(Section(above).value.name) else None))
  {
    if line.negate || line.owners != [] || HasDefaults(above) {
      var first := above + [line];
      assert first[..|first| - 1] == above;
      RestDoesNotMatch(first, below, matches, path);
      var c, t := Table(first), Table(first + below);
      var n := |c.globs| - 1;
      assert c.globs[n] == TranslatePattern(line.pattern);
      hide TranslatePattern;
      hide Section;
      hide Table;
      assert t.LastMatch(matches, path) == Some(n);
    }
  }

  // ----- The first pattern that is no valid glob

  ghost predicate AllValid(globs: seq<string>, valid: string -> bool) {
    forall glob :: glob in globs ==> valid(glob)
  }

  /** The glob at `k` is not valid and all before it are. */
  ghost predicate FailsAt(globs: seq<string>, valid: string -> bool, k: nat) {
    k < |globs| && !valid(globs[k]) && AllValid(globs[..k], valid)
  }

  lemma TableGrows(above: seq<Line>, line: Line)
    ensures Table(above + [line]).globs
         == Table(above).globs + (if Effective(line, Section(above)) then [TranslatePattern(line.pattern)] else [])
  {
    hide TranslatePattern;
    hide Section;
    assert (above + [line])[..|above|] == above;
  }

  /** Parsing fails at the first entry whose glob is not valid, and only then. */
  lemma {:induction false} FirstInvalidGlob(lines: seq<Line>, valid: string -> bool)
    ensures FirstInvalid(lines, valid).None? <==> AllValid(Table(lines).globs, valid)
    ensures var first := FirstInvalid(lines, valid);
            first.Some? ==> exists k: nat :: FailsAt(Table(lines).globs, valid, k)
                                        && Table(lines).globs[k] == TranslatePattern(first.value)
    decreases |lines|
  {
    hide TranslatePattern;
    hide Section;
    hide Table;
    if lines == [] {
      NoGlobs();
    } else {
      var above, line := lines[..|lines| - 1], lines[|lines| - 1];
      assert lines == above + [line];
      FirstInvalidGlob(above, valid);
      TableGrows(above, line);
      var c, t := Table(above), Table(lines);
      var n := |c.globs|;
      if FirstInvalid(above, valid).Some? {
        var k: nat :| FailsAt(c.globs, valid, k) && c.globs[k] == TranslatePattern(FirstInvalid(above, valid).value);
        assert t.globs[..k] == c.globs[..k] && t.globs[k] in t.globs;
        assert FailsAt(t.globs, valid, k);
      } else if FirstInvalid(lines, valid).Some? {
        assert t.globs[..n] == c.globs && t.globs[n] in t.globs;
        assert FailsAt(t.globs, valid, n);
      }
    }
  }

  lemma NoGlobs()
    ensures Table([]).globs == []
  {
  }
}
