/** The comments that stripping records (scripts/public-config-corpus.py). */
module JsoncNotes {
  import opened Text
  import opened Jsonc
  import opened JsoncTokens

  /** The comments of a printed text whose first piece stands on `line`. */
  function NotesOf(ps: seq<Piece>, line: nat): seq<Comment> {
    if ps == [] then []
    else
      (match ps[0]
       case LineNote(text) => [Comment(line, Trim(text, IsPythonSpace))]
       case BlockNote(text) => [Comment(line, Join(Words(text, IsPythonSpace), " "))]
       case _ => [])
      + NotesOf(ps[1..], line + Newlines(PieceText(ps[0])))
  }

  lemma {:induction false} PlainHasNoComment(content: string, i: nat, j: nat)
    requires i <= j <= |content| && forall k :: i <= k < j ==> content[k] != '/' && content[k] != '"'
    ensures Comments(content, i, Outside) == Comments(content, j, Outside)
    decreases j - i
  {
    hide Comments;
    if i < j {
      assert content[i..][0] == content[i];
      CharacterStep(content, i, Outside);
      PlainHasNoComment(content, i + 1, j);
    }
  }

  lemma {:induction false} BodyHasNoComment(content: string, i: nat, j: nat, escape: bool)
    requires i <= j < |content| && content[j] == '"' && IsBody(content[i..j], escape)
    ensures Comments(content, i, Inside(escape)) == Comments(content, j + 1, Outside)
    decreases j - i
  {
    hide Comments;
    CharacterStep(content, i, Inside(escape));
    if i < j {
      assert content[i..j][1..] == content[i + 1..j] && content[i..j][0] == content[i];
      BodyHasNoComment(content, i + 1, j, Next(Inside(escape), content[i]).escape);
    }
  }

  lemma StrHasNoComment(content: string, i: nat, body: string)
    requires i + |body| + 2 <= |content| && content[i..i + |body| + 2] == "\"" + body + "\"" && IsStringBody(body)
    ensures Comments(content, i, Outside) == Comments(content, i + |body| + 2, Outside)
  {
    hide Comments;
    hide IsBody;
    hide IsStringBody;
    var j := i + 1 + |body|;
    var piece := content[i..j + 1];
    StringBodyIsBody(body);
    assert piece[0] == '"' && content[i] == piece[0] && content[i..][0] == content[i];
    assert piece[|body| + 1] == '"' && content[j] == piece[|body| + 1];
    assert piece == "\"" + body + "\"" && piece[1..|body| + 1] == body;
    SliceOfSlice(content[..j + 1], i, 1, |body| + 1);
    assert content[..j + 1][i..] == piece && content[..j + 1][i + 1..j] == content[i + 1..j];
    CharacterStep(content, i, Outside);
    BodyHasNoComment(content, i + 1, j, false);
  }

  /** What the comments of one piece and of the text behind it are. */
  lemma PieceComments(content: string, i: nat, p: Piece, rest: string)
    requires i <= |content| && content[i..] == PieceText(p) + rest
    requires PieceOk(p) && (p.LineNote? ==> rest == [] || rest[0] == '\n')
    ensures i + |PieceText(p)| <= |content|
    ensures Comments(content, i, Outside)
         == NotesOf([p], 1 + Newlines(content[..i])) + Comments(content, i + |PieceText(p)|, Outside)
  {
    hide Comments;
    hide IsStringBody;
    hide Trim;
    hide Words;
    hide Join;
    hide Newlines;
    hide StripComments;
    var text := PieceText(p);
    var j := i + |text|;
    assert content[i..j] == content[i..][..|text|] == text;
    assert [p][1..] == [];
    match p
    case Str(body) => StrHasNoComment(content, i, body);
    case Punct(c) =>
      assert content[i] == content[i..j][0];
      PlainHasNoComment(content, i, j);
    case Word(w) =>
      assert forall k :: i <= k < j ==> content[k] == content[i..j][k - i];
      PlainHasNoComment(content, i, j);
    case Gap(space) =>
      assert forall k :: i <= k < j ==> content[k] == content[i..j][k - i];
      PlainHasNoComment(content, i, j);
    case LineNote(note) => LineNoteComments(content, i, note, rest);
    case BlockNote(note) => BlockNoteComments(content, i, note, rest);
  }

  lemma LineNoteComments(content: string, i: nat, note: string, rest: string)
    requires i <= |content| && content[i..] == "//" + note + rest
    requires '\n' !in note && (rest == [] || rest[0] == '\n')
    ensures Comments(content, i, Outside)
         == [Comment(1 + Newlines(content[..i]), Trim(note, IsPythonSpace))] + Comments(content, i + |note| + 2, Outside)
  {
    hide Comments;
    hide Trim;
    hide Newlines;
    LineNoteEnds(note, rest);
    var j := i + |note| + 2;
    assert content[i + 2..j] == content[i..][2..|note| + 2] == note;
    LineCommentStep(content, i, j);
  }

  lemma BlockNoteComments(content: string, i: nat, note: string, rest: string)
    requires i <= |content| && content[i..] == "/*" + note + "*/" + rest
    requires forall k :: 0 <= k < |note| - 1 ==> !(note[k] == '*' && note[k + 1] == '/')
    ensures Comments(content, i, Outside)
         == [Comment(1 + Newlines(content[..i]), Join(Words(note, IsPythonSpace), " "))]
            + Comments(content, i + |note| + 4, Outside)
  {
    hide Comments;
    hide Words;
    hide Join;
    hide Newlines;
    BlockNoteEnds(note, rest);
    var stop := i + |note| + 2;
    assert content[i + 2..stop] == content[i..][2..|note| + 2] == note;
    BlockCommentStep(content, i, stop, stop + 2);
  }

  lemma NotesStep(ps: seq<Piece>, line: nat)
    requires ps != []
    ensures NotesOf(ps, line) == NotesOf([ps[0]], line) + NotesOf(ps[1..], line + Newlines(PieceText(ps[0])))
  {
    hide Trim;
    hide Words;
    hide Join;
    hide Newlines;
    assert [ps[0]][1..] == [];
  }

  /** The recorded comments of a printed text are its notes in order: each with the
      line it starts on, a line comment without the white space around it, a block
      comment as its words. String literals that look like comments give none. */
  lemma {:induction false} CommentsAreTheNotes(before: string, ps: seq<Piece>)
    requires WellFormed(ps)
    ensures Comments(before + Render(ps), |before|, Outside) == NotesOf(ps, 1 + Newlines(before))
    decreases |ps|
  {
    hide Comments;
    hide Newlines;
    hide PieceOk;
    hide NotesOf;
    var content := before + Render(ps);
    if ps == [] {
      NoCommentsAtEnd(content);
      NoNotesInNothing(1 + Newlines(before));
    } else {
      var text := PieceText(ps[0]);
      NotesStep(ps, 1 + Newlines(before));
      FirstPieceComments(before, ps);
      assert content == before + text + Render(ps[1..]);
      hide PieceText;
      hide Render;
      CommentsAreTheNotes(before + text, ps[1..]);
      NewlinesAppend(before, text);
    }
  }

  lemma NoNotesInNothing(line: nat)
    ensures NotesOf([], line) == []
  {
  }

  lemma FirstPieceComments(before: string, ps: seq<Piece>)
    requires WellFormed(ps) && ps != []
    ensures var content, text := before + Render(ps), PieceText(ps[0]);
            |before + text| <= |content|
            && Comments(content, |before|, Outside)
               == NotesOf([ps[0]], 1 + Newlines(before)) + Comments(content, |before + text|, Outside)
  {
    hide Comments;
    hide Newlines;
    hide NotesOf;
    FirstPieceFits(ps);
    var content, text, rest := before + Render(ps), PieceText(ps[0]), Render(ps[1..]);
    hide WellFormed;
    hide PieceOk;
    hide PieceText;
    hide Render;
    assert content[|before|..] == Render(ps) && content[..|before|] == before;
    PieceComments(content, |before|, ps[0], rest);
    assert |before| + |text| == |before + text|;
  }

  lemma FirstPieceFits(ps: seq<Piece>)
    requires WellFormed(ps) && ps != []
    ensures PieceOk(ps[0]) && Render(ps) == PieceText(ps[0]) + Render(ps[1..])
    ensures ps[0].LineNote? ==> Render(ps[1..]) == [] || Render(ps[1..])[0] == '\n'
  {
  }

  lemma NoCommentsAtEnd(content: string)
    ensures Comments(content, |content|, Outside) == []
  {
  }

  /** A block comment that is never closed blanks everything up to the end. */
  lemma UnclosedCommentBlanksTheRest(s: string)
    requires |s| >= 2 && s[0] == '/' && s[1] == '*'
    requires forall k :: 2 <= k < |s| - 1 ==> !(s[k] == '*' && s[k + 1] == '/')
    ensures StripComments(s, Outside) == Blank(s)
  {
    assert forall k :: 2 <= k ==> !ClosesAt(s, k);
    assert BlockStop(s, 2) + 1 >= |s|;
    var n := BlockEnd(s);
    assert n == |s| && s[..n] == s && s[n..] == [];
    BlockStep(s);
    StripEmpty(Outside);
  }
}
