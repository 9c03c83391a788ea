/** Repeated reconcile runs on one commit (crates/cli/src/ci.rs): replies are
    never repeated, and a run that went through leaves nothing to stage. */
module ReconcileRuns {
  import opened Wrappers
  import opened Text
  import opened Markers
  import opened Sequences
  import opened Reconcile

  // ----- What the provider's view contains

  /** One more comment never hides another. */
  lemma {:induction false} ThreadNotesGrow(threads: seq<string>, comments: seq<Comment>, c: Comment)
    ensures multiset(ThreadNotes(threads, {}, comments)) <= multiset(ThreadNotes(threads, {}, comments + [c]))
    decreases |threads|
  {
    if threads != [] {
      var n := |threads| - 1;
      ThreadNotesGrow(threads[..n], comments, c);
      assert (comments + [c])[..|comments|] == comments;
      var more := if c.thread == threads[n] then [c] else [];
      assert InThread(comments + [c], threads[n]) == InThread(comments, threads[n]) + more;
    }
  }

  lemma {:induction false} CarryingWithout(comments: seq<Comment>, k: nat, fingerprint: string)
    requires k < |comments|
    ensures |Carrying(comments, fingerprint)|
         == |Carrying(Without(comments, k), fingerprint)| + (if Carries(comments[k], fingerprint) then 1 else 0)
    decreases |comments|
  {
    hide Carries;
    var n := |comments| - 1;
    var rest := Without(comments, k);
    if k == n {
      assert rest == comments[..n];
    } else {
      CarryingWithout(comments[..n], k, fingerprint);
      assert rest[..n - 1] == Without(comments[..n], k);
    }
  }

  lemma {:induction false} CarryingOfFewer(some: seq<Comment>, all: seq<Comment>, fingerprint: string)
    requires multiset(some) <= multiset(all)
    ensures |Carrying(some, fingerprint)| <= |Carrying(all, fingerprint)|
    decreases |some|
  {
    hide Carries;
    if some != [] {
      var n := |some| - 1;
      var k := MatchLast(some, all);
      CarryingOfFewer(some[..n], Without(all, k), fingerprint);
      CarryingWithout(all, k, fingerprint);
    }
  }

  lemma MarkedMonotone(some: seq<Comment>, all: seq<Comment>, marker: string)
    requires multiset(some) <= multiset(all) && IsMarked(some, marker)
    ensures IsMarked(all, marker)
  {
    hide Marks;
    var c :| c in some && Marks(c, marker);
    assert c in multiset(some);
    assert c in all;
  }

  // ----- Replies for one fingerprint

  function RepliesFor(operations: seq<Operation>, fingerprint: string): nat {
    if operations == [] then 0
    else
      var last := operations[|operations| - 1];
      RepliesFor(operations[..|operations| - 1], fingerprint)
      + (if IsReply(last) && last.fingerprint == fingerprint then 1 else 0)
  }

  lemma {:induction false} RepliesForAppend(a: seq<Operation>, b: seq<Operation>, fingerprint: string)
    ensures RepliesFor(a + b, fingerprint) == RepliesFor(a, fingerprint) + RepliesFor(b, fingerprint)
    decreases |b|
  {
    if b == [] {
      assert a + b == a;
    } else {
      var n := |b| - 1;
      RepliesForAppend(a, b[..n], fingerprint);
      assert (a + b)[..|a| + n] == a + b[..n];
    }
  }

  lemma {:induction false} RepliesForUniform(operations: seq<Operation>, fingerprint: string, replies: bool, same: bool)
    requires forall i :: 0 <= i < |operations| ==> IsReply(operations[i]) == replies
    requires forall i :: 0 <= i < |operations| ==> (operations[i].fingerprint == fingerprint) == same
    ensures RepliesFor(operations, fingerprint) == if replies && same then |operations| else 0
    decreases |operations|
  {
    if operations != [] {
      RepliesForUniform(operations[..|operations| - 1], fingerprint, replies, same);
    }
  }

  lemma {:induction false} RepliesInNotes(notes: seq<Comment>, of: string,
                                          sha: Option<string>, already: bool, fingerprint: string)
    ensures RepliesFor(NotesAndResolves(notes, of, sha, already), fingerprint)
         == if already || of != fingerprint then 0 else |notes|
    decreases |notes|
  {
    hide ResolvedBody;
    if notes != [] {
      var n := |notes| - 1;
      RepliesInNotes(notes[..n], of, sha, already, fingerprint);
      var note := Note(of, notes[n].thread, ResolvedBody(of, sha));
      var resolve := Resolve(of, notes[n].thread);
      var before := NotesAndResolves(notes[..n], of, sha, already);
      RepliesForAppend(before, if already then [] else [note], fingerprint);
      RepliesForAppend(before + (if already then [] else [note]), [resolve], fingerprint);
      assert [note][..0] == [] && [resolve][..0] == [];
    }
  }

  /** One run stages one reply per carrying comment, or none if one was posted. */
  lemma RepliesStagedForOne(provider: Provider, s: Server, of: string, sha: Option<string>, fingerprint: string)
    ensures RepliesFor(StageOne(provider, s, of, sha), fingerprint)
         == if of != fingerprint || AlreadyResolved(SeenComments(provider, s), of, sha) then 0
            else |Carrying(SeenComments(provider, s), fingerprint)|
  {
    hide Carrying;
    hide IsMarked;
    hide ResolvedBody;
    hide ResolvedKey;
    var already := AlreadyResolved(SeenComments(provider, s), of, sha);
    var seen := SeenComments(provider, s);
    var notes := SeenNotes(provider, s);
    assert provider == Gitlab ==> notes == seen;
    hide SeenComments;
    hide SeenNotes;
    match provider
    case Github =>
      var replies := if already then [] else Replies(Carrying(seen, of), of, sha);
      RepliesForAppend(replies, Resolves(Carrying(notes, of), of), fingerprint);
      RepliesForUniform(replies, fingerprint, true, of == fingerprint);
      RepliesForUniform(Resolves(Carrying(notes, of), of), fingerprint, false, of == fingerprint);
    case Gitlab =>
      RepliesInNotes(Carrying(notes, of), of, sha, already, fingerprint);
  }

  predicate Distinct(stale: seq<string>) {
    forall i, j :: 0 <= i < j < |stale| ==> stale[i] != stale[j]
  }

  lemma {:induction false} RepliesStaged(provider: Provider, s: Server, stale: seq<string>,
                                         sha: Option<string>, fingerprint: string)
    requires Distinct(stale)
    ensures RepliesFor(Stage(provider, s, stale, sha), fingerprint)
         == if fingerprint !in stale || AlreadyResolved(SeenComments(provider, s), fingerprint, sha) then 0
            else |Carrying(SeenComments(provider, s), fingerprint)|
    decreases |stale|
  {
    hide StageOne;
    hide Carrying;
    hide AlreadyResolved;
    hide SeenComments;
    if stale != [] {
      var n := |stale| - 1;
      RepliesStaged(provider, s, stale[..n], sha, fingerprint);
      RepliesStagedForOne(provider, s, stale[n], sha, fingerprint);
      RepliesForAppend(Stage(provider, s, stale[..n], sha), StageOne(provider, s, stale[n], sha), fingerprint);
      assert fingerprint in stale <==> fingerprint in stale[..n] || fingerprint == stale[n];
    }
  }

  lemma {:induction false} RepliesForPrefix(operations: seq<Operation>, k: nat, fingerprint: string)
    requires k <= |operations|
    ensures RepliesFor(operations[..k], fingerprint) <= RepliesFor(operations, fingerprint)
  {
    RepliesForAppend(operations[..k], operations[k..], fingerprint);
    assert operations[..k] + operations[k..] == operations;
  }

  // ----- What applying operations adds

  lemma GrowsByOne(provider: Provider, s: Server, op: Operation)
    requires IsReply(op)
    ensures multiset(SeenComments(provider, s)) <= multiset(SeenComments(provider, Effect(s, op)))
  {
    var t := Effect(s, op);
    if t != s {
      var c := t.comments[|s.comments|];
      assert t.comments == s.comments + [c];
      ThreadNotesGrow(s.threads, s.comments, c);
    }
  }

  lemma {:induction false} ApplyAllGrows(provider: Provider, s: Server, operations: seq<Operation>)
    ensures var t := ApplyAll(s, operations);
            && t.threads == s.threads && s.resolved <= t.resolved
            && (forall c :: c in s.comments ==> c in t.comments)
            && multiset(SeenComments(provider, s)) <= multiset(SeenComments(provider, t))
    decreases |operations|
  {
    if operations != [] {
      var n := |operations| - 1;
      var t := ApplyAll(s, operations[..n]);
      ApplyAllGrows(provider, s, operations[..n]);
      if IsReply(operations[n]) {
        GrowsByOne(provider, t, operations[n]);
      }
    }
  }

  /** There is something to answer: the comment of a reply is there. */
  predicate IsAnswerable(s: Server, op: Operation) {
    op.Reply? ==> HasId(s.comments, op.commentId)
  }

  predicate AllAnswerable(s: Server, operations: seq<Operation>) {
    forall i :: 0 <= i < |operations| ==> IsAnswerable(s, operations[i])
  }

  /** The thread of the comment a reply answers, or of the note. */
  function AnsweredThread(s: Server, op: Operation): string
    requires IsReply(op) && IsAnswerable(s, op)
  {
    if op.Reply? then ThreadOf(s.comments, op.commentId) else op.thread
  }

  /** The comment a reply becomes. */
  predicate IsReplyComment(s: Server, c: Comment, op: Operation) {
    IsReply(op) && c.bot && c.body == op.body && IsAnswerable(s, op) && c.thread == AnsweredThread(s, op)
  }

  ghost predicate IsPosted(s: Server, comments: seq<Comment>, op: Operation) {
    exists c :: c in comments && IsReplyComment(s, c, op)
  }

  ghost predicate ComesFrom(s: Server, c: Comment, operations: seq<Operation>) {
    exists op :: op in operations && IsReplyComment(s, c, op)
  }

  lemma {:induction false} ThreadOfMore(comments: seq<Comment>, more: seq<Comment>, id: nat)
    requires HasId(comments, id)
    ensures HasId(comments + more, id) && ThreadOf(comments + more, id) == ThreadOf(comments, id)
    decreases |comments|
  {
    var all := comments + more;
    var c :| c in comments && c.id == id;
    assert c in all;
    if comments[0].id != id {
      assert c in comments[1..];
      ThreadOfMore(comments[1..], more, id);
      assert all[1..] == comments[1..] + more;
    }
  }

  /** Comments stay where they are. */
  lemma {:induction false} ApplyAllAppends(s: Server, operations: seq<Operation>) returns (added: seq<Comment>)
    ensures ApplyAll(s, operations).comments == s.comments + added
    decreases |operations|
  {
    if operations == [] {
      added := [];
    } else {
      var n := |operations| - 1;
      var t := ApplyAll(s, operations[..n]);
      added := ApplyAllAppends(s, operations[..n]);
      var u := Effect(t, operations[n]);
      if u.comments != t.comments {
        var c := u.comments[|t.comments|];
        assert u.comments == t.comments + [c] == s.comments + (added + [c]);
        added := added + [c];
      }
    }
  }

  lemma StaysAnswerable(s: Server, init: seq<Operation>, op: Operation)
    requires IsAnswerable(s, op)
    ensures IsAnswerable(ApplyAll(s, init), op)
    ensures IsReply(op) ==> AnsweredThread(ApplyAll(s, init), op) == AnsweredThread(s, op)
  {
    var added := ApplyAllAppends(s, init);
    if op.Reply? {
      ThreadOfMore(s.comments, added, op.commentId);
    }
  }

  /** The comments an apply adds are its replies, each in the thread it answers, and
      every reply is added. */
  lemma {:induction false} AddedComments(s: Server, operations: seq<Operation>)
    requires AllAnswerable(s, operations)
    ensures var t := ApplyAll(s, operations);
            && (forall c :: c in t.comments ==> c in s.comments || ComesFrom(s, c, operations))
            && (forall op :: op in operations && IsReply(op) ==> IsPosted(s, t.comments, op))
            && (forall op :: op in operations && op.Resolve? ==> op.thread in t.resolved)
    decreases |operations|
  {
    if operations != [] {
      var n := |operations| - 1;
      var init := operations[..n];
      var t, u := ApplyAll(s, init), ApplyAll(s, operations);
      AddedComments(s, init);
      assert IsAnswerable(s, operations[n]);
      StaysAnswerable(s, init, operations[n]);
      AddedByOne(t, operations[n]);
      assert forall c :: IsReplyComment(t, c, operations[n]) <==> IsReplyComment(s, c, operations[n]);
      assert operations == init + [operations[n]];
      hide Effect;
      hide IsReplyComment;
      hide AllAnswerable;
      hide IsAnswerable;
      forall c | c in u.comments && c !in s.comments
        ensures ComesFrom(s, c, operations)
      {
        if c in t.comments {
          var op :| op in init && IsReplyComment(s, c, op);
          assert op in operations;
        }
      }
      forall op | op in operations && IsReply(op)
        ensures IsPosted(s, u.comments, op)
      {
        if op in init {
          var c :| c in t.comments && IsReplyComment(s, c, op);
          assert c in u.comments;
        }
      }
    }
  }

  lemma AddedByOne(t: Server, op: Operation)
    requires IsAnswerable(t, op)
    ensures var u := Effect(t, op);
            && (forall c :: c in t.comments ==> c in u.comments)
            && (forall c :: c in u.comments ==> c in t.comments || IsReplyComment(t, c, op))
            && (IsReply(op) ==> IsPosted(t, u.comments, op))
            && t.resolved <= u.resolved && (op.Resolve? ==> op.thread in u.resolved)
  {
    if IsReply(op) {
      var c := Comment(NextId(t.comments), AnsweredThread(t, op), op.body, true);
      assert Effect(t, op).comments == t.comments + [c];
      assert c in Effect(t, op).comments && IsReplyComment(t, c, op);
    }
  }

  // ----- What a staged operation looks like

  /** An operation for `fingerprint`: a reply says the printed body, in a listed
      thread of a comment that carries it. */
  ghost predicate IsStaged(provider: Provider, s: Server, fingerprint: string, sha: Option<string>, op: Operation) {
    && op.fingerprint == fingerprint
    && (IsReply(op) ==> op.body == ResolvedBody(fingerprint, sha)
                        && !AlreadyResolved(SeenComments(provider, s), fingerprint, sha))
    && (provider == Gitlab ==> !op.Reply? && op.thread in s.threads)
    && (op.Reply? ==> exists c :: c in s.comments && c.id == op.commentId && Carries(c, fingerprint))
  }

  lemma {:induction false} NotesAreStaged(notes: seq<Comment>, fingerprint: string,
                                          sha: Option<string>, already: bool, op: Operation)
    requires op in NotesAndResolves(notes, fingerprint, sha, already)
    ensures op.fingerprint == fingerprint && (IsReply(op) ==> !already && op.body == ResolvedBody(fingerprint, sha))
    ensures !op.Reply? && exists c :: c in notes && c.thread == op.thread
    decreases |notes|
  {
    hide ResolvedBody;
    var n := |notes| - 1;
    if op in NotesAndResolves(notes[..n], fingerprint, sha, already) {
      NotesAreStaged(notes[..n], fingerprint, sha, already, op);
      var c :| c in notes[..n] && c.thread == op.thread;
      assert c in notes;
    } else {
      assert notes[n] in notes && notes[n].thread == op.thread;
    }
  }

  lemma StagedOne(provider: Provider, s: Server, fingerprint: string, sha: Option<string>, op: Operation)
    requires op in StageOne(provider, s, fingerprint, sha)
    ensures IsStaged(provider, s, fingerprint, sha, op)
  {
    hide ResolvedBody;
    hide AlreadyResolved;
    if provider == Gitlab {
      var notes := Carrying(SeenNotes(provider, s), fingerprint);
      NotesAreStaged(notes, fingerprint, sha, AlreadyResolved(SeenComments(provider, s), fingerprint, sha), op);
      var c :| c in notes && c.thread == op.thread;
      CarryingMember(SeenNotes(provider, s), fingerprint, c);
      ThreadNotesMember(s.threads, {}, s.comments, c);
    } else if op.Reply? {
      var carrying := Carrying(s.comments, fingerprint);
      hide Carrying;
      var i :| 0 <= i < |carrying| && op.commentId == carrying[i].id;
      CarryingMember(s.comments, fingerprint, carrying[i]);
    }
  }

  lemma StagedAreAnswerable(provider: Provider, s: Server, stale: seq<string>, sha: Option<string>, k: nat)
    requires k <= |Stage(provider, s, stale, sha)|
    ensures AllAnswerable(s, Stage(provider, s, stale, sha)[..k])
  {
    hide Stage;
    var operations := Stage(provider, s, stale, sha);
    forall i | 0 <= i < k
      ensures IsAnswerable(s, operations[..k][i])
    {
      assert operations[i] in operations;
      Staged(provider, s, stale, sha, operations[i]);
    }
  }

  lemma AllStagedAreAnswerable(provider: Provider, s: Server, stale: seq<string>, sha: Option<string>)
    ensures AllAnswerable(s, Stage(provider, s, stale, sha))
  {
    hide Stage;
    var operations := Stage(provider, s, stale, sha);
    assert operations[..|operations|] == operations;
    StagedAreAnswerable(provider, s, stale, sha, |operations|);
  }

  lemma {:induction false} Staged(provider: Provider, s: Server, stale: seq<string>, sha: Option<string>, op: Operation)
    requires op in Stage(provider, s, stale, sha)
    ensures op.fingerprint in stale && IsStaged(provider, s, op.fingerprint, sha, op)
    decreases |stale|
  {
    hide StageOne;
    hide IsStaged;
    var n := |stale| - 1;
    if op in Stage(provider, s, stale[..n], sha) {
      Staged(provider, s, stale[..n], sha, op);
      assert stale == stale[..n] + [stale[n]];
    } else {
      StagedOne(provider, s, stale[n], sha, op);
      IsStagedFingerprint(provider, s, stale[n], sha, op);
    }
  }

  lemma IsStagedFingerprint(provider: Provider, s: Server, fingerprint: string, sha: Option<string>, op: Operation)
    requires IsStaged(provider, s, fingerprint, sha, op)
    ensures op.fingerprint == fingerprint
  {
  }

  lemma {:induction false} SomeReply(operations: seq<Operation>, fingerprint: string) returns (op: Operation)
    requires RepliesFor(operations, fingerprint) > 0
    ensures op in operations && IsReply(op) && op.fingerprint == fingerprint
    decreases |operations|
  {
    var last := operations[|operations| - 1];
    if IsReply(last) && last.fingerprint == fingerprint {
      op := last;
    } else {
      op := SomeReply(operations[..|operations| - 1], fingerprint);
    }
  }

  /** Once a reply for a readable key has been posted, the next load sees it. */
  lemma PostedReplyIsSeen(provider: Provider, s: Server, stale: seq<string>, sha: Option<string>, k: nat, fingerprint: string)
    requires HexSha(sha) && Survives(ResolvedKey(fingerprint, sha))
    requires k <= |Stage(provider, s, stale, sha)|
    requires RepliesFor(Stage(provider, s, stale, sha)[..k], fingerprint) > 0
    ensures IsMarked(SeenComments(provider, ApplyAll(s, Stage(provider, s, stale, sha)[..k])), ResolvedKey(fingerprint, sha))
  {
    hide Survives;
    hide ResolvedBody;
    hide ResolvedKey;
    hide Stage;
    var operations := Stage(provider, s, stale, sha);
    var posted := operations[..k];
    var t := ApplyAll(s, posted);
    var op := SomeReply(posted, fingerprint);
    assert op in operations;
    Staged(provider, s, stale, sha, op);
    StagedAreAnswerable(provider, s, stale, sha, k);
    AddedComments(s, posted);
    ApplyAllGrows(provider, s, posted);
    var c :| c in t.comments && IsReplyComment(s, c, op);
    MarkerRoundTripIff(fingerprint, sha);
    assert Marks(c, ResolvedKey(fingerprint, sha));
    ThreadNotesMember(t.threads, {}, t.comments, c);
    assert c in SeenComments(provider, t);
  }

  // ----- Histories

  /** One run: what it saw, what it found stale, and how many of its operations
      reached the provider (all, or up to and perhaps including a failed one; none
      after a failed preflight). */
  datatype Round = Round(before: Server, stale: seq<string>, applied: nat)

  ghost function Posted(provider: Provider, r: Round, sha: Option<string>): seq<Operation> {
    var operations := Stage(provider, r.before, r.stale, sha);
    operations[..Min(r.applied, |operations|)]
  }

  ghost function After(provider: Provider, r: Round, sha: Option<string>): Server {
    ApplyAll(r.before, Posted(provider, r, sha))
  }

  /** Between runs anything may be added and reordered; no comment disappears. */
  ghost predicate IsHistory(provider: Provider, rounds: seq<Round>, sha: Option<string>) {
    && (forall i :: 0 <= i < |rounds| ==> Distinct(rounds[i].stale))
    && (forall i :: 0 < i < |rounds| ==>
          multiset(SeenComments(provider, After(provider, rounds[i - 1], sha)))
          <= multiset(SeenComments(provider, rounds[i].before)))
  }

  ghost function TotalReplies(provider: Provider, rounds: seq<Round>, sha: Option<string>, fingerprint: string): nat {
    if rounds == [] then 0
    else
      TotalReplies(provider, rounds[..|rounds| - 1], sha, fingerprint)
      + RepliesFor(Posted(provider, rounds[|rounds| - 1], sha), fingerprint)
  }

  lemma OneRound(provider: Provider, r: Round, sha: Option<string>, fingerprint: string)
    requires HexSha(sha) && Survives(ResolvedKey(fingerprint, sha)) && Distinct(r.stale)
    ensures var seen, after := SeenComments(provider, r.before), SeenComments(provider, After(provider, r, sha));
            var posted := RepliesFor(Posted(provider, r, sha), fingerprint);
            && multiset(seen) <= multiset(after)
            && posted <= |Carrying(seen, fingerprint)|
            && (IsMarked(seen, ResolvedKey(fingerprint, sha)) ==> posted == 0)
            && (posted > 0 ==> IsMarked(after, ResolvedKey(fingerprint, sha)))
  {
    hide Survives;
    hide ResolvedKey;
    hide SeenComments;
    hide Carrying;
    hide IsMarked;
    hide Stage;
    var operations := Stage(provider, r.before, r.stale, sha);
    var k := Min(r.applied, |operations|);
    ApplyAllGrows(provider, r.before, operations[..k]);
    RepliesStaged(provider, r.before, r.stale, sha, fingerprint);
    RepliesForPrefix(operations, k, fingerprint);
    if RepliesFor(operations[..k], fingerprint) > 0 {
      PostedReplyIsSeen(provider, r.before, r.stale, sha, k, fingerprint);
    }
  }

  lemma {:induction false} RepliesAreBoundedIfRead(provider: Provider, rounds: seq<Round>, sha: Option<string>, fingerprint: string)
    requires rounds != [] && IsHistory(provider, rounds, sha)
    requires HexSha(sha) && Survives(ResolvedKey(fingerprint, sha))
    ensures var seen := SeenComments(provider, After(provider, rounds[|rounds| - 1], sha));
            var total := TotalReplies(provider, rounds, sha, fingerprint);
            && total <= |Carrying(seen, fingerprint)|
            && (total > 0 ==> IsMarked(seen, ResolvedKey(fingerprint, sha)))
    decreases |rounds|
  {
    hide Survives;
    hide ResolvedKey;
    hide SeenComments;
    hide After;
    hide Posted;
    hide Carrying;
    hide IsMarked;
    var n := |rounds| - 1;
    var key := ResolvedKey(fingerprint, sha);
    var last := rounds[n];
    OneRound(provider, last, sha, fingerprint);
    var seen, after := SeenComments(provider, last.before), SeenComments(provider, After(provider, last, sha));
    CarryingOfFewer(seen, after, fingerprint);
    if n > 0 {
      RepliesAreBoundedIfRead(provider, rounds[..n], sha, fingerprint);
      var earlier := SeenComments(provider, After(provider, rounds[n - 1], sha));
      CarryingOfFewer(earlier, seen, fingerprint);
      if TotalReplies(provider, rounds[..n], sha, fingerprint) > 0 {
        MarkedMonotone(earlier, seen, key);
        MarkedMonotone(seen, after, key);
      }
    } else {
      assert rounds[..n] == [];
    }
  }

  /** A round never posts more replies than it sees comments carrying the fingerprint. */
  lemma RoundPostsAtMost(provider: Provider, r: Round, sha: Option<string>, fingerprint: string)
    requires Distinct(r.stale)
    ensures RepliesFor(Posted(provider, r, sha), fingerprint) <= |Carrying(SeenComments(provider, r.before), fingerprint)|
    ensures multiset(SeenComments(provider, r.before)) <= multiset(SeenComments(provider, After(provider, r, sha)))
  {
    hide SeenComments;
    hide Carrying;
    hide Stage;
    var operations := Stage(provider, r.before, r.stale, sha);
    var k := Min(r.applied, |operations|);
    ApplyAllGrows(provider, r.before, operations[..k]);
    RepliesStaged(provider, r.before, r.stale, sha, fingerprint);
    RepliesForPrefix(operations, k, fingerprint);
  }

  /** A fingerprint that no comment carries in the end was never replied to. */
  lemma {:induction false} NotCarriedNoReply(provider: Provider, rounds: seq<Round>, sha: Option<string>, fingerprint: string)
    requires IsHistory(provider, rounds, sha)
    requires rounds != [] ==> Carrying(SeenComments(provider, After(provider, rounds[|rounds| - 1], sha)), fingerprint) == []
    ensures TotalReplies(provider, rounds, sha, fingerprint) == 0
    decreases |rounds|
  {
    hide SeenComments;
    hide After;
    hide Posted;
    hide Carrying;
    if rounds != [] {
      var n := |rounds| - 1;
      var last := rounds[n];
      RoundPostsAtMost(provider, last, sha, fingerprint);
      CarryingOfFewer(SeenComments(provider, last.before), SeenComments(provider, After(provider, last, sha)), fingerprint);
      if n > 0 {
        CarryingOfFewer(SeenComments(provider, After(provider, rounds[n - 1], sha)),
                        SeenComments(provider, last.before), fingerprint);
      }
      NotCarriedNoReply(provider, rounds[..n], sha, fingerprint);
    }
  }

  /** Over any number of runs on one commit, failing wherever they fail, a safe
      fingerprint never gets more replies than there are comments carrying it. */
  lemma RepliesAreBounded(provider: Provider, rounds: seq<Round>, sha: Option<string>, fingerprint: string)
    requires rounds != [] && IsHistory(provider, rounds, sha)
    requires HexSha(sha) && Safe(fingerprint, sha)
    ensures var seen := SeenComments(provider, After(provider, rounds[|rounds| - 1], sha));
            var total := TotalReplies(provider, rounds, sha, fingerprint);
            && total <= |Carrying(seen, fingerprint)|
            && (total > 0 ==> IsMarked(seen, ResolvedKey(fingerprint, sha)))
  {
    hide Safe;
    hide SeenComments;
    hide After;
    hide TotalReplies;
    hide Survives;
    hide ResolvedKey;
    var seen := SeenComments(provider, After(provider, rounds[|rounds| - 1], sha));
    if Carrying(seen, fingerprint) == [] {
      NotCarriedNoReply(provider, rounds, sha, fingerprint);
    } else {
      var c := Carrying(seen, fingerprint)[0];
      CarryingMember(seen, fingerprint, c);
      ReceivedSurvivesIffSafe(c.body, fingerprint, sha);
      RepliesAreBoundedIfRead(provider, rounds, sha, fingerprint);
    }
  }

  /** One failure-free run with this stale fingerprint. */
  ghost predicate IsNext(provider: Provider, s: Server, t: Server, fingerprint: string, sha: Option<string>) {
    t == ApplyAll(s, Stage(provider, s, [fingerprint], sha))
  }

  /** How many replies a run stages for the fingerprint. */
  ghost function RepliesNow(provider: Provider, s: Server, fingerprint: string, sha: Option<string>): nat {
    RepliesFor(Stage(provider, s, [fingerprint], sha), fingerprint)
  }

  /** A key that does not survive breaks this: the next run stages every reply again. */
  lemma UnreadableKeyRepeats(provider: Provider, s: Server, t: Server, fingerprint: string, sha: Option<string>)
    requires HexSha(sha) && !Survives(ResolvedKey(fingerprint, sha)) && IsNext(provider, s, t, fingerprint, sha)
    requires !AlreadyResolved(SeenComments(provider, s), fingerprint, sha)
    ensures !AlreadyResolved(SeenComments(provider, t), fingerprint, sha)
    ensures RepliesNow(provider, s, fingerprint, sha) == |Carrying(SeenComments(provider, s), fingerprint)|
    ensures RepliesNow(provider, t, fingerprint, sha) == |Carrying(SeenComments(provider, t), fingerprint)|
                                                      >= |Carrying(SeenComments(provider, s), fingerprint)|
  {
    hide ResolvedBody;
    hide ResolvedKey;
    hide Survives;
    hide ExtractMarker;
    hide Stage;
    hide Carrying;
    RepliesStaged(provider, s, [fingerprint], sha, fingerprint);
    RepliesStaged(provider, t, [fingerprint], sha, fingerprint);
    ApplyAllGrows(provider, s, Stage(provider, s, [fingerprint], sha));
    CarryingOfFewer(SeenComments(provider, s), SeenComments(provider, t), fingerprint);
    UnreadableIsReadAsNeither(fingerprint, sha);
    NotMarkedByUnreadable(provider, s, fingerprint, sha);
  }

  /** The provider before each of a number of such runs, and after the last. */
  ghost predicate AreRuns(provider: Provider, servers: seq<Server>, fingerprint: string, sha: Option<string>) {
    servers != [] && forall i :: 0 <= i < |servers| - 1 ==> IsNext(provider, servers[i], servers[i + 1], fingerprint, sha)
  }

  /** There can always be one more run. */
  lemma RunsGoOn(provider: Provider, servers: seq<Server>, fingerprint: string, sha: Option<string>) returns (t: Server)
    requires AreRuns(provider, servers, fingerprint, sha)
    ensures AreRuns(provider, servers + [t], fingerprint, sha)
  {
    hide Stage;
    t := ApplyAll(servers[|servers| - 1], Stage(provider, servers[|servers| - 1], [fingerprint], sha));
    var more := servers + [t];
    hide IsNext;
    assert IsNext(provider, servers[|servers| - 1], t, fingerprint, sha) by {
      NextIsNext(provider, servers[|servers| - 1], fingerprint, sha);
    }
    forall i | 0 <= i < |more| - 1
      ensures IsNext(provider, more[i], more[i + 1], fingerprint, sha)
    {
      if i < |servers| - 1 {
        assert IsNext(provider, servers[i], servers[i + 1], fingerprint, sha);
      }
    }
  }

  lemma NextIsNext(provider: Provider, s: Server, fingerprint: string, sha: Option<string>)
    ensures IsNext(provider, s, ApplyAll(s, Stage(provider, s, [fingerprint], sha)), fingerprint, sha)
  {
    hide Stage;
    hide ApplyAll;
  }

  lemma {:induction false} NeverResolved(provider: Provider, servers: seq<Server>, fingerprint: string, sha: Option<string>,
                                         n: nat)
    requires HexSha(sha) && !Survives(ResolvedKey(fingerprint, sha))
    requires AreRuns(provider, servers, fingerprint, sha) && n < |servers|
    requires !AlreadyResolved(SeenComments(provider, servers[0]), fingerprint, sha)
    ensures !AlreadyResolved(SeenComments(provider, servers[n]), fingerprint, sha)
  {
    hide Survives;
    hide ResolvedKey;
    hide Stage;
    hide SeenComments;
    hide AlreadyResolved;
    if n > 0 {
      NeverResolved(provider, servers, fingerprint, sha, n - 1);
      assert IsNext(provider, servers[n - 1], servers[n - 1 + 1], fingerprint, sha);
      UnreadableKeyRepeats(provider, servers[n - 1], servers[n], fingerprint, sha);
    }
  }

  lemma {:induction false} CarryingGrows(provider: Provider, servers: seq<Server>, fingerprint: string, sha: Option<string>,
                                         n: nat)
    requires AreRuns(provider, servers, fingerprint, sha) && n < |servers|
    ensures |Carrying(SeenComments(provider, servers[0]), fingerprint)|
         <= |Carrying(SeenComments(provider, servers[n]), fingerprint)|
  {
    hide Stage;
    hide SeenComments;
    hide Carrying;
    if n > 0 {
      CarryingGrows(provider, servers, fingerprint, sha, n - 1);
      var t := servers[n - 1];
      assert IsNext(provider, t, servers[n - 1 + 1], fingerprint, sha);
      ApplyAllGrows(provider, t, Stage(provider, t, [fingerprint], sha));
      CarryingOfFewer(SeenComments(provider, t), SeenComments(provider, servers[n]), fingerprint);
    }
  }

  /** An unsafe fingerprint is replied to in every run, as often as at first. */
  lemma EveryRunRepeats(provider: Provider, servers: seq<Server>, fingerprint: string, sha: Option<string>, n: nat)
    requires HexSha(sha) && !Survives(ResolvedKey(fingerprint, sha))
    requires AreRuns(provider, servers, fingerprint, sha) && n < |servers|
    requires !AlreadyResolved(SeenComments(provider, servers[0]), fingerprint, sha)
    ensures RepliesNow(provider, servers[n], fingerprint, sha) >= |Carrying(SeenComments(provider, servers[0]), fingerprint)|
  {
    hide Survives;
    hide ResolvedKey;
    hide Stage;
    hide SeenComments;
    hide Carrying;
    hide AlreadyResolved;
    hide AreRuns;
    NeverResolved(provider, servers, fingerprint, sha, n);
    RepliesStaged(provider, servers[n], [fingerprint], sha, fingerprint);
    CarryingGrows(provider, servers, fingerprint, sha, n);
  }

  lemma {:induction false} ResolvedAfterRuns(provider: Provider, servers: seq<Server>, fingerprint: string,
                                             sha: Option<string>, n: nat)
    requires HexSha(sha) && Survives(ResolvedKey(fingerprint, sha))
    requires AreRuns(provider, servers, fingerprint, sha) && 0 < n < |servers|
    requires Carrying(SeenComments(provider, servers[0]), fingerprint) != []
    requires !AlreadyResolved(SeenComments(provider, servers[0]), fingerprint, sha)
    ensures IsMarked(SeenComments(provider, servers[n]), ResolvedKey(fingerprint, sha))
  {
    hide Survives;
    hide ResolvedKey;
    hide Stage;
    hide SeenComments;
    hide Carrying;
    hide IsMarked;
    var t := servers[n - 1];
    var operations := Stage(provider, t, [fingerprint], sha);
    assert IsNext(provider, t, servers[n - 1 + 1], fingerprint, sha);
    ApplyAllGrows(provider, t, operations);
    if n == 1 {
      RepliesStaged(provider, t, [fingerprint], sha, fingerprint);
      assert operations[..|operations|] == operations;
      PostedReplyIsSeen(provider, t, [fingerprint], sha, |operations|, fingerprint);
    } else {
      ResolvedAfterRuns(provider, servers, fingerprint, sha, n - 1);
      MarkedMonotone(SeenComments(provider, t), SeenComments(provider, servers[n]), ResolvedKey(fingerprint, sha));
    }
  }

  /** Once a run has replied to a fingerprint that a comment carries, no later run
      replies to it again exactly when the fingerprint is safe. */
  lemma RepliesStopIffSafe(provider: Provider, servers: seq<Server>, fingerprint: string, sha: Option<string>, n: nat)
    requires HexSha(sha) && AreRuns(provider, servers, fingerprint, sha) && 0 < n < |servers|
    requires Carrying(SeenComments(provider, servers[0]), fingerprint) != []
    requires !AlreadyResolved(SeenComments(provider, servers[0]), fingerprint, sha)
    ensures RepliesNow(provider, servers[n], fingerprint, sha) == 0 <==> Safe(fingerprint, sha)
  {
    hide Stage;
    hide Survives;
    hide Safe;
    hide ResolvedKey;
    hide SeenComments;
    hide Carrying;
    hide AreRuns;
    var c := Carrying(SeenComments(provider, servers[0]), fingerprint)[0];
    CarryingMember(SeenComments(provider, servers[0]), fingerprint, c);
    ReceivedSurvivesIffSafe(c.body, fingerprint, sha);
    if Safe(fingerprint, sha) {
      ResolvedAfterRuns(provider, servers, fingerprint, sha, n);
      RepliesStaged(provider, servers[n], [fingerprint], sha, fingerprint);
    } else {
      EveryRunRepeats(provider, servers, fingerprint, sha, n);
    }
  }

  /** One comment by a person, whose fingerprint holds the resolved marker. */
  const UNSAFE_SERVER: Server :=
    Server([Comment(0, "thread", "<!-- " + FINGERPRINT + " " + UNSAFE + " -->", false)], ["thread"], {})

  lemma {:induction false} RunsFrom(provider: Provider, s: Server, fingerprint: string, sha: Option<string>, n: nat)
    returns (servers: seq<Server>)
    ensures |servers| == n + 1 && servers[0] == s && AreRuns(provider, servers, fingerprint, sha)
  {
    hide IsNext;
    if n == 0 {
      servers := [s];
    } else {
      servers := RunsFrom(provider, s, fingerprint, sha, n - 1);
      var t := RunsGoOn(provider, servers, fingerprint, sha);
      servers := servers + [t];
    }
  }

  /** An input that breaks it: that comment gets another reply in every run, however
      many there are. */
  lemma UnsafeCommentRepeats(sha: Option<string>, n: nat) returns (servers: seq<Server>)
    requires HexSha(sha)
    ensures |servers| == n + 1 && servers[0] == UNSAFE_SERVER && AreRuns(Github, servers, UNSAFE, sha)
    ensures forall k :: 0 <= k <= n ==> RepliesNow(Github, servers[k], UNSAFE, sha) > 0
  {
    hide Survives;
    hide ResolvedKey;
    hide Safe;
    hide ExtractMarker;
    hide ExtractFingerprint;
    hide Stage;
    hide AreRuns;
    servers := RunsFrom(Github, UNSAFE_SERVER, UNSAFE, sha, n);
    var c := UNSAFE_SERVER.comments[0];
    UnsafeIsReceived();
    ReceivedSurvivesIffSafe(c.body, UNSAFE, sha);
    assert c in SeenComments(Github, UNSAFE_SERVER) && Carries(c, UNSAFE);
    CarryingMember(SeenComments(Github, UNSAFE_SERVER), UNSAFE, c);
    forall k: nat | k <= n
      ensures RepliesNow(Github, servers[k], UNSAFE, sha) > 0
    {
      EveryRunRepeats(Github, servers, UNSAFE, sha, k);
    }
  }

  lemma NotMarkedByUnreadable(provider: Provider, s: Server, fingerprint: string, sha: Option<string>)
    requires var read := ExtractMarker(ResolvedBody(fingerprint, sha), RESOLVED);
             read != Some(ResolvedKey(fingerprint, sha)) && read != Some(fingerprint)
    requires !AlreadyResolved(SeenComments(provider, s), fingerprint, sha)
    ensures !AlreadyResolved(SeenComments(provider, ApplyAll(s, Stage(provider, s, [fingerprint], sha))), fingerprint, sha)
  {
    hide ResolvedBody;
    hide ResolvedKey;
    hide ExtractMarker;
    hide Stage;
    var operations := Stage(provider, s, [fingerprint], sha);
    var t := ApplyAll(s, operations);
    ApplyAllGrows(provider, s, operations);
    AllStagedAreAnswerable(provider, s, [fingerprint], sha);
    AddedComments(s, operations);
    forall c, m | c in SeenComments(provider, t) && (m == fingerprint || m == ResolvedKey(fingerprint, sha))
      ensures !Marks(c, m)
    {
      ThreadNotesMember(t.threads, {}, t.comments, c);
      ThreadNotesMember(s.threads, {}, s.comments, c);
      if c in s.comments {
        assert c in SeenComments(provider, s);
      } else {
        var op :| op in operations && IsReplyComment(s, c, op);
        Staged(provider, s, [fingerprint], sha, op);
      }
    }
  }

  // ----- A run that went through leaves nothing to do

  /** The stale fingerprints of a load, in some order. */
  ghost predicate ListsStale(provider: Provider, s: Server, current: set<string>, stale: seq<string>) {
    && Distinct(stale)
    && forall f :: f in stale <==>
         f !in current && (IsFingerprint(SeenComments(provider, s), f) || IsFingerprint(SeenNotes(provider, s), f))
  }

  /** Their keys are read back from replies, and replies are not read as findings. */
  ghost predicate KeysAreRead(stale: seq<string>, sha: Option<string>) {
    forall f :: f in stale ==> Survives(ResolvedKey(f, sha)) && !Contains(ResolvedKey(f, sha), FINGERPRINT)
  }

  lemma CarrierIsOld(provider: Provider, s: Server, stale: seq<string>, sha: Option<string>, f: string, c: Comment)
    requires HexSha(sha) && KeysAreRead(stale, sha)
    requires c in ApplyAll(s, Stage(provider, s, stale, sha)).comments && Carries(c, f)
    ensures c in s.comments
  {
    hide ResolvedBody;
    hide ResolvedKey;
    hide ExtractFingerprint;
    hide Survives;
    hide Stage;
    var operations := Stage(provider, s, stale, sha);
    AllStagedAreAnswerable(provider, s, stale, sha);
    AddedComments(s, operations);
    if c !in s.comments {
      var op :| op in operations && IsReplyComment(s, c, op);
      Staged(provider, s, stale, sha, op);
      ReplyHasNoFingerprint(op.fingerprint, sha);
    }
  }

  lemma {:induction false} ResolveIsStaged(provider: Provider, s: Server, stale: seq<string>,
                                           sha: Option<string>, f: string, c: Comment)
    requires f in stale && c in SeenNotes(provider, s) && Carries(c, f)
    ensures Resolve(f, c.thread) in Stage(provider, s, stale, sha)
    decreases |stale|
  {
    hide StageOne;
    hide Carries;
    hide SeenNotes;
    var n := |stale| - 1;
    if f in stale[..n] {
      ResolveIsStaged(provider, s, stale[..n], sha, f, c);
    } else {
      assert f == stale[n];
      ResolveIsStagedForOne(provider, s, sha, f, c);
    }
  }

  lemma ResolveIsStagedForOne(provider: Provider, s: Server, sha: Option<string>, f: string, c: Comment)
    requires c in SeenNotes(provider, s) && Carries(c, f)
    ensures Resolve(f, c.thread) in StageOne(provider, s, f, sha)
  {
    hide Carrying;
    hide Carries;
    hide IsMarked;
    hide ResolvedBody;
    var notes := Carrying(SeenNotes(provider, s), f);
    CarryingMember(SeenNotes(provider, s), f, c);
    var i :| 0 <= i < |notes| && notes[i] == c;
    match provider
    case Github => assert Resolves(notes, f)[i] == Resolve(f, c.thread);
    case Gitlab => NoteIsResolved(notes, f, sha, AlreadyResolved(SeenComments(provider, s), f, sha), i);
  }

  lemma {:induction false} NoteIsResolved(notes: seq<Comment>, f: string, sha: Option<string>, already: bool, i: nat)
    requires i < |notes|
    ensures Resolve(f, notes[i].thread) in NotesAndResolves(notes, f, sha, already)
    decreases |notes|
  {
    hide ResolvedBody;
    if i < |notes| - 1 {
      NoteIsResolved(notes[..|notes| - 1], f, sha, already, i);
    }
  }

  /** After the run, whoever still carries a stale fingerprint has its marker posted. */
  lemma CarrierIsResolved(provider: Provider, s: Server, stale: seq<string>,
                          sha: Option<string>, current: set<string>, f: string, c: Comment)
    requires HexSha(sha) && ListsStale(provider, s, current, stale) && KeysAreRead(stale, sha)
    requires f !in current && c in SeenComments(provider, s) && Carries(c, f)
    ensures f in stale
    ensures AlreadyResolved(SeenComments(provider, ApplyAll(s, Stage(provider, s, stale, sha))), f, sha)
  {
    hide ResolvedKey;
    hide Survives;
    hide Stage;
    hide SeenComments;
    hide SeenNotes;
    hide Carries;
    hide Marks;
    var operations := Stage(provider, s, stale, sha);
    var seen, after := SeenComments(provider, s), SeenComments(provider, ApplyAll(s, operations));
    ApplyAllGrows(provider, s, operations);
    assert IsFingerprint(seen, f);
    if AlreadyResolved(seen, f, sha) {
      if IsMarked(seen, f) {
        MarkedMonotone(seen, after, f);
      } else {
        MarkedMonotone(seen, after, ResolvedKey(f, sha));
      }
    } else {
      RepliesStaged(provider, s, stale, sha, f);
      CarryingMember(seen, f, c);
      assert operations[..|operations|] == operations;
      PostedReplyIsSeen(provider, s, stale, sha, |operations|, f);
    }
  }

  lemma NothingForOne(provider: Provider, s: Server, current: set<string>, stale: seq<string>, sha: Option<string>, f: string)
    requires HexSha(sha) && ListsStale(provider, s, current, stale) && KeysAreRead(stale, sha) && f !in current
    ensures var t := ApplyAll(s, Stage(provider, s, stale, sha));
            && (!AlreadyResolved(SeenComments(provider, t), f, sha) ==> Carrying(SeenComments(provider, t), f) == [])
            && (provider == Github ==> Carrying(SeenNotes(provider, t), f) == [])
  {
    hide Stage;
    hide Survives;
    hide ResolvedKey;
    hide Carries;
    hide AlreadyResolved;
    var operations := Stage(provider, s, stale, sha);
    var t := ApplyAll(s, operations);
    ApplyAllGrows(provider, s, operations);
    AllStagedAreAnswerable(provider, s, stale, sha);
    AddedComments(s, operations);
    var seen, notes := Carrying(SeenComments(provider, t), f), Carrying(SeenNotes(provider, t), f);
    if seen != [] {
      var c := seen[0];
      OldCarrier(provider, s, stale, sha, f, c);
      CarrierIsResolved(provider, s, stale, sha, current, f, c);
    }
    if provider == Github && notes != [] {
      var c := notes[0];
      CarryingMember(SeenNotes(provider, t), f, c);
      ThreadNotesMember(t.threads, t.resolved, t.comments, c);
      CarrierIsOld(provider, s, stale, sha, f, c);
      ThreadNotesMember(s.threads, s.resolved, s.comments, c);
      CarrierIsResolved(provider, s, stale, sha, current, f, c);
      ResolveIsStaged(provider, s, stale, sha, f, c);
    }
  }

  lemma OldCarrier(provider: Provider, s: Server, stale: seq<string>, sha: Option<string>, f: string, c: Comment)
    requires HexSha(sha) && KeysAreRead(stale, sha)
    requires c in Carrying(SeenComments(provider, ApplyAll(s, Stage(provider, s, stale, sha))), f)
    ensures c in SeenComments(provider, s) && Carries(c, f)
  {
    hide Stage;
    hide Survives;
    hide ResolvedKey;
    hide Carries;
    var t := ApplyAll(s, Stage(provider, s, stale, sha));
    ApplyAllGrows(provider, s, Stage(provider, s, stale, sha));
    CarryingMember(SeenComments(provider, t), f, c);
    ThreadNotesMember(t.threads, {}, t.comments, c);
    CarrierIsOld(provider, s, stale, sha, f, c);
    ThreadNotesMember(s.threads, {}, s.comments, c);
  }

  lemma {:induction false} NothingLeftIfRead(provider: Provider, s: Server, current: set<string>, stale: seq<string>,
                                              sha: Option<string>, again: seq<string>)
    requires HexSha(sha) && ListsStale(provider, s, current, stale) && KeysAreRead(stale, sha)
    requires forall f :: f in again ==> f !in current
    ensures var next := Stage(provider, ApplyAll(s, Stage(provider, s, stale, sha)), again, sha);
            && (provider == Github ==> next == [])
            && forall op :: op in next ==> !IsReply(op)
    decreases |again|
  {
    var t := ApplyAll(s, Stage(provider, s, stale, sha));
    hide Survives;
    hide ResolvedKey;
    hide ApplyAll;
    hide Carrying;
    hide AlreadyResolved;
    if again != [] {
      var n := |again| - 1;
      NothingLeftIfRead(provider, s, current, stale, sha, again[..n]);
      NothingForOne(provider, s, current, stale, sha, again[n]);
      StageOneIsQuiet(provider, t, again[n], sha);
    }
  }

  lemma StageOneIsQuiet(provider: Provider, t: Server, f: string, sha: Option<string>)
    requires !AlreadyResolved(SeenComments(provider, t), f, sha) ==> Carrying(SeenComments(provider, t), f) == []
    requires provider == Github ==> Carrying(SeenNotes(provider, t), f) == []
    ensures provider == Github ==> StageOne(provider, t, f, sha) == []
    ensures forall op :: op in StageOne(provider, t, f, sha) ==> !IsReply(op)
  {
    hide AlreadyResolved;
    hide ResolvedBody;
    hide Carrying;
    var already := AlreadyResolved(SeenComments(provider, t), f, sha);
    if provider == Gitlab {
      var notes := Carrying(SeenNotes(provider, t), f);
      forall op | op in StageOne(provider, t, f, sha)
        ensures !IsReply(op)
      {
        NotesAreStaged(notes, f, sha, already, op);
      }
    }
  }

  /** What a caller can check about the stale fingerprints: they are safe and do not
      contain the fingerprint marker. */
  ghost predicate Readable(stale: seq<string>, sha: Option<string>) {
    forall f :: f in stale ==> Safe(f, sha) && !Contains(f, FINGERPRINT)
  }

  lemma ReadableKeysAreRead(provider: Provider, s: Server, current: set<string>, stale: seq<string>, sha: Option<string>)
    requires HexSha(sha) && ListsStale(provider, s, current, stale) && Readable(stale, sha)
    ensures KeysAreRead(stale, sha)
  {
    hide Survives;
    hide Safe;
    hide ResolvedKey;
    hide SeenComments;
    hide SeenNotes;
    hide Contains;
    forall f | f in stale
      ensures Survives(ResolvedKey(f, sha)) && !Contains(ResolvedKey(f, sha), FINGERPRINT)
    {
      var comments := if IsFingerprint(SeenComments(provider, s), f) then SeenComments(provider, s) else SeenNotes(provider, s);
      var c :| c in comments && Carries(c, f);
      ReceivedSurvivesIffSafe(c.body, f, sha);
      KeyHasNoFingerprint(f, sha);
    }
  }

  /** After one failure-free run a second run on the same findings stages nothing
      on GitHub, and on GitLab only resolves discussions again. */
  lemma NothingLeftToStage(provider: Provider, s: Server, current: set<string>, stale: seq<string>,
                           sha: Option<string>, again: seq<string>)
    requires HexSha(sha) && ListsStale(provider, s, current, stale) && Readable(stale, sha)
    requires forall f :: f in again ==> f !in current
    ensures var next := Stage(provider, ApplyAll(s, Stage(provider, s, stale, sha)), again, sha);
            && (provider == Github ==> next == [])
            && forall op :: op in next ==> !IsReply(op)
  {
    ReadableKeysAreRead(provider, s, current, stale, sha);
    NothingLeftIfRead(provider, s, current, stale, sha, again);
  }

  // ----- A reply that is read as a new finding

  /** What the replies of a run mark, beyond what was marked before. */
  lemma MarksAfterRun(provider: Provider, s: Server, t: Server, fingerprint: string, sha: Option<string>, marker: string)
    requires IsNext(provider, s, t, fingerprint, sha)
    requires !IsMarked(SeenComments(provider, s), marker)
    requires ExtractMarker(ResolvedBody(fingerprint, sha), RESOLVED) != Some(marker)
    ensures !IsMarked(SeenComments(provider, t), marker)
  {
    hide ResolvedBody;
    hide ResolvedKey;
    hide ExtractMarker;
    hide Stage;
    var operations := Stage(provider, s, [fingerprint], sha);
    ApplyAllGrows(provider, s, operations);
    AllStagedAreAnswerable(provider, s, [fingerprint], sha);
    AddedComments(s, operations);
    forall c | c in SeenComments(provider, t)
      ensures !Marks(c, marker)
    {
      ThreadNotesMember(t.threads, {}, t.comments, c);
      ThreadNotesMember(s.threads, {}, s.comments, c);
      if c in s.comments {
        assert c in SeenComments(provider, s);
      } else {
        var op :| op in operations && IsReplyComment(s, c, op);
        Staged(provider, s, [fingerprint], sha, op);
      }
    }
  }

  /** When the replies to a fingerprint are read as comments with a fingerprint of
      their own, the next run replies to that one. */
  lemma ReadReplyIsRepliedTo(provider: Provider, s: Server, t: Server, fingerprint: string, read: string, sha: Option<string>)
    requires HexSha(sha) && IsNext(provider, s, t, fingerprint, sha)
    requires ExtractFingerprint(ResolvedBody(fingerprint, sha)) == Some(read)
    requires Carrying(SeenComments(provider, s), fingerprint) != []
    requires !AlreadyResolved(SeenComments(provider, s), fingerprint, sha)
    requires !AlreadyResolved(SeenComments(provider, s), read, sha)
    requires ExtractMarker(ResolvedBody(fingerprint, sha), RESOLVED) != Some(read)
    requires ExtractMarker(ResolvedBody(fingerprint, sha), RESOLVED) != Some(ResolvedKey(read, sha))
    ensures IsFingerprint(SeenComments(provider, t), read) && RepliesNow(provider, t, read, sha) > 0
  {
    hide ResolvedBody;
    hide ResolvedKey;
    hide ExtractMarker;
    hide ExtractFingerprint;
    hide Stage;
    hide IsMarked;
    hide Carrying;
    var operations := Stage(provider, s, [fingerprint], sha);
    RepliesStaged(provider, s, [fingerprint], sha, fingerprint);
    var op := SomeReply(operations, fingerprint);
    Staged(provider, s, [fingerprint], sha, op);
    AllStagedAreAnswerable(provider, s, [fingerprint], sha);
    AddedComments(s, operations);
    ApplyAllGrows(provider, s, operations);
    var c :| c in t.comments && IsReplyComment(s, c, op);
    ThreadNotesMember(t.threads, {}, t.comments, c);
    assert c in SeenComments(provider, t) && Carries(c, read);
    CarryingMember(SeenComments(provider, t), read, c);
    MarksAfterRun(provider, s, t, fingerprint, sha, read);
    MarksAfterRun(provider, s, t, fingerprint, sha, ResolvedKey(read, sha));
    RepliesStaged(provider, t, [read], sha, read);
  }

  /** One comment by a person with both marker versions. */
  const MARKED_SERVER: Server :=
    Server([Comment(0, "thread", "<!-- " + FINGERPRINT_V2 + " " + MARKED + " -->", false)], ["thread"], {})

  /** Its fingerprint is safe, but holds the fingerprint marker: the run after the
      reply replies to the reply. */
  lemma MarkedReplyIsRepliedTo(sha: Option<string>, t: Server)
    requires HexSha(sha) && IsNext(Github, MARKED_SERVER, t, MARKED, sha)
    ensures IsFingerprint(SeenComments(Github, MARKED_SERVER), MARKED) && Safe(MARKED, sha)
    ensures IsFingerprint(SeenComments(Github, t), ResolvedKey("x", sha))
    ensures RepliesNow(Github, t, ResolvedKey("x", sha), sha) > 0
  {
    hide ExtractMarker;
    hide ExtractFingerprint;
    hide ResolvedBody;
    hide Survives;
    hide Safe;
    hide IsNext;
    var c := MARKED_SERVER.comments[0];
    MarkedIsReceived(sha);
    ReceivedSurvivesIffSafe(c.body, MARKED, sha);
    MarkerRoundTripIff(MARKED, sha);
    ReplyCarriesNew(sha);
    MarkedKey(sha);
    assert c in SeenComments(Github, MARKED_SERVER) && Carries(c, MARKED);
    CarryingMember(SeenComments(Github, MARKED_SERVER), MARKED, c);
    assert ResolvedKey(MARKED, sha)[0] == 'f' && ResolvedKey(ResolvedKey("x", sha), sha)[0] == 'x';
    hide ResolvedKey;
    ReadReplyIsRepliedTo(Github, MARKED_SERVER, t, MARKED, ResolvedKey("x", sha), sha);
  }
}
