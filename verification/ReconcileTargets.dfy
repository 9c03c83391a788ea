/** Whom a reconcile run answers (crates/cli/src/ci.rs). */
module ReconcileTargets {
  import opened Wrappers
  import opened Text
  import opened Markers
  import opened Sequences
  import opened Reconcile
  import opened ReconcileRuns

  lemma {:induction false} OtherTargets(operations: seq<Operation>, fingerprint: string)
    requires forall op :: op in operations ==> op.fingerprint != fingerprint
    ensures ReplyTargets(operations, fingerprint) == [] && NoteTargets(operations, fingerprint) == []
    ensures ResolveTargets(operations, fingerprint) == []
    decreases |operations|
  {
    hide ReplyTargets;
    hide NoteTargets;
    hide ResolveTargets;
    if operations == [] {
      NoTargets(fingerprint);
    } else {
      var n := |operations| - 1;
      assert operations == operations[..n] + [operations[n]];
      OtherTargets(operations[..n], fingerprint);
      TargetsStep(operations[..n], operations[n], fingerprint);
    }
  }

  /** The targets for `f` are those of `f`'s own operations. */
  lemma {:induction false} TargetsOfStage(provider: Provider, s: Server, stale: seq<string>, sha: Option<string>, f: string)
    requires Distinct(stale)
    ensures var operations := Stage(provider, s, stale, sha);
            var own := if f in stale then StageOne(provider, s, f, sha) else [];
            && ReplyTargets(operations, f) == ReplyTargets(own, f)
            && NoteTargets(operations, f) == NoteTargets(own, f)
            && ResolveTargets(operations, f) == ResolveTargets(own, f)
    decreases |stale|
  {
    hide StageOne;
    hide ReplyTargets;
    hide NoteTargets;
    hide ResolveTargets;
    NoTargets(f);
    if stale != [] {
      var n := |stale| - 1;
      var before, one := Stage(provider, s, stale[..n], sha), StageOne(provider, s, stale[n], sha);
      TargetsOfStage(provider, s, stale[..n], sha, f);
      TargetsAppend(before, one, f);
      assert stale == stale[..n] + [stale[n]];
      if stale[n] != f {
        forall op | op in one
          ensures op.fingerprint != f
        {
          StagedOne(provider, s, stale[n], sha, op);
        }
        OtherTargets(one, f);
      } else {
        assert f !in stale[..n];
      }
      hide Distinct;
    }
  }

  /** Over all stale fingerprints: the replies for one of them answer exactly the
      comments that carry it, in the listed order, and the resolutions concern exactly
      the threads that do. */
  lemma StagedTargets(provider: Provider, s: Server, stale: seq<string>, sha: Option<string>, f: string)
    requires Distinct(stale)
    ensures var operations := Stage(provider, s, stale, sha);
            var silent := f !in stale || MarkerIsPosted(provider, s, f, sha);
            && ReplyTargets(operations, f)
               == (if silent || provider == Gitlab then [] else Ids(CommentsWith(s.comments, f)))
            && NoteTargets(operations, f) == (if silent || provider == Github then [] else ResolveTargets(operations, f))
            && forall thread :: thread in ResolveTargets(operations, f) <==> f in stale && IsToResolve(provider, s, f, thread)
  {
    TargetsOfStage(provider, s, stale, sha, f);
    StagedOneAnswers(provider, s, f, sha);
    NoTargets(f);
    hide Stage;
    hide StageOne;
    hide MarkerIsPosted;
    hide IsToResolve;
    hide CommentsWith;
    hide ReplyTargets;
    hide NoteTargets;
    hide ResolveTargets;
    hide ResolvedBody;
  }

  ghost predicate DistinctIds(s: Server) {
    forall i, j :: 0 <= i < j < |s.comments| ==> s.comments[i].id != s.comments[j].id
  }

  lemma {:induction false} NextIdIsNew(comments: seq<Comment>)
    ensures forall c :: c in comments ==> c.id < NextId(comments)
    decreases |comments|
  {
    if comments != [] {
      var n := |comments| - 1;
      NextIdIsNew(comments[..n]);
      assert comments == comments[..n] + [comments[n]];
    }
  }

  /** A run never gives an id twice. */
  lemma {:induction false} IdsStayDistinct(s: Server, operations: seq<Operation>)
    requires DistinctIds(s)
    ensures DistinctIds(ApplyAll(s, operations))
    decreases |operations|
  {
    if operations != [] {
      var n := |operations| - 1;
      var t := ApplyAll(s, operations[..n]);
      IdsStayDistinct(s, operations[..n]);
      NextIdIsNew(t.comments);
      assert forall i :: 0 <= i < |t.comments| ==> t.comments[i] in t.comments;
    }
  }

  lemma {:induction false} ThreadOfDistinct(comments: seq<Comment>, c: Comment)
    requires c in comments
    requires forall i, j :: 0 <= i < j < |comments| ==> comments[i].id != comments[j].id
    ensures HasId(comments, c.id) && ThreadOf(comments, c.id) == c.thread
    decreases |comments|
  {
    var i :| 0 <= i < |comments| && comments[i] == c;
    if i > 0 {
      assert comments[1..][i - 1] == c;
      ThreadOfDistinct(comments[1..], c);
    }
  }

  ghost predicate IsListed(provider: Provider, s: Server, c: Comment) {
    c in s.comments && (provider == Gitlab ==> c.thread in s.threads)
  }

  /** A reply of a run to `c`, a listed comment with the fingerprint `f`. */
  predicate IsAnswer(r: Comment, c: Comment, f: string, sha: Option<string>) {
    r.bot && r.thread == c.thread && r.body == ResolvedBody(f, sha)
  }

  ghost predicate IsAnswered(t: Server, c: Comment, f: string, sha: Option<string>) {
    exists r :: r in t.comments && IsAnswer(r, c, f, sha)
  }

  ghost predicate AnswersSomeone(provider: Provider, s: Server, stale: seq<string>, sha: Option<string>, r: Comment) {
    exists c, f :: IsListed(provider, s, c) && f in stale && Carries(c, f)
                   && !MarkerIsPosted(provider, s, f, sha) && IsAnswer(r, c, f, sha)
  }

  lemma StagedForCarrier(provider: Provider, s: Server, stale: seq<string>, sha: Option<string>, f: string, c: Comment)
    returns (op: Operation)
    requires DistinctIds(s) && Distinct(stale) && f in stale && IsListed(provider, s, c) && Carries(c, f)
    requires !MarkerIsPosted(provider, s, f, sha)
    ensures op in Stage(provider, s, stale, sha) && IsReply(op) && op.fingerprint == f
    ensures IsAnswerable(s, op) && AnsweredThread(s, op) == c.thread
  {
    hide Stage;
    hide ExtractFingerprint;
    var operations := Stage(provider, s, stale, sha);
    StagedTargets(provider, s, stale, sha, f);
    if provider == Github {
      FilterMember(s.comments, (c: Comment) => ExtractFingerprint(c.body) == Some(f), c);
      var carrying := CommentsWith(s.comments, f);
      var i :| 0 <= i < |carrying| && carrying[i] == c;
      assert Ids(carrying)[i] == c.id;
      op := ReplyWithTarget(operations, f, c.id);
      ThreadOfDistinct(s.comments, c);
    } else {
      assert IsToResolve(provider, s, f, c.thread) || c.thread in s.resolved;
      op := NoteWithTarget(operations, f, c.thread);
    }
  }

  lemma {:induction false} ReplyWithTarget(operations: seq<Operation>, f: string, id: nat) returns (op: Operation)
    requires id in ReplyTargets(operations, f)
    ensures op in operations && op.Reply? && op.fingerprint == f && op.commentId == id
    decreases |operations|
  {
    var n := |operations| - 1;
    if operations == [] {
      NoTargets(f);
    } else {
      assert operations == operations[..n] + [operations[n]];
      TargetsStep(operations[..n], operations[n], f);
      if id in ReplyTargets(operations[..n], f) {
        op := ReplyWithTarget(operations[..n], f, id);
      } else {
        op := operations[n];
      }
    }
  }

  lemma {:induction false} NoteWithTarget(operations: seq<Operation>, f: string, thread: string) returns (op: Operation)
    requires thread in NoteTargets(operations, f)
    ensures op in operations && op.Note? && op.fingerprint == f && op.thread == thread
    decreases |operations|
  {
    var n := |operations| - 1;
    if operations == [] {
      NoTargets(f);
    } else {
      assert operations == operations[..n] + [operations[n]];
      TargetsStep(operations[..n], operations[n], f);
      if thread in NoteTargets(operations[..n], f) {
        op := NoteWithTarget(operations[..n], f, thread);
      } else {
        op := operations[n];
      }
    }
  }

  /** After a run without a failure every listed comment with a stale fingerprint that
      was not marked has its reply in its own thread. */
  lemma EveryCarrierIsAnswered(provider: Provider, s: Server, stale: seq<string>, sha: Option<string>, f: string, c: Comment)
    requires DistinctIds(s) && Distinct(stale) && f in stale && IsListed(provider, s, c) && Carries(c, f)
    requires !MarkerIsPosted(provider, s, f, sha)
    ensures IsAnswered(ApplyAll(s, Stage(provider, s, stale, sha)), c, f, sha)
  {
    hide Stage;
    hide Carries;
    hide MarkerIsPosted;
    hide ResolvedBody;
    hide DistinctIds;
    var operations := Stage(provider, s, stale, sha);
    var op := StagedForCarrier(provider, s, stale, sha, f, c);
    Staged(provider, s, stale, sha, op);
    AllStagedAreAnswerable(provider, s, stale, sha);
    AddedComments(s, operations);
    var r :| r in ApplyAll(s, operations).comments && IsReplyComment(s, r, op);
    assert IsAnswer(r, c, f, sha);
  }

  /** And nothing else is posted: every comment that a run adds, wherever it fails, is
      the reply to such a comment. */
  lemma OnlyCarriersAreAnswered(provider: Provider, s: Server, stale: seq<string>, sha: Option<string>, k: nat, r: Comment)
    requires DistinctIds(s) && k <= |Stage(provider, s, stale, sha)|
    requires r in ApplyAll(s, Stage(provider, s, stale, sha)[..k]).comments && r !in s.comments
    ensures AnswersSomeone(provider, s, stale, sha, r)
  {
    hide Stage;
    hide ResolvedBody;
    hide ExtractFingerprint;
    var operations := Stage(provider, s, stale, sha);
    StagedAreAnswerable(provider, s, stale, sha, k);
    AddedComments(s, operations[..k]);
    var op :| op in operations[..k] && IsReplyComment(s, r, op);
    assert op in operations;
    Staged(provider, s, stale, sha, op);
    MarkedIffPosted(provider, s, op.fingerprint, sha);
    hide MarkerIsPosted;
    hide AlreadyResolved;
    var c := CarrierOf(provider, s, stale, sha, op);
    if op.Reply? {
      ThreadOfDistinct(s.comments, c);
    }
    hide DistinctIds;
    assert IsAnswer(r, c, op.fingerprint, sha);
  }

  /** A listed comment that a staged reply answers. */
  lemma {:induction false} CarrierOf(provider: Provider, s: Server, stale: seq<string>, sha: Option<string>, op: Operation)
    returns (c: Comment)
    requires op in Stage(provider, s, stale, sha) && IsReply(op)
    ensures IsListed(provider, s, c) && Carries(c, op.fingerprint)
    ensures if op.Reply? then c.id == op.commentId else c.thread == op.thread
    decreases |stale|
  {
    hide Carries;
    hide ResolvedBody;
    hide StageOne;
    var n := |stale| - 1;
    if op in Stage(provider, s, stale[..n], sha) {
      c := CarrierOf(provider, s, stale[..n], sha, op);
    } else {
      StagedOne(provider, s, stale[n], sha, op);
      if op.Reply? {
        c :| c in s.comments && c.id == op.commentId && Carries(c, op.fingerprint);
      } else {
        c := CarrierOfNote(provider, s, stale[n], sha, op);
      }
    }
  }

  lemma CarrierOfNote(provider: Provider, s: Server, f: string, sha: Option<string>, op: Operation) returns (c: Comment)
    requires op in StageOne(provider, s, f, sha) && op.Note?
    ensures provider == Gitlab && op.fingerprint == f && IsListed(provider, s, c) && Carries(c, f) && c.thread == op.thread
  {
    hide Carries;
    hide Carrying;
    hide ResolvedBody;
    hide SeenNotes;
    var notes := Carrying(SeenNotes(provider, s), f);
    assert provider == Gitlab;
    NotesAreStaged(notes, f, sha, AlreadyResolved(SeenComments(provider, s), f, sha), op);
    c :| c in notes && c.thread == op.thread;
    CarryingMember(SeenNotes(provider, s), f, c);
    ThreadNotesMember(s.threads, {}, s.comments, c);
    SeenNotesOfGitlab(s);
  }

  lemma SeenNotesOfGitlab(s: Server)
    ensures SeenNotes(Gitlab, s) == ThreadNotes(s.threads, {}, s.comments)
  {
  }

  ghost predicate Resolving(operations: seq<Operation>, thread: string) {
    exists op :: op in operations && op.Resolve? && op.thread == thread
  }

  lemma {:induction false} ResolvedByOperations(s: Server, operations: seq<Operation>, thread: string)
    ensures thread in ApplyAll(s, operations).resolved <==> thread in s.resolved || Resolving(operations, thread)
    decreases |operations|
  {
    if operations != [] {
      var n := |operations| - 1;
      var init, last := operations[..n], operations[n];
      ResolvedByOperations(s, init, thread);
      assert operations == init + [last];
      if Resolving(init, thread) {
        var op :| op in init && op.Resolve? && op.thread == thread;
        assert op in operations;
      }
      if last.Resolve? && last.thread == thread {
        assert last in operations;
      }
    }
  }

  lemma {:induction false} ResolveTargetIff(operations: seq<Operation>, f: string, thread: string)
    ensures thread in ResolveTargets(operations, f) <==> Resolve(f, thread) in operations
    decreases |operations|
  {
    if operations == [] {
      NoTargets(f);
    } else {
      var n := |operations| - 1;
      assert operations == operations[..n] + [operations[n]];
      ResolveTargetIff(operations[..n], f, thread);
      TargetsStep(operations[..n], operations[n], f);
    }
  }

  /** A run without a failure resolves exactly the listed threads (on GitHub: the open
      ones) that have a comment with a stale fingerprint. */
  lemma ThreadsResolvedByRun(provider: Provider, s: Server, stale: seq<string>, sha: Option<string>, thread: string)
    requires Distinct(stale)
    ensures thread in ApplyAll(s, Stage(provider, s, stale, sha)).resolved
       <==> thread in s.resolved || exists f :: f in stale && IsToResolve(provider, s, f, thread)
  {
    hide Stage;
    hide IsToResolve;
    var operations := Stage(provider, s, stale, sha);
    ResolvedByOperations(s, operations, thread);
    if Resolving(operations, thread) {
      var op :| op in operations && op.Resolve? && op.thread == thread;
      Staged(provider, s, stale, sha, op);
      ResolveTargetIff(operations, op.fingerprint, thread);
      StagedTargets(provider, s, stale, sha, op.fingerprint);
    }
    if f :| f in stale && IsToResolve(provider, s, f, thread) {
      StagedTargets(provider, s, stale, sha, f);
      ResolveTargetIff(operations, f, thread);
    }
  }

  /** The counter of posted comments is the number of comments the run has added. */
  lemma {:induction false} CountedRepliesArePosted(s: Server, operations: seq<Operation>)
    requires AllAnswerable(s, operations)
    ensures |ApplyAll(s, operations).comments| == |s.comments| + CountReplies(operations)
    decreases |operations|
  {
    if operations != [] {
      var n := |operations| - 1;
      CountedRepliesArePosted(s, operations[..n]);
      assert IsAnswerable(s, operations[n]);
      StaysAnswerable(s, operations[..n], operations[n]);
    }
  }
}
