/** Reconciling review comments with the current findings (crates/cli/src/ci.rs):
    load what the provider has, stage operations for stale fingerprints, apply
    them until one fails, and run again. */
module Reconcile {
  import opened Wrappers
  import opened Text
  import opened Markers
  import opened Sequences

  datatype Provider = Github | Gitlab

  /** A review comment or discussion note; `bot` is the program's own test for a
      recognised bot author. */
  datatype Comment = Comment(id: nat, thread: string, body: string, bot: bool)

  /** What the provider holds: all comments, the threads (or discussions) they are
      in, and the threads that are resolved. */
  datatype Server = Server(comments: seq<Comment>, threads: seq<string>, resolved: set<string>)

  datatype Operation =
    | Reply(fingerprint: string, commentId: nat, body: string)
    | Note(fingerprint: string, thread: string, body: string)
    | Resolve(fingerprint: string, thread: string)

  // ----- What the provider's comments say

  predicate Carries(c: Comment, fingerprint: string) {
    ExtractFingerprint(c.body) == Some(fingerprint)
  }

  /** The comments that carry a fingerprint, in order. */
  function Carrying(comments: seq<Comment>, fingerprint: string): seq<Comment> {
    if comments == [] then []
    else
      var last := comments[|comments| - 1];
      Carrying(comments[..|comments| - 1], fingerprint) + (if Carries(last, fingerprint) then [last] else [])
  }

  ghost predicate IsFingerprint(comments: seq<Comment>, fingerprint: string) {
    exists c :: c in comments && Carries(c, fingerprint)
  }

  predicate Marks(c: Comment, marker: string) {
    c.bot && ExtractMarker(c.body, RESOLVED) == Some(marker)
  }

  ghost predicate IsMarked(comments: seq<Comment>, marker: string) {
    exists c :: c in comments && Marks(c, marker)
  }

  function InThread(comments: seq<Comment>, thread: string): seq<Comment> {
    if comments == [] then []
    else
      var last := comments[|comments| - 1];
      InThread(comments[..|comments| - 1], thread) + (if last.thread == thread then [last] else [])
  }

  /** The comments of the threads that are not skipped, thread by thread. */
  function ThreadNotes(threads: seq<string>, skipped: set<string>, comments: seq<Comment>): seq<Comment> {
    if threads == [] then []
    else
      var last := threads[|threads| - 1];
      ThreadNotes(threads[..|threads| - 1], skipped, comments)
      + (if last in skipped then [] else InThread(comments, last))
  }

  /** GitHub lists review comments flat, GitLab by discussion. */
  function SeenComments(provider: Provider, s: Server): seq<Comment> {
    match provider
    case Github => s.comments
    case Gitlab => ThreadNotes(s.threads, {}, s.comments)
  }

  /** GitHub resolves open threads only, GitLab every discussion. */
  function SeenNotes(provider: Provider, s: Server): seq<Comment> {
    match provider
    case Github => ThreadNotes(s.threads, s.resolved, s.comments)
    case Gitlab => ThreadNotes(s.threads, {}, s.comments)
  }

  lemma {:induction false} InThreadMember(comments: seq<Comment>, thread: string, c: Comment)
    ensures c in InThread(comments, thread) <==> c in comments && c.thread == thread
    decreases |comments|
  {
    if comments != [] {
      var n := |comments| - 1;
      InThreadMember(comments[..n], thread, c);
      assert comments == comments[..n] + [comments[n]];
    }
  }

  lemma {:induction false} ThreadNotesMember(threads: seq<string>, skipped: set<string>, comments: seq<Comment>, c: Comment)
    ensures c in ThreadNotes(threads, skipped, comments)
            <==> c in comments && c.thread in threads && c.thread !in skipped
    decreases |threads|
  {
    hide InThread;
    if threads != [] {
      var n := |threads| - 1;
      ThreadNotesMember(threads[..n], skipped, comments, c);
      InThreadMember(comments, threads[n], c);
      assert c.thread in threads <==> c.thread in threads[..n] || c.thread == threads[n];
    }
  }

  lemma {:induction false} CarryingMember(comments: seq<Comment>, fingerprint: string, c: Comment)
    ensures c in Carrying(comments, fingerprint) <==> c in comments && Carries(c, fingerprint)
    decreases |comments|
  {
    hide Carries;
    if comments != [] {
      var n := |comments| - 1;
      CarryingMember(comments[..n], fingerprint, c);
      assert comments == comments[..n] + [comments[n]];
    }
  }

  // ----- Loading

  function Entries<T>(m: map<string, seq<T>>, key: string): seq<T> {
    if key in m then m[key] else []
  }

  /** The maps and sets one load fills. */
  class ProviderState {
    var fingerprints: set<string>
    var comments: map<string, seq<Comment>>
    var notes: map<string, seq<Comment>>
    var markers: set<string>

    constructor ()
      ensures Holds([], [])
    {
      fingerprints, comments, notes, markers := {}, map[], map[], {};
    }

    /** After these comments and these thread notes have been collected. */
    ghost predicate Holds(seen: seq<Comment>, inThreads: seq<Comment>)
      reads this
    {
      && (forall f :: f in fingerprints <==> IsFingerprint(seen, f) || IsFingerprint(inThreads, f))
      && (forall f :: Entries(comments, f) == Carrying(seen, f))
      && (forall f :: Entries(notes, f) == Carrying(inThreads, f))
      && (forall m :: m in markers <==> IsMarked(seen, m))
    }

    method CollectComment(c: Comment, ghost seen: seq<Comment>, ghost inThreads: seq<Comment>)
      requires Holds(seen, inThreads)
      modifies this
      ensures Holds(seen + [c], inThreads)
    {
      hide ExtractFingerprint;
      hide ExtractMarker;
      hide IsFingerprint;
      hide IsMarked;
      hide Carrying;
      OneMoreComment(seen, c);
      var found := ExtractFingerprint(c.body);
      if found.Some? {
        fingerprints := fingerprints + {found.value};
        comments := comments[found.value := Entries(comments, found.value) + [c]];
      }
      var marker := ExtractMarker(c.body, RESOLVED);
      if c.bot && marker.Some? {
        markers := markers + {marker.value};
      }
    }

    method CollectNote(c: Comment, ghost seen: seq<Comment>, ghost inThreads: seq<Comment>)
      requires Holds(seen, inThreads)
      modifies this
      ensures Holds(seen, inThreads + [c])
    {
      hide ExtractFingerprint;
      hide ExtractMarker;
      hide IsFingerprint;
      hide IsMarked;
      hide Carrying;
      var found := ExtractFingerprint(c.body);
      if found.Some? {
        fingerprints := fingerprints + {found.value};
        notes := notes[found.value := Entries(notes, found.value) + [c]];
      }
      OneMoreComment(inThreads, c);
    }
  }

  lemma OneMoreComment(comments: seq<Comment>, c: Comment)
    ensures forall f :: Carrying(comments + [c], f) == Carrying(comments, f) + (if Carries(c, f) then [c] else [])
    ensures forall f :: IsFingerprint(comments + [c], f) <==> IsFingerprint(comments, f) || Carries(c, f)
    ensures forall m :: IsMarked(comments + [c], m) <==> IsMarked(comments, m) || Marks(c, m)
  {
    var more := comments + [c];
    assert more[..|comments|] == comments;
    assert forall x :: x in more <==> x in comments || x == c;
    hide Carries;
    hide Marks;
    forall f
      ensures IsFingerprint(more, f) <==> IsFingerprint(comments, f) || Carries(c, f)
    {
      if Carries(c, f) {
        assert c in more;
      }
      if IsFingerprint(comments, f) {
        var x :| x in comments && Carries(x, f);
        assert x in more;
      }
    }
    forall m
      ensures IsMarked(more, m) <==> IsMarked(comments, m) || Marks(c, m)
    {
      if Marks(c, m) {
        assert c in more;
      }
      if IsMarked(comments, m) {
        var x :| x in comments && Marks(x, m);
        assert x in more;
      }
    }
  }

  method CollectThread(state: ProviderState, s: Server, thread: string, ghost seen: seq<Comment>, ghost inThreads: seq<Comment>)
    requires state.Holds(seen, inThreads)
    modifies state
    ensures state.Holds(seen, inThreads + InThread(s.comments, thread))
  {
    hide ProviderState.Holds;
    assert inThreads + InThread(s.comments[..0], thread) == inThreads;
    for i := 0 to |s.comments|
      invariant state.Holds(seen, inThreads + InThread(s.comments[..i], thread))
    {
      var c := s.comments[i];
      assert s.comments[..i + 1][..i] == s.comments[..i];
      if c.thread == thread {
        state.CollectNote(c, seen, inThreads + InThread(s.comments[..i], thread));
        assert inThreads + InThread(s.comments[..i], thread) + [c] == inThreads + InThread(s.comments[..i + 1], thread);
      } else {
        assert InThread(s.comments[..i], thread) == InThread(s.comments[..i + 1], thread);
      }
    }
    assert s.comments[..|s.comments|] == s.comments;
  }

  method LoadGithub(s: Server) returns (state: ProviderState)
    ensures fresh(state) && state.Holds(SeenComments(Github, s), SeenNotes(Github, s))
  {
    state := new ProviderState();
    hide ProviderState.Holds;
    for i := 0 to |s.comments|
      invariant fresh(state) && state.Holds(s.comments[..i], [])
    {
      assert s.comments[..i + 1] == s.comments[..i] + [s.comments[i]];
      state.CollectComment(s.comments[i], s.comments[..i], []);
    }
    assert s.comments[..|s.comments|] == s.comments;
    for t := 0 to |s.threads|
      invariant fresh(state) && state.Holds(s.comments, ThreadNotes(s.threads[..t], s.resolved, s.comments))
    {
      assert s.threads[..t + 1][..t] == s.threads[..t];
      ghost var before := ThreadNotes(s.threads[..t], s.resolved, s.comments);
      if s.threads[t] in s.resolved {
        assert before + [] == before;
      } else {
        CollectThread(state, s, s.threads[t], s.comments, before);
      }
    }
    assert s.threads[..|s.threads|] == s.threads;
  }

  method CollectDiscussion(state: ProviderState, s: Server, thread: string, ghost before: seq<Comment>)
    requires state.Holds(before, before)
    modifies state
    ensures var notes := before + InThread(s.comments, thread); state.Holds(notes, notes)
  {
    hide ProviderState.Holds;
    assert before + InThread(s.comments[..0], thread) == before;
    for i := 0 to |s.comments|
      invariant var notes := before + InThread(s.comments[..i], thread); state.Holds(notes, notes)
    {
      var c := s.comments[i];
      ghost var sofar := before + InThread(s.comments[..i], thread);
      assert s.comments[..i + 1][..i] == s.comments[..i];
      if c.thread == thread {
        state.CollectComment(c, sofar, sofar);
        state.CollectNote(c, sofar + [c], sofar);
        assert sofar + [c] == before + InThread(s.comments[..i + 1], thread);
      } else {
        assert InThread(s.comments[..i], thread) == InThread(s.comments[..i + 1], thread);
      }
    }
    assert s.comments[..|s.comments|] == s.comments;
  }

  method LoadGitlab(s: Server) returns (state: ProviderState)
    ensures fresh(state) && state.Holds(SeenComments(Gitlab, s), SeenNotes(Gitlab, s))
  {
    state := new ProviderState();
    hide ProviderState.Holds;
    for t := 0 to |s.threads|
      invariant fresh(state)
      invariant var notes := ThreadNotes(s.threads[..t], {}, s.comments); state.Holds(notes, notes)
    {
      assert s.threads[..t + 1][..t] == s.threads[..t];
      CollectDiscussion(state, s, s.threads[t], ThreadNotes(s.threads[..t], {}, s.comments));
    }
    assert s.threads[..|s.threads|] == s.threads;
  }

  // ----- Staging

  ghost predicate AlreadyResolved(seen: seq<Comment>, fingerprint: string, sha: Option<string>) {
    IsMarked(seen, ResolvedKey(fingerprint, sha)) || IsMarked(seen, fingerprint)
  }

  function Replies(carrying: seq<Comment>, fingerprint: string, sha: Option<string>): seq<Operation> {
    seq(|carrying|, i requires 0 <= i < |carrying| =>
      Reply(fingerprint, carrying[i].id, ResolvedBody(fingerprint, sha)))
  }

  function Resolves(notes: seq<Comment>, fingerprint: string): seq<Operation> {
    seq(|notes|, i requires 0 <= i < |notes| => Resolve(fingerprint, notes[i].thread))
  }

  /** On GitLab every note gets its reply just before its discussion is resolved. */
  function NotesAndResolves(notes: seq<Comment>, fingerprint: string, sha: Option<string>, already: bool): seq<Operation> {
    if notes == [] then []
    else
      var last := notes[|notes| - 1];
      NotesAndResolves(notes[..|notes| - 1], fingerprint, sha, already)
      + (if already then [] else [Note(fingerprint, last.thread, ResolvedBody(fingerprint, sha))])
      + [Resolve(fingerprint, last.thread)]
  }

  ghost function StageOne(provider: Provider, s: Server, fingerprint: string, sha: Option<string>): seq<Operation> {
    var already := AlreadyResolved(SeenComments(provider, s), fingerprint, sha);
    var notes := Carrying(SeenNotes(provider, s), fingerprint);
    match provider
    case Github =>
      (if already then [] else Replies(Carrying(SeenComments(provider, s), fingerprint), fingerprint, sha))
      + Resolves(notes, fingerprint)
    case Gitlab => NotesAndResolves(notes, fingerprint, sha, already)
  }

  /** The operations for the stale fingerprints, in their order. */
  ghost function Stage(provider: Provider, s: Server, stale: seq<string>, sha: Option<string>): seq<Operation> {
    if stale == [] then []
    else
      Stage(provider, s, stale[..|stale| - 1], sha) + StageOne(provider, s, stale[|stale| - 1], sha)
  }

  // ----- Which comments and threads a staged list answers

  /** The comments that the replies for a fingerprint answer, in order. */
  function ReplyTargets(operations: seq<Operation>, fingerprint: string): seq<nat> {
    Collect(operations, (op: Operation) => if op.Reply? && op.fingerprint == fingerprint then [op.commentId] else [])
  }

  /** The discussions that get a note for a fingerprint, in order. */
  function NoteTargets(operations: seq<Operation>, fingerprint: string): seq<string> {
    Collect(operations, (op: Operation) => if op.Note? && op.fingerprint == fingerprint then [op.thread] else [])
  }

  /** The threads that are resolved for a fingerprint, in order. */
  function ResolveTargets(operations: seq<Operation>, fingerprint: string): seq<string> {
    Collect(operations, (op: Operation) => if op.Resolve? && op.fingerprint == fingerprint then [op.thread] else [])
  }

  function Ids(comments: seq<Comment>): seq<nat> {
    seq(|comments|, i requires 0 <= i < |comments| => comments[i].id)
  }

  function Threads(comments: seq<Comment>): seq<string> {
    seq(|comments|, i requires 0 <= i < |comments| => comments[i].thread)
  }

  /** The listed comments whose text holds the fingerprint. */
  function CommentsWith(comments: seq<Comment>, fingerprint: string): seq<Comment> {
    Filter(comments, (c: Comment) => ExtractFingerprint(c.body) == Some(fingerprint))
  }

  /** A listed comment of a recognised bot marks the fingerprint as resolved, for this
      commit or without one. */
  ghost predicate MarkerIsPosted(provider: Provider, s: Server, fingerprint: string, sha: Option<string>) {
    exists c :: c in s.comments && (provider == Gitlab ==> c.thread in s.threads) && c.bot
                && (ExtractMarker(c.body, RESOLVED) == Some(ResolvedKey(fingerprint, sha))
                    || ExtractMarker(c.body, RESOLVED) == Some(fingerprint))
  }

  /** The listed thread has a comment with the fingerprint; on GitHub it is open. */
  ghost predicate IsToResolve(provider: Provider, s: Server, fingerprint: string, thread: string) {
    && thread in s.threads && (provider == Github ==> thread !in s.resolved)
    && exists c :: c in s.comments && c.thread == thread && ExtractFingerprint(c.body) == Some(fingerprint)
  }

  /** On GitHub every listed comment with the fingerprint gets a reply of its own, in
      the listed order, unless it is already marked; then the open threads are
      resolved. On GitLab every discussion gets its note just before it is resolved. */
  ghost predicate Answers(provider: Provider, s: Server, fingerprint: string, sha: Option<string>, operations: seq<Operation>) {
    && (forall op :: op in operations ==> op.fingerprint == fingerprint && (!op.Resolve? ==> op.body == ResolvedBody(fingerprint, sha)))
    && (forall thread :: thread in ResolveTargets(operations, fingerprint) <==> IsToResolve(provider, s, fingerprint, thread))
    && ResolveTargets(operations, fingerprint) == Threads(CommentsWith(SeenNotes(provider, s), fingerprint))
    && match provider
       case Github =>
         && ReplyTargets(operations, fingerprint)
            == (if MarkerIsPosted(provider, s, fingerprint, sha) then [] else Ids(CommentsWith(s.comments, fingerprint)))
         && NoteTargets(operations, fingerprint) == []
         && forall i, j :: 0 <= i < j < |operations| && operations[i].Resolve? ==> operations[j].Resolve?
       case Gitlab =>
         && ReplyTargets(operations, fingerprint) == []
         && NoteTargets(operations, fingerprint)
            == (if MarkerIsPosted(provider, s, fingerprint, sha) then [] else ResolveTargets(operations, fingerprint))
         && forall i :: 0 <= i < |operations| && operations[i].Note? ==>
              i + 1 < |operations| && operations[i + 1] == Resolve(fingerprint, operations[i].thread)
  }

  lemma {:induction false} CarryingIsFilter(comments: seq<Comment>, fingerprint: string)
    ensures Carrying(comments, fingerprint) == CommentsWith(comments, fingerprint)
    decreases |comments|
  {
    hide ExtractFingerprint;
    if comments != [] {
      CarryingIsFilter(comments[..|comments| - 1], fingerprint);
    }
  }

  lemma NoTargets(fingerprint: string)
    ensures ReplyTargets([], fingerprint) == [] && NoteTargets([], fingerprint) == [] && ResolveTargets([], fingerprint) == []
  {
  }

  /** One more operation. */
  lemma TargetsStep(operations: seq<Operation>, op: Operation, fingerprint: string)
    ensures ReplyTargets(operations + [op], fingerprint)
         == ReplyTargets(operations, fingerprint) + (if op.Reply? && op.fingerprint == fingerprint then [op.commentId] else [])
    ensures NoteTargets(operations + [op], fingerprint)
         == NoteTargets(operations, fingerprint) + (if op.Note? && op.fingerprint == fingerprint then [op.thread] else [])
    ensures ResolveTargets(operations + [op], fingerprint)
         == ResolveTargets(operations, fingerprint) + (if op.Resolve? && op.fingerprint == fingerprint then [op.thread] else [])
  {
    assert (operations + [op])[..|operations|] == operations;
  }

  lemma TargetsAppend(a: seq<Operation>, b: seq<Operation>, fingerprint: string)
    ensures ReplyTargets(a + b, fingerprint) == ReplyTargets(a, fingerprint) + ReplyTargets(b, fingerprint)
    ensures NoteTargets(a + b, fingerprint) == NoteTargets(a, fingerprint) + NoteTargets(b, fingerprint)
    ensures ResolveTargets(a + b, fingerprint) == ResolveTargets(a, fingerprint) + ResolveTargets(b, fingerprint)
  {
    CollectAppend(a, b, (op: Operation) => if op.Reply? && op.fingerprint == fingerprint then [op.commentId] else []);
    CollectAppend(a, b, (op: Operation) => if op.Note? && op.fingerprint == fingerprint then [op.thread] else []);
    CollectAppend(a, b, (op: Operation) => if op.Resolve? && op.fingerprint == fingerprint then [op.thread] else []);
    hide Collect;
  }

  lemma {:induction false} TargetsOfReplies(carrying: seq<Comment>, fingerprint: string, sha: Option<string>)
    ensures var operations := Replies(carrying, fingerprint, sha);
            && ReplyTargets(operations, fingerprint) == Ids(carrying)
            && NoteTargets(operations, fingerprint) == [] && ResolveTargets(operations, fingerprint) == []
    decreases |carrying|
  {
    hide ResolvedBody;
    hide ReplyTargets;
    hide NoteTargets;
    hide ResolveTargets;
    if carrying == [] {
      NoTargets(fingerprint);
    } else {
      var n := |carrying| - 1;
      var op := Reply(fingerprint, carrying[n].id, ResolvedBody(fingerprint, sha));
      TargetsOfReplies(carrying[..n], fingerprint, sha);
      assert Replies(carrying, fingerprint, sha) == Replies(carrying[..n], fingerprint, sha) + [op];
      TargetsStep(Replies(carrying[..n], fingerprint, sha), op, fingerprint);
    }
  }

  lemma {:induction false} TargetsOfResolves(notes: seq<Comment>, fingerprint: string)
    ensures var operations := Resolves(notes, fingerprint);
            && ReplyTargets(operations, fingerprint) == [] && NoteTargets(operations, fingerprint) == []
            && ResolveTargets(operations, fingerprint) == Threads(notes)
    decreases |notes|
  {
    hide ReplyTargets;
    hide NoteTargets;
    hide ResolveTargets;
    if notes == [] {
      NoTargets(fingerprint);
    } else {
      var n := |notes| - 1;
      var op := Resolve(fingerprint, notes[n].thread);
      TargetsOfResolves(notes[..n], fingerprint);
      assert Resolves(notes, fingerprint) == Resolves(notes[..n], fingerprint) + [op];
      TargetsStep(Resolves(notes[..n], fingerprint), op, fingerprint);
    }
  }

  lemma {:induction false} TargetsOfNotes(notes: seq<Comment>, fingerprint: string, sha: Option<string>, already: bool)
    ensures var operations := NotesAndResolves(notes, fingerprint, sha, already);
            && ReplyTargets(operations, fingerprint) == []
            && NoteTargets(operations, fingerprint) == (if already then [] else Threads(notes))
            && ResolveTargets(operations, fingerprint) == Threads(notes)
    decreases |notes|
  {
    hide ResolvedBody;
    hide ReplyTargets;
    hide NoteTargets;
    hide ResolveTargets;
    if notes == [] {
      NoTargets(fingerprint);
    } else {
      var n := |notes| - 1;
      var before := NotesAndResolves(notes[..n], fingerprint, sha, already);
      var note := Note(fingerprint, notes[n].thread, ResolvedBody(fingerprint, sha));
      var withNote := before + (if already then [] else [note]);
      TargetsOfNotes(notes[..n], fingerprint, sha, already);
      TargetsStep(before, note, fingerprint);
      TargetsStep(withNote, Resolve(fingerprint, notes[n].thread), fingerprint);
      assert before + [] == before;
      assert Threads(notes) == Threads(notes[..n]) + [notes[n].thread];
    }
  }

  lemma {:induction false} ShapeOfNotes(notes: seq<Comment>, fingerprint: string, sha: Option<string>, already: bool)
    ensures var operations := NotesAndResolves(notes, fingerprint, sha, already);
            && (forall op :: op in operations ==> op.fingerprint == fingerprint && !op.Reply?
                                                  && (op.Note? ==> op.body == ResolvedBody(fingerprint, sha)))
            && forall i :: 0 <= i < |operations| && operations[i].Note? ==>
                 i + 1 < |operations| && operations[i + 1] == Resolve(fingerprint, operations[i].thread)
    decreases |notes|
  {
    hide ResolvedBody;
    if notes != [] {
      ShapeOfNotes(notes[..|notes| - 1], fingerprint, sha, already);
    }
  }

  lemma {:induction false} ThreadsToResolve(provider: Provider, s: Server, fingerprint: string, thread: string)
    ensures thread in Threads(Carrying(SeenNotes(provider, s), fingerprint)) <==> IsToResolve(provider, s, fingerprint, thread)
  {
    hide ExtractFingerprint;
    var skipped := if provider == Github then s.resolved else {};
    var notes := SeenNotes(provider, s);
    var carrying := Carrying(notes, fingerprint);
    forall c
      ensures c in carrying <==> c in s.comments && c.thread in s.threads && c.thread !in skipped && Carries(c, fingerprint)
    {
      CarryingMember(notes, fingerprint, c);
      ThreadNotesMember(s.threads, skipped, s.comments, c);
    }
    hide Carrying;
    hide SeenNotes;
    if thread in Threads(carrying) {
      var i :| 0 <= i < |carrying| && carrying[i].thread == thread;
      assert carrying[i] in carrying;
    }
    if c :| c in carrying && c.thread == thread {
      var i :| 0 <= i < |carrying| && carrying[i] == c;
      assert Threads(carrying)[i] == thread;
    }
  }

  lemma MarkedIffPosted(provider: Provider, s: Server, fingerprint: string, sha: Option<string>)
    ensures AlreadyResolved(SeenComments(provider, s), fingerprint, sha) <==> MarkerIsPosted(provider, s, fingerprint, sha)
  {
    hide ExtractMarker;
    hide ResolvedKey;
    forall c
      ensures c in SeenComments(provider, s) <==> c in s.comments && (provider == Gitlab ==> c.thread in s.threads)
    {
      ThreadNotesMember(s.threads, {}, s.comments, c);
    }
    hide SeenComments;
  }

  /** What is staged for one fingerprint answers its comments. */
  lemma StagedOneAnswers(provider: Provider, s: Server, fingerprint: string, sha: Option<string>)
    ensures Answers(provider, s, fingerprint, sha, StageOne(provider, s, fingerprint, sha))
  {
    MarkedIffPosted(provider, s, fingerprint, sha);
    hide ExtractFingerprint;
    hide AlreadyResolved;
    hide MarkerIsPosted;
    forall thread
      ensures thread in Threads(Carrying(SeenNotes(provider, s), fingerprint)) <==> IsToResolve(provider, s, fingerprint, thread)
    {
      ThreadsToResolve(provider, s, fingerprint, thread);
    }
    hide IsToResolve;
    if provider == Github {
      GithubAnswers(s, fingerprint, sha);
    } else {
      GitlabAnswers(s, fingerprint, sha);
    }
  }

  lemma GithubAnswers(s: Server, fingerprint: string, sha: Option<string>)
    requires AlreadyResolved(s.comments, fingerprint, sha) <==> MarkerIsPosted(Github, s, fingerprint, sha)
    requires forall thread :: thread in Threads(Carrying(SeenNotes(Github, s), fingerprint))
                              <==> IsToResolve(Github, s, fingerprint, thread)
    ensures Answers(Github, s, fingerprint, sha, StageOne(Github, s, fingerprint, sha))
  {
    hide ResolvedBody;
    hide Carrying;
    hide CommentsWith;
    hide MarkerIsPosted;
    hide AlreadyResolved;
    hide IsToResolve;
    hide SeenNotes;
    hide ReplyTargets;
    hide NoteTargets;
    hide ResolveTargets;
    var notes := Carrying(SeenNotes(Github, s), fingerprint);
    var carrying := Carrying(s.comments, fingerprint);
    var replies := if AlreadyResolved(s.comments, fingerprint, sha) then [] else Replies(carrying, fingerprint, sha);
    CarryingIsFilter(s.comments, fingerprint);
    CarryingIsFilter(SeenNotes(Github, s), fingerprint);
    NoTargets(fingerprint);
    TargetsOfReplies(carrying, fingerprint, sha);
    TargetsOfResolves(notes, fingerprint);
    TargetsAppend(replies, Resolves(notes, fingerprint), fingerprint);
    hide Ids;
    hide Threads;
  }

  lemma GitlabAnswers(s: Server, fingerprint: string, sha: Option<string>)
    requires AlreadyResolved(SeenComments(Gitlab, s), fingerprint, sha) <==> MarkerIsPosted(Gitlab, s, fingerprint, sha)
    requires forall thread :: thread in Threads(Carrying(SeenNotes(Gitlab, s), fingerprint))
                              <==> IsToResolve(Gitlab, s, fingerprint, thread)
    ensures Answers(Gitlab, s, fingerprint, sha, StageOne(Gitlab, s, fingerprint, sha))
  {
    hide ResolvedBody;
    hide Carrying;
    hide MarkerIsPosted;
    hide AlreadyResolved;
    hide IsToResolve;
    hide SeenNotes;
    hide ReplyTargets;
    hide NoteTargets;
    hide ResolveTargets;
    hide NotesAndResolves;
    var already := AlreadyResolved(SeenComments(Gitlab, s), fingerprint, sha);
    var notes := Carrying(SeenNotes(Gitlab, s), fingerprint);
    CarryingIsFilter(SeenNotes(Gitlab, s), fingerprint);
    hide CommentsWith;
    TargetsOfNotes(notes, fingerprint, sha, already);
    ShapeOfNotes(notes, fingerprint, sha, already);
    hide Threads;
  }

  lemma OneMoreReply(carrying: seq<Comment>, i: nat, fingerprint: string, sha: Option<string>)
    requires i < |carrying|
    ensures Replies(carrying[..i + 1], fingerprint, sha)
         == Replies(carrying[..i], fingerprint, sha) + [Reply(fingerprint, carrying[i].id, ResolvedBody(fingerprint, sha))]
  {
    hide ResolvedBody;
  }

  lemma OneMoreResolve(notes: seq<Comment>, i: nat, fingerprint: string)
    requires i < |notes|
    ensures Resolves(notes[..i + 1], fingerprint) == Resolves(notes[..i], fingerprint) + [Resolve(fingerprint, notes[i].thread)]
  {
  }

  method StageGithubFingerprint(s: Server, state: ProviderState, fingerprint: string, sha: Option<string>)
    returns (operations: seq<Operation>)
    requires state.Holds(SeenComments(Github, s), SeenNotes(Github, s))
    ensures operations == StageOne(Github, s, fingerprint, sha)
    ensures Answers(Github, s, fingerprint, sha, operations)
  {
    StagedOneAnswers(Github, s, fingerprint, sha);
    hide Answers;
    hide Carrying;
    hide IsMarked;
    hide IsFingerprint;
    hide SeenComments;
    hide SeenNotes;
    hide ResolvedBody;
    hide ResolvedKey;
    operations := [];
    var already := ResolvedKey(fingerprint, sha) in state.markers || fingerprint in state.markers;
    assert already == AlreadyResolved(SeenComments(Github, s), fingerprint, sha);
    assert Entries(state.comments, fingerprint) == Carrying(SeenComments(Github, s), fingerprint);
    assert Entries(state.notes, fingerprint) == Carrying(SeenNotes(Github, s), fingerprint);
    hide ProviderState.Holds;
    hide AlreadyResolved;
    hide Entries;
    if !already {
      var carrying := Entries(state.comments, fingerprint);
      for i := 0 to |carrying|
        invariant operations == Replies(carrying[..i], fingerprint, sha)
      {
        hide Replies;
        OneMoreReply(carrying, i, fingerprint, sha);
        var body := ResolvedBody(fingerprint, sha);
        operations := operations + [Reply(fingerprint, carrying[i].id, body)];
      }
      assert carrying[..|carrying|] == carrying;
    }
    ghost var replies := operations;
    var notes := Entries(state.notes, fingerprint);
    for i := 0 to |notes|
      invariant operations == replies + Resolves(notes[..i], fingerprint)
    {
      hide Resolves;
      OneMoreResolve(notes, i, fingerprint);
      operations := operations + [Resolve(fingerprint, notes[i].thread)];
    }
    assert notes[..|notes|] == notes;
  }

  method StageGitlabFingerprint(s: Server, state: ProviderState, fingerprint: string, sha: Option<string>)
    returns (operations: seq<Operation>)
    requires state.Holds(SeenComments(Gitlab, s), SeenNotes(Gitlab, s))
    ensures operations == StageOne(Gitlab, s, fingerprint, sha)
    ensures Answers(Gitlab, s, fingerprint, sha, operations)
  {
    StagedOneAnswers(Gitlab, s, fingerprint, sha);
    hide Answers;
    hide Carrying;
    hide IsMarked;
    hide IsFingerprint;
    hide SeenComments;
    hide SeenNotes;
    hide ResolvedBody;
    hide ResolvedKey;
    operations := [];
    var already := ResolvedKey(fingerprint, sha) in state.markers || fingerprint in state.markers;
    assert already == AlreadyResolved(SeenComments(Gitlab, s), fingerprint, sha);
    assert Entries(state.comments, fingerprint) == Carrying(SeenComments(Gitlab, s), fingerprint);
    assert Entries(state.notes, fingerprint) == Carrying(SeenNotes(Gitlab, s), fingerprint);
    hide ProviderState.Holds;
    hide AlreadyResolved;
    hide Entries;
    var notes := Entries(state.notes, fingerprint);
    for i := 0 to |notes|
      invariant operations == NotesAndResolves(notes[..i], fingerprint, sha, already)
    {
      assert notes[..i + 1][..i] == notes[..i];
      if !already {
        operations := operations + [Note(fingerprint, notes[i].thread, ResolvedBody(fingerprint, sha))];
      }
      operations := operations + [Resolve(fingerprint, notes[i].thread)];
    }
    assert notes[..|notes|] == notes;
  }

  method StageOperations(provider: Provider, s: Server, state: ProviderState, stale: seq<string>, sha: Option<string>)
    returns (operations: seq<Operation>)
    requires state.Holds(SeenComments(provider, s), SeenNotes(provider, s))
    ensures operations == Stage(provider, s, stale, sha)
  {
    hide StageOne;
    hide ProviderState.Holds;
    operations := [];
    for n := 0 to |stale|
      invariant operations == Stage(provider, s, stale[..n], sha)
    {
      assert stale[..n + 1][..n] == stale[..n];
      var more;
      if provider == Github {
        more := StageGithubFingerprint(s, state, stale[n], sha);
      } else {
        more := StageGitlabFingerprint(s, state, stale[n], sha);
      }
      operations := operations + more;
    }
    assert stale[..|stale|] == stale;
  }

  // ----- Applying

  predicate HasId(comments: seq<Comment>, id: nat) {
    exists c | c in comments :: c.id == id
  }

  function ThreadOf(comments: seq<Comment>, id: nat): string
    requires HasId(comments, id)
  {
    if comments[0].id == id then comments[0].thread else ThreadOf(comments[1..], id)
  }

  function NextId(comments: seq<Comment>): nat {
    if comments == [] then 0
    else
      var before, last := NextId(comments[..|comments| - 1]), comments[|comments| - 1].id;
      if last < before then before else last + 1
  }

  /** What an operation does at the provider. A reply becomes a comment by a
      recognised bot, in the thread of the comment it answers; there is no reply to a
      comment that is not there. */
  function Effect(s: Server, op: Operation): Server {
    match op
    case Reply(_, id, body) =>
      if HasId(s.comments, id)
      then s.(comments := s.comments + [Comment(NextId(s.comments), ThreadOf(s.comments, id), body, true)])
      else s
    case Note(_, thread, body) => s.(comments := s.comments + [Comment(NextId(s.comments), thread, body, true)])
    case Resolve(_, thread) => s.(resolved := s.resolved + {thread})
  }

  function ApplyAll(s: Server, operations: seq<Operation>): Server {
    if operations == [] then s
    else Effect(ApplyAll(s, operations[..|operations| - 1]), operations[|operations| - 1])
  }

  predicate IsReply(op: Operation) {
    op.Reply? || op.Note?
  }

  function CountReplies(operations: seq<Operation>): nat {
    if operations == [] then 0
    else CountReplies(operations[..|operations| - 1]) + (if IsReply(operations[|operations| - 1]) then 1 else 0)
  }

  function FingerprintsOf(operations: seq<Operation>): set<string> {
    set op | op in operations :: op.fingerprint
  }

  /** How a request ends: a failed one may still have reached the provider. */
  datatype Attempt = Succeeds | Fails(lands: bool, message: string)

  function FirstFailure(attempts: seq<Attempt>): nat {
    if attempts == [] || attempts[0].Fails? then 0 else 1 + FirstFailure(attempts[1..])
  }

  lemma {:induction false} FirstFailureFacts(attempts: seq<Attempt>)
    ensures var k := FirstFailure(attempts);
            && k <= |attempts|
            && (forall i :: 0 <= i < k ==> attempts[i].Succeeds?)
            && (k < |attempts| ==> attempts[k].Fails?)
    decreases |attempts|
  {
    if attempts != [] && attempts[0].Succeeds? {
      FirstFailureFacts(attempts[1..]);
    }
  }

  class ProviderBox {
    var server: Server

    constructor (s: Server)
      ensures server == s
    {
      server := s;
    }
  }

  class ApplyResult {
    var resolutionCommentsPosted: nat
    var threadsResolved: nat
    var errors: seq<string>
    var failedFingerprints: set<string>
    var unappliedFingerprints: set<string>

    constructor ()
      ensures resolutionCommentsPosted == 0 && threadsResolved == 0 && errors == []
      ensures failedFingerprints == {} && unappliedFingerprints == {}
    {
      resolutionCommentsPosted, threadsResolved, errors := 0, 0, [];
      failedFingerprints, unappliedFingerprints := {}, {};
    }

    method RecordFailure(fingerprint: string, message: string, unapplied: set<string>)
      modifies this
      ensures errors == old(errors) + [message]
      ensures failedFingerprints == old(failedFingerprints) + {fingerprint}
      ensures unappliedFingerprints == old(unappliedFingerprints) + unapplied
      ensures resolutionCommentsPosted == old(resolutionCommentsPosted) && threadsResolved == old(threadsResolved)
    {
      errors := errors + [message];
      failedFingerprints := failedFingerprints + {fingerprint};
      unappliedFingerprints := unappliedFingerprints + unapplied;
    }
  }

  /** The operations that reached the provider when the requests end like this. */
  function Applied(operations: seq<Operation>, attempts: seq<Attempt>): nat
    requires |attempts| == |operations|
    ensures Applied(operations, attempts) <= |operations|
  {
    FirstFailureFacts(attempts);
    var k := FirstFailure(attempts);
    if k < |operations| && attempts[k].lands then k + 1 else k
  }

  /** The apply loop of both providers. A run that fails at operation k has applied
      exactly the operations before it, once each and in order, and operation k
      too if its failed request had reached the provider. */
  method RunOperations(operations: seq<Operation>, attempts: seq<Attempt>, provider: ProviderBox, result: ApplyResult)
    requires |attempts| == |operations|
    modifies provider, result
    ensures provider.server == ApplyAll(old(provider.server), operations[..Applied(operations, attempts)])
    ensures var k := FirstFailure(attempts);
            && k <= |operations|
            && result.resolutionCommentsPosted == old(result.resolutionCommentsPosted) + CountReplies(operations[..k])
            && result.threadsResolved == old(result.threadsResolved) + k - CountReplies(operations[..k])
            && (k == |operations| ==>
                  result.errors == old(result.errors) && result.failedFingerprints == old(result.failedFingerprints)
                  && result.unappliedFingerprints == old(result.unappliedFingerprints))
            && (k < |operations| ==>
                  && attempts[k].Fails?
                  && result.errors == old(result.errors) + [attempts[k].message]
                  && result.failedFingerprints == old(result.failedFingerprints) + {operations[k].fingerprint}
                  && result.unappliedFingerprints == old(result.unappliedFingerprints) + FingerprintsOf(operations[k..]))
  {
    FirstFailureFacts(attempts);
    ghost var k := FirstFailure(attempts);
    for i := 0 to |operations|
      invariant i <= k
      invariant provider.server == ApplyAll(old(provider.server), operations[..i])
      invariant result.resolutionCommentsPosted == old(result.resolutionCommentsPosted) + CountReplies(operations[..i])
      invariant result.threadsResolved == old(result.threadsResolved) + i - CountReplies(operations[..i])
      invariant result.errors == old(result.errors) && result.failedFingerprints == old(result.failedFingerprints)
      invariant result.unappliedFingerprints == old(result.unappliedFingerprints)
    {
      assert operations[..i + 1][..i] == operations[..i];
      match attempts[i]
      case Succeeds =>
        provider.server := Effect(provider.server, operations[i]);
        if IsReply(operations[i]) {
          result.resolutionCommentsPosted := result.resolutionCommentsPosted + 1;
        } else {
          result.threadsResolved := result.threadsResolved + 1;
        }
      case Fails(lands, message) =>
        if lands {
          provider.server := Effect(provider.server, operations[i]);
        }
        result.RecordFailure(operations[i].fingerprint, message, FingerprintsOf(operations[i..]));
        return;
    }
    assert operations[..|operations|] == operations;
  }

  /** Every fingerprint with an operation that was not applied is reported: one
      that is not reported has had all its operations applied. */
  lemma UnappliedIsReported(operations: seq<Operation>, attempts: seq<Attempt>, i: nat)
    requires |attempts| == |operations| && FirstFailure(attempts) <= i < |operations|
    ensures operations[i].fingerprint in FingerprintsOf(operations[FirstFailure(attempts)..])
  {
    var k := FirstFailure(attempts);
    assert operations[k..][i - k] == operations[i];
  }

  /** Operation `i` reached the provider exactly when every request before it succeeded
      and its own one succeeded too, or failed after it had arrived. */
  lemma AppliedIff(operations: seq<Operation>, attempts: seq<Attempt>, i: nat)
    requires |attempts| == |operations| && i < |operations|
    ensures i < Applied(operations, attempts)
       <==> (forall j :: 0 <= j < i ==> attempts[j].Succeeds?) && (attempts[i].Fails? ==> attempts[i].lands)
  {
    FirstFailureFacts(attempts);
    hide FirstFailure;
  }
}
