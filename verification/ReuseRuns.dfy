/** When a reusable worktree is reused and when it is rebuilt
    (crates/cli/src/base_worktree.rs, reuse_or_create). */
module ReuseRuns {
  import opened Wrappers
  import opened WorktreeNames
  import opened ReusableWorktrees

  // ----- A ready entry is reused

  /** The entry `p` works on is ready: its directory is there at the full commit, and
      git knows it. */
  ghost predicate IsReady(s: State, p: nat) {
    && p in s.procs
    && var pr := s.procs[p];
    && pr.path in s.world.dirs && s.world.dirs[pr.path] == pr.sha && pr.path in s.world.registered
  }

  /** `p` holds the lock of a ready entry and has seen nothing else. */
  ghost predicate ReusesReady(s: State, p: nat) {
    && IsReady(s, p) && s.procs[p].purpose == Reuse
    && (s.procs[p].pc == CheckExists || s.procs[p].pc == CheckRegistered || s.procs[p].pc == CheckHead
        || s.procs[p].pc == Touch || s.procs[p].pc == Release(true))
  }

  /** Not these: the death of `p`, the reaper on its directory, a look at git that
      gives no answer, and the end of the call. */
  predicate Disturbs(s: State, e: Event, p: nat)
    requires p in s.procs
  {
    || e == Kill(p) || e == Reap(s.procs[p].path)
    || e == Act(p, SeeRegistered(false)) || e == Act(p, SeeHead(false)) || e == Act(p, Unlock)
  }

  /** A registration goes only by the holder of the entry's lock. */
  lemma RegistrationGuarded(w: World, me: nat, pr: Process, a: Action, path: string)
    requires CanAct(w, pr, a) && path in w.registered
    ensures path !in Effect(w, me, pr, a).0.registered ==> Holding(pr.pc) && path == pr.path
  {
    hide CacheName;
    hide IsReusable;
  }

  lemma OwnStepReuses(s: State, e: Event, p: nat)
    requires ReusesReady(s, p) && Enabled(s, e) && e.Act? && e.p == p && !Disturbs(s, e, p)
    ensures ReusesReady(Apply(s, e), p)
    ensures Apply(s, e).procs[p].path == s.procs[p].path && Apply(s, e).procs[p].sha == s.procs[p].sha
  {
    hide CacheName;
    hide IsReusable;
  }

  lemma OtherStepKeepsReady(s: State, e: Event, p: nat)
    requires Inv(s) && ReusesReady(s, p) && Enabled(s, e) && e.Act? && e.p != p
    ensures ReusesReady(Apply(s, e), p)
    ensures Apply(s, e).procs[p] == s.procs[p]
  {
    hide LocalOk;
    hide LockOk;
    hide IsReusable;
    hide CacheName;
    var path := s.procs[p].path;
    ActionIsGood(s, e.p, e.action);
    RegistrationGuarded(s.world, e.p, s.procs[e.p], e.action, path);
    if Holding(s.procs[e.p].pc) && s.procs[e.p].path == path {
      MutualExclusion(s, p, e.p);
    }
    hide Inv;
    hide Effect;
    hide CanAct;
    assert DirsGuarded(s.world, Apply(s, e).world, s.procs[e.p]);
    hide GoodMove;
    assert SameAt(s.world, Apply(s, e).world, path);
  }

  lemma StepReuses(s: State, e: Event, p: nat)
    requires Inv(s) && ReusesReady(s, p) && Enabled(s, e) && !Disturbs(s, e, p)
    ensures ReusesReady(Apply(s, e), p)
    ensures Apply(s, e).procs[p].path == s.procs[p].path && Apply(s, e).procs[p].sha == s.procs[p].sha
  {
    if e.Act? && e.p == p {
      OwnStepReuses(s, e, p);
    } else if e.Act? {
      OtherStepKeepsReady(s, e, p);
    } else {
      hide Inv;
    }
  }

  lemma UnlockReturns(s: State, p: nat)
    requires ReusesReady(s, p) && Enabled(s, Act(p, Unlock))
    ensures var t := Apply(s, Act(p, Unlock));
            IsReady(t, p) && t.procs[p].pc == Returned(true) && t.procs[p].path == s.procs[p].path && t.procs[p].sha == s.procs[p].sha
  {
  }

  /** A call that gets the lock of a ready entry leaves directory and registration as
      they are, from its first look to its end, and returns Some, unless its process
      dies, the reaper comes or git does not answer. */
  lemma {:induction false} ReadyEntryIsReused(states: seq<State>, events: seq<Event>, i: nat, j: nat, p: nat)
    requires IsRun(states, events) && i <= j < |states|
    requires IsReady(states[i], p) && states[i].procs[p].pc == CheckExists
    requires forall m :: i <= m < j ==> p in states[m].procs ==> !Disturbs(states[m], events[m], p)
    ensures ReusesReady(states[j], p)
    ensures states[j].procs[p].path == states[i].procs[p].path && states[j].procs[p].sha == states[i].procs[p].sha
    ensures j < |events| && events[j] == Act(p, Unlock) ==>
              IsReady(states[j + 1], p) && states[j + 1].procs[p].pc == Returned(true)
              && states[j + 1].procs[p].path == states[i].procs[p].path && states[j + 1].procs[p].sha == states[i].procs[p].sha
    decreases j
  {
    hide Apply;
    hide Enabled;
    hide Disturbs;
    RunKeepsInv(states, events, i);
    if i < j {
      ReadyEntryIsReused(states, events, i, j - 1, p);
      RunKeepsInv(states, events, j - 1);
      assert states[j - 1 + 1] == Apply(states[j - 1], events[j - 1]);
      StepReuses(states[j - 1], events[j - 1], p);
    } else {
      assert LocalOk(states[i].world, states[i].procs[p]);
    }
    if j < |events| && events[j] == Act(p, Unlock) {
      UnlockReturns(states[j], p);
    }
  }

  // ----- Nothing is torn down or rebuilt without a reason

  /** One of `p`'s own checks fails: the directory is not there, git does not list it,
      HEAD cannot be read or is at another commit. */
  predicate FailsCheck(s: State, e: Event, p: nat) {
    && e.Act? && e.p == p && p in s.procs
    && match e.action
       case SeeExists => s.procs[p].path !in s.world.dirs
       case SeeRegistered(listed) => !listed
       case SeeHead(read) => read ==> s.procs[p].path in s.world.dirs && s.world.dirs[s.procs[p].path] != s.procs[p].sha
       case _ => false
  }

  /** `p` is alive and in one call of reuse_or_create, holding the lock, in all these
      states. */
  ghost predicate InOneCall(states: seq<State>, k: nat, i: nat, p: nat)
    requires k <= i < |states|
  {
    forall m :: k <= m <= i ==>
      && p in states[m].procs && p in states[i].procs
      && states[m].procs[p].purpose == Reuse && Holding(states[m].procs[p].pc)
      && states[m].procs[p].path == states[i].procs[p].path && states[m].procs[p].sha == states[i].procs[p].sha
  }

  predicate Rebuilds(pr: Process) {
    && pr.purpose == Reuse
    && (pr.pc == RemoveStale || pr.pc == RemoveStaleDir || pr.pc == AddWorktree || pr.pc == RollBack || pr.pc == RollBackDir)
  }

  lemma OwnStepBack(w: World, me: nat, pr: Process, a: Action)
    requires CanAct(w, pr, a) && LocalOk(w, pr)
    ensures var next := Effect(w, me, pr, a).1;
            Rebuilds(next) ==>
              pr.purpose == Reuse && Holding(pr.pc) && pr.path == next.path && pr.sha == next.sha
    ensures var next := Effect(w, me, pr, a).1;
            Rebuilds(next) ==>
              || Rebuilds(pr)
              || (a == SeeExists && pr.path !in w.dirs) || a == SeeRegistered(false) || a == SeeHead(false)
              || (a == SeeHead(true) && w.dirs[pr.path] != pr.sha)
  {
    hide CacheName;
    hide IsReusable;
  }

  lemma StepBack(s: State, e: Event, p: nat)
    requires Inv(s) && Enabled(s, e) && p in Apply(s, e).procs
    requires Rebuilds(Apply(s, e).procs[p])
    ensures p in s.procs && s.procs[p].purpose == Reuse && Holding(s.procs[p].pc)
    ensures s.procs[p].path == Apply(s, e).procs[p].path && s.procs[p].sha == Apply(s, e).procs[p].sha
    ensures Rebuilds(s.procs[p]) || FailsCheck(s, e, p)
  {
    if e.Act? && e.p == p {
      assert LocalOk(s.world, s.procs[p]);
      hide Inv;
      hide LocalOk;
      hide Effect;
      OwnStepBack(s.world, p, s.procs[p], e.action);
    } else {
      hide Inv;
      hide Effect;
    }
  }

  ghost predicate CheckFailedInCall(states: seq<State>, events: seq<Event>, i: nat, p: nat)
    requires IsRun(states, events) && i < |states|
  {
    exists k :: 0 <= k < i && FailsCheck(states[k], events[k], p) && InOneCall(states, k, i, p)
  }

  lemma InitialHasNoProcess(states: seq<State>, events: seq<Event>, p: nat)
    requires IsRun(states, events)
    ensures p !in states[0].procs
  {
  }

  lemma {:induction false} RebuildingAfterFailedCheck(states: seq<State>, events: seq<Event>, i: nat, p: nat)
    requires IsRun(states, events) && i < |states| && p in states[i].procs && Rebuilds(states[i].procs[p])
    ensures CheckFailedInCall(states, events, i, p)
    decreases i
  {
    hide Apply;
    hide Enabled;
    hide Inv;
    hide FailsCheck;
    InitialHasNoProcess(states, events, p);
    RunKeepsInv(states, events, i - 1);
    assert states[i - 1 + 1] == Apply(states[i - 1], events[i - 1]);
    StepBack(states[i - 1], events[i - 1], p);
    if FailsCheck(states[i - 1], events[i - 1], p) {
      assert InOneCall(states, i - 1, i, p);
    } else {
      RebuildingAfterFailedCheck(states, events, i - 1, p);
      var k :| 0 <= k < i - 1 && FailsCheck(states[k], events[k], p) && InOneCall(states, k, i - 1, p);
      assert InOneCall(states, k, i, p);
    }
  }

  /** Every removal and every add of reuse_or_create comes after one of its own checks
      has failed in the same call. */
  lemma RebuildNeedsFailedCheck(states: seq<State>, events: seq<Event>, i: nat, p: nat)
    requires IsRun(states, events) && i < |events| && events[i].Act? && events[i].p == p
    requires events[i].action.GitRemove? || events[i].action.RemoveDirAll? || events[i].action.GitAdd?
    requires states[i].procs[p].purpose == Reuse
    ensures CheckFailedInCall(states, events, i, p)
  {
    RunKeepsInv(states, events, i);
    assert LocalOk(states[i].world, states[i].procs[p]);
    assert CanAct(states[i].world, states[i].procs[p], events[i].action);
    RebuildingAfterFailedCheck(states, events, i, p);
  }
}
