/** The order of the steps in one call of reuse_or_create, and what the commands do
    (crates/cli/src/base_worktree.rs). */
module CallRuns {
  import opened Wrappers
  import opened WorktreeNames
  import opened ReusableWorktrees
  import opened ReuseRuns

  // ----- The step before

  predicate IsOwn(e: Event, p: nat) {
    e.Act? && e.p == p
  }

  predicate FailsToAdd(e: Event, p: nat) {
    e.Act? && e.p == p && e.action.GitAdd? && !e.action.succeeds
  }

  /** Only a process's own steps change it, but for the reaper's flag. */
  ghost predicate Rests(states: seq<State>, k: nat, i: nat, p: nat)
    requires k <= i < |states|
  {
    forall m :: k <= m <= i ==> p in states[m].procs && p in states[i].procs
                                && states[m].procs[p].(reaped := false) == states[i].procs[p].(reaped := false)
  }

  lemma NobodyYet(states: seq<State>, events: seq<Event>, p: nat)
    requires IsRun(states, events)
    ensures p !in states[0].procs
  {
  }

  lemma OwnIsAlive(s: State, e: Event, p: nat)
    requires Enabled(s, e) && IsOwn(e, p)
    ensures p in s.procs
  {
  }

  lemma {:induction false} PreviousStep(states: seq<State>, events: seq<Event>, i: nat, p: nat) returns (k: nat)
    requires IsRun(states, events) && i < |states| && p in states[i].procs && states[i].procs[p].pc != Idle
    ensures k < i && IsOwn(events[k], p) && p in states[k].procs && Rests(states, k + 1, i, p)
    decreases i
  {
    hide Apply;
    hide Enabled;
    NobodyYet(states, events, p);
    assert states[i - 1 + 1] == Apply(states[i - 1], events[i - 1]) && Enabled(states[i - 1], events[i - 1]);
    if IsOwn(events[i - 1], p) {
      OwnIsAlive(states[i - 1], events[i - 1], p);
      k := i - 1;
    } else {
      OthersLeaveProcess(states[i - 1], events[i - 1], p);
      k := PreviousStep(states, events, i - 1, p);
    }
  }

  predicate SameCall(pr: Process, next: Process) {
    pr.purpose == next.purpose == Reuse && Holding(pr.pc) && pr.path == next.path && pr.sha == next.sha
  }

  /** How a call gets to where it is. */
  lemma StepInto(w: World, me: nat, pr: Process, a: Action)
    requires CanAct(w, pr, a) && LocalOk(w, pr)
    ensures var next := Effect(w, me, pr, a).1;
            next.purpose == Reuse && Holding(next.pc) && next.pc != CheckExists ==> SameCall(pr, next)
    ensures var next := Effect(w, me, pr, a).1;
            next.purpose == Reuse ==>
              match next.pc
              case CheckRegistered => a == SeeExists && pr.pc == CheckExists && pr.path in w.dirs
              case CheckHead => a == SeeRegistered(true) && pr.pc == CheckRegistered && pr.path in w.registered
              case RemoveStaleDir => a.GitRemove? && pr.pc == RemoveStale
              case AddWorktree => a.RemoveDirAll? && pr.pc == RemoveStaleDir
              case RollBack => a.GitAdd? && !a.succeeds && pr.pc == AddWorktree
              case RollBackDir => a.GitRemove? && pr.pc == RollBack
              case Touch =>
                || (a == SeeHead(true) && pr.pc == CheckHead && pr.path in w.dirs && w.dirs[pr.path] == pr.sha)
                || (a.GitAdd? && a.succeeds && pr.pc == AddWorktree)
              case Release(ok) => if ok then a.TouchSidecar? && pr.pc == Touch else a.RemoveDirAll? && pr.pc == RollBackDir
              case _ => true
    ensures var next := Effect(w, me, pr, a).1;
            next.pc.Returned? ==>
              if a == Unlock then pr.pc == Release(next.pc.ok) && SameCall(pr, next)
              else !next.pc.ok && (a == Open(false) || a == Lock(false))
  {
    hide CacheName;
    hide IsReusable;
    hide CheckedOut;
  }

  /** `p`, at state `i` inside a call, has come there by the step `k` of the same call. */
  ghost predicate CameBy(states: seq<State>, events: seq<Event>, k: nat, i: nat, p: nat)
    requires IsRun(states, events) && i < |states|
  {
    && k < i && IsOwn(events[k], p) && p in states[k].procs && p in states[i].procs
    && CanAct(states[k].world, states[k].procs[p], events[k].action) && LocalOk(states[k].world, states[k].procs[p])
    && Effect(states[k].world, p, states[k].procs[p], events[k].action).1.(reaped := false)
       == states[i].procs[p].(reaped := false)
    && Rests(states, k + 1, i, p)
  }

  lemma StepBefore(states: seq<State>, events: seq<Event>, i: nat, p: nat) returns (k: nat)
    requires IsRun(states, events) && i < |states| && p in states[i].procs && states[i].procs[p].pc != Idle
    ensures CameBy(states, events, k, i, p)
  {
    hide Effect;
    hide LocalOk;
    hide LockOk;
    k := PreviousStep(states, events, i, p);
    RunKeepsInv(states, events, k);
    assert Enabled(states[k], events[k]) && LocalOk(states[k].world, states[k].procs[p]);
    assert states[k + 1] == Apply(states[k], events[k]);
    hide CanAct;
    hide Inv;
    assert states[k + 1].procs[p] == Effect(states[k].world, p, states[k].procs[p], events[k].action).1;
  }

  /** The steps inside a call. */
  lemma StepOfCall(states: seq<State>, events: seq<Event>, i: nat, p: nat) returns (k: nat)
    requires IsRun(states, events) && i < |states| && p in states[i].procs && states[i].procs[p].purpose == Reuse
    requires Holding(states[i].procs[p].pc) && states[i].procs[p].pc != CheckExists
    ensures CameBy(states, events, k, i, p) && InOneCall(states, k, i, p)
    ensures var w, pr, a := states[k].world, states[k].procs[p], events[k].action;
            match states[i].procs[p].pc
            case CheckRegistered => a == SeeExists && pr.pc == CheckExists && pr.path in w.dirs
            case CheckHead => a == SeeRegistered(true) && pr.pc == CheckRegistered && pr.path in w.registered
            case RemoveStaleDir => a.GitRemove? && pr.pc == RemoveStale
            case AddWorktree => a.RemoveDirAll? && pr.pc == RemoveStaleDir
            case RollBack => a.GitAdd? && !a.succeeds && pr.pc == AddWorktree
            case RollBackDir => a.GitRemove? && pr.pc == RollBack
            case Touch =>
              || (a == SeeHead(true) && pr.pc == CheckHead && pr.path in w.dirs && w.dirs[pr.path] == pr.sha)
              || (a.GitAdd? && a.succeeds && pr.pc == AddWorktree)
            case Release(ok) => if ok then a.TouchSidecar? && pr.pc == Touch else a.RemoveDirAll? && pr.pc == RollBackDir
            case _ => true
  {
    k := StepBefore(states, events, i, p);
    StepInto(states[k].world, p, states[k].procs[p], events[k].action);
    hide Effect;
    hide LocalOk;
    hide CanAct;
    hide IsRun;
  }

  lemma OneCallJoins(states: seq<State>, k: nat, l: nat, i: nat, p: nat)
    requires k <= l <= i < |states| && InOneCall(states, k, l, p) && InOneCall(states, l, i, p)
    ensures InOneCall(states, k, i, p)
  {
  }

  predicate IsRemoval(e: Event, p: nat) {
    IsOwn(e, p) && e.action.GitRemove?
  }

  predicate IsDirRemoval(e: Event, p: nat) {
    IsOwn(e, p) && e.action.RemoveDirAll?
  }

  /** Before `git worktree add` the call has removed the entry: first with git, then the
      directory. */
  lemma AddFollowsRemoval(states: seq<State>, events: seq<Event>, i: nat, p: nat) returns (k: nat, l: nat)
    requires IsRun(states, events) && i < |states| && p in states[i].procs && states[i].procs[p].purpose == Reuse
    requires states[i].procs[p].pc == AddWorktree
    ensures k < l < i && InOneCall(states, k, i, p) && IsRemoval(events[k], p) && IsDirRemoval(events[l], p)
  {
    hide IsRun;
    hide CameBy;
    l := StepOfCall(states, events, i, p);
    assert CameBy(states, events, l, i, p);
    CameByFacts(states, events, l, i, p);
    k := StepOfCall(states, events, l, p);
    CameByFacts(states, events, k, l, p);
    OneCallJoins(states, k, l, i, p);
  }

  lemma CameByFacts(states: seq<State>, events: seq<Event>, k: nat, i: nat, p: nat)
    requires IsRun(states, events) && i < |states| && CameBy(states, events, k, i, p)
    ensures k < i && IsOwn(events[k], p) && p in states[k].procs && |states| == |events| + 1
  {
  }

  /** A call that ends without a worktree has not got the lock, or its add failed and
      both removals were tried again after that. */
  lemma NoneMeans(states: seq<State>, events: seq<Event>, i: nat, p: nat) returns (a: nat, k: nat, l: nat)
    requires IsRun(states, events) && i < |events| && IsOwn(events[i], p)
    requires p in states[i + 1].procs && states[i + 1].procs[p].pc == Returned(false)
    ensures || events[i] == Act(p, Open(false)) || events[i] == Act(p, Lock(false))
            || (&& events[i] == Act(p, Unlock) && a < k < l < i && InOneCall(states, a, i, p)
                && FailsToAdd(events[a], p) && IsRemoval(events[k], p) && IsDirRemoval(events[l], p))
  {
    a, k, l := 0, 0, 0;
    EndsBy(states, events, i, p);
    if events[i] == Act(p, Unlock) {
      hide IsRun;
      l := StepOfCall(states, events, i, p);
      CameByFacts(states, events, l, i, p);
      hide CameBy;
      k := StepOfCall(states, events, l, p);
      CameByFacts(states, events, k, l, p);
      a := StepOfCall(states, events, k, p);
      CameByFacts(states, events, a, k, p);
      OneCallJoins(states, k, l, i, p);
      OneCallJoins(states, a, k, i, p);
    }
  }

  lemma EndsBy(states: seq<State>, events: seq<Event>, i: nat, p: nat)
    requires IsRun(states, events) && i < |events| && IsOwn(events[i], p)
    requires p in states[i + 1].procs && states[i + 1].procs[p].pc.Returned?
    ensures p in states[i].procs
    ensures var ok := states[i + 1].procs[p].pc.ok;
            if events[i] == Act(p, Unlock)
            then states[i].procs[p].purpose == Reuse && states[i].procs[p].pc == Release(ok)
            else !ok && (events[i] == Act(p, Open(false)) || events[i] == Act(p, Lock(false)))
  {
    RunKeepsInv(states, events, i);
    assert Enabled(states[i], events[i]) && LocalOk(states[i].world, states[i].procs[p]);
    assert states[i + 1] == Apply(states[i], events[i]);
    StepInto(states[i].world, p, states[i].procs[p], events[i].action);
    hide Effect;
    hide LocalOk;
    hide CanAct;
    hide Inv;
  }

  /** The three looks of one call, one after the other: the directory was there, git
      listed it, and its HEAD was at the full commit. */
  ghost predicate LookedReady(states: seq<State>, events: seq<Event>, a: nat, b: nat, c: nat, p: nat)
    requires IsRun(states, events)
  {
    && a < b < c < |events| && p in states[a].procs && p in states[b].procs && p in states[c].procs
    && events[a] == Act(p, SeeExists) && states[a].procs[p].path in states[a].world.dirs
    && events[b] == Act(p, SeeRegistered(true)) && states[b].procs[p].path in states[b].world.registered
    && events[c] == Act(p, SeeHead(true)) && states[c].procs[p].path in states[c].world.dirs
    && states[c].world.dirs[states[c].procs[p].path] == states[c].procs[p].sha
  }

  /** A call that returns a worktree has touched its sidecar, after it has either seen
      the entry ready or added it. */
  lemma SomeMeans(states: seq<State>, events: seq<Event>, i: nat, p: nat) returns (a: nat, b: nat, c: nat, t: nat)
    requires IsRun(states, events) && i < |events| && IsOwn(events[i], p)
    requires p in states[i + 1].procs && states[i + 1].procs[p].pc == Returned(true)
    ensures events[i] == Act(p, Unlock) && a <= c < t < i && InOneCall(states, a, i, p)
    ensures IsOwn(events[t], p) && events[t].action.TouchSidecar?
    ensures LookedReady(states, events, a, b, c, p) || (IsOwn(events[c], p) && events[c].action.GitAdd? && events[c].action.succeeds)
  {
    EndsBy(states, events, i, p);
    hide IsRun;
    t := StepOfCall(states, events, i, p);
    CameByFacts(states, events, t, i, p);
    hide CameBy;
    c := StepOfCall(states, events, t, p);
    CameByFacts(states, events, c, t, p);
    OneCallJoins(states, c, t, i, p);
    a, b := c, c;
    if events[c].action == SeeHead(true) {
      a, b := LooksBefore(states, events, c, t, p);
      OneCallJoins(states, a, c, i, p);
    }
  }

  lemma LooksBefore(states: seq<State>, events: seq<Event>, c: nat, t: nat, p: nat) returns (a: nat, b: nat)
    requires IsRun(states, events) && t < |states| && CameBy(states, events, c, t, p) && InOneCall(states, c, t, p)
    requires events[c] == Act(p, SeeHead(true)) && states[c].procs[p].pc == CheckHead
    requires states[c].procs[p].path in states[c].world.dirs
    requires states[c].world.dirs[states[c].procs[p].path] == states[c].procs[p].sha
    ensures LookedReady(states, events, a, b, c, p) && InOneCall(states, a, c, p)
  {
    CameByFacts(states, events, c, t, p);
    hide IsRun;
    hide CameBy;
    b := StepOfCall(states, events, c, p);
    CameByFacts(states, events, b, c, p);
    a := StepOfCall(states, events, b, p);
    CameByFacts(states, events, a, b, p);
    OneCallJoins(states, a, b, c, p);
  }

  // ----- What the commands do to the entry

  /** The entry after one step of the process that works on it. */
  lemma CommandsAct(states: seq<State>, events: seq<Event>, i: nat, p: nat)
    requires IsRun(states, events) && i < |events| && IsOwn(events[i], p)
    ensures p in states[i].procs
    ensures var w, v, pr := states[i].world, states[i + 1].world, states[i].procs[p];
            match events[i].action
            case GitRemove(unregisters, deletes) =>
              && (pr.path !in w.registered ==> v == w)
              && (pr.path in v.registered <==> pr.path in w.registered && !unregisters)
              && (pr.path in v.dirs <==> pr.path in w.dirs && !deletes)
            case RemoveDirAll(deletes) => v.registered == w.registered && (pr.path in v.dirs <==> pr.path in w.dirs && !deletes)
            case GitAdd(succeeds, leftover, leftRegistered) =>
              && (succeeds ==> pr.path in v.registered && pr.path in v.dirs && v.dirs[pr.path] == pr.sha)
              && (!succeeds && pr.path !in w.dirs ==>
                    (pr.path in v.dirs <==> leftover.Some?) && (leftover.Some? ==> v.dirs[pr.path] == leftover.value))
              && (!succeeds && pr.path in w.dirs ==> pr.path in v.dirs && v.dirs[pr.path] == w.dirs[pr.path])
              && (!succeeds ==> (pr.path in v.registered <==> pr.path in w.registered || leftRegistered))
            case SeeSidecar(seeded) =>
              v.sidecars == if pr.path !in w.sidecars && seeded then w.sidecars[pr.path := w.clock] else w.sidecars
            case TouchSidecar(written) => v.sidecars == if written then w.sidecars[pr.path := w.clock] else w.sidecars
            case RemoveSidecar => v.sidecars == w.sidecars - {pr.path}
            case _ => v.dirs == w.dirs && v.registered == w.registered && v.sidecars == w.sidecars
  {
    hide CacheName;
    hide IsReusable;
    assert Enabled(states[i], events[i]) && states[i + 1] == Apply(states[i], events[i]);
  }

  lemma SweepStepCounts(w: World, me: nat, pr: Process, a: Action)
    requires CanAct(w, pr, a) && LocalOk(w, pr)
    ensures var (v, next) := Effect(w, me, pr, a);
            && (next.pc.DropSidecar? ==> (next.pc.gone <==> next.path !in v.dirs))
            && (pr.purpose != Reuse && next.pc.Release? ==>
                  if pr.pc.DropSidecar? then next.pc.ok == pr.pc.gone else !next.pc.ok && next.path in v.dirs)
  {
    hide CacheName;
    hide IsReusable;
    hide CheckedOut;
  }

  /** What a sweep notes about an entry is true: it is counted as removed exactly when
      its directory is gone. */
  lemma SweepCountsTheRemoved(states: seq<State>, events: seq<Event>, i: nat, q: nat)
    requires IsRun(states, events) && i < |events| && IsOwn(events[i], q)
    ensures q in states[i].procs && q in states[i + 1].procs
    ensures var pr, next := states[i].procs[q], states[i + 1].procs[q];
            && (next.pc.DropSidecar? ==> (next.pc.gone <==> next.path !in states[i + 1].world.dirs))
            && (pr.purpose != Reuse && next.pc.Release? ==>
                  if pr.pc.DropSidecar? then next.pc.ok == pr.pc.gone else !next.pc.ok && next.path in states[i + 1].world.dirs)
  {
    RunKeepsInv(states, events, i);
    assert Enabled(states[i], events[i]) && LocalOk(states[i].world, states[i].procs[q]);
    assert states[i + 1] == Apply(states[i], events[i]);
    hide Inv;
    hide LocalOk;
    hide Effect;
    hide CanAct;
    SweepStepCounts(states[i].world, q, states[i].procs[q], events[i].action);
  }
}
