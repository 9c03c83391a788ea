/** What a sweep of the reusable worktrees collects
    (crates/cli/src/base_worktree.rs, sweep_old_reusable_caches). */
module SweepRuns {
  import opened Wrappers
  import opened WorktreeNames
  import opened ReusableWorktrees

  predicate InSweep(pr: Process) {
    match pr.pc
    case NextEntry | ReadSidecar => true
    case OpenLock | TryLock | RecheckOrphan | UnregisterOrphan | DropSidecar(_) | RemoveAged | RemoveAgedDir | Release(_) =>
      pr.purpose != Reuse
    case _ => false
  }

  /** `q` is alive and in one sweep in all these states. */
  ghost predicate InOneSweep(states: seq<State>, h: nat, i: nat, q: nat)
    requires h <= i < |states|
  {
    forall m :: h <= m <= i ==> q in states[m].procs && InSweep(states[m].procs[q])
  }

  /** The process has decided, from the sidecar, to remove this entry. */
  predicate RemovesAged(pr: Process) {
    pr.purpose == Aged && (pr.pc == OpenLock || pr.pc == TryLock || pr.pc == RemoveAged || pr.pc == RemoveAgedDir)
  }

  /** `q` reads a sidecar at `path` that was old enough when its sweep began. */
  predicate ReadsOld(s: State, e: Event, q: nat, path: string) {
    && e.Act? && e.p == q && e.action.SeeSidecar? && q in s.procs && s.procs[q].path == path
    && path in s.world.sidecars && s.procs[q].maxAge.Some?
    && s.world.sidecars[path] + s.procs[q].maxAge.value <= s.procs[q].sweepNow
  }

  predicate StartsSweep(s: State, e: Event, q: nat, age: Option<nat>, now: nat) {
    e.Act? && e.p == q && e.action.StartSweep? && e.action.age == age && s.world.clock == now
  }

  lemma OwnStepAged(w: World, me: nat, pr: Process, a: Action)
    requires CanAct(w, pr, a) && LocalOk(w, pr)
    ensures var next := Effect(w, me, pr, a).1;
            RemovesAged(next) ==>
              && next.path == pr.path && next.maxAge == pr.maxAge && next.sweepNow == pr.sweepNow
              && (RemovesAged(pr)
                  || (&& a.SeeSidecar? && pr.path in w.sidecars && pr.maxAge.Some?
                      && w.sidecars[pr.path] + pr.maxAge.value <= pr.sweepNow))
  {
    hide CacheName;
    hide IsReusable;
    hide CheckedOut;
  }

  lemma OwnStepInSweep(w: World, me: nat, pr: Process, a: Action)
    requires CanAct(w, pr, a) && LocalOk(w, pr)
    ensures var next := Effect(w, me, pr, a).1;
            InSweep(next) ==>
              || (InSweep(pr) && next.maxAge == pr.maxAge && next.sweepNow == pr.sweepNow)
              || (a.StartSweep? && next.maxAge == a.age && next.sweepNow == w.clock)
  {
    hide CacheName;
    hide IsReusable;
    hide CheckedOut;
  }

  lemma StepBack(s: State, e: Event, q: nat)
    requires Inv(s) && Enabled(s, e) && q in Apply(s, e).procs
    ensures var next := Apply(s, e).procs[q];
            RemovesAged(next) ==>
              && q in s.procs && next.path == s.procs[q].path
              && (RemovesAged(s.procs[q]) || ReadsOld(s, e, q, next.path))
    ensures var next := Apply(s, e).procs[q];
            InSweep(next) ==>
              || (q in s.procs && InSweep(s.procs[q]) && next.maxAge == s.procs[q].maxAge && next.sweepNow == s.procs[q].sweepNow)
              || StartsSweep(s, e, q, next.maxAge, next.sweepNow)
  {
    if e.Act? && e.p == q {
      assert LocalOk(s.world, s.procs[q]);
      hide Inv;
      hide LocalOk;
      hide Effect;
      OwnStepAged(s.world, q, s.procs[q], e.action);
      OwnStepInSweep(s.world, q, s.procs[q], e.action);
    } else {
      hide Inv;
      hide Effect;
    }
  }

  // ----- Where the age comes from

  ghost predicate HasReadOld(states: seq<State>, events: seq<Event>, k: nat, i: nat, q: nat)
    requires IsRun(states, events) && i < |states|
  {
    && k < i && q in states[i].procs && ReadsOld(states[k], events[k], q, states[i].procs[q].path)
    && forall m :: k < m <= i ==> q in states[m].procs && RemovesAged(states[m].procs[q])
                                  && states[m].procs[q].path == states[i].procs[q].path
  }

  lemma {:induction false} AgedAfterRead(states: seq<State>, events: seq<Event>, i: nat, q: nat) returns (k: nat)
    requires IsRun(states, events) && i < |states| && q in states[i].procs && RemovesAged(states[i].procs[q])
    ensures HasReadOld(states, events, k, i, q)
    decreases i
  {
    hide Apply;
    hide Enabled;
    hide Inv;
    hide ReadsOld;
    hide RemovesAged;
    assert i > 0;
    RunKeepsInv(states, events, i - 1);
    assert states[i - 1 + 1] == Apply(states[i - 1], events[i - 1]);
    StepBack(states[i - 1], events[i - 1], q);
    if ReadsOld(states[i - 1], events[i - 1], q, states[i].procs[q].path) {
      k := i - 1;
    } else {
      k := AgedAfterRead(states, events, i - 1, q);
    }
  }

  ghost predicate HasStarted(states: seq<State>, events: seq<Event>, h: nat, i: nat, q: nat)
    requires IsRun(states, events) && i < |states|
  {
    && h < i && q in states[i].procs
    && StartsSweep(states[h], events[h], q, states[i].procs[q].maxAge, states[i].procs[q].sweepNow)
    && InOneSweep(states, h + 1, i, q)
    && forall m :: h < m <= i ==> states[m].procs[q].maxAge == states[i].procs[q].maxAge
                                  && states[m].procs[q].sweepNow == states[i].procs[q].sweepNow
  }

  lemma {:induction false} SweepHasStarted(states: seq<State>, events: seq<Event>, i: nat, q: nat) returns (h: nat)
    requires IsRun(states, events) && i < |states| && q in states[i].procs && InSweep(states[i].procs[q])
    ensures HasStarted(states, events, h, i, q)
    decreases i
  {
    hide Apply;
    hide Enabled;
    hide Inv;
    hide StartsSweep;
    hide InSweep;
    assert i > 0;
    RunKeepsInv(states, events, i - 1);
    assert states[i - 1 + 1] == Apply(states[i - 1], events[i - 1]);
    StepBack(states[i - 1], events[i - 1], q);
    if StartsSweep(states[i - 1], events[i - 1], q, states[i].procs[q].maxAge, states[i].procs[q].sweepNow) {
      h := i - 1;
    } else {
      h := SweepHasStarted(states, events, i - 1, q);
    }
  }

  // ----- A used entry is spared

  lemma SidecarStep(w: World, me: nat, pr: Process, a: Action, path: string)
    requires CanAct(w, pr, a)
    ensures var v := Effect(w, me, pr, a).0;
            && v.clock == w.clock
            && (path in v.sidecars ==> (path in w.sidecars && v.sidecars[path] == w.sidecars[path]) || v.sidecars[path] == w.clock)
    ensures a == TouchSidecar(true) && pr.path == path ==>
              path in Effect(w, me, pr, a).0.sidecars && Effect(w, me, pr, a).0.sidecars[path] == w.clock
  {
    hide CacheName;
    hide IsReusable;
  }

  lemma SidecarStaysYoung(s: State, e: Event, path: string, used: nat)
    requires Enabled(s, e) && used <= s.world.clock
    requires path in s.world.sidecars ==> used <= s.world.sidecars[path]
    ensures used <= Apply(s, e).world.clock
    ensures path in Apply(s, e).world.sidecars ==> used <= Apply(s, e).world.sidecars[path]
  {
    if e.Act? {
      SidecarStep(s.world, e.p, s.procs[e.p], e.action, path);
    }
    hide Effect;
  }

  /** reuse_or_create of `p` stamps the sidecar at `path`. */
  predicate Touches(s: State, e: Event, p: nat, path: string) {
    e == Act(p, TouchSidecar(true)) && p in s.procs && s.procs[p].path == path
  }

  lemma {:induction false} SidecarIsYoung(states: seq<State>, events: seq<Event>, j: nat, k: nat, p: nat, path: string)
    requires IsRun(states, events) && j < k < |states| && Touches(states[j], events[j], p, path)
    ensures states[j].world.clock <= states[k].world.clock
    ensures path in states[k].world.sidecars ==> states[j].world.clock <= states[k].world.sidecars[path]
    decreases k
  {
    assert states[k - 1 + 1] == Apply(states[k - 1], events[k - 1]);
    if k == j + 1 {
      SidecarStep(states[j].world, p, states[j].procs[p], events[j].action, path);
    } else {
      hide Apply;
      hide Enabled;
      SidecarIsYoung(states, events, j, k - 1, p, path);
      SidecarStaysYoung(states[k - 1], events[k - 1], path, states[j].world.clock);
    }
  }

  /** A sweep takes a directory only after it has read a sidecar there that was at least
      max_age old when the sweep began. So an entry that reuse_or_create has touched
      before that read is spared until it has not been touched for max_age. */
  lemma RecentUseSparesEntry(states: seq<State>, events: seq<Event>, i: nat, q: nat, path: string) returns (h: nat, k: nat)
    requires IsRun(states, events) && i < |events| && events[i].Act? && events[i].p == q
    requires states[i].procs[q].purpose != Reuse
    requires path in states[i].world.dirs && path !in states[i + 1].world.dirs
    ensures HasStarted(states, events, h, i, q) && HasReadOld(states, events, k, i, q) && h < k
    ensures ReadsOld(states[k], events[k], q, path) && states[i].procs[q].maxAge.Some?
    ensures states[k].world.sidecars[path] + states[i].procs[q].maxAge.value <= states[h].world.clock
    ensures forall j, p :: 0 <= j < k && Touches(states[j], events[j], p, path) ==>
              states[j].world.clock + states[i].procs[q].maxAge.value <= states[h].world.clock
  {
    hide Apply;
    hide Enabled;
    SweepRemovesOnlyOldCaches(states, events, i, path);
    RemovalIsAged(states, events, i, q, path);
    k := AgedAfterRead(states, events, i, q);
    h := SweepHasStarted(states, events, i, q);
    ReadIsInSweep(states, events, h, k, i, q);
    forall j, p | 0 <= j < k && Touches(states[j], events[j], p, path)
      ensures states[j].world.clock + states[i].procs[q].maxAge.value <= states[h].world.clock
    {
      SidecarIsYoung(states, events, j, k, p, path);
    }
  }

  lemma RemovalStepIsAged(w: World, me: nat, pr: Process, a: Action, path: string)
    requires CanAct(w, pr, a) && LocalOk(w, pr) && pr.purpose != Reuse
    requires path in w.dirs && path !in Effect(w, me, pr, a).0.dirs
    ensures RemovesAged(pr) && InSweep(pr) && pr.path == path
  {
    hide CacheName;
    hide IsReusable;
    hide IsFallow;
    hide CheckedOut;
  }

  lemma RemovalIsAged(states: seq<State>, events: seq<Event>, i: nat, q: nat, path: string)
    requires IsRun(states, events) && i < |events| && events[i].Act? && events[i].p == q
    requires states[i].procs[q].purpose != Reuse
    requires path in states[i].world.dirs && path !in states[i + 1].world.dirs
    ensures q in states[i].procs && RemovesAged(states[i].procs[q]) && InSweep(states[i].procs[q])
    ensures states[i].procs[q].path == path
  {
    hide Effect;
    hide LocalOk;
    hide LockOk;
    hide CanAct;
    RunKeepsInv(states, events, i);
    assert Enabled(states[i], events[i]) && LocalOk(states[i].world, states[i].procs[q]);
    assert states[i + 1] == Apply(states[i], events[i]);
    RemovalStepIsAged(states[i].world, q, states[i].procs[q], events[i].action, path);
  }

  /** The read belongs to the sweep that removes. */
  lemma ReadIsInSweep(states: seq<State>, events: seq<Event>, h: nat, k: nat, i: nat, q: nat)
    requires IsRun(states, events) && i < |states|
    requires HasStarted(states, events, h, i, q) && HasReadOld(states, events, k, i, q)
    ensures h < k && states[k].procs[q].maxAge == states[i].procs[q].maxAge
    ensures states[k].procs[q].sweepNow == states[i].procs[q].sweepNow
  {
    assert Enabled(states[h], events[h]);
  }

  // ----- Every listed entry is collected, or there is a reason

  /** One of `q`'s own steps at this entry leaves it alone: the directory is there and
      no max_age is set, the sidecar is missing or young, the lock cannot be opened or
      taken, or the directory is back under the lock. */
  predicate LeavesAlone(s: State, e: Event, q: nat, path: string) {
    && e.Act? && e.p == q && q in s.procs
    && var pr, w := s.procs[q], s.world;
    && match e.action
       case Visit => pr.todo != [] && pr.todo[0] == path && path in w.dirs && pr.maxAge.None?
       case SeeSidecar(_) =>
         pr.path == path && (path !in w.sidecars || (pr.maxAge.Some? ==> w.sidecars[path] + pr.maxAge.value > pr.sweepNow))
       case Open(opens) => pr.path == path && !opens
       case Lock(locks) => pr.path == path && !locks
       case Recheck => pr.path == path && path in w.dirs
       case _ => false
  }

  /** `q` unregisters the orphan, or removes the aged directory. */
  predicate Collects(s: State, e: Event, q: nat, path: string) {
    && e.Act? && e.p == q && q in s.procs && s.procs[q].path == path
    && (e.action.RemoveDirAll? || (e.action.GitRemove? && path !in s.world.dirs && s.procs[q].purpose == Orphan))
  }

  predicate IsPending(pr: Process, path: string) {
    || path in pr.todo
    || (&& pr.path == path && pr.purpose != Reuse
        && (pr.pc == ReadSidecar || pr.pc == OpenLock || pr.pc == TryLock || pr.pc == RecheckOrphan
            || pr.pc == UnregisterOrphan || pr.pc == RemoveAged || pr.pc == RemoveAgedDir))
  }

  lemma TodoStep(pr: Process, path: string)
    requires pr.todo != [] && path in pr.todo
    ensures path == pr.todo[0] || path in pr.todo[1..]
  {
  }

  lemma OwnStepPending(s: State, e: Event, q: nat, path: string)
    requires Inv(s) && Enabled(s, e) && e.Act? && e.p == q && q in s.procs && InSweep(s.procs[q])
    requires IsReusable(path) && IsPending(s.procs[q], path) && InSweep(Apply(s, e).procs[q])
    ensures IsPending(Apply(s, e).procs[q], path) || LeavesAlone(s, e, q, path) || Collects(s, e, q, path)
  {
    assert LocalOk(s.world, s.procs[q]);
    hide Inv;
    hide CacheName;
    hide IsReusable;
    var pr := s.procs[q];
    if e.action.Visit? && path in pr.todo {
      TodoStep(pr, path);
    }
  }

  ghost predicate IsDone(states: seq<State>, events: seq<Event>, h: nat, m: nat, q: nat, path: string)
    requires IsRun(states, events) && m < |states|
  {
    exists k :: h < k < m && (LeavesAlone(states[k], events[k], q, path) || Collects(states[k], events[k], q, path))
  }

  lemma ListedIsPending(s: State, e: Event, q: nat, path: string)
    requires Enabled(s, e) && e.Act? && e.p == q && e.action.StartSweep? && path in e.action.paths
    ensures q in Apply(s, e).procs && IsPending(Apply(s, e).procs[q], path)
  {
  }

  lemma StepPending(s: State, e: Event, q: nat, path: string)
    requires Inv(s) && Enabled(s, e) && q in s.procs && InSweep(s.procs[q]) && q in Apply(s, e).procs
    requires IsReusable(path) && IsPending(s.procs[q], path) && InSweep(Apply(s, e).procs[q])
    ensures IsPending(Apply(s, e).procs[q], path) || LeavesAlone(s, e, q, path) || Collects(s, e, q, path)
  {
    if e.Act? && e.p == q {
      OwnStepPending(s, e, q, path);
    } else {
      OthersLeaveProcess(s, e, q);
      hide Apply;
    }
  }

  lemma {:induction false} EntryIsPending(states: seq<State>, events: seq<Event>, h: nat, m: nat, q: nat, path: string)
    requires IsRun(states, events) && h < m < |states|
    requires events[h].Act? && events[h].p == q && events[h].action.StartSweep? && path in events[h].action.paths
    requires IsReusable(path) && InOneSweep(states, h + 1, m, q)
    ensures IsPending(states[m].procs[q], path) || IsDone(states, events, h, m, q, path)
    decreases m
  {
    hide Apply;
    hide Enabled;
    hide IsReusable;
    hide LeavesAlone;
    hide Collects;
    hide Inv;
    hide IsPending;
    hide InSweep;
    assert states[m - 1 + 1] == Apply(states[m - 1], events[m - 1]);
    if m == h + 1 {
      ListedIsPending(states[h], events[h], q, path);
    } else {
      EntryIsPending(states, events, h, m - 1, q, path);
      RunKeepsInv(states, events, m - 1);
      assert InSweep(states[m - 1].procs[q]);
      if IsPending(states[m - 1].procs[q], path) {
        StepPending(states[m - 1], events[m - 1], q, path);
      }
    }
  }

  /** A sweep that runs to its end has collected every reusable entry that was registered
      when it began, or one of its own steps shows why not. */
  lemma SweepCollectsOrHasReason(states: seq<State>, events: seq<Event>, h: nat, m: nat, q: nat, path: string)
    requires IsRun(states, events) && h < m < |events|
    requires events[h].Act? && events[h].p == q && events[h].action.StartSweep? && events[m] == Act(q, EndSweep)
    requires IsReusable(path) && path in states[h].world.registered && InOneSweep(states, h + 1, m, q)
    ensures IsDone(states, events, h, m, q, path)
  {
    ReusableIsFallow(path);
    assert Enabled(states[h], events[h]);
    EntryIsPending(states, events, h, m, q, path);
    assert Enabled(states[m], events[m]);
  }
}
