/** Runs of the reusable worktrees that exist (crates/cli/src/base_worktree.rs). */
module WorktreeScenarios {
  import opened Wrappers
  import opened WorktreeNames
  import opened ReusableWorktrees

  const EMPTY_WORLD: World := World(map[], 0, map[], map[], {}, map[], 0)

  lemma FirstState()
    ensures IsRun([State(EMPTY_WORLD, map[])], [])
  {
  }

  lemma Step(states: seq<State>, events: seq<Event>, e: Event) returns (more: seq<State>, longer: seq<Event>)
    requires IsRun(states, events) && Enabled(states[|events|], e)
    ensures longer == events + [e] && more == states + [Apply(states[|events|], e)] && IsRun(more, longer)
  {
    hide Enabled;
    hide Apply;
    more := states + [Apply(states[|events|], e)];
    longer := events + [e];
  }

  /** One more step of process 0, which is alone. */
  lemma Own(states: seq<State>, events: seq<Event>, a: Action, w: World, pr: Process)
    returns (more: seq<State>, longer: seq<Event>, v: World, next: Process)
    requires IsRun(states, events) && states[|events|] == State(w, map[0 := pr]) && CanAct(w, pr, a)
    ensures longer == events + [Act(0, a)] && |more| == |longer| + 1 && IsRun(more, longer)
    ensures (v, next) == Effect(w, 0, pr, a) && more[|longer|] == State(v, map[0 := next])
    ensures more[..|states|] == states
  {
    hide Effect;
    hide CanAct;
    more, longer := Step(states, events, Act(0, a));
    v, next := Effect(w, 0, pr, a).0, Effect(w, 0, pr, a).1;
  }

  /** Only process 0 is alive, here and in this world. */
  ghost predicate Alone(s: State, w: World, pc: Pc, purpose: Purpose, path: string, sha: string) {
    && 0 in s.procs && s == State(w, map[0 := s.procs[0]])
    && s.procs[0].pc == pc && s.procs[0].purpose == purpose && s.procs[0].path == path && s.procs[0].sha == sha
    && s.procs[0].inode == 0
  }

  /** One registered entry with its lock file and sidecar. */
  function WarmWorld(path: string, sha: string, holders: map<nat, nat>): World {
    World(map[path := 0], 1, holders, map[path := sha], {path}, map[path := 0], 0)
  }

  /** The first call builds the entry and returns. */
  lemma RunToWarm(repoHash: string, sha: string) returns (states: seq<State>, events: seq<Event>)
    ensures |events| == 11 && |states| == 12 && IsRun(states, events)
    ensures var path := CacheName(repoHash, sha); Alone(states[11], WarmWorld(path, sha, map[]), Idle, Reuse, path, sha)
  {
    hide CacheName;
    hide IsRun;
    states, events := RunToAlone(repoHash, sha);
    var w, pr := states[8].world, states[8].procs[0];
    states, events, w, pr := Own(states, events, TouchSidecar(true), w, pr);
    states, events, w, pr := Own(states, events, Unlock, w, pr);
    states, events, w, pr := Own(states, events, Resume, w, pr);
  }

  lemma RunToAlone(repoHash: string, sha: string) returns (states: seq<State>, events: seq<Event>)
    ensures |events| == 8 && |states| == 9 && IsRun(states, events)
    ensures var path := CacheName(repoHash, sha);
            Alone(states[8], World(map[path := 0], 1, map[0 := 0], map[path := sha], {path}, map[], 0), Touch, Reuse, path, sha)
  {
    hide CacheName;
    hide IsRun;
    states, events := RunToBare(repoHash, sha);
    var w, pr := states[4].world, states[4].procs[0];
    states, events, w, pr := Own(states, events, SeeExists, w, pr);
    states, events, w, pr := Own(states, events, GitRemove(false, false), w, pr);
    states, events, w, pr := Own(states, events, RemoveDirAll(false), w, pr);
    states, events, w, pr := Own(states, events, GitAdd(true, None, true), w, pr);
  }

  lemma RunToBare(repoHash: string, sha: string) returns (states: seq<State>, events: seq<Event>)
    ensures |events| == 4 && |states| == 5 && IsRun(states, events)
    ensures var path := CacheName(repoHash, sha);
            Alone(states[4], World(map[path := 0], 1, map[0 := 0], map[], {}, map[], 0), CheckExists, Reuse, path, sha)
  {
    hide CacheName;
    hide IsRun;
    events := [];
    states := [State(EMPTY_WORLD, map[])];
    assert IsRun(states, events) by {
      FirstState();
    }
    states, events := Step(states, events, Spawn(0));
    var w, pr := states[1].world, states[1].procs[0];
    states, events, w, pr := Own(states, events, StartReuse(repoHash, sha), w, pr);
    states, events, w, pr := Own(states, events, Open(true), w, pr);
    states, events, w, pr := Own(states, events, Lock(true), w, pr);
  }

  /** A second call for the same commit finds the entry, takes nothing away, adds
      nothing, and returns it. */
  lemma WarmEntryIsReused(repoHash: string, sha: string) returns (states: seq<State>, events: seq<Event>)
    ensures |events| == 19 && |states| == 20 && IsRun(states, events)
    ensures events[11..] == [Act(0, StartReuse(repoHash, sha)), Act(0, Open(true)), Act(0, Lock(true)), Act(0, SeeExists),
                             Act(0, SeeRegistered(true)), Act(0, SeeHead(true)), Act(0, TouchSidecar(true)), Act(0, Unlock)]
    ensures var path := CacheName(repoHash, sha); Alone(states[19], WarmWorld(path, sha, map[]), Returned(true), Reuse, path, sha)
  {
    hide CacheName;
    hide IsRun;
    var path := CacheName(repoHash, sha);
    states, events := RunToWarm(repoHash, sha);
    states, events := SecondLock(states, events, repoHash, sha);
    var w, pr := states[14].world, states[14].procs[0];
    states, events, w, pr := Own(states, events, SeeExists, w, pr);
    states, events, w, pr := Own(states, events, SeeRegistered(true), w, pr);
    states, events, w, pr := Own(states, events, SeeHead(true), w, pr);
    assert Alone(states[17], WarmWorld(path, sha, map[0 := 0]), Touch, Reuse, path, sha);
    states, events := LastSteps(states, events, path, sha);
  }

  lemma SecondLock(before: seq<State>, old_: seq<Event>, repoHash: string, sha: string)
    returns (states: seq<State>, events: seq<Event>)
    requires |old_| == 11 && |before| == 12 && IsRun(before, old_)
    requires var path := CacheName(repoHash, sha); Alone(before[11], WarmWorld(path, sha, map[]), Idle, Reuse, path, sha)
    ensures events == old_ + [Act(0, StartReuse(repoHash, sha)), Act(0, Open(true)), Act(0, Lock(true))]
    ensures |states| == 15 && IsRun(states, events)
    ensures var path := CacheName(repoHash, sha);
            Alone(states[14], WarmWorld(path, sha, map[0 := 0]), CheckExists, Reuse, path, sha)
  {
    hide CacheName;
    hide IsRun;
    var w, pr := before[11].world, before[11].procs[0];
    states, events, w, pr := Own(before, old_, StartReuse(repoHash, sha), w, pr);
    states, events, w, pr := Own(states, events, Open(true), w, pr);
    states, events, w, pr := Own(states, events, Lock(true), w, pr);
  }

  lemma LastSteps(before: seq<State>, old_: seq<Event>, path: string, sha: string) returns (states: seq<State>, events: seq<Event>)
    requires |old_| == 17 && |before| == 18 && IsRun(before, old_)
    requires Alone(before[17], WarmWorld(path, sha, map[0 := 0]), Touch, Reuse, path, sha)
    ensures events == old_ + [Act(0, TouchSidecar(true)), Act(0, Unlock)]
    ensures |states| == 20 && IsRun(states, events)
    ensures Alone(states[19], WarmWorld(path, sha, map[]), Returned(true), Reuse, path, sha)
  {
    hide IsRun;
    var w, pr := before[17].world, before[17].procs[0];
    states, events, w, pr := Own(before, old_, TouchSidecar(true), w, pr);
    states, events, w, pr := Own(states, events, Unlock, w, pr);
  }

  /** A failed add that leaves both a registration and a directory: the call takes them
      away again and returns nothing. */
  lemma FailedAddLeavesNothing(repoHash: string, sha: string, leftover: string) returns (states: seq<State>, events: seq<Event>)
    ensures |events| == 11 && |states| == 12 && IsRun(states, events)
    ensures events[7] == Act(0, GitAdd(false, Some(leftover), true))
    ensures var path := CacheName(repoHash, sha);
            Alone(states[11], World(map[path := 0], 1, map[], map[], {}, map[], 0), Returned(false), Reuse, path, sha)
  {
    hide CacheName;
    hide IsRun;
    states, events := RunToBare(repoHash, sha);
    var w, pr := states[4].world, states[4].procs[0];
    states, events, w, pr := Own(states, events, SeeExists, w, pr);
    states, events, w, pr := Own(states, events, GitRemove(false, false), w, pr);
    states, events, w, pr := Own(states, events, RemoveDirAll(false), w, pr);
    states, events := RollBackSteps(states, events, CacheName(repoHash, sha), sha, leftover);
  }

  lemma RollBackSteps(before: seq<State>, old_: seq<Event>, path: string, sha: string, leftover: string)
    returns (states: seq<State>, events: seq<Event>)
    requires |old_| == 7 && |before| == 8 && IsRun(before, old_)
    requires Alone(before[7], World(map[path := 0], 1, map[0 := 0], map[], {}, map[], 0), AddWorktree, Reuse, path, sha)
    ensures |events| == 11 && events[7] == Act(0, GitAdd(false, Some(leftover), true))
    ensures |states| == 12 && IsRun(states, events)
    ensures Alone(states[11], World(map[path := 0], 1, map[], map[], {}, map[], 0), Returned(false), Reuse, path, sha)
  {
    hide IsRun;
    var w, pr := before[7].world, before[7].procs[0];
    states, events, w, pr := Own(before, old_, GitAdd(false, Some(leftover), true), w, pr);
    states, events, w, pr := Own(states, events, GitRemove(true, false), w, pr);
    states, events, w, pr := Own(states, events, RemoveDirAll(true), w, pr);
    states, events, w, pr := Own(states, events, Unlock, w, pr);
  }

  /** A sweep whose max_age has passed collects the entry: directory, registration and
      sidecar are gone. */
  lemma AgedEntryIsCollected(repoHash: string, sha: string) returns (states: seq<State>, events: seq<Event>)
    ensures |events| == 20 && |states| == 21 && IsRun(states, events)
    ensures var path := CacheName(repoHash, sha);
            Alone(states[20], World(map[path := 0], 1, map[], map[], {}, map[], 0), NextEntry, Aged, path, sha)
  {
    CacheNameIsReusable(repoHash, sha);
    hide CacheName;
    hide IsReusable;
    hide IsFallow;
    hide IsRun;
    var path := CacheName(repoHash, sha);
    states, events := RunToWarm(repoHash, sha);
    var w, pr := states[11].world, states[11].procs[0];
    states, events, w, pr := Own(states, events, StartSweep([path], Some(0)), w, pr);
    states, events, w, pr := Own(states, events, Visit, w, pr);
    states, events, w, pr := Own(states, events, SeeSidecar(false), w, pr);
    states, events, w, pr := Own(states, events, Open(true), w, pr);
    states, events, w, pr := Own(states, events, Lock(true), w, pr);
    assert Alone(states[16], WarmWorld(path, sha, map[0 := 0]), RemoveAged, Aged, path, sha);
    states, events := CollectSteps(states, events, path, sha);
  }

  lemma CollectSteps(before: seq<State>, old_: seq<Event>, path: string, sha: string) returns (states: seq<State>, events: seq<Event>)
    requires |old_| == 16 && |before| == 17 && IsRun(before, old_)
    requires Alone(before[16], WarmWorld(path, sha, map[0 := 0]), RemoveAged, Aged, path, sha)
    ensures |events| == 20 && |states| == 21 && IsRun(states, events)
    ensures Alone(states[20], World(map[path := 0], 1, map[], map[], {}, map[], 0), NextEntry, Aged, path, sha)
  {
    hide IsRun;
    var w, pr := before[16].world, before[16].procs[0];
    states, events, w, pr := Own(before, old_, GitRemove(true, true), w, pr);
    states, events, w, pr := Own(states, events, RemoveDirAll(false), w, pr);
    states, events, w, pr := Own(states, events, RemoveSidecar, w, pr);
    states, events, w, pr := Own(states, events, Unlock, w, pr);
  }

  /** For every commit there is a run in which reuse_or_create returns Some and the
      directory is absent: the reaper struck between the check and the return. */
  lemma ReaperCanStrike(repoHash: string, sha: string) returns (states: seq<State>, events: seq<Event>)
    ensures |events| == 11 && |states| == 12 && IsRun(states, events) && events[8] == Reap(CacheName(repoHash, sha))
    ensures 0 in states[11].procs && states[11].procs[0].pc == Returned(true)
    ensures states[11].procs[0].path == CacheName(repoHash, sha) && CacheName(repoHash, sha) !in states[11].world.dirs
  {
    hide CacheName;
    hide IsRun;
    states, events := RunToAlone(repoHash, sha);
    states, events := Step(states, events, Reap(CacheName(repoHash, sha)));
    var w, pr := states[9].world, states[9].procs[0];
    states, events, w, pr := Own(states, events, TouchSidecar(true), w, pr);
    states, events, w, pr := Own(states, events, Unlock, w, pr);
  }

  lemma RunToReaped(repoHash: string, sha: string) returns (states: seq<State>, events: seq<Event>)
    ensures |events| == 12 && |states| == 13 && IsRun(states, events) && events[11] == Reap(CacheName(repoHash, sha))
    ensures var path := CacheName(repoHash, sha);
            Alone(states[12], World(map[path := 0], 1, map[], map[], {path}, map[path := 0], 0), Idle, Reuse, path, sha)
  {
    hide CacheName;
    hide IsRun;
    states, events := RunToWarm(repoHash, sha);
    states, events := Step(states, events, Reap(CacheName(repoHash, sha)));
  }

  /** Without any max_age a sweep still forgets an entry whose directory the reaper has
      taken. */
  lemma OrphanIsForgotten(repoHash: string, sha: string) returns (states: seq<State>, events: seq<Event>)
    ensures |events| == 20 && |states| == 21 && IsRun(states, events)
    ensures events[11] == Reap(CacheName(repoHash, sha))
    ensures var path := CacheName(repoHash, sha);
            Alone(states[20], World(map[path := 0], 1, map[], map[], {}, map[], 0), NextEntry, Orphan, path, sha)
  {
    CacheNameIsReusable(repoHash, sha);
    hide CacheName;
    hide IsReusable;
    hide IsFallow;
    hide IsRun;
    var path := CacheName(repoHash, sha);
    states, events := RunToReaped(repoHash, sha);
    var w, pr := states[12].world, states[12].procs[0];
    states, events, w, pr := Own(states, events, StartSweep([path], None), w, pr);
    states, events, w, pr := Own(states, events, Visit, w, pr);
    states, events, w, pr := Own(states, events, Open(true), w, pr);
    states, events, w, pr := Own(states, events, Lock(true), w, pr);
    states, events := ForgetSteps(states, events, path, sha);
  }

  lemma ForgetSteps(before: seq<State>, old_: seq<Event>, path: string, sha: string) returns (states: seq<State>, events: seq<Event>)
    requires |old_| == 16 && |before| == 17 && IsRun(before, old_)
    requires Alone(before[16], World(map[path := 0], 1, map[0 := 0], map[], {path}, map[path := 0], 0), RecheckOrphan, Orphan, path, sha)
    ensures |events| == 20 && events[..16] == old_ && |states| == 21 && IsRun(states, events)
    ensures Alone(states[20], World(map[path := 0], 1, map[], map[], {}, map[], 0), NextEntry, Orphan, path, sha)
  {
    hide IsRun;
    var w, pr := before[16].world, before[16].procs[0];
    states, events, w, pr := Own(before, old_, Recheck, w, pr);
    states, events, w, pr := Own(states, events, GitRemove(true, false), w, pr);
    states, events, w, pr := Own(states, events, RemoveSidecar, w, pr);
    states, events, w, pr := Own(states, events, Unlock, w, pr);
  }

  /** A process that dies while it holds a lock blocks nobody: the next process takes
      the same lock. */
  lemma CrashFreesTheLock(repoHash: string, sha: string) returns (states: seq<State>, events: seq<Event>)
    ensures |events| == 9 && |states| == 10 && IsRun(states, events) && events[4] == Kill(0)
    ensures Holding(states[4].procs[0].pc) && states[4].procs[0].path == CacheName(repoHash, sha)
    ensures 0 !in states[9].procs && 1 in states[9].procs
    ensures states[9].procs[1].pc == CheckExists && states[9].procs[1].path == CacheName(repoHash, sha)
  {
    hide CacheName;
    hide IsRun;
    states, events := RunToBare(repoHash, sha);
    states, events := Step(states, events, Kill(0));
    states, events := Step(states, events, Spawn(1));
    states, events := Step(states, events, Act(1, StartReuse(repoHash, sha)));
    states, events := Step(states, events, Act(1, Open(true)));
    states, events := Step(states, events, Act(1, Lock(true)));
  }
}
