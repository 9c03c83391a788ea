/** The per-process fallback worktrees (crates/cli/src/base_worktree.rs): the
    cleanup guard, the drop of a worktree, and the sweep of dead processes'
    leftovers. Every command of a clean-up may fail; its outcome is a parameter. */
module TransientWorktrees {
  import opened Wrappers
  import opened WorktreeNames

  // ----- One process: the guard and the worktree take turns at cleaning up

  /** How one clean-up went: whether `git worktree remove --force` dropped the
      registration and the directory, and whether remove_dir_all did its part. */
  datatype Cleanup = Cleanup(unregisters: bool, gitDeletes: bool, deletes: bool)
  {
    /** The directory of a worktree, registered or not, is gone afterwards. */
    predicate Deletes(registered: bool) {
      (gitDeletes && registered) || deletes
    }
  }

  /** Git's registrations and the directories on disk. `cleanups` counts the
      clean-ups issued per worktree. */
  class Repository {
    var registered: set<string>
    var dirs: set<string>
    ghost var cleanups: multiset<string>

    constructor ()
      ensures registered == {} && dirs == {} && cleanups == multiset{}
    {
      registered, dirs, cleanups := {}, {}, multiset{};
    }

    /** git worktree remove --force, which does nothing to what git does not know. */
    method RemoveAuditWorktree(path: string, unregisters: bool, deletes: bool)
      modifies this
      ensures registered == if unregisters then old(registered) - {path} else old(registered)
      ensures dirs == if deletes && path in old(registered) then old(dirs) - {path} else old(dirs)
      ensures cleanups == old(cleanups) + multiset{path}
    {
      if deletes && path in registered {
        dirs := dirs - {path};
      }
      if unregisters {
        registered := registered - {path};
      }
      cleanups := cleanups + multiset{path};
    }

    method RemoveDirAll(path: string, deletes: bool)
      modifies this
      ensures dirs == if deletes then old(dirs) - {path} else old(dirs)
      ensures registered == old(registered) && cleanups == old(cleanups)
    {
      if deletes {
        dirs := dirs - {path};
      }
    }

    /** git worktree add: on failure it may leave a registration or a directory. */
    method Add(path: string, succeeds: bool, leftRegistered: bool, leftDir: bool)
      modifies this
      ensures registered == old(registered) + (if succeeds || leftRegistered then {path} else {})
      ensures dirs == old(dirs) + (if succeeds || leftDir then {path} else {})
      ensures cleanups == old(cleanups)
    {
      if succeeds || leftRegistered {
        registered := registered + {path};
      }
      if succeeds || leftDir {
        dirs := dirs + {path};
      }
    }
  }

  class WorktreeCleanupGuard {
    const repo: Repository
    const path: string
    var armed: bool

    constructor (repo: Repository, path: string)
      ensures this.repo == repo && this.path == path && armed
    {
      this.repo := repo;
      this.path := path;
      armed := true;
    }

    method Defuse()
      modifies this
      ensures !armed
    {
      armed := false;
    }

    method Drop(c: Cleanup)
      modifies repo
      ensures repo.registered == if armed && c.unregisters then old(repo.registered) - {path} else old(repo.registered)
      ensures repo.dirs == if armed && c.Deletes(path in old(repo.registered)) then old(repo.dirs) - {path} else old(repo.dirs)
      ensures repo.cleanups == if armed then old(repo.cleanups) + multiset{path} else old(repo.cleanups)
    {
      if armed {
        repo.RemoveAuditWorktree(path, c.unregisters, c.gitDeletes);
        repo.RemoveDirAll(path, c.deletes);
      }
    }
  }

  class BaseWorktree {
    const repo: Repository
    const path: string
    const persistent: bool

    constructor (repo: Repository, path: string, persistent: bool)
      ensures this.repo == repo && this.path == path && this.persistent == persistent
    {
      this.repo := repo;
      this.path := path;
      this.persistent := persistent;
    }

    method Drop(c: Cleanup)
      modifies repo
      ensures repo.registered == if !persistent && c.unregisters then old(repo.registered) - {path} else old(repo.registered)
      ensures repo.dirs
           == if !persistent && c.Deletes(path in old(repo.registered)) then old(repo.dirs) - {path} else old(repo.dirs)
      ensures repo.cleanups == if persistent then old(repo.cleanups) else old(repo.cleanups) + multiset{path}
    {
      if persistent {
        return;
      }
      repo.RemoveAuditWorktree(path, c.unregisters, c.gitDeletes);
      repo.RemoveDirAll(path, c.deletes);
    }
  }

  /** What can happen between arming the guard and binding the worktree. */
  datatype Outcome = PathNotUtf8 | SpawnFailed | AddFailed(leftRegistered: bool, leftDir: bool) | Added
  {
    predicate Registers() {
      Added? || (AddFailed? && leftRegistered)
    }

    predicate MakesDir() {
      Added? || (AddFailed? && leftDir)
    }
  }

  function Without(names: set<string>, name: string, gone: bool): set<string> {
    if gone then names - {name} else names
  }

  function With(names: set<string>, name: string, there: bool): set<string> {
    if there then names + {name} else names
  }

  /** The fallback of `create`; `c` is how the guard's clean-up goes if it runs. A
      call that returns nothing has issued exactly one clean-up and leaves behind
      exactly what that clean-up failed to take away. */
  method CreateTransient(repo: Repository, path: string, outcome: Outcome, c: Cleanup) returns (worktree: BaseWorktree?)
    modifies repo
    ensures worktree != null <==> outcome == Added
    ensures worktree != null ==>
              && fresh(worktree) && worktree.repo == repo && worktree.path == path && !worktree.persistent
              && repo.registered == old(repo.registered) + {path} && repo.dirs == old(repo.dirs) + {path}
              && repo.cleanups == old(repo.cleanups)
    ensures worktree == null ==>
              && repo.registered == Without(With(old(repo.registered), path, outcome.Registers()), path, c.unregisters)
              && repo.dirs == Without(With(old(repo.dirs), path, outcome.MakesDir()), path,
                                      c.Deletes(path in old(repo.registered) || outcome.Registers()))
              && repo.cleanups == old(repo.cleanups) + multiset{path}
  {
    var guard := new WorktreeCleanupGuard(repo, path);
    match outcome
    case PathNotUtf8 | SpawnFailed =>
      guard.Drop(c);
      return null;
    case AddFailed(leftRegistered, leftDir) =>
      repo.Add(guard.path, false, leftRegistered, leftDir);
      guard.Drop(c);
      return null;
    case Added =>
      repo.Add(guard.path, true, true, true);
      guard.Defuse();
      guard.Drop(c);
      worktree := new BaseWorktree(repo, path, false);
  }

  /** A worktree that is created and dropped is cleaned up exactly once, by the
      guard or by its own drop. It leaves no trace exactly when that clean-up took
      away what had been made. */
  method CreateAndDrop(repo: Repository, path: string, outcome: Outcome, c: Cleanup)
    requires path !in repo.registered && path !in repo.dirs
    modifies repo
    ensures repo.cleanups == old(repo.cleanups) + multiset{path}
    ensures repo.registered == old(repo.registered) + (if outcome.Registers() && !c.unregisters then {path} else {})
    ensures repo.dirs == old(repo.dirs) + (if outcome.MakesDir() && !c.Deletes(outcome.Registers()) then {path} else {})
    ensures repo.registered == old(repo.registered) && repo.dirs == old(repo.dirs)
       <==> (outcome.Registers() ==> c.unregisters) && (outcome.MakesDir() ==> c.Deletes(outcome.Registers()))
  {
    var worktree := CreateTransient(repo, path, outcome, c);
    if worktree != null {
      worktree.Drop(c);
    }
  }

  // ----- Many processes: the sweep of dead processes' leftovers

  /** `Cleaning` is between deciding on a clean-up and the end of its
      remove_dir_all; `todo` is what a sweep still has to visit, absent when the
      process cleans up after itself. */
  datatype Pc =
    | Idle
    | Sweeping(todo: seq<string>)
    | Using(path: string)
    | Cleaning(path: string, gitRan: bool, rest: Option<seq<string>>)

  datatype Process = Process(pid: nat, pc: Pc)

  /** A process is known by a number that is never reused, unlike its pid. `seen`
      holds every worktree name there ever was, `owner` who made it. */
  datatype State = State(procs: map<nat, Process>, nextProcess: nat, registered: set<string>, dirs: set<string>,
                         seen: set<string>, owner: map<string, nat>)

  /** `Prune` is `git worktree prune`, which any process may run. */
  datatype Event =
    | Spawn(pid: nat)
    | Kill(p: nat)
    | List(p: nat, names: seq<string>)
    | Check(p: nat)
    | EndSweep(p: nat)
    | Add(p: nat, nanos: nat, succeeds: bool, leftRegistered: bool, leftDir: bool)
    | Drop(p: nat)
    | GitRemove(p: nat, unregisters: bool, deletes: bool)
    | RemoveDirAll(p: nat, deletes: bool)
    | Prune

  /** Some live process has this pid. */
  predicate PidAlive(s: State, pid: nat) {
    exists p :: p in s.procs && s.procs[p].pid == pid
  }

  /** The sweep leaves this worktree alone. */
  predicate Spared(s: State, name: string) {
    || !IsFallow(name)
    || IsReusable(name)
    || (WorktreePid(name).Some? && PidAlive(s, WorktreePid(name).value))
  }

  ghost predicate Enabled(s: State, e: Event) {
    match e
    case Spawn(pid) => pid <= U32_MAX && !PidAlive(s, pid)
    case Kill(p) => p in s.procs
    case List(p, names) => p in s.procs && s.procs[p].pc == Idle
                           && forall n :: n in names <==> n in s.registered && IsFallow(n)
    case Check(p) => p in s.procs && s.procs[p].pc.Sweeping? && s.procs[p].pc.todo != []
    case EndSweep(p) => p in s.procs && s.procs[p].pc == Sweeping([])
    case Add(p, nanos, _, _, _) =>
      p in s.procs && s.procs[p].pc == Idle && TransientName(s.procs[p].pid, nanos) !in s.seen
    case Drop(p) => p in s.procs && s.procs[p].pc.Using?
    case GitRemove(p, unregisters, deletes) =>
      && p in s.procs && s.procs[p].pc.Cleaning? && !s.procs[p].pc.gitRan
      && (unregisters || deletes ==> s.procs[p].pc.path in s.registered)
    case RemoveDirAll(p, _) => p in s.procs && s.procs[p].pc.Cleaning? && s.procs[p].pc.gitRan
    case Prune => true
  }

  function Goto(s: State, p: nat, pc: Pc): map<nat, Process>
    requires p in s.procs
  {
    s.procs[p := s.procs[p].(pc := pc)]
  }

  ghost function Apply(s: State, e: Event): State
    requires Enabled(s, e)
  {
    match e
    case Spawn(pid) => s.(procs := s.procs[s.nextProcess := Process(pid, Idle)], nextProcess := s.nextProcess + 1)
    case Kill(p) => s.(procs := s.procs - {p})
    case List(p, names) => s.(procs := Goto(s, p, Sweeping(names)))
    case Check(p) =>
      var todo := s.procs[p].pc.todo;
      s.(procs := Goto(s, p, if Spared(s, todo[0]) then Sweeping(todo[1..]) else Cleaning(todo[0], false, Some(todo[1..]))))
    case EndSweep(p) => s.(procs := Goto(s, p, Idle))
    case Add(p, nanos, succeeds, leftRegistered, leftDir) =>
      var name := TransientName(s.procs[p].pid, nanos);
      s.(procs := Goto(s, p, if succeeds then Using(name) else Cleaning(name, false, None)),
         registered := With(s.registered, name, succeeds || leftRegistered),
         dirs := With(s.dirs, name, succeeds || leftDir),
         seen := s.seen + {name}, owner := s.owner[name := p])
    case Drop(p) => s.(procs := Goto(s, p, Cleaning(s.procs[p].pc.path, false, None)))
    case GitRemove(p, unregisters, deletes) =>
      var pc := s.procs[p].pc;
      s.(procs := Goto(s, p, pc.(gitRan := true)),
         registered := Without(s.registered, pc.path, unregisters), dirs := Without(s.dirs, pc.path, deletes))
    case RemoveDirAll(p, deletes) =>
      var pc := s.procs[p].pc;
      s.(procs := Goto(s, p, if pc.rest.Some? then Sweeping(pc.rest.value) else Idle),
         dirs := Without(s.dirs, pc.path, deletes))
    case Prune => s.(registered := s.registered * s.dirs)
  }

  /** The worktree a process is responsible for right now. */
  predicate Responsible(pr: Process, name: string) {
    pr.pc == Using(name) || (pr.pc.Cleaning? && pr.pc.path == name && pr.pc.rest.None?)
  }

  /** What the state says about who owns what. */
  ghost predicate OwnersOk(s: State) {
    && (forall p :: p in s.procs ==> p < s.nextProcess && s.procs[p].pid <= U32_MAX)
    && (forall p, q :: p in s.procs && q in s.procs && s.procs[p].pid == s.procs[q].pid ==> p == q)
    && s.registered <= s.seen && s.dirs <= s.seen && s.owner.Keys <= s.seen
    && (forall n :: n in s.owner ==> s.owner[n] < s.nextProcess && IsFallow(n) && !IsReusable(n))
    && (forall n :: n in s.owner && s.owner[n] in s.procs ==> WorktreePid(n) == Some(s.procs[s.owner[n]].pid))
  }

  ghost predicate AllSeen(s: State, names: seq<string>) {
    forall n :: n in names ==> n in s.seen
  }

  ghost predicate ProcessOk(s: State, p: nat)
    requires p in s.procs
  {
    match s.procs[p].pc
    case Idle => true
    case Sweeping(todo) => AllSeen(s, todo)
    case Using(path) => path in s.registered && path in s.dirs && path in s.owner && s.owner[path] == p
    case Cleaning(path, _, rest) =>
      if rest.None? then path in s.owner && s.owner[path] == p
      else
        && AllSeen(s, rest.value) && path in s.seen && IsFallow(path) && !IsReusable(path)
        && (path in s.owner ==> s.owner[path] !in s.procs)
  }

  ghost predicate Inv(s: State) {
    OwnersOk(s) && forall p :: p in s.procs ==> ProcessOk(s, p)
  }

  /** Any worktrees of earlier runs, registered or not, and no process yet. */
  ghost predicate Initial(s: State) {
    s.procs == map[] && s.owner == map[] && s.registered <= s.seen && s.dirs <= s.seen
  }

  lemma OwnersStayOk(s: State, e: Event)
    requires Inv(s) && Enabled(s, e)
    ensures OwnersOk(Apply(s, e))
  {
    hide IsFallow;
    hide IsReusable;
    hide WorktreePid;
    hide TransientName;
    hide ProcessOk;
    if e.Add? {
      AddKeepsOwners(s, e);
    }
  }

  lemma AddKeepsOwners(s: State, e: Event)
    requires Inv(s) && Enabled(s, e) && e.Add?
    ensures OwnersOk(Apply(s, e))
  {
    assert s.procs[e.p].pid <= U32_MAX;
    TransientNameHasPid(s.procs[e.p].pid, e.nanos);
    hide IsFallow;
    hide IsReusable;
    hide WorktreePid;
    hide TransientName;
    hide ProcessOk;
  }

  lemma ProcessesStayOk(s: State, e: Event, p: nat)
    requires Inv(s) && Enabled(s, e) && p in Apply(s, e).procs
    ensures ProcessOk(Apply(s, e), p)
  {
    hide IsFallow;
    hide IsReusable;
    hide WorktreePid;
    hide TransientName;
    if p in s.procs {
      assert ProcessOk(s, p);
    }
    if e.Check? && e.p == p {
      var victim := s.procs[p].pc.todo[0];
      if victim in s.owner && s.owner[victim] in s.procs {
        assert WorktreePid(victim) == Some(s.procs[s.owner[victim]].pid);
      }
    }
    if e.GitRemove? || e.RemoveDirAll? {
      assert ProcessOk(s, e.p);
    }
  }

  lemma EveryEventKeepsInv(s: State, e: Event)
    requires Inv(s) && Enabled(s, e)
    ensures Inv(Apply(s, e))
  {
    hide Apply;
    hide ProcessOk;
    OwnersStayOk(s, e);
    forall p | p in Apply(s, e).procs
      ensures ProcessOk(Apply(s, e), p)
    {
      ProcessesStayOk(s, e, p);
    }
  }

  ghost predicate IsRun(states: seq<State>, events: seq<Event>) {
    && |states| == |events| + 1
    && Initial(states[0])
    && forall i :: 0 <= i < |events| ==> Enabled(states[i], events[i]) && states[i + 1] == Apply(states[i], events[i])
  }

  lemma {:induction false} RunKeepsInv(states: seq<State>, events: seq<Event>, i: nat)
    requires IsRun(states, events) && i < |states|
    ensures Inv(states[i])
    decreases i
  {
    if i > 0 {
      RunKeepsInv(states, events, i - 1);
      EveryEventKeepsInv(states[i - 1], events[i - 1]);
    }
  }

  ghost predicate Loses(s: State, t: State, name: string) {
    (name in s.registered && name !in t.registered) || (name in s.dirs && name !in t.dirs)
  }

  /** A worktree is removed only by the process that made it, or once that process
      is dead, even if its pid has been given to another; besides, `git worktree
      prune` forgets a registration whose directory is gone already. */
  lemma RemovedByOwnerOrAfterItsDeath(states: seq<State>, events: seq<Event>, i: nat, name: string)
    requires IsRun(states, events) && i < |events|
    requires Loses(states[i], states[i + 1], name) && name in states[i].owner
    ensures || states[i].owner[name] !in states[i].procs
            || (events[i].GitRemove? && events[i].p == states[i].owner[name] && Responsible(states[i].procs[events[i].p], name))
            || (events[i].RemoveDirAll? && events[i].p == states[i].owner[name]
                && Responsible(states[i].procs[events[i].p], name))
            || (events[i].Prune? && name !in states[i].dirs)
  {
    RunKeepsInv(states, events, i);
    if !events[i].Prune? {
      assert events[i].GitRemove? || events[i].RemoveDirAll?;
      assert ProcessOk(states[i], events[i].p);
    }
  }

  /** A worktree in use is registered and there. */
  lemma WorktreeInUseExists(states: seq<State>, events: seq<Event>, i: nat, p: nat)
    requires IsRun(states, events) && i < |states|
    requires p in states[i].procs && states[i].procs[p].pc.Using?
    ensures states[i].procs[p].pc.path in states[i].registered && states[i].procs[p].pc.path in states[i].dirs
  {
    RunKeepsInv(states, events, i);
    assert ProcessOk(states[i], p);
  }

  // ----- What a clean-up leaves

  /** At step k process `p` runs the git command of its clean-up of `name`. */
  ghost predicate GitRan(states: seq<State>, events: seq<Event>, k: int, p: nat, name: string) {
    && 0 <= k < |events| && k < |states| && events[k].GitRemove? && events[k].p == p
    && p in states[k].procs && states[k].procs[p].pc.Cleaning? && states[k].procs[p].pc.path == name
  }

  /** At step k process `p` ends its clean-up of `name` with remove_dir_all. */
  ghost predicate DirRan(states: seq<State>, events: seq<Event>, k: int, p: nat, name: string) {
    && 0 <= k < |events| && k < |states| && events[k].RemoveDirAll? && events[k].p == p
    && p in states[k].procs && states[k].procs[p].pc.Cleaning? && states[k].procs[p].pc.path == name
  }

  /** Steps k and l are a whole clean-up of `name` by `p`. */
  ghost predicate Cleaned(states: seq<State>, events: seq<Event>, k: int, l: int, p: nat, name: string) {
    GitRan(states, events, k, p, name) && DirRan(states, events, l, p, name) && k < l
  }

  /** Whatever is there at step i is what that clean-up failed to take away. */
  ghost predicate LeftByCleanup(states: seq<State>, events: seq<Event>, k: int, l: int, i: nat, name: string)
    requires 0 <= k < |events| && events[k].GitRemove? && 0 <= l < |events| && events[l].RemoveDirAll? && i < |states|
  {
    && (name in states[i].registered ==> !events[k].unregisters)
    && (name in states[i].dirs ==> !events[k].deletes && !events[l].deletes)
  }

  lemma NameStaysGone(s: State, e: Event, name: string)
    requires Inv(s) && Enabled(s, e) && name in s.seen
    ensures name in Apply(s, e).seen
    ensures name in Apply(s, e).registered ==> name in s.registered
    ensures name in Apply(s, e).dirs ==> name in s.dirs
  {
    hide TransientName;
    hide ProcessOk;
  }

  /** A name that has been seen is never made again. */
  lemma {:induction false} NeverMadeAgain(states: seq<State>, events: seq<Event>, i: nat, j: nat, name: string)
    requires IsRun(states, events) && i <= j < |states| && name in states[i].seen
    ensures name in states[j].seen
    ensures name in states[j].registered ==> name in states[i].registered
    ensures name in states[j].dirs ==> name in states[i].dirs
    decreases j
  {
    if i < j {
      NeverMadeAgain(states, events, i, j - 1, name);
      RunKeepsInv(states, events, j - 1);
      hide Apply;
      hide Enabled;
      assert states[j - 1 + 1] == Apply(states[j - 1], events[j - 1]);
      NameStaysGone(states[j - 1], events[j - 1], name);
    }
  }

  lemma CleanupLeaves(states: seq<State>, events: seq<Event>, k: nat, l: nat, i: nat, p: nat, name: string)
    requires IsRun(states, events) && Cleaned(states, events, k, l, p, name) && l < i < |states|
    ensures LeftByCleanup(states, events, k, l, i, name)
  {
    hide Initial;
    RunKeepsInv(states, events, k);
    RunKeepsInv(states, events, l);
    assert ProcessOk(states[k], p) && ProcessOk(states[l], p);
    NameStaysGone(states[k], events[k], name);
    NameStaysGone(states[l], events[l], name);
    NeverMadeAgain(states, events, k + 1, i, name);
    NeverMadeAgain(states, events, l + 1, i, name);
  }

  /** Where a process stands with a worktree it has made: still responsible for
      it, or its clean-up has run before step i. */
  ghost predicate OwnProgress(states: seq<State>, events: seq<Event>, i: nat, p: nat, name: string)
    requires i < |states| && p in states[i].procs
  {
    || (exists k, l :: l < i && Cleaned(states, events, k, l, p, name))
    || (&& Responsible(states[i].procs[p], name)
        && (states[i].procs[p].pc.Cleaning? && states[i].procs[p].pc.gitRan ==>
              exists k :: k < i && GitRan(states, events, k, p, name)))
  }

  lemma OwnStep(states: seq<State>, events: seq<Event>, i: nat, p: nat, name: string)
    requires IsRun(states, events) && i + 1 < |states| && Inv(states[i])
    requires p in states[i].procs && p in states[i + 1].procs && name in states[i].owner && states[i].owner[name] == p
    requires OwnProgress(states, events, i, p, name)
    ensures OwnProgress(states, events, i + 1, p, name)
  {
    hide TransientName;
    hide ProcessOk;
    var e := events[i];
    if k, l :| l < i && Cleaned(states, events, k, l, p, name) {
      assert l < i + 1;
    } else if e.RemoveDirAll? && e.p == p {
      var k :| k < i && GitRan(states, events, k, p, name);
      assert DirRan(states, events, i, p, name);
      assert Cleaned(states, events, k, i, p, name);
    } else if e.GitRemove? && e.p == p {
      assert GitRan(states, events, i, p, name);
    } else if states[i].procs[p].pc.Cleaning? && states[i].procs[p].pc.gitRan {
      var k :| k < i && GitRan(states, events, k, p, name);
      assert k < i + 1;
    }
  }

  lemma {:induction false} OwnerProgresses(states: seq<State>, events: seq<Event>, i: nat, p: nat, name: string)
    requires IsRun(states, events) && i < |states| && p in states[i].procs
    requires name in states[i].owner && states[i].owner[name] == p
    ensures OwnProgress(states, events, i, p, name)
    decreases i
  {
    RunKeepsInv(states, events, i - 1);
    var s, e := states[i - 1], events[i - 1];
    assert states[i - 1 + 1] == Apply(s, e);
    OwnerWasThere(s, e, p, name);
    if name in s.owner {
      OwnerProgresses(states, events, i - 1, p, name);
      OwnStep(states, events, i - 1, p, name);
    }
  }

  lemma OwnerWasThere(s: State, e: Event, p: nat, name: string)
    requires Inv(s) && Enabled(s, e) && p in Apply(s, e).procs
    requires name in Apply(s, e).owner && Apply(s, e).owner[name] == p
    ensures name in s.owner ==> s.owner[name] == p && p in s.procs
    ensures name !in s.owner ==>
              Responsible(Apply(s, e).procs[p], name)
              && (Apply(s, e).procs[p].pc.Cleaning? ==> !Apply(s, e).procs[p].pc.gitRan)
  {
    hide TransientName;
    hide ProcessOk;
  }

  /** What a live process has left of a worktree it is done with is what its own
      clean-up failed to take away; with a clean-up that succeeds it leaves none. */
  lemma LeftoverMeansFailedCleanup(states: seq<State>, events: seq<Event>, i: nat, p: nat, name: string)
    requires IsRun(states, events) && i < |states|
    requires p in states[i].procs && !Responsible(states[i].procs[p], name)
    requires name in states[i].owner && states[i].owner[name] == p
    ensures exists k, l :: l < i && Cleaned(states, events, k, l, p, name) && LeftByCleanup(states, events, k, l, i, name)
  {
    OwnerProgresses(states, events, i, p, name);
    var k, l :| l < i && Cleaned(states, events, k, l, p, name);
    CleanupLeaves(states, events, k, l, i, p, name);
  }

  // ----- The sweeps that see the process dead

  /** Process `p` is inside one sweep in all of states[i..j]. */
  ghost predicate SweepsThroughout(states: seq<State>, i: nat, j: nat, p: nat)
    requires j < |states|
  {
    forall m :: i <= m <= j ==> p in states[m].procs && InSweep(states[m].procs[p].pc)
  }

  predicate InSweep(pc: Pc) {
    pc.Sweeping? || (pc.Cleaning? && pc.rest.Some?)
  }

  /** How far the sweep that began at step i has come with `name` at step j. */
  ghost predicate SweepProgress(states: seq<State>, events: seq<Event>, i: nat, j: nat, p: nat, name: string)
    requires j < |states| && p in states[j].procs && InSweep(states[j].procs[p].pc)
  {
    || (exists k, l :: i <= k && l < j && Cleaned(states, events, k, l, p, name))
    || (match states[j].procs[p].pc
        case Sweeping(todo) => name in todo
        case Cleaning(path, gitRan, rest) =>
          || name in rest.value
          || (name == path && (gitRan ==> exists k :: i <= k < j && GitRan(states, events, k, p, name))))
  }

  /** At step m the sweep of `p` decides about `name`. */
  ghost predicate ChecksName(states: seq<State>, events: seq<Event>, m: int, p: nat, name: string) {
    && 0 <= m < |events| && m < |states| && events[m].Check? && events[m].p == p
    && p in states[m].procs && states[m].procs[p].pc.Sweeping?
    && states[m].procs[p].pc.todo != [] && states[m].procs[p].pc.todo[0] == name
  }

  lemma SweepStep(states: seq<State>, events: seq<Event>, i: nat, j: nat, p: nat, name: string, pid: nat)
    requires IsRun(states, events) && i <= j && j + 1 < |states|
    requires p in states[j].procs && p in states[j + 1].procs
    requires InSweep(states[j].procs[p].pc) && InSweep(states[j + 1].procs[p].pc)
    requires IsFallow(name) && !IsReusable(name) && WorktreePid(name) == Some(pid)
    requires ChecksName(states, events, j, p, name) ==> !PidAlive(states[j], pid)
    requires SweepProgress(states, events, i, j, p, name)
    ensures SweepProgress(states, events, i, j + 1, p, name)
  {
    hide IsFallow;
    hide IsReusable;
    hide WorktreePid;
    hide TransientName;
    var s, e, pc := states[j], events[j], states[j].procs[p].pc;
    if k, l :| i <= k && l < j && Cleaned(states, events, k, l, p, name) {
      assert l < j + 1;
    } else if e.Check? && e.p == p {
      assert pc.todo == [pc.todo[0]] + pc.todo[1..];
      assert name == pc.todo[0] ==> ChecksName(states, events, j, p, name) && !Spared(s, name);
    } else if e.GitRemove? && e.p == p {
      assert name == pc.path ==> GitRan(states, events, j, p, name);
    } else if e.RemoveDirAll? && e.p == p {
      if name !in pc.rest.value {
        var k :| i <= k < j && GitRan(states, events, k, p, name);
        assert DirRan(states, events, j, p, name);
        assert Cleaned(states, events, k, j, p, name);
      }
    } else if pc.Cleaning? && name == pc.path && pc.gitRan && name !in pc.rest.value {
      var k :| i <= k < j && GitRan(states, events, k, p, name);
      assert k < j + 1;
    }
  }

  lemma ListBegins(s: State, e: Event, p: nat, name: string)
    requires Enabled(s, e) && e.List? && e.p == p && name in s.registered && IsFallow(name)
    ensures p in Apply(s, e).procs && Apply(s, e).procs[p].pc == Sweeping(e.names) && name in e.names
  {
    hide IsFallow;
  }

  lemma {:induction false} SweepProgresses(states: seq<State>, events: seq<Event>, i: nat, j: nat, p: nat,
                                           name: string, pid: nat)
    requires IsRun(states, events) && 0 < i <= j < |states|
    requires events[i - 1].List? && events[i - 1].p == p && SweepsThroughout(states, i, j, p)
    requires IsFallow(name) && !IsReusable(name) && WorktreePid(name) == Some(pid) && name in states[i - 1].registered
    requires forall m :: i <= m < j && ChecksName(states, events, m, p, name) ==> !PidAlive(states[m], pid)
    ensures SweepProgress(states, events, i, j, p, name)
    decreases j
  {
    hide IsFallow;
    hide IsReusable;
    hide WorktreePid;
    hide PidAlive;
    hide Apply;
    hide Enabled;
    assert p in states[j].procs && InSweep(states[j].procs[p].pc);
    assert states[i - 1 + 1] == Apply(states[i - 1], events[i - 1]);
    if i < j {
      SweepProgresses(states, events, i, j - 1, p, name, pid);
      hide SweepProgress;
      assert p in states[j - 1].procs;
      SweepStep(states, events, i, j - 1, p, name, pid);
    } else {
      ListBegins(states[i - 1], events[i - 1], p, name);
    }
  }

  /** A sweep that lists while a dead process's worktree is registered, finds that pid
      dead when it checks the name, and runs to its end, has issued a whole clean-up
      of it; what is still there is what that clean-up failed to take away. As long as
      the registration is still there, this holds of every later sweep in turn. */
  lemma SweepCleansLeftovers(states: seq<State>, events: seq<Event>, i: nat, j: nat, p: nat, name: string, pid: nat)
    requires IsRun(states, events) && 0 < i <= j < |states|
    requires events[i - 1].List? && events[i - 1].p == p && SweepsThroughout(states, i, j, p)
    requires IsFallow(name) && !IsReusable(name) && WorktreePid(name) == Some(pid) && name in states[i - 1].registered
    requires forall m :: i <= m < j && ChecksName(states, events, m, p, name) ==>
               forall q :: q in states[m].procs ==> states[m].procs[q].pid != pid
    requires states[j].procs[p].pc == Sweeping([])
    ensures exists k, l :: i <= k && l < j && Cleaned(states, events, k, l, p, name)
                           && LeftByCleanup(states, events, k, l, j, name)
  {
    SweepProgresses(states, events, i, j, p, name, pid);
    var k, l :| i <= k && l < j && Cleaned(states, events, k, l, p, name);
    CleanupLeaves(states, events, k, l, j, p, name);
  }

  // ----- A directory that git has forgotten

  /** The process may still touch this worktree. */
  predicate Knows(pc: Pc, name: string) {
    match pc
    case Idle => false
    case Sweeping(todo) => name in todo
    case Using(path) => path == name
    case Cleaning(path, _, rest) => path == name || (rest.Some? && name in rest.value)
  }

  ghost predicate Forgotten(s: State, name: string) {
    name in s.dirs && name !in s.registered && forall p :: p in s.procs ==> !Knows(s.procs[p].pc, name)
  }

  lemma ForgottenStays(s: State, e: Event, name: string)
    requires Inv(s) && Enabled(s, e) && Forgotten(s, name)
    ensures Forgotten(Apply(s, e), name)
  {
    hide TransientName;
    hide ProcessOk;
    var t := Apply(s, e);
    forall p | p in t.procs
      ensures !Knows(t.procs[p].pc, name)
    {
      if p in s.procs {
        assert !Knows(s.procs[p].pc, name);
      }
      if e.Check? && e.p == p {
        var todo := s.procs[p].pc.todo;
        assert todo == [todo[0]] + todo[1..];
      }
    }
  }

  /** The sweep goes by registrations: a directory whose registration went while
      the directory stayed is never cleaned up again, whoever sweeps. */
  lemma {:induction false} ForgottenDirectoryStays(states: seq<State>, events: seq<Event>, i: nat, j: nat, name: string)
    requires IsRun(states, events) && i <= j < |states| && Forgotten(states[i], name)
    ensures Forgotten(states[j], name)
    decreases j
  {
    if i < j {
      ForgottenDirectoryStays(states, events, i, j - 1, name);
      RunKeepsInv(states, events, j - 1);
      hide Apply;
      hide Enabled;
      assert states[j - 1 + 1] == Apply(states[j - 1], events[j - 1]);
      ForgottenStays(states[j - 1], events[j - 1], name);
    }
  }

  // ----- A run that forgets a directory

  lemma OneMoreStep(states: seq<State>, events: seq<Event>, e: Event) returns (more: seq<State>)
    requires IsRun(states, events) && Enabled(states[|events|], e)
    ensures more == states + [Apply(states[|events|], e)] && IsRun(more, events + [e])
  {
    hide Enabled;
    hide Apply;
    more := states + [Apply(states[|events|], e)];
  }

  const NOTHING: State := State(map[], 0, {}, {}, {}, map[])

  lemma FirstState()
    ensures IsRun([NOTHING], [])
  {
  }

  /** A process makes a worktree and is done with it. */
  lemma RunToDrop(pid: nat, nanos: nat) returns (states: seq<State>, events: seq<Event>)
    requires pid <= U32_MAX
    ensures |events| == 3 && |states| == 4 && IsRun(states, events)
    ensures var s, name := states[3], TransientName(pid, nanos);
            s == State(map[0 := Process(pid, Cleaning(name, false, None))], 1, {name}, {name}, {name}, map[name := 0])
  {
    hide TransientName;
    hide IsRun;
    var name := TransientName(pid, nanos);
    events := [];
    states := [NOTHING];
    FirstState();
    states := OneMoreStep(states, events, Spawn(pid));
    events := events + [Spawn(pid)];
    assert states[1] == State(map[0 := Process(pid, Idle)], 1, {}, {}, {}, map[]);
    states := OneMoreStep(states, events, Add(0, nanos, true, true, true));
    events := events + [Add(0, nanos, true, true, true)];
    assert states[2] == State(map[0 := Process(pid, Using(name))], 1, {name}, {name}, {name}, map[name := 0]);
    states := OneMoreStep(states, events, Drop(0));
    events := events + [Drop(0)];
  }

  /** For every pid and every time there is a run in which the git command of the
      clean-up takes the registration and remove_dir_all fails: the directory is
      forgotten. */
  lemma CleanupCanForget(pid: nat, nanos: nat) returns (states: seq<State>, events: seq<Event>)
    requires pid <= U32_MAX
    ensures |events| == 5 && |states| == 6 && IsRun(states, events) && Forgotten(states[5], TransientName(pid, nanos))
  {
    hide TransientName;
    hide IsRun;
    states, events := RunToDrop(pid, nanos);
    states := OneMoreStep(states, events, GitRemove(0, true, false));
    events := events + [GitRemove(0, true, false)];
    states := OneMoreStep(states, events, RemoveDirAll(0, false));
    events := events + [RemoveDirAll(0, false)];
  }
}
