/** The reusable base-snapshot worktrees (crates/cli/src/base_worktree.rs).

    Any number of processes reuse, rebuild and sweep cached worktrees. They agree
    through a kernel lock on a `.lock` file next to each cache directory. An
    outside reaper may delete cache directories at any moment, and any process may
    be killed at any moment. One action is one system call or one git command;
    whatever such a command may leave behind is a parameter of the action. */
module ReusableWorktrees {
  import opened Wrappers
  import opened WorktreeNames

  /** What a process wants the lock for. */
  datatype Purpose = Reuse | Orphan | Aged

  datatype Pc =
    | Idle
    | OpenLock | TryLock
    // reuse_or_create, holding the lock
    | CheckExists | CheckRegistered | CheckHead
    | RemoveStale | RemoveStaleDir | AddWorktree | RollBack | RollBackDir | Touch
    // the sweep, without the lock
    | NextEntry | ReadSidecar
    // the sweep, holding the lock
    | RecheckOrphan | UnregisterOrphan | DropSidecar(gone: bool) | RemoveAged | RemoveAgedDir
    // the result is known and the lock is about to be dropped
    | Release(ok: bool)
    // reuse_or_create has returned Some (ok) or None
    | Returned(ok: bool)

  /** `reaped` records that the reaper took the directory after the process last
      saw it in place. */
  datatype Process = Process(pc: Pc, purpose: Purpose, path: string, sha: string, inode: nat, todo: seq<string>,
                             maxAge: Option<nat>, sweepNow: nat, mtime: nat, reaped: bool)

  /** What the processes share. `dirs` maps an existing cache directory to the
      commit checked out in it. */
  datatype World = World(lockFiles: map<string, nat>, nextInode: nat, holders: map<nat, nat>,
                         dirs: map<string, string>, registered: set<string>, sidecars: map<string, nat>, clock: nat)

  datatype State = State(world: World, procs: map<nat, Process>)

  predicate Holding(pc: Pc) {
    match pc
    case Idle | OpenLock | TryLock | NextEntry | ReadSidecar | Returned(_) => false
    case _ => true
  }

  predicate HasLockFile(pc: Pc) {
    pc == TryLock || Holding(pc)
  }

  datatype Action =
    // ReusableWorktreeLock
    | Open(opens: bool) | Lock(locks: bool) | Unlock
    // reuse_or_create
    | StartReuse(repoHash: string, sha: string)
    | SeeExists | SeeRegistered(listed: bool) | SeeHead(read: bool)
    | TouchSidecar(written: bool)
    | Resume
    // git worktree remove, remove_dir_all, git worktree add
    | GitRemove(unregisters: bool, deletes: bool)
    | RemoveDirAll(deletes: bool)
    | GitAdd(succeeds: bool, leftover: Option<string>, leftRegistered: bool)
    // sweep_old_reusable_caches
    | StartSweep(paths: seq<string>, age: Option<nat>)
    | Visit | SeeSidecar(seeded: bool) | Recheck | RemoveSidecar | EndSweep

  datatype Event =
    | Act(p: nat, action: Action)
    // the outside world
    | Spawn(p: nat) | Kill(p: nat) | Reap(path: string) | Tick | Prune

  /** `git worktree list`, cut down to the program's own worktrees. */
  predicate Lists(paths: seq<string>, registered: set<string>) {
    (forall path | path in paths :: path in registered && IsFallow(path))
    && forall path | path in registered :: IsFallow(path) ==> path in paths
  }

  predicate CanAct(w: World, pr: Process, a: Action) {
    match a
    case Open(_) => pr.pc == OpenLock
    case Lock(locks) => pr.pc == TryLock && (locks ==> pr.inode !in w.holders)
    case Unlock => pr.pc.Release?
    case StartReuse(_, _) => pr.pc == Idle
    case SeeExists => pr.pc == CheckExists
    case SeeRegistered(listed) => pr.pc == CheckRegistered && (listed ==> pr.path in w.registered)
    case SeeHead(read) => pr.pc == CheckHead && (read ==> pr.path in w.dirs)
    case TouchSidecar(_) => pr.pc == Touch
    case Resume => pr.pc.Returned?
    case GitRemove(unregisters, deletes) =>
      && (pr.pc == RemoveStale || pr.pc == RollBack || pr.pc == UnregisterOrphan || pr.pc == RemoveAged)
      && (unregisters || deletes ==> pr.path in w.registered)
    case RemoveDirAll(_) => pr.pc == RemoveStaleDir || pr.pc == RollBackDir || pr.pc == RemoveAgedDir
    case GitAdd(_, _, _) => pr.pc == AddWorktree
    case StartSweep(paths, _) => pr.pc == Idle && Lists(paths, w.registered)
    case Visit => pr.pc == NextEntry && pr.todo != []
    case SeeSidecar(_) => pr.pc == ReadSidecar
    case Recheck => pr.pc == RecheckOrphan
    case RemoveSidecar => pr.pc.DropSidecar?
    case EndSweep => pr.pc == NextEntry && pr.todo == []
  }

  /** try_acquire gave None: reuse_or_create returns None, a sweep moves on. */
  function GiveUp(pr: Process): Process {
    pr.(pc := if pr.purpose == Reuse then Returned(false) else NextEntry)
  }

  function DropDir(w: World, path: string, deletes: bool): World {
    if deletes then w.(dirs := w.dirs - {path}) else w
  }

  /** The lock: open the file, creating it if need be; try_lock; drop. */
  function LockAction(w: World, me: nat, pr: Process, a: Action): (World, Process)
    requires CanAct(w, pr, a) && (a.Open? || a.Lock? || a.Unlock?)
  {
    match a
    case Open(opens) =>
      if !opens then (w, GiveUp(pr))
      else if pr.path in w.lockFiles then (w, pr.(pc := TryLock, inode := w.lockFiles[pr.path]))
      else (w.(lockFiles := w.lockFiles[pr.path := w.nextInode], nextInode := w.nextInode + 1),
            pr.(pc := TryLock, inode := w.nextInode))
    case Lock(locks) =>
      if !locks then (w, GiveUp(pr))
      else (w.(holders := w.holders[pr.inode := me]),
            pr.(pc := match pr.purpose case Reuse => CheckExists case Orphan => RecheckOrphan case Aged => RemoveAged))
    case Unlock =>
      (w.(holders := w.holders - {pr.inode}),
       pr.(pc := if pr.purpose == Reuse then Returned(pr.pc.ok) else NextEntry))
  }

  function ReuseAction(w: World, pr: Process, a: Action): (World, Process)
    requires CanAct(w, pr, a)
    requires a.StartReuse? || a.SeeExists? || a.SeeRegistered? || a.SeeHead? || a.TouchSidecar? || a.Resume?
  {
    match a
    case StartReuse(repoHash, sha) =>
      (w, pr.(pc := OpenLock, purpose := Reuse, path := CacheName(repoHash, sha), sha := sha))
    case SeeExists => (w, pr.(pc := if pr.path in w.dirs then CheckRegistered else RemoveStale))
    case SeeRegistered(listed) => (w, pr.(pc := if listed then CheckHead else RemoveStale))
    case SeeHead(read) =>
      (w, if read && w.dirs[pr.path] == pr.sha then pr.(pc := Touch, reaped := false) else pr.(pc := RemoveStale))
    case TouchSidecar(written) =>
      (if written then w.(sidecars := w.sidecars[pr.path := w.clock]) else w, pr.(pc := Release(true)))
    case Resume => (w, pr.(pc := Idle))
  }

  function DirectoryAction(w: World, pr: Process, a: Action): (World, Process)
    requires CanAct(w, pr, a) && (a.GitRemove? || a.RemoveDirAll? || a.GitAdd?)
  {
    match a
    case GitRemove(unregisters, deletes) =>
      (DropDir(w.(registered := if unregisters then w.registered - {pr.path} else w.registered), pr.path, deletes),
       pr.(pc := match pr.pc
                 case RemoveStale => RemoveStaleDir
                 case RollBack => RollBackDir
                 case UnregisterOrphan => DropSidecar(true)
                 case _ => RemoveAgedDir))
    case RemoveDirAll(deletes) =>
      (DropDir(w, pr.path, deletes),
       pr.(pc := match pr.pc
                 case RemoveStaleDir => AddWorktree
                 case RollBackDir => Release(false)
                 case _ => DropSidecar(deletes || pr.path !in w.dirs)))
    case GitAdd(succeeds, leftover, leftRegistered) =>
      if succeeds then
        (w.(dirs := w.dirs[pr.path := pr.sha], registered := w.registered + {pr.path}), pr.(pc := Touch, reaped := false))
      else
        (w.(dirs := if leftover.Some? && pr.path !in w.dirs then w.dirs[pr.path := leftover.value] else w.dirs,
            registered := if leftRegistered then w.registered + {pr.path} else w.registered), pr.(pc := RollBack))
  }

  function SweepAction(w: World, pr: Process, a: Action): (World, Process)
    requires CanAct(w, pr, a)
    requires a.StartSweep? || a.Visit? || a.SeeSidecar? || a.Recheck? || a.RemoveSidecar? || a.EndSweep?
  {
    match a
    case StartSweep(paths, age) => (w, pr.(pc := NextEntry, todo := paths, maxAge := age, sweepNow := w.clock))
    case Visit =>
      var next := pr.(path := pr.todo[0], todo := pr.todo[1..]);
      (w, if !IsReusable(next.path) then next
          else if next.path !in w.dirs then next.(pc := OpenLock, purpose := Orphan)
          else if pr.maxAge.None? then next
          else next.(pc := ReadSidecar, purpose := Aged))
    case SeeSidecar(seeded) =>
      if pr.path !in w.sidecars then
        (if seeded then w.(sidecars := w.sidecars[pr.path := w.clock]) else w, pr.(pc := NextEntry))
      else
        var mtime := w.sidecars[pr.path];
        (w, if pr.maxAge.Some? && mtime + pr.maxAge.value <= pr.sweepNow then pr.(pc := OpenLock, mtime := mtime)
            else pr.(pc := NextEntry))
    case Recheck => (w, pr.(pc := if pr.path in w.dirs then Release(false) else UnregisterOrphan))
    case RemoveSidecar => (w.(sidecars := w.sidecars - {pr.path}), pr.(pc := Release(pr.pc.gone)))
    case EndSweep => (w, pr.(pc := Idle))
  }

  function Effect(w: World, me: nat, pr: Process, a: Action): (World, Process)
    requires CanAct(w, pr, a)
  {
    if a.Open? || a.Lock? || a.Unlock? then LockAction(w, me, pr, a)
    else if a.GitRemove? || a.RemoveDirAll? || a.GitAdd? then DirectoryAction(w, pr, a)
    else if a.StartSweep? || a.Visit? || a.SeeSidecar? || a.Recheck? || a.RemoveSidecar? || a.EndSweep?
    then SweepAction(w, pr, a)
    else ReuseAction(w, pr, a)
  }

  predicate Enabled(s: State, e: Event) {
    match e
    case Act(p, a) => p in s.procs && CanAct(s.world, s.procs[p], a)
    case Spawn(p) => p !in s.procs
    case Kill(p) => p in s.procs
    case Reap(_) | Tick | Prune => true
  }

  function NewProcess(): Process {
    Process(Idle, Reuse, "", "", 0, [], None, 0, 0, false)
  }

  function AfterReap(procs: map<nat, Process>, path: string): map<nat, Process> {
    map p | p in procs :: if procs[p].path == path then procs[p].(reaped := true) else procs[p]
  }

  /** The kernel drops the locks of a process that dies. */
  function AfterKill(holders: map<nat, nat>, p: nat): map<nat, nat> {
    map i | i in holders && holders[i] != p :: holders[i]
  }

  /** `git worktree prune`, which any process may run, forgets the registrations
      whose directory is gone. */
  function Apply(s: State, e: Event): State
    requires Enabled(s, e)
  {
    match e
    case Act(p, a) =>
      var (w, pr) := Effect(s.world, p, s.procs[p], a);
      State(w, s.procs[p := pr])
    case Spawn(p) => s.(procs := s.procs[p := NewProcess()])
    case Kill(p) => State(s.world.(holders := AfterKill(s.world.holders, p)), s.procs - {p})
    case Reap(path) => State(s.world.(dirs := s.world.dirs - {path}), AfterReap(s.procs, path))
    case Tick => s.(world := s.world.(clock := s.world.clock + 1))
    case Prune => s.(world := s.world.(registered := s.world.registered * s.world.dirs.Keys))
  }

  // ----- The invariant

  /** Distinct lock files are distinct inodes, already handed out. */
  ghost predicate InodesOk(w: World) {
    && (forall path :: path in w.lockFiles ==> w.lockFiles[path] < w.nextInode)
    && (forall path, other :: path in w.lockFiles && other in w.lockFiles && w.lockFiles[path] == w.lockFiles[other]
                              ==> path == other)
  }

  /** Every kernel lock belongs to a live process inside its critical section. */
  ghost predicate HoldersOk(s: State) {
    forall i :: i in s.world.holders ==>
      s.world.holders[i] in s.procs && Holding(s.procs[s.world.holders[i]].pc) && s.procs[s.world.holders[i]].inode == i
  }

  /** The lock a process opened is the one at its path, and it holds it throughout
      its critical section. */
  predicate LockOk(w: World, me: nat, pr: Process) {
    && (HasLockFile(pr.pc) ==> pr.path in w.lockFiles && w.lockFiles[pr.path] == pr.inode)
    && (Holding(pr.pc) ==> pr.inode in w.holders && w.holders[pr.inode] == me)
  }

  predicate CheckedOut(w: World, pr: Process) {
    && (pr.path in w.dirs ==> w.dirs[pr.path] == pr.sha)
    && (!pr.reaped ==> pr.path in w.dirs)
  }

  ghost predicate AtCachePath(pr: Process) {
    pr.purpose == Reuse && exists repoHash :: pr.path == CacheName(repoHash, pr.sha)
  }

  /** The sidecar time the sweep read was old enough when the sweep began. */
  predicate OldEnough(pr: Process) {
    pr.purpose == Aged && pr.maxAge.Some? && pr.mtime + pr.maxAge.value <= pr.sweepNow
  }

  /** What a process may rely on at each point. */
  ghost predicate LocalOk(w: World, pr: Process) {
    match pr.pc
    case Idle | NextEntry | Returned(_) => true
    case OpenLock | TryLock =>
      && (pr.purpose == Reuse ==> AtCachePath(pr))
      && (pr.purpose == Aged ==> OldEnough(pr))
      && (pr.purpose != Reuse ==> IsReusable(pr.path))
    case CheckExists | CheckRegistered | CheckHead | RemoveStale | RemoveStaleDir | AddWorktree | RollBack | RollBackDir =>
      AtCachePath(pr)
    case Touch => AtCachePath(pr) && CheckedOut(w, pr)
    case Release(ok) => if pr.purpose == Reuse then AtCachePath(pr) && (ok ==> CheckedOut(w, pr)) else IsReusable(pr.path) && (ok ==> pr.path !in w.dirs)
    case ReadSidecar => pr.purpose == Aged && pr.maxAge.Some? && IsReusable(pr.path)
    case RecheckOrphan => pr.purpose == Orphan && IsReusable(pr.path)
    case UnregisterOrphan => pr.purpose == Orphan && IsReusable(pr.path) && pr.path !in w.dirs
    case DropSidecar(gone) => pr.purpose != Reuse && IsReusable(pr.path) && (gone ==> pr.path !in w.dirs)
    case RemoveAged | RemoveAgedDir => OldEnough(pr) && IsReusable(pr.path)
  }

  ghost predicate ProcessesOk(s: State) {
    forall p :: p in s.procs ==> LockOk(s.world, p, s.procs[p]) && LocalOk(s.world, s.procs[p])
  }

  ghost predicate Inv(s: State) {
    InodesOk(s.world) && HoldersOk(s) && ProcessesOk(s)
  }

  /** Whatever earlier runs left in the temporary directory, and no process yet. */
  ghost predicate Initial(s: State) {
    s.procs == map[] && s.world.holders == map[] && InodesOk(s.world)
  }

  /** At most one process is in the critical section of a cache entry. */
  lemma MutualExclusion(s: State, p: nat, q: nat)
    requires Inv(s) && p in s.procs && q in s.procs
    requires Holding(s.procs[p].pc) && Holding(s.procs[q].pc)
    requires s.procs[p].path == s.procs[q].path
    ensures p == q
  {
    assert LockOk(s.world, p, s.procs[p]) && LockOk(s.world, q, s.procs[q]);
  }

  // ----- What one action of one process changes

  ghost predicate SameAt(v: World, w: World, path: string) {
    (path in v.dirs <==> path in w.dirs) && (path in v.dirs ==> v.dirs[path] == w.dirs[path])
  }

  /** Directories change only at the path whose lock the process holds. */
  ghost predicate DirsGuarded(v: World, w: World, pr: Process) {
    forall path :: !SameAt(v, w, path) ==> Holding(pr.pc) && path == pr.path
  }

  /** Lock files stay where they are. */
  ghost predicate LockFilesKept(v: World, w: World) {
    forall path :: path in v.lockFiles ==> path in w.lockFiles && w.lockFiles[path] == v.lockFiles[path]
  }

  /** No other process loses or gains a lock. */
  ghost predicate OtherLocksKept(v: World, w: World, me: nat) {
    && (forall i :: i in v.holders && v.holders[i] != me ==> i in w.holders && w.holders[i] == v.holders[i])
    && (forall i :: i in w.holders && w.holders[i] != me ==> i in v.holders && w.holders[i] == v.holders[i])
  }

  /** The locks of `me` are those its new position says it holds. */
  ghost predicate OwnLocksFit(w: World, me: nat, pr: Process) {
    forall i :: i in w.holders && w.holders[i] == me ==> Holding(pr.pc) && pr.inode == i
  }

  ghost predicate GoodMove(v: World, w: World, me: nat, pr: Process, next: Process) {
    && DirsGuarded(v, w, pr) && LockFilesKept(v, w) && OtherLocksKept(v, w, me)
    && InodesOk(w) && LockOk(w, me, next) && LocalOk(w, next) && OwnLocksFit(w, me, next)
  }

  /** A good move of `p` leaves every other process with what it relies on. */
  lemma OthersUndisturbed(s: State, t: State, p: nat, q: nat)
    requires Inv(s) && p in s.procs && q in s.procs && q != p
    requires DirsGuarded(s.world, t.world, s.procs[p]) && LockFilesKept(s.world, t.world)
    requires OtherLocksKept(s.world, t.world, p)
    ensures LockOk(t.world, q, s.procs[q]) && LocalOk(t.world, s.procs[q])
  {
    var pr := s.procs[q];
    assert LockOk(s.world, q, pr) && LocalOk(s.world, pr);
    if Holding(pr.pc) && Holding(s.procs[p].pc) && pr.path == s.procs[p].path {
      MutualExclusion(s, p, q);
    }
    assert Holding(pr.pc) ==> SameAt(s.world, t.world, pr.path);
  }

  lemma GoodMoveKeepsInv(s: State, t: State, p: nat)
    requires Inv(s) && p in s.procs && p in t.procs && t.procs == s.procs[p := t.procs[p]]
    requires GoodMove(s.world, t.world, p, s.procs[p], t.procs[p])
    ensures Inv(t)
  {
    hide LockOk;
    hide LocalOk;
    hide Holding;
    forall q | q in t.procs
      ensures LockOk(t.world, q, t.procs[q]) && LocalOk(t.world, t.procs[q])
    {
      if q != p {
        OthersUndisturbed(s, t, p, q);
      }
    }
    forall i | i in t.world.holders
      ensures t.world.holders[i] in t.procs && Holding(t.procs[t.world.holders[i]].pc)
              && t.procs[t.world.holders[i]].inode == i
    {
    }
  }

  // ----- Every action is a good move

  ghost predicate Ready(s: State, p: nat, a: Action) {
    Inv(s) && p in s.procs && CanAct(s.world, s.procs[p], a)
  }

  lemma LockActionIsLocallyOk(w: World, me: nat, pr: Process, a: Action)
    requires CanAct(w, pr, a) && LocalOk(w, pr) && (a.Open? || a.Lock? || a.Unlock?)
    ensures var (v, next) := LockAction(w, me, pr, a); LocalOk(v, next) && v.dirs == w.dirs
  {
    hide CacheName;
    hide IsReusable;
  }

  lemma OpenIsGood(s: State, p: nat, a: Action)
    requires Ready(s, p, a) && a.Open?
    ensures var (w, pr) := LockAction(s.world, p, s.procs[p], a);
            GoodMove(s.world, w, p, s.procs[p], pr)
  {
    hide LocalOk;
    LockActionIsLocallyOk(s.world, p, s.procs[p], a);
    assert LockOk(s.world, p, s.procs[p]);
  }

  lemma LockIsGood(s: State, p: nat, a: Action)
    requires Ready(s, p, a) && a.Lock?
    ensures var (w, pr) := LockAction(s.world, p, s.procs[p], a);
            GoodMove(s.world, w, p, s.procs[p], pr)
  {
    hide LocalOk;
    LockActionIsLocallyOk(s.world, p, s.procs[p], a);
    assert LockOk(s.world, p, s.procs[p]);
  }

  lemma UnlockIsGood(s: State, p: nat, a: Action)
    requires Ready(s, p, a) && a.Unlock?
    ensures var (w, pr) := LockAction(s.world, p, s.procs[p], a);
            GoodMove(s.world, w, p, s.procs[p], pr)
  {
    hide LocalOk;
    LockActionIsLocallyOk(s.world, p, s.procs[p], a);
    assert LockOk(s.world, p, s.procs[p]);
  }

  /** A move that leaves the locks alone. */
  predicate Quiet(v: World, w: World, pr: Process, next: Process) {
    && w.lockFiles == v.lockFiles && w.nextInode == v.nextInode && w.holders == v.holders
    && next.inode == pr.inode && Holding(next.pc) == Holding(pr.pc)
    && (HasLockFile(next.pc) ==> HasLockFile(pr.pc) && next.path == pr.path)
  }

  lemma QuietMoveIsGood(s: State, w: World, p: nat, next: Process)
    requires Inv(s) && p in s.procs && Quiet(s.world, w, s.procs[p], next)
    requires DirsGuarded(s.world, w, s.procs[p]) && LocalOk(w, next)
    ensures GoodMove(s.world, w, p, s.procs[p], next)
  {
    hide LocalOk;
    assert LockOk(s.world, p, s.procs[p]);
  }

  lemma ReuseActionIsQuiet(w: World, pr: Process, a: Action)
    requires CanAct(w, pr, a)
    requires a.StartReuse? || a.SeeExists? || a.SeeRegistered? || a.SeeHead? || a.TouchSidecar? || a.Resume?
    ensures var (v, next) := ReuseAction(w, pr, a); Quiet(w, v, pr, next) && v.dirs == w.dirs
  {
    hide CacheName;
  }

  lemma ReuseActionIsLocallyOk(w: World, pr: Process, a: Action)
    requires CanAct(w, pr, a) && LocalOk(w, pr)
    requires a.StartReuse? || a.SeeExists? || a.SeeRegistered? || a.SeeHead? || a.TouchSidecar? || a.Resume?
    ensures var (v, next) := ReuseAction(w, pr, a); LocalOk(v, next)
  {
    hide CacheName;
    hide IsReusable;
  }

  lemma ReuseActionIsGood(s: State, p: nat, a: Action)
    requires Ready(s, p, a)
    requires a.StartReuse? || a.SeeExists? || a.SeeRegistered? || a.SeeHead? || a.TouchSidecar? || a.Resume?
    ensures var (w, pr) := ReuseAction(s.world, s.procs[p], a);
            GoodMove(s.world, w, p, s.procs[p], pr)
  {
    hide LocalOk;
    hide CanAct;
    hide ReuseAction;
    ReuseActionIsQuiet(s.world, s.procs[p], a);
    ReuseActionIsLocallyOk(s.world, s.procs[p], a);
    var (w, next) := ReuseAction(s.world, s.procs[p], a);
    QuietMoveIsGood(s, w, p, next);
  }

  lemma DirectoryActionIsQuiet(w: World, pr: Process, a: Action)
    requires CanAct(w, pr, a) && (a.GitRemove? || a.RemoveDirAll? || a.GitAdd?)
    ensures var (v, next) := DirectoryAction(w, pr, a); Quiet(w, v, pr, next)
  {
  }

  lemma DirectoryActionIsGuarded(w: World, pr: Process, a: Action)
    requires CanAct(w, pr, a) && (a.GitRemove? || a.RemoveDirAll? || a.GitAdd?)
    ensures var (v, next) := DirectoryAction(w, pr, a); DirsGuarded(w, v, pr)
  {
  }

  lemma DirectoryActionIsLocallyOk(w: World, pr: Process, a: Action)
    requires CanAct(w, pr, a) && LocalOk(w, pr) && (a.GitRemove? || a.RemoveDirAll? || a.GitAdd?)
    ensures var (v, next) := DirectoryAction(w, pr, a); LocalOk(v, next)
  {
    hide CacheName;
    hide IsReusable;
  }

  lemma DirectoryActionIsGood(s: State, p: nat, a: Action)
    requires Ready(s, p, a) && (a.GitRemove? || a.RemoveDirAll? || a.GitAdd?)
    ensures var (w, pr) := DirectoryAction(s.world, s.procs[p], a);
            GoodMove(s.world, w, p, s.procs[p], pr)
  {
    hide LocalOk;
    hide CanAct;
    hide DirectoryAction;
    DirectoryActionIsQuiet(s.world, s.procs[p], a);
    DirectoryActionIsGuarded(s.world, s.procs[p], a);
    DirectoryActionIsLocallyOk(s.world, s.procs[p], a);
    var (w, next) := DirectoryAction(s.world, s.procs[p], a);
    QuietMoveIsGood(s, w, p, next);
  }

  lemma SweepActionIsQuiet(w: World, pr: Process, a: Action)
    requires CanAct(w, pr, a)
    requires a.StartSweep? || a.Visit? || a.SeeSidecar? || a.Recheck? || a.RemoveSidecar? || a.EndSweep?
    ensures var (v, next) := SweepAction(w, pr, a); Quiet(w, v, pr, next) && v.dirs == w.dirs
  {
    hide IsReusable;
  }

  lemma SweepActionIsLocallyOk(w: World, pr: Process, a: Action)
    requires CanAct(w, pr, a) && LocalOk(w, pr)
    requires a.StartSweep? || a.Visit? || a.SeeSidecar? || a.Recheck? || a.RemoveSidecar? || a.EndSweep?
    ensures var (v, next) := SweepAction(w, pr, a); LocalOk(v, next)
  {
    hide CacheName;
    hide IsReusable;
    hide CheckedOut;
  }

  lemma SweepActionIsGood(s: State, p: nat, a: Action)
    requires Ready(s, p, a)
    requires a.StartSweep? || a.Visit? || a.SeeSidecar? || a.Recheck? || a.RemoveSidecar? || a.EndSweep?
    ensures var (w, pr) := SweepAction(s.world, s.procs[p], a);
            GoodMove(s.world, w, p, s.procs[p], pr)
  {
    hide LocalOk;
    hide CanAct;
    hide SweepAction;
    SweepActionIsQuiet(s.world, s.procs[p], a);
    SweepActionIsLocallyOk(s.world, s.procs[p], a);
    var (w, next) := SweepAction(s.world, s.procs[p], a);
    QuietMoveIsGood(s, w, p, next);
  }

  lemma ActionIsGood(s: State, p: nat, a: Action)
    requires Ready(s, p, a)
    ensures var (w, pr) := Effect(s.world, p, s.procs[p], a);
            GoodMove(s.world, w, p, s.procs[p], pr)
  {
    hide Inv;
    hide GoodMove;
    if a.Open? {
      OpenIsGood(s, p, a);
    } else if a.Lock? {
      LockIsGood(s, p, a);
    } else if a.Unlock? {
      UnlockIsGood(s, p, a);
    } else if a.GitRemove? || a.RemoveDirAll? || a.GitAdd? {
      DirectoryActionIsGood(s, p, a);
    } else if a.StartSweep? || a.Visit? || a.SeeSidecar? || a.Recheck? || a.RemoveSidecar? || a.EndSweep? {
      SweepActionIsGood(s, p, a);
    } else {
      ReuseActionIsGood(s, p, a);
    }
  }

  lemma KillKeepsInv(s: State, e: Event)
    requires Inv(s) && Enabled(s, e) && e.Kill?
    ensures Inv(Apply(s, e))
  {
    var t := Apply(s, e);
    forall p | p in t.procs
      ensures LockOk(t.world, p, t.procs[p]) && LocalOk(t.world, t.procs[p])
    {
      assert LockOk(s.world, p, s.procs[p]) && LocalOk(s.world, s.procs[p]);
    }
  }

  lemma ReapKeepsInv(s: State, e: Event)
    requires Inv(s) && Enabled(s, e) && e.Reap?
    ensures Inv(Apply(s, e))
  {
    hide IsReusable;
    hide CacheName;
    hide InodesOk;
    var t := Apply(s, e);
    assert InodesOk(t.world) by {
      InodesSame(s.world, t.world);
    }
    forall p | p in t.procs
      ensures LockOk(t.world, p, t.procs[p]) && LocalOk(t.world, t.procs[p])
    {
      assert LockOk(s.world, p, s.procs[p]) && LocalOk(s.world, s.procs[p]);
    }
  }

  lemma InodesSame(w: World, v: World)
    requires InodesOk(w) && v.lockFiles == w.lockFiles && v.nextInode == w.nextInode
    ensures InodesOk(v)
  {
  }

  lemma OutsideKeepsInv(s: State, e: Event)
    requires Inv(s) && Enabled(s, e) && !e.Act? && !e.Kill? && !e.Reap?
    ensures Inv(Apply(s, e))
  {
    hide IsReusable;
    hide CacheName;
    var t := Apply(s, e);
    forall p | p in t.procs
      ensures LockOk(t.world, p, t.procs[p]) && LocalOk(t.world, t.procs[p])
    {
      if p in s.procs {
        assert LockOk(s.world, p, s.procs[p]) && LocalOk(s.world, s.procs[p]);
      }
    }
  }

  lemma EveryEventKeepsInv(s: State, e: Event)
    requires Inv(s) && Enabled(s, e)
    ensures Inv(Apply(s, e))
  {
    if e.Act? {
      ActionIsGood(s, e.p, e.action);
      GoodMoveKeepsInv(s, Apply(s, e), e.p);
    } else if e.Kill? {
      KillKeepsInv(s, e);
    } else if e.Reap? {
      ReapKeepsInv(s, e);
    } else {
      OutsideKeepsInv(s, e);
    }
  }

  /** Only its own steps and the reaper change a process. */
  lemma OthersLeaveProcess(s: State, e: Event, p: nat)
    requires Enabled(s, e) && p in Apply(s, e).procs && !(e.Act? && e.p == p) && Apply(s, e).procs[p].pc != Idle
    ensures p in s.procs && Apply(s, e).procs[p].(reaped := false) == s.procs[p].(reaped := false)
  {
    hide Effect;
  }

  // ----- Whole runs

  /** A run from any contents of the temporary directory, with no process yet. */
  ghost predicate IsRun(states: seq<State>, events: seq<Event>) {
    && |states| == |events| + 1
    && Initial(states[0])
    && forall i :: 0 <= i < |events| ==> Enabled(states[i], events[i]) && states[i + 1] == Apply(states[i], events[i])
  }

  lemma {:induction false} RunKeepsInv(states: seq<State>, events: seq<Event>, i: nat)
    requires IsRun(states, events) && i < |states|
    ensures Inv(states[i])
    decreases i
  {
    if i > 0 {
      RunKeepsInv(states, events, i - 1);
      EveryEventKeepsInv(states[i - 1], events[i - 1]);
    }
  }

  /** In every reachable state at most one process holds a cache entry's lock. */
  lemma AtMostOneHolder(states: seq<State>, events: seq<Event>, i: nat, p: nat, q: nat)
    requires IsRun(states, events) && i < |states|
    requires p in states[i].procs && q in states[i].procs
    requires Holding(states[i].procs[p].pc) && Holding(states[i].procs[q].pc)
    requires states[i].procs[p].path == states[i].procs[q].path
    ensures p == q
  {
    RunKeepsInv(states, events, i);
    MutualExclusion(states[i], p, q);
  }

  lemma LockFilesStay(s: State, e: Event)
    requires Inv(s) && Enabled(s, e)
    ensures LockFilesKept(s.world, Apply(s, e).world)
  {
    if e.Act? {
      ActionIsGood(s, e.p, e.action);
    }
  }

  /** The lock file of a cache entry never changes inode. */
  lemma {:induction false} LockInodeIsForever(states: seq<State>, events: seq<Event>, i: nat, j: nat, path: string)
    requires IsRun(states, events) && i <= j < |states|
    requires path in states[i].world.lockFiles
    ensures path in states[j].world.lockFiles
         && states[j].world.lockFiles[path] == states[i].world.lockFiles[path]
    decreases j
  {
    hide Apply;
    hide Enabled;
    hide Inv;
    if i < j {
      LockInodeIsForever(states, events, i, j - 1, path);
      RunKeepsInv(states, events, j - 1);
      assert states[j - 1 + 1] == Apply(states[j - 1], events[j - 1]);
      LockFilesStay(states[j - 1], events[j - 1]);
    }
  }

  /** A cache directory appears, disappears or changes commit only by the reaper
      or by the one process holding the entry's lock. */
  lemma DirectoryChangesNeedTheLock(states: seq<State>, events: seq<Event>, i: nat, path: string)
    requires IsRun(states, events) && i < |events|
    requires !SameAt(states[i].world, states[i + 1].world, path)
    ensures var s, e := states[i], events[i];
            || e == Reap(path)
            || (&& e.Act? && Holding(s.procs[e.p].pc) && s.procs[e.p].path == path
                && forall q :: q in s.procs && q != e.p && s.procs[q].path == path ==> !Holding(s.procs[q].pc))
  {
    var s, e := states[i], events[i];
    RunKeepsInv(states, events, i);
    if e.Act? {
      ActionIsGood(s, e.p, e.action);
      forall q | q in s.procs && q != e.p && s.procs[q].path == path
        ensures !Holding(s.procs[q].pc)
      {
        if Holding(s.procs[q].pc) {
          MutualExclusion(s, e.p, q);
        }
      }
    }
  }

  /** While one process works on an entry no other can take its lock: a sweep
      skips an entry that is being rebuilt, and a second reuse falls through. */
  lemma ContenderCannotLock(states: seq<State>, events: seq<Event>, i: nat, p: nat, q: nat)
    requires IsRun(states, events) && i < |states|
    requires p in states[i].procs && q in states[i].procs
    requires Holding(states[i].procs[p].pc) && states[i].procs[q].pc == TryLock
    requires states[i].procs[p].path == states[i].procs[q].path
    ensures !CanAct(states[i].world, states[i].procs[q], Lock(true))
  {
    RunKeepsInv(states, events, i);
    assert LockOk(states[i].world, p, states[i].procs[p]) && LockOk(states[i].world, q, states[i].procs[q]);
  }

  /** The orphan branch unregisters only an entry whose directory is absent, and
      removes no directory. */
  lemma OrphanBranchOnlyUnregisters(states: seq<State>, events: seq<Event>, i: nat)
    requires IsRun(states, events) && i < |events|
    requires events[i].Act? && states[i].procs[events[i].p].purpose == Orphan
    requires Holding(states[i].procs[events[i].p].pc)
    ensures states[i + 1].world.dirs == states[i].world.dirs
    ensures states[i + 1].world.registered != states[i].world.registered
            ==> states[i].procs[events[i].p].path !in states[i].world.dirs
                && states[i + 1].world.registered
                   == states[i].world.registered - {states[i].procs[events[i].p].path}
  {
    RunKeepsInv(states, events, i);
    var pr := states[i].procs[events[i].p];
    assert LocalOk(states[i].world, pr);
    OrphanAction(states[i].world, events[i].p, pr, events[i].action);
  }

  lemma OrphanAction(w: World, me: nat, pr: Process, a: Action)
    requires CanAct(w, pr, a) && LocalOk(w, pr) && pr.purpose == Orphan && Holding(pr.pc)
    ensures var (v, next) := Effect(w, me, pr, a);
            && v.dirs == w.dirs
            && (v.registered != w.registered ==> pr.path !in w.dirs && v.registered == w.registered - {pr.path})
  {
    hide IsReusable;
    hide CacheName;
  }

  /** A sweep removes a directory only if it is a cache entry whose last use was
      read as at least max_age old; with no max_age it removes none. */
  lemma SweepRemovesOnlyOldCaches(states: seq<State>, events: seq<Event>, i: nat, path: string)
    requires IsRun(states, events) && i < |events|
    requires events[i].Act? && states[i].procs[events[i].p].purpose != Reuse
    requires !SameAt(states[i].world, states[i + 1].world, path)
    ensures var pr := states[i].procs[events[i].p];
            && path == pr.path && IsReusable(path)
            && pr.maxAge.Some? && pr.mtime + pr.maxAge.value <= pr.sweepNow
            && path in states[i].world.dirs && path !in states[i + 1].world.dirs
  {
    RunKeepsInv(states, events, i);
    DirectoryChangesNeedTheLock(states, events, i, path);
    var pr := states[i].procs[events[i].p];
    assert LocalOk(states[i].world, pr);
    SweepRemoval(states[i].world, events[i].p, pr, events[i].action, path);
  }

  lemma SweepRemoval(w: World, me: nat, pr: Process, a: Action, path: string)
    requires CanAct(w, pr, a) && LocalOk(w, pr) && pr.purpose != Reuse && Holding(pr.pc)
    ensures var (v, next) := Effect(w, me, pr, a);
            !SameAt(w, v, path) ==> IsReusable(pr.path) && OldEnough(pr) && path in w.dirs && path !in v.dirs
  {
    hide IsReusable;
    hide CacheName;
  }

  /** reuse_or_create knows its directory to be checked out at the full commit. */
  predicate Confirmed(pr: Process) {
    pr.purpose == Reuse && (pr.pc == Touch || pr.pc == Release(true))
  }

  /** The reaper took `p`'s directory after `p` had confirmed it, before state i. */
  ghost predicate ReapedSinceConfirmed(states: seq<State>, events: seq<Event>, i: nat, p: nat)
    requires IsRun(states, events) && i < |states| && p in states[i].procs
  {
    exists k :: 0 <= k < i && events[k] == Reap(states[i].procs[p].path)
                && forall m :: k <= m <= i ==> p in states[m].procs && Confirmed(states[m].procs[p])
                                               && states[m].procs[p].path == states[i].procs[p].path
  }

  lemma ConfirmedAction(w: World, me: nat, pr: Process, a: Action)
    requires CanAct(w, pr, a) && LocalOk(w, pr)
    ensures var (v, next) := Effect(w, me, pr, a);
            Confirmed(next) && next.reaped ==> Confirmed(pr) && pr.path == next.path && pr.reaped
  {
    hide IsReusable;
    hide CacheName;
  }

  lemma ConfirmedStep(s: State, e: Event, p: nat)
    requires Inv(s) && Enabled(s, e) && p in Apply(s, e).procs && Confirmed(Apply(s, e).procs[p]) && Apply(s, e).procs[p].reaped
    ensures p in s.procs && Confirmed(s.procs[p]) && s.procs[p].path == Apply(s, e).procs[p].path
    ensures e == Reap(s.procs[p].path) || s.procs[p].reaped
  {
    hide LocalOk;
    hide CanAct;
    hide Effect;
    if e.Act? && e.p == p {
      ConfirmedAction(s.world, p, s.procs[p], e.action);
    }
  }

  lemma {:induction false} ReapedFlagIsTrue(states: seq<State>, events: seq<Event>, i: nat, p: nat)
    requires IsRun(states, events) && i < |states| && p in states[i].procs
    requires Confirmed(states[i].procs[p]) && states[i].procs[p].reaped
    ensures ReapedSinceConfirmed(states, events, i, p)
    decreases i
  {
    hide Inv;
    hide Apply;
    hide Enabled;
    assert i > 0;
    RunKeepsInv(states, events, i - 1);
    ConfirmedStep(states[i - 1], events[i - 1], p);
    if events[i - 1] != Reap(states[i].procs[p].path) {
      ReapedFlagIsTrue(states, events, i - 1, p);
      var k :| 0 <= k < i - 1 && events[k] == Reap(states[i - 1].procs[p].path)
               && forall m :: k <= m <= i - 1 ==> p in states[m].procs && Confirmed(states[m].procs[p])
                                                  && states[m].procs[p].path == states[i - 1].procs[p].path;
      assert forall m :: k <= m <= i ==> p in states[m].procs && Confirmed(states[m].procs[p])
                                         && states[m].procs[p].path == states[i].procs[p].path;
    } else {
      assert forall m :: i - 1 <= m <= i ==> p in states[m].procs && Confirmed(states[m].procs[p])
                                             && states[m].procs[p].path == states[i].procs[p].path;
    }
  }

  /** The holder of a confirmed entry does not make its directory again, and nobody
      else can. */
  lemma ReapedStaysGone(s: State, e: Event, p: nat)
    requires Inv(s) && Enabled(s, e) && p in s.procs && Confirmed(s.procs[p]) && s.procs[p].path !in s.world.dirs
    requires p in Apply(s, e).procs && Confirmed(Apply(s, e).procs[p]) && Apply(s, e).procs[p].path == s.procs[p].path
    ensures s.procs[p].path !in Apply(s, e).world.dirs
  {
    hide IsReusable;
    hide CacheName;
    hide LocalOk;
    if e.Act? {
      if e.p == p {
        ConfirmedKeepsDirs(s.world, p, s.procs[p], e.action);
      } else {
        ActionIsGood(s, e.p, e.action);
        if Holding(s.procs[e.p].pc) && s.procs[e.p].path == s.procs[p].path {
          MutualExclusion(s, p, e.p);
        }
        hide Apply;
        assert SameAt(s.world, Apply(s, e).world, s.procs[p].path);
      }
    }
  }

  lemma ConfirmedKeepsDirs(w: World, me: nat, pr: Process, a: Action)
    requires CanAct(w, pr, a) && Confirmed(pr)
    ensures Effect(w, me, pr, a).0.dirs == w.dirs
  {
  }

  lemma ReapTakes(s: State, path: string)
    ensures path !in Apply(s, Reap(path)).world.dirs
  {
  }

  lemma {:induction false} ReapedIsGone(states: seq<State>, events: seq<Event>, k: nat, i: nat, p: nat)
    requires IsRun(states, events) && k < i < |states| && p in states[i].procs
    requires events[k] == Reap(states[i].procs[p].path)
    requires forall m :: k <= m <= i ==> p in states[m].procs && Confirmed(states[m].procs[p])
                                         && states[m].procs[p].path == states[i].procs[p].path
    ensures states[i].procs[p].path !in states[i].world.dirs
    decreases i
  {
    hide Apply;
    hide Enabled;
    hide Confirmed;
    assert states[i - 1 + 1] == Apply(states[i - 1], events[i - 1]);
    if i == k + 1 {
      ReapTakes(states[k], states[i].procs[p].path);
    } else {
      ReapedIsGone(states, events, k, i - 1, p);
      RunKeepsInv(states, events, i - 1);
      ReapedStaysGone(states[i - 1], events[i - 1], p);
    }
  }

  /** Once reuse_or_create knows its directory to be checked out, the directory is
      there exactly until the reaper takes it. */
  lemma ConfirmedIsThereIff(states: seq<State>, events: seq<Event>, i: nat, p: nat)
    requires IsRun(states, events) && i < |states| && p in states[i].procs && Confirmed(states[i].procs[p])
    ensures states[i].procs[p].path in states[i].world.dirs <==> !ReapedSinceConfirmed(states, events, i, p)
  {
    hide Enabled;
    hide Apply;
    RunKeepsInv(states, events, i);
    assert LocalOk(states[i].world, states[i].procs[p]);
    if states[i].procs[p].reaped {
      ReapedFlagIsTrue(states, events, i, p);
    }
    if ReapedSinceConfirmed(states, events, i, p) {
      var k :| 0 <= k < i && events[k] == Reap(states[i].procs[p].path)
               && forall m :: k <= m <= i ==> p in states[m].procs && Confirmed(states[m].procs[p])
                                              && states[m].procs[p].path == states[i].procs[p].path;
      ReapedIsGone(states, events, k, i, p);
    }
  }

  /** reuse_or_create returns Some at the cache path of its commit, and the
      directory there is checked out at the full commit, even though the path names
      only a prefix of it, exactly when the reaper has not struck since the check. */
  lemma ReuseReturnsCheckedOut(states: seq<State>, events: seq<Event>, i: nat, p: nat)
    requires IsRun(states, events) && i < |events|
    requires events[i] == Act(p, Unlock)
    requires states[i].procs[p].purpose == Reuse && states[i].procs[p].pc == Release(true)
    ensures p in states[i + 1].procs && states[i + 1].procs[p].pc == Returned(true)
    ensures var pr, dirs := states[i].procs[p], states[i + 1].world.dirs;
            && (exists repoHash :: pr.path == CacheName(repoHash, pr.sha))
            && (pr.path in dirs && dirs[pr.path] == pr.sha <==> !ReapedSinceConfirmed(states, events, i, p))
            && (pr.path in dirs <==> !ReapedSinceConfirmed(states, events, i, p))
  {
    RunKeepsInv(states, events, i);
    assert LocalOk(states[i].world, states[i].procs[p]);
    ConfirmedIsThereIff(states, events, i, p);
  }

  // ----- Why the lock file is never unlinked

  datatype Move = Do(event: Event) | UnlinkLockFile(path: string)

  /** A run that is allowed to remove lock files. */
  function Replay(s: State, moves: seq<Move>): Option<State> {
    if moves == [] then Some(s)
    else
      var last := moves[|moves| - 1];
      match Replay(s, moves[..|moves| - 1])
      case None => None
      case Some(t) =>
        match last
        case Do(e) => if Enabled(t, e) then Some(Apply(t, e)) else None
        case UnlinkLockFile(path) => Some(t.(world := t.world.(lockFiles := t.world.lockFiles - {path})))
  }

  lemma ReplayThree(s: State, a: Event, b: Event, c: Event)
    requires Enabled(s, a) && Enabled(Apply(s, a), b) && Enabled(Apply(Apply(s, a), b), c)
    ensures Replay(s, [Do(a), Do(b), Do(c)]) == Some(Apply(Apply(Apply(s, a), b), c))
  {
    hide Enabled;
    hide Apply;
    assert [Do(a)][..0] == [] && Replay(s, []) == Some(s);
    assert Replay(s, [Do(a)]) == Some(Apply(s, a));
    assert [Do(a), Do(b)][..1] == [Do(a)];
    assert Replay(s, [Do(a), Do(b)]) == Some(Apply(Apply(s, a), b));
    assert [Do(a), Do(b), Do(c)][..2] == [Do(a), Do(b)];
  }

  lemma TakesTheLock(s: State, p: nat, repoHash: string, sha: string) returns (moves: seq<Move>)
    requires p in s.procs && s.procs[p].pc == Idle
    requires CacheName(repoHash, sha) !in s.world.lockFiles && s.world.nextInode !in s.world.holders
    ensures moves == [Do(Act(p, StartReuse(repoHash, sha))), Do(Act(p, Open(true))), Do(Act(p, Lock(true)))]
    ensures var path := CacheName(repoHash, sha);
            Replay(s, moves) == Some(State(
              s.world.(lockFiles := s.world.lockFiles[path := s.world.nextInode], nextInode := s.world.nextInode + 1,
                       holders := s.world.holders[s.world.nextInode := p]),
              s.procs[p := s.procs[p].(pc := CheckExists, purpose := Reuse, path := path, sha := sha, inode := s.world.nextInode)]))
  {
    hide CacheName;
    hide Replay;
    var start, open, lock := Act(p, StartReuse(repoHash, sha)), Act(p, Open(true)), Act(p, Lock(true));
    var t := Apply(Apply(Apply(s, start), open), lock);
    moves := [Do(start), Do(open), Do(lock)];
    ReplayThree(s, start, open, lock);
    assert t.procs == s.procs[p := t.procs[p]];
  }

  /** With a single unlink two processes end up holding the same entry's lock. */
  lemma UnlinkingBreaksExclusion(repoHash: string, sha: string, s: State, p: nat, q: nat)
    returns (before: seq<Move>, after: seq<Move>, t: State)
    requires p != q && p in s.procs && q in s.procs && s.procs[p].pc == s.procs[q].pc == Idle
    requires CacheName(repoHash, sha) !in s.world.lockFiles
    requires s.world.nextInode !in s.world.holders && s.world.nextInode + 1 !in s.world.holders
    ensures Replay(s, before + [UnlinkLockFile(CacheName(repoHash, sha))] + after) == Some(t)
    ensures forall m :: m in before + after ==> m.Do?
    ensures p in t.procs && q in t.procs && Holding(t.procs[p].pc) && Holding(t.procs[q].pc)
    ensures t.procs[p].path == t.procs[q].path == CacheName(repoHash, sha)
  {
    hide CacheName;
    hide Apply;
    hide Enabled;
    var path := CacheName(repoHash, sha);
    before := TakesTheLock(s, p, repoHash, sha);
    var middle := before + [UnlinkLockFile(path)];
    var s1 := Replay(s, before).value;
    var s2 := s1.(world := s1.world.(lockFiles := s1.world.lockFiles - {path}));
    assert middle[..|before|] == before;
    assert Replay(s, middle) == Some(s2);
    after := TakesTheLock(s2, q, repoHash, sha);
    t := Replay(s2, after).value;
    ReplayAppend(s, middle, after);
  }

  lemma {:induction false} ReplayAppend(s: State, first: seq<Move>, second: seq<Move>)
    requires Replay(s, first).Some?
    ensures Replay(s, first + second) == Replay(Replay(s, first).value, second)
    decreases |second|
  {
    if second == [] {
      assert first + second == first;
    } else {
      var n := |second| - 1;
      ReplayAppend(s, first, second[..n]);
      assert (first + second)[..|first| + n] == first + second[..n];
    }
  }
}
