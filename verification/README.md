# Verification of fallow's command-line layer

A Dafny model of the algorithms and protocols in the command-line layer of fallow,
with proofs of what they promise.

- **Base worktrees.** `ReusableWorktrees` is a step system of any number of
  processes that reuse, rebuild and collect cached git worktrees, next to a reaper
  that may delete directories at any moment. The kernel lock on a `.lock` file that
  is never unlinked is all that coordinates them. `ReuseRuns` and `CallRuns` say when
  an entry is reused and when it is rebuilt, `SweepRuns` what a sweep collects and
  spares; `WorktreeScenarios` shows that such runs exist. `TransientWorktrees` follows
  the clean-up guard and the worktree object, and who may remove a leftover when
  processes die and pids are reused. `WorktreeNames` holds the path names.
- **Levenshtein.** `Levenshtein` has the two-row table and the closest-match search,
  with edit chains as the independent meaning of the distance.
- **Baselines.** `SeverityMatching` treats the greedy slot assignment as a matching
  problem for any number of severities; `HealthBaseline` is the filter around it.
  `DuplicationStats` and `CloneBaseline` recompute statistics and filter clone groups.
- **Review reconciliation.** `Markers` prints and reads markers, `Reconcile` loads
  provider state, stages and applies operations, `ReconcilePlans` compares the sets,
  `ReconcileTargets` says whom a run answers, and `ReconcileRuns` reasons about
  repeated runs that fail anywhere.
- **Audit gate.** `BatchReader` reads framed answers of `git cat-file --batch`,
  `AuditKeys` separates introduced from inherited findings, `AuditGate` has the
  verdicts and the three sources of a base, `ReuseExact` says when the base pass may be
  skipped, and `SnapshotCache` has the cache on disk.
- **JSONC.** `Jsonc` and `JsoncTokens` have the two position-preserving scanners and
  an independent token reader (strings as in section 7 of RFC 8259); `JsoncNotes` is
  about the comments that are recorded.
- **CODEOWNERS.** `CodeOwners` parses sections and rules into parallel arrays and
  answers the lookups; `OwnerRules` says what the lines of a file mean.
- **Redaction.** `Redaction` masks credentials in network errors; `SecretShapes`
  spells out what counts as one.

`Wrappers`, `Text`, `Sequences`, `SortedKeys` and `Decimals` hold what these share.

Objects that the program changes step by step are classes or methods with loops
here, proved against functions; the properties are lemmas about those functions.
Text is a sequence of characters; where the program scans bytes, a character stands
for a byte. Run `dafny verify dfyconfig.toml` to check everything.

Where code and documentation differ the model follows the code. Six promises fail
on some inputs; each has a condition under which it holds and an input that breaks it:

- A reply's marker is read back as its key, and replies stop, exactly for safe
  fingerprints (`Markers.MarkerRoundTripIff`, `Markers.ReceivedSurvivesIffSafe`,
  `ReconcileRuns.RepliesStopIffSafe`); the comment of
  `ReconcileRuns.UnsafeCommentRepeats` gets a reply in every run. A reply to a safe
  fingerprint may still be read as a finding of its own
  (`ReconcileRuns.MarkedReplyIsRepliedTo`), but only if the fingerprint holds the
  fingerprint marker (`Markers.ReplyHasNoFingerprint`).
- A clean-up leaves no trace exactly when its commands succeed
  (`TransientWorktrees.CreateAndDrop`, `TransientWorktrees.LeftoverMeansFailedCleanup`,
  `TransientWorktrees.SweepCleansLeftovers`), and a directory that loses its
  registration first is never swept (`TransientWorktrees.ForgottenDirectoryStays`;
  `TransientWorktrees.CleanupCanForget` is a run that ends with one).
- Trailing-comma stripping needs a second pass on `,,]`, and exactly on texts with
  such a pair (`JsoncTokens.CommaStrippingIsIdempotentIff`).
- A clone group's key leaves open where one file name ends and the next begins. It
  tells the instances as long as no file name begins with the text of an instance and a
  bar (`CloneBaseline.SameKeyHidesPart`, `CloneBaseline.KeysTellInstances`), and every
  file name that does is in a group that collides (`CloneBaseline.NameWithPartCollides`).
- A finding's key tells it from all others as long as names hold no colon and locations
  no bar (`AuditKeys.ExportKeyTells`, `AuditKeys.DuplicateExportKeyTells`); every name
  with a colon collides (`AuditKeys.ColonInNameCollides`).
- A reusable worktree is there when reuse_or_create returns exactly when the reaper
  has not struck since the readiness check (`ReusableWorktrees.ReuseReturnsCheckedOut`);
  `WorktreeScenarios.ReaperCanStrike` is a run in which it has.

## Model

| member | source | states |
|---|---|---|
| `ReusableWorktrees.EveryEventKeepsInv` | crates/cli/src/base_worktree.rs:61-106 | Every step of any process (reuse, rebuild, sweep), a kill, the reaper deleting any directory and `git worktree prune` keep the invariant: lock files have distinct inodes, every kernel lock belongs to a live process inside its critical section, and each process may rely on what its program point says |
| `ReusableWorktrees.RunKeepsInv` | crates/cli/src/base_worktree.rs:61-452 | The invariant holds in every state of every run of any number of processes, from whatever lock files, directories, registrations and sidecars earlier runs left behind |
| `ReusableWorktrees.MutualExclusion` | crates/cli/src/base_worktree.rs:164-196 | Two processes in the critical section of the same cache path are one process |
| `ReusableWorktrees.AtMostOneHolder` | crates/cli/src/base_worktree.rs:168-207 | In every reachable state at most one process holds a cache entry's lock |
| `ReusableWorktrees.LockInodeIsForever` | crates/cli/src/base_worktree.rs:329-333 | A `.lock` path that exists keeps its inode for the rest of the run |
| `ReusableWorktrees.UnlinkingBreaksExclusion` | crates/cli/src/base_worktree.rs:329-333 | Why the lock file is never removed: one unlink in the middle of a run, and two processes hold the same entry's lock |
| `ReusableWorktrees.DirectoryChangesNeedTheLock` | crates/cli/src/base_worktree.rs:61-106 | A directory appears, disappears or changes commit only by the reaper, or by the one process that holds the lock of exactly that path |
| `ReusableWorktrees.ContenderCannotLock` | crates/cli/src/base_worktree.rs:168-196 | While one process works on an entry, no other process can take its lock |
| `ReusableWorktrees.OrphanBranchOnlyUnregisters` | crates/cli/src/base_worktree.rs:397-412 | The orphan branch unregisters only an entry whose directory is absent under the lock, and removes no directory |
| `ReusableWorktrees.SweepRemovesOnlyOldCaches` | crates/cli/src/base_worktree.rs:414-452 | A sweep removes only cache entries whose last use it read as at least max_age old, and none when no max_age is set |
| `ReusableWorktrees.ReapedFlagIsTrue` | crates/cli/src/base_worktree.rs:464-469 | A process marked as reaped really lost its directory to the reaper after it had confirmed it |
| `ReusableWorktrees.ConfirmedIsThereIff` | crates/cli/src/base_worktree.rs:464-469 | Once reuse_or_create knows its directory to be checked out, the directory is there exactly until the reaper takes it: nobody else removes it and nobody makes it again |
| `ReusableWorktrees.ReuseReturnsCheckedOut` | crates/cli/src/base_worktree.rs:61-106 | reuse_or_create returns Some at the cache path of its commit, and that directory is there, checked out at the full commit although the path names only a prefix of it, exactly when the reaper has not struck since the check |
| `WorktreeScenarios.ReaperCanStrike` | crates/cli/src/base_worktree.rs:66-75 | For every commit, a run in which the reaper strikes after the check: reuse_or_create returns Some and the directory is absent |
| `ReuseRuns.ReadyEntryIsReused` | crates/cli/src/base_worktree.rs:66-75 | A call that gets the lock of an entry whose directory is there at the full commit and registered leaves both as they are from its first look to its end, and returns Some, unless its process dies, the reaper takes the directory or git does not answer |
| `ReuseRuns.RebuildNeedsFailedCheck` | crates/cli/src/base_worktree.rs:77-94 | Every removal and every `git worktree add` of reuse_or_create comes after one of its own checks has failed in the same call: directory absent, not listed, HEAD unread or at another commit |
| `CallRuns.SomeMeans` | crates/cli/src/base_worktree.rs:66-106 | A call that returns a worktree has touched its sidecar, after it has either seen the directory there, listed and at the full commit, one look after the other, or added it |
| `CallRuns.NoneMeans` | crates/cli/src/base_worktree.rs:63-98 | A call that returns none has not got the lock, or its add failed and both removals were tried again after that |
| `CallRuns.AddFollowsRemoval` | crates/cli/src/base_worktree.rs:77-91 | Before `git worktree add` the call has removed the entry, first with git and then the directory |
| `CallRuns.CommandsAct` | crates/cli/src/base_worktree.rs:563-593 | What each command and each touch does to the entry, for every outcome; `git worktree remove` does nothing to what git does not know |
| `CallRuns.SweepCountsTheRemoved` | crates/cli/src/base_worktree.rs:397-452 | A sweep counts an entry as removed exactly when its directory is gone |
| `WorktreeScenarios.WarmEntryIsReused` | crates/cli/src/base_worktree.rs:66-75 | For every commit, a run in which a second call finds the entry of the first one and returns it without removing or adding anything |
| `WorktreeScenarios.FailedAddLeavesNothing` | crates/cli/src/base_worktree.rs:91-98 | A run in which a failed add leaves a registration and a directory, and the call takes both away and returns none |
| `WorktreeScenarios.AgedEntryIsCollected` | crates/cli/src/base_worktree.rs:414-452 | A run in which a sweep takes an aged entry's directory, registration and sidecar |
| `WorktreeScenarios.OrphanIsForgotten` | crates/cli/src/base_worktree.rs:397-412 | A run in which a sweep without max_age forgets an entry whose directory the reaper has taken |
| `WorktreeScenarios.CrashFreesTheLock` | crates/cli/src/base_worktree.rs:164-196 | A run in which a process dies holding a lock and the next one takes it |
| `SweepRuns.RecentUseSparesEntry` | crates/cli/src/base_worktree.rs:414-452 | A sweep takes a directory only after reading a sidecar there that was at least max_age old when the sweep began; an entry touched before that read is spared until max_age has passed |
| `SweepRuns.SweepCollectsOrHasReason` | crates/cli/src/base_worktree.rs:332-452 | Every reusable entry that was registered when a finished sweep began was collected, or one of its own steps shows why not: still there with no max_age, sidecar missing or young, lock not taken, directory back |
| `TransientWorktrees.Repository.RemoveAuditWorktree` | crates/cli/src/base_worktree.rs:563-593 | The git command drops the registration, the directory, both or neither, and touches nothing git does not know |
| `TransientWorktrees.Repository.RemoveDirAll` | crates/cli/src/base_worktree.rs:150-157 | remove_dir_all drops the directory or fails, and leaves the registration alone |
| `TransientWorktrees.WorktreeCleanupGuard.Drop` | crates/cli/src/base_worktree.rs:150-157 | The guard issues its clean-up exactly when it is still armed; registration and directory go as far as the two commands succeed |
| `TransientWorktrees.BaseWorktree.Drop` | crates/cli/src/base_worktree.rs:776-784 | A worktree object issues its clean-up exactly when it is not persistent, with the same outcomes |
| `TransientWorktrees.CreateTransient` | crates/cli/src/base_worktree.rs:25-58 | The transient path of create: a call that returns nothing has issued exactly one clean-up, and leaves behind exactly what that clean-up failed to take away; one that returns a worktree has cleaned nothing up |
| `TransientWorktrees.CreateAndDrop` | crates/cli/src/base_worktree.rs:25-58 | Creating and dropping a worktree issues exactly one clean-up, by the guard or by the worktree's own drop, and leaves no trace exactly when that clean-up took away what had been made |
| `TransientWorktrees.EveryEventKeepsInv` | crates/cli/src/base_worktree.rs:595-619 | Adding, using, each of the two clean-up commands failing or succeeding, sweeping, pruning, dying and giving a dead process's pid to a new one keep the ownership invariant |
| `TransientWorktrees.RunKeepsInv` | crates/cli/src/base_worktree.rs:595-619 | The ownership invariant holds in every reachable state |
| `TransientWorktrees.RemovedByOwnerOrAfterItsDeath` | crates/cli/src/base_worktree.rs:595-619 | A registration or directory goes only by a clean-up of the process that made it, or after that process has died; besides, prune forgets a registration whose directory is gone |
| `TransientWorktrees.WorktreeInUseExists` | crates/cli/src/base_worktree.rs:675-684 | A worktree a live process is using is registered and there: no sweep and no prune takes it |
| `TransientWorktrees.LeftoverMeansFailedCleanup` | crates/cli/src/base_worktree.rs:145-157 | Whatever is left of a worktree that a live process is done with, its own clean-up has run and has failed to take exactly that away |
| `TransientWorktrees.SweepCleansLeftovers` | crates/cli/src/base_worktree.rs:595-619 | Every sweep that lists while a dead process's worktree is registered, and finds that pid dead when it checks the name, has issued a whole clean-up of it; what is still there is what that clean-up failed to take away, and the next sweep tries again while the registration lasts |
| `TransientWorktrees.ForgottenDirectoryStays` | crates/cli/src/base_worktree.rs:621-634 | A directory whose registration is gone, once no process has it on its list, stays for good: sweeps go by registrations |
| `TransientWorktrees.CleanupCanForget` | crates/cli/src/base_worktree.rs:563-593 | For every pid and time, a run in which the clean-up drops the registration and fails on the directory: that directory is forgotten |
| `WorktreeNames.TransientNameHasPid` | crates/cli/src/base_worktree.rs:686-692 | The name of a transient worktree parses back to the pid of the process that made it |
| `WorktreeNames.ReusableNameHasNoPid` | crates/cli/src/base_worktree.rs:652-656 | A cache name never parses as a pid, so the orphan sweep passes over it |
| `WorktreeNames.CacheNamesAgreeIff` | crates/cli/src/base_worktree.rs:454-462 | Two commits share a cache entry exactly when the repositories hash alike and the first sixteen characters of the commit ids agree |
| `WorktreeNames.TransientNamesAgreeIff` | crates/cli/src/base_worktree.rs:686-692 | Two transient names agree exactly when pid and time do |
| `WorktreeNames.CacheNameIsReusable` | crates/cli/src/base_worktree.rs:454-462 | The name of the reusable worktree for a commit is classified as a fallow worktree and as a reusable one |
| `Levenshtein.ComputeDistance` | crates/config/src/levenshtein.rs:14-41 | The two swapped rows end in the distance of the whole strings; the loop invariants tie both rows to prefix distances |
| `Levenshtein.IsLeastEditCount` | crates/config/src/levenshtein.rs:14-41 | The distance is the least number of insertions, deletions and substitutions: a chain of that many single edits exists, and no chain is shorter |
| `Levenshtein.ChainIsLongEnough` | crates/config/src/levenshtein.rs:26-40 | Lower bound: every chain of single edits has at least as many steps as the distance |
| `Levenshtein.ShortestChain` | crates/config/src/levenshtein.rs:26-40 | Achievability: builds a chain of single edits with exactly that many steps |
| `Levenshtein.ZeroIffEqual` | crates/config/src/levenshtein.rs:14-41 | Zero exactly on equal strings |
| `Levenshtein.Symmetric` | crates/config/src/levenshtein.rs:14-41 | Symmetry |
| `Levenshtein.TriangleInequality` | crates/config/src/levenshtein.rs:14-41 | The triangle inequality |
| `Levenshtein.LengthBounds` | crates/config/src/levenshtein.rs:14-24 | At least the difference of the lengths, at most the longer length |
| `Levenshtein.ClosestMatch` | crates/config/src/levenshtein.rs:53-69 | Returns the first of the nearest candidates, ignoring ASCII case, exactly when it is one or two edits away and that is less than half the input's length; otherwise nothing |
| `Levenshtein.PlausibleMeans` | crates/config/src/levenshtein.rs:53-69 | A candidate is worth a suggestion exactly when it is one edit away from an input of at least four characters or two edits from one of at least six |
| `Levenshtein.SuggestionIsNeverTheInput` | crates/config/src/levenshtein.rs:53-69 | A suggestion is never the input itself |
| `SeverityMatching.OverflowingSeverities` | crates/cli/src/baseline.rs:1871-1891 | The in-place greedy pass, for any number of severities, raises flag k exactly when severity k finds too few free slots of its own or a worse severity |
| `SeverityMatching.TakeLowestInPlace` | crates/cli/src/baseline.rs:1879-1887 | The inner loop takes slots from the lowest severity upwards and leaves the others alone |
| `SeverityMatching.TakeLowestEffect` | crates/cli/src/baseline.rs:1879-1887 | A slot left over at a severity protects every slot above it, and exactly the requested number of slots is used |
| `SeverityMatching.GreedyIsAssignment` | crates/cli/src/baseline.rs:1871-1891 | What the greedy pass matches is an assignment: no slot twice, none of a lower severity, no more findings than there are |
| `SeverityMatching.CutBound` | crates/cli/src/baseline.rs:1871-1891 | Any assignment at all matches at most the findings below a cut plus the slots from the cut on |
| `SeverityMatching.GreedyIsMaximal` | crates/cli/src/baseline.rs:1871-1891 | No assignment matches more findings than the greedy pass |
| `SeverityMatching.UnmatchedIsLargestExcess` | crates/cli/src/baseline.rs:1871-1891 | The number left unmatched is the largest excess of a suffix of the current counts over the same suffix of the baseline, or zero |
| `SeverityMatching.NoOverflowIffDominated` | crates/cli/src/baseline.rs:1871-1891 | No flag is raised exactly when the baseline dominates every suffix sum |
| `SeverityMatching.FlagMeansNoRoom` | crates/cli/src/baseline.rs:1871-1891 | Flag k is raised exactly when no assignment of the first k + 1 severities holds all findings of severity k on top of a largest one of those below |
| `HealthBaseline.KeysAreDistinct` | crates/cli/src/baseline.rs:1690-1720 | Different categories have different keys |
| `HealthBaseline.HealthFindingCounts` | crates/cli/src/baseline.rs:1804-1820 | Counts, per file and category, exactly the findings of that file in that category, and lists exactly the files with findings |
| `HealthBaseline.CountFinding` | crates/cli/src/baseline.rs:1804-1840 | One finding adds one to each category it exceeds in its severity, and changes no other count |
| `HealthBaseline.BucketsOfThresholds` | crates/cli/src/health_types/scores.rs:394-442 | A finding built from the three thresholds it exceeds counts as complexity exactly if one of the two complexity thresholds is among them, and as CRAP exactly if that one is, at its own severity |
| `HealthBaseline.UncountedDimensionIsKept` | crates/cli/src/baseline.rs:1989-2016 | A count baseline without CRAP counts for a file keeps every finding of the file that exceeds the CRAP threshold, and the same for complexity |
| `HealthBaseline.NoRoomIsKept` | crates/cli/src/baseline.rs:1871-1891 | A finding is kept when its file has no slots of one of its dimensions at its severity or a worse one |
| `HealthBaseline.OneSlotCoversMilder` | crates/cli/src/baseline.rs:1871-1891 | One slot accounts for a lone finding of its severity or a milder one and for no worse one, in the order moderate, high, critical |
| `HealthBaseline.LegacyKeyTells` | crates/cli/src/baseline.rs:1795-1802 | The older key tells path, name and line, as long as names hold no colon |
| `HealthBaseline.FileOverflowCategories` | crates/cli/src/baseline.rs:1893-1931 | The keys collected for one file are exactly those of its overflowing categories |
| `HealthBaseline.HealthOverflowCategories` | crates/cli/src/baseline.rs:1893-1931 | A file's category is listed exactly when the file has findings and the category overflows |
| `HealthBaseline.FilterNewHealthFindings` | crates/cli/src/baseline.rs:1989-2016 | Keeps exactly the findings the baseline cannot account for, in order, in both baseline formats |
| `HealthBaseline.SilentIffFits` | crates/cli/src/baseline.rs:1989-2016 | With a count baseline the filter drops everything exactly when, per file and dimension, the current severities are suffix-dominated by the baseline's |
| `HealthBaseline.OwnBaselineIsSilent` | crates/cli/src/baseline.rs:1729-1751 | A baseline saved from a run drops every finding of any run obtained by reordering, shifting lines, lowering severities and deleting findings |
| `HealthBaseline.UnbaselinedFileIsKept` | crates/cli/src/baseline.rs:1893-1931 | A non-empty count baseline that does not mention a file keeps all its findings |
| `HealthBaseline.FromFindings` | crates/cli/src/baseline.rs:1729-1751 | The baseline written for a run holds its counts and no keys of the older format |
| `DuplicationStats.RecomputeStats` | crates/cli/src/baseline.rs:1608-1644 | duplicated_lines is the number of (file, line) pairs some instance covers; files, instances, tokens and groups are those of the groups; the percentage follows |
| `DuplicationStats.FewerGroupsFewerDuplicates` | crates/cli/src/baseline.rs:1580-1606 | Dropping any groups raises none of the numbers |
| `DuplicationStats.GroupOrderIsIrrelevant` | crates/cli/src/baseline.rs:1608-1644 | Reordering the groups changes nothing |
| `DuplicationStats.InstanceOrderIsIrrelevant` | crates/cli/src/baseline.rs:1608-1644 | Reordering the instances inside the groups changes nothing |
| `DuplicationStats.AtMostHundredPercent` | crates/cli/src/baseline.rs:1632-1641 | When every instance lies inside its file the percentage is between 0 and 100 |
| `DuplicationStats.PercentageIsShare` | crates/cli/src/baseline.rs:1632-1641 | The percentage is a hundred times the share of duplicated lines: a hundred exactly when every line is duplicated, zero without lines |
| `DuplicationStats.EveryInstanceCounts` | crates/cli/src/baseline.rs:1614-1627 | Every instance counts once, with the tokens of its group |
| `CloneBaseline.FilterNewCloneGroups` | crates/cli/src/baseline.rs:1580-1606 | Keeps exactly the groups whose key is not in the baseline, in order, and recomputes the statistics from them |
| `CloneBaseline.PartIsInjective` | crates/cli/src/baseline.rs:1562-1578 | The `file:start-end` text of an instance determines the instance, whatever the file is called |
| `CloneBaseline.SameKeyHidesPart` | crates/cli/src/baseline.rs:1562-1578 | For all groups: two groups with different instances share a key only if a file name of one of them begins with the `file:start-end` text of an instance of the other and a bar |
| `CloneBaseline.KeysTellInstances` | crates/cli/src/baseline.rs:1562-1578 | Unless a file name begins so, two groups have the same key exactly when they have the same instances in some order |
| `CloneBaseline.KeyIgnoresOrder` | crates/cli/src/baseline.rs:1562-1578 | The order of the instances never changes the key |
| `CloneBaseline.NameWithPartCollides` | crates/cli/src/baseline.rs:1562-1578 | Every file name that begins with the text of an instance and a bar is in a group of two instances that shares its key with a different group of two |
| `CloneBaseline.OwnBaselineDropsAll` | crates/cli/src/baseline.rs:1551-1560 | A baseline saved from a report drops every group that the report had, in any order |
| `CloneBaseline.FilteringNeverRaises` | crates/cli/src/baseline.rs:1580-1606 | Filtering against any baseline raises none of the statistics |
| `SortedKeys.AscendingIsCanonical` | crates/cli/src/baseline.rs:1576-1577 | A multiset of strings has one ascending arrangement, which makes the sorted key canonical |
| `Markers.MarkerRoundTripIff` | crates/cli/src/ci.rs:1324-1371 | The marker read back from a posted reply is the key it was printed with exactly when the key survives: it holds no white space, no `<`, no marker text, and does not start with a dash |
| `Markers.KeySurvivesIff` | crates/cli/src/ci.rs:1352-1357 | With a commit id, the key survives exactly when the fingerprint has no white space or `<`, does not start with a dash, and does not contain the marker |
| `Markers.ResolvedKeysAgreeIff` | crates/cli/src/ci.rs:1352-1357 | With commit ids of at least seven digits two keys agree exactly when the fingerprints and those seven digits do; with a shorter id or none the key is the fingerprint |
| `Markers.UnreadableIsReadAsNeither` | crates/cli/src/ci.rs:1324-1341 | When the key does not survive, what is read back from the reply is neither the key nor the fingerprint |
| `Markers.ReceivedSurvivesIffSafe` | crates/cli/src/ci.rs:329-346 | For a fingerprint read from a comment, the only kind staged, the key survives exactly when the fingerprint does not contain the resolved marker and does not start with a dash, nor end with one when there is no commit id |
| `Markers.PrintedCommentIsRead` | crates/cli/src/ci.rs:1343-1350 | A comment that prints a plain fingerprint is read as carrying it |
| `Markers.PrintedVersionedIsRead` | crates/cli/src/ci.rs:1343-1350 | So is one that prints the versioned marker, even when the fingerprint has the plain marker in it |
| `Markers.UnsafeIsReceived` | crates/cli/src/ci.rs:1343-1350 | A comment from which a fingerprint is read that is not safe |
| `Markers.MarkedIsReceived` | crates/cli/src/ci.rs:1343-1350 | A comment from which a safe fingerprint is read that has the fingerprint marker in it |
| `Markers.ReplyCarriesNew` | crates/cli/src/ci.rs:1324-1371 | With any commit id or none, the reply to that fingerprint is read as a comment with a fingerprint of its own |
| `Markers.ReplyHasNoFingerprint` | crates/cli/src/ci.rs:1343-1350 | A reply is never read as a finding's comment, unless its key contains the fingerprint marker |
| `ReconcilePlans.ReconcileSets` | crates/cli/src/ci.rs:232-240 | Lists both sets, what is new and what is stale, each sorted and without repetition |
| `ReconcilePlans.PlanIsPartition` | crates/cli/src/ci.rs:232-240 | New and shared fingerprints make up the current ones, stale and shared ones the existing ones, disjointly |
| `ReconcilePlans.SecondRunIsQuiet` | crates/cli/src/ci.rs:570-609 | Plan, stage and apply without a failure, then plan again on the same findings: GitHub stages nothing, GitLab no notes |
| `Reconcile.ProviderState.CollectComment` | crates/cli/src/ci.rs:329-346 | Collecting one review comment extends the maps and sets by exactly what the comment carries and marks; a marker counts only from a bot |
| `Reconcile.CollectThread` | crates/cli/src/ci.rs:432-459 | Collecting a thread adds exactly its comments |
| `Reconcile.LoadGithub` | crates/cli/src/ci.rs:299-354 | The loaded state describes exactly the listed comments and the comments of the unresolved threads |
| `Reconcile.LoadGitlab` | crates/cli/src/ci.rs:737-807 | The same for GitLab's discussions |
| `Reconcile.StageGithubFingerprint` | crates/cli/src/ci.rs:570-609 | Unless a bot's marker is posted, the replies answer exactly the listed comments whose text holds the fingerprint, each by its own id and in their order; then exactly the open threads with such a comment are resolved |
| `Reconcile.StageGitlabFingerprint` | crates/cli/src/ci.rs:927-958 | Exactly the listed discussions with such a note are resolved, and unless a bot's marker is posted each gets its note just before that |
| `Reconcile.StageOperations` | crates/cli/src/ci.rs:570-609 | The operations of all stale fingerprints, one after the other |
| `ReconcileTargets.StagedTargets` | crates/cli/src/ci.rs:570-609 | Over all stale fingerprints: the replies for each of them answer exactly its comments in order, and the resolutions concern exactly its threads |
| `ReconcileTargets.EveryCarrierIsAnswered` | crates/cli/src/ci.rs:680-702 | After a run without a failure every listed comment with an unmarked stale fingerprint has its reply in its own thread |
| `ReconcileTargets.OnlyCarriersAreAnswered` | crates/cli/src/ci.rs:680-702 | Wherever a run fails, each comment it has added is the reply to such a comment, in that comment's thread |
| `ReconcileTargets.CountedRepliesArePosted` | crates/cli/src/ci.rs:700-704 | The counter of posted comments is the number of comments the run has added |
| `ReconcileTargets.ThreadsResolvedByRun` | crates/cli/src/ci.rs:570-609 | A run without a failure resolves exactly the threads with a stale fingerprint, on GitHub the open ones |
| `Reconcile.ApplyResult.RecordFailure` | crates/cli/src/ci.rs:273-281 | Records one error, the failed fingerprint and the unapplied ones |
| `Reconcile.RunOperations` | crates/cli/src/ci.rs:513-541 | A run that fails at operation k has applied operations 0..k-1, once each and in order, and nothing else but operation k itself if its failed request had reached the provider; the counters are those of the prefix, and the fingerprints from k on are reported unapplied |
| `Reconcile.AppliedIff` | crates/cli/src/ci.rs:520-541 | An operation reached the provider exactly when every request before it succeeded and its own succeeded, or failed after it had arrived |
| `Reconcile.UnappliedIsReported` | crates/cli/src/ci.rs:870-898 | A staged fingerprint absent from the unapplied set has had all its operations applied |
| `ReconcileRuns.RepliesStaged` | crates/cli/src/ci.rs:570-609 | The number of replies staged for a fingerprint: none if it is not stale or already resolved, else one per comment carrying it |
| `ReconcileRuns.PostedReplyIsSeen` | crates/cli/src/ci.rs:577-594 | After a reply with a readable key has been posted, the next load sees its marker |
| `ReconcileRuns.RepliesAreBounded` | crates/cli/src/ci.rs:577-609 | Over any number of runs on one commit, each failing anywhere, with comments added in between, the replies for a safe fingerprint never outnumber the comments carrying it |
| `ReconcileRuns.RepliesStopIffSafe` | crates/cli/src/ci.rs:577-594 | Once a run has replied to a fingerprint that a comment carries, any later run stages no reply for it exactly when the fingerprint is safe |
| `ReconcileRuns.UnreadableKeyRepeats` | crates/cli/src/ci.rs:1352-1371 | When the key does not survive, the next run stages every reply again |
| `ReconcileRuns.EveryRunRepeats` | crates/cli/src/ci.rs:577-594 | And so does every later run, however many there were |
| `ReconcileRuns.UnsafeCommentRepeats` | crates/cli/src/ci.rs:570-609 | For every n, builds n runs in a row from the server with that one comment: it gets a reply in each of them |
| `ReconcileRuns.ReadReplyIsRepliedTo` | crates/cli/src/ci.rs:570-609 | When the reply to a fingerprint is read as a comment with a fingerprint of its own, the next run stages a reply to that one |
| `ReconcileRuns.MarkedReplyIsRepliedTo` | crates/cli/src/ci.rs:570-609 | A comment with both marker versions: its fingerprint is safe, and the run after the reply to it replies to that reply |
| `ReconcileRuns.NothingLeftToStage` | crates/cli/src/ci.rs:570-609 | After one failure-free run on stale fingerprints that are safe and hold no fingerprint marker, any later staging for the same findings is empty on GitHub and holds no notes on GitLab |
| `BatchReader.BlobHeader` | crates/cli/src/audit.rs:1005-1016 | An object's header line is never taken for a missing line and parses to the content's size |
| `BatchReader.MissingLine` | crates/cli/src/audit.rs:1002-1010 | A missing line is recognised, whatever the request was |
| `BatchReader.HeaderOfResponse` | crates/cli/src/audit.rs:1000-1023 | What is left after the first line is exactly the content and its line break, or nothing |
| `BatchReader.BaseFileReader.Read` | crates/cli/src/audit.rs:991-1023 | A read returns the object's bytes, or None for a missing one, and leaves the reader in sync, for contents with any bytes |
| `BatchReader.ReadAll` | crates/cli/src/audit.rs:991-1023 | The k-th read of any sequence returns the k-th file's base version |
| `BatchReader.CanReuseCurrentAsBase` | crates/cli/src/audit.rs:886-935 | The current keys are reused exactly when every changed file is harmless: a cache artifact, a document that is no analysis input, or a source file equal to its base version up to the token comparison |
| `ReuseExact.ReuseIsSound` | crates/cli/src/audit.rs:886-935 | If every changed file is harmless, no analysis that ignores artifacts and documents and cannot tell equivalent inputs apart tells the working tree from the base tree |
| `ReuseExact.RefusalIsNeeded` | crates/cli/src/audit.rs:886-935 | If a really changed file is not harmless, such an analysis exists that tells the two trees apart |
| `ReuseExact.SkippedPassGivesTheTrueVerdict` | crates/cli/src/audit.rs:868-884 | Where the base pass is skipped, the current keys are the base's keys, and verdict and attribution are those against the base |
| `ReuseExact.PartsAreJoinedBySlashes` | crates/cli/src/audit.rs:991-1000 | A path is asked for with forward slashes, however its parts were separated |
| `AuditKeys.DuplicateExportKeyIsStable` | crates/cli/src/audit_keys.rs:235-260 | The key of a duplicate export depends on the name and the set of locations only, not on their order or repetition |
| `AuditKeys.FileKeyTells` | crates/cli/src/audit_keys.rs:7-16 | The key of an unused file tells its path, and is the key of no unused or duplicate export |
| `AuditKeys.ExportKeyTells` | crates/cli/src/audit_keys.rs:36-45 | The key of an export tells its path and its name, as long as names hold no colon |
| `AuditKeys.ColonInNameCollides` | crates/cli/src/audit_keys.rs:36-45 | Every name with a colon in it shares its key with another export |
| `AuditKeys.DuplicateExportKeyTells` | crates/cli/src/audit_keys.rs:246-260 | The key of a duplicate export tells the name and the set of locations, as long as names hold no colon and paths no bar |
| `AuditKeys.DeadCodeKeys` | crates/cli/src/audit_keys.rs:401-540 | The collected keys are exactly those of the findings |
| `AuditKeys.AnalysisResults.RetainFastPaths` | crates/cli/src/audit_keys.rs:1263-1290 | The direct base lookup narrows its two collections to the findings whose key is not in the base |
| `AuditKeys.AnalysisResults.RetainIntroduced` | crates/cli/src/audit_keys.rs:1084-1250 | Retaining in place keeps exactly the findings whose key is not in the base, in every collection, whichever of the two routes it takes; without a base it keeps all |
| `AuditKeys.IntroducedKeys` | crates/cli/src/audit_keys.rs:1252-1261 | The keys of what is retained are exactly the keys the base does not have |
| `AuditKeys.RetainIsIdempotent` | crates/cli/src/audit_keys.rs:1084-1250 | Retaining twice is retaining once |
| `AuditKeys.AnnotateIssueArray` | crates/cli/src/audit_keys.rs:1296-1308 | Sets `introduced` on the objects, position by position, as far as both sequences go, and nothing else |
| `AuditKeys.FormatDuplicateExport` | crates/cli/src/audit_keys.rs:1466-1482 | The annotator's own formatting of a duplicate export gives the key the collector gives |
| `AuditKeys.AnnotateEach` | crates/cli/src/audit_keys.rs:1296-1308 | Every array gets the flags of its collection, and no other array changes |
| `AuditKeys.Report.Annotate` | crates/cli/src/audit_keys.rs:1310-1328 | In all kinds of collection, the flag of every reported finding is true exactly when the finding is among those that the base filter keeps |
| `AuditKeys.AnnotateAndRetain` | crates/cli/src/audit_keys.rs:1084-1101 | Every flag says whether its finding is left in the copy that RetainIntroduced has narrowed in place |
| `AuditKeys.CountIntroduced` | crates/cli/src/audit.rs:492-503 | Counts the keys outside and inside the base, which add up to all keys; zero and zero without a base |
| `AuditKeys.IntroducedCountIsRetained` | crates/cli/src/audit.rs:492-503 | The keys counted as introduced are exactly the keys of the retained findings |
| `AuditGate.NoBaseIsFullVerdict` | crates/cli/src/audit.rs:389-420 | With no base, or an empty one, the new-only verdict is the full verdict |
| `AuditGate.FullVerdictMeans` | crates/cli/src/audit.rs:279-322 | Fail exactly if some dead-code finding is an error, there is a health finding, or there are clone groups over the threshold; Pass exactly if nothing was found at all; otherwise Warn |
| `AuditGate.IntroducedVerdictMeans` | crates/cli/src/audit.rs:389-468 | The same over exactly the findings and groups whose key the base does not have |
| `AuditGate.PassIffNothingIntroduced` | crates/cli/src/audit.rs:345-387 | The new-only verdict is Pass exactly when the attribution counts nothing as introduced, and every key is counted once |
| `AuditGate.LargerBaseKeepsFewer` | crates/cli/src/audit.rs:422-437 | A larger base leaves no more issues, and no error that a smaller one does not |
| `AuditGate.VerdictIsAntitone` | crates/cli/src/audit.rs:389-468 | Under Pass < Warn < Fail, a larger base never makes the verdict worse |
| `AuditGate.AllKnownIsPass` | crates/cli/src/audit.rs:389-468 | If the base has every current key the verdict is Pass |
| `AuditGate.CurrentKeysStandInForBase` | crates/cli/src/audit.rs:868-884 | When every current key is in the true base, using the current keys as base gives the same verdict and the same attribution |
| `AuditGate.EverySourceGivesTheTrueVerdict` | crates/cli/src/audit.rs:1397-1436 | Given true snapshots from the cache and from a fresh worktree, and current keys only when all are in the base, the verdict and attribution are those of the true base; it fails only when the fresh worktree was needed and failed |
| `SortedKeys.SortKeys` | crates/cli/src/audit.rs:505-509 | In whatever order the set is walked, the result is its one strictly sorted listing |
| `SortedKeys.BelowMeans` | crates/cli/src/audit.rs:505-509 | The order goes by the first difference, and a proper prefix comes first |
| `SortedKeys.SortedIsCanonical` | crates/cli/src/audit.rs:505-509 | Two strictly sorted listings of one set are equal |
| `SnapshotCache.Cache.Save` | crates/cli/src/audit.rs:573-590 | A save that succeeds replaces its slot by the record of the snapshot; one that fails at any stage changes nothing; the directory stays the outcome of its history |
| `SnapshotCache.Cache.Load` | crates/cli/src/audit.rs:553-571 | Whatever has happened to the directory, returns exactly the snapshot last saved in the key's slot, if this release saved it for this very commit and it fits the cap, and otherwise nothing |
| `SnapshotCache.LoadReturnsTheLastSaved` | crates/cli/src/audit.rs:553-590 | After any sequence of saves by any releases, removals and corruptions, a load returns exactly the snapshot last saved in that slot, if it was saved by this release for this very commit and fits the cap, and otherwise nothing; hash collisions included |
| `SnapshotCache.LoadedIffSaved` | crates/cli/src/audit.rs:553-590 | A load returns a snapshot exactly when this release has saved it for this very commit, it fits the cap, and nothing has happened to the slot since |
| `SnapshotCache.SavedIsLoaded` | crates/cli/src/audit.rs:511-532 | Saving and loading gives the same sets back |
| `SnapshotCache.GateAgreesWithTheBaseRun` | crates/cli/src/audit.rs:1397-1436 | If this release saved only snapshots of the runs they are filed under, after any history of the cache and from whichever source, verdict and attribution are those against the run on the base commit |
| `Jsonc.StripJsoncComments` | scripts/public-config-corpus.py:567-621 | The scanner's output is the text with comments blanked, and its list holds every comment with its line: one more than the line breaks before it |
| `Jsonc.CommentsKeepPositions` | scripts/public-config-corpus.py:567-621 | For any text: same length, same line breaks, and a character stays or becomes a space |
| `Jsonc.CommentStrippingIsIdempotent` | scripts/public-config-corpus.py:567-621 | For any text: stripping comments twice is stripping them once |
| `JsoncTokens.StripJsoncTrailingCommas` | scripts/public-config-corpus.py:624-656 | The scanner blanks exactly the commas outside strings that only white space separates from a closer |
| `JsoncTokens.CommasKeepPositions` | scripts/public-config-corpus.py:624-656 | Same length, and only commas change, into spaces |
| `JsoncTokens.CommaGoesIff` | scripts/public-config-corpus.py:624-656 | For any text and position: the character changes exactly when it is a comma outside string literals that only white space separates from a `]` or `}` behind it |
| `JsoncTokens.CommaStrippingIsIdempotentIff` | scripts/public-config-corpus.py:624-656 | Stripping trailing commas twice is stripping them once exactly when no trailing comma has another comma right before it, white space apart |
| `JsoncTokens.TwoCommasNeedTwoPasses` | scripts/public-config-corpus.py:624-656 | The smallest text that needs two passes |
| `JsoncTokens.CommentsBecomeGaps` | scripts/public-config-corpus.py:567-621 | On a printed token sequence, comment stripping turns the comments into white space and leaves every token as it is, string literals that look like comments included |
| `JsoncTokens.TrailingCommasBecomeGaps` | scripts/public-config-corpus.py:624-656 | On a printed token sequence, comma stripping turns the commas before a closer into white space and leaves the rest |
| `JsoncTokens.PrintedTextLexes` | scripts/public-config-corpus.py:567-656 | An independent reader reads a printed token sequence back as its tokens |
| `JsoncTokens.StrippedTextHasTheSameTokens` | scripts/public-config-corpus.py:567-656 | However a token sequence is printed, with any white space, comments and trailing commas, the stripped text reads as the same tokens without those commas |
| `JsoncTokens.OnlyTrailingCommasGo` | scripts/public-config-corpus.py:642-656 | Every token but a comma before `]` or `}` is still there, in its place among the others, and nothing else is |
| `JsoncTokens.TrailingCommaLeftIff` | scripts/public-config-corpus.py:642-656 | A trailing comma is left exactly when two commas stood before a closer |
| `JsoncTokens.StrippedTextIsClean` | scripts/public-config-corpus.py:567-656 | Otherwise the stripped text reads as tokens without any trailing comma |
| `JsoncTokens.StringBodyIsBody` | scripts/public-config-corpus.py:573-588 | The scanners' reading of a string literal is the grammar's: plain characters and pairs of a backslash and any character |
| `JsoncNotes.CommentsAreTheNotes` | scripts/public-config-corpus.py:592-620 | The recorded comments of a printed text are its comments in order, each with the line it starts on, trimmed or as words |
| `JsoncNotes.UnclosedCommentBlanksTheRest` | scripts/public-config-corpus.py:599-615 | A block comment that is never closed blanks everything up to the end |
| `CodeOwners.Parse` | crates/cli/src/codeowners.rs:117-201 | Keeps the arrays aligned, one entry per effective rule in file order, each with the section and default owners of the nearest header above it; stops at the first pattern that is no valid glob |
| `CodeOwners.LookupsFollowTheFile` | crates/cli/src/codeowners.rs:208-313 | For every path all six lookups say what reading the file from the bottom says, stopping at the first effective rule that matches: a negation takes ownership away, and counts zero owners |
| `CodeOwners.CodeOwners.LastMatch` | crates/cli/src/codeowners.rs:208-217 | The position found is that of a matching glob after which none matches |
| `CodeOwners.HasSectionsIffHeader` | crates/cli/src/codeowners.rs:319-321 | The flag says whether the file has a section header |
| `CodeOwners.HeaderIffForm` | crates/cli/src/codeowners.rs:339-366 | A line is read as a section header with a name exactly when it has the form `^[name][digits] owners`, caret, count and owners optional |
| `CodeOwners.HeaderIsRead` | crates/cli/src/codeowners.rs:339-366 | A text of that form gives its name and its owners |
| `CodeOwners.RuleIsRead` | crates/cli/src/codeowners.rs:144-159 | A printed rule is read back with its pattern and owners, unless its first character opens a comment or a negation or the line is a header |
| `CodeOwners.AnchorMattersIffNoSlash` | crates/cli/src/codeowners.rs:375-393 | A leading slash changes the glob of exactly the patterns that contain no slash |
| `OwnerRules.PrintedLinesAreRead` | crates/cli/src/codeowners.rs:117-131 | A printed file is split into its lines, with either kind of line break and with or without a last one |
| `OwnerRules.CommentIsBlank` | crates/cli/src/codeowners.rs:131-135 | Comment lines and white space say nothing |
| `OwnerRules.HeaderOwnersAreRead` | crates/cli/src/codeowners.rs:339-366 | A printed header is read with exactly the owners it names |
| `OwnerRules.GlobsOfPatterns` | crates/cli/src/codeowners.rs:375-393 | Anchored patterns start at the root, a trailing slash means everything below, and only a name without a slash matches anywhere |
| `OwnerRules.NearestHeaderCounts` | crates/cli/src/codeowners.rs:137-142 | The section of a rule is the nearest header above it |
| `OwnerRules.OwnerlessRuleIsIgnored` | crates/cli/src/codeowners.rs:155-172 | A rule without owners where its section has none changes nothing |
| `OwnerRules.LastRuleDecides` | crates/cli/src/codeowners.rs:155-187 | The last matching rule decides: a negation leaves the path unowned, named owners win over those of the section, and without them the section's owners hold |
| `OwnerRules.FirstInvalidGlob` | crates/cli/src/codeowners.rs:174-176 | Parsing fails at the first entry whose glob is not valid, and only then |
| `Redaction.RedactBearerTokens` | crates/cli/src/api.rs:352-377 | The cursor loop computes the plain reading: every token right after `Bearer ` becomes three stars |
| `Redaction.RedactPrivateTokens` | crates/cli/src/api.rs:379-415 | The same for the PRIVATE-TOKEN header with its colon and blanks, in any case |
| `Redaction.FindAsciiCaseInsensitive` | crates/cli/src/api.rs:417-430 | The first occurrence at or after a position, ignoring ASCII case |
| `Redaction.SanitizeNetworkError` | crates/cli/src/api.rs:347-350 | Masks the first kind and then the second |
| `Redaction.NoSecretInOutput` | crates/cli/src/api.rs:352-415 | After masking one kind, no position of the output starts a header of that kind followed by a token |
| `Redaction.RedactUncoversNothing` | crates/cli/src/api.rs:347-350 | Masking one kind uncovers none of the other |
| `Redaction.SanitizeLeavesNoSecret` | crates/cli/src/api.rs:347-350 | The output holds no credential of either kind, and sanitizing it again changes nothing |
| `Redaction.RedactReplacesOnlySecrets` | crates/cli/src/api.rs:352-415 | The text splits into kept and secret pieces, each secret the whole maximal token run after a kept header; the output is the same pieces with the secrets replaced |
| `SecretShapes.TokenAlphabet` | crates/cli/src/api.rs:432-434 | Tokens are made of the ASCII letters and digits and of `_`, `.`, `-` and `=` |
| `SecretShapes.FoldingMeans` | crates/cli/src/api.rs:417-430 | Folding maps every capital to its small letter and leaves the rest alone |
| `SecretShapes.BearerIsMasked` | crates/cli/src/api.rs:352-377 | A bearer token is replaced as a whole by three stars, and nothing but it |
| `SecretShapes.PrivateTokenIsMasked` | crates/cli/src/api.rs:379-415 | So is a private token, whatever the case of its header and the blanks around the colon |
| `SecretShapes.SanitizedTextShowsNoToken` | crates/cli/src/api.rs:347-350 | Nowhere in the sanitized text does a character of a token follow either header |

## Left out

- Network, environment variables, pagination, retries, subprocess plumbing, JSON output and the terminal: input and output. Outcomes of such calls are parameters.
- The analysis engine, the tokenizer, severity rules and the glob library: not part of this model. They appear as parameters, as an `error` flag on a finding, or as an abstract predicate.
- `ReusableWorktrees.ReuseReturnsCheckedOut`: nothing protects a reusable worktree after reuse_or_create has returned; the lock is gone by then, and the model claims nothing beyond the return.
- `ReusableWorktrees.EveryEventKeepsInv`: each git command is one atomic step, a successful `git worktree add` means HEAD is the requested commit, the reaper deletes directories but no `.lock` files, and materializing dependency links is not modelled.
- `ReusableWorktrees.SweepRemovesOnlyOldCaches`: the age is the one read before the lock was taken, as in the code; a use in between is not seen.
- `TransientWorktrees.WorktreeInUseExists`: no outside reaper of transient directories is modelled, and `git worktree add` is one step.
- `TransientWorktrees.RemovedByOwnerOrAfterItsDeath`: the liveness check of a pid is taken as exact, and two transient names made by one process are different because their nanoseconds are.
- `TransientWorktrees.SweepCleansLeftovers`: needs the pid to be dead when the sweep checks that name; a pid that has a new process by then delays the clean-up to a later sweep.
- `WorktreeNames.CacheNameIsReusable`: whether a path lies in the temporary directory is not modelled, only its last component.
- `HealthBaseline.FilterNewHealthFindings`: paths are already relative to the root; counts are unbounded integers. The overlap count, runtime-coverage and refactoring-target baselines would only add easy members.
- `CloneBaseline.FilterNewCloneGroups`: clone families and mirrored directories are not rebuilt; the percentage is a real number, not a double.
- `Reconcile.LoadGithub`: comments and threads arrive as complete lists, every comment with an id; a thread's comments beyond the first page are not modelled, and a comment's author is a flag.
- `Reconcile.RunOperations`: one loop stands for the two providers' loops, which differ only in the requests they send. A failed preflight is a run that applies nothing.
- `ReconcileRuns.RepliesAreBounded`: comments are not deleted or edited between runs, replies are posted by a recognised bot, and commit ids are hexadecimal.
- `ReconcileRuns.NothingLeftToStage`: a fingerprint that holds the fingerprint marker itself, which only a comment with both marker versions can carry, is excluded: its reply is read as a new fingerprint and replied to in turn (`ReconcileRuns.MarkedReplyIsRepliedTo`). One posted marker suppresses all further replies for its commit, so not every stale comment gets a reply; GitLab resolves discussions again on every run.
- `BatchReader.BaseFileReader.Read`: bytes are characters; invalid UTF-8 is not replaced, and the child process answers every request.
- `BatchReader.CanReuseCurrentAsBase`: the token comparison is a parameter. That equivalent tokens give equal findings is a hypothesis of `ReuseExact.ReuseIsSound`; the repository documents gaps for template and regular-expression literals.
- `AuditKeys.DeadCodeKeys`: of some forty finding collections three have their own key format, the others are any number of collections known by their keys; nested annotations such as cycles are not modelled, and `unused_load_data_keys` has no annotation in the code.
- `SnapshotCache.GateAgreesWithTheBaseRun`: that the analysis of a base commit is one run, the same whenever it is done, and that a skipped base pass has every current key in it, are hypotheses.
- `SnapshotCache.LoadReturnsTheLastSaved`: the encoding is a record with a length; that decoding inverts encoding is built in, and the slot is the hash rather than its file name.
- `JsoncTokens.StrippedTextHasTheSameTokens`: tokens are punctuation, words and string literals with their escapes as written; numbers and keywords are not told apart.
- `CodeOwners.Parse`: the text of error messages is reduced to the offending pattern, and the places where the file is looked for are not modelled.
