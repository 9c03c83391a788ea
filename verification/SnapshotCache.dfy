/** The checked on-disk cache of base snapshots (crates/cli/src/audit.rs).

    A file stands for its length and the record it decodes to, if it decodes;
    the length of an encoding is a parameter. */
module SnapshotCache {
  import opened Wrappers
  import opened AuditGate
  import opened SortedKeys

  const CACHE_VERSION: nat := 2
  const MAX_SIZE: nat := 16 * 1024 * 1024

  // ----- Saving and loading

  datatype Key = Key(hash: nat, baseSha: string)

  datatype Record = Record(version: nat, cliVersion: string, keyHash: nat, baseSha: string,
                           deadCode: seq<string>, health: seq<string>, dupes: seq<string>)

  datatype File = File(size: nat, content: Option<Record>)

  datatype SaveOutcome = NoDirectory | NoTempFile | WriteFails | PersistFails | Saved

  ghost function RecordOf(cliVersion: string, key: Key, s: Snapshot): Record {
    Record(CACHE_VERSION, cliVersion, key.hash, key.baseSha, Sorted(s.deadCode), Sorted(s.health), Sorted(s.dupes))
  }

  function Loaded(files: map<nat, File>, cliVersion: string, key: Key): Option<Snapshot> {
    if key.hash !in files then None
    else if files[key.hash].size > MAX_SIZE || files[key.hash].content.None? then None
    else
      var r := files[key.hash].content.value;
      if r.version != CACHE_VERSION || r.cliVersion != cliVersion || r.keyHash != key.hash || r.baseSha != key.baseSha
      then None
      else Some(Snapshot(Elements(r.deadCode), Elements(r.health), Elements(r.dupes)))
  }

  // ----- What a load can return after anything that happened before

  /** Saves of any release of the program, and an entry removed or overwritten
      with bytes that do not decode. */
  datatype Event =
    | Save(cliVersion: string, key: Key, snapshot: Snapshot, outcome: SaveOutcome)
    | Remove(slot: nat)
    | Corrupt(slot: nat, size: nat)

  ghost function Apply(size: Record -> nat, files: map<nat, File>, e: Event): map<nat, File> {
    match e
    case Save(cliVersion, key, snapshot, outcome) =>
      var record := RecordOf(cliVersion, key, snapshot);
      if outcome.Saved? then files[key.hash := File(size(record), Some(record))] else files
    case Remove(slot) => files - {slot}
    case Corrupt(slot, n) => files[slot := File(n, None)]
  }

  ghost function Replay(size: Record -> nat, history: seq<Event>): map<nat, File> {
    if history == [] then map[]
    else Apply(size, Replay(size, history[..|history| - 1]), history[|history| - 1])
  }

  predicate Touches(e: Event, slot: nat) {
    match e
    case Save(_, key, _, outcome) => outcome.Saved? && key.hash == slot
    case Remove(s) => s == slot
    case Corrupt(s, _) => s == slot
  }

  /** The last event that touched a slot. */
  function LastTouch(history: seq<Event>, slot: nat): Option<Event> {
    if history == [] then None
    else if Touches(history[|history| - 1], slot) then Some(history[|history| - 1])
    else LastTouch(history[..|history| - 1], slot)
  }

  predicate SavedFor(last: Option<Event>, cliVersion: string, key: Key) {
    last.Some? && last.value.Save? && last.value.cliVersion == cliVersion && last.value.key == key
  }

  /** A load returns exactly the snapshot last saved in the key's slot, as long as
      that was saved by this release, for this very commit, and is not too large;
      two commits whose keys collide never read each other's snapshot. */
  lemma {:induction false} LoadReturnsTheLastSaved(size: Record -> nat, history: seq<Event>, cliVersion: string, key: Key)
    ensures Loaded(Replay(size, history), cliVersion, key)
         == (var last := LastTouch(history, key.hash);
             if SavedFor(last, cliVersion, key)
                && size(RecordOf(cliVersion, key, last.value.snapshot)) <= MAX_SIZE
             then Some(last.value.snapshot)
             else None)
  {
    if history != [] {
      LoadReturnsTheLastSaved(size, history[..|history| - 1], cliVersion, key);
    }
  }

  /** Saving and then loading gives the same sets back. */
  lemma SavedIsLoaded(size: Record -> nat, history: seq<Event>, cliVersion: string, key: Key, s: Snapshot)
    requires size(RecordOf(cliVersion, key, s)) <= MAX_SIZE
    ensures Loaded(Replay(size, history + [Save(cliVersion, key, s, Saved)]), cliVersion, key) == Some(s)
  {
    LoadReturnsTheLastSaved(size, history + [Save(cliVersion, key, s, Saved)], cliVersion, key);
  }

  /** After event `i` the slot is neither saved to, removed nor overwritten. */
  ghost predicate UntouchedAfter(history: seq<Event>, i: nat, slot: nat) {
    forall j :: i < j < |history| ==>
      && (history[j].Save? && history[j].outcome == Saved ==> history[j].key.hash != slot)
      && (history[j].Remove? || history[j].Corrupt? ==> history[j].slot != slot)
  }

  lemma {:induction false} LastTouchIs(history: seq<Event>, slot: nat)
    ensures var last := LastTouch(history, slot);
            && (last.None? ==> forall i :: 0 <= i < |history| ==> !Touches(history[i], slot))
            && (last.Some? ==> exists i: nat :: i < |history| && history[i] == last.value && Touches(history[i], slot)
                                                && UntouchedAfter(history, i, slot))
    decreases |history|
  {
    if history != [] {
      var n := |history| - 1;
      LastTouchIs(history[..n], slot);
      if Touches(history[n], slot) {
        assert UntouchedAfter(history, n, slot);
      } else if LastTouch(history, slot).Some? {
        var i: nat :| i < n && history[..n][i] == LastTouch(history, slot).value && Touches(history[..n][i], slot)
                      && UntouchedAfter(history[..n], i, slot);
        assert forall j :: i < j < n ==> history[j] == history[..n][j];
        assert history[i] == history[..n][i] && UntouchedAfter(history, i, slot);
      }
    }
  }

  /** A load returns a snapshot exactly when this release has saved it for this very
      commit, it fits the cap, and nothing has happened to the slot since. */
  lemma LoadedIffSaved(size: Record -> nat, history: seq<Event>, cliVersion: string, key: Key, s: Snapshot)
    ensures Loaded(Replay(size, history), cliVersion, key) == Some(s)
       <==> && size(RecordOf(cliVersion, key, s)) <= MAX_SIZE
            && exists i: nat :: i < |history| && history[i] == Save(cliVersion, key, s, Saved)
                                && UntouchedAfter(history, i, key.hash)
  {
    LoadReturnsTheLastSaved(size, history, cliVersion, key);
    LastTouchIs(history, key.hash);
    hide Loaded;
    hide Replay;
    hide LastTouch;
    hide RecordOf;
    var last := LastTouch(history, key.hash);
    if i: nat :| i < |history| && history[i] == Save(cliVersion, key, s, Saved) && UntouchedAfter(history, i, key.hash) {
      assert Touches(history[i], key.hash);
      var k: nat :| k < |history| && history[k] == last.value && Touches(history[k], key.hash)
                    && UntouchedAfter(history, k, key.hash);
      assert k == i;
    }
  }

  // ----- The directory itself

  /** The cache directory, shared by every release of the program. `history` is
      everything that has happened to it. */
  class Cache {
    const size: Record -> nat
    var files: map<nat, File>
    ghost var history: seq<Event>

    ghost predicate Valid()
      reads this
    {
      files == Replay(size, history)
    }

    constructor (size: Record -> nat)
      ensures Valid() && this.size == size && history == []
    {
      this.size, files, history := size, map[], [];
    }

    /** A save writes a temporary file and then renames it over the entry. */
    method Save(cliVersion: string, key: Key, snapshot: Snapshot, outcome: SaveOutcome)
      requires Valid()
      modifies this
      ensures Valid() && history == old(history) + [Event.Save(cliVersion, key, snapshot, outcome)]
      ensures files == Apply(size, old(files), Event.Save(cliVersion, key, snapshot, outcome))
    {
      ReplayOne(size, history, Event.Save(cliVersion, key, snapshot, outcome));
      history := history + [Event.Save(cliVersion, key, snapshot, outcome)];
      if outcome.NoDirectory? {
        return;
      }
      var deadCode := SortKeys(snapshot.deadCode);
      var health := SortKeys(snapshot.health);
      var dupes := SortKeys(snapshot.dupes);
      var record := Record(CACHE_VERSION, cliVersion, key.hash, key.baseSha, deadCode, health, dupes);
      if outcome.NoTempFile? || outcome.WriteFails? || outcome.PersistFails? {
        return;
      }
      files := files[key.hash := File(size(record), Some(record))];
    }

    /** Somebody removes an entry. */
    method Remove(slot: nat)
      requires Valid()
      modifies this
      ensures Valid() && history == old(history) + [Event.Remove(slot)]
    {
      ReplayOne(size, history, Event.Remove(slot));
      history := history + [Event.Remove(slot)];
      files := files - {slot};
    }

    /** Somebody overwrites an entry with bytes that do not decode. */
    method Corrupt(slot: nat, length: nat)
      requires Valid()
      modifies this
      ensures Valid() && history == old(history) + [Event.Corrupt(slot, length)]
    {
      ReplayOne(size, history, Event.Corrupt(slot, length));
      history := history + [Event.Corrupt(slot, length)];
      files := files[slot := File(length, None)];
    }

    /** Whatever has happened to the directory, a load returns exactly the snapshot
        last saved in the key's slot, if that was saved by this release for this
        very commit and fits the cap, and otherwise nothing. */
    method Load(cliVersion: string, key: Key) returns (r: Option<Snapshot>)
      requires Valid()
      ensures var last := LastTouch(history, key.hash);
              r == if SavedFor(last, cliVersion, key) && size(RecordOf(cliVersion, key, last.value.snapshot)) <= MAX_SIZE
                   then Some(last.value.snapshot) else None
    {
      LoadReturnsTheLastSaved(size, history, cliVersion, key);
      if key.hash !in files {
        return None;
      }
      var file := files[key.hash];
      if file.size > MAX_SIZE {
        return None;
      }
      if file.content.None? {
        return None;
      }
      var record := file.content.value;
      if || record.version != CACHE_VERSION
         || record.cliVersion != cliVersion
         || record.keyHash != key.hash
         || record.baseSha != key.baseSha {
        return None;
      }
      r := Some(Snapshot(Elements(record.deadCode), Elements(record.health), Elements(record.dupes)));
    }
  }

  lemma ReplayOne(size: Record -> nat, history: seq<Event>, e: Event)
    ensures Replay(size, history + [e]) == Apply(size, Replay(size, history), e)
  {
    assert (history + [e])[..|history|] == history;
  }

  // ----- The gate with the cache

  lemma {:induction false} LastTouchHappened(history: seq<Event>, slot: nat)
    ensures LastTouch(history, slot).Some? ==> LastTouch(history, slot).value in history
  {
    if history != [] && !Touches(history[|history| - 1], slot) {
      LastTouchHappened(history[..|history| - 1], slot);
    }
  }

  /** Snapshots of one run are equal. */
  lemma SnapshotIsUnique(run: Run, s: Snapshot, t: Snapshot)
    requires IsCurrentSnapshot(run, s) && IsCurrentSnapshot(run, t)
    ensures s == t
  {
    assert s.deadCode == t.deadCode && s.health == t.health && s.dupes == t.dupes;
  }

  /** Take the base from the cache, from a fresh worktree, or from the current keys.
      If this release saved only snapshots of the runs on the bases they are filed
      under, a fresh worktree gives a snapshot of the run on this base, and the base
      pass is skipped only when that run has every current key, then verdict and
      attribution are those against the run on the base. */
  lemma GateAgreesWithTheBaseRun(size: Record -> nat, history: seq<Event>, cliVersion: string, key: Key,
                                 newOnly: bool, run: Run, own: Snapshot, rebuilt: Option<Option<Snapshot>>,
                                 baseRuns: Key -> Run, truth: Key -> Snapshot)
    requires IsCurrentSnapshot(run, own)
    requires forall k :: IsCurrentSnapshot(baseRuns(k), truth(k))
    requires forall e :: e in history && e.Save? && e.cliVersion == cliVersion ==>
               IsCurrentSnapshot(baseRuns(e.key), e.snapshot)
    requires rebuilt.Some? && rebuilt.value.Some? ==> IsCurrentSnapshot(baseRuns(key), rebuilt.value.value)
    requires Loaded(Replay(size, history), cliVersion, key).None? && rebuilt.None? ==> Larger(own, truth(key))
    ensures var r := ResolveBaseSnapshot(newOnly, Loaded(Replay(size, history), cliVersion, key), rebuilt, own);
            r.Some? ==>
              && AuditVerdict(newOnly, run, r.value.snapshot) == AuditVerdict(newOnly, run, Some(truth(key)))
              && (newOnly ==> r.value.snapshot.Some?
                              && Attribute(own, r.value.snapshot.value) == Attribute(own, truth(key)))
  {
    var cached := Loaded(Replay(size, history), cliVersion, key);
    LoadReturnsTheLastSaved(size, history, cliVersion, key);
    LastTouchHappened(history, key.hash);
    hide Loaded;
    hide Replay;
    hide LastTouch;
    if cached.Some? {
      SnapshotIsUnique(baseRuns(key), cached.value, truth(key));
    }
    if rebuilt.Some? && rebuilt.value.Some? {
      SnapshotIsUnique(baseRuns(key), rebuilt.value.value, truth(key));
    }
    EverySourceGivesTheTrueVerdict(newOnly, run, own, truth(key), cached, rebuilt);
    hide AuditVerdict;
    hide ResolveBaseSnapshot;
    hide Attribute;
    hide IsCurrentSnapshot;
  }
}
