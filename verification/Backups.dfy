/**
  The ring of backups beside the data file, and recovery from it.

  A rotation is six file operations: remove the oldest slot, four renames from the
  oldest to the newest, and a copy of the data file into slot 0. Each may fail, and
  the process may die between any two of them. Contents are numbered in the order
  in which they were published as the data file.
 */
module Backups {
  import opened Wrappers

  const BACKUP_COUNT := 5
  const BACKUP_MIN_INTERVAL_MS := 3_600_000

  /** A slot with its modification time. A copy that breaks off leaves a torn file. */
  datatype Slot =
    | Empty
    | Snapshot(version: nat, mtime: int)
    | Torn(mtime: int)

  type Ring = s: seq<Slot> | |s| == BACKUP_COUNT witness [Empty, Empty, Empty, Empty, Empty]

  predicate Occupied(slot: Slot) {
    !slot.Empty?
  }

  // ---------------------------------------------------------------- Rotation

  datatype CopyOutcome = Copied | Untouched | Broken

  /** What the file system does to one rotation: which of the removal and the renames
      fail, how the copy goes and when it ends, and after how many operations the
      process dies. */
  datatype Plan = Plan(fails: set<nat>, copy: CopyOutcome, copiedAt: int, survives: nat)

  predicate ShouldRotate(ring: Ring, now: int) {
    ring[0].Empty? || now - ring[0].mtime >= BACKUP_MIN_INTERVAL_MS
  }

  function Rename(ring: Ring, src: nat, ok: bool): Ring
    requires src < BACKUP_COUNT - 1
  {
    if Occupied(ring[src]) && ok then ring[src + 1 := ring[src]][src := Empty] else ring
  }

  function Copy(ring: Ring, plan: Plan, version: nat): Ring {
    match plan.copy
    case Copied => ring[0 := Snapshot(version, plan.copiedAt)]
    case Untouched => ring
    case Broken => ring[0 := Torn(plan.copiedAt)]
  }

  /** The k-th file operation of a rotation. */
  function Operate(ring: Ring, k: nat, plan: Plan, version: nat): Ring
    requires k <= BACKUP_COUNT
  {
    if k == 0 then (if k in plan.fails then ring else ring[BACKUP_COUNT - 1 := Empty])
    else if k < BACKUP_COUNT then Rename(ring, BACKUP_COUNT - 1 - k, k !in plan.fails)
    else Copy(ring, plan, version)
  }

  function OperateUpTo(ring: Ring, n: nat, plan: Plan, version: nat): Ring
    requires n <= BACKUP_COUNT + 1
  {
    if n == 0 then ring else Operate(OperateUpTo(ring, n - 1, plan, version), n - 1, plan, version)
  }

  function Done(plan: Plan): nat {
    if plan.survives < BACKUP_COUNT + 1 then plan.survives else BACKUP_COUNT + 1
  }

  function Rotate(ring: Ring, plan: Plan, version: nat): Ring {
    OperateUpTo(ring, Done(plan), plan, version)
  }

  // --------------------------------------------------------------- Invariant

  /** Slots run from the newest to the oldest, at least an hour apart. */
  ghost predicate NewestFirst(ring: Ring) {
    forall i, j :: 0 <= i < j < BACKUP_COUNT && Occupied(ring[i]) && Occupied(ring[j]) ==> Newer(ring[i], ring[j])
  }

  predicate Newer(a: Slot, b: Slot)
    requires Occupied(a) && Occupied(b)
  {
    && a.mtime >= b.mtime + BACKUP_MIN_INTERVAL_MS
    && (a.Snapshot? && b.Snapshot? ==> a.version > b.version)
  }

  /** Every backup is at least an hour old, and of a content published before `version`. */
  ghost predicate AllOld(ring: Ring, now: int, version: nat) {
    forall i :: 0 <= i < BACKUP_COUNT && Occupied(ring[i]) ==> IsOld(ring[i], now, version)
  }

  predicate IsOld(slot: Slot, now: int, version: nat)
    requires Occupied(slot)
  {
    slot.mtime + BACKUP_MIN_INTERVAL_MS <= now && (slot.Snapshot? ==> slot.version < version)
  }

  ghost predicate InPast(ring: Ring, now: int, version: nat) {
    forall i :: 0 <= i < BACKUP_COUNT && Occupied(ring[i]) ==>
      ring[i].mtime <= now && (ring[i].Snapshot? ==> ring[i].version <= version)
  }

  datatype State = State(ring: Ring, version: nat, now: int)

  ghost predicate RingInv(s: State) {
    && NewestFirst(s.ring)
    && InPast(s.ring, s.now, s.version)
    && (s.ring[0].Empty? ==> AllOld(s.ring, s.now, s.version + 1))
  }

  /** Before the copy, every file operation keeps the slots in order, and old. */
  lemma RenameKeepsOrder(ring: Ring, k: nat, plan: Plan, now: int, version: nat)
    requires k < BACKUP_COUNT && NewestFirst(ring) && AllOld(ring, now, version)
    ensures NewestFirst(Operate(ring, k, plan, version)) && AllOld(Operate(ring, k, plan, version), now, version)
  {
    if k > 0 {
      var src := BACKUP_COUNT - 1 - k;
      var after := Operate(ring, k, plan, version);
      if Occupied(ring[src]) && k !in plan.fails {
        forall i, j | 0 <= i < j < BACKUP_COUNT && Occupied(after[i]) && Occupied(after[j]) ensures Newer(after[i], after[j]) {
          var i', j' := if i == src + 1 then src else i, if j == src + 1 then src else j;
          assert after[i] == ring[i'] && after[j] == ring[j'] && i' < j';
        }
      }
    }
  }

  lemma {:induction false} OperationsKeepOrder(ring: Ring, n: nat, plan: Plan, now: int, version: nat)
    requires n <= BACKUP_COUNT && NewestFirst(ring) && AllOld(ring, now, version)
    ensures var after := OperateUpTo(ring, n, plan, version); NewestFirst(after) && AllOld(after, now, version)
  {
    if n > 0 {
      OperationsKeepOrder(ring, n - 1, plan, now, version);
      RenameKeepsOrder(OperateUpTo(ring, n - 1, plan, version), n - 1, plan, now, version);
    }
  }

  /** A rotation, interrupted or not, leaves a ring in order. */
  lemma RotationKeepsRing(s: State, plan: Plan, started: int)
    requires RingInv(s) && s.now <= started <= plan.copiedAt && ShouldRotate(s.ring, started)
    ensures RingInv(State(Rotate(s.ring, plan, s.version + 1), s.version + 1, plan.copiedAt))
  {
    var v := s.version + 1;
    forall i | 0 <= i < BACKUP_COUNT && Occupied(s.ring[i]) ensures IsOld(s.ring[i], started, v) {
      if Occupied(s.ring[0]) && i > 0 {
        assert Newer(s.ring[0], s.ring[i]);
      }
    }
    var n := if Done(plan) <= BACKUP_COUNT then Done(plan) else BACKUP_COUNT;
    OperationsKeepOrder(s.ring, n, plan, started, v);
    var before := OperateUpTo(s.ring, n, plan, v);
    assert Rotate(s.ring, plan, v) == if Done(plan) <= BACKUP_COUNT then before else Copy(before, plan, v);
  }

  // -------------------------------------------------------------------- Runs

  /** One save: a new content is published, and a rotation follows if the newest
      backup is old enough. */
  datatype Save = Save(at: int, plan: Plan)

  predicate InTime(s: State, save: Save) {
    s.now <= save.at <= save.plan.copiedAt
  }

  function AfterSave(s: State, save: Save): State {
    var v := s.version + 1;
    if ShouldRotate(s.ring, save.at) then State(Rotate(s.ring, save.plan, v), v, save.plan.copiedAt)
    else State(s.ring, v, save.at)
  }

  ghost predicate Legal(s: State, saves: seq<Save>)
    decreases |saves|
  {
    saves == [] || (InTime(s, saves[0]) && Legal(AfterSave(s, saves[0]), saves[1..]))
  }

  ghost function Run(s: State, saves: seq<Save>): State
    decreases |saves|
  {
    if saves == [] then s else Run(AfterSave(s, saves[0]), saves[1..])
  }

  /** Whatever fails and whenever the process dies, the occupied slots are a
      newest-first subsequence of the contents published, at least an hour apart. */
  lemma {:induction false} RingStaysInOrder(s: State, saves: seq<Save>)
    requires RingInv(s) && Legal(s, saves)
    ensures RingInv(Run(s, saves))
    decreases |saves|
  {
    if saves != [] {
      if ShouldRotate(s.ring, saves[0].at) {
        RotationKeepsRing(s, saves[0].plan, saves[0].at);
      }
      RingStaysInOrder(AfterSave(s, saves[0]), saves[1..]);
    }
  }

  /** When nothing fails, a rotation is a shift by one with the new content in front. */
  lemma SoundRotationShifts(ring: Ring, plan: Plan, version: nat)
    requires plan.fails == {} && plan.copy.Copied? && plan.survives > BACKUP_COUNT
    ensures Rotate(ring, plan, version) == [Snapshot(version, plan.copiedAt)] + ring[..BACKUP_COUNT - 1]
  {
    var r1 := OperateUpTo(ring, 1, plan, version);
    assert OperateUpTo(ring, 0, plan, version) == ring;
    var r2 := OperateUpTo(ring, 2, plan, version);
    assert r2 == Rename(r1, 3, true);
    var r3 := OperateUpTo(ring, 3, plan, version);
    assert r3 == Rename(r2, 2, true);
    var r4 := OperateUpTo(ring, 4, plan, version);
    assert r4 == Rename(r3, 1, true);
    var r5 := OperateUpTo(ring, 5, plan, version);
    assert r5 == Rename(r4, 0, true);
    assert OperateUpTo(ring, 6, plan, version) == Copy(r5, plan, version);
    assert r5 == [Empty] + ring[..BACKUP_COUNT - 1];
  }

  predicate Sound(plan: Plan) {
    plan.fails == {} && plan.copy.Copied? && plan.survives > BACKUP_COUNT
  }

  /** A save of which nothing fails backs the new content up when there is no newest
      backup, or it is an hour old, and otherwise leaves the ring alone. */
  lemma SoundSaveBacksUp(s: State, save: Save)
    requires Sound(save.plan)
    ensures AfterSave(s, save).version == s.version + 1
    ensures AfterSave(s, save).ring ==
            if s.ring[0] == Empty || s.ring[0].mtime + 3_600_000 <= save.at
            then [Snapshot(s.version + 1, save.plan.copiedAt)] + s.ring[..4]
            else s.ring
  {
    hide OperateUpTo;
    SoundRotationShifts(s.ring, save.plan, s.version + 1);
  }

  /** So after it there is a backup less than an hour old. */
  lemma SoundSaveIsCovered(s: State, save: Save)
    requires Sound(save.plan) && InTime(s, save)
    ensures var newest := AfterSave(s, save).ring[0]; newest != Empty && save.at < newest.mtime + 3_600_000
  {
    hide OperateUpTo, Rotate;
    SoundSaveBacksUp(s, save);
  }

  /** From an empty ring one save makes a usable backup of what it saved. */
  lemma FirstSaveBacksUp(s: State, save: Save)
    requires Sound(save.plan) && forall i :: 0 <= i < BACKUP_COUNT ==> s.ring[i] == Empty
    ensures Usable(AfterSave(s, save).ring[0], 0, {}) && AfterSave(s, save).ring[0].version == s.version + 1
  {
    hide OperateUpTo, Rotate;
    SoundSaveBacksUp(s, save);
  }

  /** The slot's file has been moved to the next one, among the first `n` operations. */
  predicate MovedOn(ring: Ring, plan: Plan, n: nat, i: nat)
    requires i < 4
  {
    ring[i] != Empty && 4 - i !in plan.fails && 4 - i < n
  }

  /** The slot after the first `n` operations of a rotation, whichever of them fail. */
  function Fate(ring: Ring, plan: Plan, version: nat, n: nat, j: nat): Slot
    requires j < 5
  {
    if j == 0 && n > 5 && plan.copy == Copied then Snapshot(version, plan.copiedAt)
    else if j == 0 && n > 5 && plan.copy == Broken then Torn(plan.copiedAt)
    else if j > 0 && MovedOn(ring, plan, n, j - 1) then ring[j - 1]
    else if (if j == 4 then n > 0 && 0 !in plan.fails else MovedOn(ring, plan, n, j)) then Empty
    else ring[j]
  }

  lemma OperationKeepsFate(ring: Ring, before: Ring, plan: Plan, version: nat, n: nat, j: nat)
    requires n <= 5 && j < 5 && forall i :: 0 <= i < 5 ==> before[i] == Fate(ring, plan, version, n, i)
    ensures Operate(before, n, plan, version)[j] == Fate(ring, plan, version, n + 1, j)
  {
  }

  /** A rotation slot by slot, whatever fails and wherever the process dies: a file moves
      on one slot if its rename is reached and succeeds, over what may be left there; the
      oldest goes, and the copy lands in front, if those are reached and succeed. */
  lemma {:induction false} RotationSlots(ring: Ring, plan: Plan, version: nat, n: nat, j: nat)
    requires n <= 6 && j < 5
    ensures OperateUpTo(ring, n, plan, version)[j] == Fate(ring, plan, version, n, j)
    ensures plan.survives == n || (n == 6 && plan.survives > 6) ==> Rotate(ring, plan, version)[j] == Fate(ring, plan, version, n, j)
  {
    hide Fate, Operate;
    if n == 0 {
      NothingDone(ring, plan, version, j);
    } else {
      var before := OperateUpTo(ring, n - 1, plan, version);
      forall i | 0 <= i < 5 ensures before[i] == Fate(ring, plan, version, n - 1, i) {
        RotationSlots(ring, plan, version, n - 1, i);
      }
      OperationKeepsFate(ring, before, plan, version, n - 1, j);
    }
  }

  lemma NothingDone(ring: Ring, plan: Plan, version: nat, j: nat)
    requires j < 5
    ensures Fate(ring, plan, version, 0, j) == ring[j]
  {
  }

  // ---------------------------------------------------------------- Recovery

  datatype DataFile = Missing | Corrupt | Holds(version: nat)

  /** A slot is usable when it reads and parses, and the data file can be written from it. */
  predicate Usable(slot: Slot, i: nat, unusable: set<nat>) {
    slot.Snapshot? && i !in unusable
  }

  /** Writing the data file from the slot breaks off after it was opened. */
  predicate Truncates(slot: Slot, i: nat, unusable: set<nat>, breaksOff: set<nat>) {
    slot.Snapshot? && i in unusable && i in breaksOff
  }

  datatype LoadResult = FromDisk(version: nat) | Defaults

  class BackupRing {
    const slots: array<Slot>
    var dataFile: DataFile

    constructor ()
      ensures Valid() && slots[..] == [Empty, Empty, Empty, Empty, Empty] && dataFile.Missing? && fresh(slots)
    {
      slots := new Slot[BACKUP_COUNT](_ => Empty);
      dataFile := Missing;
    }

    predicate Valid() {
      slots.Length == BACKUP_COUNT
    }

    /** `rotateBackupsSync` and `rotateBackupsAsync`: the loop over the slots, from the
        oldest, up to the operation at which the process dies. A rotation only ever
        follows the publishing of a data file. */
    method RotateBackups(plan: Plan)
      requires Valid() && !dataFile.Corrupt?
      modifies slots
      ensures slots[..] == if dataFile.Holds? then Rotate(old(slots[..]), plan, dataFile.version) else old(slots[..])
    {
      if !dataFile.Holds? {
        return;
      }
      ghost var before: Ring := slots[..];
      var version := dataFile.version;
      if plan.survives == 0 {
        return;
      }
      if 0 !in plan.fails {
        slots[BACKUP_COUNT - 1] := Empty;
      }
      assert slots[..] == OperateUpTo(before, 1, plan, version) by {
        assert OperateUpTo(before, 0, plan, version) == before;
      }
      var i := BACKUP_COUNT - 2;
      while i >= 0 && plan.survives > BACKUP_COUNT - 1 - i
        invariant -1 <= i <= BACKUP_COUNT - 2
        invariant BACKUP_COUNT - 1 - i <= Done(plan)
        invariant slots[..] == OperateUpTo(before, BACKUP_COUNT - 1 - i, plan, version)
      {
        var src, dst := i, i + 1;
        if Occupied(slots[src]) {
          if BACKUP_COUNT - 1 - i !in plan.fails {
            slots[dst] := slots[src];
            slots[src] := Empty;
          }
        }
        i := i - 1;
      }
      if i < 0 && plan.survives > BACKUP_COUNT {
        match plan.copy
        case Copied => slots[0] := Snapshot(version, plan.copiedAt);
        case Untouched =>
        case Broken => slots[0] := Torn(plan.copiedAt);
      }
    }

    /** Installs the first usable slot, which in a ring in order is the newest. A slot
        whose installation breaks off is skipped too, and those in `breaksOff` leave a
        truncated data file behind. */
    method RestoreFromBackup(unusable: set<nat>, breaksOff: set<nat>) returns (restored: Option<nat>)
      requires Valid()
      modifies this`dataFile
      ensures restored.Some? ==>
        restored.value < BACKUP_COUNT && slots[restored.value].Snapshot? && restored.value !in unusable &&
        dataFile == Holds(slots[restored.value].version)
      ensures restored.Some? ==> forall j :: 0 <= j < restored.value ==> !Usable(slots[j], j, unusable)
      ensures restored.Some? && NewestFirst(slots[..]) ==>
        forall j :: 0 <= j < BACKUP_COUNT && Usable(slots[j], j, unusable) ==> slots[j].version <= slots[restored.value].version
      ensures restored.None? <==> forall j :: 0 <= j < BACKUP_COUNT && slots[j].Snapshot? ==> j in unusable
      ensures restored.None? ==>
        dataFile == if exists j :: 0 <= j < BACKUP_COUNT && slots[j].Snapshot? && j in breaksOff then Corrupt else old(dataFile)
    {
      for i := 0 to BACKUP_COUNT
        invariant dataFile == if exists j :: 0 <= j < i && Truncates(slots[j], j, unusable, breaksOff) then Corrupt else old(dataFile)
        invariant forall j :: 0 <= j < i ==> !Usable(slots[j], j, unusable)
      {
        if slots[i].Empty? {
          continue;
        }
        if Usable(slots[i], i, unusable) {
          dataFile := Holds(slots[i].version);
          assert NewestFirst(slots[..]) ==> forall j :: i < j < BACKUP_COUNT && Usable(slots[j], j, unusable) ==> Newer(slots[..][i], slots[..][j]);
          return Some(i);
        }
        if Truncates(slots[i], i, unusable, breaksOff) {
          dataFile := Corrupt;
        }
      }
      return None;
    }

    /** Loads the data file, or, once, the newest usable backup; otherwise defaults.
        `loadable` says which contents pass the program's own migrations. */
    method Load(allowBackupRecovery: bool, unusable: set<nat>, breaksOff: set<nat>, loadable: nat -> bool) returns (result: LoadResult, loads: nat)
      requires Valid()
      modifies this`dataFile
      ensures loads <= if allowBackupRecovery then 2 else 1
      ensures old(dataFile).Holds? && loadable(old(dataFile).version) ==>
        result == FromDisk(old(dataFile).version) && loads == 1 && dataFile == old(dataFile)
      ensures result.FromDisk? ==> loadable(result.version) && dataFile == Holds(result.version)
      ensures result.FromDisk? && !(old(dataFile).Holds? && loadable(old(dataFile).version)) && NewestFirst(slots[..]) ==>
        forall j :: 0 <= j < BACKUP_COUNT && Usable(slots[j], j, unusable) ==> slots[j].version <= result.version
      ensures allowBackupRecovery && result.Defaults? ==>
        (forall j :: 0 <= j < BACKUP_COUNT ==> !Usable(slots[j], j, unusable)) ||
        (exists j :: 0 <= j < BACKUP_COUNT && Usable(slots[j], j, unusable) && !loadable(slots[j].version) &&
                     forall k :: 0 <= k < j ==> !Usable(slots[k], k, unusable))
      ensures result.FromDisk? && !(old(dataFile).Holds? && loadable(old(dataFile).version)) ==> allowBackupRecovery && loads == 2
      ensures !allowBackupRecovery ==> dataFile == old(dataFile)
      decreases allowBackupRecovery
    {
      loads := 1;
      if dataFile.Holds? && loadable(dataFile.version) {
        return FromDisk(dataFile.version), loads;
      }
      if allowBackupRecovery {
        var hasBackup := false;
        for i := 0 to BACKUP_COUNT
          invariant !hasBackup ==> forall j :: 0 <= j < i ==> slots[j].Empty?
        {
          if Occupied(slots[i]) {
            hasBackup := true;
            break;
          }
        }
        if !dataFile.Missing? || hasBackup {
          var restored := RestoreFromBackup(unusable, breaksOff);
          if restored.Some? {
            var again;
            result, again := Load(false, unusable, breaksOff, loadable);
            loads := loads + again;
            return;
          }
        }
      }
      return Defaults, loads;
    }
  }
}
