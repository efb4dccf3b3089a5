/** The object that keeps a pool durable: it appends records, writes
    checkpoints, and restores a pool when it is opened. The result of each file
    operation is a parameter. */
module FakeIPPersistence {
  import opened Wrappers
  import opened AddressSpace
  import opened FakeIPTable
  import opened FakeIPJournal
  import FakeIPPool

  /** FailedLate is an error reported after the effect was already durable: the
      directory sync after a rename or a removal. */
  datatype Fate = Done | Failed | FailedLate

  /** The ways one append can end. Undone is a failed write or sync that was
      truncated away, LeftTorn one whose truncation failed too; DoneLate is a
      failed close or directory sync. */
  datatype AppendFate = NotOpened | Undone | LeftTorn | Appended | DoneLate

  /** No record on disk carries the epoch. */
  ghost predicate Unused(disk: Disk, epoch: string) {
    && ValidEpoch(epoch)
    && (disk.snapshot.Some? ==> disk.snapshot.value.epoch != epoch)
    && forall record :: record in Records(disk) ==> record.epoch != epoch
  }

  /** What is appended to a torn tail cannot be read back. */
  function AfterAppend(disk: Disk, record: Record, fate: AppendFate): Disk {
    if fate.NotOpened? || Torn(disk) then disk
    else if fate.Appended? || fate.DoneLate? then FakeIPJournal.Appended(disk, record)
    else disk.(journal := Some(Journal(Records(disk), fate.LeftTorn?)))
  }

  function AfterCheckpoint(disk: Disk, snapshot: Snapshot, rename: Fate, remove: Fate): Disk {
    if rename.Failed? then disk
    else if rename.Done? && !remove.Failed? then Replaced(disk, snapshot).(journal := None)
    else Replaced(disk, snapshot)
  }

  /** The same domains have the same addresses. */
  ghost predicate SameMappings(t: Table, u: Table) {
    t.Keys == u.Keys && forall d :: d in t ==> t[d].address == u[d].address
  }

  lemma FlooringKeepsMappings(t: Table, floor: nat)
    ensures SameMappings(t, Floored(t, floor)) && SameMappings(Floored(t, floor), t)
  {
  }

  lemma WellFormedIsDurable(range: Range, prefix: string, disk: Disk)
    requires WellFormed(range, prefix, disk)
    ensures Durable(range, disk).Some?
  {
  }

  // ---------------------------------------------------------------------
  // Which disks are accepted

  lemma {:induction false} SelectedAreValid(records: seq<Record>, epoch: string, prefix: string)
    requires SelectRecords(records, epoch, prefix).Some?
    ensures forall record :: record in records ==> ValidRecord(record, prefix)
  {
    hide ValidRecord;
    if records != [] {
      var front := records[..|records| - 1];
      SelectedAreValid(front, epoch, prefix);
      assert records == front + [records[|records| - 1]];
    }
  }

  /** For a snapshot that names its epoch, a disk is accepted whole exactly when
      it is one this code's own writes could have left. */
  lemma AcceptedIffWellFormed(range: Range, prefix: string, disk: Disk, floor: nat)
    requires disk.snapshot.Some? && disk.snapshot.value.epoch != ""
    ensures WellFormed(range, prefix, disk)
       <==> (RestoreSnapshot(range, disk.snapshot, prefix, floor).Some? && !Recover(range, prefix, disk, floor).rejected)
  {
    var s := disk.snapshot.value;
    if WellFormed(range, prefix, disk) {
      RecoveryIsDurable(range, prefix, disk, floor);
      RestoresAtAnyFloor(range, s.items, floor);
    } else if RestoreSnapshot(range, disk.snapshot, prefix, floor).Some? && !Recover(range, prefix, disk, floor).rejected {
      hide RestoreTable, ValidRecord, Replay;
      SelectedAreValid(Records(disk), s.epoch, prefix);
      OnlyTheSnapshotEpoch(Records(disk), s.epoch, prefix);
      RestoresAtAnyFloor(range, s.items, floor);
      FlooredReplay(range, RestoreTable(range, s.items, 0).value, UpdatesOf(Records(disk), s.epoch), floor);
    }
  }

  /** Whatever the protection window, opening the disk accepts it whole and
      yields these domains and addresses. */
  ghost predicate Means(range: Range, prefix: string, disk: Disk, t: Table) {
    forall floor: nat ::
      && SameMappings(Recover(range, prefix, disk, floor).table, t)
      && !Recover(range, prefix, disk, floor).rejected
  }

  lemma AcceptedMeans(range: Range, prefix: string, disk: Disk, floor: nat)
    requires !Recover(range, prefix, disk, floor).rejected
    ensures Means(range, prefix, disk, Recover(range, prefix, disk, floor).table)
  {
    hide Recover, Floored;
    FlooredRecover(range, prefix, disk, floor);
    var t := Recover(range, prefix, disk, 0).table;
    FlooringKeepsMappings(t, floor);
    forall other: nat
      ensures SameMappings(Recover(range, prefix, disk, other).table, Floored(t, floor))
      ensures !Recover(range, prefix, disk, other).rejected
    {
      FlooredRecover(range, prefix, disk, other);
      FlooringKeepsMappings(t, other);
    }
  }

  // ---------------------------------------------------------------------
  // How opening can end

  /** Nothing stopped opening before the point where it decides about a
      checkpoint. */
  predicate Prepared(range: Range, prefix: string, disk: Disk, floor: nat, snapshotMoved: bool, journalMoved: bool) {
    var usable, r := RestoreSnapshot(range, disk.snapshot, prefix, floor).Some?, Recover(range, prefix, disk, floor);
    && (disk.snapshot.None? || usable || snapshotMoved)
    && ((!Torn(disk) && !r.rejected) || journalMoved)
  }

  predicate AtCheckpoint(range: Range, prefix: string, disk: Disk, floor: nat, snapshotMoved: bool, journalMoved: bool) {
    Prepared(range, prefix, disk, floor, snapshotMoved, journalMoved) && Recover(range, prefix, disk, floor).checkpoint
  }

  predicate Opens(range: Range, prefix: string, disk: Disk, floor: nat, snapshotMoved: bool, journalMoved: bool,
                  rename: Fate, remove: Fate)
  {
    && Prepared(range, prefix, disk, floor, snapshotMoved, journalMoved)
    && (Recover(range, prefix, disk, floor).checkpoint ==> rename.Done? && remove.Done?)
  }

  /** What could not be used is moved aside before anything is written. */
  function Cleared(range: Range, prefix: string, disk: Disk, floor: nat, snapshotMoved: bool, journalMoved: bool): Disk {
    var usable, r := RestoreSnapshot(range, disk.snapshot, prefix, floor).Some?, Recover(range, prefix, disk, floor);
    var kept := if usable || !snapshotMoved then disk else disk.(snapshot := None);
    if Prepared(range, prefix, disk, floor, snapshotMoved, journalMoved) && (Torn(disk) || r.rejected) then kept.(journal := None)
    else kept
  }

  /** The disk when opening is over; if the checkpoint fails, what was moved
      aside stays there. */
  function AfterOpen(range: Range, prefix: string, disk: Disk, floor: nat, snapshotMoved: bool, journalMoved: bool,
                     snapshot: Snapshot, rename: Fate, remove: Fate): Disk
  {
    var cleared := Cleared(range, prefix, disk, floor, snapshotMoved, journalMoved);
    if AtCheckpoint(range, prefix, disk, floor, snapshotMoved, journalMoved) then
      AfterCheckpoint(cleared, snapshot, rename, remove)
    else cleared
  }

  // ---------------------------------------------------------------------

  class Persistence {
    const range: Range
    const prefix: string
    var journalEpoch: string
    var disk: Disk

    constructor (range: Range, prefix: string, disk: Disk)
      ensures this.range == range && this.prefix == prefix && this.disk == disk
      ensures journalEpoch == ""
    {
      this.range := range;
      this.prefix := prefix;
      this.disk := disk;
      journalEpoch := "";
    }

    ghost function Durable(): Option<Table>
      reads this
    {
      FakeIPJournal.Durable(range, disk)
    }

    /** The disk is one this code wrote, has no torn tail, and records written
        now extend the snapshot that is on it. */
    ghost predicate Valid()
      reads this
    {
      WellFormed(range, prefix, disk) && !Torn(disk) && journalEpoch == disk.snapshot.value.epoch
    }

    /** Appends one record, undoing a failed write if that is possible. */
    method AppendRecord(record: Record, fate: AppendFate) returns (ok: bool)
      modifies this`disk
      ensures ok <==> fate.Appended?
      ensures disk == AfterAppend(old(disk), record, fate)
    {
      if fate.NotOpened? {
        return false;
      }
      if !Torn(disk) {
        var existing := Records(disk);
        disk := disk.(journal := Some(Journal(existing + [record], false)));
        if fate.Undone? || fate.LeftTorn? {
          disk := disk.(journal := Some(Journal(existing, fate.LeftTorn?)));
        }
      }
      ok := fate.Appended?;
    }

    /** checkpoint: the snapshot is renamed into place, then the epoch is
        switched, then the old journal is removed. */
    method Checkpoint(items: seq<Mapping>, epoch: string, rename: Fate, remove: Fate, ghost t: Table) returns (ok: bool)
      requires Represents(items, t) && ValidTable(range, t)
      requires Unused(disk, epoch) && !Torn(disk)
      requires forall record :: record in Records(disk) ==> ValidRecord(record, prefix)
      modifies this
      ensures ok <==> rename.Done? && remove.Done?
      ensures disk == AfterCheckpoint(old(disk), Snapshot(VERSION, prefix, epoch, items), rename, remove)
      ensures journalEpoch == if rename.Done? then epoch else old(journalEpoch)
      ensures !rename.Failed? ==> WellFormed(range, prefix, disk) && Durable() == Some(Floored(t, 0)) && !Torn(disk)
      ensures !rename.Failed? ==> (Valid() <==> rename.Done? || old(journalEpoch) == epoch)
    {
      hide WellFormed, Represents, ValidTable, ValidRecord, ValidEpoch;
      ok := false;
      if !rename.Failed? {
        var snapshot := Snapshot(VERSION, prefix, epoch, items);
        FreshSnapshotIsUsable(prefix, epoch, items);
        SnapshotIsDurable(range, prefix, disk, snapshot, t);
        disk := Replaced(disk, snapshot);
        if rename.Done? {
          journalEpoch := epoch;
          if !remove.Failed? {
            disk := disk.(journal := None);
          }
          ok := remove.Done?;
        }
      }
    }

    /** A checkpoint of the pool as it is now. */
    method CheckpointPool(pool: FakeIPPool.Pool, epoch: string, rename: Fate, remove: Fate)
      returns (ok: bool, ghost items: seq<Mapping>)
      requires pool.Valid() && pool.range == range
      requires Unused(disk, epoch) && !Torn(disk)
      requires forall record :: record in Records(disk) ==> ValidRecord(record, prefix)
      modifies this
      ensures ok <==> rename.Done? && remove.Done?
      ensures Represents(items, pool.Model().table)
      ensures disk == AfterCheckpoint(old(disk), Snapshot(VERSION, prefix, epoch, items), rename, remove)
      ensures journalEpoch == if rename.Done? then epoch else old(journalEpoch)
      ensures !rename.Failed? ==> Durable() == Some(Floored(pool.Model().table, 0))
      ensures rename.Done? ==> Valid()
    {
      hide WellFormed, FakeIPJournal.Durable, ValidEpoch, FakeIPPool.Pool.Valid, FakeIPPool.Pool.Model, ValidRecord;
      var mappings := pool.TakeSnapshot();
      PoolTableIsValid(pool);
      items := mappings;
      ok := Checkpoint(mappings, epoch, rename, remove, pool.Model().table);
    }

    lemma FreshSnapshotIsUsable(prefix: string, epoch: string, items: seq<Mapping>)
      requires ValidEpoch(epoch)
      ensures UsableSnapshot(Snapshot(VERSION, prefix, epoch, items), prefix) && epoch != ""
    {
    }

    /** record: appends when the record fits, and otherwise checkpoints the
        pool as it is at that moment. */
    method Record(update: Update, pool: FakeIPPool.Pool, fits: bool, epoch: string,
                  append: AppendFate, rename: Fate, remove: Fate) returns (ok: bool, ghost items: seq<Mapping>)
      requires Valid() && update.recordedAt != ZERO_TIME
      requires pool.Valid() && pool.range == range
      requires Unused(disk, epoch)
      modifies this
      ensures ok <==> if fits then append.Appended? else rename.Done? && remove.Done?
      ensures fits && (append.Appended? || append.DoneLate?) ==>
                && Durable() == ApplyUpdate(range, old(Durable()).value, update, 0)
                && (Durable().Some? ==> Valid())
      ensures !fits && !rename.Failed? ==> Durable() == Some(Floored(pool.Model().table, 0))
      ensures !fits && rename.Done? ==> Valid()
      ensures (if fits then append.NotOpened? || append.Undone? else rename.Failed?) ==> Valid() && Durable() == old(Durable())
      ensures fits && append.LeftTorn? ==> Torn(disk) && Durable() == old(Durable())
      ensures fits ==>
                && disk == AfterAppend(old(disk), FakeIPJournal.Record.Record(VERSION, prefix, old(journalEpoch), update), append)
                && journalEpoch == old(journalEpoch)
      ensures !fits ==>
                && Represents(items, pool.Model().table)
                && disk == AfterCheckpoint(old(disk), Snapshot(VERSION, prefix, epoch, items), rename, remove)
                && journalEpoch == if rename.Done? then epoch else old(journalEpoch)
    {
      hide WellFormed, FakeIPJournal.Durable, ApplyUpdate, ValidEpoch;
      if fits {
        ok := AppendUpdate(update, append);
        items := [];
      } else {
        RecordsAreValid();
        ok, items := CheckpointPool(pool, epoch, rename, remove);
      }
    }

    method AppendUpdate(update: Update, append: AppendFate) returns (ok: bool)
      requires Valid() && update.recordedAt != ZERO_TIME
      modifies this`disk
      ensures ok <==> append.Appended?
      ensures append.Appended? || append.DoneLate? ==>
                && Durable() == ApplyUpdate(range, old(Durable()).value, update, 0)
                && (Durable().Some? ==> Valid())
      ensures append.NotOpened? || append.Undone? ==> Valid() && Durable() == old(Durable())
      ensures append.LeftTorn? ==> Torn(disk) && Durable() == old(Durable())
      ensures disk == AfterAppend(old(disk), FakeIPJournal.Record.Record(VERSION, prefix, journalEpoch, update), append)
    {
      var record := FakeIPJournal.Record.Record(VERSION, prefix, journalEpoch, update);
      hide ApplyUpdate, ValidEpoch, RestoreTable, Replay;
      AppendedIsDurable(range, prefix, disk, record);
      ok := AppendRecord(record, append);
    }

    lemma RecordsAreValid()
      requires Valid()
      ensures forall record :: record in Records(disk) ==> ValidRecord(record, prefix)
    {
    }

    lemma PoolTableIsValid(pool: FakeIPPool.Pool)
      requires pool.Valid()
      ensures ValidTable(pool.range, pool.Model().table)
    {
    }

    // -------------------------------------------------------------------
    // Opening

    /** Restores the snapshot, or moves an unusable one aside. */
    method OpenSnapshot(pool: FakeIPPool.Pool, floor: nat, moved: bool) returns (ok: bool, usable: bool)
      requires pool.Valid() && pool.range == range && pool.Model().table == map[]
      modifies this`disk, pool`byDomain, pool`byAddress, pool`entries
      ensures pool.Valid() && fresh(pool.entries - old(pool.entries))
      ensures usable <==> RestoreSnapshot(range, old(disk).snapshot, prefix, floor).Some?
      ensures ok <==> old(disk).snapshot.None? || usable || moved
      ensures !ok ==> disk == old(disk)
      ensures ok ==> pool.Model() == if usable then
                       old(pool.Model()).(table := RestoreSnapshot(range, old(disk).snapshot, prefix, floor).value)
                     else old(pool.Model())
      ensures ok ==> disk == if usable then old(disk) else old(disk).(snapshot := None)
      ensures usable ==> disk.snapshot.Some?
    {
      hide FakeIPPool.Pool.Valid, FakeIPPool.Pool.Model, RestoreTable, ValidEpoch;
      ok, usable := true, disk.snapshot.Some?;
      if usable {
        var snapshot := disk.snapshot.value;
        usable := UsableSnapshot(snapshot, prefix);
        if usable {
          usable := pool.Restore(snapshot.items, floor);
        }
        if !usable {
          ok := moved;
          disk := if moved then disk.(snapshot := None) else disk;
        }
      }
    }

    /** Replays the journal over the restored snapshot, or moves it aside. A
        torn journal is moved aside even though what it holds is replayed. */
    method OpenJournal(pool: FakeIPPool.Pool, floor: nat, usable: bool, moved: bool)
      returns (ok: bool, epoch: string, compact: bool)
      requires pool.Valid() && pool.range == range
      requires usable ==> disk.snapshot.Some?
      modifies this`disk, pool`byDomain, pool`byAddress, pool`entries
      ensures pool.Valid() && fresh(pool.entries - old(pool.entries))
      ensures ok ==> match Extend(range, prefix, old(pool.Model()).table, if usable then old(disk).snapshot else None,
                                  Records(old(disk)), floor)
                     case None => pool.Model() == old(pool.Model()) && epoch == "" && compact
                     case Some((t, e)) => pool.Model() == old(pool.Model()).(table := t) && epoch == e && (compact <==> Torn(old(disk)))
      ensures disk == if ok && compact then old(disk).(journal := None) else old(disk)
      ensures var extended := Extend(range, prefix, old(pool.Model()).table, if usable then old(disk).snapshot else None,
                                     Records(old(disk)), floor);
              ok <==> moved || (!Torn(old(disk)) && extended.Some?)
    {
      hide FakeIPPool.Pool.Valid, FakeIPPool.Pool.Model, Replay, ActiveRecords;
      ok, epoch, compact := true, "", Torn(disk);
      var records := Records(disk);
      if compact {
        ok := moved;
        disk := if moved then disk.(journal := None) else disk;
      }
      if ok {
        var selected := ActiveJournalRecords(records, if usable then disk.snapshot else None, prefix);
        var accepted := selected.Some?;
        if accepted {
          accepted := ReplayActive(pool, selected.value.0, floor);
        }
        if accepted {
          epoch := selected.value.1;
        } else {
          ok := compact || moved;
          disk := if ok then disk.(journal := None) else disk;
          compact := true;
        }
      }
    }

    method ReplayActive(pool: FakeIPPool.Pool, active: seq<Record>, floor: nat) returns (accepted: bool)
      requires pool.Valid() && pool.range == range
      modifies pool`byDomain, pool`byAddress, pool`entries
      ensures pool.Valid() && fresh(pool.entries - old(pool.entries))
      ensures match Replay(range, old(pool.Model()).table, Updates(active), floor)
              case None => !accepted && pool.Model() == old(pool.Model())
              case Some(t) => accepted && pool.Model() == old(pool.Model()).(table := t)
    {
      hide FakeIPPool.Pool.Valid, FakeIPPool.Pool.Model;
      accepted := true;
      if active != [] {
        accepted := pool.RestoreJournal(Updates(active), floor);
      }
    }

    /** A checkpoint while opening never meets old records: they were moved
        aside, or there were none. */
    lemma NothingLeft(before: Disk, usable: bool, compact: bool, floor: nat)
      requires !usable || compact
      requires compact ==> disk.journal.None?
      requires !compact ==> disk.journal == before.journal && !Torn(before)
                            && Extend(range, prefix, map[], None, Records(before), floor).Some?
      ensures Records(disk) == [] && !Torn(disk)
    {
    }

    /** A disk that was accepted as it is needs no checkpoint. */
    lemma Reopened(before: Disk, floor: nat)
      requires disk == before && before.snapshot.Some? && !Torn(before)
      requires RestoreSnapshot(range, before.snapshot, prefix, floor).Some?
      requires !Recover(range, prefix, before, floor).rejected
      requires journalEpoch == if Recover(range, prefix, before, floor).epoch == "" then journalEpoch
                               else Recover(range, prefix, before, floor).epoch
      ensures before.snapshot.value.epoch != "" ==> Valid()
    {
      hide WellFormed, FakeIPJournal.Durable, RestoreSnapshot, Recover;
      if before.snapshot.value.epoch != "" {
        AcceptedIffWellFormed(range, prefix, before, floor);
        RecoveryIsDurable(range, prefix, before, floor);
      }
    }

    lemma CheckpointMeans(t: Table)
      requires Valid() && Durable() == Some(Floored(t, 0))
      ensures Means(range, prefix, disk, t)
    {
      forall floor: nat
        ensures SameMappings(Recover(range, prefix, disk, floor).table, t) && !Recover(range, prefix, disk, floor).rejected
      {
        RecoveryIsDurable(range, prefix, disk, floor);
        FlooringKeepsMappings(t, 0);
        FlooringKeepsMappings(Floored(t, 0), floor);
      }
    }

    /** Opening up to the point where it decides about a checkpoint. */
    method Prepare(pool: FakeIPPool.Pool, floor: nat, newEpoch: string, snapshotMoved: bool, journalMoved: bool)
      returns (ok: bool, checkpoint: bool)
      requires pool.Valid() && pool.range == range && pool.Model().table == map[]
      modifies this, pool`byDomain, pool`byAddress, pool`entries
      ensures pool.Valid() && fresh(pool.entries - old(pool.entries))
      ensures ok <==> Prepared(range, prefix, old(disk), floor, snapshotMoved, journalMoved)
      ensures disk == Cleared(range, prefix, old(disk), floor, snapshotMoved, journalMoved)
      ensures ok ==>
                var r := Recover(range, prefix, old(disk), floor);
                && pool.Model() == old(pool.Model()).(table := r.table)
                && journalEpoch == (if r.epoch == "" then newEpoch else r.epoch)
                && checkpoint == r.checkpoint
                && (checkpoint ==> Records(disk) == [] && !Torn(disk))
      ensures disk.snapshot.Some? ==> disk.snapshot == old(disk).snapshot
    {
      hide FakeIPPool.Pool.Valid, FakeIPPool.Pool.Model, Extend, RestoreSnapshot;
      checkpoint := false;
      ghost var before := disk;
      var usable, epoch, compact;
      ok, usable := OpenSnapshot(pool, floor, snapshotMoved);
      if ok {
        ok, epoch, compact := OpenJournal(pool, floor, usable, journalMoved);
      }
      if ok {
        journalEpoch := if epoch == "" then newEpoch else epoch;
        checkpoint := !usable || compact;
        if checkpoint {
          NothingLeft(before, usable, compact, floor);
        }
      }
    }

    lemma AcceptedAsItIs(before: Disk, floor: nat, snapshotMoved: bool, journalMoved: bool)
      requires Prepared(range, prefix, before, floor, snapshotMoved, journalMoved)
      requires !Recover(range, prefix, before, floor).checkpoint
      ensures before.snapshot.Some? && !Torn(before) && RestoreSnapshot(range, before.snapshot, prefix, floor).Some?
      ensures !Recover(range, prefix, before, floor).rejected
      ensures Cleared(range, prefix, before, floor, snapshotMoved, journalMoved) == before
    {
      hide Extend, RestoreTable;
    }

    /** OpenPersistence. When it succeeds, the pool holds what the disk meant,
        journaling is on, and the disk again means what the pool holds. */
    method Open(pool: FakeIPPool.Pool, now: nat, protectionWindow: nat, newEpoch: string, checkpointEpoch: string,
                snapshotMoved: bool, journalMoved: bool, rename: Fate, remove: Fate)
      returns (ok: bool, ghost items: seq<Mapping>)
      requires pool.Valid() && pool.range == range && pool.Model().table == map[]
      requires Unused(disk, checkpointEpoch)
      modifies this, pool
      ensures pool.Valid()
      ensures ok <==> Opens(range, prefix, old(disk), now + protectionWindow, snapshotMoved, journalMoved, rename, remove)
      ensures disk == AfterOpen(range, prefix, old(disk), now + protectionWindow, snapshotMoved, journalMoved,
                                Snapshot(VERSION, prefix, checkpointEpoch, items), rename, remove)
      ensures AtCheckpoint(range, prefix, old(disk), now + protectionWindow, snapshotMoved, journalMoved) ==>
                Represents(items, Recover(range, prefix, old(disk), now + protectionWindow).table)
      ensures ok ==>
                var r := Recover(range, prefix, old(disk), now + protectionWindow);
                && pool.Model() == old(pool.Model()).(table := r.table, journaled := true)
                && Means(range, prefix, disk, r.table)
                && journalEpoch == if r.checkpoint then checkpointEpoch else if r.epoch == "" then newEpoch else r.epoch
      ensures ok && (old(disk).snapshot.Some? ==> old(disk).snapshot.value.epoch != "") ==> Valid()
    {
      hide FakeIPPool.Pool.Valid, FakeIPPool.Pool.Model, WellFormed, ValidEpoch, FakeIPJournal.Durable, RestoreSnapshot;
      hide Represents, Means, Floored, Valid, Prepared, Cleared, Recover;
      items := [];
      ghost var before := disk;
      var floor := now + protectionWindow;
      var checkpoint;
      ok, checkpoint := Prepare(pool, floor, newEpoch, snapshotMoved, journalMoved);
      if ok {
        if checkpoint {
          ok, items := CheckpointPool(pool, checkpointEpoch, rename, remove);
          if ok {
            CheckpointMeans(pool.Model().table);
          }
        } else {
          AcceptedAsItIs(before, floor, snapshotMoved, journalMoved);
          Reopened(before, floor);
          AcceptedMeans(range, prefix, before, floor);
        }
      }
      if ok {
        pool.Attach();
      }
    }
  }
}
