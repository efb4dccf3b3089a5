/** What the remaining assumptions of the Fake IP protocol are needed for: the
    exact condition under which the guarantee survives without each of them, and
    an instance in which it does not. */
module FakeIPFaults {
  import opened Wrappers
  import opened AddressSpace
  import opened FakeIPTable
  import opened FakeIPJournal
  import opened FakeIPReplay
  import opened FakeIPProtocol
  import opened FakeIPSafety
  import FakeIPSharedAddress
  import FakeIPPersistence
  import DomainName

  // ---------------------------------------------------------------------
  // A write of mapping_ttl or longer

  /** The mapping may be pruned while it is still being written, and finishing
      then retires its tombstone although the record is stored. */
  lemma SlowWriteForgetsTombstone(c: Setup, w: World)
    requires Writing(w) && w.window.progress.Persisted? && w.pool.journaled
    requires var m := w.window.update.value.mapping;
             && m.domain in w.pool.table && m.domain in w.window.removed && m.domain in Stored(c, w.disk)
    ensures var d := w.window.update.value.mapping.domain;
            Expired(w.pool.table[d], w.now) <==>
            (d !in Settled(Pruned(w)).pool.table && d !in Settled(Pruned(w)).pool.pending)
    ensures Expired(w.pool.table[w.window.update.value.mapping.domain], w.now) ==>
              var after := Settled(Pruned(w)); !Agree(after.pool.table, Tombstones(after), Stored(c, after.disk), {})
  {
    hide Stored;
  }

  // ---------------------------------------------------------------------
  // The service after an error that came too late

  /** Anything but a checkpoint, a crash or a start. */
  predicate Quiet(events: seq<Event>) {
    forall e :: e in events ==> !e.Rename? && !e.Crash? && !e.Restart?
  }

  /** Since w the journal has only grown, by records of the epoch in memory, and
      the first of them removes the domains in tombstones. */
  ghost predicate Grown(c: Setup, w: World, v: World, tombstones: set<string>) {
    && v.mode.Up? && v.epoch == w.epoch && v.used == w.used && v.disk.snapshot == w.disk.snapshot
    && Records(w.disk) <= Records(v.disk)
    && (forall r :: r in Records(v.disk)[|Records(w.disk)|..] ==> r.epoch == w.epoch)
    && (v.window.Busy? ==> !v.window.progress.Renamed?)
    && (if |Records(v.disk)| == |Records(w.disk)| then
          && tombstones <= v.pool.pending
          && (v.window.Busy? ==> tombstones <= v.window.removed && !v.window.progress.Persisted?)
        else Removes(Records(v.disk)[|Records(w.disk)|], tombstones))
  }

  ghost predicate Removes(record: Record, tombstones: set<string>) {
    && (forall d :: d in record.update.removed ==> DomainName.Canonical(d))
    && (forall d :: d in tombstones ==> d in record.update.removed)
  }

  /** The record in progress lists the tombstones it will retire. */
  lemma RecordRemoves(c: Setup, w: World, tombstones: set<string>)
    requires Invariant(c, w) && w.mode.Up? && Writing(w) && tombstones <= w.window.removed
    ensures Removes(Record(VERSION, c.prefix, w.epoch, w.window.update.value), tombstones)
  {
    hide WellFormed, Stored, Fits, ValidRange, ValidTable, Represents, Agree, Honoured, DomainName.Canonical;
  }

  lemma AppendGrows(c: Setup, w: World, v: World, tombstones: set<string>)
    requires v.mode.Up? && Writing(v) && v.window.progress.Begun?
    requires Grown(c, w, v, tombstones) && Invariant(c, v)
    ensures Grown(c, w, Recorded(c, v), tombstones)
  {
    hide Invariant, Removes;
    var n := |Records(w.disk)|;
    var record := Record(VERSION, c.prefix, v.epoch, v.window.update.value);
    assert Records(Recorded(c, v).disk) == Records(v.disk) + [record];
    assert Records(Recorded(c, v).disk)[n..] == Records(v.disk)[n..] + [record];
    if |Records(v.disk)| == n {
      RecordRemoves(c, v, tombstones);
    }
  }

  lemma StepGrows(c: Setup, w: World, v: World, e: Event, tombstones: set<string>)
    requires Grown(c, w, v, tombstones) && Invariant(c, v) && Enabled(c, v, e)
    requires !e.Rename? && !e.Crash? && !e.Restart?
    ensures Grown(c, w, Next(c, v, e), tombstones)
  {
    hide Invariant, Removes, CanStart, Represents, ValidEpoch, DomainName.Canonical, Covers;
    if e.Append? {
      IsRecorded(c, v);
      hide Grown, Enabled, Next;
      AppendGrows(c, w, v, tombstones);
    }
  }

  lemma IsRecorded(c: Setup, w: World)
    requires Enabled(c, w, Append)
    ensures w.mode.Up? && Writing(w) && w.window.progress.Begun? && Next(c, w, Append) == Recorded(c, w)
  {
  }

  lemma {:induction false} RunGrows(c: Setup, w: World, start: World, events: seq<Event>, tombstones: set<string>)
    requires Invariant(c, start) && Grown(c, w, start, tombstones)
    requires Quiet(events) && Run(c, start, events).Some?
    ensures Invariant(c, Run(c, start, events).value) && Grown(c, w, Run(c, start, events).value, tombstones)
  {
    hide Invariant, Grown, Enabled, Next;
    if events != [] {
      var front, e := events[..|events| - 1], events[|events| - 1];
      assert e in events && forall x :: x in front ==> x in events;
      RunGrows(c, w, start, front, tombstones);
      StepKeeps(c, Run(c, start, front).value, e);
      StepGrows(c, w, Run(c, start, front).value, e, tombstones);
    }
  }

  // ---------------------------------------------------------------------
  // An append that is durable but reported as failed

  /** A well-formed record is rejected only for the limit. */
  lemma AcceptedIff(range: Range, t: Table, u: Update)
    requires forall d :: d in u.removed ==> DomainName.Canonical(d)
    requires DomainName.Canonical(u.mapping.domain) && u.mapping.expiresAt > ZERO_TIME
    requires range.start <= u.mapping.address < range.end
    ensures ApplyUpdate(range, t, u, 0).Some? <==>
            |Evict(t - (set d | d in u.removed), u.mapping.domain, u.mapping.address)| < range.maxMappings
  {
    hide DomainName.Normalize, Evict;
    NormalizeCanonical(u.removed);
  }

  /** The disk of v, with one more record after the first n. */
  function WithRecord(disk: Disk, n: nat, record: Record): Disk
    requires n <= |Records(disk)|
  {
    disk.(journal := Some(Journal(Records(disk)[..n] + [record] + Records(disk)[n..], false)))
  }

  lemma {:induction false} UpdatesConcat(records: seq<Record>, more: seq<Record>, epoch: string)
    ensures UpdatesOf(records + more, epoch) == UpdatesOf(records, epoch) + UpdatesOf(more, epoch)
  {
    if more == [] {
      assert records + more == records;
    } else {
      UpdatesConcat(records, more[..|more| - 1], epoch);
      assert (records + more)[..|records + more| - 1] == records + more[..|more| - 1];
    }
  }

  /** Tombstones that the first record removes anyway may be dropped before. */
  lemma {:induction false} ReplayWithout(range: Range, t: Table, us: seq<Update>, tombstones: set<string>)
    requires us != [] && tombstones <= Gone(us[0])
    ensures Replay(range, t - tombstones, us, 0) == Replay(range, t, us, 0)
  {
    if |us| == 1 {
      assert us[..0] == [];
      ApplyWithout(range, t, us[0], tombstones);
    } else {
      hide ApplyUpdate;
      ReplayWithout(range, t, us[..|us| - 1], tombstones);
    }
  }

  lemma ApplyWithout(range: Range, t: Table, u: Update, tombstones: set<string>)
    requires tombstones <= Gone(u)
    ensures ApplyUpdate(range, t - tombstones, u, 0) == ApplyUpdate(range, t, u, 0)
  {
    hide DomainName.Normalize;
    assert (t - tombstones) - Gone(u) == t - Gone(u);
  }

  lemma RoomWithout(range: Range, t: Table, us: seq<Update>, tombstones: set<string>, domain: string, address: nat)
    requires us != [] ==> tombstones <= Gone(us[0])
    ensures RoomForOneMore(range, t - tombstones, us, domain, address) <==> RoomForOneMore(range, t, us, domain, address)
  {
    hide Replay, Untouched, Gone;
    forall k | 0 < k <= |us|
      ensures Replay(range, t - tombstones, us[..k], 0) == Replay(range, t, us[..k], 0)
    {
      ReplayWithout(range, t, us[..k], tombstones);
    }
  }

  /** What later records mean on top of a stored table. */
  lemma LaterRecords(c: Setup, disk: Disk, later: Disk)
    requires WellFormed(c.range, c.prefix, disk) && WellFormed(c.range, c.prefix, later)
    requires later.snapshot == disk.snapshot && Records(disk) <= Records(later)
    ensures var us := UpdatesOf(Records(later)[|Records(disk)|..], disk.snapshot.value.epoch);
            Replay(c.range, Stored(c, disk), us, 0) == Some(Stored(c, later))
  {
    hide RestoreTable, ApplyUpdate, UsableSnapshot, ValidRecord, Replay, UpdatesOf;
    var s, more := disk.snapshot.value, Records(later)[|Records(disk)|..];
    assert Records(later) == Records(disk) + more;
    UpdatesConcat(Records(disk), more, s.epoch);
    var base := RestoreTable(c.range, s.items, 0).value;
    ReplayConcat(c.range, base, UpdatesOf(Records(disk), s.epoch), UpdatesOf(more, s.epoch), 0);
  }

  /** With the extra record in the middle. */
  lemma LateDisk(c: Setup, disk: Disk, later: Disk, record: Record, with: Table)
    requires WellFormed(c.range, c.prefix, disk) && WellFormed(c.range, c.prefix, later)
    requires later.snapshot == disk.snapshot && Records(disk) <= Records(later)
    requires ValidRecord(record, c.prefix) && record.epoch == disk.snapshot.value.epoch
    requires ApplyUpdate(c.range, Stored(c, disk), record.update, 0) == Some(with)
    ensures var us := UpdatesOf(Records(later)[|Records(disk)|..], disk.snapshot.value.epoch);
            WellFormed(c.range, c.prefix, WithRecord(later, |Records(disk)|, record)) <==> Replay(c.range, with, us, 0).Some?
  {
    hide RestoreTable, ApplyUpdate, UsableSnapshot, ValidRecord, Replay, UpdatesOf;
    var s, n := disk.snapshot.value, |Records(disk)|;
    var base, more := RestoreTable(c.range, s.items, 0).value, Records(later)[n..];
    assert Records(later)[..n] == Records(disk);
    UpdatesConcat(Records(disk) + [record], more, s.epoch);
    UpdatesAppend(Records(disk), record);
    ReplayAppend(c.range, base, UpdatesOf(Records(disk), s.epoch), record.update, 0);
    ReplayConcat(c.range, base, UpdatesOf(Records(disk), s.epoch) + [record.update], UpdatesOf(more, s.epoch), 0);
    assert forall r :: r in Records(WithRecord(later, n, record)) ==> r == record || r in Records(later);
    assert forall r :: r in Records(WithRecord(later, n, record)) ==> ValidRecord(r, c.prefix);
  }

  lemma FirstRemoves(records: seq<Record>, epoch: string, tombstones: set<string>)
    requires records != [] ==> Removes(records[0], tombstones)
    requires forall r :: r in records ==> r.epoch == epoch
    ensures var us := UpdatesOf(records, epoch); us != [] ==> tombstones <= Gone(us[0])
  {
    if records != [] {
      AllUpdates(records, epoch);
      NormalizeCanonical(records[0].update.removed);
    }
  }

  lemma {:induction false} AllUpdates(records: seq<Record>, epoch: string)
    requires forall r :: r in records ==> r.epoch == epoch
    ensures UpdatesOf(records, epoch) == Updates(records)
  {
    if records != [] {
      var front, last := records[..|records| - 1], records[|records| - 1];
      assert records == front + [last];
      AllUpdates(front, epoch);
      assert Updates(records) == Updates(front) + [last.update];
    }
  }

  /** The state right after the append is the one the appended record describes,
      except that the process does not know it. */
  lemma FailureGrows(c: Setup, w: World)
    requires Invariant(c, w) && w.mode.Up? && Writing(w) && w.window.progress.Begun?
    ensures Invariant(c, Failed(w, true)) && Grown(c, w, Failed(w, true), w.window.removed)
    ensures WellFormed(c.range, c.prefix, w.disk) && !Torn(w.disk) && w.epoch == w.disk.snapshot.value.epoch
    ensures ValidRecord(Record(VERSION, c.prefix, w.epoch, w.window.update.value), c.prefix)
  {
    FailServes(c, w, true);
    hide Invariant;
    Upright(c, w);
  }

  lemma Upright(c: Setup, w: World)
    requires Invariant(c, w) && w.mode.Up?
    ensures WellFormed(c.range, c.prefix, w.disk) && !Torn(w.disk) && w.epoch == w.disk.snapshot.value.epoch
    ensures w.window.Busy? ==> w.window.removed <= w.pool.pending
    ensures ValidEpoch(w.epoch)
    ensures Writing(w) ==> w.window.update.value.recordedAt != ZERO_TIME
  {
    hide Durable, ValidRecord, ValidEpoch, Stored, Fits, ValidPool, Agree, Honoured, SnapshotKept, DomainName.Canonical;
  }

  /** After an append that is durable although it was reported as failed, the
      journal stays acceptable, whatever the service does before its next
      checkpoint, exactly as long as every later record that does not displace
      the lost mapping leaves room for it. When it is not acceptable, the next
      start comes back with the snapshot alone. */
  lemma LateAppendIsSafeIff(c: Setup, w: World, events: seq<Event>, floor: nat)
    requires Invariant(c, w) && w.mode.Up? && Writing(w) && w.window.progress.Begun?
    requires Quiet(events) && Run(c, Failed(w, true), events).Some?
    ensures var v, n, u := Run(c, Failed(w, true), events).value, |Records(w.disk)|, w.window.update.value;
            && n <= |Records(v.disk)|
            && var us := UpdatesOf(Records(v.disk)[n..], w.epoch);
               var r := Recover(c.range, c.prefix, WithRecord(v.disk, n, Record(VERSION, c.prefix, w.epoch, u)), floor);
               && (!r.rejected <==> RoomForOneMore(c.range, Stored(c, w.disk), us, u.mapping.domain, u.mapping.address))
               && (r.rejected ==> RestoreTable(c.range, w.disk.snapshot.value.items, floor) == Some(r.table))
  {
    FailureGrows(c, w);
    RunGrows(c, w, Failed(w, true), events, w.window.removed);
    RecordFits(c, w);
    LostIsClean(c, w);
    var v := Run(c, Failed(w, true), events).value;
    assert Grown(c, w, v, w.window.removed);
    Upright(c, v);
    hide Invariant, Run, Failed, Stored, WellFormed, ApplyUpdate, RoomForOneMore, UpdatesOf, ValidRecord, Removes, Recover;
    var u, n := w.window.update.value, |Records(w.disk)|;
    var us, record := UpdatesOf(Records(v.disk)[n..], w.epoch), Record(VERSION, c.prefix, w.epoch, u);
    var t, slot := Stored(c, w.disk) - w.window.removed, Slot(u.mapping.address, u.mapping.expiresAt, 0);
    FirstRemoves(Records(v.disk)[n..], w.epoch, w.window.removed);
    LaterRecords(c, w.disk, v.disk);
    LateDisk(c, w.disk, v.disk, record, t[u.mapping.domain := slot]);
    RoomWithout(c.range, Stored(c, w.disk), us, w.window.removed, u.mapping.domain, u.mapping.address);
    if us == [] {
      NothingReplays(c.range, t);
    } else {
      ReplayWithout(c.range, Stored(c, w.disk), us, w.window.removed);
    }
    StrayReplayIff(c.range, t, us, u.mapping.domain, slot);
    SnapshotOrAll(c, WithRecord(v.disk, n, record), floor);
  }

  lemma NothingReplays(range: Range, t: Table)
    ensures Replay(range, t, [], 0) == Some(t)
  {
  }

  lemma LostIsClean(c: Setup, w: World)
    requires Invariant(c, w) && w.mode.Up? && Writing(w) && w.window.progress.Begun?
    ensures var t, m := Stored(c, w.disk) - w.window.removed, w.window.update.value.mapping;
            m.domain !in t && AddressFree(t, m.address)
  {
    hide WellFormed, Stored, ValidPool, ValidRange, DomainName.Canonical, Represents, ValidTable, Honoured, SnapshotKept, Agree;
  }

  /** A tagged disk is recovered whole or as its snapshot. */
  lemma SnapshotOrAll(c: Setup, disk: Disk, floor: nat)
    requires disk.snapshot.Some? && UsableSnapshot(disk.snapshot.value, c.prefix) && disk.snapshot.value.epoch != ""
    requires RestoreTable(c.range, disk.snapshot.value.items, 0).Some?
    ensures var r := Recover(c.range, c.prefix, disk, floor);
            && (!r.rejected <==> WellFormed(c.range, c.prefix, disk))
            && (r.rejected ==> RestoreTable(c.range, disk.snapshot.value.items, floor) == Some(r.table))
  {
    FakeIPPersistence.AcceptedIffWellFormed(c.range, c.prefix, disk, floor);
    hide WellFormed, RestoreTable, ActiveRecords, Replay, UsableSnapshot;
    RestoresAtAnyFloor(c.range, disk.snapshot.value.items, floor);
  }

  /** The same for a checkpoint of an allocation whose rename took effect and
      whose removal of the journal failed: the process goes on as if the mapping
      were not in the snapshot, and so its records replay without it. */
  lemma LateSnapshotIsSafeIff(range: Range, prefix: string, disk: Disk, lost: string, floor: nat)
    requires disk.snapshot.Some? && UsableSnapshot(disk.snapshot.value, prefix) && disk.snapshot.value.epoch != ""
    requires forall r :: r in Records(disk) ==> ValidRecord(r, prefix)
    requires RestoreTable(range, disk.snapshot.value.items, 0).Some?
    requires lost in RestoreTable(range, disk.snapshot.value.items, 0).value
    requires Replay(range, RestoreTable(range, disk.snapshot.value.items, 0).value - {lost},
                    UpdatesOf(Records(disk), disk.snapshot.value.epoch), 0).Some?
    ensures var t := RestoreTable(range, disk.snapshot.value.items, 0).value;
            !Recover(range, prefix, disk, floor).rejected
            <==> RoomForOneMore(range, t - {lost}, UpdatesOf(Records(disk), disk.snapshot.value.epoch), lost, t[lost].address)
  {
    var s := disk.snapshot.value;
    var us, t := UpdatesOf(Records(disk), s.epoch), RestoreTable(range, s.items, 0).value;
    hide RestoreTable, Replay, RoomForOneMore, Recover, ValidRecord, UsableSnapshot, UpdatesOf, AddressFree, Injective;
    RestoredIsInjective(range, s.items);
    WithoutOne(t, lost);
    StrayReplayIff(range, t - {lost}, us, lost, t[lost]);
    SnapshotOrAll(Setup(range, prefix), disk, floor);
    assert Durable(range, disk) == Replay(range, t, us, 0);
  }

  lemma WithoutOne(t: Table, lost: string)
    requires Injective(t) && lost in t
    ensures lost !in t - {lost} && AddressFree(t - {lost}, t[lost].address)
    ensures t == (t - {lost})[lost := t[lost]]
  {
    var left := t - {lost};
    assert left[lost := t[lost]].Keys == t.Keys;
  }

  lemma RestoredIsInjective(range: Range, items: seq<Mapping>)
    requires RestoreTable(range, items, 0).Some?
    ensures Injective(RestoreTable(range, items, 0).value)
  {
    hide RestoreAll, Injective, DomainName.Canonical;
    RestoreIsValid(range, items, 0);
  }

  const TINY: Range := Range(10, 20, 10, 1, 100)

  /** With room for one mapping: the append for a is stored but reported as
      failed, then b is stored and acknowledged; the next start rejects the
      whole journal, and b is gone. */
  lemma LateAppendLosesJournal()
    ensures var lost := Update(1, [], Mapping("a", 10, 101));
            var kept := Update(2, [], Mapping("b", 11, 102));
            && Replay(TINY, map[], [lost], 0) == Some(map["a" := Slot(10, 101, 0)])
            && Replay(TINY, map[], [lost, kept], 0).None?
  {
    var lost := Update(1, [], Mapping("a", 10, 101));
    var kept := Update(2, [], Mapping("b", 11, 102));
    DomainName.LetterIsCanonical("a");
    DomainName.LetterIsCanonical("b");
    FirstIsStored(lost);
    assert [lost, kept][..1] == [lost];
    LetterDiffers();
    SecondIsRejected(map["a" := Slot(10, 101, 0)], kept);
  }

  lemma LetterDiffers()
    ensures "a" != "b"
  {
    assert "a"[0] != "b"[0];
  }

  lemma FirstIsStored(u: Update)
    requires u == Update(1, [], Mapping("a", 10, 101)) && DomainName.Canonical("a")
    ensures Replay(TINY, map[], [u], 0) == Some(map["a" := Slot(10, 101, 0)])
  {
    hide DomainName.Canonical;
    var empty: Table := map[];
    assert empty - (set d | d in u.removed) == empty;
    CleanUpdate(TINY, empty, u, 0);
    assert [u][..0] == [];
  }

  lemma SecondIsRejected(t: Table, u: Update)
    requires u == Update(2, [], Mapping("b", 11, 102)) && DomainName.Canonical("b")
    requires t == map["a" := Slot(10, 101, 0)] && "a" != "b"
    ensures ApplyUpdate(TINY, t, u, 0).None?
  {
    hide DomainName.Canonical;
    AcceptedIff(TINY, t, u);
    assert (set d | d in u.removed) == {} && t - {} == t;
    assert Evict(t, "b", 11) == t;
  }

  // ---------------------------------------------------------------------
  // A rename that is durable but reported as failed

  /** The epoch in memory is still the old one. Whatever the service does before
      its next checkpoint, the next start comes back with the snapshot: every
      record appended since, although it was acknowledged, has no effect. */
  lemma LateRenameLosesAppends(c: Setup, w: World, epoch: string, events: seq<Event>, floor: nat)
    requires Invariant(c, w) && w.mode.Up? && w.window.Busy? && w.window.progress.Snapped?
    requires ValidEpoch(epoch) && epoch !in w.used
    requires Quiet(events) && Run(c, Failed(w, false), events).Some?
    ensures var v := Run(c, Failed(w, false), events).value;
            Recover(c.range, c.prefix, Replaced(v.disk, FreshSnapshot(c, w.window.progress.items, epoch)), floor)
            == Recovery(Floored(w.window.progress.table, floor), epoch, false, false)
  {
    FailServes(c, w, false);
    SnapshotInProgress(c, w);
    RunGrows(c, w, Failed(w, false), events, {});
    var v := Run(c, Failed(w, false), events).value;
    Upright(c, v);
    RecordsFit(c, v.disk);
    EpochsAreUsed(c, v);
    assert v.used == w.used;
    hide Invariant, Run, Failed, WellFormed, ValidEpoch, Represents, ValidTable, ValidRecord, Recover, Stored, Durable;
    hide EpochsUsed, Grown;
    SwitchedDisk(c, v, w.window.progress.items, w.window.progress.table, epoch);
    var disk := Replaced(v.disk, FreshSnapshot(c, w.window.progress.items, epoch));
    DurableIsStored(c, disk);
    RecoveryIsDurable(c.range, c.prefix, disk, floor);
    FlooredTwice(w.window.progress.table, floor);
  }

  lemma SnapshotInProgress(c: Setup, w: World)
    requires Invariant(c, w) && w.mode.Up? && w.window.Busy? && w.window.progress.Snapped?
    ensures Represents(w.window.progress.items, w.window.progress.table) && ValidTable(c.range, w.window.progress.table)
    ensures Grown(c, w, Failed(w, false), {})
  {
    hide WellFormed, Stored, Fits, ValidRange, DomainName.Canonical, Represents, ValidTable, Agree, Honoured, TargetKept;
  }

  lemma EpochsAreUsed(c: Setup, w: World)
    requires Invariant(c, w)
    ensures EpochsUsed(w)
  {
    hide WellFormed, Serving, Honoured, Kept;
  }

  lemma DurableIsStored(c: Setup, disk: Disk)
    requires WellFormed(c.range, c.prefix, disk)
    ensures Durable(c.range, disk) == Some(Stored(c, disk))
  {
  }

  lemma FlooredTwice(t: Table, floor: nat)
    ensures Floored(Floored(t, 0), floor) == Floored(t, floor)
  {
  }

  // ---------------------------------------------------------------------
  // A start that stops after a torn journal was moved aside

  /** Every mapping of before is recovered with its address. */
  ghost predicate Keeps(recovered: Table, before: Table) {
    forall d :: d in before ==> d in recovered && recovered[d].address == before[d].address
  }

  /** If opening crashes, or its checkpoint fails, after the journal was moved
      aside, the next start loses no mapping exactly when the snapshot already
      has what each active record wrote that no later one touches. So nothing is
      lost without active records, and a mapping is lost when the snapshot does
      not have what the last one wrote. */
  lemma OpeningLosesIff(range: Range, prefix: string, disk: Disk, floor: nat, next: nat)
    requires WellFormed(range, prefix, disk)
    ensures var us := UpdatesOf(Records(disk), disk.snapshot.value.epoch);
            var base := RestoreTable(range, disk.snapshot.value.items, 0).value;
            var kept := Recover(range, prefix, disk.(journal := None), next).table;
            var all := Recover(range, prefix, disk, floor).table;
            && (Keeps(kept, all) <==>
                  forall k :: 0 <= k < |us| && Untouched(us[k + 1..], NameOf(us[k]), us[k].mapping.address) ==>
                    Has(base, NameOf(us[k]), us[k].mapping.address))
            && (us == [] ==> Keeps(kept, all) && Keeps(all, kept))
            && (us != [] ==>
                  var last := us[|us| - 1];
                  && Has(all, NameOf(last), last.mapping.address)
                  && (Has(kept, NameOf(last), last.mapping.address) <==> Has(base, NameOf(last), last.mapping.address)))
  {
    var s := disk.snapshot.value;
    var us, base := UpdatesOf(Records(disk), s.epoch), RestoreTable(range, s.items, 0).value;
    BothRecover(range, prefix, disk, floor, next);
    hide WellFormed, Recover, Durable, UpdatesOf, RestoreTable, LastWritten;
    var all := Replay(range, base, us, 0).value;
    FlooredKeeps(base, all, floor, next);
    forall d, x: nat
      ensures Has(all, d, x) <==> LastWritten(us, d, x) || (Has(base, d, x) && Untouched(us, d, x))
    {
      ReplayHas(range, base, us, 0, d, x);
    }
    LastersAreKept(base, all, us);
    if us != [] {
      LastIsWritten(us);
      FlooredHas(all, floor, NameOf(us[|us| - 1]), us[|us| - 1].mapping.address);
      FlooredHas(base, next, NameOf(us[|us| - 1]), us[|us| - 1].mapping.address);
    }
  }

  lemma BothRecover(range: Range, prefix: string, disk: Disk, floor: nat, next: nat)
    requires WellFormed(range, prefix, disk)
    ensures var s := disk.snapshot.value;
            var base, us := RestoreTable(range, s.items, 0), UpdatesOf(Records(disk), s.epoch);
            && base.Some?
            && Replay(range, base.value, us, 0).Some?
            && Recover(range, prefix, disk, floor).table == Floored(Replay(range, base.value, us, 0).value, floor)
            && Recover(range, prefix, disk.(journal := None), next).table == Floored(base.value, next)
  {
    hide RestoreTable, ValidRecord, UsableSnapshot, Recover;
    RecoveryIsDurable(range, prefix, disk, floor);
    RecoveryIsDurable(range, prefix, disk.(journal := None), next);
  }

  lemma FlooredKeeps(base: Table, all: Table, floor: nat, next: nat)
    ensures Keeps(Floored(base, next), Floored(all, floor)) <==> Keeps(base, all)
    ensures Keeps(Floored(all, floor), Floored(base, next)) <==> Keeps(all, base)
  {
    assert Floored(base, next).Keys == base.Keys && Floored(all, floor).Keys == all.Keys;
    assert forall d :: d in base ==> Floored(base, next)[d].address == base[d].address;
    assert forall d :: d in all ==> Floored(all, floor)[d].address == all[d].address;
  }

  lemma FlooredHas(t: Table, floor: nat, domain: string, address: nat)
    ensures Has(Floored(t, floor), domain, address) <==> Has(t, domain, address)
  {
  }

  lemma LastersAreKept(base: Table, all: Table, us: seq<Update>)
    requires forall d, x: nat :: Has(all, d, x) <==> LastWritten(us, d, x) || (Has(base, d, x) && Untouched(us, d, x))
    ensures Keeps(base, all) <==>
              forall k :: 0 <= k < |us| && Untouched(us[k + 1..], NameOf(us[k]), us[k].mapping.address) ==>
                Has(base, NameOf(us[k]), us[k].mapping.address)
    ensures us == [] ==> Keeps(base, all) && Keeps(all, base)
  {
    hide Untouched, NameOf, Gone;
    if Keeps(base, all) {
      forall k | 0 <= k < |us| && Untouched(us[k + 1..], NameOf(us[k]), us[k].mapping.address)
        ensures Has(base, NameOf(us[k]), us[k].mapping.address)
      {
        assert Writes(us[k], NameOf(us[k]), us[k].mapping.address);
        assert LastWritten(us, NameOf(us[k]), us[k].mapping.address);
        assert Has(all, NameOf(us[k]), us[k].mapping.address);
      }
    }
    assert forall d :: d in all ==> Has(all, d, all[d].address);
    assert forall d :: d in base ==> Has(base, d, base[d].address);
    if us == [] {
      NeverTouched();
    }
  }

  lemma NeverTouched()
    ensures forall d, x: nat :: Untouched([], d, x)
  {
  }

  lemma LastIsWritten(us: seq<Update>)
    requires us != []
    ensures LastWritten(us, NameOf(us[|us| - 1]), us[|us| - 1].mapping.address)
  {
    hide NameOf, Gone;
    var k := |us| - 1;
    assert us[k + 1..] == [];
    assert Writes(us[k], NameOf(us[k]), us[k].mapping.address);
  }

  /** A checkpoint that fails while opening leaves what a crash before it does. */
  lemma FailedCheckpointIsACrash(range: Range, prefix: string, disk: Disk, floor: nat, snapshot: Snapshot, moved: bool,
                                 remove: FakeIPPersistence.Fate)
    requires WellFormed(range, prefix, disk) && Torn(disk)
    ensures FakeIPPersistence.AfterOpen(range, prefix, disk, floor, moved, true, snapshot, FakeIPPersistence.Fate.Failed, remove)
            == disk.(journal := None)
  {
    RecoveryIsDurable(range, prefix, disk, floor);
    RestoresAtAnyFloor(range, disk.snapshot.value.items, floor);
    hide Recover, Durable, RestoreTable;
  }

  /** The only allocation so far was acknowledged, the next append was torn, and
      a start stopped in between: the allocation is gone. */
  lemma OpeningLosesAllocation(floor: nat)
    ensures var range, prefix := FakeIPSharedAddress.ONE.range, FakeIPSharedAddress.ONE.prefix;
            var disk := Disk(Some(FakeIPSharedAddress.EMPTY), Some(Journal([FakeIPSharedAddress.RECORD_A], true)));
            && WellFormed(range, prefix, disk)
            && Has(Recover(range, prefix, disk, floor).table, "a", 10)
            && Recover(range, prefix, disk.(journal := None), floor).table == map[]
  {
    var range := FakeIPSharedAddress.ONE.range;
    var whole := Disk(Some(FakeIPSharedAddress.EMPTY), Some(Journal([FakeIPSharedAddress.RECORD_A], false)));
    FakeIPSharedAddress.StoresFirst(whole);
    TornDisk(FakeIPSharedAddress.ONE, whole);
    var disk := whole.(journal := Some(Journal([FakeIPSharedAddress.RECORD_A], true)));
    FakeIPSharedAddress.NothingStored(disk.(journal := None));
    DurableIsStored(FakeIPSharedAddress.ONE, disk);
    hide WellFormed, Durable, Recover, Stored;
    RecoveryIsDurable(range, "p", disk, floor);
    RecoveryIsDurable(range, "p", disk.(journal := None), floor);
    assert Floored(map[], floor) == map[];
  }
}
