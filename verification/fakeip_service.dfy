/** The pool and its persistence at work together: each call of the running code
    is a run of the Fake IP protocol, so every guarantee of the protocol is a
    guarantee of the code. The calls here are not interrupted; that other calls
    may interleave at the lock boundaries is the protocol's business. */
module FakeIPService {
  import opened Wrappers
  import opened AddressSpace
  import opened FakeIPTable
  import opened FakeIPJournal
  import opened FakeIPProtocol
  import opened FakeIPSafety
  import opened FakeIPExposure
  import FakeIPPool
  import FakeIPPersistence
  import DomainName

  ghost predicate SameDisk(c: Setup, store: FakeIPPersistence.Persistence, w: World)
    reads store
  {
    store.range == c.range && store.prefix == c.prefix && w.disk == store.disk && w.epoch == store.journalEpoch
  }

  /** The world that the objects are in. */
  ghost predicate Mirrors(c: Setup, store: FakeIPPersistence.Persistence, pool: FakeIPPool.Pool, w: World)
    reads store, pool, pool.entries, pool.handles
  {
    && pool.Valid() && pool.range == c.range && w.pool == pool.Model()
    && SameDisk(c, store, w) && Invariant(c, w) && w.mode.Up?
  }

  lemma StoreIsValid(c: Setup, store: FakeIPPersistence.Persistence, w: World)
    requires SameDisk(c, store, w) && Invariant(c, w) && w.mode.Up?
    ensures store.Valid() && w.pool.journaled
  {
    hide WellFormed, ValidPool, Agree, Honoured;
  }

  lemma RecordsOnDisk(c: Setup, w: World)
    requires Invariant(c, w) && w.mode.Up?
    ensures !Torn(w.disk) && forall r :: r in Records(w.disk) ==> ValidRecord(r, c.prefix)
  {
    hide ValidRecord, ValidPool, Agree, Honoured;
  }

  lemma FreshIsUnused(c: Setup, w: World, epoch: string)
    requires Invariant(c, w) && ValidEpoch(epoch) && epoch !in w.used
    ensures FakeIPPersistence.Unused(w.disk, epoch)
  {
    hide WellFormed, Serving, Honoured, Kept, ValidEpoch;
  }

  lemma UpdateIsDated(c: Setup, w: World)
    requires Invariant(c, w) && w.mode.Up? && Writing(w)
    ensures w.window.update.value.recordedAt != ZERO_TIME
  {
    hide WellFormed, ValidPool, Agree, Honoured, Stored, Fits, SnapshotKept, DomainName.Canonical;
  }

  /** A checkpoint during a write is three steps. */
  lemma CheckpointRun(c: Setup, start: World, events: seq<Event>, w: World, items: seq<Mapping>, epoch: string)
    requires Run(c, start, events) == Some(w) && Invariant(c, w)
    requires w.mode.Up? && Writing(w) && w.window.progress.Begun?
    requires Represents(items, w.pool.table) && ValidEpoch(epoch) && epoch !in w.used
    ensures var after := Cleared(Switched(c, Copied(w, items), epoch));
            Run(c, start, events + [TakeSnapshot(items)] + [Rename(epoch)] + [ClearJournal]) == Some(after) && Invariant(c, after)
  {
    hide Run, Invariant, Represents, ValidEpoch;
    var copied := Copied(w, items);
    RunThen(c, start, events, w, TakeSnapshot(items));
    StepKeeps(c, w, TakeSnapshot(items));
    var switched := Switched(c, copied, epoch);
    RunThen(c, start, events + [TakeSnapshot(items)], copied, Rename(epoch));
    StepKeeps(c, copied, Rename(epoch));
    RunThen(c, start, events + [TakeSnapshot(items)] + [Rename(epoch)], switched, ClearJournal);
    StepKeeps(c, switched, ClearJournal);
  }

  lemma AppendRun(c: Setup, start: World, events: seq<Event>, w: World)
    requires Run(c, start, events) == Some(w) && Invariant(c, w)
    requires w.mode.Up? && Writing(w) && w.window.progress.Begun?
    ensures Run(c, start, events + [Append]) == Some(Recorded(c, w)) && Invariant(c, Recorded(c, w))
  {
    hide Run, Invariant;
    StepRun(c, start, events, w, Append);
  }

  lemma FailRun(c: Setup, start: World, events: seq<Event>, w: World, created: bool)
    requires Run(c, start, events) == Some(w) && Invariant(c, w)
    requires w.mode.Up? && Writing(w) && w.window.progress.Begun?
    ensures Run(c, start, events + [Fail(created)]) == Some(Failed(w, created)) && Invariant(c, Failed(w, created))
  {
    hide Run, Invariant;
    StepRun(c, start, events, w, Fail(created));
  }

  /** The file operations of one write, among them none that reports an error
      for an effect that is already durable and none that leaves a torn tail. */
  predicate Honest(fits: bool, append: FakeIPPersistence.AppendFate, rename: FakeIPPersistence.Fate,
                   remove: FakeIPPersistence.Fate)
  {
    if fits then !append.DoneLate? && !append.LeftTorn? else rename.Failed? || (rename.Done? && remove.Done?)
  }

  /** The write inside GetOrAllocate. If it fails, after is the world in which
      the mapping is already taken out again. */
  method Write(c: Setup, store: FakeIPPersistence.Persistence, pool: FakeIPPool.Pool, update: Update, fits: bool, epoch: string,
               append: FakeIPPersistence.AppendFate, rename: FakeIPPersistence.Fate, remove: FakeIPPersistence.Fate,
               ghost start: World, ghost begun: seq<Event>, ghost w: World)
    returns (ok: bool, ghost events: seq<Event>, ghost after: World)
    requires Mirrors(c, store, pool, w) && Run(c, start, begun) == Some(w)
    requires Writing(w) && w.window.progress.Begun? && w.window.update == Some(update)
    requires ValidEpoch(epoch) && epoch !in w.used
    requires Honest(fits, append, rename, remove)
    modifies store
    ensures Run(c, start, events) == Some(after) && Invariant(c, after) && SameDisk(c, store, after)
    ensures ok ==> after == w.(disk := after.disk, epoch := after.epoch, used := after.used,
                               window := w.window.(progress := Persisted))
    ensures !ok ==> exists created :: after == Failed(w, created)
  {
    hide Invariant, Run, Represents, ValidEpoch, FakeIPPool.Pool.Valid, FakeIPPool.Pool.Model;
    hide FakeIPPersistence.Persistence.Valid, FakeIPPersistence.Persistence.Durable, ApplyUpdate, Floored, Records;
    StoreIsValid(c, store, w);
    FreshIsUnused(c, w, epoch);
    UpdateIsDated(c, w);
    RecordsOnDisk(c, w);
    ghost var items;
    ok, items := store.Record(update, pool, fits, epoch, append, rename, remove);
    if !ok {
      ghost var created := fits && append.Undone?;
      FailRun(c, start, begun, w, created);
      events, after := begun + [Fail(created)], Failed(w, created);
    } else if fits {
      AppendRun(c, start, begun, w);
      events, after := begun + [Append], Recorded(c, w);
    } else {
      CheckpointRun(c, start, begun, w, items, epoch);
      events := begun + [TakeSnapshot(items)] + [Rename(epoch)] + [ClearJournal];
      after := Cleared(Switched(c, Copied(w, items), epoch));
    }
  }

  /** The first section of GetOrAllocate as a run. */
  lemma BeginRun(c: Setup, w: World, name: string, ttl: nat, start: FakeIPPool.Start, after: PoolState) returns (e: Event)
    requires Invariant(c, w) && w.mode.Up? && w.window.Idle? && DomainName.Canonical(name) && ValidTTL(c, ttl)
    requires FakeIPPool.Begun(c.range, w.pool, name, w.now, start, after)
    ensures Enabled(c, w, e) && Run(c, w, [e]) == Some(Next(c, w, e)) && Invariant(c, Next(c, w, e))
    ensures Next(c, w, e).pool == after && Next(c, w, e).mode.Up?
    ensures Next(c, w, e).disk == w.disk && Next(c, w, e).epoch == w.epoch && Next(c, w, e).used == w.used
    ensures start.Existing? || start.Exhausted? || start.Writing?
    ensures !start.Writing? ==> Next(c, w, e).window.Idle?
    ensures start.Existing? ==> Answer(name, start.address, w.now, ttl) in Next(c, w, e).answers
    ensures start.Writing? ==>
              && Next(c, w, e).window.Busy? && Next(c, w, e).window.progress.Begun?
              && Next(c, w, e).window.update == Some(start.update) && Next(c, w, e).now == w.now
              && start.update.mapping.domain == name == start.mapping.domain
              && (set d | d in start.update.removed) == Next(c, w, e).window.removed
  {
    hide Invariant, Run, FakeIPPool.FirstFree, DomainName.Canonical, FakeIPTable.Prune;
    BeginIsAStep(c, w, name, ttl, start, after);
    match start {
      case Existing(_) => e := Renew(name, ttl);
      case Exhausted => e := Event.Prune;
      case Writing(_, update) => e := Begin(name, update.mapping.address, update.removed);
      case _ =>
    }
    RunNone(c, w);
    StepRun(c, w, [], w, e);
    assert [] + [e] == [e];
    BegunNames(c.range, w.pool, name, w.now, start, after);
  }

  lemma BegunNames(range: Range, before: PoolState, name: string, now: nat, start: FakeIPPool.Start, after: PoolState)
    requires FakeIPPool.Begun(range, before, name, now, start, after)
    ensures start.Writing? ==> start.mapping.domain == name == start.update.mapping.domain
    ensures !start.InvalidDomain?
  {
    hide FakeIPPool.FirstFree, FakeIPTable.Prune;
  }

  /** GetOrAllocate for a query that will answer with ttl: normalizes, allocates
      or renews, writes, and settles. What it does is a run of the protocol, and
      an address that it returns is an answer of that run. */
  method GetOrAllocate(c: Setup, store: FakeIPPersistence.Persistence, pool: FakeIPPool.Pool, domain: string, now: nat,
                       fits: bool, epoch: string, append: FakeIPPersistence.AppendFate, rename: FakeIPPersistence.Fate,
                       remove: FakeIPPersistence.Fate, ghost ttl: nat, ghost w: World)
    returns (address: Option<nat>, ghost events: seq<Event>, ghost after: World)
    requires Mirrors(c, store, pool, w) && w.now == now && w.window.Idle? && ValidTTL(c, ttl)
    requires ValidEpoch(epoch) && epoch !in w.used
    requires Honest(fits, append, rename, remove)
    modifies store, pool, pool.entries`expiresAt
    ensures Mirrors(c, store, pool, after) && after.window.Idle? && Run(c, w, events) == Some(after)
    ensures address.Some? ==>
              && DomainName.Normalize(domain).Some?
              && Answer(DomainName.Normalize(domain).value, address.value, now, ttl) in after.answers
  {
    hide Invariant, Run, ValidEpoch, FakeIPPool.Pool.Model, Next, Enabled, FakeIPPool.Begun;
    hide FakeIPPool.Pool.Valid, FakeIPTable.Prune, DomainName.Normalize;
    TTLIsPositive(c, w);
    RunNone(c, w);
    ghost var before := pool.Model();
    var start := pool.BeginAllocate(domain, now);
    if DomainName.Normalize(domain).Some? {
      DomainName.NormalizeIsIdempotent(domain);
      BegunNames(c.range, before, DomainName.Normalize(domain).value, now, start, pool.Model());
    }
    if start.InvalidDomain? {
      return None, [], w;
    }
    ghost var e := BeginRun(c, w, DomainName.Normalize(domain).value, ttl, start, pool.Model());
    events, after := [e], Next(c, w, e);
    match start {
      case Existing(existing) => address := Some(existing);
      case Exhausted => address := None;
      case Writing(mapping, update) =>
        ghost var begun := after;
        var ok;
        ok, events, after := Write(c, store, pool, update, fits, epoch, append, rename, remove, w, events, begun);
        pool.FinishAllocate(mapping, update.removed, ok);
        if ok {
          FinishRun(c, w, events, after, ttl);
          events, after := events + [Finish(ttl)], Finished(after, ttl);
          address := Some(update.mapping.address);
        } else {
          address := None;
        }
      case _ =>
    }
  }

  lemma TTLIsPositive(c: Setup, w: World)
    requires Invariant(c, w)
    ensures c.range.mappingTTL > 0
  {
    SetupFits(c, w);
  }

  lemma FinishRun(c: Setup, start: World, events: seq<Event>, w: World, ttl: nat)
    requires Run(c, start, events) == Some(w) && Invariant(c, w)
    requires w.mode.Up? && w.window.Busy? && w.window.progress.Persisted? && ValidTTL(c, ttl)
    ensures Run(c, start, events + [Finish(ttl)]) == Some(Finished(w, ttl)) && Invariant(c, Finished(w, ttl))
  {
    hide Run, Invariant;
    StepRun(c, start, events, w, Finish(ttl));
  }

  // ---------------------------------------------------------------------
  // Flushing and opening

  /** Where a flush ends. A flush that fails after its rename has replaced the
      snapshot and keeps its tombstones. */
  function Flushed(c: Setup, w: World, items: seq<Mapping>, epoch: string, rename: FakeIPPersistence.Fate,
                   remove: FakeIPPersistence.Fate): World
  {
    var flushing := Flushing(w, items);
    if !rename.Done? then Failed(flushing, false)
    else
      var switched := Switched(c, flushing, epoch);
      match remove
      case Failed => Failed(switched, false)
      case FailedLate => Failed(Cleared(switched), false)
      case Done => Settled(Cleared(switched))
  }

  lemma FlushRun(c: Setup, w: World, items: seq<Mapping>, epoch: string, rename: FakeIPPersistence.Fate,
                 remove: FakeIPPersistence.Fate)
    returns (events: seq<Event>)
    requires Invariant(c, w) && w.mode.Up? && w.window.Idle?
    requires Represents(items, w.pool.table) && ValidEpoch(epoch) && epoch !in w.used
    ensures Run(c, w, events) == Some(Flushed(c, w, items, epoch, rename, remove))
    ensures Invariant(c, Flushed(c, w, items, epoch, rename, remove))
  {
    SetupFits(c, w);
    hide Run, Invariant, Represents, ValidEpoch;
    RunNone(c, w);
    StepRun(c, w, [], w, Event.Flush(items));
    events := [] + [Event.Flush(items)];
    var flushing := Flushing(w, items);
    if !rename.Done? {
      StepRun(c, w, events, flushing, Fail(false));
      events := events + [Fail(false)];
    } else {
      StepRun(c, w, events, flushing, Rename(epoch));
      events := RenamedRun(c, w, events + [Rename(epoch)], Switched(c, flushing, epoch), remove);
    }
  }

  lemma RenamedRun(c: Setup, start: World, begun: seq<Event>, w: World, remove: FakeIPPersistence.Fate)
    returns (events: seq<Event>)
    requires Run(c, start, begun) == Some(w) && Invariant(c, w)
    requires w.mode.Up? && w.window.Busy? && w.window.update.None? && w.window.progress.Renamed? && ValidTTL(c, w.ttl)
    ensures var after := match remove
              case Failed => Failed(w, false)
              case FailedLate => Failed(Cleared(w), false)
              case Done => Settled(Cleared(w));
            Run(c, start, events) == Some(after) && Invariant(c, after)
  {
    hide Run, Invariant;
    if remove.Failed? {
      StepRun(c, start, begun, w, Fail(false));
      events := begun + [Fail(false)];
    } else {
      StepRun(c, start, begun, w, ClearJournal);
      events := begun + [ClearJournal];
      var last := if remove.Done? then Finish(w.ttl) else Fail(false);
      StepRun(c, start, events, Cleared(w), last);
      events := events + [last];
    }
  }

  lemma ListedTombstones(removed: seq<string>, pending: set<string>)
    requires FakeIPPool.Lists(removed, pending)
    ensures (set d | d in removed) == pending
  {
  }

  /** flushPersistence: a checkpoint that retires the tombstones it replaces. */
  method Flush(c: Setup, store: FakeIPPersistence.Persistence, pool: FakeIPPool.Pool, epoch: string,
               rename: FakeIPPersistence.Fate, remove: FakeIPPersistence.Fate, ghost w: World)
    returns (ok: bool, ghost events: seq<Event>, ghost after: World)
    requires Mirrors(c, store, pool, w) && w.window.Idle?
    requires ValidEpoch(epoch) && epoch !in w.used && !rename.FailedLate?
    modifies store, pool`pendingDeletes
    ensures Mirrors(c, store, pool, after) && after.window.Idle? && Run(c, w, events) == Some(after)
    ensures ok <==> rename.Done? && remove.Done?
    ensures ok ==> after.disk.journal.None? && after.pool == Settle(w.pool, w.pool.pending)
    ensures !ok ==> after.pool == w.pool
  {
    hide Invariant, Run, ValidEpoch, Represents, ValidRecord, FakeIPPool.Pool.Valid, Durable, Floored, WellFormed, ValidTable;
    hide FakeIPPool.TableOf;
    FreshIsUnused(c, w, epoch);
    RecordsOnDisk(c, w);
    var removed := FakeIPPool.ListDomains(pool.pendingDeletes);
    ListedTombstones(removed, w.pool.pending);
    ghost var items;
    ok, items := store.CheckpointPool(pool, epoch, rename, remove);
    events := FlushRun(c, w, items, epoch, rename, remove);
    after := Flushed(c, w, items, epoch, rename, remove);
    if ok {
      pool.FinishFlush(removed);
    }
  }

  /** A disk that a run left, or a blank one, is never rejected. */
  lemma StartAccepts(c: Setup, w: World)
    requires Invariant(c, w) && w.mode.Down?
    ensures w.window.Idle? && (Blank(w.disk) || (w.disk.snapshot.Some? && w.disk.snapshot.value.epoch != ""))
    ensures var r := Recover(c.range, c.prefix, w.disk, Floor(w));
            && !r.rejected && (r.checkpoint <==> Blank(w.disk) || Torn(w.disk))
            && (!r.checkpoint ==> r.epoch != "")
    ensures !Blank(w.disk) ==> RestoreSnapshot(c.range, w.disk.snapshot, c.prefix, Floor(w)).Some?
  {
    if Blank(w.disk) {
      BlankRecovers(c, w.disk, Floor(w));
    } else {
      hide Durable, Recover, ValidRecord, Kept, RestoreTable;
      RecoveryIsDurable(c.range, c.prefix, w.disk, Floor(w));
      RestoresAtAnyFloor(c.range, w.disk.snapshot.value.items, Floor(w));
      assert Durable(c.range, w.disk).Some?;
    }
  }

  lemma StartRun(c: Setup, w: World, items: seq<Mapping>, epoch: string) returns (events: seq<Event>)
    requires Invariant(c, w) && w.mode.Down?
    requires Restarted(c, w).mode.Opening? ==>
               Represents(items, Restarted(c, w).pool.table) && ValidEpoch(epoch) && epoch !in w.used
    ensures Run(c, w, events) == Some(Reopened(c, w, items, epoch)) && Invariant(c, Reopened(c, w, items, epoch))
  {
    hide Run, Invariant, Represents, ValidEpoch, Recover;
    RunNone(c, w);
    StepRun(c, w, [], w, Restart);
    events := [] + [Restart];
    if Restarted(c, w).mode.Opening? {
      StepRun(c, w, events, Restarted(c, w), Compact(items, epoch));
      events := events + [Compact(items, epoch)];
    }
  }

  /** A start that fails is a run that ends in a crash: at once, with the
      journal moved aside, or with the checkpoint in place. */
  function Stopped(c: Setup, w: World, items: seq<Mapping>, epoch: string, prepared: bool, rename: FakeIPPersistence.Fate)
    : World
  {
    if !prepared then w
    else if rename.Failed? then Crashed(c, Restarted(c, w), false)
    else Crashed(c, Reopened(c, w, items, epoch), false)
  }

  lemma StoppedRun(c: Setup, w: World, items: seq<Mapping>, epoch: string, prepared: bool, rename: FakeIPPersistence.Fate)
    returns (events: seq<Event>)
    requires Invariant(c, w) && w.mode.Down?
    requires prepared ==> Restarted(c, w).mode.Opening?
    requires prepared ==> Represents(items, Restarted(c, w).pool.table) && ValidEpoch(epoch) && epoch !in w.used
    ensures var after := Stopped(c, w, items, epoch, prepared, rename);
            Run(c, w, events) == Some(after) && Invariant(c, after) && after.mode.Down?
  {
    hide Run, Invariant, Represents, ValidEpoch, Recover;
    RunNone(c, w);
    events := [];
    if prepared && rename.Failed? {
      StepRun(c, w, [], w, Restart);
      StepRun(c, w, [] + [Restart], Restarted(c, w), Crash(false));
      events := [] + [Restart] + [Crash(false)];
    } else if prepared {
      events := StartRun(c, w, items, epoch);
      StepRun(c, w, events, Reopened(c, w, items, epoch), Crash(false));
      events := events + [Crash(false)];
    }
  }

  /** What each ending of opening leaves on a disk that a run left. */
  lemma OpenedDisk(c: Setup, w: World, items: seq<Mapping>, epoch: string, snapshotMoved: bool, journalMoved: bool,
                   rename: FakeIPPersistence.Fate, remove: FakeIPPersistence.Fate)
    requires Invariant(c, w) && w.mode.Down?
    ensures var prepared := FakeIPPersistence.Prepared(c.range, c.prefix, w.disk, Floor(w), snapshotMoved, journalMoved);
            var after := FakeIPPersistence.AfterOpen(c.range, c.prefix, w.disk, Floor(w), snapshotMoved, journalMoved,
                                                     FreshSnapshot(c, items, epoch), rename, remove);
            var r := Recover(c.range, c.prefix, w.disk, Floor(w));
            && (r.checkpoint <==> Restarted(c, w).mode.Opening?) && r.table == Restarted(c, w).pool.table
            && (!r.checkpoint ==> prepared)
            && (r.checkpoint && (!prepared || !rename.Done? || !remove.Done?) ==>
                  after == Stopped(c, w, items, epoch, prepared, rename).disk)
            && (prepared && (r.checkpoint ==> rename.Done? && remove.Done?) ==> after == Reopened(c, w, items, epoch).disk)
  {
    StartAccepts(c, w);
    hide Recover, Invariant, RestoreSnapshot, WellFormed, Durable, Uncovered, Unmapped, Stored;
  }

  /** The objects after a start. */
  lemma ReopenedObjects(c: Setup, w: World, items: seq<Mapping>, epoch: string)
    requires w.mode.Down? && w.window.Idle?
    ensures var v, r := Reopened(c, w, items, epoch), Recover(c.range, c.prefix, w.disk, Floor(w));
            && v.mode.Up? && v.window.Idle? && v.pool == PoolState(r.table, {}, c.range.start, true)
            && v.epoch == if r.checkpoint then epoch else r.epoch
  {
    hide Recover, Uncovered;
  }

  /** OpenPersistence with a pool that is still empty, however it ends: a start
      of the protocol, or a run that stops with the same disk. */
  method Open(c: Setup, store: FakeIPPersistence.Persistence, pool: FakeIPPool.Pool, now: nat, dnsTTL: nat, newEpoch: string,
              checkpointEpoch: string, snapshotMoved: bool, journalMoved: bool, rename: FakeIPPersistence.Fate,
              remove: FakeIPPersistence.Fate, ghost w: World)
    returns (ok: bool, ghost events: seq<Event>, ghost after: World)
    requires Invariant(c, w) && w.mode.Down? && w.now == now && w.ttl == dnsTTL
    requires store.range == c.range == pool.range && store.prefix == c.prefix && store.disk == w.disk
    requires pool.Valid() && pool.Model() == PoolState(map[], {}, c.range.start, false)
    requires ValidEpoch(checkpointEpoch) && checkpointEpoch !in w.used
    modifies store, pool
    ensures Run(c, w, events) == Some(after)
    ensures ok ==> Mirrors(c, store, pool, after) && after.window.Idle?
    ensures !ok ==> Invariant(c, after) && after.mode.Down? && after.disk == store.disk
  {
    hide Invariant, Run, ValidEpoch, Represents, Recover, FakeIPPool.Pool.Valid, FakeIPPool.Pool.Model, Durable, WellFormed;
    hide FakeIPPersistence.Persistence.Valid, FakeIPPersistence.SameMappings, FakeIPPersistence.Prepared;
    hide FakeIPPersistence.AfterOpen;
    hide FakeIPPersistence.Means, Stopped, Reopened, Restarted;
    FreshIsUnused(c, w, checkpointEpoch);
    StartAccepts(c, w);
    ghost var items;
    ok, items := store.Open(pool, now, dnsTTL, newEpoch, checkpointEpoch, snapshotMoved, journalMoved, rename, remove);
    OpenedDisk(c, w, items, checkpointEpoch, snapshotMoved, journalMoved, rename, remove);
    ReopenedObjects(c, w, items, checkpointEpoch);
    if ok {
      events := StartRun(c, w, items, checkpointEpoch);
      after := Reopened(c, w, items, checkpointEpoch);
    } else {
      ghost var prepared := FakeIPPersistence.Prepared(c.range, c.prefix, w.disk, Floor(w), snapshotMoved, journalMoved);
      events := StoppedRun(c, w, items, checkpointEpoch, prepared, rename);
      after := Stopped(c, w, items, checkpointEpoch, prepared, rename);
    }
  }
}
