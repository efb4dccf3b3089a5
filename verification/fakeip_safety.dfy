/** What every run of the Fake IP protocol guarantees. */
module FakeIPSafety {
  import opened Wrappers
  import opened AddressSpace
  import opened FakeIPTable
  import opened FakeIPJournal
  import opened FakeIPProtocol
  import FakeIPPool
  import FakeIPPersistence
  import DomainName

  lemma DropStep(c: Setup, w: World, d: string)
    requires Invariant(c, w) && w.mode.Up? && d in w.pool.table
    ensures Invariant(c, w.(pool := DropIfExpired(w.pool, d, w.now)))
    ensures Expired(w.pool.table[d], w.now) ==> Invariant(c, w.(pool := Drop(w.pool, {d})))
  {
    hide Invariant;
    if Expired(w.pool.table[d], w.now) {
      DropServes(c, w, {d});
    }
  }

  lemma PruneStep(c: Setup, w: World)
    requires Invariant(c, w) && w.mode.Up?
    ensures Invariant(c, Pruned(w))
  {
    hide Invariant;
    DropServes(c, w, ExpiredDomains(w.pool.table, w.now));
  }

  lemma TickStep(c: Setup, w: World)
    requires Invariant(c, w) && Enabled(c, w, Tick)
    ensures Invariant(c, w.(now := w.now + 1))
  {
    hide WellFormed, Stored, Fits, ValidPool, ValidRange, DomainName.Canonical, Represents, ValidTable, Agree;
    var after := w.(now := w.now + 1);
    assert forall a :: Live(after, a) ==> Live(w, a);
    assert w.mode.Up? ==> Serving(c, after);
  }

  lemma ReloadStep(c: Setup, w: World, ttl: nat)
    requires Invariant(c, w) && ValidTTL(c, ttl)
    ensures Invariant(c, w.(ttl := ttl))
  {
    hide WellFormed, Stored, Fits, ValidPool, ValidRange, DomainName.Canonical, Represents, ValidTable, Agree;
    assert w.mode.Up? ==> Serving(c, w.(ttl := ttl));
  }

  lemma SectionStep(c: Setup, w: World, e: Event)
    requires Invariant(c, w) && Enabled(c, w, e)
    requires e.Tick? || e.Reload? || e.Renew? || e.Begin? || e.Prune? || e.Lookup? || e.Acquire? || e.Release?
    ensures Invariant(c, Next(c, w, e))
  {
    hide Invariant, CanStart, Renewed, Started;
    match e
    case Tick => TickStep(c, w);
    case Reload(ttl) => ReloadStep(c, w, ttl);
    case Renew(d, ttl) => RenewServes(c, w, d, ttl);
    case Begin(d, address, removed) =>
      PruneStep(c, w);
      FakeIPPool.PruneSubset(w.pool, w.now);
      StartServes(c, Pruned(w), d, address, removed);
    case Prune => PruneStep(c, w);
    case Lookup(d) => DropStep(c, w, d);
    case Acquire(d) => DropStep(c, w, d); HoldServes(c, w, d);
    case Release(d) => HoldServes(c, w, d);
  }

  /** Every step keeps the invariant. */
  lemma StepKeeps(c: Setup, w: World, e: Event)
    requires Invariant(c, w) && Enabled(c, w, e)
    ensures Invariant(c, Next(c, w, e))
  {
    if e.Tick? || e.Reload? || e.Renew? || e.Begin? || e.Prune? || e.Lookup? || e.Acquire? || e.Release? {
      SectionStep(c, w, e);
    } else {
      hide Invariant, Recorded, Failed, Switched, Finished, Flushing, Crashed, Restarted, Compacted;
      match e
      case Append => AppendServes(c, w);
      case Fail(created) => FailServes(c, w, created);
      case TakeSnapshot(items) => CopyServes(c, w, items);
      case Rename(epoch) => SwitchServes(c, w, epoch);
      case ClearJournal => ClearServes(c, w);
      case Finish(ttl) => FinishServes(c, w, ttl);
      case Flush(items) => FlushServes(c, w, items);
      case Crash(torn) => CrashKeeps(c, w, torn);
      case Restart => RestartKeeps(c, w);
      case Compact(items, epoch) => CompactServes(c, w, items, epoch);
    }
  }

  // ---------------------------------------------------------------------
  // Runs

  /** Where a run ends; None if some event was not possible. */
  ghost function Run(c: Setup, start: World, events: seq<Event>): Option<World> {
    if events == [] then Some(start)
    else match Run(c, start, events[..|events| - 1])
      case None => None
      case Some(w) =>
        var e := events[|events| - 1];
        if Enabled(c, w, e) then Some(Next(c, w, e)) else None
  }

  lemma RunNone(c: Setup, w: World)
    ensures Run(c, w, []) == Some(w)
  {
  }

  lemma RunThen(c: Setup, start: World, events: seq<Event>, w: World, e: Event)
    requires Run(c, start, events) == Some(w) && Enabled(c, w, e)
    ensures Run(c, start, events + [e]) == Some(Next(c, w, e))
  {
    hide Enabled, Next;
    assert (events + [e])[..|events + [e]| - 1] == events;
  }

  lemma StepRun(c: Setup, start: World, events: seq<Event>, w: World, e: Event)
    requires Run(c, start, events) == Some(w) && Invariant(c, w) && Enabled(c, w, e)
    ensures Run(c, start, events + [e]) == Some(Next(c, w, e)) && Invariant(c, Next(c, w, e))
  {
    hide Run, Invariant, Enabled, Next;
    RunThen(c, start, events, w, e);
    StepKeeps(c, w, e);
  }

  lemma {:induction false} RunKeeps(c: Setup, start: World, events: seq<Event>)
    requires Initial(c, start) && Run(c, start, events).Some?
    ensures Invariant(c, Run(c, start, events).value)
  {
    hide Invariant, Enabled, Next, Initial;
    if events == [] {
      InitialHolds(c, start);
    } else {
      RunKeeps(c, start, events[..|events| - 1]);
      StepKeeps(c, Run(c, start, events[..|events| - 1]).value, events[|events| - 1]);
    }
  }

  lemma LiveIsMapped(c: Setup, w: World, a: Answer)
    requires Invariant(c, w) && !w.mode.Down? && Live(w, a) && a !in w.exposed
    ensures Maps(w.pool.table, a) && !Expired(w.pool.table[a.domain], w.now) && a.domain !in Unwritten(w)
    ensures Injective(w.pool.table)
  {
    hide WellFormed, Stored, Fits, ValidRange, DomainName.Canonical, Represents;
  }

  /** After any run, and until its TTL has passed, the address of an answer that
      was not exposed is not allocated again, resolves only to the answered
      domain, and its domain is not given another address. */
  lemma AnswersAreSafe(c: Setup, start: World, events: seq<Event>, a: Answer)
    requires Initial(c, start) && Run(c, start, events).Some?
    requires Live(Run(c, start, events).value, a) && a !in Run(c, start, events).value.exposed
    ensures var w := Run(c, start, events).value;
            && (forall d, address, removed :: Enabled(c, w, Begin(d, address, removed)) ==>
                  address != a.address && d != a.domain)
            && (w.mode.Up? ==>
                  && a.domain in w.pool.table && !Expired(w.pool.table[a.domain], w.now)
                  && forall d :: d in w.pool.table ==> (w.pool.table[d].address == a.address <==> d == a.domain))
  {
    hide Invariant, Initial, Run, FakeIPPool.FirstFree, FakeIPPool.Lists;
    RunKeeps(c, start, events);
    var w := Run(c, start, events).value;
    if w.mode.Up? {
      LiveIsMapped(c, w, a);
      assert a.domain in Pruned(w).pool.table && Pruned(w).pool.table[a.domain].address == a.address;
      forall d, address, removed | Enabled(c, w, Begin(d, address, removed))
        ensures address != a.address && d != a.domain
      {
        FakeIPPool.FirstFreeIsFree(c.range, Pruned(w).pool.table, Pruned(w).pool.next, address);
      }
    }
  }

  /** The answers that are neither expired nor exposed form a bijection, in
      every run. */
  lemma LiveAnswersAgree(c: Setup, start: World, events: seq<Event>, a: Answer, b: Answer)
    requires Initial(c, start) && Run(c, start, events).Some?
    requires var w := Run(c, start, events).value; Live(w, a) && Live(w, b) && a !in w.exposed && b !in w.exposed
    ensures a.domain == b.domain <==> a.address == b.address
  {
    hide Initial, Run, Serving, WellFormed;
    RunKeeps(c, start, events);
    var w := Run(c, start, events).value;
    if w.mode.Down? {
      DownIsInjective(c, w);
    } else {
      hide Invariant;
      LiveIsMapped(c, w, a);
      LiveIsMapped(c, w, b);
    }
  }

  lemma DownIsInjective(c: Setup, w: World)
    requires Invariant(c, w) && w.mode.Down?
    ensures Injective(Stored(c, w.disk))
  {
    if !Blank(w.disk) {
      hide Durable, DomainName.Canonical;
      StoredIsValid(c, w.disk, 0);
      FakeIPPersistence.FlooringKeepsMappings(Stored(c, w.disk), 0);
      assert forall d :: d in Stored(c, w.disk) ==> Floored(Stored(c, w.disk), 0)[d].address == Stored(c, w.disk)[d].address;
    }
  }

  /** Opening after a crash, with whatever protection window, accepts the disk
      whole, under the epoch of its snapshot. Every mapping in memory that is
      not still being written comes back with its address; whatever else comes
      back is a tombstone or the mapping being written. */
  ghost predicate Recoverable(c: Setup, w: World, torn: bool, floor: nat) {
    var r := Recover(c.range, c.prefix, Crashed(c, w, torn).disk, floor);
    && !r.rejected && w.disk.snapshot.Some? && r.epoch == w.disk.snapshot.value.epoch
    && (forall d :: d in w.pool.table && d !in Unwritten(w) ==>
          d in r.table && r.table[d].address == w.pool.table[d].address)
    && (forall d :: d in r.table ==>
          d in w.pool.pending || (d in w.pool.table && r.table[d].address == w.pool.table[d].address))
  }

  /** A crash at any point of any run while serving is recoverable. */
  lemma CrashLosesNothing(c: Setup, start: World, events: seq<Event>, torn: bool, floor: nat)
    requires Initial(c, start) && Run(c, start, events).Some?
    requires Run(c, start, events).value.mode.Up? && Enabled(c, Run(c, start, events).value, Crash(torn))
    ensures Recoverable(c, Run(c, start, events).value, torn, floor)
  {
    hide Initial, Run, Invariant, Recoverable;
    RunKeeps(c, start, events);
    CrashRecovers(c, Run(c, start, events).value, torn, floor);
  }

  lemma CrashRecovers(c: Setup, w: World, torn: bool, floor: nat)
    requires Invariant(c, w) && w.mode.Up?
    ensures Recoverable(c, w, torn, floor)
  {
    hide Durable, ValidPool, ValidTable, Recover, ValidRecord, Honoured, Fits, Represents, DomainName.Canonical;
    TornDisk(c, w.disk);
    var disk := Crashed(c, w, torn).disk;
    RecoveryIsDurable(c.range, c.prefix, disk, floor);
    FakeIPPersistence.FlooringKeepsMappings(Stored(c, w.disk), floor);
  }

  /** No step but a crash removes or moves a mapping that a flow holds and that
      is not still being written. */
  lemma HeldMappingsStay(c: Setup, w: World, e: Event, d: string)
    requires Invariant(c, w) && Enabled(c, w, e) && w.mode.Up? && !e.Crash?
    requires d in w.pool.table && w.pool.table[d].references > 0 && d !in Unwritten(w)
    ensures d in Next(c, w, e).pool.table
    ensures Next(c, w, e).pool.table[d].address == w.pool.table[d].address
    ensures Next(c, w, e).pool.table[d].references >= w.pool.table[d].references - 1
    ensures !e.Release? ==> Next(c, w, e).pool.table[d].references >= w.pool.table[d].references
  {
    hide Invariant, CanStart, Restarted, Represents, ValidEpoch, DomainName.Canonical;
    if e.Begin? {
      assert d in Pruned(w).pool.table;
    }
  }

  /** The first section of GetOrAllocate is one of the steps of the protocol. */
  lemma BeginIsAStep(c: Setup, w: World, name: string, ttl: nat, start: FakeIPPool.Start, after: PoolState)
    requires Invariant(c, w) && w.mode.Up? && w.window.Idle? && DomainName.Canonical(name) && ValidTTL(c, ttl)
    requires FakeIPPool.Begun(c.range, w.pool, name, w.now, start, after)
    ensures start.Existing? || start.Exhausted? || start.Writing?
    ensures start.Existing? ==>
              && Enabled(c, w, Renew(name, ttl)) && after == Next(c, w, Renew(name, ttl)).pool
              && Answer(name, start.address, w.now, ttl) in Next(c, w, Renew(name, ttl)).answers
    ensures start.Exhausted? ==> Enabled(c, w, Prune) && after == Next(c, w, Prune).pool
    ensures start.Writing? ==>
              var e := Begin(name, start.update.mapping.address, start.update.removed);
              Enabled(c, w, e) && after == Next(c, w, e).pool && Next(c, w, e).window.update == Some(start.update)
  {
    hide Invariant, FakeIPTable.Prune, FakeIPTable.Renew, Insert, ValidPool;
    hide FakeIPPool.FirstFree, FakeIPPool.Lists, FakeIPPool.After, DomainName.Canonical;
    ExpiriesFit(c, w);
    FakeIPPool.PruneSubset(w.pool, w.now);
  }
}
