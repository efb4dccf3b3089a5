/** Which answers of a Fake IP run are not protected: exactly when a step leaves
    an answer exposed, and exactly when the address of an answer can be taken
    from it. */
module FakeIPExposure {
  import opened Wrappers
  import opened AddressSpace
  import opened FakeIPTable
  import opened FakeIPJournal
  import opened FakeIPProtocol
  import opened FakeIPSafety
  import DomainName

  // ---------------------------------------------------------------------
  // When an answer becomes exposed

  /** After a start the answer will be mapped for as long as it lives: it ends
      by its stored expiry or by the protection window of that start. */
  predicate Protected(stored: Table, floor: nat, a: Answer) {
    Maps(stored, a) && End(a) <= Max(stored[a.domain].expiresAt, floor)
  }

  /** What a step must meet to leave no answer exposed. */
  ghost predicate Careful(c: Setup, w: World, e: Event) {
    && (e.Restart? ==> forall a :: Live(w, a) ==> Protected(Stored(c, w.disk), Floor(w), a))
    && (e.Finish? && Writing(w) ==> w.now + e.ttl <= w.window.update.value.recordedAt + c.range.mappingTTL)
    && (e.Crash? && w.mode.Opening? ==> forall a :: Live(w, a) ==> Maps(Stored(c, w.disk), a))
  }

  lemma RestartCovers(c: Setup, w: World, a: Answer)
    requires Invariant(c, w) && w.mode.Down?
    ensures Covers(Restarted(c, w).pool.table, a) <==> Protected(Stored(c, w.disk), Floor(w), a)
  {
    hide Durable, Recover;
    if Blank(w.disk) {
      BlankRecovers(c, w.disk, Floor(w));
      BlankStoresNothing(c, w.disk);
    } else {
      RecoveryIsDurable(c.range, c.prefix, w.disk, Floor(w));
    }
  }

  lemma BlankStoresNothing(c: Setup, disk: Disk)
    requires Blank(disk)
    ensures Stored(c, disk) == map[]
  {
  }

  lemma FinishCovers(c: Setup, w: World, ttl: nat)
    requires Invariant(c, w) && w.mode.Up? && Writing(w)
    ensures Covers(w.pool.table, NewAnswer(w, ttl)) <==> w.now + ttl <= w.window.update.value.recordedAt + c.range.mappingTTL
  {
    hide Invariant;
    TargetIsMapped(c, w);
  }

  lemma StepExposes(c: Setup, w: World, e: Event)
    requires Invariant(c, w) && Enabled(c, w, e)
    ensures w.exposed <= Next(c, w, e).exposed && w.answers <= Next(c, w, e).answers && w.now <= Next(c, w, e).now
    ensures w.exposed == {} ==> (Careful(c, w, e) <==> Next(c, w, e).exposed == {})
  {
    hide Invariant, Stored, Protected, Covers, CanStart, ValidEpoch, DomainName.Canonical, Represents;
    match e {
      case Restart => RestartExposes(c, w);
      case Finish(ttl) =>
        if Writing(w) {
          FinishCovers(c, w, ttl);
        }
      case Crash(torn) => OpeningCrashExposes(c, w, torn);
      case _ =>
    }
  }

  lemma RestartExposes(c: Setup, w: World)
    requires Invariant(c, w) && w.mode.Down?
    ensures Restarted(c, w).exposed == w.exposed + Uncovered(w, Restarted(c, w).pool.table)
    ensures Uncovered(w, Restarted(c, w).pool.table) == {}
       <==> (forall a :: Live(w, a) ==> Protected(Stored(c, w.disk), Floor(w), a))
  {
    hide Invariant, Stored, Protected, Covers, Recover;
    forall a: Answer
      ensures Covers(Restarted(c, w).pool.table, a) <==> Protected(Stored(c, w.disk), Floor(w), a)
    {
      RestartCovers(c, w, a);
    }
    var left := Uncovered(w, Restarted(c, w).pool.table);
    assert forall a :: a in left <==> Live(w, a) && !Covers(Restarted(c, w).pool.table, a);
    assert left != {} ==> exists a :: a in left;
  }

  lemma OpeningCrashExposes(c: Setup, w: World, torn: bool)
    requires Enabled(c, w, Crash(torn))
    ensures !w.mode.Opening? ==> Crashed(c, w, torn).exposed == w.exposed
    ensures w.mode.Opening? ==>
              && Crashed(c, w, torn).exposed == w.exposed + Unmapped(w, Stored(c, w.disk))
              && (Unmapped(w, Stored(c, w.disk)) == {} <==> (forall a :: Live(w, a) ==> Maps(Stored(c, w.disk), a)))
  {
    hide Stored, Maps;
    var left := Unmapped(w, Stored(c, w.disk));
    assert forall a :: a in left <==> Live(w, a) && !Maps(Stored(c, w.disk), a);
    assert left != {} ==> exists a :: a in left;
  }

  ghost predicate CarefulRun(c: Setup, start: World, events: seq<Event>) {
    forall i :: 0 <= i < |events| ==>
      var before := Run(c, start, events[..i]); before.Some? ==> Careful(c, before.value, events[i])
  }

  /** A run leaves no answer exposed exactly when every restart finds each live
      answer to end by its stored expiry or by the protection window, every
      write ends early enough for the answer after it, and no crash while
      opening finds a live answer that only the moved journal had stored. */
  lemma {:induction false} NothingExposedIff(c: Setup, start: World, events: seq<Event>)
    requires Initial(c, start) && Run(c, start, events).Some?
    ensures CarefulRun(c, start, events) <==> Run(c, start, events).value.exposed == {}
  {
    hide Invariant, Enabled, Next, Careful, Initial;
    if events == [] {
      NoneExposed(c, start);
    } else {
      var front, e := events[..|events| - 1], events[|events| - 1];
      NothingExposedIff(c, start, front);
      RunKeeps(c, start, front);
      StepExposes(c, Run(c, start, front).value, e);
      assert forall i :: 0 <= i < |front| ==> events[..i] == front[..i] && events[i] == front[i];
      assert CarefulRun(c, start, events) <==> CarefulRun(c, start, front) && Careful(c, Run(c, start, front).value, e) by {
        assert events[..|front|] == front;
      }
    }
  }

  lemma NoneExposed(c: Setup, start: World)
    requires Initial(c, start)
    ensures start.exposed == {}
  {
  }

  /** dns_ttl is only ever raised, queries use it or a lower one, no write takes
      so long that the answer outlives the mapping, and opening does not crash. */
  ghost predicate Undisturbed(c: Setup, w: World, e: Event) {
    && (e.Reload? ==> w.ttl <= e.ttl)
    && (e.Renew? ==> e.ttl <= w.ttl)
    && (e.Finish? ==> e.ttl <= w.ttl)
    && (e.Finish? && Writing(w) ==> w.now + e.ttl <= w.window.update.value.recordedAt + c.range.mappingTTL)
    && (e.Crash? ==> !w.mode.Opening?)
  }

  ghost predicate UndisturbedRun(c: Setup, start: World, events: seq<Event>) {
    forall i :: 0 <= i < |events| ==>
      var before := Run(c, start, events[..i]); before.Some? ==> Undisturbed(c, before.value, events[i])
  }

  predicate Bounded(w: World) {
    forall a :: a in w.answers ==> a.ttl <= w.ttl
  }

  lemma BoundedStep(c: Setup, w: World, e: Event)
    requires Enabled(c, w, e) && Undisturbed(c, w, e) && Bounded(w)
    ensures Bounded(Next(c, w, e))
  {
    hide Stored, Recover, CanStart, FakeIPTable.Renew, FakeIPTable.Prune, Represents, ValidEpoch, Maps, Covers;
  }

  lemma UndisturbedIsCareful(c: Setup, w: World, e: Event)
    requires Invariant(c, w) && Enabled(c, w, e) && Undisturbed(c, w, e) && Bounded(w) && w.exposed == {}
    ensures Careful(c, w, e)
  {
    hide Stored, WellFormed, EpochsUsed, Serving;
  }

  /** With a dns_ttl that no reload lowers, every answer of every run is safe. */
  lemma {:induction false} RaisingIsSafe(c: Setup, start: World, events: seq<Event>)
    requires Initial(c, start) && Run(c, start, events).Some? && UndisturbedRun(c, start, events)
    ensures Run(c, start, events).value.exposed == {} && Bounded(Run(c, start, events).value)
  {
    hide Invariant, Enabled, Next, Careful, Undisturbed, Bounded, Initial;
    if events == [] {
      NoneAnswered(c, start);
    } else {
      var front, e := events[..|events| - 1], events[|events| - 1];
      assert forall i :: 0 <= i < |front| ==> events[..i] == front[..i] && events[i] == front[i];
      RaisingIsSafe(c, start, front);
      RunKeeps(c, start, front);
      var before := Run(c, start, front).value;
      UndisturbedIsCareful(c, before, e);
      StepExposes(c, before, e);
      BoundedStep(c, before, e);
    }
  }

  lemma NoneAnswered(c: Setup, start: World)
    requires Initial(c, start)
    ensures start.exposed == {} && Bounded(start)
  {
  }

  // ---------------------------------------------------------------------
  // What can become of an answer while the service stays up

  /** The service neither stops nor starts. */
  predicate Steady(events: seq<Event>) {
    forall e :: e in events ==> !e.Crash? && !e.Restart?
  }

  /** A client may still use the answer, but its address is not its own. */
  predicate Broken(w: World, a: Answer) {
    w.mode.Up? && Live(w, a) && !Maps(w.pool.table, a)
  }

  ghost predicate CanBreak(c: Setup, w: World, a: Answer) {
    exists events :: Steady(events) && Run(c, w, events).Some? && Broken(Run(c, w, events).value, a)
  }

  /** Steps that touch no mapping. */
  lemma TableStays(c: Setup, w: World, e: Event)
    requires Enabled(c, w, e) && w.mode.Up?
    requires e.Tick? || e.Reload? || e.Append? || e.TakeSnapshot? || e.Rename? || e.ClearJournal? || e.Finish? || e.Flush?
    ensures Next(c, w, e).pool.table == w.pool.table && Unwritten(Next(c, w, e)) <= Unwritten(w)
  {
    hide CanStart, Represents, ValidEpoch, Records, Appended, Replaced, Covers;
  }

  lemma SectionCovers(c: Setup, w: World, e: Event, a: Answer)
    requires Enabled(c, w, e) && w.mode.Up?
    requires e.Renew? || e.Begin? || e.Prune? || e.Lookup? || e.Acquire? || e.Release? || e.Fail?
    requires Live(w, a) && Covers(w.pool.table, a) && a.domain !in Unwritten(w) && End(a) <= w.now + c.range.mappingTTL
    ensures Covers(Next(c, w, e).pool.table, a) && a.domain !in Unwritten(Next(c, w, e))
  {
    hide CanStart, DomainName.Canonical, Records, Covers;
    match e {
      case Renew(d, ttl) => RenewCovers(c, w, d, ttl, a);
      case Begin(d, address, removed) =>
        DropCovers(w, ExpiredDomains(w.pool.table, w.now), a);
        InsertCovers(c, Pruned(w), d, address, removed, a);
      case Prune => DropCovers(w, ExpiredDomains(w.pool.table, w.now), a);
      case Lookup(d) => LookupCovers(w, d, a);
      case Acquire(d) => LookupCovers(w, d, a);
      case Release(d) => LookupCovers(w, d, a);
      case Fail(created) => AbortCovers(w, a);
    }
  }

  /** An answer that its mapping outlives stays mapped. */
  lemma CoveredStays(c: Setup, w: World, e: Event, a: Answer)
    requires Invariant(c, w) && w.mode.Up? && Enabled(c, w, e) && !e.Crash?
    requires Live(w, a) && Covers(w.pool.table, a) && a.domain !in Unwritten(w)
    ensures Covers(Next(c, w, e).pool.table, a) && a.domain !in Unwritten(Next(c, w, e))
  {
    StillShort(c, w, a);
    SinceUp(c, w, e);
    hide Invariant, Enabled, Next, Covers, Unwritten;
    if e.Renew? || e.Begin? || e.Prune? || e.Lookup? || e.Acquire? || e.Release? || e.Fail? {
      SectionCovers(c, w, e, a);
    } else {
      TableStays(c, w, e);
    }
  }

  lemma SinceUp(c: Setup, w: World, e: Event)
    requires Enabled(c, w, e) && w.mode.Up?
    ensures !e.Restart? && !e.Compact?
  {
  }

  lemma RenewCovers(c: Setup, w: World, d: string, ttl: nat, a: Answer)
    requires d in w.pool.table && Covers(w.pool.table, a) && End(a) <= w.now + c.range.mappingTTL
    ensures Covers(Renewed(c, w, d, ttl).pool.table, a)
  {
  }

  lemma DropCovers(w: World, gone: set<string>, a: Answer)
    requires Live(w, a) && Covers(w.pool.table, a)
    requires forall d :: d in gone ==> d in w.pool.table && Expired(w.pool.table[d], w.now)
    ensures Covers(Drop(w.pool, gone).table, a)
  {
  }

  lemma InsertCovers(c: Setup, w: World, d: string, address: nat, removed: seq<string>, a: Answer)
    requires Covers(w.pool.table, a) && d !in w.pool.table
    ensures Covers(Started(c, w, d, address, removed).pool.table, a)
    ensures a.domain !in Unwritten(Started(c, w, d, address, removed))
  {
  }

  lemma LookupCovers(w: World, d: string, a: Answer)
    requires Live(w, a) && Covers(w.pool.table, a) && d in w.pool.table
    ensures Covers(DropIfExpired(w.pool, d, w.now).table, a)
    ensures Expired(w.pool.table[d], w.now) ==> Covers(Drop(w.pool, {d}).table, a)
    ensures Covers(Hold(w.pool, d).table, a) && Covers(Unhold(w.pool, d).table, a)
  {
  }

  lemma AbortCovers(w: World, a: Answer)
    requires Writing(w) ==> a.domain != w.window.update.value.mapping.domain
    requires Covers(w.pool.table, a)
    ensures Writing(w) ==> Covers(Abort(w.pool, w.window.update.value.mapping.domain).table, a)
  {
  }

  lemma StillShort(c: Setup, w: World, a: Answer)
    requires Invariant(c, w) && a in w.answers
    ensures End(a) <= w.now + c.range.mappingTTL
  {
    hide WellFormed, Serving, Honoured, Kept, EpochsUsed;
  }

  lemma {:induction false} SteadyRunCovers(c: Setup, w: World, events: seq<Event>, a: Answer)
    requires Invariant(c, w) && w.mode.Up? && Covers(w.pool.table, a) && a.domain !in Unwritten(w) && a in w.answers
    requires Steady(events) && Run(c, w, events).Some?
    ensures var v := Run(c, w, events).value;
            && Invariant(c, v) && v.mode.Up? && a in v.answers
            && (Live(v, a) ==> Covers(v.pool.table, a) && a.domain !in Unwritten(v))
  {
    hide Invariant, Enabled, Next, Covers, Unwritten;
    if events != [] {
      var front, e := events[..|events| - 1], events[|events| - 1];
      assert e in events && forall x :: x in front ==> x in events;
      SteadyRunCovers(c, w, front, a);
      var before := Run(c, w, front).value;
      StepKeeps(c, before, e);
      StepExposes(c, before, e);
      StaysUp(c, before, e);
      if Live(before, a) {
        CoveredStays(c, before, e, a);
      }
    }
  }

  lemma StaysUp(c: Setup, w: World, e: Event)
    requires Enabled(c, w, e) && w.mode.Up? && !e.Crash?
    ensures Next(c, w, e).mode.Up?
  {
    hide CanStart, Represents, ValidEpoch, Restarted;
  }

  /** The flows that hold a mapping end. */
  lemma {:induction false} DrainRun(c: Setup, start: World, begun: seq<Event>, w: World, d: string)
    returns (events: seq<Event>, v: World)
    requires Run(c, start, begun) == Some(w) && Invariant(c, w) && Steady(begun)
    requires w.mode.Up? && d in w.pool.table
    ensures Run(c, start, events) == Some(v) && Invariant(c, v) && Steady(events)
    ensures v == w.(pool := v.pool) && d in v.pool.table && v.pool.table[d] == w.pool.table[d].(references := 0)
    decreases w.pool.table[d].references
  {
    hide Invariant, Run;
    events, v := begun, w;
    if w.pool.table[d].references > 0 {
      StepRun(c, start, begun, w, Release(d));
      events, v := DrainRun(c, start, begun + [Release(d)], w.(pool := Unhold(w.pool, d)), d);
    }
  }

  /** Time passes. */
  lemma {:induction false} WaitRun(c: Setup, start: World, begun: seq<Event>, w: World, until: nat) returns (events: seq<Event>)
    requires Run(c, start, begun) == Some(w) && Invariant(c, w) && Steady(begun)
    requires w.window.Idle? && w.now <= until
    ensures Run(c, start, events) == Some(w.(now := until)) && Invariant(c, w.(now := until)) && Steady(events)
    decreases until - w.now
  {
    hide Invariant, Run;
    if w.now == until {
      events := begun;
      assert w == w.(now := until);
    } else {
      StepRun(c, start, begun, w, Tick);
      events := WaitRun(c, start, begun + [Tick], w.(now := w.now + 1), until);
    }
  }

  /** A mapping that ends before its answer can be pruned under it; then the
      address is free to be given away. */
  lemma ExpiryRun(c: Setup, w: World, a: Answer) returns (events: seq<Event>)
    requires Invariant(c, w) && w.mode.Up? && w.window.Idle?
    requires Live(w, a) && Maps(w.pool.table, a) && w.pool.table[a.domain].expiresAt < End(a)
    ensures Steady(events) && Run(c, w, events).Some?
    ensures var v := Run(c, w, events).value;
            Invariant(c, v) && Broken(v, a) && a.domain !in v.pool.table && AddressFree(v.pool.table, a.address)
  {
    hide Invariant, Run;
    RunNone(c, w);
    var drained;
    events, drained := DrainRun(c, w, [], w, a.domain);
    var expiry := Max(w.now, w.pool.table[a.domain].expiresAt);
    events := WaitRun(c, w, events, drained, expiry);
    var v := drained.(now := expiry);
    TableIsInjective(c, v);
    StepRun(c, w, events, v, Event.Prune);
    events := events + [Event.Prune];
  }

  lemma TableIsInjective(c: Setup, w: World)
    requires Invariant(c, w) && w.mode.Up?
    ensures Injective(w.pool.table)
  {
    hide WellFormed, Stored, Fits, ValidRange, DomainName.Canonical, Represents, Agree, Honoured;
  }

  /** An answer can lose its address while the service is up exactly when its
      mapping ends before it. */
  lemma BreaksIff(c: Setup, w: World, a: Answer)
    requires Invariant(c, w) && w.mode.Up? && w.window.Idle? && Live(w, a) && Maps(w.pool.table, a)
    ensures CanBreak(c, w, a) <==> w.pool.table[a.domain].expiresAt < End(a)
  {
    hide Invariant, Run, Steady, Broken;
    if w.pool.table[a.domain].expiresAt < End(a) {
      var events := ExpiryRun(c, w, a);
    } else if CanBreak(c, w, a) {
      var events :| Steady(events) && Run(c, w, events).Some? && Broken(Run(c, w, events).value, a);
      SteadyRunCovers(c, w, events, a);
      NotBroken(Run(c, w, events).value, a);
    }
  }

  lemma NotBroken(w: World, a: Answer)
    requires Live(w, a) ==> Covers(w.pool.table, a)
    ensures !Broken(w, a)
  {
  }

  // ---------------------------------------------------------------------
  // A write that takes too long

  /** The answer that ends a write can lose its address exactly when the write
      ended less than the answer's ttl before the mapping expires. */
  lemma SlowWriteBreaksIff(c: Setup, w: World, ttl: nat)
    requires Invariant(c, w) && Enabled(c, w, Finish(ttl)) && Writing(w)
    ensures CanBreak(c, Finished(w, ttl), NewAnswer(w, ttl))
       <==> w.window.update.value.recordedAt + c.range.mappingTTL < w.now + ttl
  {
    hide Invariant, CanBreak;
    FinishServes(c, w, ttl);
    TargetIsMapped(c, w);
    BreaksIff(c, Finished(w, ttl), NewAnswer(w, ttl));
  }

  // ---------------------------------------------------------------------
  // A restart with a lower dns_ttl

  /** The world when opening is over. */
  function Reopened(c: Setup, w: World, items: seq<Mapping>, epoch: string): World {
    if Restarted(c, w).mode.Opening? then Compacted(c, Restarted(c, w), items, epoch) else Restarted(c, w)
  }

  /** A restart honours a live answer exactly when the answer ends by the later
      of its stored expiry and now plus dns_ttl: otherwise there is a run in
      which its address is taken from it, and only then. */
  lemma RestartBreaksIff(c: Setup, w: World, a: Answer, items: seq<Mapping>, epoch: string)
    requires Invariant(c, w) && w.mode.Down? && Live(w, a) && a !in w.exposed
    requires Restarted(c, w).mode.Opening? ==>
               Represents(items, Restarted(c, w).pool.table) && ValidEpoch(epoch) && epoch !in w.used
    ensures a.domain in Stored(c, w.disk)
    ensures CanBreak(c, Reopened(c, w, items, epoch), a)
       <==> Max(Stored(c, w.disk)[a.domain].expiresAt, w.now + w.ttl) < End(a)
    ensures a in Restarted(c, w).exposed <==> Max(Stored(c, w.disk)[a.domain].expiresAt, w.now + w.ttl) < End(a)
  {
    LiveIsStored(c, w, a);
    RestartMaps(c, w, a);
    ReopenedServes(c, w, items, epoch);
    hide Invariant, CanBreak, Stored, Restarted, Reopened, Enabled;
    BreaksIff(c, Reopened(c, w, items, epoch), a);
  }

  lemma ReopenedServes(c: Setup, w: World, items: seq<Mapping>, epoch: string)
    requires Invariant(c, w) && w.mode.Down? && w.window.Idle?
    requires Restarted(c, w).mode.Opening? ==>
               Represents(items, Restarted(c, w).pool.table) && ValidEpoch(epoch) && epoch !in w.used
    ensures var v := Reopened(c, w, items, epoch);
            && Invariant(c, v) && v.mode.Up? && v.window.Idle? && v.answers == w.answers && v.now == w.now
            && v.pool.table == Restarted(c, w).pool.table
    ensures Restarted(c, w).exposed == w.exposed + Uncovered(w, Restarted(c, w).pool.table)
  {
    RestartKeeps(c, w);
    RestartedOnly(c, w);
    hide Invariant, Restarted, Represents, ValidEpoch;
    if Restarted(c, w).mode.Opening? {
      CompactServes(c, Restarted(c, w), items, epoch);
    }
  }

  /** What a start leaves alone. */
  lemma RestartedOnly(c: Setup, w: World)
    requires w.window.Idle?
    ensures var v := Restarted(c, w);
            && v.window.Idle? && v.answers == w.answers && v.now == w.now && v.used == w.used && !v.mode.Down?
            && v.exposed == w.exposed + Uncovered(w, v.pool.table)
  {
    hide Recover, Uncovered;
  }

  lemma LiveIsStored(c: Setup, w: World, a: Answer)
    requires Invariant(c, w) && w.mode.Down? && Live(w, a) && a !in w.exposed
    ensures Maps(Stored(c, w.disk), a) && w.window.Idle?
  {
    hide WellFormed, Stored, EpochsUsed;
  }

  lemma RestartMaps(c: Setup, w: World, a: Answer)
    requires Invariant(c, w) && w.mode.Down? && Maps(Stored(c, w.disk), a)
    ensures var t := Restarted(c, w).pool.table;
            Maps(t, a) && t[a.domain].expiresAt == Max(Stored(c, w.disk)[a.domain].expiresAt, Floor(w))
  {
    hide Durable, Recover;
    if Blank(w.disk) {
      BlankStoresNothing(c, w.disk);
    } else {
      RecoveryIsDurable(c.range, c.prefix, w.disk, Floor(w));
    }
  }

  // ---------------------------------------------------------------------
  // A crash while opening

  /** After a crash while opening, the next start takes the address from a live
      answer exactly when the snapshot alone does not have its mapping. */
  lemma OpeningCrashBreaksIff(c: Setup, w: World, a: Answer)
    requires Invariant(c, w) && w.mode.Opening? && !Blank(w.disk) && Live(w, a)
    ensures Restarted(c, Crashed(c, w, false)).mode.Up?
    ensures Broken(Restarted(c, Crashed(c, w, false)), a) <==> !Maps(Stored(c, w.disk), a)
  {
    SnapshotIsWhole(c, w);
    CrashedOpening(c, w);
    RestartOfWhole(c, Crashed(c, w, false));
    hide Invariant, Restarted, Crashed, Durable, WellFormed, Stored;
    assert Live(Restarted(c, Crashed(c, w, false)), a);
  }

  lemma CrashedOpening(c: Setup, w: World)
    requires w.mode.Opening?
    ensures var down := Crashed(c, w, false);
            down.disk == w.disk && down.answers == w.answers && down.now == w.now
  {
    hide Unmapped, Stored;
  }

  lemma RestartOfWhole(c: Setup, w: World)
    requires WellFormed(c.range, c.prefix, w.disk) && w.disk.journal.None? && Durable(c.range, w.disk) == Some(Stored(c, w.disk))
    ensures var v := Restarted(c, w);
            && v.mode.Up? && v.answers == w.answers && v.now == w.now
            && v.pool.table == Floored(Stored(c, w.disk), Floor(w))
  {
    hide Recover, Durable, WellFormed, Uncovered, Stored;
    RecoveryIsDurable(c.range, c.prefix, w.disk, Floor(w));
  }

  lemma SnapshotIsWhole(c: Setup, w: World)
    requires Invariant(c, w) && w.mode.Opening? && !Blank(w.disk)
    ensures WellFormed(c.range, c.prefix, w.disk) && w.disk.journal.None? && Durable(c.range, w.disk) == Some(Stored(c, w.disk))
  {
    hide ValidPool, Honoured, EpochsUsed;
  }
}
