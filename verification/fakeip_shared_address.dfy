/** A run in which two clients hold one address for two domains. a is answered
    and renewed, dns_ttl is lowered, the process crashes, the restart protects a
    only for the lower dns_ttl, and the only address is given to b while the
    renewed answer for a lives. Renewals are not journaled, so nothing on disk
    says that the address is still in use. */
module FakeIPSharedAddress {
  import opened Wrappers
  import opened AddressSpace
  import opened FakeIPTable
  import opened FakeIPJournal
  import opened FakeIPProtocol
  import opened FakeIPSafety
  import FakeIPPool
  import DomainName

  /** One address, one mapping, and a mapping_ttl of three. */
  const ONE: Setup := Setup(Range(10, 11, 1, 1, 3), "p")
  const EPOCH := "00000000000000000000000000000000"
  const EMPTY: Snapshot := Snapshot(VERSION, "p", EPOCH, [])

  const FIRST: Answer := Answer("a", 10, 1, 2)
  const SECOND: Answer := Answer("a", 10, 3, 2)
  const THIRD: Answer := Answer("b", 10, 4, 1)

  const RECORD_A: Record := Record(VERSION, "p", EPOCH, Update(1, [], Mapping("a", 10, 4)))
  const RECORD_B: Record := Record(VERSION, "p", EPOCH, Update(4, ["a"], Mapping("b", 10, 7)))

  const TABLE_A: Table := map["a" := Slot(10, 4, 0)]
  const RENEWED_A: Table := map["a" := Slot(10, 6, 0)]
  const TABLE_B: Table := map["b" := Slot(10, 7, 0)]

  function Serves(now: nat, ttl: nat, t: Table, pending: set<string>, window: Window, records: seq<Record>,
                  answers: set<Answer>, exposed: set<Answer>): World {
    World(now, ttl, Up, PoolState(t, pending, 10, true), window, EPOCH,
          Disk(Some(EMPTY), if records == [] then None else Some(Journal(records, false))), {EPOCH}, answers, exposed)
  }

  const FRESH: World :=
    World(1, 2, Down, PoolState(map[], {}, 10, false), Idle, EPOCH, Disk(Some(EMPTY), None), {EPOCH}, {}, {})
  const OPENED: World := Serves(1, 2, map[], {}, Idle, [], {}, {})
  const BEGUN_A: World := Serves(1, 2, TABLE_A, {}, Busy({}, Some(RECORD_A.update), Begun), [], {}, {})
  const WRITTEN_A: World := Serves(1, 2, TABLE_A, {}, Busy({}, Some(RECORD_A.update), Persisted), [RECORD_A], {}, {})
  const ANSWERED_A: World := Serves(1, 2, TABLE_A, {}, Idle, [RECORD_A], {FIRST}, {})
  const WAITED: World := ANSWERED_A.(now := 3)
  const RENEWED: World := Serves(3, 2, RENEWED_A, {}, Idle, [RECORD_A], {FIRST, SECOND}, {})
  const LOWERED: World := RENEWED.(ttl := 1)
  const CRASHED: World :=
    World(3, 1, Down, PoolState(map[], {}, 10, false), Idle, EPOCH, LOWERED.disk, {EPOCH}, {FIRST, SECOND}, {})
  const REOPENED: World := Serves(3, 1, TABLE_A, {}, Idle, [RECORD_A], {FIRST, SECOND}, {SECOND})
  const EXPIRING: World := REOPENED.(now := 4)
  const BEGUN_B: World :=
    Serves(4, 1, TABLE_B, {"a"}, Busy({"a"}, Some(RECORD_B.update), Begun), [RECORD_A], {FIRST, SECOND}, {SECOND})
  const WRITTEN_B: World :=
    Serves(4, 1, TABLE_B, {"a"}, Busy({"a"}, Some(RECORD_B.update), Persisted), [RECORD_A, RECORD_B], {FIRST, SECOND}, {SECOND})
  const ANSWERED_B: World := Serves(4, 1, TABLE_B, {}, Idle, [RECORD_A, RECORD_B], {FIRST, SECOND, THIRD}, {SECOND})

  const EVENTS: seq<Event> :=
    [Restart, Begin("a", 10, []), Append, Finish(2), Tick, Tick, Renew("a", 2), Reload(1), Crash(false), Restart, Tick,
     Begin("b", 10, ["a"]), Append, Finish(1)]

  ghost predicate Leads(w: World, e: Event, v: World) {
    Enabled(ONE, w, e) && Next(ONE, w, e) == v
  }

  lemma EpochIsValid()
    ensures ValidEpoch(EPOCH) && EPOCH != ""
  {
  }

  lemma LettersDiffer()
    ensures "a" != "b" && DomainName.Canonical("a") && DomainName.Canonical("b")
  {
    assert "a"[0] != "b"[0];
    DomainName.LetterIsCanonical("a");
    DomainName.LetterIsCanonical("b");
  }

  lemma FreshIsInitial()
    ensures Initial(ONE, FRESH)
  {
    hide ValidEpoch;
    EpochIsValid();
  }

  // ---------------------------------------------------------------------
  // Step by step

  lemma FirstStart()
    ensures Restarted(ONE, FRESH) == OPENED
  {
    hide ValidEpoch;
    EpochIsValid();
    assert RestoreTable(ONE.range, [], 3) == Some(map[]);
  }

  lemma Starts()
    ensures Leads(FRESH, Restart, OPENED)
  {
    FirstStart();
  }

  /** Both allocations of the run find an empty pool. */
  lemma AllocatesTen(w: World, d: string, removed: seq<string>)
    requires w.mode.Up? && w.window.Idle? && w.pool.next == 10 && Pruned(w).pool.table == map[]
    requires d !in w.pool.table && DomainName.Canonical(d) && FakeIPPool.Lists(removed, Pruned(w).pool.pending)
    ensures Leads(w, Begin(d, 10, removed),
                  w.(pool := PoolState(map[d := Slot(10, w.now + 3, 0)], Pruned(w).pool.pending, 10, w.pool.journaled),
                     window := Busy(Pruned(w).pool.pending, Some(Update(w.now, removed, Mapping(d, 10, w.now + 3))), Begun)))
  {
    hide DomainName.Canonical, FakeIPPool.Lists;
    assert FakeIPPool.Candidate(ONE.range, 10, 0) == 10;
    assert map[][d := Slot(10, w.now + 3, 0)] == map[d := Slot(10, w.now + 3, 0)];
  }

  lemma NothingExpires()
    ensures FakeIPTable.Prune(OPENED.pool, 1) == OPENED.pool
  {
    var empty: Table := map[];
    assert empty - {} == empty;
  }

  lemma AllocatesA()
    ensures Leads(OPENED, Begin("a", 10, []), BEGUN_A)
  {
    LettersDiffer();
    NothingExpires();
    hide Leads, DomainName.Canonical, FakeIPTable.Prune;
    AllocatesTen(OPENED, "a", []);
  }

  lemma AppendsA()
    ensures Leads(BEGUN_A, Append, WRITTEN_A)
  {
    assert [] + [RECORD_A] == [RECORD_A];
  }

  lemma AnswersA()
    ensures Leads(WRITTEN_A, Finish(2), ANSWERED_A)
  {
  }

  lemma Waits()
    ensures Leads(ANSWERED_A, Tick, ANSWERED_A.(now := 2)) && Leads(ANSWERED_A.(now := 2), Tick, WAITED)
    ensures Leads(REOPENED, Tick, EXPIRING)
  {
  }

  lemma Renews()
    ensures Leads(WAITED, Renew("a", 2), RENEWED)
  {
    assert {FIRST} + {SECOND} == {FIRST, SECOND};
  }

  lemma Lowers()
    ensures Leads(RENEWED, Reload(1), LOWERED)
  {
  }

  lemma Crashes()
    ensures Leads(LOWERED, Crash(false), CRASHED)
  {
  }

  lemma NothingStored(disk: Disk)
    requires disk == Disk(Some(EMPTY), None)
    ensures WellFormed(ONE.range, "p", disk) && Durable(ONE.range, disk) == Some(map[])
  {
    hide ValidEpoch;
    EpochIsValid();
    assert RestoreTable(ONE.range, [], 0) == Some(map[]);
  }

  lemma AddsFirst(t: Table)
    requires t == map[]
    ensures ApplyUpdate(ONE.range, t, RECORD_A.update, 0) == Some(TABLE_A)
  {
    LettersDiffer();
    hide DomainName.Canonical, ApplyUpdate;
    assert t - (set d | d in RECORD_A.update.removed) == t;
    CleanUpdate(ONE.range, t, RECORD_A.update, 0);
  }

  /** What is on disk is the mapping as it was first written. */
  lemma StoresFirst(disk: Disk)
    requires disk == Disk(Some(EMPTY), Some(Journal([RECORD_A], false)))
    ensures WellFormed(ONE.range, "p", disk) && Durable(ONE.range, disk) == Some(TABLE_A)
  {
    hide ValidEpoch, WellFormed, Durable, ApplyUpdate;
    EpochIsValid();
    var before := Disk(Some(EMPTY), None);
    NothingStored(before);
    AddsFirst(map[]);
    assert Appended(before, RECORD_A) == disk by { assert [] + [RECORD_A] == [RECORD_A]; }
    AppendedIsDurable(ONE.range, "p", before, RECORD_A);
  }

  lemma SecondIsUncovered()
    ensures Uncovered(CRASHED, TABLE_A) == {SECOND}
  {
    assert End(FIRST) == 3 && End(SECOND) == 5;
  }

  lemma LowerRestarts()
    ensures Restarted(ONE, CRASHED) == REOPENED
  {
    StoresFirst(CRASHED.disk);
    hide WellFormed, Durable, Recover, Uncovered, ValidEpoch;
    RecoveryIsDurable(ONE.range, "p", CRASHED.disk, 4);
    assert Floored(TABLE_A, 4) == TABLE_A;
    SecondIsUncovered();
  }

  lemma RestartsLower()
    ensures Leads(CRASHED, Restart, REOPENED)
  {
    LowerRestarts();
    hide Restarted, Serves;
  }

  lemma FirstExpires()
    ensures FakeIPTable.Prune(EXPIRING.pool, 4) == PoolState(map[], {"a"}, 10, true)
  {
    assert ExpiredDomains(TABLE_A, 4) == {"a"};
    assert TABLE_A - {"a"} == map[];
  }

  lemma AllocatesB()
    ensures Leads(EXPIRING, Begin("b", 10, ["a"]), BEGUN_B)
  {
    LettersDiffer();
    FirstExpires();
    hide Leads, DomainName.Canonical, FakeIPTable.Prune;
    AllocatesTen(EXPIRING, "b", ["a"]);
  }

  lemma AppendsB()
    ensures Leads(BEGUN_B, Append, WRITTEN_B)
  {
    assert [RECORD_A] + [RECORD_B] == [RECORD_A, RECORD_B];
  }

  lemma AnswersB()
    ensures Leads(WRITTEN_B, Finish(1), ANSWERED_B)
  {
    assert {"a"} - {"a"} == {};
    assert {FIRST, SECOND} + {THIRD} == {FIRST, SECOND, THIRD};
  }

  // ---------------------------------------------------------------------

  lemma Follow(n: nat, w: World, v: World)
    requires n < |EVENTS| && Run(ONE, FRESH, EVENTS[..n]) == Some(w) && Leads(w, EVENTS[n], v)
    ensures Run(ONE, FRESH, EVENTS[..n + 1]) == Some(v)
  {
    hide Run, Enabled, Next;
    RunThen(ONE, FRESH, EVENTS[..n], w, EVENTS[n]);
    assert EVENTS[..n] + [EVENTS[n]] == EVENTS[..n + 1];
  }

  lemma FirstSteps()
    ensures Run(ONE, FRESH, EVENTS[..7]) == Some(RENEWED)
  {
    Starts(); AllocatesA(); AppendsA(); AnswersA(); Waits(); Renews();
    RunNone(ONE, FRESH);
    hide Run, Leads, Serves;
    assert EVENTS[..0] == [];
    Follow(0, FRESH, OPENED);
    Follow(1, OPENED, BEGUN_A);
    Follow(2, BEGUN_A, WRITTEN_A);
    Follow(3, WRITTEN_A, ANSWERED_A);
    Follow(4, ANSWERED_A, ANSWERED_A.(now := 2));
    Follow(5, ANSWERED_A.(now := 2), WAITED);
    Follow(6, WAITED, RENEWED);
  }

  lemma LastSteps()
    requires Run(ONE, FRESH, EVENTS[..7]) == Some(RENEWED)
    ensures Run(ONE, FRESH, EVENTS) == Some(ANSWERED_B)
  {
    Lowers(); Crashes(); RestartsLower(); Waits(); AllocatesB(); AppendsB(); AnswersB();
    hide Run, Leads, Serves;
    Follow(7, RENEWED, LOWERED);
    Follow(8, LOWERED, CRASHED);
    Follow(9, CRASHED, REOPENED);
    Follow(10, REOPENED, EXPIRING);
    Follow(11, EXPIRING, BEGUN_B);
    Follow(12, BEGUN_B, WRITTEN_B);
    Follow(13, WRITTEN_B, ANSWERED_B);
    assert EVENTS[..14] == EVENTS;
  }

  /** From a machine that never answered anything, a run of the protocol ends
      with two live answers that give one address to two domains. */
  lemma LoweredTTLSharesAddress()
    ensures Initial(ONE, FRESH) && Run(ONE, FRESH, EVENTS).Some?
    ensures var w := Run(ONE, FRESH, EVENTS).value;
            && Live(w, SECOND) && Live(w, THIRD) && SECOND in w.exposed
            && SECOND.address == THIRD.address && SECOND.domain != THIRD.domain
  {
    FreshIsInitial();
    LettersDiffer();
    FirstSteps();
    LastSteps();
    hide Run, Initial;
  }
}
