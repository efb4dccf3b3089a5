/** A Fake IP pool and its disk as a transition system. Every section that runs
    under the mapping lock is one step, every durable effect is one step, and a
    crash may fall between any two of them, also while the service is opening.

    What the steps assume: the clock is monotone, and of the configuration only
    dns_ttl changes; a failed append is undone; an allocation gets no error for
    an effect that is already durable; and its write takes less than
    mapping_ttl. FakeIPExposure and FakeIPFaults show what the first and the
    remaining ones are needed for. */
module FakeIPProtocol {
  import opened Wrappers
  import opened AddressSpace
  import opened Collections
  import opened FakeIPTable
  import opened FakeIPJournal
  import FakeIPPool
  import DomainName

  datatype Setup = Setup(range: Range, prefix: string)

  /** What the configuration accepts as dns_ttl. */
  predicate ValidTTL(c: Setup, ttl: nat) {
    0 < ttl < c.range.mappingTTL
  }

  /** How far the holder of the persistence lock has come. Snapped remembers the
      table it copied; Renamed has switched epochs but still has the old journal. */
  datatype Progress = Begun | Snapped(items: seq<Mapping>, table: Table) | Renamed | Persisted

  /** An allocation carries an update, a flush does not. removed is the set of
      tombstones that will be retired when the write is finished. */
  datatype Window = Idle | Busy(removed: set<string>, update: Option<Update>, progress: Progress)

  datatype Mode = Down | Opening | Up

  /** An address given to a client that may keep it for ttl. */
  datatype Answer = Answer(domain: string, address: nat, at: nat, ttl: nat)

  function End(a: Answer): nat {
    a.at + a.ttl
  }

  /** ttl is the dns_ttl in force. answers and exposed are history that no step
      reads: every answer ever given, and those that were left without a mapping
      that lasts as long. */
  datatype World = World(now: nat, ttl: nat, mode: Mode, pool: PoolState, window: Window, epoch: string, disk: Disk,
                         used: set<string>, answers: set<Answer>, exposed: set<Answer>)

  datatype Event =
    | Tick
    | Reload(ttl: nat)
    | Renew(domain: string, ttl: nat)
    | Begin(domain: string, address: nat, removed: seq<string>)
    | Prune
    | Lookup(domain: string)
    | Acquire(domain: string)
    | Release(domain: string)
    | Append
    | Fail(created: bool)
    | TakeSnapshot(items: seq<Mapping>)
    | Rename(epoch: string)
    | ClearJournal
    | Finish(ttl: nat)
    | Flush(items: seq<Mapping>)
    | Crash(torn: bool)
    | Restart
    | Compact(items: seq<Mapping>, epoch: string)

  // ---------------------------------------------------------------------
  // Steps. The ttl of an answer is the one its query started with, which a
  // reload may have replaced since.

  predicate Writing(w: World) {
    w.window.Busy? && w.window.update.Some?
  }

  predicate Written(w: World) {
    w.window.Busy? && (w.window.progress.Renamed? || w.window.progress.Persisted?)
  }

  /** A flush may fail at any point. An allocation whose effect is durable may
      not; created says that the failed append had created the journal. */
  predicate CanFail(w: World, created: bool) {
    && w.window.Busy? && (w.window.update.None? || !Written(w))
    && (created ==> Writing(w) && w.window.progress.Begun?)
  }

  /** What the first section of an allocation finds in the pruned pool. */
  ghost predicate CanStart(c: Setup, w: World, address: nat, removed: seq<string>) {
    && |w.pool.table| < c.range.maxMappings
    && FakeIPPool.FirstFree(c.range, w.pool.table, w.pool.next, address)
    && FakeIPPool.Lists(removed, w.pool.pending)
  }

  ghost predicate Enabled(c: Setup, w: World, e: Event) {
    match e
    case Tick => Writing(w) ==> w.now + 1 < w.window.update.value.recordedAt + c.range.mappingTTL
    case Reload(ttl) => ValidTTL(c, ttl)
    case Renew(d, ttl) => w.mode.Up? && w.window.Idle? && d in w.pool.table && ValidTTL(c, ttl)
    case Begin(d, address, removed) =>
      && w.mode.Up? && w.window.Idle? && DomainName.Canonical(d) && d !in w.pool.table
      && CanStart(c, Pruned(w), address, removed)
    case Prune => w.mode.Up?
    case Lookup(d) => w.mode.Up? && d in w.pool.table
    case Acquire(d) => w.mode.Up? && d in w.pool.table
    case Release(d) => w.mode.Up? && d in w.pool.table
    case Append => w.mode.Up? && Writing(w) && w.window.progress.Begun?
    case Fail(created) => w.mode.Up? && CanFail(w, created)
    case TakeSnapshot(items) => w.mode.Up? && Writing(w) && w.window.progress.Begun? && Represents(items, w.pool.table)
    case Rename(epoch) => w.mode.Up? && w.window.Busy? && w.window.progress.Snapped? && ValidEpoch(epoch) && epoch !in w.used
    case ClearJournal => w.mode.Up? && w.window.Busy? && w.window.progress.Renamed?
    case Finish(ttl) => w.mode.Up? && w.window.Busy? && w.window.progress.Persisted? && ValidTTL(c, ttl)
    case Flush(items) => w.mode.Up? && w.window.Idle? && Represents(items, w.pool.table)
    case Crash(torn) => !w.mode.Down? && (torn ==> w.mode.Up? && Writing(w) && w.window.progress.Begun?)
    case Restart => w.mode.Down?
    case Compact(items, epoch) => w.mode.Opening? && Represents(items, w.pool.table) && ValidEpoch(epoch) && epoch !in w.used
  }

  predicate Live(w: World, a: Answer) {
    a in w.answers && w.now < End(a)
  }

  predicate Maps(t: Table, a: Answer) {
    a.domain in t && t[a.domain].address == a.address
  }

  /** The table maps the answer for as long as a client may keep it. */
  predicate Covers(t: Table, a: Answer) {
    Maps(t, a) && End(a) <= t[a.domain].expiresAt
  }

  function Uncovered(w: World, t: Table): set<Answer> {
    set a | a in w.answers && w.now < End(a) && !Covers(t, a)
  }

  function Unmapped(w: World, t: Table): set<Answer> {
    set a | a in w.answers && w.now < End(a) && !Maps(t, a)
  }

  /** The durable table; a disk without a snapshot stores nothing. */
  function Stored(c: Setup, disk: Disk): Table {
    var durable := Durable(c.range, disk);
    if durable.Some? then durable.value else map[]
  }

  /** The process is gone; an interrupted append may leave a torn tail. While
      opening, the journal that was moved aside is gone too. */
  function Crashed(c: Setup, w: World, torn: bool): World {
    var disk := if torn then w.disk.(journal := Some(Journal(Records(w.disk), true))) else w.disk;
    w.(mode := Down, pool := PoolState(map[], {}, c.range.start, false), window := Idle, disk := disk,
       exposed := if w.mode.Opening? then w.exposed + Unmapped(w, Stored(c, disk)) else w.exposed)
  }

  /** What the protection window of a start reaches to. */
  function Floor(w: World): nat {
    w.now + w.ttl
  }

  /** OpenPersistence up to the point where a checkpoint may be needed. */
  function Restarted(c: Setup, w: World): World {
    var r := Recover(c.range, c.prefix, w.disk, Floor(w));
    var exposed := w.exposed + Uncovered(w, r.table);
    if r.checkpoint then
      w.(mode := Opening, pool := PoolState(r.table, {}, c.range.start, false), disk := w.disk.(journal := None),
         exposed := exposed)
    else
      w.(mode := Up, pool := PoolState(r.table, {}, c.range.start, true), epoch := r.epoch, exposed := exposed)
  }

  function FreshSnapshot(c: Setup, items: seq<Mapping>, epoch: string): Snapshot {
    Snapshot(VERSION, c.prefix, epoch, items)
  }

  function Renewed(c: Setup, w: World, d: string, ttl: nat): World
    requires d in w.pool.table
  {
    w.(pool := FakeIPTable.Renew(w.pool, d, w.now + c.range.mappingTTL),
       answers := w.answers + {Answer(d, w.pool.table[d].address, w.now, ttl)})
  }

  /** The first section of an allocation, from a pool that was just pruned. */
  function Started(c: Setup, w: World, d: string, address: nat, removed: seq<string>): World {
    var expiresAt := w.now + c.range.mappingTTL;
    w.(pool := Insert(w.pool, d, address, expiresAt, FakeIPPool.After(c.range, address)),
       window := Busy(w.pool.pending, Some(Update(w.now, removed, Mapping(d, address, expiresAt))), Begun))
  }

  function Pruned(w: World): World {
    w.(pool := FakeIPTable.Prune(w.pool, w.now))
  }

  function Recorded(c: Setup, w: World): World
    requires Writing(w)
  {
    var record := Record(VERSION, c.prefix, w.epoch, w.window.update.value);
    w.(disk := Appended(w.disk, record), window := w.window.(progress := Persisted))
  }

  function Failed(w: World, created: bool): World
    requires w.window.Busy?
  {
    w.(disk := if created then w.disk.(journal := Some(Journal(Records(w.disk), false))) else w.disk,
       pool := if Writing(w) then Abort(w.pool, w.window.update.value.mapping.domain) else w.pool,
       window := Idle)
  }

  function Copied(w: World, items: seq<Mapping>): World
    requires w.window.Busy?
  {
    w.(window := w.window.(progress := Snapped(items, w.pool.table)))
  }

  function Switched(c: Setup, w: World, epoch: string): World
    requires w.window.Busy? && w.window.progress.Snapped?
  {
    w.(disk := Replaced(w.disk, FreshSnapshot(c, w.window.progress.items, epoch)), epoch := epoch,
       used := w.used + {epoch}, window := w.window.(progress := Renamed))
  }

  function Cleared(w: World): World
    requires w.window.Busy?
  {
    w.(disk := w.disk.(journal := None), window := w.window.(progress := Persisted))
  }

  /** The second section without the answer. */
  function Settled(w: World): World
    requires w.window.Busy?
  {
    w.(pool := Settle(w.pool, w.window.removed), window := Idle)
  }

  /** The answer that ends an allocation. */
  function NewAnswer(w: World, ttl: nat): Answer
    requires Writing(w)
  {
    var m := w.window.update.value.mapping;
    Answer(m.domain, m.address, w.now, ttl)
  }

  function Answered(w: World, a: Answer): World {
    w.(answers := w.answers + {a}, exposed := if Covers(w.pool.table, a) then w.exposed else w.exposed + {a})
  }

  /** The second section: tombstones are retired and an allocation is answered. */
  function Finished(w: World, ttl: nat): World
    requires w.window.Busy?
  {
    if Writing(w) then Answered(Settled(w), NewAnswer(w, ttl)) else Settled(w)
  }

  function Flushing(w: World, items: seq<Mapping>): World {
    w.(window := Busy(w.pool.pending, None, Snapped(items, w.pool.table)))
  }

  function Compacted(c: Setup, w: World, items: seq<Mapping>, epoch: string): World {
    w.(mode := Up, pool := w.pool.(journaled := true), epoch := epoch, used := w.used + {epoch},
       disk := Replaced(w.disk, FreshSnapshot(c, items, epoch)).(journal := None))
  }

  ghost function Next(c: Setup, w: World, e: Event): World
    requires Enabled(c, w, e)
  {
    match e
    case Tick => w.(now := w.now + 1)
    case Reload(ttl) => w.(ttl := ttl)
    case Renew(d, ttl) => Renewed(c, w, d, ttl)
    case Begin(d, address, removed) => Started(c, Pruned(w), d, address, removed)
    case Prune => Pruned(w)
    case Lookup(d) => w.(pool := DropIfExpired(w.pool, d, w.now))
    case Acquire(d) => w.(pool := if Expired(w.pool.table[d], w.now) then Drop(w.pool, {d}) else Hold(w.pool, d))
    case Release(d) => w.(pool := Unhold(w.pool, d))
    case Append => Recorded(c, w)
    case Fail(created) => Failed(w, created)
    case TakeSnapshot(items) => Copied(w, items)
    case Rename(epoch) => Switched(c, w, epoch)
    case ClearJournal => Cleared(w)
    case Finish(ttl) => Finished(w, ttl)
    case Flush(items) => Flushing(w, items)
    case Crash(torn) => Crashed(c, w, torn)
    case Restart => Restarted(c, w)
    case Compact(items, epoch) => Compacted(c, w, items, epoch)
  }

  // ---------------------------------------------------------------------
  // The invariant

  /** The domain whose mapping is in memory only because its write is still in
      progress. */
  function Target(w: World): set<string> {
    if Writing(w) then {w.window.update.value.mapping.domain} else {}
  }

  function Unwritten(w: World): set<string> {
    if Written(w) then {} else Target(w)
  }

  /** The tombstones that the durable table may still need. */
  function Tombstones(w: World): set<string> {
    if Written(w) then w.pool.pending - w.window.removed else w.pool.pending
  }

  /** Outside exempt the table is stored; whatever else is stored is a tombstone. */
  ghost predicate Agree(t: Table, tombstones: set<string>, stored: Table, exempt: set<string>) {
    && (forall d :: d in t && d !in exempt ==> d in stored && stored[d].address == t[d].address)
    && (forall d :: d in stored ==> d in tombstones || (d in t && d !in exempt))
  }

  /** Once the tombstones are gone there is room for the mapping, and nobody
      else has its domain or its address. */
  ghost predicate Fits(c: Setup, stored: Table, removed: set<string>, m: Mapping) {
    && |stored - removed| < c.range.maxMappings
    && forall d :: d in stored && d !in removed ==> d != m.domain && stored[d].address != m.address
  }

  /** The allocation being written is in the table and has not expired. */
  ghost predicate TargetKept(c: Setup, w: World) {
    Writing(w) ==>
      var u := w.window.update.value;
      && DomainName.Canonical(u.mapping.domain)
      && FakeIPPool.Lists(u.removed, w.window.removed)
      && c.range.start <= u.mapping.address < c.range.end
      && 0 < u.recordedAt <= w.now < u.recordedAt + c.range.mappingTTL
      && u.mapping.expiresAt == u.recordedAt + c.range.mappingTTL
      && u.mapping.domain in w.pool.table
      && w.pool.table[u.mapping.domain].address == u.mapping.address
      && w.pool.table[u.mapping.domain].expiresAt == u.mapping.expiresAt
      && (u.mapping.domain in w.pool.pending ==> u.mapping.domain in w.window.removed)
  }

  ghost predicate PendingKept(w: World) {
    && (w.window.Busy? ==> w.window.removed <= w.pool.pending)
    && (forall d :: d in w.pool.table && d in w.pool.pending ==> d in Target(w))
  }

  ghost predicate SnapshotKept(c: Setup, w: World) {
    w.window.Busy? ==>
      && (w.window.progress.Snapped? ==>
            && Represents(w.window.progress.items, w.window.progress.table)
            && ValidTable(c.range, w.window.progress.table)
            && Agree(w.pool.table, w.pool.pending - w.window.removed, w.window.progress.table, {}))
      && (w.window.progress.Renamed? ==> forall r :: r in Records(w.disk) ==> r.epoch != w.epoch)
      && (w.window.update.None? ==> !w.window.progress.Begun?)
  }

  ghost predicate Serving(c: Setup, w: World) {
    && ValidPool(c.range, w.pool) && w.pool.journaled
    && WellFormed(c.range, c.prefix, w.disk) && !Torn(w.disk) && w.epoch == w.disk.snapshot.value.epoch
    && PendingKept(w) && TargetKept(c, w) && SnapshotKept(c, w)
    && Agree(w.pool.table, Tombstones(w), Stored(c, w.disk), Unwritten(w))
    && (Unwritten(w) != {} ==> Fits(c, Stored(c, w.disk), w.window.removed, w.window.update.value.mapping))
  }

  /** Every live answer that was not exposed is a mapping that lasts as long. */
  ghost predicate Honoured(w: World) {
    forall a :: Live(w, a) && a !in w.exposed ==> Covers(w.pool.table, a) && a.domain !in Unwritten(w)
  }

  /** Every live answer that was not exposed is stored. */
  ghost predicate Kept(w: World, stored: Table) {
    forall a :: Live(w, a) && a !in w.exposed ==> Maps(stored, a)
  }

  /** Answers are not from the future and shorter than mapping_ttl. */
  ghost predicate Timely(c: Setup, w: World) {
    && 0 < w.now && ValidTTL(c, w.ttl)
    && forall a :: a in w.answers ==> a.at <= w.now && ValidTTL(c, a.ttl)
  }

  ghost predicate EpochsUsed(w: World) {
    && (w.disk.snapshot.Some? ==> w.disk.snapshot.value.epoch in w.used)
    && forall r :: r in Records(w.disk) ==> r.epoch in w.used
  }

  /** A disk that was never written. */
  predicate Blank(disk: Disk) {
    disk == Disk(None, None)
  }

  ghost predicate Invariant(c: Setup, w: World) {
    && ValidRange(c.range) && Timely(c, w) && EpochsUsed(w)
    && match w.mode
       case Down =>
         w.window.Idle? && (Blank(w.disk) || WellFormed(c.range, c.prefix, w.disk)) && Kept(w, Stored(c, w.disk))
       case Opening =>
         && w.window.Idle? && (Blank(w.disk) || WellFormed(c.range, c.prefix, w.disk)) && w.disk.journal.None?
         && ValidPool(c.range, w.pool) && w.pool.pending == {} && !w.pool.journaled && Honoured(w)
       case Up => Serving(c, w) && Honoured(w)
  }

  /** A machine that has never answered anything: its disk is blank or holds an
      empty checkpoint. */
  ghost predicate Initial(c: Setup, w: World) {
    && ValidRange(c.range) && 0 < w.now && ValidTTL(c, w.ttl)
    && w.mode.Down? && w.window.Idle? && w.answers == {} && w.exposed == {}
    && (Blank(w.disk) || EmptyCheckpoint(c, w))
  }

  predicate EmptyCheckpoint(c: Setup, w: World) {
    && w.disk.journal.None? && w.disk.snapshot.Some? && w.disk.snapshot.value.items == []
    && UsableSnapshot(w.disk.snapshot.value, c.prefix)
    && w.disk.snapshot.value.epoch != "" && w.disk.snapshot.value.epoch in w.used
  }

  lemma InitialHolds(c: Setup, w: World)
    requires Initial(c, w)
    ensures Invariant(c, w)
  {
    assert RestoreTable(c.range, [], 0) == Some(map[]);
  }

  // ---------------------------------------------------------------------
  // Sections of the pool

  /** Whatever expires may go at any time, even while a write is in progress. */
  lemma DropServes(c: Setup, w: World, gone: set<string>)
    requires Invariant(c, w) && w.mode.Up?
    requires forall d :: d in gone ==> d in w.pool.table && Expired(w.pool.table[d], w.now)
    ensures Invariant(c, w.(pool := Drop(w.pool, gone)))
  {
    hide WellFormed, ValidPool, ValidRange, Stored, Fits, Represents, DomainName.Canonical, ValidTable;
    DropKeepsValid(c.range, w.pool, gone);
    var after := w.(pool := Drop(w.pool, gone));
    assert Serving(c, after);
  }

  /** Counting flows and renewing move nothing. */
  lemma TouchServes(c: Setup, w: World, p: PoolState)
    requires Invariant(c, w) && w.mode.Up? && ValidPool(c.range, p)
    requires w.pool == p.(table := w.pool.table) && p.table.Keys == w.pool.table.Keys
    requires forall d :: d in p.table ==>
               && p.table[d].address == w.pool.table[d].address
               && (p.table[d].expiresAt != w.pool.table[d].expiresAt ==>
                     w.window.Idle? && w.now + c.range.mappingTTL <= p.table[d].expiresAt)
    ensures Invariant(c, w.(pool := p))
  {
    hide WellFormed, ValidPool, ValidRange, Stored, Fits, Represents, DomainName.Canonical, ValidTable;
    assert Serving(c, w.(pool := p));
  }

  lemma ExpiriesFit(c: Setup, w: World)
    requires Invariant(c, w) && w.mode.Up?
    ensures ValidPool(c.range, w.pool) && w.pool.journaled
    ensures forall d :: d in w.pool.table ==> w.pool.table[d].expiresAt > ZERO_TIME
  {
    hide WellFormed, ValidRange, DomainName.Canonical;
  }

  lemma HoldServes(c: Setup, w: World, d: string)
    requires Invariant(c, w) && w.mode.Up? && d in w.pool.table
    ensures Invariant(c, w.(pool := Hold(w.pool, d))) && Invariant(c, w.(pool := Unhold(w.pool, d)))
  {
    hide Invariant, ValidPool;
    ExpiriesFit(c, w);
    SlotUpdatesKeepValid(c.range, w.pool, d, w.pool.table[d].expiresAt);
    TouchServes(c, w, Hold(w.pool, d));
    TouchServes(c, w, Unhold(w.pool, d));
  }

  /** A new answer is covered or becomes exposed. */
  lemma AnswerServes(c: Setup, w: World, a: Answer)
    requires Invariant(c, w) && w.mode.Up? && w.window.Idle? && a.at == w.now && ValidTTL(c, a.ttl)
    ensures Invariant(c, Answered(w, a))
  {
    hide WellFormed, ValidPool, ValidRange, Stored, Agree, Fits, Represents, DomainName.Canonical, ValidTable, Records;
    assert Serving(c, Answered(w, a));
  }

  lemma RenewTouches(c: Setup, w: World, d: string)
    requires Invariant(c, w) && w.mode.Up? && w.window.Idle? && d in w.pool.table
    ensures var renewed := FakeIPTable.Renew(w.pool, d, w.now + c.range.mappingTTL);
            && Invariant(c, w.(pool := renewed))
            && d in renewed.table && renewed.table[d].address == w.pool.table[d].address
            && renewed.table[d].expiresAt == w.now + c.range.mappingTTL
  {
    hide ValidPool, Invariant, WellFormed;
    ExpiriesFit(c, w);
    SetupFits(c, w);
    SlotUpdatesKeepValid(c.range, w.pool, d, w.now + c.range.mappingTTL);
    TouchServes(c, w, FakeIPTable.Renew(w.pool, d, w.now + c.range.mappingTTL));
  }

  /** A renewal leaves no answer exposed, not even those before it. */
  lemma RenewServes(c: Setup, w: World, d: string, ttl: nat)
    requires Invariant(c, w) && w.mode.Up? && w.window.Idle? && d in w.pool.table && ValidTTL(c, ttl)
    ensures Invariant(c, Renewed(c, w, d, ttl))
  {
    hide Invariant, FakeIPTable.Renew;
    RenewTouches(c, w, d);
    AnswerServes(c, w.(pool := FakeIPTable.Renew(w.pool, d, w.now + c.range.mappingTTL)),
                 Answer(d, w.pool.table[d].address, w.now, ttl));
  }

  lemma SetupFits(c: Setup, w: World)
    requires Invariant(c, w)
    ensures 0 < w.now && ValidTTL(c, w.ttl)
    ensures w.mode.Up? ==> WellFormed(c.range, c.prefix, w.disk)
  {
    hide WellFormed, Honoured, Kept, Agree, TargetKept, SnapshotKept, ValidPool;
  }

  // ---------------------------------------------------------------------
  // Allocation

  lemma StartFits(c: Setup, w: World, d: string, address: nat, expiresAt: nat)
    requires w.mode.Up? && w.window.Idle? && |w.pool.table| < c.range.maxMappings
    requires d !in w.pool.table && AddressFree(w.pool.table, address)
    requires Agree(w.pool.table, w.pool.pending, Stored(c, w.disk), {})
    ensures Fits(c, Stored(c, w.disk), w.pool.pending, Mapping(d, address, expiresAt))
  {
    hide Stored;
    var left := Stored(c, w.disk) - w.pool.pending;
    assert left.Keys <= w.pool.table.Keys;
    SmallerMap(left, w.pool.table);
  }

  lemma StartServes(c: Setup, w: World, d: string, address: nat, removed: seq<string>)
    requires Invariant(c, w) && w.mode.Up? && w.window.Idle?
    requires DomainName.Canonical(d) && d !in w.pool.table && CanStart(c, w, address, removed)
    ensures Invariant(c, Started(c, w, d, address, removed))
  {
    hide WellFormed, Stored, Fits, DomainName.Canonical, Represents, ValidTable, FakeIPPool.FirstFree;
    var after := Started(c, w, d, address, removed);
    FakeIPPool.FirstFreeIsUsable(c.range, w.pool, address);
    FakeIPPool.FirstFreeIsFree(c.range, w.pool.table, w.pool.next, address);
    StartFits(c, w, d, address, w.now + c.range.mappingTTL);
    hide FakeIPPool.After, AddressFree;
    InsertKeepsValid(c.range, w.pool, d, address, w.now + c.range.mappingTTL, FakeIPPool.After(c.range, address));
    hide ValidPool;
    assert Serving(c, after);
  }

  // ---------------------------------------------------------------------
  // Writing

  /** The record of an allocation is accepted: it removes exactly the retired
      tombstones and adds exactly its mapping. */
  lemma RecordFits(c: Setup, w: World)
    requires Invariant(c, w) && w.mode.Up? && Writing(w) && w.window.progress.Begun?
    ensures var u := w.window.update.value;
            ApplyUpdate(c.range, Stored(c, w.disk), u, 0) ==
              Some((Stored(c, w.disk) - w.window.removed)[u.mapping.domain := Slot(u.mapping.address, u.mapping.expiresAt, 0)])
  {
    hide WellFormed, Stored, DomainName.Canonical, ValidTable, ApplyUpdate, SnapshotKept, Agree, Honoured;
    var u := w.window.update.value;
    assert (set d | d in u.removed) == w.window.removed;
    assert Stored(c, w.disk) - (set d | d in u.removed) == Stored(c, w.disk) - w.window.removed;
    CleanUpdate(c.range, Stored(c, w.disk), u, 0);
  }

  lemma RecordedDisk(c: Setup, w: World)
    requires Invariant(c, w) && w.mode.Up? && Writing(w) && w.window.progress.Begun?
    ensures var disk, u := Recorded(c, w).disk, w.window.update.value;
            && WellFormed(c.range, c.prefix, disk) && !Torn(disk) && disk.snapshot == w.disk.snapshot
            && Stored(c, disk) ==
                 (Stored(c, w.disk) - w.window.removed)[u.mapping.domain := Slot(u.mapping.address, u.mapping.expiresAt, 0)]
            && EpochsUsed(Recorded(c, w))
  {
    RecordFits(c, w);
    hide Durable, ApplyUpdate, ValidPool, SnapshotKept, Agree, Honoured, ValidEpoch;
    var record := Record(VERSION, c.prefix, w.epoch, w.window.update.value);
    AppendedIsDurable(c.range, c.prefix, w.disk, record);
  }

  lemma AppendServes(c: Setup, w: World)
    requires Invariant(c, w) && w.mode.Up? && Writing(w) && w.window.progress.Begun?
    ensures Invariant(c, Recorded(c, w))
  {
    hide WellFormed, Stored, Fits, ValidPool, ValidRange, DomainName.Canonical, Represents, Appended, EpochsUsed;
    RecordedDisk(c, w);
    assert Serving(c, Recorded(c, w));
  }

  lemma TouchedDisk(c: Setup, disk: Disk)
    requires WellFormed(c.range, c.prefix, disk) && !Torn(disk)
    ensures var touched := disk.(journal := Some(Journal(Records(disk), false)));
            WellFormed(c.range, c.prefix, touched) && Stored(c, touched) == Stored(c, disk) && !Torn(touched)
  {
  }

  lemma TornDisk(c: Setup, disk: Disk)
    requires WellFormed(c.range, c.prefix, disk)
    ensures var torn := disk.(journal := Some(Journal(Records(disk), true)));
            WellFormed(c.range, c.prefix, torn) && Stored(c, torn) == Stored(c, disk)
  {
  }

  lemma FailServes(c: Setup, w: World, created: bool)
    requires Invariant(c, w) && w.mode.Up? && CanFail(w, created)
    ensures Invariant(c, Failed(w, created))
  {
    hide WellFormed, Stored, Fits, ValidPool, ValidRange, DomainName.Canonical, Represents, ValidTable;
    assert WellFormed(c.range, c.prefix, w.disk);
    TouchedDisk(c, w.disk);
    if Writing(w) {
      AbortKeepsValid(c.range, w.pool, w.window.update.value.mapping.domain);
    }
    assert Serving(c, Failed(w, created));
  }

  lemma CopyServes(c: Setup, w: World, items: seq<Mapping>)
    requires Invariant(c, w) && w.mode.Up? && Writing(w) && w.window.progress.Begun?
    requires Represents(items, w.pool.table)
    ensures Invariant(c, Copied(w, items))
  {
    hide WellFormed, Stored, Fits, ValidRange, DomainName.Canonical, Represents, ValidTable;
    assert WellFormed(c.range, c.prefix, w.disk);
    assert Serving(c, Copied(w, items));
  }

  lemma FlushServes(c: Setup, w: World, items: seq<Mapping>)
    requires Invariant(c, w) && w.mode.Up? && w.window.Idle?
    requires Represents(items, w.pool.table)
    ensures Invariant(c, Flushing(w, items))
  {
    hide WellFormed, Stored, Fits, ValidRange, DomainName.Canonical, Represents, ValidTable;
    assert WellFormed(c.range, c.prefix, w.disk);
    assert Serving(c, Flushing(w, items));
  }

  /** A snapshot under a fresh epoch is the whole durable state at once. */
  lemma SwitchedDisk(c: Setup, w: World, items: seq<Mapping>, t: Table, epoch: string)
    requires EpochsUsed(w) && forall r :: r in Records(w.disk) ==> ValidRecord(r, c.prefix)
    requires Represents(items, t) && ValidTable(c.range, t)
    requires ValidEpoch(epoch) && epoch !in w.used
    ensures var disk := Replaced(w.disk, FreshSnapshot(c, items, epoch));
            && WellFormed(c.range, c.prefix, disk) && Stored(c, disk) == Floored(t, 0)
            && WellFormed(c.range, c.prefix, disk.(journal := None)) && Stored(c, disk.(journal := None)) == Floored(t, 0)
            && (forall r :: r in Records(disk) ==> r.epoch != epoch)
  {
    hide WellFormed, Durable, Represents, ValidTable, ValidRecord;
    SnapshotIsDurable(c.range, c.prefix, w.disk, FreshSnapshot(c, items, epoch), t);
  }

  lemma RecordsFit(c: Setup, disk: Disk)
    requires WellFormed(c.range, c.prefix, disk)
    ensures forall r :: r in Records(disk) ==> ValidRecord(r, c.prefix)
  {
  }

  lemma SwitchServes(c: Setup, w: World, epoch: string)
    requires Invariant(c, w) && w.mode.Up? && w.window.Busy? && w.window.progress.Snapped?
    requires ValidEpoch(epoch) && epoch !in w.used
    ensures Invariant(c, Switched(c, w, epoch))
  {
    hide WellFormed, Stored, Fits, ValidPool, ValidRange, DomainName.Canonical, Represents, ValidTable, ValidEpoch;
    RecordsFit(c, w.disk);
    SwitchedDisk(c, w, w.window.progress.items, w.window.progress.table, epoch);
    assert Serving(c, Switched(c, w, epoch));
  }

  /** Removing a journal that holds only old epochs changes nothing. */
  lemma ClearedDisk(c: Setup, disk: Disk)
    requires WellFormed(c.range, c.prefix, disk)
    requires forall r :: r in Records(disk) ==> r.epoch != disk.snapshot.value.epoch
    ensures var cleared := disk.(journal := None);
            WellFormed(c.range, c.prefix, cleared) && Stored(c, cleared) == Stored(c, disk)
  {
    hide RestoreTable;
    NoRecordsOfEpoch(Records(disk), disk.snapshot.value.epoch);
  }

  lemma ClearServes(c: Setup, w: World)
    requires Invariant(c, w) && w.mode.Up? && w.window.Busy? && w.window.progress.Renamed?
    ensures Invariant(c, Cleared(w))
  {
    hide WellFormed, Stored, Fits, ValidPool, ValidRange, DomainName.Canonical, Represents, ValidTable;
    assert WellFormed(c.range, c.prefix, w.disk);
    ClearedDisk(c, w.disk);
    assert Serving(c, Cleared(w));
  }

  lemma SettleServes(c: Setup, w: World)
    requires Invariant(c, w) && w.mode.Up? && w.window.Busy? && w.window.progress.Persisted?
    ensures Invariant(c, Settled(w)) && Settled(w).now == w.now
  {
    hide WellFormed, Stored, Fits, ValidPool, ValidRange, DomainName.Canonical, Represents, ValidTable;
    SettleKeepsValid(c.range, w.pool, w.window.removed);
    assert Serving(c, Settled(w));
  }

  lemma FinishServes(c: Setup, w: World, ttl: nat)
    requires Invariant(c, w) && w.mode.Up? && w.window.Busy? && w.window.progress.Persisted? && ValidTTL(c, ttl)
    ensures Invariant(c, Finished(w, ttl))
  {
    hide Invariant, Answered;
    SettleServes(c, w);
    if Writing(w) {
      AnswerServes(c, Settled(w), NewAnswer(w, ttl));
    }
  }

  /** What the answer that ends a write rests on. */
  lemma TargetIsMapped(c: Setup, w: World)
    requires Invariant(c, w) && w.mode.Up? && Writing(w)
    ensures var m := w.window.update.value.mapping;
            && m.domain in w.pool.table && w.pool.table[m.domain].address == m.address
            && w.pool.table[m.domain].expiresAt == w.window.update.value.recordedAt + c.range.mappingTTL
            && w.now < w.pool.table[m.domain].expiresAt
  {
    hide WellFormed, Stored, Fits, ValidPool, ValidRange, DomainName.Canonical, Represents, ValidTable;
  }

  // ---------------------------------------------------------------------
  // Crash and restart

  /** While serving, a crash exposes nothing; while opening, exactly what only
      the journal had stored. */
  lemma CrashKeeps(c: Setup, w: World, torn: bool)
    requires Invariant(c, w) && Enabled(c, w, Crash(torn))
    ensures Invariant(c, Crashed(c, w, torn))
  {
    hide WellFormed, Stored, Fits, ValidPool, ValidRange, DomainName.Canonical, Represents, ValidTable;
    if w.mode.Up? {
      assert WellFormed(c.range, c.prefix, w.disk);
      TornDisk(c, w.disk);
    }
  }

  lemma StoredIsValid(c: Setup, disk: Disk, floor: nat)
    requires WellFormed(c.range, c.prefix, disk) && ValidRange(c.range)
    ensures ValidTable(c.range, Floored(Stored(c, disk), floor))
    ensures ValidPool(c.range, PoolState(Floored(Stored(c, disk), floor), {}, c.range.start, false))
    ensures ValidPool(c.range, PoolState(Floored(Stored(c, disk), floor), {}, c.range.start, true))
  {
    var s := disk.snapshot.value;
    RestoreIsValid(c.range, s.items, 0);
    ReplayIsValid(c.range, RestoreTable(c.range, s.items, 0).value, UpdatesOf(Records(disk), s.epoch), 0);
    FlooredIsValid(c.range, Stored(c, disk), floor);
  }

  lemma FlooredIsValid(range: Range, t: Table, floor: nat)
    requires ValidTable(range, t)
    ensures ValidTable(range, Floored(t, floor))
  {
    hide DomainName.Canonical;
    var raised := Floored(t, floor);
    SameSize(raised, t);
  }

  /** A disk that was never written opens as an empty table that must be
      checkpointed first. */
  lemma BlankRecovers(c: Setup, disk: Disk, floor: nat)
    requires Blank(disk) && ValidRange(c.range)
    ensures Recover(c.range, c.prefix, disk, floor) == Recovery(map[], "", false, true)
    ensures ValidPool(c.range, PoolState(map[], {}, c.range.start, false))
  {
  }

  lemma RestartKeeps(c: Setup, w: World)
    requires Invariant(c, w) && w.mode.Down?
    ensures Invariant(c, Restarted(c, w))
  {
    hide Durable, ValidPool, ValidTable, Recover, ValidRecord;
    if Blank(w.disk) {
      BlankRecovers(c, w.disk, Floor(w));
    } else {
      RecoveryIsDurable(c.range, c.prefix, w.disk, Floor(w));
      StoredIsValid(c, w.disk, Floor(w));
      DiskWithoutJournal(c, w.disk);
      RestartAgrees(c, w);
    }
  }

  lemma RestartAgrees(c: Setup, w: World)
    requires Invariant(c, w) && w.mode.Down?
    ensures Agree(Floored(Stored(c, w.disk), Floor(w)), {}, Stored(c, w.disk), {})
  {
    hide Stored;
  }

  lemma DiskWithoutJournal(c: Setup, disk: Disk)
    requires WellFormed(c.range, c.prefix, disk)
    ensures WellFormed(c.range, c.prefix, disk.(journal := None))
  {
    hide RestoreTable;
  }

  lemma CompactServes(c: Setup, w: World, items: seq<Mapping>, epoch: string)
    requires Invariant(c, w) && w.mode.Opening?
    requires Represents(items, w.pool.table) && ValidEpoch(epoch) && epoch !in w.used
    ensures Invariant(c, Compacted(c, w, items, epoch))
  {
    hide WellFormed, Stored, DomainName.Canonical, Represents, ValidTable, ValidEpoch;
    assert Records(w.disk) == [];
    SwitchedDisk(c, w, items, w.pool.table, epoch);
    assert Serving(c, Compacted(c, w, items, epoch));
  }
}
