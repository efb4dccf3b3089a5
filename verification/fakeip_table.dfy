/** The mapping table of a Fake IP pool as a value: what each lock-protected
    section of the pool does to it, and what a snapshot and a journal mean. */
module FakeIPTable {
  import opened Wrappers
  import opened AddressSpace
  import opened Collections
  import DomainName

  /** Instants are natural numbers; the zero time is the source's zero time. */
  const ZERO_TIME: nat := 0

  /** What the pool remembers about one domain. */
  datatype Slot = Slot(address: nat, expiresAt: nat, references: nat)

  type Table = map<string, Slot>

  datatype Mapping = Mapping(domain: string, address: nat, expiresAt: nat)

  /** One journal delta: tombstones first, then one new mapping. */
  datatype Update = Update(recordedAt: nat, removed: seq<string>, mapping: Mapping)

  ghost predicate Injective(t: Table) {
    forall d, e :: d in t && e in t && t[d].address == t[e].address ==> d == e
  }

  /** No two domains share an address, every address is usable, every domain is
      canonical, and the table is within its limit. */
  ghost predicate ValidTable(range: Range, t: Table) {
    && Injective(t)
    && |t| <= range.maxMappings
    && forall d :: d in t ==>
         && DomainName.Canonical(d)
         && range.start <= t[d].address < range.end
         && t[d].expiresAt > ZERO_TIME
  }

  ghost predicate AddressFree(t: Table, address: nat) {
    forall d :: d in t ==> t[d].address != address
  }

  function Max(a: nat, b: nat): nat { if a < b then b else a }

  // ---------------------------------------------------------------------
  // The lock-protected sections

  /** The state behind the mapping lock. journaled says that persistence is
      attached, so deletions must leave tombstones. */
  datatype PoolState = PoolState(table: Table, pending: set<string>, next: nat, journaled: bool)

  ghost predicate ValidPool(range: Range, p: PoolState) {
    && ValidRange(range)
    && ValidTable(range, p.table)
    && range.start <= p.next < range.end
    && forall d :: d in p.pending ==> DomainName.Canonical(d)
  }

  predicate Expired(slot: Slot, now: nat) {
    slot.expiresAt <= now && slot.references == 0
  }

  function Drop(p: PoolState, domains: set<string>): PoolState {
    p.(table := p.table - domains, pending := if p.journaled then p.pending + domains else p.pending)
  }

  function ExpiredDomains(t: Table, now: nat): set<string> {
    set d | d in t && Expired(t[d], now)
  }

  function Prune(p: PoolState, now: nat): PoolState {
    Drop(p, ExpiredDomains(p.table, now))
  }

  function Renew(p: PoolState, domain: string, expiresAt: nat): PoolState
    requires domain in p.table
  {
    p.(table := p.table[domain := p.table[domain].(expiresAt := expiresAt)])
  }

  function Insert(p: PoolState, domain: string, address: nat, expiresAt: nat, next: nat): PoolState {
    p.(table := p.table[domain := Slot(address, expiresAt, 0)], next := next)
  }

  /** A failed write takes the mapping out again without a tombstone. */
  function Abort(p: PoolState, domain: string): PoolState {
    p.(table := p.table - {domain})
  }

  /** A finished write retires the tombstones it carried. */
  function Settle(p: PoolState, removed: set<string>): PoolState {
    p.(pending := p.pending - removed)
  }

  /** Lookup and Acquire drop the mapping they find when it is stale. */
  function DropIfExpired(p: PoolState, domain: string, now: nat): PoolState
    requires domain in p.table
  {
    if Expired(p.table[domain], now) then Drop(p, {domain}) else p
  }

  function Hold(p: PoolState, domain: string): PoolState
    requires domain in p.table
  {
    p.(table := p.table[domain := p.table[domain].(references := p.table[domain].references + 1)])
  }

  function Unhold(p: PoolState, domain: string): PoolState
    requires domain in p.table
  {
    var slot := p.table[domain];
    p.(table := p.table[domain := slot.(references := if slot.references > 0 then slot.references - 1 else 0)])
  }

  lemma SmallerTableIsValid(range: Range, t: Table, domains: set<string>)
    requires ValidTable(range, t)
    ensures ValidTable(range, t - domains)
  {
    hide DomainName.Canonical;
    RemovalShrinks(t, domains);
  }

  /** Expiring, settling and aborting keep the pool valid. */
  lemma DropKeepsValid(range: Range, p: PoolState, domains: set<string>)
    requires ValidPool(range, p)
    requires domains <= p.table.Keys
    ensures ValidPool(range, Drop(p, domains))
  {
    hide DomainName.Canonical;
    SmallerTableIsValid(range, p.table, domains);
  }

  lemma AbortKeepsValid(range: Range, p: PoolState, domain: string)
    requires ValidPool(range, p)
    ensures ValidPool(range, Abort(p, domain))
  {
    hide DomainName.Canonical;
    SmallerTableIsValid(range, p.table, {domain});
  }

  lemma SettleKeepsValid(range: Range, p: PoolState, removed: set<string>)
    requires ValidPool(range, p)
    ensures ValidPool(range, Settle(p, removed))
  {
    hide DomainName.Canonical;
  }

  lemma TableKeepsValid(range: Range, p: PoolState, t: Table)
    requires ValidPool(range, p) && ValidTable(range, t)
    ensures ValidPool(range, p.(table := t))
  {
    hide ValidTable, DomainName.Canonical;
  }

  lemma InsertKeepsValid(range: Range, p: PoolState, domain: string, address: nat, expiresAt: nat, next: nat)
    requires ValidPool(range, p)
    requires DomainName.Canonical(domain) && domain !in p.table
    requires range.start <= address < range.end && AddressFree(p.table, address)
    requires range.start <= next < range.end && expiresAt > ZERO_TIME
    requires |p.table| < range.maxMappings
    ensures ValidPool(range, Insert(p, domain, address, expiresAt, next))
  {
    hide DomainName.Canonical;
    UpdateKeepsSize(p.table, domain, Slot(address, expiresAt, 0));
  }

  lemma SlotUpdatesKeepValid(range: Range, p: PoolState, domain: string, expiresAt: nat)
    requires ValidPool(range, p) && domain in p.table && expiresAt > ZERO_TIME
    ensures ValidPool(range, Renew(p, domain, expiresAt))
    ensures ValidPool(range, Hold(p, domain))
    ensures ValidPool(range, Unhold(p, domain))
  {
    hide DomainName.Canonical;
    UpdateKeepsSize(p.table, domain, p.table[domain].(expiresAt := expiresAt));
    UpdateKeepsSize(p.table, domain, Hold(p, domain).table[domain]);
    UpdateKeepsSize(p.table, domain, Unhold(p, domain).table[domain]);
  }

  // ---------------------------------------------------------------------
  // What persisted data means

  /** A persisted mapping is accepted with its expiry raised to the end of the
      protection window. */
  function ValidateMapping(range: Range, item: Mapping, floor: nat): (r: Option<(string, Slot)>)
    ensures r.Some? ==> r.value.1.references == 0
  {
    match DomainName.Normalize(item.domain)
    case None => None
    case Some(domain) =>
      if !(range.start <= item.address < range.end) || item.expiresAt == ZERO_TIME then None
      else Some((domain, Slot(item.address, Max(item.expiresAt, floor), 0)))
  }

  /** The table a snapshot describes; duplicates make it unusable. */
  function RestoreAll(range: Range, items: seq<Mapping>, floor: nat): Option<Table> {
    if items == [] then Some(map[])
    else match RestoreAll(range, items[..|items| - 1], floor)
      case None => None
      case Some(t) =>
        match ValidateMapping(range, items[|items| - 1], floor)
        case None => None
        case Some(pair) =>
          if pair.0 in t || (exists d :: d in t && t[d].address == pair.1.address) then None
          else Some(t[pair.0 := pair.1])
  }

  function RestoreTable(range: Range, items: seq<Mapping>, floor: nat): Option<Table> {
    if |items| > range.maxMappings then None else RestoreAll(range, items, floor)
  }

  function NormalizeAll(domains: seq<string>): Option<set<string>> {
    if domains == [] then Some({})
    else match NormalizeAll(domains[..|domains| - 1])
      case None => None
      case Some(rest) =>
        match DomainName.Normalize(domains[|domains| - 1])
        case None => None
        case Some(domain) => Some(rest + {domain})
  }

  /** Whoever held the domain or the address before loses it. */
  function Evict(t: Table, domain: string, address: nat): Table {
    map d | d in t && d != domain && t[d].address != address :: t[d]
  }

  function ApplyUpdate(range: Range, t: Table, update: Update, floor: nat): Option<Table> {
    match NormalizeAll(update.removed)
    case None => None
    case Some(removed) =>
      match ValidateMapping(range, update.mapping, floor)
      case None => None
      case Some(pair) =>
        var kept := Evict(t - removed, pair.0, pair.1.address);
        if |kept| >= range.maxMappings then None else Some(kept[pair.0 := pair.1])
  }

  function Replay(range: Range, t: Table, updates: seq<Update>, floor: nat): Option<Table> {
    if updates == [] then Some(t)
    else match Replay(range, t, updates[..|updates| - 1], floor)
      case None => None
      case Some(r) => ApplyUpdate(range, r, updates[|updates| - 1], floor)
  }

  // ---------------------------------------------------------------------
  // Restored tables are valid, whatever was on disk

  lemma {:induction false} RestoreIsValid(range: Range, items: seq<Mapping>, floor: nat)
    requires |items| <= range.maxMappings
    requires RestoreAll(range, items, floor).Some?
    ensures ValidTable(range, RestoreAll(range, items, floor).value)
    ensures |RestoreAll(range, items, floor).value| == |items|
  {
    if items != [] {
      var front, last := items[..|items| - 1], items[|items| - 1];
      RestoreIsValid(range, front, floor);
      var pair := ValidateMapping(range, last, floor).value;
      DomainName.NormalizeIsIdempotent(last.domain);
      UpdateKeepsSize(RestoreAll(range, front, floor).value, pair.0, pair.1);
    }
  }

  lemma ApplyIsValid(range: Range, t: Table, update: Update, floor: nat)
    requires ValidTable(range, t)
    requires ApplyUpdate(range, t, update, floor).Some?
    ensures ValidTable(range, ApplyUpdate(range, t, update, floor).value)
  {
    var removed := NormalizeAll(update.removed).value;
    var pair := ValidateMapping(range, update.mapping, floor).value;
    DomainName.NormalizeIsIdempotent(update.mapping.domain);
    UpdateKeepsSize(Evict(t - removed, pair.0, pair.1.address), pair.0, pair.1);
  }

  /** Whatever a journal holds, what replaying it yields is a bijection inside
      the range and within the limit. */
  lemma {:induction false} ReplayIsValid(range: Range, t: Table, updates: seq<Update>, floor: nat)
    requires ValidTable(range, t)
    requires Replay(range, t, updates, floor).Some?
    ensures ValidTable(range, Replay(range, t, updates, floor).value)
  {
    if updates != [] {
      var front := updates[..|updates| - 1];
      ReplayIsValid(range, t, front, floor);
      ApplyIsValid(range, Replay(range, t, front, floor).value, updates[|updates| - 1], floor);
    }
  }

  /** A rejected item rejects everything after it. */
  lemma {:induction false} RestoreFailsFrom(range: Range, items: seq<Mapping>, floor: nat, n: nat)
    requires n <= |items|
    ensures RestoreAll(range, items[..n], floor).None? ==> RestoreAll(range, items, floor).None?
    decreases |items| - n
  {
    if n == |items| {
      assert items[..n] == items;
    } else {
      assert items[..n + 1][..n] == items[..n];
      RestoreFailsFrom(range, items, floor, n + 1);
    }
  }

  lemma {:induction false} NormalizeFailsFrom(domains: seq<string>, n: nat)
    requires n <= |domains|
    ensures NormalizeAll(domains[..n]).None? ==> NormalizeAll(domains).None?
    decreases |domains| - n
  {
    hide DomainName.Normalize;
    if n == |domains| {
      assert domains[..n] == domains;
    } else {
      assert domains[..n + 1][..n] == domains[..n];
      NormalizeFailsFrom(domains, n + 1);
    }
  }

  lemma ReplayKeepsValid(range: Range, p: PoolState, updates: seq<Update>, floor: nat)
    requires ValidPool(range, p) && Replay(range, p.table, updates, floor).Some?
    ensures ValidPool(range, p.(table := Replay(range, p.table, updates, floor).value))
  {
    hide ValidTable;
    ReplayIsValid(range, p.table, updates, floor);
    TableKeepsValid(range, p, Replay(range, p.table, updates, floor).value);
  }

  lemma RestoreKeepsValid(range: Range, p: PoolState, items: seq<Mapping>, floor: nat)
    requires ValidPool(range, p) && RestoreTable(range, items, floor).Some?
    ensures ValidPool(range, p.(table := RestoreTable(range, items, floor).value))
  {
    hide ValidTable;
    RestoreIsValid(range, items, floor);
    TableKeepsValid(range, p, RestoreAll(range, items, floor).value);
  }

  lemma {:induction false} ReplayFailsFrom(range: Range, t: Table, updates: seq<Update>, floor: nat, n: nat)
    requires n <= |updates|
    ensures Replay(range, t, updates[..n], floor).None? ==> Replay(range, t, updates, floor).None?
    decreases |updates| - n
  {
    if n == |updates| {
      assert updates[..n] == updates;
    } else {
      assert updates[..n + 1][..n] == updates[..n];
      ReplayFailsFrom(range, t, updates, floor, n + 1);
    }
  }

  // ---------------------------------------------------------------------
  // A snapshot and its restoration

  predicate Item(item: Mapping, t: Table) {
    && item.domain in t
    && item.address == t[item.domain].address
    && item.expiresAt == t[item.domain].expiresAt
  }

  /** items lists every entry of t exactly once. */
  ghost predicate Represents(items: seq<Mapping>, t: Table) {
    && (forall i, j :: 0 <= i < j < |items| ==> items[i].domain != items[j].domain)
    && (forall i :: 0 <= i < |items| ==> Item(items[i], t))
    && (forall d :: d in t ==> exists i :: 0 <= i < |items| && items[i].domain == d)
  }

  /** The table after a restart: same domains, same addresses, expiries raised
      to the end of the protection window, and no flows. */
  function Floored(t: Table, floor: nat): Table {
    map d | d in t :: Slot(t[d].address, Max(t[d].expiresAt, floor), 0)
  }

  /** The part of the restored table that the first n items describe. */
  ghost function RestoredPart(items: seq<Mapping>, t: Table, floor: nat, n: nat): Table
    requires n <= |items|
  {
    map d | d in t && (exists i :: 0 <= i < n && items[i].domain == d) :: Slot(t[d].address, Max(t[d].expiresAt, floor), 0)
  }

  lemma RestoredPartGrows(range: Range, items: seq<Mapping>, t: Table, floor: nat, n: nat)
    requires Represents(items, t) && ValidTable(range, t)
    requires 0 < n <= |items|
    ensures var last, before := items[n - 1], RestoredPart(items, t, floor, n - 1);
            && ValidateMapping(range, last, floor) == Some((last.domain, Slot(last.address, Max(last.expiresAt, floor), 0)))
            && last.domain !in before && (!exists d :: d in before && before[d].address == last.address)
            && before[last.domain := Slot(last.address, Max(last.expiresAt, floor), 0)] == RestoredPart(items, t, floor, n)
  {
    hide DomainName.Normalize;
    var last := items[n - 1];
    assert DomainName.Canonical(last.domain);
  }

  lemma {:induction false} RestoreOfPrefix(range: Range, items: seq<Mapping>, t: Table, floor: nat, n: nat)
    requires Represents(items, t) && ValidTable(range, t)
    requires n <= |items|
    ensures RestoreAll(range, items[..n], floor) == Some(RestoredPart(items, t, floor, n))
  {
    hide DomainName.Normalize, Represents, ValidTable;
    if n > 0 {
      RestoreOfPrefix(range, items, t, floor, n - 1);
      assert items[..n][..n - 1] == items[..n - 1];
      RestoredPartGrows(range, items, t, floor, n);
    }
  }

  /** Restoring a snapshot gives back the table it was taken from. */
  lemma RestoreOfSnapshot(range: Range, items: seq<Mapping>, t: Table, floor: nat)
    requires Represents(items, t) && ValidTable(range, t)
    ensures RestoreTable(range, items, floor) == Some(Floored(t, floor))
  {
    RestoreOfPrefix(range, items, t, floor, |items|);
    assert items[..|items|] == items;
    var restored := RestoreAll(range, items, floor).value;
    assert restored == Floored(t, floor);
    RestoredSize(range, items, floor);
    assert Floored(t, floor).Keys == t.Keys;
    assert |restored| == |restored.Keys| && |t| == |t.Keys|;
  }

  lemma {:induction false} RestoredSize(range: Range, items: seq<Mapping>, floor: nat)
    requires RestoreAll(range, items, floor).Some?
    ensures |RestoreAll(range, items, floor).value| == |items|
  {
    if items != [] {
      var front := items[..|items| - 1];
      RestoredSize(range, front, floor);
      var pair := ValidateMapping(range, items[|items| - 1], floor).value;
      UpdateKeepsSize(RestoreAll(range, front, floor).value, pair.0, pair.1);
    }
  }

  // ---------------------------------------------------------------------
  // The protection window only moves expiries

  lemma FlooredEvict(t: Table, removed: set<string>, domain: string, address: nat, floor: nat)
    ensures Evict(Floored(t, floor) - removed, domain, address) == Floored(Evict(t - removed, domain, address), floor)
  {
  }

  lemma FlooredInsert(t: Table, domain: string, slot: Slot, floor: nat)
    ensures |Floored(t, floor)| == |t|
    ensures Floored(t, floor)[domain := Slot(slot.address, Max(slot.expiresAt, floor), 0)] == Floored(t[domain := slot], floor)
  {
    var raised := Floored(t, floor);
    SameSize(raised, t);
  }

  lemma FlooredApply(range: Range, t: Table, update: Update, floor: nat)
    ensures match ApplyUpdate(range, t, update, 0)
            case None => ApplyUpdate(range, Floored(t, floor), update, floor).None?
            case Some(r) => ApplyUpdate(range, Floored(t, floor), update, floor) == Some(Floored(r, floor))
  {
    hide DomainName.Normalize, Evict, Floored;
    match NormalizeAll(update.removed)
    case None =>
    case Some(removed) =>
      match ValidateMapping(range, update.mapping, 0)
      case None =>
      case Some(pair) =>
        FlooredEvict(t, removed, pair.0, pair.1.address, floor);
        FlooredInsert(Evict(t - removed, pair.0, pair.1.address), pair.0, pair.1, floor);
        assert ValidateMapping(range, update.mapping, floor)
            == Some((pair.0, Slot(pair.1.address, Max(pair.1.expiresAt, floor), 0)));
  }

  /** Replaying with a protection window accepts the same journals and yields
      the same domains and addresses as replaying without one. */
  lemma {:induction false} FlooredReplay(range: Range, t: Table, updates: seq<Update>, floor: nat)
    ensures match Replay(range, t, updates, 0)
            case None => Replay(range, Floored(t, floor), updates, floor).None?
            case Some(r) => Replay(range, Floored(t, floor), updates, floor) == Some(Floored(r, floor))
  {
    if updates != [] {
      var front, last := updates[..|updates| - 1], updates[|updates| - 1];
      FlooredReplay(range, t, front, floor);
      match Replay(range, t, front, 0)
      case None =>
      case Some(r) => FlooredApply(range, r, last, floor);
    }
  }

  // ---------------------------------------------------------------------
  // A record this code wrote is accepted

  lemma {:induction false} NormalizeCanonical(domains: seq<string>)
    requires forall d :: d in domains ==> DomainName.Canonical(d)
    ensures NormalizeAll(domains) == Some(set d | d in domains)
  {
    hide DomainName.Normalize;
    if domains != [] {
      var front, last := domains[..|domains| - 1], domains[|domains| - 1];
      NormalizeCanonical(front);
      assert domains == front + [last];
      assert DomainName.Canonical(last);
      assert (set d | d in domains) == (set d | d in front) + {last};
    } else {
      assert (set d | d in domains) == {};
    }
  }

  /** If the tombstones leave room and nothing else holds the domain or the
      address, the record is accepted and adds exactly its mapping. */
  lemma CleanUpdate(range: Range, t: Table, update: Update, floor: nat)
    requires forall d :: d in update.removed ==> DomainName.Canonical(d)
    requires DomainName.Canonical(update.mapping.domain)
    requires range.start <= update.mapping.address < range.end
    requires update.mapping.expiresAt > ZERO_TIME
    requires forall d :: d in t && d !in update.removed ==>
               d != update.mapping.domain && t[d].address != update.mapping.address
    requires |t - (set d | d in update.removed)| < range.maxMappings
    ensures ApplyUpdate(range, t, update, floor) ==
            Some((t - (set d | d in update.removed))[update.mapping.domain :=
              Slot(update.mapping.address, Max(update.mapping.expiresAt, floor), 0)])
  {
    hide DomainName.Normalize;
    NormalizeCanonical(update.removed);
    var left := t - (set d | d in update.removed);
    assert Evict(left, update.mapping.domain, update.mapping.address) == left;
  }
}
