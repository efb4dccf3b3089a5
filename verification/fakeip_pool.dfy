/** The pool object itself. Each method is one section that the source runs
    while it holds the mapping lock; GetOrAllocate is two of them, because the
    journal is written between them with the lock released. */
module FakeIPPool {
  import opened Wrappers
  import opened AddressSpace
  import opened Collections
  import opened FakeIPTable
  import DomainName

  class Entry {
    const domain: string
    const address: nat
    var expiresAt: nat
    var references: nat

    constructor (domain: string, address: nat, expiresAt: nat)
      ensures this.domain == domain && this.address == address
      ensures this.expiresAt == expiresAt && references == 0
    {
      this.domain := domain;
      this.address := address;
      this.expiresAt := expiresAt;
      references := 0;
    }
  }

  /** The release function that Acquire returns to one flow. */
  class Handle {
    const mapping: Entry
    var released: bool

    constructor (mapping: Entry)
      ensures this.mapping == mapping && !released
    {
      this.mapping := mapping;
      released := false;
    }
  }

  /** How the first section of GetOrAllocate ends. Writing asks the caller to
      make the update durable and then to run the second section. */
  datatype Start =
    | InvalidDomain
    | Existing(address: nat)
    | Exhausted
    | Allocated(address: nat)
    | Writing(mapping: Entry, update: Update)

  // ---------------------------------------------------------------------
  // The cyclic scan

  /** The k-th address at or after from, wrapping from end to start. */
  function Candidate(range: Range, from: nat, k: nat): nat
    requires range.start <= from < range.end && k <= range.end - range.start
  {
    if from + k < range.end then from + k else from + k - (range.end - range.start)
  }

  function After(range: Range, address: nat): nat {
    if address + 1 == range.end then range.start else address + 1
  }

  /** The first n candidates. */
  ghost function Scanned(range: Range, from: nat, n: nat): (s: set<nat>)
    requires range.start <= from < range.end && n <= range.end - range.start
  {
    set k | 0 <= k < n :: Candidate(range, from, k)
  }

  lemma {:induction false} ScannedAreDistinct(range: Range, from: nat, n: nat)
    requires range.start <= from < range.end && n <= range.end - range.start
    ensures |Scanned(range, from, n)| == n
  {
    if n > 0 {
      ScannedAreDistinct(range, from, n - 1);
      assert Scanned(range, from, n) == Scanned(range, from, n - 1) + {Candidate(range, from, n - 1)};
    }
  }

  /** One more distinct candidate than there are occupied addresses cannot all
      be occupied. */
  lemma ScanFindsFree(range: Range, from: nat, occupied: set<nat>)
    requires range.start <= from < range.end && |occupied| < range.end - range.start
    ensures exists k :: 0 <= k <= |occupied| && Candidate(range, from, k) !in occupied
  {
    var n := |occupied| + 1;
    ScannedAreDistinct(range, from, n);
    if forall k :: 0 <= k < n ==> Candidate(range, from, k) in occupied {
      SubsetSize(Scanned(range, from, n), occupied);
    }
  }

  /** address is the first free address in scan order. */
  ghost predicate FirstFree(range: Range, t: Table, from: nat, address: nat) {
    && range.start <= from < range.end
    && AddressFree(t, address)
    && (exists k :: 0 <= k < range.end - range.start
          && address == Candidate(range, from, k)
          && (forall j :: 0 <= j < k ==> !AddressFree(t, Candidate(range, from, j))))
  }

  /** The value that an index of entries stands for. */
  ghost function TableOf(byDomain: map<string, Entry>, entries: set<Entry>): Table
    reads entries`expiresAt, entries`references
  {
    map d | d in byDomain && byDomain[d] in entries ::
      Slot(byDomain[d].address, byDomain[d].expiresAt, byDomain[d].references)
  }

  /** The two indexes hold the same entries and are inverse to each other. */
  ghost predicate Inverse(byDomain: map<string, Entry>, byAddress: map<nat, Entry>, entries: set<Entry>) {
    && (forall d :: d in byDomain ==>
          var e := byDomain[d];
          e in entries && e.domain == d && e.address in byAddress && byAddress[e.address] == e)
    && (forall a :: a in byAddress ==>
          var e := byAddress[a]; e.address == a && e.domain in byDomain && byDomain[e.domain] == e)
  }

  lemma InverseInsert(byDomain: map<string, Entry>, byAddress: map<nat, Entry>, entries: set<Entry>, e: Entry)
    requires Inverse(byDomain, byAddress, entries)
    requires e.domain !in byDomain && e.address !in byAddress
    ensures Inverse(byDomain[e.domain := e], byAddress[e.address := e], entries + {e})
    ensures TableOf(byDomain[e.domain := e], entries + {e}) ==
            TableOf(byDomain, entries)[e.domain := Slot(e.address, e.expiresAt, e.references)]
  {
  }

  lemma InverseRemove(byDomain: map<string, Entry>, byAddress: map<nat, Entry>, entries: set<Entry>, e: Entry)
    requires Inverse(byDomain, byAddress, entries)
    requires e.domain in byDomain && byDomain[e.domain] == e
    ensures Inverse(byDomain - {e.domain}, byAddress - {e.address}, entries)
    ensures TableOf(byDomain - {e.domain}, entries) == TableOf(byDomain, entries) - {e.domain}
  {
  }

  lemma MoreEntries(byDomain: map<string, Entry>, byAddress: map<nat, Entry>, entries: set<Entry>, e: Entry)
    requires Inverse(byDomain, byAddress, entries)
    ensures Inverse(byDomain, byAddress, entries + {e})
    ensures TableOf(byDomain, entries + {e}) == TableOf(byDomain, entries)
  {
  }

  lemma EmptyIndexes(entries: set<Entry>)
    ensures Inverse(map[], map[], entries) && TableOf(map[], entries) == map[]
  {
  }

  lemma IndexesAgree(byDomain: map<string, Entry>, byAddress: map<nat, Entry>, entries: set<Entry>)
    requires Inverse(byDomain, byAddress, entries)
    ensures TableOf(byDomain, entries).Keys == byDomain.Keys
    ensures forall a: nat :: a in byAddress <==> !AddressFree(TableOf(byDomain, entries), a)
  {
  }

  lemma HolderIsUnique(byDomain: map<string, Entry>, byAddress: map<nat, Entry>, entries: set<Entry>, address: nat)
    requires Inverse(byDomain, byAddress, entries) && address in byAddress
    ensures byAddress[address].domain in byDomain
    ensures forall d :: d in byDomain ==> (byDomain[d].address == address <==> d == byAddress[address].domain)
  {
  }

  ghost function OpenHandles(handles: set<Handle>, e: Entry): set<Handle>
    reads handles`released
  {
    set h | h in handles && h.mapping == e && !h.released
  }

  /** Every entry counts exactly the handles on it that were not released. */
  ghost predicate CountsMatch(entries: set<Entry>, handles: set<Handle>)
    reads entries`references, handles`released
  {
    && (forall h :: h in handles ==> h.mapping in entries)
    && forall e :: e in entries ==> e.references == |OpenHandles(handles, e)|
  }

  lemma CountsWithNewEntry(entries: set<Entry>, handles: set<Handle>, e: Entry)
    requires CountsMatch(entries, handles) && e !in entries && e.references == 0
    ensures CountsMatch(entries + {e}, handles)
  {
    assert OpenHandles(handles, e) == {};
  }

  /** Counts that are exact except for one handle too few on e. */
  ghost predicate OneOver(entries: set<Entry>, handles: set<Handle>, e: Entry)
    reads entries`references, handles`released
  {
    && (forall h :: h in handles ==> h.mapping in entries)
    && forall x :: x in entries ==> x.references == |OpenHandles(handles, x)| + (if x == e then 1 else 0)
  }

  lemma HandlesWithOne(handles: set<Handle>, h: Handle, e: Entry)
    requires h !in handles && !h.released
    ensures OpenHandles(handles + {h}, e) == OpenHandles(handles, e) + (if h.mapping == e then {h} else {})
  {
  }

  lemma OpenHandleEvens(entries: set<Entry>, handles: set<Handle>, h: Handle)
    requires h !in handles && !h.released && h.mapping in entries
    ensures OneOver(entries, handles, h.mapping) <==> CountsMatch(entries, handles + {h})
  {
    forall e | e in entries
      ensures |OpenHandles(handles + {h}, e)| == |OpenHandles(handles, e)| + (if h.mapping == e then 1 else 0)
    {
      HandlesWithOne(handles, h, e);
    }
    assert (forall g :: g in handles + {h} ==> g.mapping in entries) <==> (forall g :: g in handles ==> g.mapping in entries);
  }

  lemma ReleasedHandleIsIgnored(entries: set<Entry>, handles: set<Handle>, h: Handle)
    requires h !in handles && h.released && h.mapping in entries
    ensures OneOver(entries, handles, h.mapping) <==> OneOver(entries, handles + {h}, h.mapping)
  {
    forall e | e in entries
      ensures OpenHandles(handles + {h}, e) == OpenHandles(handles, e)
    {
    }
    assert (forall g :: g in handles + {h} ==> g.mapping in entries) <==> (forall g :: g in handles ==> g.mapping in entries);
  }

  ghost function AddressesOf(t: Table): set<nat> {
    set d | d in t :: t[d].address
  }

  lemma {:induction false} AsManyAddresses(t: Table)
    requires Injective(t)
    ensures |AddressesOf(t)| == |t|
    decreases |t|
  {
    if t != map[] {
      var d :| d in t;
      RemovalOfOne(t, d);
      AsManyAddresses(t - {d});
      var rest := t - {d};
      forall a | a in AddressesOf(t)
        ensures a in AddressesOf(rest) + {t[d].address}
      {
        var e :| e in t && t[e].address == a;
        assert e == d || e in rest;
      }
      assert AddressesOf(t) == AddressesOf(rest) + {t[d].address};
    } else {
      assert AddressesOf(t) == {};
    }
  }

  /** How the first section of GetOrAllocate may end, for a canonical name. */
  ghost predicate Begun(range: Range, before: PoolState, name: string, now: nat, start: Start, after: PoolState) {
    if name in before.table then
      && start == Existing(before.table[name].address)
      && after == Renew(before, name, now + range.mappingTTL)
    else
      BegunNew(range, Prune(before, now), name, now, start, after)
  }

  /** The branch for a name without a mapping, after pruning. */
  ghost predicate BegunNew(range: Range, pruned: PoolState, name: string, now: nat, start: Start, after: PoolState) {
    if |pruned.table| >= range.maxMappings then
      start == Exhausted && after == pruned
    else
      exists address ::
        && FirstFree(range, pruned.table, pruned.next, address)
        && after == Insert(pruned, name, address, now + range.mappingTTL, After(range, address))
        && (if pruned.journaled then
              && start.Writing?
              && start.mapping.domain == name && start.mapping.address == address
              && start.update.recordedAt == now
              && start.update.mapping == Mapping(name, address, now + range.mappingTTL)
              && Lists(start.update.removed, pruned.pending)
            else start == Allocated(address))
  }

  lemma FirstFreeIsUsable(range: Range, p: PoolState, address: nat)
    requires ValidPool(range, p) && FirstFree(range, p.table, p.next, address)
    ensures range.start <= address < range.end
    ensures range.start <= After(range, address) < range.end
  {
    hide ValidTable;
  }

  lemma CursorKeepsValid(range: Range, p: PoolState, next: nat)
    requires ValidPool(range, p) && range.start <= next < range.end
    ensures ValidPool(range, p.(next := next))
  {
    hide ValidTable;
  }

  lemma PruneSubset(p: PoolState, now: nat)
    ensures Prune(p, now).table.Keys <= p.table.Keys
    ensures Prune(p, now).journaled == p.journaled
  {
  }

  lemma FirstFreeIsFree(range: Range, t: Table, from: nat, address: nat)
    requires FirstFree(range, t, from, address)
    ensures AddressFree(t, address)
  {
  }

  method ListDomains(domains: set<string>) returns (items: seq<string>)
    ensures Lists(items, domains)
  {
    items := [];
    var left := domains;
    while left != {}
      invariant left <= domains
      invariant forall d :: d in items <==> d in domains - left
      decreases left
    {
      var d :| d in left;
      items := items + [d];
      left := left - {d};
    }
  }

  ghost predicate Lists(items: seq<string>, domains: set<string>) {
    forall d :: d in items <==> d in domains
  }

  // ---------------------------------------------------------------------

  class Pool {
    const range: Range
    var byDomain: map<string, Entry>
    var byAddress: map<nat, Entry>
    var pendingDeletes: set<string>
    var next: nat
    var journaled: bool
    var reclaimed: nat
    var exhaustions: nat
    ghost var entries: set<Entry>
    ghost var handles: set<Handle>

    ghost function Table(): Table
      reads this`byDomain, this`entries, entries`expiresAt, entries`references
    {
      TableOf(byDomain, entries)
    }

    ghost function Model(): PoolState
      reads this, entries
    {
      PoolState(Table(), pendingDeletes, next, journaled)
    }

    ghost predicate Linked()
      reads this`byDomain, this`byAddress, this`entries
    {
      Inverse(byDomain, byAddress, entries)
    }

    ghost predicate Counted()
      reads this`entries, this`handles, entries`references, handles`released
    {
      CountsMatch(entries, handles)
    }

    ghost predicate Valid()
      reads this, entries, handles
    {
      Linked() && ValidPool(range, Model()) && Counted()
    }

    ghost predicate Live(e: Entry)
      reads this
    {
      e.domain in byDomain && byDomain[e.domain] == e
    }

    constructor (range: Range)
      requires ValidRange(range)
      ensures Valid() && fresh(entries) && fresh(handles)
      ensures this.range == range
      ensures Model() == PoolState(map[], {}, range.start, false)
    {
      this.range := range;
      byDomain, byAddress, pendingDeletes := map[], map[], {};
      next, journaled, reclaimed, exhaustions := range.start, false, 0, 0;
      entries, handles := {}, {};
    }

    /** An address is free in the value exactly when the index lacks it. */
    lemma ModelAddresses()
      requires Linked()
      ensures AddressesOf(Model().table) == byAddress.Keys
      ensures forall a: nat :: AddressFree(Model().table, a) <==> a !in byAddress
    {
      ModelKeys();
    }

    lemma ModelKeys()
      requires Linked()
      ensures Model().table.Keys == byDomain.Keys
    {
    }

    lemma ModelAt(domain: string)
      requires Linked() && domain in byDomain
      ensures var e := byDomain[domain];
              Model().table.Keys == byDomain.Keys && e in entries && e.domain == domain &&
              Model().table[domain] == Slot(e.address, e.expiresAt, e.references)
    {
    }

    /** deleteLocked: a journaled pool leaves a tombstone. */
    method Delete(domain: string)
      requires Valid() && domain in byDomain
      modifies this`byDomain, this`byAddress, this`pendingDeletes
      ensures Valid() && Model() == Drop(old(Model()), {domain})
      ensures byDomain == old(byDomain) - {domain}
    {
      hide ValidPool, Linked, Counted, Table;
      ModelKeys();
      DropKeepsValid(range, Model(), {domain});
      if journaled {
        pendingDeletes := pendingDeletes + {domain};
      }
      DeleteUntracked(domain);
    }

    method DeleteUntracked(domain: string)
      requires Linked() && Counted() && domain in byDomain
      modifies this`byDomain, this`byAddress
      ensures Linked() && Counted()
      ensures byDomain == old(byDomain) - {domain}
      ensures Table() == old(Table()) - {domain}
    {
      var mapping := byDomain[domain];
      assert mapping.domain == domain;
      hide Inverse, TableOf, CountsMatch;
      InverseRemove(byDomain, byAddress, entries, mapping);
      byDomain := byDomain - {domain};
      byAddress := byAddress - {mapping.address};
    }

    /** One iteration of pruneLocked. */
    method PruneOne(domain: string, now: nat)
      requires Valid() && domain in byDomain
      modifies this`byDomain, this`byAddress, this`pendingDeletes, this`reclaimed
      ensures Valid() && Model() == DropIfExpired(old(Model()), domain, now)
      ensures reclaimed + |byDomain| == old(reclaimed) + |old(byDomain)|
    {
      hide ValidPool, Linked, Counted, Table, Drop;
      ModelAt(domain);
      var mapping := byDomain[domain];
      if mapping.expiresAt <= now && mapping.references == 0 {
        Delete(domain);
        reclaimed := reclaimed + 1;
        RemovalOfOne(old(byDomain), domain);
      }
    }

    /** pruneLocked: drops every expired entry that no flow holds. */
    method PruneLocked(now: nat)
      requires Valid()
      modifies this`byDomain, this`byAddress, this`pendingDeletes, this`reclaimed
      ensures Valid() && Model() == FakeIPTable.Prune(old(Model()), now)
      ensures reclaimed + |byDomain| == old(reclaimed) + |old(byDomain)|
    {
      hide ValidPool, Drop, DropIfExpired;
      ghost var before := Model();
      var todo := byDomain.Keys;
      PruneEnds(before, todo, now);
      while todo != {}
        invariant Valid() && todo <= before.table.Keys
        invariant Model() == Drop(before, ExpiredDomains(before.table, now) - todo)
        invariant reclaimed + |byDomain| == old(reclaimed) + |old(byDomain)|
        decreases todo
      {
        var domain :| domain in todo;
        PruneStep(before, todo, domain, now);
        PruneOne(domain, now);
        todo := todo - {domain};
      }
    }

    method Prune(now: nat) returns (removed: int)
      requires Valid()
      modifies this`byDomain, this`byAddress, this`pendingDeletes, this`reclaimed
      ensures Valid() && Model() == FakeIPTable.Prune(old(Model()), now)
      ensures removed == |old(byDomain)| - |byDomain|
    {
      hide Valid, FakeIPTable.Prune;
      var before := |byDomain|;
      PruneLocked(now);
      removed := before - |byDomain|;
    }

    /** The bounded scan. The attempts run out only if every candidate was
        occupied, which is impossible below the limit. */
    method Scan() returns (candidate: nat, k: nat)
      requires ValidRange(range) && range.start <= next < range.end
      requires |byAddress| < range.maxMappings
      modifies this`next
      ensures k < range.end - range.start && candidate == Candidate(range, old(next), k)
      ensures candidate !in byAddress
      ensures forall j :: 0 <= j < k ==> Candidate(range, old(next), j) in byAddress
      ensures next == After(range, candidate)
    {
      ghost var first := next;
      ScanFindsFree(range, first, byAddress.Keys);
      candidate, k := next, 0;
      var attempts := |byAddress| + 1;
      if attempts > range.capacity {
        attempts := range.capacity;
      }
      while k < attempts
        invariant 0 <= k <= attempts == |byAddress| + 1 <= range.end - range.start
        invariant next == Candidate(range, first, k)
        invariant forall j :: 0 <= j < k ==> Candidate(range, first, j) in byAddress
      {
        candidate := next;
        next := if candidate + 1 == range.end then range.start else candidate + 1;
        if candidate !in byAddress {
          return;
        }
        k := k + 1;
      }
      assert false;
    }

    method FindFree() returns (candidate: nat)
      requires Valid() && |byDomain| < range.maxMappings
      modifies this`next
      ensures Valid() && Model() == old(Model()).(next := next)
      ensures FirstFree(range, Model().table, old(next), candidate)
      ensures next == After(range, candidate)
    {
      hide ValidPool, Inverse, TableOf, CountsMatch, AddressesOf, AddressFree;
      ghost var before := Model();
      ScanReady();
      var k;
      candidate, k := Scan();
      CursorKeepsValid(range, before, next);
    }

    lemma ScanReady()
      requires Valid() && |byDomain| < range.maxMappings
      ensures ValidRange(range) && range.start <= next < range.end
      ensures |byAddress| < range.maxMappings
      ensures forall a: nat :: AddressFree(Model().table, a) <==> a !in byAddress
    {
      hide CountsMatch;
      ModelAddresses();
      ModelKeys();
      hide Inverse, TableOf;
      AsManyAddresses(Model().table);
      SameSize(Model().table, byDomain);
    }

    /** The existing branch of GetOrAllocate. */
    method RenewExisting(domain: string, expiresAt: nat) returns (address: nat)
      requires Valid() && domain in byDomain && expiresAt > ZERO_TIME
      modifies entries`expiresAt
      ensures Valid() && Model() == Renew(old(Model()), domain, expiresAt)
      ensures address == Model().table[domain].address
    {
      hide ValidPool, CountsMatch;
      ModelAt(domain);
      SlotUpdatesKeepValid(range, Model(), domain, expiresAt);
      var existing := byDomain[domain];
      existing.expiresAt := expiresAt;
      address := existing.address;
      ModelAt(domain);
      assert Model() == Renew(old(Model()), domain, expiresAt);
    }

    /** Both map updates of an allocation. */
    method InsertNew(domain: string, address: nat, expiresAt: nat) returns (mapping: Entry)
      requires Valid() && domain !in byDomain && address !in byAddress
      requires ValidPool(range, Insert(Model(), domain, address, expiresAt, next))
      modifies this`byDomain, this`byAddress, this`entries
      ensures Valid() && Model() == Insert(old(Model()), domain, address, expiresAt, next)
      ensures fresh(mapping) && entries == old(entries) + {mapping}
      ensures mapping.domain == domain && mapping.address == address && mapping.expiresAt == expiresAt
      ensures Live(mapping)
    {
      hide ValidPool, Inverse, TableOf, CountsMatch;
      mapping := new Entry(domain, address, expiresAt);
      InverseInsert(byDomain, byAddress, entries, mapping);
      CountsWithNewEntry(entries, handles, mapping);
      byDomain := byDomain[domain := mapping];
      byAddress := byAddress[address := mapping];
      entries := entries + {mapping};
    }

    /** Finds a free address below the limit and maps the name to it. */
    method AllocateFree(name: string, expiresAt: nat) returns (mapping: Entry)
      requires Valid() && name !in byDomain && |byDomain| < range.maxMappings
      requires DomainName.Canonical(name) && expiresAt > ZERO_TIME
      modifies this`byDomain, this`byAddress, this`entries, this`next
      ensures Valid() && fresh(mapping) && entries == old(entries) + {mapping}
      ensures mapping.domain == name && mapping.expiresAt == expiresAt && Live(mapping)
      ensures FirstFree(range, old(Model()).table, old(next), mapping.address)
      ensures Model() == Insert(old(Model()), name, mapping.address, expiresAt, After(range, mapping.address))
    {
      hide ValidPool, Inverse, TableOf, CountsMatch, FirstFree, DomainName.Canonical;
      ghost var before := Model();
      ModelKeys();
      SameSize(Model().table, byDomain);
      ModelAddresses();
      var candidate := FindFree();
      FirstFreeIsUsable(range, before, candidate);
      assert AddressFree(before.table, candidate) by { FirstFreeIsFree(range, before.table, before.next, candidate); }
      InsertKeepsValid(range, before, name, candidate, expiresAt, next);
      mapping := InsertNew(name, candidate, expiresAt);
    }

    /** The first section of GetOrAllocate for a new name, after pruning. */
    method AllocateNew(name: string, now: nat) returns (start: Start)
      requires Valid() && name !in byDomain && DomainName.Canonical(name) && range.mappingTTL > 0
      modifies this`byDomain, this`byAddress, this`entries, this`next, this`exhaustions
      ensures Valid() && old(entries) <= entries && fresh(entries - old(entries))
      ensures BegunNew(range, old(Model()), name, now, start, Model())
      ensures start.Writing? ==> Live(start.mapping) && start.mapping in entries
    {
      hide ValidPool, Inverse, TableOf, CountsMatch, FirstFree, DomainName.Canonical;
      ModelKeys();
      SameSize(Model().table, byDomain);
      if |byDomain| >= range.maxMappings {
        exhaustions := exhaustions + 1;
        return Exhausted;
      }
      var mapping := AllocateFree(name, now + range.mappingTTL);
      if !journaled {
        return Allocated(mapping.address);
      }
      var removed := ListDomains(pendingDeletes);
      start := Writing(mapping, Update(now, removed, Mapping(name, mapping.address, mapping.expiresAt)));
    }

    method AllocateOrRenew(name: string, now: nat) returns (start: Start)
      requires Valid() && DomainName.Canonical(name) && range.mappingTTL > 0
      modifies this, entries`expiresAt
      ensures Valid() && handles == old(handles) && old(entries) <= entries && fresh(entries - old(entries))
      ensures Begun(range, old(Model()), name, now, start, Model())
      ensures start.Writing? ==> Live(start.mapping) && start.mapping in entries
    {
      hide ValidPool, Inverse, TableOf, CountsMatch, FakeIPTable.Prune, BegunNew, DomainName.Canonical;
      ModelKeys();
      if name in byDomain {
        var address := RenewExisting(name, now + range.mappingTTL);
        start := Existing(address);
      } else {
        PruneSubset(Model(), now);
        PruneLocked(now);
        ModelKeys();
        start := AllocateNew(name, now);
      }
    }

    /** The first section of GetOrAllocate. Normalization precedes the lock. */
    method BeginAllocate(domain: string, now: nat) returns (start: Start)
      requires Valid()
      modifies this, entries`expiresAt
      ensures Valid() && handles == old(handles) && old(entries) <= entries && fresh(entries - old(entries))
      ensures match DomainName.Normalize(domain)
              case None => start.InvalidDomain? && Model() == old(Model())
              case Some(name) => Begun(range, old(Model()), name, now, start, Model())
      ensures start.Writing? ==> Live(start.mapping) && start.mapping in entries
    {
      assert range.mappingTTL > 0;
      hide ValidPool, Inverse, TableOf, CountsMatch, FakeIPTable.Prune, BegunNew;
      var normalized := DomainName.Normalize(domain);
      if normalized.None? {
        start := InvalidDomain;
      } else {
        DomainName.NormalizeIsIdempotent(domain);
        hide DomainName.Normalize;
        start := AllocateOrRenew(normalized.value, now);
      }
    }

    /** The second section of GetOrAllocate, after the write succeeded or not.
        In between, any other section may have run. */
    method FinishAllocate(mapping: Entry, removed: seq<string>, written: bool)
      requires Valid()
      modifies this`byDomain, this`byAddress, this`pendingDeletes
      ensures Valid()
      ensures written ==> Model() == Settle(old(Model()), set d | d in removed)
      ensures !written ==> Model() == if old(Live(mapping)) then Abort(old(Model()), mapping.domain) else old(Model())
    {
      hide ValidPool, Inverse, TableOf, CountsMatch;
      if written {
        FinishFlush(removed);
      } else if mapping.domain in byDomain && byDomain[mapping.domain] == mapping {
        AbortKeepsValid(range, Model(), mapping.domain);
        DeleteUntracked(mapping.domain);
      }
    }

    /** Retires the tombstones that a successful write has carried. */
    method FinishFlush(removed: seq<string>)
      requires Valid()
      modifies this`pendingDeletes
      ensures Valid() && Model() == Settle(old(Model()), set d | d in removed)
    {
      hide ValidPool, Inverse, TableOf, CountsMatch;
      SettleKeepsValid(range, Model(), set d | d in removed);
      ClearTombstones(removed);
    }

    method ClearTombstones(removed: seq<string>)
      modifies this`pendingDeletes
      ensures pendingDeletes == old(pendingDeletes) - (set d | d in removed)
    {
      for i := 0 to |removed|
        invariant pendingDeletes == old(pendingDeletes) - (set d | d in removed[..i])
      {
        pendingDeletes := pendingDeletes - {removed[i]};
        assert removed[..i + 1] == removed[..i] + [removed[i]];
      }
      assert removed[..|removed|] == removed;
    }

    method Lookup(address: nat, now: nat) returns (domain: Option<string>)
      requires Valid()
      modifies this`byDomain, this`byAddress, this`pendingDeletes
      ensures Valid()
      ensures AddressFree(old(Model()).table, address) ==> domain.None? && Model() == old(Model())
      ensures forall d :: d in old(Model()).table && old(Model()).table[d].address == address ==>
                && Model() == DropIfExpired(old(Model()), d, now)
                && domain == if Expired(old(Model()).table[d], now) then None else Some(d)
    {
      hide ValidPool, CountsMatch;
      ModelAddresses();
      if address !in byAddress {
        return None;
      }
      var mapping := byAddress[address];
      ModelAt(mapping.domain);
      hide Inverse, TableOf;
      InjectiveModel();
      if mapping.expiresAt <= now && mapping.references == 0 {
        Delete(mapping.domain);
        return None;
      }
      domain := Some(mapping.domain);
    }

    lemma InjectiveModel()
      requires Valid()
      ensures Injective(Model().table)
    {
    }

    /** Acquire holds the mapping for one flow until its handle is released. */
    method Acquire(address: nat, now: nat) returns (handle: Option<Handle>)
      requires Valid()
      modifies this`byDomain, this`byAddress, this`pendingDeletes, this`handles, entries`references
      ensures Valid() && old(handles) <= handles
      ensures handle.Some? ==> fresh(handle.value) && handles == old(handles) + {handle.value} && !handle.value.released
      ensures AddressFree(old(Model()).table, address) ==> handle.None? && Model() == old(Model())
      ensures forall d :: d in old(Model()).table && old(Model()).table[d].address == address ==>
                if Expired(old(Model()).table[d], now) then
                  handle.None? && Model() == Drop(old(Model()), {d})
                else
                  handle.Some? && handle.value.mapping.domain == d && Live(handle.value.mapping)
                  && Model() == Hold(old(Model()), d)
    {
      hide ValidPool, CountsMatch;
      ModelAddresses();
      handle := None;
      if address in byAddress {
        var mapping := byAddress[address];
        var domain := mapping.domain;
        ModelAt(domain);
        hide Inverse, TableOf, AddressFree;
        InjectiveModel();
        if mapping.expiresAt <= now && mapping.references == 0 {
          Delete(domain);
        } else {
          var held := HoldMapping(mapping);
          handle := Some(held);
        }
      }
    }

    method HoldMapping(mapping: Entry) returns (handle: Handle)
      requires Valid() && Live(mapping)
      modifies this`handles, mapping`references
      ensures Valid() && fresh(handle) && handles == old(handles) + {handle}
      ensures handle.mapping == mapping && !handle.released
      ensures Model() == Hold(old(Model()), mapping.domain)
    {
      hide ValidPool, CountsMatch, OneOver, Inverse, TableOf;
      CountingKeepsValid(mapping);
      handle := new Handle(mapping);
      Increment(mapping);
      OpenHandleEvens(entries, handles, handle);
      handles := handles + {handle};
    }

    method Increment(mapping: Entry)
      requires Linked() && Counted() && mapping in entries
      modifies mapping`references
      ensures OneOver(entries, handles, mapping)
      ensures mapping.references == old(mapping.references) + 1
      ensures Live(mapping) ==> Model() == Hold(old(Model()), mapping.domain)
    {
      ghost var before := Model();
      if Live(mapping) {
        LiveIsMapped(mapping);
      }
      mapping.references := mapping.references + 1;
      assert OneOver(entries, handles, mapping) by {
        hide Inverse, TableOf;
      }
      assert Live(mapping) ==> Model() == Hold(before, mapping.domain) by {
        hide OneOver, CountsMatch, OpenHandles;
      }
      hide OneOver, CountsMatch, OpenHandles, Inverse, TableOf;
    }

    /** The guarded decrement inside a release function. */
    method Decrement(mapping: Entry)
      requires Linked() && OneOver(entries, handles, mapping) && mapping in entries
      modifies mapping`references
      ensures Counted()
      ensures mapping.references == old(mapping.references) - 1
      ensures Model() == if Live(mapping) then Unhold(old(Model()), mapping.domain) else old(Model())
    {
      ghost var before := Model();
      if mapping.references > 0 {
        mapping.references := mapping.references - 1;
      }
      assert Counted() by {
        hide Inverse, TableOf;
      }
      assert Model() == if Live(mapping) then Unhold(before, mapping.domain) else before by {
        hide OneOver, CountsMatch, OpenHandles;
      }
    }

    lemma CountingKeepsValid(mapping: Entry)
      requires Valid() && Live(mapping)
      ensures mapping in entries && mapping.domain in Model().table
      ensures ValidPool(range, Hold(Model(), mapping.domain)) && ValidPool(range, Unhold(Model(), mapping.domain))
    {
      LiveIsMapped(mapping);
      SlotsHaveExpiry(mapping.domain);
      hide ValidPool, CountsMatch, TableOf;
      SlotUpdatesKeepValid(range, Model(), mapping.domain, Model().table[mapping.domain].expiresAt);
    }

    lemma HandleIsOnEntry(handle: Handle)
      requires Valid() && handle in handles
      ensures handle.mapping in entries
    {
      hide ValidPool, Inverse, TableOf;
    }

    lemma LiveIsMapped(mapping: Entry)
      requires Linked() && Live(mapping)
      ensures mapping.domain in Model().table
    {
    }

    lemma SlotsHaveExpiry(domain: string)
      requires Valid() && domain in Model().table
      ensures Model().table[domain].expiresAt > ZERO_TIME
    {
    }

    /** Releasing is idempotent. The source guards the decrement against zero;
        the guard never applies, because an open handle is always counted. */
    method Release(handle: Handle)
      requires Valid() && handle in handles
      modifies handle`released, handle.mapping`references
      ensures Valid() && handle.released
      ensures old(handle.released) ==> Model() == old(Model())
      ensures !old(handle.released) ==> handle.mapping.references == old(handle.mapping.references) - 1
      ensures !old(handle.released) && Live(handle.mapping) ==> Model() == Unhold(old(Model()), handle.mapping.domain)
      ensures !old(handle.released) && !Live(handle.mapping) ==> Model() == old(Model())
    {
      hide ValidPool, CountsMatch, OneOver, Inverse, TableOf;
      if !handle.released {
        var mapping := handle.mapping;
        if Live(mapping) {
          CountingKeepsValid(mapping);
        }
        HandleIsOnEntry(handle);
        ghost var others := handles - {handle};
        assert handles == others + {handle};
        OpenHandleEvens(entries, others, handle);
        handle.released := true;
        ReleasedHandleIsIgnored(entries, others, handle);
        Decrement(mapping);
      }
    }

    /** setPersistence: from now on deletions leave tombstones. */
    method Attach()
      requires Valid()
      modifies this`journaled
      ensures Valid() && Model() == old(Model()).(journaled := true)
    {
      hide ValidTable, CountsMatch, Inverse, TableOf;
      journaled := true;
    }

    /** snapshotLocked. The source sorts the list by domain afterwards. */
    method TakeSnapshot() returns (items: seq<Mapping>)
      requires Valid()
      ensures Represents(items, Model().table)
    {
      hide ValidPool, CountsMatch;
      items := [];
      ghost var t := Model().table;
      ModelKeys();
      var left := byDomain.Keys;
      while left != {}
        invariant left <= byDomain.Keys
        invariant forall i, j :: 0 <= i < j < |items| ==> items[i].domain != items[j].domain
        invariant forall i :: 0 <= i < |items| ==> Item(items[i], t) && items[i].domain !in left
        invariant forall d :: d in byDomain && d !in left ==> Mapping(d, t[d].address, t[d].expiresAt) in items
        decreases left
      {
        var domain :| domain in left;
        ModelAt(domain);
        var mapping := byDomain[domain];
        items := items + [Mapping(domain, mapping.address, mapping.expiresAt)];
        left := left - {domain};
      }
      forall d | d in t
        ensures exists i :: 0 <= i < |items| && items[i].domain == d
      {
        assert Mapping(d, t[d].address, t[d].expiresAt) in items;
      }
    }

    /** restore: builds both maps aside and installs them only at the end. */
    method Restore(items: seq<Mapping>, floor: nat) returns (ok: bool)
      requires Valid()
      modifies this`byDomain, this`byAddress, this`entries
      ensures Valid() && old(entries) <= entries && fresh(entries - old(entries))
      ensures ok <==> RestoreTable(range, items, floor).Some?
      ensures Model() == if ok then old(Model()).(table := RestoreTable(range, items, floor).value) else old(Model())
    {
      hide ValidPool, CountsMatch, Inverse, TableOf;
      ghost var before := Model();
      ok := false;
      if |items| <= range.maxMappings {
        var newDomains, newAddresses;
        ok, newDomains, newAddresses := LoadItems(items, floor);
        if ok {
          RestoreKeepsValid(range, before, items, floor);
          byDomain, byAddress := newDomains, newAddresses;
        }
      }
    }

    method LoadItems(items: seq<Mapping>, floor: nat)
      returns (ok: bool, newDomains: map<string, Entry>, newAddresses: map<nat, Entry>)
      requires Valid()
      modifies this`entries
      ensures Linked() && Counted() && Model() == old(Model())
      ensures old(entries) <= entries && fresh(entries - old(entries))
      ensures ok <==> RestoreAll(range, items, floor).Some?
      ensures ok ==> Inverse(newDomains, newAddresses, entries)
                     && TableOf(newDomains, entries) == RestoreAll(range, items, floor).value
    {
      hide ValidPool, CountsMatch, Inverse, TableOf, ValidateMapping;
      newDomains, newAddresses := map[], map[];
      EmptyIndexes(entries);
      for i := 0 to |items|
        invariant Linked() && Counted() && Model() == old(Model())
        invariant old(entries) <= entries && fresh(entries - old(entries))
        invariant Inverse(newDomains, newAddresses, entries)
        invariant RestoreAll(range, items[..i], floor) == Some(TableOf(newDomains, entries))
      {
        assert items[..i + 1][..i] == items[..i];
        var pair := ValidateMapping(range, items[i], floor);
        RestoreFailsFrom(range, items, floor, i + 1);
        IndexesAgree(newDomains, newAddresses, entries);
        if pair.None? || pair.value.0 in newDomains || pair.value.1.address in newAddresses {
          return false, newDomains, newAddresses;
        }
        ghost var t := TableOf(newDomains, entries);
        newDomains, newAddresses := AddEntry(newDomains, newAddresses, pair.value.0, pair.value.1);
      }
      assert items[..|items|] == items;
      ok := true;
    }

    /** Creates one entry for maps that are still being built. */
    method AddEntry(someDomains: map<string, Entry>, someAddresses: map<nat, Entry>, domain: string, slot: Slot)
      returns (newDomains: map<string, Entry>, newAddresses: map<nat, Entry>)
      requires Linked() && Counted() && Inverse(someDomains, someAddresses, entries)
      requires domain !in someDomains && slot.address !in someAddresses && slot.references == 0
      modifies this`entries
      ensures Linked() && Counted() && Model() == old(Model())
      ensures old(entries) <= entries && fresh(entries - old(entries))
      ensures Inverse(newDomains, newAddresses, entries)
      ensures TableOf(newDomains, entries) == old(TableOf(someDomains, entries))[domain := slot]
    {
      hide CountsMatch, Inverse, TableOf;
      var mapping := new Entry(domain, slot.address, slot.expiresAt);
      InverseInsert(someDomains, someAddresses, entries, mapping);
      CountsWithNewEntry(entries, handles, mapping);
      MoreEntries(byDomain, byAddress, entries, mapping);
      newDomains, newAddresses := someDomains[domain := mapping], someAddresses[slot.address := mapping];
      entries := entries + {mapping};
    }

    /** restoreJournal: works on copies of both maps; an update that does not
        fit leaves the pool as it was. */
    method RestoreJournal(updates: seq<Update>, floor: nat) returns (ok: bool)
      requires Valid()
      modifies this`byDomain, this`byAddress, this`entries
      ensures Valid() && old(entries) <= entries && fresh(entries - old(entries))
      ensures ok <==> Replay(range, old(Model()).table, updates, floor).Some?
      ensures Model() == if ok then old(Model()).(table := Replay(range, old(Model()).table, updates, floor).value)
                         else old(Model())
    {
      hide ValidPool, CountsMatch, Inverse, TableOf;
      ghost var before := Model();
      var newDomains, newAddresses;
      ok, newDomains, newAddresses := ApplyUpdates(updates, floor);
      if ok {
        ReplayKeepsValid(range, before, updates, floor);
        byDomain, byAddress := newDomains, newAddresses;
      }
    }

    method ApplyUpdates(updates: seq<Update>, floor: nat)
      returns (ok: bool, newDomains: map<string, Entry>, newAddresses: map<nat, Entry>)
      requires Valid()
      modifies this`entries
      ensures Linked() && Counted() && Model() == old(Model())
      ensures old(entries) <= entries && fresh(entries - old(entries))
      ensures ok <==> Replay(range, old(Model()).table, updates, floor).Some?
      ensures ok ==> Inverse(newDomains, newAddresses, entries)
                     && TableOf(newDomains, entries) == Replay(range, old(Model()).table, updates, floor).value
    {
      hide ValidPool, CountsMatch, Inverse, TableOf, ApplyUpdate;
      ghost var t := Table();
      newDomains, newAddresses := byDomain, byAddress;
      for i := 0 to |updates|
        invariant Linked() && Counted() && Model() == old(Model())
        invariant old(entries) <= entries && fresh(entries - old(entries))
        invariant Inverse(newDomains, newAddresses, entries)
        invariant Replay(range, t, updates[..i], floor) == Some(TableOf(newDomains, entries))
      {
        assert updates[..i + 1][..i] == updates[..i];
        ReplayFailsFrom(range, t, updates, floor, i + 1);
        ok, newDomains, newAddresses := ApplyOne(newDomains, newAddresses, updates[i], floor);
        if !ok {
          return;
        }
      }
      assert updates[..|updates|] == updates;
      ok := true;
    }

    method ApplyOne(someDomains: map<string, Entry>, someAddresses: map<nat, Entry>, update: Update, floor: nat)
      returns (ok: bool, newDomains: map<string, Entry>, newAddresses: map<nat, Entry>)
      requires Linked() && Counted() && Inverse(someDomains, someAddresses, entries)
      modifies this`entries
      ensures Linked() && Counted() && Model() == old(Model())
      ensures old(entries) <= entries && fresh(entries - old(entries))
      ensures ok <==> ApplyUpdate(range, old(TableOf(someDomains, entries)), update, floor).Some?
      ensures ok ==> Inverse(newDomains, newAddresses, entries)
                     && Some(TableOf(newDomains, entries)) == ApplyUpdate(range, old(TableOf(someDomains, entries)), update, floor)
    {
      hide CountsMatch, Inverse, TableOf, ValidateMapping;
      ghost var t := TableOf(someDomains, entries);
      newDomains, newAddresses := someDomains, someAddresses;
      var valid;
      valid, newDomains, newAddresses := RemoveAll(someDomains, someAddresses, update.removed);
      var pair := ValidateMapping(range, update.mapping, floor);
      if !valid || pair.None? {
        return false, newDomains, newAddresses;
      }
      newDomains, newAddresses := EvictEntries(newDomains, newAddresses, pair.value.0, pair.value.1.address);
      IndexesAgree(newDomains, newAddresses, entries);
      SameSize(TableOf(newDomains, entries), newDomains);
      if |newDomains| >= range.maxMappings {
        return false, newDomains, newAddresses;
      }
      newDomains, newAddresses := AddEntry(newDomains, newAddresses, pair.value.0, pair.value.1);
      ok := true;
    }

    method RemoveAll(someDomains: map<string, Entry>, someAddresses: map<nat, Entry>, removed: seq<string>)
      returns (ok: bool, newDomains: map<string, Entry>, newAddresses: map<nat, Entry>)
      requires Inverse(someDomains, someAddresses, entries)
      ensures ok <==> NormalizeAll(removed).Some?
      ensures Inverse(newDomains, newAddresses, entries)
      ensures ok ==> TableOf(newDomains, entries) == TableOf(someDomains, entries) - NormalizeAll(removed).value
    {
      hide DomainName.Normalize, TableOf, Inverse;
      newDomains, newAddresses := someDomains, someAddresses;
      ghost var t := TableOf(someDomains, entries);
      assert t - {} == t;
      for i := 0 to |removed|
        invariant Inverse(newDomains, newAddresses, entries)
        invariant NormalizeAll(removed[..i]).Some?
        invariant TableOf(newDomains, entries) == t - NormalizeAll(removed[..i]).value
      {
        assert removed[..i + 1][..i] == removed[..i];
        NormalizeFailsFrom(removed, i + 1);
        var domain := DomainName.Normalize(removed[i]);
        if domain.None? {
          return false, newDomains, newAddresses;
        }
        ghost var gone := NormalizeAll(removed[..i]).value;
        newDomains, newAddresses := RemoveDomain(newDomains, newAddresses, domain.value);
        assert t - gone - {domain.value} == t - (gone + {domain.value});
      }
      assert removed[..|removed|] == removed;
      ok := true;
    }

    method RemoveDomain(someDomains: map<string, Entry>, someAddresses: map<nat, Entry>, domain: string)
      returns (newDomains: map<string, Entry>, newAddresses: map<nat, Entry>)
      requires Inverse(someDomains, someAddresses, entries)
      ensures Inverse(newDomains, newAddresses, entries)
      ensures TableOf(newDomains, entries) == TableOf(someDomains, entries) - {domain}
    {
      newDomains, newAddresses := someDomains, someAddresses;
      IndexesAgree(someDomains, someAddresses, entries);
      if domain in someDomains {
        var previous := someDomains[domain];
        assert previous.domain == domain;
        hide Inverse, TableOf;
        InverseRemove(someDomains, someAddresses, entries, previous);
        newAddresses := newAddresses - {previous.address};
        newDomains := newDomains - {domain};
      } else {
        hide Inverse, TableOf;
        assert TableOf(someDomains, entries) - {domain} == TableOf(someDomains, entries);
      }
    }

    /** The previous holders of a domain and of an address give way. */
    method EvictEntries(someDomains: map<string, Entry>, someAddresses: map<nat, Entry>, domain: string, address: nat)
      returns (newDomains: map<string, Entry>, newAddresses: map<nat, Entry>)
      requires Inverse(someDomains, someAddresses, entries)
      ensures Inverse(newDomains, newAddresses, entries)
      ensures domain !in newDomains && address !in newAddresses
      ensures TableOf(newDomains, entries) == Evict(TableOf(someDomains, entries), domain, address)
    {
      hide Inverse, TableOf, Evict, AddressFree;
      ghost var t := TableOf(someDomains, entries);
      newDomains, newAddresses := RemoveDomain(someDomains, someAddresses, domain);
      IndexesAgree(newDomains, newAddresses, entries);
      if address in newAddresses {
        var holder := newAddresses[address].domain;
        HolderInTable(newDomains, newAddresses, entries, address);
        EvictHolder(t, domain, address, holder);
        newDomains, newAddresses := RemoveDomain(newDomains, newAddresses, holder);
      } else {
        EvictNobody(t, domain, address);
      }
      EvictFrees(t, domain, address);
      IndexesAgree(newDomains, newAddresses, entries);
    }
  }

  lemma HolderInTable(byDomain: map<string, Entry>, byAddress: map<nat, Entry>, entries: set<Entry>, address: nat)
    requires Inverse(byDomain, byAddress, entries) && address in byAddress
    ensures var t := TableOf(byDomain, entries);
            forall d :: d in t ==> (t[d].address == address <==> d == byAddress[address].domain)
  {
    HolderIsUnique(byDomain, byAddress, entries, address);
  }

  lemma EvictHolder(t: FakeIPTable.Table, domain: string, address: nat, holder: string)
    requires var left := t - {domain}; forall d :: d in left ==> (left[d].address == address <==> d == holder)
    ensures t - {domain} - {holder} == Evict(t, domain, address)
  {
    var left := t - {domain};
    forall d | d in t && d != domain
      ensures t[d].address == address <==> d == holder
    {
      assert d in left && left[d] == t[d];
    }
  }

  lemma EvictNobody(t: FakeIPTable.Table, domain: string, address: nat)
    requires AddressFree(t - {domain}, address)
    ensures t - {domain} == Evict(t, domain, address)
  {
  }

  lemma EvictFrees(t: FakeIPTable.Table, domain: string, address: nat)
    ensures domain !in Evict(t, domain, address) && AddressFree(Evict(t, domain, address), address)
  {
  }

  lemma DropTwice(p: PoolState, first: set<string>, second: set<string>)
    ensures Drop(Drop(p, first), second) == Drop(p, first + second)
  {
    assert p.table - first - second == p.table - (first + second);
    assert p.pending + first + second == p.pending + (first + second);
  }

  /** Pruning visits the domains in any order; what is left to visit does not
      matter for what was already dropped. */
  lemma PruneStep(before: PoolState, todo: set<string>, domain: string, now: nat)
    requires domain in todo && todo <= before.table.Keys
    ensures var p := Drop(before, ExpiredDomains(before.table, now) - todo);
            domain in p.table &&
            DropIfExpired(p, domain, now) == Drop(before, ExpiredDomains(before.table, now) - (todo - {domain}))
  {
    var expired := ExpiredDomains(before.table, now);
    if domain in expired {
      assert expired - (todo - {domain}) == (expired - todo) + {domain};
      DropTwice(before, expired - todo, {domain});
    } else {
      assert expired - (todo - {domain}) == expired - todo;
    }
  }

  lemma PruneEnds(before: PoolState, all: set<string>, now: nat)
    requires all == before.table.Keys
    ensures Drop(before, ExpiredDomains(before.table, now) - all) == before
    ensures Drop(before, ExpiredDomains(before.table, now) - {}) == FakeIPTable.Prune(before, now)
  {
    assert ExpiredDomains(before.table, now) - all == {};
    assert before.table - {} == before.table;
    assert before.pending + {} == before.pending;
    assert ExpiredDomains(before.table, now) - {} == ExpiredDomains(before.table, now);
  }
}
