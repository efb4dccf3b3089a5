/** The resolver's view of a DNS reply: following CNAMEs to the name that holds
    the addresses (section 3.6.2 of RFC 1034, section 10.1 of RFC 2181), the
    smallest TTL on the way, and a bounded cache. Names are in canonical form. */
module DNSCache {
  import opened Collections
  import opened Wrappers

  const MAX_ENTRIES: nat := 1024

  datatype Record =
    | CNAME(owner: string, target: string, ttl: nat)
    | AddressRecord(name: string, address: nat, v6: bool, ttl: nat)
    | OtherRecord

  datatype Alias = Alias(target: string, ttl: nat, conflict: bool)

  type Aliases = map<string, Alias>

  function Min(a: nat, b: nat): nat { if b < a then b else a }

  function WithAlias(aliases: Aliases, r: Record): Aliases {
    if !r.CNAME? then aliases
    else if r.owner in aliases then
      var known := aliases[r.owner];
      aliases[r.owner := Alias(known.target, Min(known.ttl, r.ttl), known.conflict || known.target != r.target)]
    else aliases[r.owner := Alias(r.target, r.ttl, false)]
  }

  function Collect(records: seq<Record>): Aliases {
    if records == [] then map[] else WithAlias(Collect(records[..|records| - 1]), records[|records| - 1])
  }

  /** The CNAME records of one owner. */
  ghost predicate Owned(records: seq<Record>, owner: string, r: Record) {
    r in records && r.CNAME? && r.owner == owner
  }

  /** An alias stands for all CNAME records of its owner: their smallest TTL, and
      a conflict exactly when two of them disagree. */
  lemma {:induction false} CollectMeans(records: seq<Record>, owner: string)
    ensures owner in Collect(records) <==> exists r :: Owned(records, owner, r)
    ensures owner in Collect(records) ==>
              var a := Collect(records)[owner];
              && (exists r :: Owned(records, owner, r) && r.target == a.target)
              && (exists r :: Owned(records, owner, r) && r.ttl == a.ttl)
              && (forall r :: Owned(records, owner, r) ==> a.ttl <= r.ttl)
              && (a.conflict <==> exists r :: Owned(records, owner, r) && r.target != a.target)
  {
    if records != [] {
      var front, last := records[..|records| - 1], records[|records| - 1];
      CollectMeans(front, owner);
      assert records == front + [last];
      forall r | Owned(front, owner, r)
        ensures Owned(records, owner, r)
      {
      }
      forall r | Owned(records, owner, r)
        ensures Owned(front, owner, r) || r == last
      {
      }
      if last.CNAME? && last.owner == owner {
        assert Owned(records, owner, last);
      }
    }
  }

  // ---------------------------------------------------------------------
  // The chain from a name

  function Hop(aliases: Aliases, name: string): string {
    if name in aliases then aliases[name].target else name
  }

  function Walk(aliases: Aliases, name: string, n: nat): string {
    if n == 0 then name else Hop(aliases, Walk(aliases, name, n - 1))
  }

  /** No alias on the chain comes back to itself. */
  ghost predicate LoopFree(aliases: Aliases, name: string) {
    forall i: nat, j: nat :: i < j && Walk(aliases, name, i) in aliases ==> Walk(aliases, name, i) != Walk(aliases, name, j)
  }

  ghost predicate ConflictFree(aliases: Aliases, name: string) {
    forall i: nat :: Walk(aliases, name, i) in aliases ==> !aliases[Walk(aliases, name, i)].conflict
  }

  lemma {:induction false} StaysAtEnd(aliases: Aliases, name: string, k: nat, n: nat)
    requires Walk(aliases, name, k) !in aliases && k <= n
    ensures Walk(aliases, name, n) == Walk(aliases, name, k)
    decreases n
  {
    if k < n {
      StaysAtEnd(aliases, name, k, n - 1);
    }
  }

  /** The first k names of the chain are different aliases without conflict. */
  ghost predicate Clean(aliases: Aliases, name: string, k: nat) {
    && (forall i: nat :: i < k ==> Walk(aliases, name, i) in aliases && !aliases[Walk(aliases, name, i)].conflict)
    && (forall i: nat, j: nat :: i < j < k ==> Walk(aliases, name, i) != Walk(aliases, name, j))
  }

  lemma EndedChain(aliases: Aliases, name: string, k: nat)
    requires Clean(aliases, name, k) && Walk(aliases, name, k) !in aliases
    ensures LoopFree(aliases, name) && ConflictFree(aliases, name)
  {
    forall n: nat | n >= k
      ensures Walk(aliases, name, n) !in aliases
    {
      StaysAtEnd(aliases, name, k, n);
    }
  }

  /** The owners of the first k aliases. */
  ghost function Owners(aliases: Aliases, name: string, k: nat): set<string> {
    set i | 0 <= i < k :: Walk(aliases, name, i)
  }

  lemma BackOnChain(aliases: Aliases, name: string, k: nat)
    requires Clean(aliases, name, k) && Walk(aliases, name, k) in Owners(aliases, name, k)
    ensures !LoopFree(aliases, name)
  {
    var i :| 0 <= i < k && Walk(aliases, name, i) == Walk(aliases, name, k);
  }

  lemma ConflictOnChain(aliases: Aliases, name: string, k: nat)
    requires Walk(aliases, name, k) in aliases && aliases[Walk(aliases, name, k)].conflict
    ensures !ConflictFree(aliases, name)
  {
  }

  lemma ChainStarts(aliases: Aliases, name: string)
    ensures Walk(aliases, name, 0) == name && Clean(aliases, name, 0) && Owners(aliases, name, 0) == {}
  {
  }

  ghost function ChainTTLs(records: seq<Record>, owners: set<string>): set<nat> {
    set r | r in records && r.CNAME? && r.owner in owners :: r.ttl
  }

  /** ttl is the least of ttls, if there are any. */
  ghost predicate Least(ttl: Option<nat>, ttls: set<nat>) {
    match ttl
    case None => ttls == {}
    case Some(t) => t in ttls && forall x :: x in ttls ==> t <= x
  }

  function MinimumTTL(current: Option<nat>, candidate: nat): nat {
    if current.None? || candidate < current.value then candidate else current.value
  }

  lemma LeastWith(ttl: Option<nat>, ttls: set<nat>, candidate: nat)
    requires Least(ttl, ttls)
    ensures Least(Some(MinimumTTL(ttl, candidate)), ttls + {candidate})
  {
  }

  lemma OneMoreOwner(records: seq<Record>, owners: set<string>, owner: string, ttl: Option<nat>)
    requires owner in Collect(records) && Least(ttl, ChainTTLs(records, owners))
    ensures Least(Some(MinimumTTL(ttl, Collect(records)[owner].ttl)), ChainTTLs(records, owners + {owner}))
  {
    CollectMeans(records, owner);
    var least := Collect(records)[owner].ttl;
    var r :| Owned(records, owner, r) && r.ttl == least;
    var before, after := ChainTTLs(records, owners), ChainTTLs(records, owners + {owner});
    assert least in after;
    assert before <= after;
    forall x | x in after
      ensures x in before || x >= least
    {
      var s :| s in records && s.CNAME? && s.owner in owners + {owner} && s.ttl == x;
      if s.owner == owner {
        assert Owned(records, owner, s);
      }
    }
  }

  method CollectAliases(records: seq<Record>) returns (aliases: Aliases)
    ensures aliases == Collect(records)
  {
    aliases := map[];
    for i := 0 to |records|
      invariant aliases == Collect(records[..i])
    {
      assert records[..i + 1][..i] == records[..i];
      aliases := WithAlias(aliases, records[i]);
    }
    assert records[..|records|] == records;
  }

  /** answerTarget: succeeds exactly when the chain from the name has no loop and
      no conflict; then the target is where it ends and the TTL the smallest of
      all CNAME records along it. */
  method AnswerTarget(records: seq<Record>, domain: string)
    returns (r: Option<(string, Option<nat>)>, ghost owners: set<string>)
    ensures r.Some? <==> LoopFree(Collect(records), domain) && ConflictFree(Collect(records), domain)
    ensures r.Some? ==>
              && r.value.0 !in Collect(records)
              && exists k: nat ::
                   && r.value.0 == Walk(Collect(records), domain, k) && owners == Owners(Collect(records), domain, k)
                   && Clean(Collect(records), domain, k)
    ensures r.Some? ==> Least(r.value.1, ChainTTLs(records, owners))
  {
    hide Collect, Least, ChainTTLs, Clean, Owners, LoopFree, ConflictFree, Walk;
    var aliases := CollectAliases(records);
    var current, visited: set<string>, ttl: Option<nat> := domain, {}, None;
    ghost var k: nat := 0;
    NoOwners(records);
    ChainStarts(aliases, domain);
    while true
      invariant current == Walk(aliases, domain, k) && visited == Owners(aliases, domain, k)
      invariant Clean(aliases, domain, k)
      invariant Least(ttl, ChainTTLs(records, visited))
      invariant visited <= aliases.Keys
      decreases |aliases.Keys - visited|
    {
      if current in visited {
        BackOnChain(aliases, domain, k);
        return None, {};
      }
      if current !in aliases {
        EndedChain(aliases, domain, k);
        return Some((current, ttl)), visited;
      }
      if aliases[current].conflict {
        ConflictOnChain(aliases, domain, k);
        return None, {};
      }
      OneMoreOwner(records, visited, current, ttl);
      NextOwner(aliases, domain, k);
      ttl := Some(MinimumTTL(ttl, aliases[current].ttl));
      assert aliases.Keys - (visited + {current}) == (aliases.Keys - visited) - {current};
      visited := visited + {current};
      current := aliases[current].target;
      k := k + 1;
    }
  }

  lemma NoOwners(records: seq<Record>)
    ensures Least(None, ChainTTLs(records, {}))
  {
  }

  lemma NextOwner(aliases: Aliases, name: string, k: nat)
    requires Clean(aliases, name, k) && Walk(aliases, name, k) in aliases
    requires !aliases[Walk(aliases, name, k)].conflict && Walk(aliases, name, k) !in Owners(aliases, name, k)
    ensures Clean(aliases, name, k + 1)
    ensures Owners(aliases, name, k + 1) == Owners(aliases, name, k) + {Walk(aliases, name, k)}
    ensures Walk(aliases, name, k + 1) == aliases[Walk(aliases, name, k)].target
  {
    var current := Walk(aliases, name, k);
    forall i: nat | i < k
      ensures Walk(aliases, name, i) != current
    {
      assert Walk(aliases, name, i) in Owners(aliases, name, k);
    }
  }

  // ---------------------------------------------------------------------
  // The addresses at the target

  predicate AtTarget(r: Record, target: string, v6: bool) {
    r.AddressRecord? && r.name == target && r.v6 == v6
  }

  ghost function TargetTTLs(records: seq<Record>, target: string, v6: bool): set<nat> {
    set r | r in records && AtTarget(r, target, v6) :: r.ttl
  }

  /** Every address at the target, each once, in order of first appearance. */
  function AddressesAt(records: seq<Record>, target: string, v6: bool): seq<nat> {
    if records == [] then []
    else
      var front, last := AddressesAt(records[..|records| - 1], target, v6), records[|records| - 1];
      if AtTarget(last, target, v6) && last.address !in front then front + [last.address] else front
  }

  lemma {:induction false} AddressesAreExact(records: seq<Record>, target: string, v6: bool)
    ensures forall a :: a in AddressesAt(records, target, v6) <==>
                          exists r :: r in records && AtTarget(r, target, v6) && r.address == a
    ensures forall i, j :: 0 <= i < j < |AddressesAt(records, target, v6)| ==>
                             AddressesAt(records, target, v6)[i] != AddressesAt(records, target, v6)[j]
  {
    if records != [] {
      var front, last := records[..|records| - 1], records[|records| - 1];
      AddressesAreExact(front, target, v6);
      assert records == front + [last];
    }
  }

  lemma OneMoreTTL(records: seq<Record>, i: nat, target: string, v6: bool)
    requires i < |records|
    ensures TargetTTLs(records[..i + 1], target, v6) ==
            TargetTTLs(records[..i], target, v6) + if AtTarget(records[i], target, v6) then {records[i].ttl} else {}
  {
    assert records[..i + 1] == records[..i] + [records[i]];
  }

  method CollectAddresses(records: seq<Record>, target: string, v6: bool, chain: Option<nat>, ghost chainTTLs: set<nat>)
    returns (addresses: seq<nat>, ttl: Option<nat>)
    requires Least(chain, chainTTLs)
    ensures addresses == AddressesAt(records, target, v6)
    ensures Least(ttl, chainTTLs + TargetTTLs(records, target, v6))
    ensures addresses != [] ==> ttl.Some?
  {
    hide Least, TargetTTLs, MinimumTTL;
    addresses, ttl := [], chain;
    assert chainTTLs + TargetTTLs(records[..0], target, v6) == chainTTLs by { NoneAtTarget(target, v6); }
    for i := 0 to |records|
      invariant addresses == AddressesAt(records[..i], target, v6)
      invariant Least(ttl, chainTTLs + TargetTTLs(records[..i], target, v6))
      invariant addresses != [] ==> ttl.Some?
    {
      assert records[..i + 1][..i] == records[..i];
      OneMoreTTL(records, i, target, v6);
      if AtTarget(records[i], target, v6) {
        LeastWith(ttl, chainTTLs + TargetTTLs(records[..i], target, v6), records[i].ttl);
        assert chainTTLs + TargetTTLs(records[..i], target, v6) + {records[i].ttl}
            == chainTTLs + TargetTTLs(records[..i + 1], target, v6);
        ttl := Some(MinimumTTL(ttl, records[i].ttl));
        if records[i].address !in addresses {
          addresses := addresses + [records[i].address];
        }
      } else {
        assert TargetTTLs(records[..i + 1], target, v6) == TargetTTLs(records[..i], target, v6);
      }
    }
    assert records[..|records|] == records;
  }

  lemma NoneAtTarget(target: string, v6: bool)
    ensures TargetTTLs([], target, v6) == {}
  {
  }

  // ---------------------------------------------------------------------
  // The cache

  datatype Key = Key(domain: string, v6: bool)

  datatype Entry = Entry(addresses: seq<nat>, expiresAt: nat)

  /** Where a cached answer came from. */
  datatype Source = Source(records: seq<Record>, owners: set<string>, target: string, at: nat)

  ghost function TTLsOf(s: Source, v6: bool): set<nat> {
    ChainTTLs(s.records, s.owners) + TargetTTLs(s.records, s.target, v6)
  }

  /** The entry is what its records said, and it expires with the first of them. */
  ghost predicate Backed(e: Entry, s: Source, v6: bool) {
    && e.addresses == AddressesAt(s.records, s.target, v6)
    && forall t :: t in TTLsOf(s, v6) ==> e.expiresAt <= s.at + t
  }

  class Client {
    var cache: map<Key, Entry>
    ghost var sources: map<Key, Source>

    ghost predicate Valid()
      reads this
    {
      && |cache| <= MAX_ENTRIES
      && forall k :: k in cache ==> k in sources && Backed(cache[k], sources[k], k.v6)
    }

    constructor ()
      ensures Valid() && cache == map[]
    {
      cache, sources := map[], map[];
    }

    /** A cached answer is returned only while every record behind it lives. */
    method Cached(key: Key, now: nat) returns (addresses: seq<nat>)
      requires Valid()
      modifies this`cache
      ensures Valid()
      ensures cache == if key in old(cache) && old(cache)[key].expiresAt <= now then old(cache) - {key} else old(cache)
      ensures key in cache ==> addresses == cache[key].addresses && now < cache[key].expiresAt
      ensures key !in cache ==> addresses == []
      ensures addresses != [] ==>
                && key in sources && addresses == AddressesAt(sources[key].records, sources[key].target, key.v6)
                && forall t :: t in TTLsOf(sources[key], key.v6) ==> now < sources[key].at + t
    {
      addresses := [];
      if key in cache {
        if cache[key].expiresAt <= now {
          RemovalOfOne(cache, key);
          cache := cache - {key};
        } else {
          addresses := cache[key].addresses;
        }
      }
    }

    /** The entry that expires first. */
    method Oldest() returns (oldest: Key)
      requires cache != map[]
      ensures oldest in cache && forall k :: k in cache ==> cache[oldest].expiresAt <= cache[k].expiresAt
    {
      var todo := cache.Keys;
      oldest :| oldest in todo;
      todo := todo - {oldest};
      while todo != {}
        invariant todo <= cache.Keys && oldest in cache
        invariant forall k :: k in cache && k !in todo ==> cache[oldest].expiresAt <= cache[k].expiresAt
        decreases todo
      {
        var candidate :| candidate in todo;
        if cache[candidate].expiresAt < cache[oldest].expiresAt {
          oldest := candidate;
        }
        todo := todo - {candidate};
      }
    }

    /** store: a full cache first drops the entry that expires first. */
    method Store(key: Key, entry: Entry, ghost source: Source)
      requires Valid() && Backed(entry, source, key.v6)
      modifies this
      ensures Valid() && key in cache && cache[key] == entry && sources == old(sources)[key := source]
      ensures |old(cache)| < MAX_ENTRIES ==> cache == old(cache)[key := entry]
      ensures |old(cache)| >= MAX_ENTRIES ==>
                exists oldest :: oldest in old(cache) && cache == (old(cache) - {oldest})[key := entry]
                                 && forall k :: k in old(cache) ==> old(cache)[oldest].expiresAt <= old(cache)[k].expiresAt
    {
      hide Backed;
      ghost var before := cache;
      if |cache| >= MAX_ENTRIES {
        assert cache != map[];
        var oldest := Oldest();
        RemovalOfOne(cache, oldest);
        cache := cache - {oldest};
      }
      UpdateKeepsSize(cache, key, entry);
      cache := cache[key := entry];
      sources := sources[key := source];
    }

    /** LookupIPv4 and LookupIPv6. reply is what the upstream sent, if the cache
        does not answer; at is the time when it has been read. */
    method Lookup(key: Key, now: nat, reply: Option<seq<Record>>, at: nat) returns (addresses: Option<seq<nat>>)
      requires Valid()
      modifies this
      ensures Valid()
      ensures if key in old(cache) && now < old(cache)[key].expiresAt && old(cache)[key].addresses != [] then
                addresses == Some(old(cache)[key].addresses)
              else
                match reply
                case None => addresses.None?
                case Some(records) =>
                  if LoopFree(Collect(records), key.domain) && ConflictFree(Collect(records), key.domain) then
                    exists k: nat ::
                      && Walk(Collect(records), key.domain, k) !in Collect(records)
                      && var found := AddressesAt(records, Walk(Collect(records), key.domain, k), key.v6);
                         addresses == if found == [] then None else Some(found)
                  else addresses.None?
    {
      hide Collect, AddressesAt, LoopFree, ConflictFree, Clean, Owners, Backed;
      var known := Cached(key, now);
      if known != [] {
        return Some(known);
      }
      if reply.None? {
        return None;
      }
      addresses := Resolve(key, reply.value, at);
    }

    /** The part of a lookup that reads a reply. */
    method Resolve(key: Key, records: seq<Record>, at: nat) returns (addresses: Option<seq<nat>>)
      requires Valid()
      modifies this
      ensures Valid()
      ensures if LoopFree(Collect(records), key.domain) && ConflictFree(Collect(records), key.domain) then
                exists k: nat ::
                  && Walk(Collect(records), key.domain, k) !in Collect(records)
                  && var found := AddressesAt(records, Walk(Collect(records), key.domain, k), key.v6);
                     addresses == if found == [] then None else Some(found)
              else addresses.None?
      ensures addresses.None? ==> cache == old(cache)
      ensures addresses.Some? && cache != old(cache) ==>
                && key in cache && cache[key].addresses == addresses.value
                && sources[key].records == records && sources[key].at == at
                && exists t :: t in TTLsOf(sources[key], key.v6) && cache[key].expiresAt == at + t
    {
      hide Collect, AddressesAt, LoopFree, ConflictFree, Clean, Owners, Least, ChainTTLs, TargetTTLs, Walk;
      var target, owners := AnswerTarget(records, key.domain);
      if target.None? {
        return None;
      }
      var found, ttl := CollectAddresses(records, target.value.0, key.v6, target.value.1, ChainTTLs(records, owners));
      if found == [] {
        return None;
      }
      if ttl.value > 0 {
        ghost var source := Source(records, owners, target.value.0, at);
        LeastIsBound(ttl.value, TTLsOf(source, key.v6), at);
        assert ttl.value in TTLsOf(source, key.v6);
        Store(key, Entry(found, at + ttl.value), source);
      }
      addresses := Some(found);
    }
  }

  lemma LeastIsBound(ttl: nat, ttls: set<nat>, at: nat)
    requires Least(Some(ttl), ttls)
    ensures ttl in ttls && forall t :: t in ttls ==> at + ttl <= at + t
  {
  }

}
