/** Arithmetic of the address range a Fake IP pool hands out: the bit-setting
    computation of the last address, the 64-bit capacity of a prefix, and the
    limits that the configuration compiler lets through. */
module AddressSpace {
  import opened Wrappers

  const MAX_UINT64: nat := 0xFFFF_FFFF_FFFF_FFFF

  function Pow2(n: nat): (p: nat)
    ensures p >= 1
  {
    if n == 0 then 1 else 2 * Pow2(n - 1)
  }

  lemma {:induction false} Pow2Monotone(m: nat, n: nat)
    requires m <= n
    ensures Pow2(m) <= Pow2(n)
    decreases n
  {
    if m < n {
      Pow2Monotone(m, n - 1);
    }
  }

  lemma {:induction false} Pow2At64()
    ensures Pow2(64) == MAX_UINT64 + 1
  {
    assert Pow2(8) == 0x100;
    assert Pow2(16) == 0x1_0000;
    assert Pow2(24) == 0x100_0000;
    assert Pow2(32) == 0x1_0000_0000;
    assert Pow2(40) == 0x100_0000_0000;
    assert Pow2(48) == 0x1_0000_0000_0000;
    assert Pow2(56) == 0x100_0000_0000_0000;
  }

  // ---------------------------------------------------------------------
  // Bytes as bits, bits as numbers

  /** 1 << k in one byte. */
  function Mask(k: nat): bv8
    requires k < 8
  {
    match k
    case 0 => 1 case 1 => 2 case 2 => 4 case 3 => 8
    case 4 => 16 case 5 => 32 case 6 => 64 case _ => 128
  }

  predicate Bit(octet: bv8, k: nat)
    requires k < 8
  {
    octet & Mask(k) != 0
  }

  lemma OrSetsBitPair(octet: bv8, k: nat, j: nat)
    requires k < 8 && j < 8
    ensures Bit(octet | Mask(k), j) <==> j == k || Bit(octet, j)
  {
    assert Mask(k) & Mask(j) == if j == k then Mask(k) else 0;
    assert (octet | Mask(k)) & Mask(j) == (octet & Mask(j)) | (Mask(k) & Mask(j));
    assert Mask(k) != 0;
  }

  /** Network bit order: bit 0 is the most significant bit of the first byte. */
  function Bits(bytes: seq<bv8>): (bits: seq<bool>)
    ensures |bits| == 8 * |bytes|
  {
    seq(8 * |bytes|, i requires 0 <= i < 8 * |bytes| => BitAt(bytes, i))
  }

  predicate BitAt(bytes: seq<bv8>, i: nat)
    requires i < 8 * |bytes|
  {
    Bit(bytes[i / 8], 7 - i % 8)
  }

  /** bytes with bit i set, as the loop below sets it. */
  function SetBit(bytes: seq<bv8>, i: nat): (r: seq<bv8>)
    requires i < 8 * |bytes|
    ensures |r| == |bytes|
  {
    bytes[i / 8 := bytes[i / 8] | Mask(7 - i % 8)]
  }

  /** The number written by a big-endian bit string. */
  function Number(bits: seq<bool>): nat {
    if bits == [] then 0
    else 2 * Number(bits[..|bits| - 1]) + (if bits[|bits| - 1] then 1 else 0)
  }

  function Ones(n: nat): (bits: seq<bool>)
    ensures |bits| == n
  {
    seq(n, _ => true)
  }

  lemma Regroup(q: nat, d: nat, r: nat, b: nat)
    ensures 2 * (q * d + r) + b == q * (2 * d) + (2 * r + b)
  {
  }

  lemma {:induction false} NumberAppend(front: seq<bool>, tail: seq<bool>)
    ensures Number(front + tail) == Number(front) * Pow2(|tail|) + Number(tail)
    decreases |tail|
  {
    if tail == [] {
      assert front + tail == front;
    } else {
      var shorter := tail[..|tail| - 1];
      assert (front + tail)[..|front + tail| - 1] == front + shorter;
      NumberAppend(front, shorter);
      Regroup(Number(front), Pow2(|shorter|), Number(shorter), if tail[|tail| - 1] then 1 else 0);
    }
  }

  lemma {:induction false} NumberOfOnes(n: nat)
    ensures Number(Ones(n)) == Pow2(n) - 1
  {
    if n > 0 {
      assert Ones(n)[..n - 1] == Ones(n - 1);
      NumberOfOnes(n - 1);
    }
  }

  // ---------------------------------------------------------------------
  // The last address of a prefix

  lemma SetBitAt(bytes: seq<bv8>, bit: nat, i: nat)
    requires bit < 8 * |bytes| && i < 8 * |bytes|
    ensures BitAt(SetBit(bytes, bit), i) == (i == bit || BitAt(bytes, i))
  {
    if i / 8 == bit / 8 {
      OrSetsBitPair(bytes[bit / 8], 7 - bit % 8, 7 - i % 8);
    }
  }

  lemma SetBitBits(bytes: seq<bv8>, bit: nat)
    requires bit < 8 * |bytes|
    ensures Bits(SetBit(bytes, bit)) == Bits(bytes)[bit := true]
  {
    var l, r := Bits(SetBit(bytes, bit)), Bits(bytes)[bit := true];
    forall i | 0 <= i < 8 * |bytes|
      ensures l[i] == r[i]
    {
      SetBitAt(bytes, bit, i);
    }
  }

  /** Sets every bit from prefixBits on, one bit at a time. */
  method SetHostBits(address: array<bv8>, prefixBits: nat)
    requires prefixBits <= 8 * address.Length
    modifies address
    ensures Bits(address[..]) == Bits(old(address[..]))[..prefixBits] + Ones(8 * address.Length - prefixBits)
  {
    ghost var before := Bits(address[..]);
    var bit := prefixBits;
    while bit < 8 * address.Length
      invariant prefixBits <= bit <= 8 * address.Length
      invariant Bits(address[..]) == before[..prefixBits] + Ones(bit - prefixBits) + before[bit..]
    {
      ghost var current := address[..];
      SetBitBits(current, bit);
      address[bit / 8] := address[bit / 8] | Mask(7 - bit % 8);
      assert address[..] == SetBit(current, bit);
      ShiftBoundary(before, prefixBits, bit);
      bit := bit + 1;
    }
  }

  lemma ShiftBoundary(before: seq<bool>, prefixBits: nat, bit: nat)
    requires prefixBits <= bit < |before|
    ensures (before[..prefixBits] + Ones(bit - prefixBits) + before[bit..])[bit := true]
         == before[..prefixBits] + Ones(bit + 1 - prefixBits) + before[bit + 1..]
  {
  }

  /** Setting the host bits is rounding down to the prefix and adding the
      whole host part, whatever the host bits were before. */
  lemma HostBitsNumber(bits: seq<bool>, prefixBits: nat)
    requires prefixBits <= |bits|
    ensures Number(bits[..prefixBits] + Ones(|bits| - prefixBits))
         == Number(bits) - Number(bits[prefixBits..]) + Pow2(|bits| - prefixBits) - 1
  {
    var front, rest := bits[..prefixBits], bits[prefixBits..];
    assert bits == front + rest;
    NumberAppend(front, rest);
    NumberAppend(front, Ones(|rest|));
    NumberOfOnes(|rest|);
  }

  predicate Masked(bits: seq<bool>, prefixBits: nat) {
    forall i :: prefixBits <= i < |bits| ==> !bits[i]
  }

  lemma {:induction false} NumberOfZeros(bits: seq<bool>)
    requires Masked(bits, 0)
    ensures Number(bits) == 0
  {
    if bits != [] {
      NumberOfZeros(bits[..|bits| - 1]);
    }
  }

  /** The reserved broadcast-like address at the top of a masked prefix. */
  method LastAddress(base: array<bv8>, prefixBits: nat) returns (last: array<bv8>)
    requires prefixBits <= 8 * base.Length
    requires Masked(Bits(base[..]), prefixBits)
    ensures fresh(last) && last.Length == base.Length
    ensures Number(Bits(last[..])) == Number(Bits(base[..])) + Pow2(8 * base.Length - prefixBits) - 1
  {
    last := new bv8[base.Length](i requires 0 <= i < base.Length reads base => base[i]);
    assert last[..] == base[..];
    SetHostBits(last, prefixBits);
    HostBitsNumber(Bits(base[..]), prefixBits);
    NumberOfZeros(Bits(base[..])[prefixBits..]);
  }

  // ---------------------------------------------------------------------
  // Capacity

  /** Addresses left after the first reserveFirst and the last one are set
      aside; saturates at the largest uint64. */
  function UsableCapacity(hostBits: nat, reserveFirst: nat): Option<nat> {
    var reserved := reserveFirst + 1;
    if hostBits > 64 then Some(MAX_UINT64)
    else if hostBits == 64 then (if reserveFirst <= MAX_UINT64 then Some(MAX_UINT64 - reserveFirst) else None)
    else if Pow2(hostBits) <= reserved then None
    else Some(Pow2(hostBits) - reserved)
  }

  /** The range of one pool: start is its first address, end the first address
      after it. Both are what the constructor computes from the prefix. */
  datatype Range = Range(start: nat, end: nat, capacity: nat, maxMappings: nat, mappingTTL: nat)

  ghost predicate ValidRange(range: Range) {
    && range.start < range.end
    && 0 < range.maxMappings <= range.capacity <= range.end - range.start
    && 0 < range.mappingTTL
  }

  function NewPool(base: nat, hostBits: nat, mappingTTL: int, maxMappings: int, reserveFirst: int): Option<Range> {
    if mappingTTL <= 0 || maxMappings <= 0 || reserveFirst < 1 then None
    else match UsableCapacity(hostBits, reserveFirst)
      case None => None
      case Some(capacity) =>
        if maxMappings > capacity then None
        else Some(Range(base + reserveFirst, base + Pow2(hostBits) - 1, capacity, maxMappings, mappingTTL))
  }

  /** Reservations are Go ints, below 2^63. For at most 64 host bits the
      capacity is exactly the length of the range; above, it is a lower bound.
      In no case does it leave the uint64 range. */
  lemma CapacityIsRangeLength(base: nat, hostBits: nat, reserveFirst: nat)
    requires 1 <= reserveFirst < 0x8000_0000_0000_0000
    requires UsableCapacity(hostBits, reserveFirst).Some?
    ensures var capacity := UsableCapacity(hostBits, reserveFirst).value;
            var length := (base + Pow2(hostBits) - 1) - (base + reserveFirst);
            && 0 < capacity <= MAX_UINT64
            && capacity <= length
            && (hostBits <= 64 ==> capacity == length)
  {
    Pow2At64();
    if hostBits > 64 {
      Pow2Monotone(65, hostBits);
    } else {
      Pow2Monotone(hostBits, 64);
    }
  }

  lemma NewPoolRange(base: nat, hostBits: nat, mappingTTL: int, maxMappings: int, reserveFirst: int)
    requires reserveFirst < 0x8000_0000_0000_0000
    requires NewPool(base, hostBits, mappingTTL, maxMappings, reserveFirst).Some?
    ensures ValidRange(NewPool(base, hostBits, mappingTTL, maxMappings, reserveFirst).value)
  {
    CapacityIsRangeLength(base, hostBits, reserveFirst);
  }

  // ---------------------------------------------------------------------
  // What the configuration compiler accepts

  const RESERVED_FIRST := 10
  const DEFAULT_MAX_MAPPINGS := 65536

  datatype FakeIP = FakeIP(hostBits: nat, dnsTTL: int, mappingTTL: int, maxMappings: int)

  function ChooseMaxMappings(requested: int, usable: nat): Option<int> {
    var chosen :=
      if requested != 0 then requested
      else if DEFAULT_MAX_MAPPINGS > usable then usable
      else DEFAULT_MAX_MAPPINGS;
    if chosen <= 0 || chosen > usable then None else Some(chosen)
  }

  /** Durations are in nanoseconds, as the source counts them. */
  function CompileFakeIP(prefixBits: nat, dnsTTL: int, mappingTTL: int, requested: int): Option<FakeIP>
    requires prefixBits <= 32
  {
    var total := Pow2(32 - prefixBits);
    if total <= 11 || dnsTTL <= 0 || dnsTTL < 1_000_000_000 || mappingTTL <= 0 || mappingTTL <= dnsTTL then None
    else match ChooseMaxMappings(requested, total - 11)
      case None => None
      case Some(maxMappings) => Some(FakeIP(32 - prefixBits, dnsTTL, mappingTTL, maxMappings))
  }

  function CompileFakeIPv6(prefixBits: nat, uniqueLocal: bool, requested: int): Option<int>
    requires prefixBits <= 128
  {
    var hostBits := 128 - prefixBits;
    if !uniqueLocal then None
    else if hostBits > 64 then ChooseMaxMappings(requested, MAX_UINT64)
    else if hostBits == 64 then ChooseMaxMappings(requested, MAX_UINT64 - 10)
    else if Pow2(hostBits) <= 11 then None
    else ChooseMaxMappings(requested, Pow2(hostBits) - 11)
  }

  /** A configuration that compiles never fails to build its pools, and a
      limit the IPv4 pool would take is one the compiler takes. */
  lemma CompiledPoolsExist(prefixBits: nat, dnsTTL: int, mappingTTL: int, requested: int, base: nat)
    requires prefixBits <= 32
    ensures match CompileFakeIP(prefixBits, dnsTTL, mappingTTL, requested)
            case Some(compiled) =>
              && compiled.dnsTTL < compiled.mappingTTL
              && NewPool(base, compiled.hostBits, compiled.mappingTTL, compiled.maxMappings, RESERVED_FIRST).Some?
            case None =>
              requested > 0 && 1_000_000_000 <= dnsTTL < mappingTTL ==>
                NewPool(base, 32 - prefixBits, mappingTTL, requested, RESERVED_FIRST).None?
  {
  }

  lemma CompiledIPv6PoolExists(prefixBits: nat, uniqueLocal: bool, requested: int, mappingTTL: int, base: nat)
    requires prefixBits <= 128 && mappingTTL > 0
    requires CompileFakeIPv6(prefixBits, uniqueLocal, requested).Some?
    ensures var limit := CompileFakeIPv6(prefixBits, uniqueLocal, requested).value;
            NewPool(base, 128 - prefixBits, mappingTTL, limit, RESERVED_FIRST).Some?
  {
  }
}
