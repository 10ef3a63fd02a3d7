/** Pool arithmetic: the synthetic-block allocator, the client address range, the private-range
    test and the start-up check that keeps the synthetic pool out of the VPN network
    (internal/server/ipam, internal/server/wg/addr.go, internal/server/config/config.go). */
module Ipam {
  import opened Cidr
  import opened Common

  // ---------------------------------------------------------------- synthetic blocks

  datatype AllocResult = Allocated(block: Block) | NoSpace | BadLength

  /** b could be handed out: a CIDR block of the wanted length, inside the pool, clear of every
      block in use. */
  ghost predicate Fits(pool: Prefix, prefixLen: int, used: set<Block>, b: Block) {
    && b.prefixLen == prefixLen
    && b.Aligned()
    && b.Within(BlockFromPrefix(pool))
    && forall u :: u in used ==> !Overlaps(b, u)
  }

  ghost predicate LowestFit(pool: Prefix, prefixLen: int, used: set<Block>, b: Block) {
    && Fits(pool, prefixLen, used, b)
    && forall c: Block :: Fits(pool, prefixLen, used, c) ==> b.base <= c.base
  }

  /** What the allocator promises, as a value: the lowest block that fits, or none. */
  ghost function LowestFree(pool: Prefix, prefixLen: int, used: set<Block>): (r: AllocResult)
    ensures r.Allocated? ==> LowestFit(pool, prefixLen, used, r.block) && r.block.prefixLen == prefixLen
  {
    if prefixLen < pool.bits || prefixLen > 32 then BadLength
    else if exists b :: LowestFit(pool, prefixLen, used, b) then
      var b :| LowestFit(pool, prefixLen, used, b);
      Allocated(b)
    else NoSpace
  }

  lemma LowestFitUnique(pool: Prefix, prefixLen: int, used: set<Block>, b: Block, c: Block)
    requires LowestFit(pool, prefixLen, used, b) && LowestFit(pool, prefixLen, used, c)
    ensures b == c
  {}

  /** The aligned blocks of one length inside the pool sit at multiples of the step from the
      pool's base, so the block after `base + k*step` is a whole step further on. */
  lemma NextOnGrid(pool: Block, b: Block, k: nat)
    requires pool.Aligned() && b.Aligned() && b.Within(pool) && pool.prefixLen <= b.prefixLen
    requires pool.base + k * b.Size() < b.base
    ensures pool.base + (k + 1) * b.Size() <= b.base
  {
    var s := b.Size();
    AlignedDown(pool.base, b.prefixLen, pool.prefixLen);
    DivFacts(pool.base, s);
    DivFacts(b.base, s);
    NextMultiple(pool.base / s, b.base / s, k, s);
  }

  lemma NextMultiple(p: int, q: int, k: nat, s: int)
    requires s > 0 && p * s + k * s < q * s
    ensures p * s + (k + 1) * s <= q * s
  {
    assert p * s + k * s == (p + k) * s;
    MulCancelLess(p + k, q, s);
    MulMonotone(p + k + 1, q, s);
    assert (p + k + 1) * s == p * s + (k + 1) * s;
  }

  lemma GridAligned(pool: Block, prefixLen: PrefixLen, k: nat)
    requires pool.Aligned() && pool.prefixLen <= prefixLen
    ensures (pool.base + k * SizeOf(prefixLen)) % SizeOf(prefixLen) == 0
  {
    var s := SizeOf(prefixLen);
    AlignedDown(pool.base, prefixLen, pool.prefixLen);
    DivFacts(pool.base, s);
    var p := pool.base / s;
    Distribute(p, k, s);
    MultipleMod(p + k, s);
  }

  /** blocks.go `AllocateBlock`. All the arithmetic stays inside uint64, and the cast of `base`
      back to 32 bits loses nothing: both are checked by the types of the local variables. */
  method AllocateBlock(pool: Prefix, prefixLen: int, used: seq<Block>) returns (r: AllocResult)
    ensures r.BadLength? <==> prefixLen < pool.bits || prefixLen > 32
    ensures r.Allocated? ==> LowestFit(pool, prefixLen, Elems(used), r.block)
    ensures r.NoSpace? ==> forall b: Block :: !Fits(pool, prefixLen, Elems(used), b)
    ensures r == LowestFree(pool, prefixLen, Elems(used))
  {
    ghost var usedSet := Elems(used);
    if prefixLen < pool.bits || prefixLen > 32 {
      return BadLength;
    }
    var poolBlock := BlockFromPrefix(pool);
    AlignedFits(poolBlock);
    var step: uint64 := SizeOf(prefixLen);
    var poolEnd: uint64 := poolBlock.base + poolBlock.Size();
    var base: uint64 := poolBlock.base;
    ghost var k: nat := 0;
    while base + step <= poolEnd
      invariant base == poolBlock.base + k * step
      invariant forall b: Block :: Fits(pool, prefixLen, usedSet, b) ==> base <= b.base
      decreases poolEnd - base
    {
      var candidate := Block(base, prefixLen);
      var free := true;
      var i := 0;
      while i < |used|
        invariant 0 <= i <= |used|
        invariant free ==> forall m :: 0 <= m < i ==> !Overlaps(candidate, used[m])
        invariant !free ==> exists u :: u in usedSet && Overlaps(candidate, u)
      {
        if Overlaps(candidate, used[i]) {
          free := false;
          break;
        }
        i := i + 1;
      }
      GridAligned(poolBlock, prefixLen, k);
      if free {
        assert Fits(pool, prefixLen, usedSet, candidate);
        assert LowestFit(pool, prefixLen, usedSet, candidate);
        var spec := LowestFree(pool, prefixLen, usedSet);
        LowestFitUnique(pool, prefixLen, usedSet, candidate, spec.block);
        return Allocated(candidate);
      }
      forall b: Block | Fits(pool, prefixLen, usedSet, b) ensures base + step <= b.base {
        assert b != candidate;
        NextOnGrid(poolBlock, b, k);
      }
      base := base + step;
      k := k + 1;
      assert base == poolBlock.base + k * step by { assert k * step == (k - 1) * step + step; }
    }
    assert forall b: Block :: !Fits(pool, prefixLen, usedSet, b);
    return NoSpace;
  }

  // ---------------------------------------------------------------- client addresses

  datatype Range = Range(first: uint32, last: uint32)

  /** ipam.go `PoolRange`, in 32-bit arithmetic that wraps as the Go code's does. (The masked
      base has its host bits clear, so or-ing in the all-ones host part is adding it.) */
  function PoolRange(network: Prefix): Option<Range> {
    var b := BlockFromPrefix(network);
    AlignedFits(b);
    ClientRange(b.base, b.Size())
  }

  function ClientRange(base: uint32, size: uint64): Option<Range> {
    var broadcast := base + size - 1;
    var first: uint32 := Wrap(base + 2);
    var last: uint32 := Wrap(broadcast - 1);
    if last < first then None else Some(Range(first, last))
  }

  function Wrap(x: int): (r: uint32)
    ensures 0 <= x < SPACE ==> r == x
    ensures x == -1 ==> r == SPACE - 1
    ensures SPACE <= x < 2 * SPACE ==> r == x - SPACE
  {
    x % SPACE
  }

  /** The networks too small for a client that `PoolRange` nevertheless accepts, because its
      additions wrapped: they sit at the two ends of the address space. */
  predicate WrapsAround(network: Prefix) {
    || (network.bits == 31 && BlockFromPrefix(network).base == SPACE - 2)
    || (network.bits == 32 && network.addr in {0, SPACE - 2, SPACE - 1})
  }

  lemma SmallSizes()
    ensures SizeOf(32) == 1 && SizeOf(31) == 2 && SizeOf(30) == 4
  {}

  lemma SizeAtLeastFour(n: PrefixLen)
    requires n <= 30
    ensures SizeOf(n) >= 4
  {
    SmallSizes();
    Pow2Monotone(2, 32 - n);
  }

  /** For /30 or larger the range is everything but the network, server and broadcast
      addresses. Networks smaller than /30 are rejected, as the function's comment promises,
      exactly when they do not sit where the arithmetic wraps. */
  lemma PoolRangeExact(network: Prefix)
    ensures network.bits <= 30 ==>
              var b, r := BlockFromPrefix(network), PoolRange(network);
              r.Some? && r.value.first == b.base + 2 <= r.value.last == b.End() - 2
    ensures network.bits > 30 ==> (PoolRange(network) == None <==> !WrapsAround(network))
  {
    var b := BlockFromPrefix(network);
    AlignedFits(b);
    SmallSizes();
    if network.bits <= 30 {
      SizeAtLeastFour(network.bits);
      ClientRangeExact(b.base, b.Size());
    } else if network.bits == 31 {
      EvenBase(network);
      ClientRangeExact(b.base, 2);
    } else {
      assert b.Has(network.addr);
      ClientRangeExact(b.base, 1);
    }
  }

  lemma ClientRangeExact(base: uint32, size: uint64)
    requires size >= 1 && base + size <= SPACE
    requires size == 2 ==> base % 2 == 0
    ensures size >= 4 ==> ClientRange(base, size) == Some(Range(base + 2, base + size - 2))
    ensures size == 2 ==> (ClientRange(base, size) == None <==> base != SPACE - 2)
    ensures size == 1 ==> (ClientRange(base, size) == None <==> base !in {0, SPACE - 2, SPACE - 1})
  {}

  lemma EvenBase(network: Prefix)
    requires network.bits == 31
    ensures SizeOf(31) == 2 && BlockFromPrefix(network).base % 2 == 0
  {}

  /** wg/addr.go `FirstUsableAddress`. */
  function FirstUsableAddress(network: Prefix): Option<uint32> {
    var b := BlockFromPrefix(network);
    AlignedFits(b);
    if network.bits > 30 then None
    else
      SizeAtLeastFour(network.bits);
      Some(b.base + 1)
  }

  /** Start-up takes the server's own address first, and that rejects every network on which
      `PoolRange` would wrap; on the networks it accepts, no client is ever given the network,
      the server's or the broadcast address. */
  lemma ServerAddressGuardsTheRange(network: Prefix)
    requires FirstUsableAddress(network).Some?
    ensures PoolRange(network).Some? && !WrapsAround(network)
    ensures FirstUsableAddress(network).value == BlockFromPrefix(network).base + 1
    ensures forall a: int :: PoolRange(network).value.first <= a <= PoolRange(network).value.last ==>
              var b := BlockFromPrefix(network);
              b.Has(a) && a != b.base && a != FirstUsableAddress(network).value && a != b.End() - 1
  {
    PoolRangeExact(network);
  }

  /** The server finds an address of its own exactly on the networks that have client addresses
      without wrapping. */
  lemma ServerAddressIffRange(network: Prefix)
    ensures FirstUsableAddress(network).Some? <==> PoolRange(network).Some? && !WrapsAround(network)
  {
    PoolRangeExact(network);
    if network.bits == 31 {
      EvenBase(network);
    } else if network.bits == 32 {
      SmallSizes();
      assert BlockFromPrefix(network).Has(network.addr);
    }
  }

  // ---------------------------------------------------------------- private ranges

  /** Section 3 of RFC 1918: 10/8, 172.16/12 and 192.168/16. */
  const RFC1918: seq<Prefix> :=
    [Prefix(0x0A00_0000, 8), Prefix(0xAC10_0000, 12), Prefix(0xC0A8_0000, 16)]

  ghost predicate IsPrivate(b: Block) {
    exists i :: 0 <= i < |RFC1918| && b.Within(BlockFromPrefix(RFC1918[i]))
  }

  /** The same in numbers: from 10.0.0.0 to 10.255.255.255, 172.16.0.0 to 172.31.255.255 or
      192.168.0.0 to 192.168.255.255. */
  predicate InPrivateRange(base: int, end: int) {
    || (0x0A00_0000 <= base && end <= 0x0B00_0000)
    || (0xAC10_0000 <= base && end <= 0xAC20_0000)
    || (0xC0A8_0000 <= base && end <= 0xC0A9_0000)
  }

  lemma LargeSizes()
    ensures SizeOf(8) == 0x100_0000 && SizeOf(12) == 0x10_0000 && SizeOf(16) == 0x1_0000
  {
    assert Pow2(4) == 16 && Pow2(8) == 256;
    Pow2Add(8, 8);
    Pow2Add(16, 4);
    Pow2Add(16, 8);
  }

  lemma PrivateRange(base: uint32, bits: PrefixLen)
    requires base % SizeOf(bits) == 0
    ensures BlockFromPrefix(Prefix(base, bits)) == Block(base, bits)
  {
    assert Block(base, bits).Aligned() && Block(base, bits).Has(base);
  }

  lemma PrivateIsInRange(b: Block)
    ensures IsPrivate(b) <==> InPrivateRange(b.base, b.End())
  {
    hide SizeOf, BlockFromPrefix;
    LargeSizes();
    PrivateRange(0x0A00_0000, 8);
    PrivateRange(0xAC10_0000, 12);
    PrivateRange(0xC0A8_0000, 16);
    var ten, twelve, sixteen := RFC1918[0], RFC1918[1], RFC1918[2];
    assert BlockFromPrefix(ten) == Block(0x0A00_0000, 8);
    assert BlockFromPrefix(twelve) == Block(0xAC10_0000, 12);
    assert BlockFromPrefix(sixteen) == Block(0xC0A8_0000, 16);
    assert InPrivateRange(b.base, b.End()) <==>
             b.Within(Block(0x0A00_0000, 8)) || b.Within(Block(0xAC10_0000, 12)) || b.Within(Block(0xC0A8_0000, 16));
  }

  /** Testing one address and the two lengths decides whether a whole block lies in a range. */
  lemma ContainedByOneAddress(p: Prefix, r: Prefix)
    ensures (BlockFromPrefix(r).Has(p.addr) && p.bits >= r.bits)
       <==> BlockFromPrefix(p).Within(BlockFromPrefix(r))
  {
    var b, c := BlockFromPrefix(p), BlockFromPrefix(r);
    if c.Has(p.addr) && p.bits >= r.bits {
      Nested(b, c);
    }
    if b.Within(c) && p.bits < r.bits {
      Pow2Monotone(32 - r.bits, 32 - p.bits);
      SizeStrict(p.bits, r.bits);
    }
  }

  lemma SizeStrict(large: PrefixLen, small: PrefixLen)
    requires large < small
    ensures SizeOf(small) < SizeOf(large)
  {
    Pow2Monotone(32 - small, 32 - large - 1);
  }

  /** blocks.go `IsRFC1918`: true exactly when every address of the masked prefix is in one
      private range. */
  method IsRFC1918(p: Prefix) returns (private: bool)
    ensures private <==> IsPrivate(BlockFromPrefix(p))
    ensures private <==> InPrivateRange(BlockFromPrefix(p).base, BlockFromPrefix(p).End())
  {
    PrivateIsInRange(BlockFromPrefix(p));
    var i := 0;
    while i < |RFC1918|
      invariant 0 <= i <= |RFC1918|
      invariant forall j :: 0 <= j < i ==> !BlockFromPrefix(p).Within(BlockFromPrefix(RFC1918[j]))
    {
      var r := RFC1918[i];
      ContainedByOneAddress(p, r);
      var range := BlockFromPrefix(r);
      if range.base <= p.addr < range.End() && p.bits >= r.bits {
        return true;
      }
      i := i + 1;
    }
    return false;
  }

  // ---------------------------------------------------------------- configuration

  /** The part of the server's configuration the control plane depends on; no pool means the
      announcement feature is off, and a cap of 0 means unlimited. */
  datatype Config = Config(network: Prefix, pool: Option<Prefix>,
                           maxDevices: nat, maxZones: nat, maxSubnets: nat)

  /** config.go `Validate`: two one-address tests reject an overlapping pool. */
  predicate PoolRejected(pool: Prefix, network: Prefix) {
    var p, n := BlockFromPrefix(pool), BlockFromPrefix(network);
    (p.base <= n.base < p.End()) || (n.base <= p.base < n.End())
  }

  /** Start-up succeeds: the interface got an address and the configuration validated. */
  predicate ConfigOk(cfg: Config) {
    && FirstUsableAddress(cfg.network).Some?
    && (cfg.pool.Some? ==> !PoolRejected(cfg.pool.value, cfg.network))
  }

  /** The two tests decide overlap, for any two CIDR blocks: a synthetic block can never cover a
      VPN address, nor a VPN address fall in the pool. */
  lemma PoolRejectedIsOverlap(pool: Prefix, network: Prefix)
    ensures PoolRejected(pool, network)
       <==> exists a: int :: BlockFromPrefix(pool).Has(a) && BlockFromPrefix(network).Has(a)
  {
    var p, n := BlockFromPrefix(pool), BlockFromPrefix(network);
    if a: int :| p.Has(a) && n.Has(a) {
      if n.prefixLen <= p.prefixLen { Nested(p, n); } else { Nested(n, p); }
      assert PoolRejected(pool, network);
    }
    if PoolRejected(pool, network) {
      assert (p.Has(n.base) && n.Has(n.base)) || (p.Has(p.base) && n.Has(p.base));
    }
  }

  /** What a real subnet must be to be announced. */
  ghost predicate Announceable(cfg: Config, b: Block) {
    && b.Aligned()
    && 16 <= b.prefixLen <= 30
    && IsPrivate(b)
    && !Overlaps(b, BlockFromPrefix(cfg.network))
    && (cfg.pool.Some? ==> !Overlaps(b, BlockFromPrefix(cfg.pool.value)))
  }

  /** The same in addresses: a private block of 4 to 65536 addresses, none of them the VPN's or the
      synthetic pool's. */
  ghost predicate MayBeAnnounced(cfg: Config, b: Block) {
    && 4 <= b.Size() <= 0x1_0000
    && InPrivateRange(b.base, b.End())
    && (forall a: int :: b.Has(a) ==> !BlockFromPrefix(cfg.network).Has(a))
    && (cfg.pool.Some? ==> forall a: int :: b.Has(a) ==> !BlockFromPrefix(cfg.pool.value).Has(a))
  }

  lemma SizeTellsLength(n: PrefixLen)
    ensures 16 <= n <= 30 <==> 4 <= SizeOf(n) <= 0x1_0000
  {
    SmallSizes();
    LargeSizes();
    if n <= 30 { SizeAtLeastFour(n); }
    if n < 16 { SizeStrict(n, 16); }
    if n >= 16 { Pow2Monotone(32 - n, 16); }
  }

  lemma AnnounceableMeans(cfg: Config, b: Block)
    requires b.Aligned()
    ensures Announceable(cfg, b) <==> MayBeAnnounced(cfg, b)
  {
    hide SizeOf, IsPrivate, InPrivateRange;
    SizeTellsLength(b.prefixLen);
    PrivateIsInRange(b);
    OverlapsIffShared(b, BlockFromPrefix(cfg.network));
    if cfg.pool.Some? { OverlapsIffShared(b, BlockFromPrefix(cfg.pool.value)); }
  }

  /** announce_handlers.go `validAnnouncedSubnet`. */
  method ValidAnnouncedSubnet(cfg: Config, p: Prefix) returns (ok: bool)
    ensures ok <==> Announceable(cfg, BlockFromPrefix(p))
    ensures ok <==> MayBeAnnounced(cfg, BlockFromPrefix(p))
  {
    AnnounceableMeans(cfg, BlockFromPrefix(p));
    if p.bits < 16 || p.bits > 30 {
      return false;
    }
    var private := IsRFC1918(p);
    if !private {
      return false;
    }
    var block := BlockFromPrefix(p);
    if Overlaps(block, BlockFromPrefix(cfg.network)) {
      return false;
    }
    if cfg.pool.Some? && Overlaps(block, BlockFromPrefix(cfg.pool.value)) {
      return false;
    }
    return true;
  }
}
