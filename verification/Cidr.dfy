/** IPv4 blocks as the server's pool arithmetic sees them: a 32-bit base and a prefix length
    (internal/server/ipam/blocks.go), with the facts about CIDR blocks (section 3.1 of RFC 4632)
    that every other module rests on. Addresses are integers below 2^32, so an addition that
    would wrap in the Go code has to be shown not to. */
module Cidr {

  const SPACE: int := 0x1_0000_0000

  type uint32 = x: int | 0 <= x < 0x1_0000_0000
  type uint64 = x: int | 0 <= x < 0x1_0000_0000_0000_0000
  type PrefixLen = n: int | 0 <= n <= 32

  function Pow2(n: nat): (p: nat)
    ensures p >= 1
  {
    if n == 0 then 1 else 2 * Pow2(n - 1)
  }

  lemma {:induction false} Pow2Add(m: nat, n: nat)
    ensures Pow2(m + n) == Pow2(m) * Pow2(n)
  {
    if m == 0 {
    } else {
      Pow2Add(m - 1, n);
      assert Pow2(m + n) == 2 * Pow2(m - 1 + n);
      assert 2 * (Pow2(m - 1) * Pow2(n)) == (2 * Pow2(m - 1)) * Pow2(n);
    }
  }

  lemma {:induction false} Pow2Monotone(m: nat, n: nat)
    requires m <= n
    ensures Pow2(m) <= Pow2(n)
  {
    if m < n {
      Pow2Monotone(m, n - 1);
    }
  }

  lemma Pow2Of32()
    ensures Pow2(32) == SPACE
  {
    Pow2Add(16, 16);
    Pow2Add(8, 8);
    assert Pow2(8) == 256;
  }

  /** The size of a /n block: 2^(32-n), never more than the whole address space. */
  function SizeOf(n: PrefixLen): (s: uint64)
    ensures 1 <= s <= SPACE
  {
    Pow2Of32();
    Pow2Monotone(32 - n, 32);
    Pow2(32 - n)
  }

  datatype Block = Block(base: uint32, prefixLen: PrefixLen) {
    function Size(): uint64 {
      SizeOf(prefixLen)
    }

    function End(): uint64 {
      base + Size()
    }

    ghost predicate Has(a: int) {
      base <= a < End()
    }

    /** A CIDR block proper: its base is a multiple of its size. */
    predicate Aligned() {
      base % Size() == 0
    }

    ghost predicate Within(outer: Block) {
      outer.base <= base && End() <= outer.End()
    }
  }

  /** A parsed IPv4 prefix; the host bits of the address need not be zero. */
  datatype Prefix = Prefix(addr: uint32, bits: PrefixLen)

  function Host(a: uint32): Block {
    Block(a, 32)
  }

  // ---------------------------------------------------------------- arithmetic

  lemma MulCancelLess(i: int, j: int, s: int)
    requires s > 0 && i * s < j * s
    ensures i < j
  {}

  lemma MulMonotone(i: int, j: int, s: int)
    requires s >= 0 && i <= j
    ensures i * s <= j * s
  {}

  lemma Distribute(i: int, j: int, s: int)
    ensures (i + j) * s == i * s + j * s
  {}

  lemma DivFacts(x: int, s: int)
    requires s > 0
    ensures x == (x / s) * s + x % s && 0 <= x % s < s
  {}

  lemma MultipleMod(k: int, s: int)
    requires s > 0
    ensures (k * s) % s == 0
  {
    var r := (k * s) % s;
    DivFacts(k * s, s);
    var q := (k * s) / s;
    assert (k - q) * s == r;
    if k - q >= 1 {
      MulMonotone(1, k - q, s);
    } else if k - q <= -1 {
      MulMonotone(k - q, -1, s);
    }
  }

  /** Every block size divides every larger one. */
  lemma SizeDivides(small: PrefixLen, large: PrefixLen) returns (m: nat)
    requires large <= small
    ensures m >= 1 && SizeOf(large) == m * SizeOf(small)
  {
    m := Pow2(small - large);
    Pow2Add(small - large, 32 - small);
  }

  /** Alignment to a large block is alignment to every smaller size. */
  lemma AlignedDown(base: nat, small: PrefixLen, large: PrefixLen)
    requires large <= small && base % SizeOf(large) == 0
    ensures base % SizeOf(small) == 0
  {
    var m := SizeDivides(small, large);
    var s, l := SizeOf(small), SizeOf(large);
    DivFacts(base, l);
    var k := base / l;
    MulAssociates(k, m, s);
    MultipleMod(k * m, s);
  }

  lemma MulAssociates(k: int, m: int, s: int)
    ensures k * (m * s) == (k * m) * s
  {}

  /** A CIDR block never sticks out past the end of the address space. */
  lemma AlignedFits(b: Block)
    requires b.Aligned()
    ensures b.End() <= SPACE
  {
    Pow2Of32();
    assert SizeOf(0) == SPACE;
    var m := SizeDivides(b.prefixLen, 0);
    var s := b.Size();
    DivFacts(b.base, s);
    var k := b.base / s;
    assert b.base == k * s;
    MulCancelLess(k, m, s);
    MulMonotone(k + 1, m, s);
    Distribute(k, 1, s);
  }

  /** The heart of CIDR arithmetic: two aligned blocks that share an address are nested, and
      it is the longer prefix that lies inside the shorter one. */
  lemma Nested(a: Block, b: Block)
    requires a.Aligned() && b.Aligned() && b.prefixLen <= a.prefixLen
    requires a.base < b.End() && b.base < a.End()
    ensures a.Within(b)
  {
    var m := SizeDivides(a.prefixLen, b.prefixLen);
    DivFacts(a.base, a.Size());
    DivFacts(b.base, b.Size());
    NestedMultiples(a.base / a.Size(), b.base / b.Size(), m, a.Size());
  }

  lemma NestedMultiples(i: int, j: int, m: nat, s: int)
    requires s > 0
    requires i * s < j * (m * s) + m * s && j * (m * s) < i * s + s
    ensures j * (m * s) <= i * s && i * s + s <= j * (m * s) + m * s
  {
    assert j * (m * s) == (j * m) * s;
    assert (j * m) * s + m * s == (j * m + m) * s;
    assert i * s + s == (i + 1) * s;
    MulCancelLess(i, j * m + m, s);
    MulCancelLess(j * m, i + 1, s);
    MulMonotone(j * m, i, s);
    MulMonotone(i + 1, j * m + m, s);
  }

  /** blocks.go `Overlaps`. */
  predicate Overlaps(a: Block, b: Block) {
    a.base < b.End() && b.base < a.End()
  }

  /** Two blocks overlap exactly when they share an address. */
  lemma OverlapsIffShared(a: Block, b: Block)
    ensures Overlaps(a, b) <==> exists x: int :: a.Has(x) && b.Has(x)
  {
    if Overlaps(a, b) {
      var x := if a.base < b.base then b.base else a.base;
      assert a.Has(x) && b.Has(x);
    }
  }

  /** Clearing the host bits (netip `Masked`) yields the CIDR block around the address. */
  function BlockFromPrefix(p: Prefix): (b: Block)
    ensures b.prefixLen == p.bits && b.Aligned() && b.Has(p.addr)
    ensures forall c: Block :: c.prefixLen == p.bits && c.Aligned() && c.Has(p.addr) ==> c == b
  {
    var s := SizeOf(p.bits);
    DivFacts(p.addr, s);
    var k := p.addr / s;
    assert k >= 0 by { if k <= -1 { MulMonotone(k, -1, s); } }
    MulMonotone(0, k, s);
    MultipleMod(k, s);
    var b := Block(p.addr - p.addr % s, p.bits);
    assert forall c: Block :: c.prefixLen == p.bits && c.Aligned() && c.Has(p.addr) ==> c == b by {
      forall c: Block | c.prefixLen == p.bits && c.Aligned() && c.Has(p.addr) ensures c == b {
        Nested(b, c);
        Nested(c, b);
      }
    }
    b
  }

  function PrefixOf(b: Block): Prefix {
    Prefix(b.base, b.prefixLen)
  }

  /** A block written out as a prefix and parsed again is the block it was. */
  lemma PrefixRoundTrip(b: Block)
    requires b.Aligned()
    ensures BlockFromPrefix(PrefixOf(b)) == b
  {}
}
