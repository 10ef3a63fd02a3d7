/** The announcing router's translation table (internal/router/natctl/natctl.go): masked matches
    on 32-bit words, the kernel's prefix translation, and the table as one address mapping. The
    rules' four-byte big-endian operands are modelled as the words they spell. */
module Nat {
  import opened Cidr
  import opened Common
  import opened Netfw
  import opened RouteSync

  // ---------------------------------------------------------------- words

  function Bit(x: nat): nat {
    x % 2
  }

  function And(x: nat, y: nat): nat {
    if x == 0 || y == 0 then 0 else 2 * And(x / 2, y / 2) + if Bit(x) == 1 == Bit(y) then 1 else 0
  }

  function Or(x: nat, y: nat): nat
    decreases x + y
  {
    if x == 0 && y == 0 then 0 else 2 * Or(x / 2, y / 2) + if Bit(x) + Bit(y) > 0 then 1 else 0
  }

  function Xor(x: nat, y: nat): nat
    decreases x + y
  {
    if x == 0 && y == 0 then 0 else 2 * Xor(x / 2, y / 2) + if Bit(x) != Bit(y) then 1 else 0
  }

  /** `^x` on a 32-bit word. */
  function Not(x: uint32): uint32 {
    SPACE - 1 - x
  }

  /** `x << k` on a 32-bit word; a shift by 32 leaves nothing, as in Go. */
  function ShiftLeft(x: uint32, k: nat): uint32 {
    (x * Pow2(k)) % SPACE
  }

  /** natctl.go `prefixMask`. */
  function PrefixMask(bits: PrefixLen): uint32 {
    ShiftLeft(Not(0), 32 - bits)
  }

  lemma MaskValue(bits: PrefixLen)
    ensures PrefixMask(bits) == SPACE - SizeOf(bits)
  {
    var s := SizeOf(bits);
    assert (SPACE - 1) * s == (s - 1) * SPACE + (SPACE - s);
    ModUnique((SPACE - 1) * s, s - 1, SPACE - s, SPACE);
  }

  lemma ModUnique(x: int, q: int, r: int, m: int)
    requires m > 0 && x == q * m + r && 0 <= r < m
    ensures x % m == r
  {
    DivFacts(x, m);
    var d := x / m - q;
    assert d * m == r - x % m by { Distribute(x / m, -q, m); }
    if d >= 1 { MulMonotone(1, d, m); }
    if d <= -1 { MulMonotone(d, -1, m); }
  }

  /** Halving a multiple of a larger power of two. */
  lemma HalfMod(x: nat, k: nat)
    requires k > 0
    ensures x % Pow2(k) == 2 * ((x / 2) % Pow2(k - 1)) + Bit(x)
  {
    var s := Pow2(k - 1);
    DivFacts(x / 2, s);
    var q, r := (x / 2) / s, (x / 2) % s;
    assert x == 2 * (q * s + r) + Bit(x);
    assert q * (2 * s) == 2 * (q * s);
    ModUnique(x, q, 2 * r + Bit(x), 2 * s);
  }

  lemma Halves(y: nat)
    ensures (2 * y) / 2 == y && Bit(2 * y) == 0 && (2 * y + 1) / 2 == y && Bit(2 * y + 1) == 1
  {}

  lemma AndStep(x: nat, y: nat)
    ensures And(x, y) == 2 * And(x / 2, y / 2) + if Bit(x) == 1 == Bit(y) then 1 else 0
  {}

  /** The low k bits of a word. */
  function Low(x: nat, k: nat): nat {
    if k == 0 then 0 else 2 * Low(x / 2, k - 1) + Bit(x)
  }

  lemma {:induction false} LowIsMod(x: nat, k: nat)
    ensures Low(x, k) == x % Pow2(k)
  {
    if k == 0 {
      assert x % 1 == 0;
    } else {
      HalfMod(x, k);
      LowIsMod(x / 2, k - 1);
    }
  }

  lemma {:induction false} AndOnes(x: nat, w: nat)
    requires x < Pow2(w)
    ensures And(x, Pow2(w) - 1) == x
  {
    hide And;
    AndStep(x, Pow2(w) - 1);
    if w != 0 {
      assert Pow2(w) - 1 == 2 * (Pow2(w - 1) - 1) + 1;
      Halves(Pow2(w - 1) - 1);
      AndOnes(x / 2, w - 1);
    }
  }

  /** Masking a word clears its low bits. */
  lemma {:induction false} AndMask(x: nat, w: nat, k: nat)
    requires x < Pow2(w) && k <= w
    ensures Pow2(k) <= Pow2(w) && And(x, Pow2(w) - Pow2(k)) == x - Low(x, k)
  {
    hide And;
    Pow2Monotone(k, w);
    if k == 0 {
      AndOnes(x, w);
    } else {
      assert Pow2(w) - Pow2(k) == 2 * (Pow2(w - 1) - Pow2(k - 1));
      Halves(Pow2(w - 1) - Pow2(k - 1));
      AndStep(x, Pow2(w) - Pow2(k));
      AndMask(x / 2, w - 1, k - 1);
    }
  }

  lemma SmallMod(x: nat, m: nat)
    requires x < m
    ensures x % m == x
  {}

  /** The high part of one word and the low part of another do not meet. */
  lemma {:induction false} OrParts(base: nat, low: nat, k: nat)
    requires base % Pow2(k) == 0 && low < Pow2(k)
    ensures Or(base, low) == base + low
  {
    if k == 0 {
      OrZero(base);
    } else if base != 0 || low != 0 {
      HalfMod(base, k);
      OrParts(base / 2, low / 2, k - 1);
    }
  }

  lemma {:induction false} OrZero(x: nat)
    ensures Or(x, 0) == x
  {
    if x != 0 { OrZero(x / 2); }
  }

  /** The first and last address of a block differ in exactly the host bits. */
  lemma {:induction false} XorEnds(base: nat, k: nat)
    requires base % Pow2(k) == 0
    ensures Xor(base, base + Pow2(k) - 1) == Pow2(k) - 1
  {
    if k == 0 {
      XorSelf(base);
    } else {
      HalfMod(base, k);
      var last := base + Pow2(k) - 1;
      assert last / 2 == base / 2 + Pow2(k - 1) - 1 && Bit(last) == 1;
      XorEnds(base / 2, k - 1);
    }
  }

  lemma {:induction false} XorSelf(x: nat)
    ensures Xor(x, x) == 0
  {
    if x != 0 { XorSelf(x / 2); }
  }

  // ---------------------------------------------------------------- rules

  /** `ip daddr & mask == base`. */
  predicate MaskMatch(a: uint32, b: Block) {
    And(a, PrefixMask(b.prefixLen)) == b.base
  }

  lemma MaskedAddress(a: uint32, bits: PrefixLen)
    ensures And(a, PrefixMask(bits)) == a - a % SizeOf(bits)
  {
    hide And, Pow2, PrefixMask, Low;
    Pow2Of32();
    MaskValue(bits);
    AndMask(a, 32, 32 - bits);
    LowIsMod(a, 32 - bits);
  }

  /** The masked comparison matches exactly the addresses of the block, at every length. */
  lemma MaskMatchIsInterval(a: uint32, b: Block)
    requires b.Aligned()
    ensures MaskMatch(a, b) <==> b.Has(a)
  {
    MaskedAddress(a, b.prefixLen);
    var c := BlockFromPrefix(Prefix(a, b.prefixLen));
    DivFacts(a, b.Size());
    if b.Has(a) {
      assert c == b;
    }
  }

  /** The translation rule's upper end, computed in 32 bits that wrap for a /0. */
  function LastOf(b: Block): uint32 {
    (b.base + ShiftLeft(1, 32 - b.prefixLen) + (SPACE - 1)) % SPACE
  }

  lemma LastIsEnd(b: Block)
    requires b.Aligned()
    ensures LastOf(b) == b.End() - 1
  {
    AlignedFits(b);
    LastWraps(b.base, b.Size());
  }

  lemma LastWraps(base: nat, size: nat)
    requires 1 <= size <= SPACE && base + size <= SPACE
    ensures (base + size % SPACE + (SPACE - 1)) % SPACE == base + size - 1
  {
    if size == SPACE {
      ModUnique(size, 1, 0, SPACE);
      ModUnique(SPACE - 1, 0, SPACE - 1, SPACE);
    } else {
      SmallMod(size, SPACE);
      ModUnique(base + size + (SPACE - 1), 1, base + size - 1, SPACE);
    }
  }

  /** The kernel's translation with the PREFIX flag: the bits in which the range's ends differ
      come from the packet, the others from the range. */
  function Netmap(a: uint32, first: uint32, last: uint32): nat {
    var hostBits := Xor(first, last);
    if hostBits >= SPACE then 0
    else Or(And(first, Not(hostBits)), And(a, hostBits))
  }

  /** One `dnat prefix` rule: the blocks of its two prefixes. */
  datatype Mapping = Mapping(synth: Block, lan: Block)

  function MappingOf(r: NatRule): Mapping {
    Mapping(BlockFromPrefix(r.synthetic), BlockFromPrefix(r.lan))
  }

  /** The kernel keeps the host bits and swaps the network bits. */
  lemma NetmapKeepsHostBits(m: Mapping, a: uint32)
    requires m.synth.Aligned() && m.lan.Aligned() && m.synth.prefixLen == m.lan.prefixLen && m.synth.Has(a)
    ensures Netmap(a, m.lan.base, LastOf(m.lan)) == m.lan.base + (a - m.synth.base)
    ensures m.lan.Has(m.lan.base + (a - m.synth.base))
  {
    hide And, Or, Xor, Pow2, PrefixMask, LastOf;
    var s := m.lan.Size();
    NetworkPart(m.lan);
    HostPart(a, m.lan);
    MaskMatchIsInterval(a, m.synth);
    MaskedAddress(a, m.synth.prefixLen);
    OrParts(m.lan.base, a % s, 32 - m.lan.prefixLen);
  }

  lemma NetworkPart(b: Block)
    requires b.Aligned()
    ensures Xor(b.base, LastOf(b)) == b.Size() - 1 && And(b.base, Not(b.Size() - 1)) == b.base
  {
    hide And, Xor, Pow2, PrefixMask, LastOf;
    LastIsEnd(b);
    XorEnds(b.base, 32 - b.prefixLen);
    MaskValue(b.prefixLen);
    assert Not(b.Size() - 1) == PrefixMask(b.prefixLen);
    MaskedAddress(b.base, b.prefixLen);
  }

  lemma HostPart(a: uint32, b: Block)
    ensures And(a, b.Size() - 1) == a % b.Size()
  {
    hide And, Pow2, Low;
    LowBits(a, 32 - b.prefixLen);
    LowIsMod(a, 32 - b.prefixLen);
  }

  /** And-ing with the host mask keeps the low bits. */
  lemma {:induction false} LowBits(x: nat, k: nat)
    ensures And(x, Pow2(k) - 1) == Low(x, k)
  {
    hide And;
    if k == 0 {
      AndZero(x);
    } else {
      assert Pow2(k) - 1 == 2 * (Pow2(k - 1) - 1) + 1;
      Halves(Pow2(k - 1) - 1);
      AndStep(x, 2 * (Pow2(k - 1) - 1) + 1);
      LowBits(x / 2, k - 1);
    }
  }

  lemma AndZero(x: nat)
    ensures And(x, 0) == 0
  {}

  // ---------------------------------------------------------------- the table

  /** The prerouting chain: the first rule that matches translates. */
  function Translate(table: seq<Mapping>, a: uint32): nat {
    if table == [] then a
    else if MaskMatch(a, table[0].synth) then Netmap(a, table[0].lan.base, LastOf(table[0].lan))
    else Translate(table[1..], a)
  }

  /** What a router's announcements give (EndToEnd.OwnRulesProper): equal lengths, aligned
      blocks, nothing overlapping on either side, no real block in a synthetic one. */
  ghost predicate ProperTable(table: seq<Mapping>) {
    && (forall m :: m in table ==> m.synth.Aligned() && m.lan.Aligned() && m.synth.prefixLen == m.lan.prefixLen)
    && (forall i, j :: 0 <= i < j < |table| ==>
          !Overlaps(table[i].synth, table[j].synth) && !Overlaps(table[i].lan, table[j].lan))
    && (forall m, n :: m in table && n in table ==> !Overlaps(m.lan, n.synth))
  }

  ghost predicate InSynthetic(table: seq<Mapping>, a: int) {
    exists m :: m in table && m.synth.Has(a)
  }

  ghost predicate InReal(table: seq<Mapping>, a: int) {
    exists m :: m in table && m.lan.Has(a)
  }

  /** Any rule whose block holds the address decides; there is at most one. */
  lemma {:induction false} TranslateBy(table: seq<Mapping>, m: Mapping, a: uint32)
    requires ProperTable(table) && m in table && m.synth.Has(a)
    ensures Translate(table, a) == m.lan.base + (a - m.synth.base)
  {
    MaskMatchIsInterval(a, table[0].synth);
    if table[0].synth.Has(a) {
      if m != table[0] {
        var i :| 0 <= i < |table| && table[i] == m;
        OverlapsIffShared(table[0].synth, table[i].synth);
      }
      NetmapKeepsHostBits(table[0], a);
    } else {
      TranslateBy(table[1..], m, a);
    }
  }

  lemma {:induction false} TranslateElse(table: seq<Mapping>, a: uint32)
    requires ProperTable(table) && !InSynthetic(table, a)
    ensures Translate(table, a) == a
  {
    if table != [] {
      MaskMatchIsInterval(a, table[0].synth);
      assert table[0] in table;
      TranslateElse(table[1..], a);
    }
  }

  /** The table is a bijection from its synthetic addresses to its real ones that keeps host
      bits, and it never sends an address back into a synthetic block. */
  lemma TranslationIsBijective(table: seq<Mapping>, a: uint32, b: uint32)
    requires ProperTable(table) && InSynthetic(table, a) && InSynthetic(table, b)
    ensures InReal(table, Translate(table, a)) && !InSynthetic(table, Translate(table, a))
    ensures Translate(table, a) == Translate(table, b) ==> a == b
  {
    var m :| m in table && m.synth.Has(a);
    var n :| n in table && n.synth.Has(b);
    TranslateBy(table, m, a);
    TranslateBy(table, n, b);
    NetmapKeepsHostBits(m, a);
    NetmapKeepsHostBits(n, b);
    var x := Translate(table, a);
    forall o | o in table ensures !o.synth.Has(x) {
      OverlapsIffShared(m.lan, o.synth);
    }
    if x == Translate(table, b) {
      OverlapsIffShared(m.lan, n.lan);
      SameMapping(table, m, n);
    }
  }

  lemma SameMapping(table: seq<Mapping>, m: Mapping, n: Mapping)
    requires ProperTable(table) && m in table && n in table && Overlaps(m.lan, n.lan)
    ensures m == n
  {}

  /** Every real address is the translation of some synthetic one. */
  lemma TranslationIsOnto(table: seq<Mapping>, x: uint32) returns (a: uint32)
    requires ProperTable(table) && InReal(table, x)
    ensures InSynthetic(table, a) && Translate(table, a) == x
  {
    var m :| m in table && m.lan.Has(x);
    AlignedFits(m.synth);
    a := m.synth.base + (x - m.lan.base);
    assert m.synth.Has(a);
    TranslateBy(table, m, a);
  }

  /** The order in which the rules were laid does not matter. */
  lemma TranslationIgnoresOrder(table: seq<Mapping>, other: seq<Mapping>, a: uint32)
    requires ProperTable(table) && ProperTable(other) && forall m :: m in table <==> m in other
    ensures Translate(table, a) == Translate(other, a)
  {
    if InSynthetic(table, a) {
      var m :| m in table && m.synth.Has(a);
      TranslateBy(table, m, a);
      TranslateBy(other, m, a);
    } else {
      assert !InSynthetic(other, a);
      TranslateElse(table, a);
      TranslateElse(other, a);
    }
  }

  /** `ip saddr pool ip daddr real masquerade`. */
  predicate Masquerades(pool: Block, lan: Block, src: uint32, dst: uint32) {
    MaskMatch(src, pool) && MaskMatch(dst, lan)
  }

  /** The rule disguises the flows from the pool to the real block, and no others. */
  lemma MasqueradesExactly(pool: Block, lan: Block, src: uint32, dst: uint32)
    requires pool.Aligned() && lan.Aligned()
    ensures Masquerades(pool, lan, src, dst) <==> pool.Has(src) && lan.Has(dst)
  {
    MaskMatchIsInterval(src, pool);
    MaskMatchIsInterval(dst, lan);
  }

  /** A flow from the VPN into a synthetic block is disguised after its translation, and no flow
      from elsewhere is: the two chains of the table act on the same flows. */
  lemma TranslatedIsMasqueraded(table: seq<Mapping>, pool: Block, src: uint32, a: uint32)
    requires ProperTable(table) && pool.Aligned() && InSynthetic(table, a)
    ensures 0 <= Translate(table, a) < SPACE
    ensures (exists m :: m in table && Masquerades(pool, m.lan, src, Translate(table, a))) <==> pool.Has(src)
  {
    var m :| m in table && m.synth.Has(a);
    TranslateBy(table, m, a);
    NetmapKeepsHostBits(m, a);
    AlignedFits(m.lan);
    MaskMatchIsInterval(src, pool);
    MaskMatchIsInterval(Translate(table, a), m.lan);
    assert pool.Has(src) ==> Masquerades(pool, m.lan, src, Translate(table, a));
  }

  // ---------------------------------------------------------------- the rules read back

  /** `a.b.c.d/n`, as netip writes an IPv4 prefix. */
  function Written(p: Prefix): string {
    Quad(p.addr) + ['/'] + Decimal(p.bits)
  }

  function Quad(a: uint32): string {
    Dotted(Octets(a))
  }

  function Octets(a: uint32): seq<nat> {
    [a / 256 / 256 / 256, a / 256 / 256 % 256, a / 256 % 256, a % 256]
  }

  function Dotted(parts: seq<nat>): string {
    if parts == [] then ""
    else if |parts| == 1 then Decimal(parts[0])
    else Decimal(parts[0]) + ['.'] + Dotted(parts[1..])
  }

  // netip's parser, on IPv4.

  predicate IsDigit(c: char) {
    '0' <= c <= '9'
  }

  predicate IsNumeral(s: string) {
    s != "" && (forall i :: 0 <= i < |s| ==> IsDigit(s[i])) && (|s| > 1 ==> s[0] != '0')
  }

  function DigitValue(c: char): nat
    requires IsDigit(c)
  {
    c as int - '0' as int
  }

  function Value(s: string): nat
    requires forall i :: 0 <= i < |s| ==> IsDigit(s[i])
  {
    if s == "" then 0 else 10 * Value(s[..|s| - 1]) + DigitValue(s[|s| - 1])
  }

  /** Digits without a leading zero, up to a limit. */
  function Number(s: string, limit: nat): Option<nat> {
    if IsNumeral(s) && Value(s) <= limit then Some(Value(s)) else None
  }

  function Numbers(s: string, count: nat): Option<seq<nat>>
    requires count >= 1
    decreases count
  {
    if count == 1 then
      match Number(s, 255)
      case None => None
      case Some(v) => Some([v])
    else
      match Cut(s, '.')
      case None => None
      case Some((before, after)) =>
        var first, rest := Number(before, 255), Numbers(after, count - 1);
        if first.Some? && rest.Some? then Some([first.value] + rest.value) else None
  }

  function Address(parts: seq<nat>): nat
    requires |parts| == 4
  {
    ((parts[0] * 256 + parts[1]) * 256 + parts[2]) * 256 + parts[3]
  }

  function Parsed(s: string): Option<Prefix> {
    match Cut(s, '/')
    case None => None
    case Some((before, after)) =>
      var parts, bits := Numbers(before, 4), Number(after, 32);
      if parts.Some? && bits.Some? && |parts.value| == 4 && Address(parts.value) < SPACE
      then Some(Prefix(Address(parts.value), bits.value))
      else None
  }

  function UserData(r: NatRule): string {
    "lw " + Written(r.synthetic) + ['>'] + Written(r.lan)
  }

  /** strings.Cut at the first separator. */
  function Cut(s: string, sep: char): Option<(string, string)> {
    if s == "" then None
    else if s[0] == sep then Some(("", s[1..]))
    else match Cut(s[1..], sep)
      case None => None
      case Some((before, after)) => Some(([s[0]] + before, after))
  }

  /** natctl.go `ruleFromUserData`. */
  function RuleFromUserData(s: string): Option<NatRule> {
    if !("lw " <= s) then None
    else match Cut(s[3..], '>')
      case None => None
      case Some((synth, lan)) =>
        if Parsed(synth).None? || Parsed(lan).None? then None
        else Some(NatRule(Parsed(synth).value, Parsed(lan).value))
  }

  lemma {:induction false} CutAt(before: string, sep: char, after: string)
    requires sep !in before
    ensures Cut(before + [sep] + after, sep) == Some((before, after))
  {
    var s := before + [sep] + after;
    if before == "" {
      assert s[1..] == after;
    } else {
      CutAt(before[1..], sep, after);
      assert s[1..] == before[1..] + [sep] + after;
      assert [before[0]] + before[1..] == before;
    }
  }

  lemma {:induction false} CutWhere(s: string, sep: char)
    requires Cut(s, sep).Some?
    ensures var (before, after) := Cut(s, sep).value; s == before + [sep] + after && sep !in before
  {
    if s[0] != sep {
      CutWhere(s[1..], sep);
      assert s == [s[0]] + s[1..];
    }
  }

  lemma {:induction false} ValueOfDecimal(n: nat)
    ensures IsNumeral(Decimal(n)) && Value(Decimal(n)) == n && (n > 0 ==> Decimal(n)[0] != '0')
  {
    var s := Decimal(n);
    if n >= 10 {
      ValueOfDecimal(n / 10);
      assert s[..|s| - 1] == Decimal(n / 10) && s[|s| - 1] == Digit(n % 10);
    }
  }

  lemma {:induction false} ValuePositive(s: string)
    requires (forall i :: 0 <= i < |s| ==> IsDigit(s[i])) && s != "" && s[0] != '0'
    ensures Value(s) >= 1
  {
    if |s| > 1 {
      ValuePositive(s[..|s| - 1]);
    }
  }

  lemma {:induction false} DecimalOfValue(s: string)
    requires IsNumeral(s)
    ensures Decimal(Value(s)) == s
  {
    var d := DigitValue(s[|s| - 1]);
    assert Digit(d) == s[|s| - 1];
    if |s| > 1 {
      var front := s[..|s| - 1];
      ValuePositive(front);
      DecimalOfValue(front);
      assert Value(s) / 10 == Value(front) && Value(s) % 10 == d;
      assert s == front + [s[|s| - 1]];
    } else {
      assert s[..0] == "" && s == [s[0]];
    }
  }

  lemma DottedSteps(parts: seq<nat>)
    requires |parts| >= 1
    ensures Dotted(parts) ==
            if |parts| == 1 then Decimal(parts[0]) else Decimal(parts[0]) + ['.'] + Dotted(parts[1..])
  {}

  lemma LastNumber(s: string, v: nat)
    requires Number(s, 255) == Some(v)
    ensures Numbers(s, 1) == Some([v])
  {}

  lemma OneMoreNumber(first: string, v: nat, after: string, rest: seq<nat>)
    requires IsNumeral(first) && Number(first, 255) == Some(v)
    requires |rest| >= 1 && Numbers(after, |rest|) == Some(rest)
    ensures Numbers(first + ['.'] + after, |rest| + 1) == Some([v] + rest)
  {
    hide Number, Cut;
    CutAt(first, '.', after);
  }

  lemma {:induction false} NumbersOfDotted(parts: seq<nat>)
    requires |parts| >= 1 && forall i :: 0 <= i < |parts| ==> parts[i] <= 255
    ensures Numbers(Dotted(parts), |parts|) == Some(parts)
  {
    hide Numbers, Dotted, IsNumeral, Value, Decimal;
    ValueOfDecimal(parts[0]);
    DottedSteps(parts);
    if |parts| == 1 {
      assert parts == [parts[0]];
      LastNumber(Decimal(parts[0]), parts[0]);
    } else {
      NumbersOfDotted(parts[1..]);
      OneMoreNumber(Decimal(parts[0]), parts[0], Dotted(parts[1..]), parts[1..]);
      assert parts == [parts[0]] + parts[1..];
    }
  }

  lemma {:induction false} DottedOfNumbers(s: string, count: nat)
    requires count >= 1 && Numbers(s, count).Some?
    ensures var parts := Numbers(s, count).value;
            |parts| == count && Dotted(parts) == s && forall i :: 0 <= i < count ==> parts[i] <= 255
    decreases count
  {
    hide Dotted, IsNumeral, Value, Decimal, Cut;
    DottedSteps(Numbers(s, count).value);
    if count == 1 {
      DecimalOfValue(s);
    } else {
      var (before, after) := Cut(s, '.').value;
      CutWhere(s, '.');
      DecimalOfValue(before);
      DottedOfNumbers(after, count - 1);
      var rest := Numbers(after, count - 1).value;
      assert ([Value(before)] + rest)[1..] == rest;
    }
  }

  lemma {:induction false} PlainDots(parts: seq<nat>)
    ensures forall c :: c in Dotted(parts) ==> c in "0123456789."
  {
    if |parts| > 1 { PlainDots(parts[1..]); }
  }

  lemma Plain(p: Prefix)
    ensures forall c :: c in Written(p) ==> c in "0123456789./"
    ensures '/' !in Quad(p.addr)
  {
    PlainDots(Octets(p.addr));
  }

  lemma ByteStep(q: nat, r: nat)
    requires r <= 255
    ensures (q * 256 + r) / 256 == q && (q * 256 + r) % 256 == r
  {}

  lemma FromOctets(a: uint32)
    ensures |Octets(a)| == 4 && Address(Octets(a)) == a && forall i :: 0 <= i < 4 ==> Octets(a)[i] <= 255
  {}

  lemma ToOctets(parts: seq<nat>)
    requires |parts| == 4 && (forall i :: 0 <= i < 4 ==> parts[i] <= 255)
    ensures Address(parts) < SPACE && Octets(Address(parts)) == parts
  {
    ByteStep((parts[0] * 256 + parts[1]) * 256 + parts[2], parts[3]);
    ByteStep(parts[0] * 256 + parts[1], parts[2]);
    ByteStep(parts[0], parts[1]);
  }

  lemma ParsedWritten(p: Prefix)
    ensures Parsed(Written(p)) == Some(p)
  {
    hide Dotted, Numbers, Cut, Address, Octets;
    Plain(p);
    CutAt(Quad(p.addr), '/', Decimal(p.bits));
    FromOctets(p.addr);
    NumbersOfDotted(Octets(p.addr));
    ValueOfDecimal(p.bits);
  }

  lemma WrittenParsed(s: string)
    requires Parsed(s).Some?
    ensures Written(Parsed(s).value) == s
  {
    hide Dotted, Numbers, Cut, Address, Octets;
    var (before, after) := Cut(s, '/').value;
    CutWhere(s, '/');
    DottedOfNumbers(before, 4);
    ToOctets(Numbers(before, 4).value);
    DecimalOfValue(after);
  }

  /** A rule written into the table is the rule read back from it, and nothing but a written rule
      reads back as one. */
  lemma UserDataRoundTrip(r: NatRule, s: string)
    ensures RuleFromUserData(s) == Some(r) <==> s == UserData(r)
  {
    WrittenReadsBack(r);
    if RuleFromUserData(s) == Some(r) {
      ReadBackIsWritten(s);
    }
  }

  lemma WrittenReadsBack(r: NatRule)
    ensures RuleFromUserData(UserData(r)) == Some(r)
  {
    hide Written, Parsed, Cut;
    var synth, lan := Written(r.synthetic), Written(r.lan);
    assert UserData(r)[3..] == synth + ['>'] + lan;
    Plain(r.synthetic);
    CutAt(synth, '>', lan);
    ParsedWritten(r.synthetic);
    ParsedWritten(r.lan);
  }

  lemma ReadBackIsWritten(s: string)
    requires RuleFromUserData(s).Some?
    ensures s == UserData(RuleFromUserData(s).value)
  {
    hide Written, Parsed, Cut;
    var (synth, lan) := Cut(s[3..], '>').value;
    CutWhere(s[3..], '>');
    WrittenParsed(synth);
    WrittenParsed(lan);
    assert s == s[..3] + s[3..];
  }

  /** One of them, letter by letter. */
  lemma UserDataOfOne()
    ensures UserData(NatRule(Prefix(0x6440_0004, 30), Prefix(0x0A00_0000, 8))) == "lw 100.64.0.4/30>10.0.0.0/8"
  {
    hide Dotted, Decimal, Octets;
    SomeDecimals();
    assert Octets(0x6440_0004) == [100, 64, 0, 4] && Octets(0x0A00_0000) == [10, 0, 0, 0] by { SomeOctets(); }
    FourParts(100, 64, 0, 4);
    FourParts(10, 0, 0, 0);
    assert Quad(0x6440_0004) == "100.64.0.4" && Quad(0x0A00_0000) == "10.0.0.0";
  }

  lemma SomeOctets()
    ensures Octets(0x6440_0004) == [100, 64, 0, 4] && Octets(0x0A00_0000) == [10, 0, 0, 0]
  {}

  lemma SomeDecimals()
    ensures Decimal(0) == "0" && Decimal(4) == "4" && Decimal(8) == "8"
    ensures Decimal(10) == "10" && Decimal(30) == "30" && Decimal(64) == "64" && Decimal(100) == "100"
  {
    assert Decimal(1) == "1" && Decimal(3) == "3" && Decimal(6) == "6";
    assert Decimal(10) == "10" && Decimal(100) == Decimal(10) + "0";
  }

  lemma FourParts(a: nat, b: nat, c: nat, d: nat)
    ensures Dotted([a, b, c, d]) ==
            Decimal(a) + ['.'] + (Decimal(b) + ['.'] + (Decimal(c) + ['.'] + Decimal(d)))
  {
    hide Decimal, Dotted;
    DottedSteps([a, b, c, d]);
    DottedSteps([b, c, d]);
    DottedSteps([c, d]);
    DottedSteps([d]);
    assert [a, b, c, d][1..] == [b, c, d] && [b, c, d][1..] == [c, d] && [c, d][1..] == [d];
  }
}
