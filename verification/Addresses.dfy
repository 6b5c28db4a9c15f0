/** Address classification of the asset fetcher: bit masks against integer intervals. */
module Addresses {
  import opened Options

  // ---- Machine words as integers, with their bits

  function Pow2(k: nat): (p: nat)
    ensures p > 0
  {
    if k == 0 then 1 else 2 * Pow2(k - 1)
  }

  // Bitwise and.
  function And(x: nat, y: nat): nat {
    if x == 0 || y == 0 then 0 else 2 * And(x / 2, y / 2) + (x % 2) * (y % 2)
  }

  // `MAX << shift` in a word of `width` bits.
  function ShiftedMax(width: nat, shift: nat): nat {
    (Pow2(width) - 1) * Pow2(shift) % Pow2(width)
  }

  function Mask(width: nat, prefix: nat): nat
    requires prefix <= width
  {
    if prefix == 0 then 0 else ShiftedMax(width, width - prefix)
  }

  // The mask test of `ipv4_in_cidr` (width 32) and `ipv6_in_cidr` (width 128).
  predicate InCidr(width: nat, address: nat, network: nat, prefix: nat)
    requires prefix <= width
  {
    And(address, Mask(width, prefix)) == And(network, Mask(width, prefix))
  }

  // ---- The interval specification

  datatype Block = Block(network: nat, prefix: nat)

  // The addresses that share the block's first `prefix` bits, as an interval.
  ghost predicate InBlock(width: nat, address: nat, b: Block)
    requires b.prefix <= width
  {
    var size := Pow2(width - b.prefix);
    var first := b.network / size * size;
    first <= address < first + size
  }

  lemma {:induction false} Pow2Add(a: nat, b: nat)
    ensures Pow2(a + b) == Pow2(a) * Pow2(b)
  {
    if a > 0 {
      Pow2Add(a - 1, b);
      Reorder(Pow2(b), Pow2(a - 1));
    }
  }

  lemma Pow2Small()
    ensures Pow2(0) == 1 && Pow2(8) == 0x100 && Pow2(12) == 0x1000 && Pow2(16) == 0x1_0000
  {
    assert Pow2(4) == 16;
    Pow2Add(4, 4);
    Pow2Add(4, 8);
    Pow2Add(8, 8);
  }

  lemma Pow2Word()
    ensures Pow2(17) == 0x2_0000 && Pow2(20) == 0x10_0000 && Pow2(22) == 0x40_0000
    ensures Pow2(24) == 0x100_0000 && Pow2(28) == 0x1000_0000 && Pow2(32) == 0x1_0000_0000
  {
    Pow2Small();
    assert Pow2(1) == 2 && Pow2(4) == 16 && Pow2(6) == 64;
    Pow2Add(1, 16);
    Pow2Add(4, 16);
    Pow2Add(6, 16);
    Pow2Add(8, 16);
    Pow2Add(12, 16);
    Pow2Add(16, 16);
  }

  // Shifting the all-ones word leaves the high bits.
  lemma ShiftedMaxIs(width: nat, shift: nat)
    requires shift <= width
    ensures Pow2(shift) <= Pow2(width)
    ensures shift < width ==> ShiftedMax(width, shift) == Pow2(width) - Pow2(shift)
  {
    hide *;
    Pow2Add(width - shift, shift);
    Pow2Grows(width - shift);
    ShiftedMaxUnfolds(width, shift);
    ShiftArithmetic(Pow2(width - shift), Pow2(shift), Pow2(width));
  }

  lemma Pow2Grows(k: nat)
    ensures k > 0 ==> Pow2(k) >= 2
  {
  }

  lemma ShiftedMaxUnfolds(width: nat, shift: nat)
    ensures ShiftedMax(width, shift) == (Pow2(width) - 1) * Pow2(shift) % Pow2(width)
  {
    hide Pow2;
  }

  lemma ShiftArithmetic(h: nat, s: nat, w: nat)
    requires h >= 1 && s >= 1 && w == h * s
    ensures s <= w && (h >= 2 ==> (w - 1) * s % w == w - s)
  {
    ProductAtLeast(h, s);
    if h >= 2 {
      Expand(w, s);
      RemainderIs(s - 1, w, w - s);
    }
  }

  lemma ProductAtLeast(h: nat, s: nat)
    requires h >= 1
    ensures h * s >= s
  {
    assert h * s == (h - 1) * s + s;
  }

  lemma Expand(w: int, s: int)
    ensures (w - 1) * s == (s - 1) * w + (w - s)
  {
  }

  lemma RemainderIs(q: nat, d: nat, r: nat)
    requires r < d
    ensures (q * d + r) % d == r && (q * d + r) / d == q
  {
    var x := q * d + r;
    var k := q - x / d;
    assert x == (x / d) * d + x % d;
    assert k * d == q * d - (x / d) * d;
    MultipleIsFar(k, d);
  }

  lemma MultipleIsFar(k: int, d: int)
    requires d >= 0
    ensures k > 0 ==> k * d >= d
    ensures k < 0 ==> k * d <= -d
  {
    if k > 0 {
      ProductAtLeast(k, d);
    } else if k < 0 {
      ProductAtLeast(-k, d);
      assert k * d == -((-k) * d);
    }
  }

  // The all-ones word keeps every bit.
  lemma {:induction false} AndAllOnes(width: nat, x: nat)
    requires x < Pow2(width)
    ensures And(x, Pow2(width) - 1) == x
  {
    if width > 0 && x > 0 {
      var ones := Pow2(width) - 1;
      assert ones / 2 == Pow2(width - 1) - 1 && ones % 2 == 1;
      AndAllOnes(width - 1, x / 2);
    }
  }

  lemma HalfBlock(width: nat, low: nat, x: nat)
    requires 1 <= low <= width && x < Pow2(width)
    ensures x / 2 < Pow2(width - 1) && 0 < Pow2(low - 1)
    ensures Pow2(width) == 2 * Pow2(width - 1) && Pow2(low) == 2 * Pow2(low - 1)
  {
  }

  // Masking clears the low bits: it rounds down to a multiple of the block size.
  lemma {:induction false} AndHighBits(width: nat, low: nat, x: nat)
    requires low <= width && x < Pow2(width)
    ensures Pow2(low) <= Pow2(width)
    ensures And(x, Pow2(width) - Pow2(low)) == x / Pow2(low) * Pow2(low)
  {
    hide *;
    if low == 0 {
      WholeWord(width, x);
      AndAllOnes(width, x);
    } else {
      HalfBlock(width, low, x);
      AndHighBits(width - 1, low - 1, x / 2);
      var half, d := Pow2(width - 1) - Pow2(low - 1), Pow2(low - 1);
      AndDoubled(x, half);
      HalfThenDivide(x, d);
      Reorder(x / 2 / d, d);
    }
  }

  lemma WholeWord(width: nat, x: nat)
    ensures Pow2(0) == 1 <= Pow2(width) && x / Pow2(0) * Pow2(0) == x
  {
  }

  lemma AndDoubled(x: nat, half: nat)
    ensures And(x, 2 * half) == 2 * And(x / 2, half)
  {
    if x == 0 {
      assert x / 2 == 0;
    } else if half > 0 {
      assert 2 * half / 2 == half;
    }
  }

  lemma Reorder(a: int, d: int)
    ensures 2 * (a * d) == a * (2 * d)
  {
  }

  lemma HalfThenDivide(x: nat, d: nat)
    requires d > 0
    ensures x / 2 / d == x / (2 * d)
  {
    var q, r := x / 2 / d, x / 2 % d;
    assert x / 2 == q * d + r;
    assert x == 2 * (q * d + r) + x % 2;
    assert x == q * (2 * d) + (2 * r + x % 2) by { Reorder(q, d); }
    RemainderIs(q, 2 * d, 2 * r + x % 2);
  }

  lemma MaskRoundsDown(width: nat, x: nat, prefix: nat)
    requires prefix <= width && x < Pow2(width)
    ensures And(x, Mask(width, prefix)) == x / Pow2(width - prefix) * Pow2(width - prefix)
  {
    var size := Pow2(width - prefix);
    if prefix == 0 {
      assert x / size == 0 by { RemainderIs(0, size, x); }
    } else {
      ShiftedMaxIs(width, width - prefix);
      AndHighBits(width, width - prefix, x);
    }
  }

  /** The mask test is membership in the integer interval of the block, for every address and prefix. */
  lemma CidrIsInterval(width: nat, address: nat, network: nat, prefix: nat)
    requires prefix <= width && address < Pow2(width) && network < Pow2(width)
    ensures InCidr(width, address, network, prefix) <==> InBlock(width, address, Block(network, prefix))
  {
    hide And, Mask;
    MaskRoundsDown(width, address, prefix);
    MaskRoundsDown(width, network, prefix);
    var size := Pow2(width - prefix);
    RoundedDown(address, network, size);
  }

  lemma RoundedDown(x: nat, y: nat, size: nat)
    requires size > 0
    ensures x / size * size == y / size * size <==> y / size * size <= x < y / size * size + size
  {
    var q := y / size;
    assert x == x / size * size + x % size;
    if q * size <= x < q * size + size {
      RemainderIs(q, size, x - q * size);
      assert q * size + (x - q * size) == x;
    }
  }

  // ---- IPv4

  type Ipv4 = a: nat | a < 0x1_0000_0000

  function Octet(a: Ipv4, i: nat): nat
    requires i < 4
  {
    (if i == 0 then a / 0x100_0000 else if i == 1 then a / 0x1_0000 else if i == 2 then a / 0x100 else a) % 0x100
  }

  function V4(a: nat, b: nat, c: nat, d: nat): Ipv4
    requires a < 0x100 && b < 0x100 && c < 0x100 && d < 0x100
  {
    a * 0x100_0000 + b * 0x1_0000 + c * 0x100 + d
  }

  // An address has the octets it is written with.
  lemma OctetsOfV4(a: nat, b: nat, c: nat, d: nat)
    requires a < 0x100 && b < 0x100 && c < 0x100 && d < 0x100
    ensures var v := V4(a, b, c, d);
      Octet(v, 0) == a && Octet(v, 1) == b && Octet(v, 2) == c && Octet(v, 3) == d
  {
    var v := V4(a, b, c, d);
    assert v / 0x100 == (a * 0x100 + b) * 0x100 + c;
    assert v / 0x1_0000 == a * 0x100 + b;
  }

  predicate IsPrivateV4(a: Ipv4) {
    // The standard library's is_private, is_loopback, is_link_local, is_unspecified, is_broadcast, is_multicast.
    || Octet(a, 0) == 10
    || (Octet(a, 0) == 172 && 16 <= Octet(a, 1) <= 31)
    || (Octet(a, 0) == 192 && Octet(a, 1) == 168)
    || Octet(a, 0) == 127
    || (Octet(a, 0) == 169 && Octet(a, 1) == 254)
    || a == 0
    || a == 0xFFFF_FFFF
    || 224 <= Octet(a, 0) <= 239
    || InCidr(32, a, 0x0000_0000, 8)   // 0.0.0.0/8
    || InCidr(32, a, 0x6440_0000, 10)  // 100.64.0.0/10
    || InCidr(32, a, 0xC000_0000, 24)  // 192.0.0.0/24
    || InCidr(32, a, 0xC000_0200, 24)  // 192.0.2.0/24
    || InCidr(32, a, 0xC612_0000, 15)  // 198.18.0.0/15
    || InCidr(32, a, 0xC633_6400, 24)  // 198.51.100.0/24
    || InCidr(32, a, 0xCB00_7100, 24)  // 203.0.113.0/24
    || InCidr(32, a, 0xF000_0000, 4)   // 240.0.0.0/4
  }

  /** The blocked IPv4 ranges, as intervals of addresses. */
  ghost predicate BlockedV4(a: Ipv4) {
    || InBlock(32, a, Block(0x0A00_0000, 8))    // 10.0.0.0/8
    || InBlock(32, a, Block(0xAC10_0000, 12))   // 172.16.0.0/12
    || InBlock(32, a, Block(0xC0A8_0000, 16))   // 192.168.0.0/16
    || InBlock(32, a, Block(0x7F00_0000, 8))    // 127.0.0.0/8
    || InBlock(32, a, Block(0xA9FE_0000, 16))   // 169.254.0.0/16
    || InBlock(32, a, Block(0x0000_0000, 32))   // 0.0.0.0
    || InBlock(32, a, Block(0xFFFF_FFFF, 32))   // 255.255.255.255
    || InBlock(32, a, Block(0xE000_0000, 4))    // 224.0.0.0/4
    || InBlock(32, a, Block(0x0000_0000, 8))
    || InBlock(32, a, Block(0x6440_0000, 10))
    || InBlock(32, a, Block(0xC000_0000, 24))
    || InBlock(32, a, Block(0xC000_0200, 24))
    || InBlock(32, a, Block(0xC612_0000, 15))
    || InBlock(32, a, Block(0xC633_6400, 24))
    || InBlock(32, a, Block(0xCB00_7100, 24))
    || InBlock(32, a, Block(0xF000_0000, 4))
  }

  // A block whose network is a multiple of its size starts at the network.
  lemma AlignedBlock(width: nat, a: nat, network: nat, prefix: nat, size: nat, count: nat)
    requires prefix <= width && size == Pow2(width - prefix) && network == count * size
    ensures InBlock(width, a, Block(network, prefix)) <==> network <= a < network + size
  {
    hide Pow2;
    RemainderIs(count, size, 0);
    assert network / size == count;
  }

  // The octet tests of the standard library as blocks.
  lemma TenBlock(a: Ipv4)
    ensures Octet(a, 0) == 10 <==> InBlock(32, a, Block(0x0A00_0000, 8))
  {
    hide InBlock, Pow2;
    Pow2Small();
    Pow2Word();
    AlignedBlock(32, a, 0x0A00_0000, 8, 0x100_0000, 10);
  }

  lemma PrivateTwelveBlock(a: Ipv4)
    ensures Octet(a, 0) == 172 && 16 <= Octet(a, 1) <= 31 <==> InBlock(32, a, Block(0xAC10_0000, 12))
  {
    hide InBlock, Pow2;
    Pow2Small();
    Pow2Word();
    AlignedBlock(32, a, 0xAC10_0000, 12, 0x10_0000, 0xAC1);
    OctetsSplit(a);
  }

  lemma PrivateSixteenBlock(a: Ipv4)
    ensures Octet(a, 0) == 192 && Octet(a, 1) == 168 <==> InBlock(32, a, Block(0xC0A8_0000, 16))
  {
    hide InBlock, Pow2;
    Pow2Small();
    Pow2Word();
    AlignedBlock(32, a, 0xC0A8_0000, 16, 0x1_0000, 0xC0A8);
    OctetsSplit(a);
  }

  lemma LoopbackBlock(a: Ipv4)
    ensures Octet(a, 0) == 127 <==> InBlock(32, a, Block(0x7F00_0000, 8))
  {
    hide InBlock, Pow2;
    Pow2Small();
    Pow2Word();
    AlignedBlock(32, a, 0x7F00_0000, 8, 0x100_0000, 0x7F);
  }

  lemma LinkLocalBlock(a: Ipv4)
    ensures Octet(a, 0) == 169 && Octet(a, 1) == 254 <==> InBlock(32, a, Block(0xA9FE_0000, 16))
  {
    hide InBlock, Pow2;
    Pow2Small();
    Pow2Word();
    AlignedBlock(32, a, 0xA9FE_0000, 16, 0x1_0000, 0xA9FE);
    OctetsSplit(a);
  }

  lemma SingleBlocks(a: Ipv4)
    ensures a == 0 <==> InBlock(32, a, Block(0x0000_0000, 32))
    ensures a == 0xFFFF_FFFF <==> InBlock(32, a, Block(0xFFFF_FFFF, 32))
  {
    hide InBlock, Pow2;
    Pow2Small();
    AlignedBlock(32, a, 0, 32, 1, 0);
    AlignedBlock(32, a, 0xFFFF_FFFF, 32, 1, 0xFFFF_FFFF);
  }

  lemma MulticastBlock(a: Ipv4)
    ensures 224 <= Octet(a, 0) <= 239 <==> InBlock(32, a, Block(0xE000_0000, 4))
  {
    hide InBlock, Pow2;
    Pow2Small();
    Pow2Word();
    AlignedBlock(32, a, 0xE000_0000, 4, 0x1000_0000, 14);
  }

  lemma OctetsSplit(a: Ipv4)
    ensures Octet(a, 0) * 0x100 + Octet(a, 1) == a / 0x1_0000
    ensures Octet(a, 0) < 0x100 && Octet(a, 1) < 0x100
  {
    var high := a / 0x1_0000;
    assert a / 0x100_0000 == high / 0x100;
  }

  /** The IPv4 classification is the union of the listed blocks. */
  lemma PrivateV4IsUnion(a: Ipv4)
    ensures IsPrivateV4(a) <==> BlockedV4(a)
  {
    hide InCidr, InBlock, Octet, Pow2;
    Pow2Word();
    TenBlock(a);
    PrivateTwelveBlock(a);
    PrivateSixteenBlock(a);
    LoopbackBlock(a);
    LinkLocalBlock(a);
    SingleBlocks(a);
    MulticastBlock(a);
    CidrIsInterval(32, a, 0x0000_0000, 8);
    CidrIsInterval(32, a, 0x6440_0000, 10);
    CidrIsInterval(32, a, 0xC000_0000, 24);
    CidrIsInterval(32, a, 0xC000_0200, 24);
    CidrIsInterval(32, a, 0xC612_0000, 15);
    CidrIsInterval(32, a, 0xC633_6400, 24);
    CidrIsInterval(32, a, 0xCB00_7100, 24);
    CidrIsInterval(32, a, 0xF000_0000, 4);
  }


  // ---- IPv6

  type Segments = s: seq<nat> | forall i :: 0 <= i < |s| ==> s[i] < 0x1_0000
  type Ipv6 = s: Segments | |s| == 8 witness [0, 0, 0, 0, 0, 0, 0, 0]

  // `u128::from` of an address: its 16-bit segments in network order.
  function Value(s: Segments): nat {
    if s == [] then 0 else Value(s[..|s| - 1]) * 0x1_0000 + s[|s| - 1]
  }

  function MappedV4(s: Ipv6): Option<Ipv4> {
    if s[..5] == [0, 0, 0, 0, 0] && s[5] == 0xFFFF
    then Some(V4(s[6] / 0x100, s[6] % 0x100, s[7] / 0x100, s[7] % 0x100))
    else None
  }

  function NewV6(s0: nat, s1: nat, s2: nat, s3: nat, s4: nat, s5: nat, s6: nat, s7: nat): Ipv6
    requires s0 < 0x1_0000 && s1 < 0x1_0000 && s2 < 0x1_0000 && s3 < 0x1_0000
    requires s4 < 0x1_0000 && s5 < 0x1_0000 && s6 < 0x1_0000 && s7 < 0x1_0000
  {
    [s0, s1, s2, s3, s4, s5, s6, s7]
  }

  predicate InCidrV6(s: Ipv6, network: Ipv6, prefix: nat)
    requires prefix <= 128
  {
    InCidr(128, Value(s), Value(network), prefix)
  }

  predicate IsPrivateV6(s: Ipv6) {
    || (MappedV4(s).Some? && IsPrivateV4(MappedV4(s).value))
    || s == NewV6(0, 0, 0, 0, 0, 0, 0, 1)  // loopback
    || s == NewV6(0, 0, 0, 0, 0, 0, 0, 0)  // unspecified
    || And(s[0], 0xFF00) == 0xFF00  // the standard library's is_multicast
    || And(s[0], 0xFE00) == 0xFC00
    || And(s[0], 0xFFC0) == 0xFE80
    || InCidrV6(s, NewV6(0xFEC0, 0, 0, 0, 0, 0, 0, 0), 10)
    || InCidrV6(s, NewV6(0x2001, 0x0002, 0, 0, 0, 0, 0, 0), 48)
    || InCidrV6(s, NewV6(0x2001, 0x0DB8, 0, 0, 0, 0, 0, 0), 32)
    || InCidrV6(s, NewV6(0x2001, 0x0010, 0, 0, 0, 0, 0, 0), 28)
  }

  ghost predicate InBlockV6(s: Ipv6, network: Ipv6, prefix: nat)
    requires prefix <= 128
  {
    InBlock(128, Value(s), Block(Value(network), prefix))
  }

  /** The blocked IPv6 ranges; the mapped range ::ffff:0:0/96 defers to the IPv4 ranges. */
  ghost predicate BlockedV6(s: Ipv6) {
    || (InBlockV6(s, NewV6(0, 0, 0, 0, 0, 0xFFFF, 0, 0), 96) && BlockedV4(Value(s) % 0x1_0000_0000))
    || InBlockV6(s, NewV6(0, 0, 0, 0, 0, 0, 0, 1), 128)
    || InBlockV6(s, NewV6(0, 0, 0, 0, 0, 0, 0, 0), 128)
    || InBlockV6(s, NewV6(0xFF00, 0, 0, 0, 0, 0, 0, 0), 8)
    || InBlockV6(s, NewV6(0xFC00, 0, 0, 0, 0, 0, 0, 0), 7)
    || InBlockV6(s, NewV6(0xFE80, 0, 0, 0, 0, 0, 0, 0), 10)
    || InBlockV6(s, NewV6(0xFEC0, 0, 0, 0, 0, 0, 0, 0), 10)
    || InBlockV6(s, NewV6(0x2001, 0x0002, 0, 0, 0, 0, 0, 0), 48)
    || InBlockV6(s, NewV6(0x2001, 0x0DB8, 0, 0, 0, 0, 0, 0), 32)
    || InBlockV6(s, NewV6(0x2001, 0x0010, 0, 0, 0, 0, 0, 0), 28)
  }

  // A prefix of the segments is the quotient, the rest the remainder.
  lemma {:induction false} ValueSplits(s: Segments, k: nat)
    requires k <= |s|
    ensures Value(s[k..]) < Pow2(16 * (|s| - k))
    ensures Value(s) == Value(s[..k]) * Pow2(16 * (|s| - k)) + Value(s[k..])
  {
    var n := |s|;
    if k == n {
      assert s[..k] == s && s[k..] == [];
    } else {
      var front, last := s[..n - 1], s[n - 1];
      LastSegment(s, k);
      hide *;
      ValueSplits(front, k);
      Pow2Add(16 * (n - 1 - k), 16);
      Pow2Small();
      assert 16 * (n - k) == 16 * (n - 1 - k) + 16;
      SplitArithmetic(Value(s[..k]), Pow2(16 * (n - 1 - k)), Value(front[k..]), last);
    }
  }

  lemma LastSegment(s: Segments, k: nat)
    requires k < |s|
    ensures s[..|s| - 1][..k] == s[..k]
    ensures Value(s) == Value(s[..|s| - 1]) * 0x1_0000 + s[|s| - 1]
    ensures Value(s[k..]) == Value(s[..|s| - 1][k..]) * 0x1_0000 + s[|s| - 1]
  {
    var tail := s[k..];
    ValueUnfolds(s);
    ValueUnfolds(tail);
    hide Value;
    assert tail[..|tail| - 1] == s[..|s| - 1][k..];
    assert tail[|tail| - 1] == s[|s| - 1];
  }

  lemma ValueUnfolds(s: Segments)
    requires s != []
    ensures Value(s) == Value(s[..|s| - 1]) * 0x1_0000 + s[|s| - 1]
  {
  }

  lemma SplitArithmetic(head: nat, p: nat, tail: nat, last: nat)
    requires tail < p && last < 0x1_0000
    ensures tail * 0x1_0000 + last < p * 0x1_0000
    ensures (head * p + tail) * 0x1_0000 + last == head * (p * 0x1_0000) + (tail * 0x1_0000 + last)
  {
    assert (head * p) * 0x1_0000 == head * (p * 0x1_0000);
  }

  lemma ValueIsWord(s: Ipv6)
    ensures Value(s) < Pow2(128)
  {
    hide Value, Pow2;
    ValueSplits(s, 0);
    assert s[0..] == s;
  }

  // Equal lengths and equal values mean equal segments.
  lemma {:induction false} ValueInjective(s: Segments, t: Segments)
    requires |s| == |t| && Value(s) == Value(t)
    ensures s == t
  {
    var n := |s|;
    if n > 0 {
      assert Value(s[..n - 1]) == Value(t[..n - 1]) && s[n - 1] == t[n - 1];
      ValueInjective(s[..n - 1], t[..n - 1]);
      assert s == s[..n - 1] + [s[n - 1]] && t == t[..n - 1] + [t[n - 1]];
    }
  }

  lemma RoundedEqual(x: nat, y: nat, size: nat)
    requires size > 0
    ensures x / size * size == y / size * size <==> x / size == y / size
  {
    var k := x / size - y / size;
    assert k * size == x / size * size - y / size * size;
    MultipleIsFar(k, size);
  }

  lemma Quotient(x: nat, d: nat)
    requires d > 0
    ensures x == x / d * d + x % d && x % d < d
  {
  }

  lemma DivideTwice(x: nat, a: nat, b: nat)
    requires a > 0 && b > 0
    ensures a * b > 0 && x / a / b == x / (b * a)
  {
    hide *;
    var y := x / a;
    var q, r, t := y / b, y % b, x % a;
    Quotient(x, a);
    Quotient(y, b);
    NestedRemainder(q, r, t, a, b);
    ProductAtLeast(b, a);
    assert b * a == a * b;
    RemainderIs(q, b * a, r * a + t);
  }

  lemma NestedRemainder(q: nat, r: nat, t: nat, a: nat, b: nat)
    requires r < b && t < a
    ensures (q * b + r) * a + t == q * (b * a) + (r * a + t) && 0 <= r * a && r * a + t < b * a
  {
    assert (q * b) * a == q * (b * a);
    assert (q * b + r) * a == (q * b) * a + r * a;
    ProductAtLeast(b - r, a);
    assert (b - r) * a == b * a - r * a;
    assert r * a >= 0;
  }

  /** Masking the leading 16-bit segment is the 128-bit mask test, for every prefix up to 16 bits. */
  lemma SegmentMaskIsCidr(s: Ipv6, network: nat, prefix: nat)
    requires prefix <= 16 && network < 0x1_0000
    ensures And(s[0], Mask(16, prefix)) == And(network, Mask(16, prefix))
       <==> InCidrV6(s, NewV6(network, 0, 0, 0, 0, 0, 0, 0), prefix)
  {
    var t := NewV6(network, 0, 0, 0, 0, 0, 0, 0);
    assert t[0] == network;
    assert 16 - prefix + 112 == 128 - prefix;
    hide NewV6, Value, Mask, And, Pow2, InCidr;
    LeadingSegment(s);
    LeadingSegment(t);
    ValueIsWord(s);
    ValueIsWord(t);
    Pow2Small();
    WordAndSegmentMask(Value(s), s[0], Value(t), network, prefix);
  }

  lemma WordAndSegmentMask(x: nat, s: nat, y: nat, t: nat, prefix: nat)
    requires prefix <= 16 && x < Pow2(128) && y < Pow2(128) && s < Pow2(16) && t < Pow2(16)
    requires x / Pow2(112) == s && y / Pow2(112) == t
    ensures And(s, Mask(16, prefix)) == And(t, Mask(16, prefix)) <==> InCidr(128, x, y, prefix)
  {
    hide Mask, And, Pow2;
    MaskRoundsDown(16, s, prefix);
    MaskRoundsDown(16, t, prefix);
    MaskRoundsDown(128, x, prefix);
    MaskRoundsDown(128, y, prefix);
    Pow2Add(16 - prefix, 112);
    assert 16 - prefix + 112 == 128 - prefix;
    SameBlockTwice(x, y, Pow2(112), Pow2(16 - prefix));
  }

  lemma SameBlockTwice(x: nat, y: nat, high: nat, m: nat)
    requires high > 0 && m > 0
    ensures m * high > 0
    ensures x / high / m * m == y / high / m * m <==> x / (m * high) * (m * high) == y / (m * high) * (m * high)
  {
    DivideTwice(x, high, m);
    DivideTwice(y, high, m);
    assert m * high == high * m;
    RoundedEqual(x / high, y / high, m);
    RoundedEqual(x, y, m * high);
  }

  lemma LeadingSegment(s: Ipv6)
    ensures Value(s) / Pow2(112) == s[0]
  {
    assert s[..1] == [s[0]];
    ValueOfOne(s[0]);
    hide Value, Pow2;
    ValueSplits(s, 1);
    RemainderIs(s[0], Pow2(112), Value(s[1..]));
  }

  lemma ValueOfOne(x: nat)
    requires x < 0x1_0000
    ensures Value([x]) == x
  {
    assert [x][..0] == [];
  }

  lemma SegmentMasks()
    ensures Mask(16, 7) == 0xFE00 && Mask(16, 8) == 0xFF00 && Mask(16, 10) == 0xFFC0
    ensures And(0xFC00, Mask(16, 7)) == 0xFC00
    ensures And(0xFF00, Mask(16, 8)) == 0xFF00
    ensures And(0xFE80, Mask(16, 10)) == 0xFE80
  {
    assert Pow2(9) == 0x200 && Pow2(6) == 0x40;
    hide Pow2, ShiftedMax, And;
    Pow2Small();
    ShiftedMaxIs(16, 9);
    ShiftedMaxIs(16, 8);
    ShiftedMaxIs(16, 6);
    MaskRoundsDown(16, 0xFC00, 7);
    MaskRoundsDown(16, 0xFF00, 8);
    MaskRoundsDown(16, 0xFE80, 10);
  }

  lemma SegmentBlocks(s: Ipv6)
    ensures And(s[0], 0xFF00) == 0xFF00 <==> InBlockV6(s, NewV6(0xFF00, 0, 0, 0, 0, 0, 0, 0), 8)
    ensures And(s[0], 0xFE00) == 0xFC00 <==> InBlockV6(s, NewV6(0xFC00, 0, 0, 0, 0, 0, 0, 0), 7)
    ensures And(s[0], 0xFFC0) == 0xFE80 <==> InBlockV6(s, NewV6(0xFE80, 0, 0, 0, 0, 0, 0, 0), 10)
  {
    hide *;
    SegmentMasks();
    SegmentMaskIsCidr(s, 0xFF00, 8);
    SegmentMaskIsCidr(s, 0xFC00, 7);
    SegmentMaskIsCidr(s, 0xFE80, 10);
    CidrIsIntervalV6(s, NewV6(0xFF00, 0, 0, 0, 0, 0, 0, 0), 8);
    CidrIsIntervalV6(s, NewV6(0xFC00, 0, 0, 0, 0, 0, 0, 0), 7);
    CidrIsIntervalV6(s, NewV6(0xFE80, 0, 0, 0, 0, 0, 0, 0), 10);
  }

  lemma CidrIsIntervalV6(s: Ipv6, network: Ipv6, prefix: nat)
    requires prefix <= 128
    ensures InCidrV6(s, network, prefix) <==> InBlockV6(s, network, prefix)
  {
    hide InCidr, InBlock, Value, Pow2;
    ValueIsWord(s);
    ValueIsWord(network);
    CidrIsInterval(128, Value(s), Value(network), prefix);
  }

  lemma SingleBlockV6(s: Ipv6, network: Ipv6)
    ensures s == network <==> InBlockV6(s, network, 128)
  {
    if Value(s) == Value(network) {
      ValueInjective(s, network);
    }
    hide Value;
    Pow2Small();
    assert Value(network) / 1 * 1 == Value(network);
  }

  // The mapped range ::ffff:0:0/96 (section 2.5.5.2 of RFC 4291), and the address embedded in it.
  lemma MappedIsBlock(s: Ipv6)
    ensures MappedV4(s).Some? <==> InBlockV6(s, NewV6(0, 0, 0, 0, 0, 0xFFFF, 0, 0), 96)
    ensures MappedV4(s).Some? ==> MappedV4(s).value == Value(s) % 0x1_0000_0000
  {
    hide Value, InBlock, Pow2;
    var t := NewV6(0, 0, 0, 0, 0, 0xFFFF, 0, 0);
    LowWord(s);
    LowWord(t);
    MappedHead(s);
    MappedHead(t);
    Pow2Word();
    var high := Value(s[..6]);
    RemainderIs(high, 0x1_0000_0000, Value(s[6..]));
    AlignedBlock(128, Value(s), Value(t), 96, 0x1_0000_0000, 0xFFFF);
  }

  lemma LowWord(s: Ipv6)
    ensures Value(s[6..]) == s[6] * 0x1_0000 + s[7]
    ensures Value(s) == Value(s[..6]) * 0x1_0000_0000 + Value(s[6..])
  {
    assert s[6..] == [s[6], s[7]] && [s[6], s[7]][..1] == [s[6]];
    ValueOfOne(s[6]);
    assert Value([s[6], s[7]]) == Value([s[6]]) * 0x1_0000 + s[7];
    hide Value, Pow2;
    ValueSplits(s, 6);
    Pow2Word();
  }

  lemma MappedHead(s: Ipv6)
    ensures Value(s[..6]) == 0xFFFF <==> s[..5] == [0, 0, 0, 0, 0] && s[5] == 0xFFFF
  {
    var head := s[..6];
    assert head[..5] == s[..5] && head[5] == s[5];
    ValueOfZeros(5);
    var zeros := seq(5, i => 0);
    assert Value(head) == Value(head[..5]) * 0x1_0000 + head[5];
    if Value(head) == 0xFFFF {
      assert Value(s[..5]) == 0;
      ValueInjective(s[..5], zeros);
    } else if s[..5] == [0, 0, 0, 0, 0] {
      assert s[..5] == zeros;
    }
  }

  lemma {:induction false} ValueOfZeros(n: nat)
    ensures Value(seq(n, i => 0)) == 0
  {
    if n > 0 {
      assert seq(n, i => 0)[..n - 1] == seq(n - 1, i => 0);
      ValueOfZeros(n - 1);
    }
  }

  /** The IPv6 classification is the union of the listed blocks. */
  lemma PrivateV6IsUnion(s: Ipv6)
    ensures IsPrivateV6(s) <==> BlockedV6(s)
  {
    hide Value, InCidrV6, InBlockV6, NewV6, And, IsPrivateV4, BlockedV4, MappedV4;
    MappedIsBlock(s);
    PrivateV4IsUnion(Value(s) % 0x1_0000_0000);
    SingleBlockV6(s, NewV6(0, 0, 0, 0, 0, 0, 0, 1));
    SingleBlockV6(s, NewV6(0, 0, 0, 0, 0, 0, 0, 0));
    SegmentBlocks(s);
    CidrIsIntervalV6(s, NewV6(0xFEC0, 0, 0, 0, 0, 0, 0, 0), 10);
    CidrIsIntervalV6(s, NewV6(0x2001, 0x0002, 0, 0, 0, 0, 0, 0), 48);
    CidrIsIntervalV6(s, NewV6(0x2001, 0x0DB8, 0, 0, 0, 0, 0, 0), 32);
    CidrIsIntervalV6(s, NewV6(0x2001, 0x0010, 0, 0, 0, 0, 0, 0), 28);
  }

  // A block whose leading segment is set does not reach addresses below 2^112.
  lemma HighBlockMissesLow(s: Ipv6, network: Ipv6, prefix: nat)
    requires 16 <= prefix <= 128 && s[0] != network[0]
    ensures !InCidrV6(s, network, prefix)
  {
    hide Value, And, Mask, Pow2;
    var x, y, m, high := Value(s), Value(network), Pow2(128 - prefix), Pow2(prefix - 16);
    LeadingSegment(s);
    LeadingSegment(network);
    ValueIsWord(s);
    ValueIsWord(network);
    MaskRoundsDown(128, x, prefix);
    MaskRoundsDown(128, y, prefix);
    RoundedEqual(x, y, m);
    Pow2Add(prefix - 16, 128 - prefix);
    assert prefix - 16 + (128 - prefix) == 112;
    DivideTwice(x, m, high);
    DivideTwice(y, m, high);
  }

  function MappedFrom(v: Ipv4): Ipv6 {
    NewV6(0, 0, 0, 0, 0, 0xFFFF, v / 0x1_0000, v % 0x1_0000)
  }

  /** An IPv4-mapped address is classified as its IPv4 address. */
  lemma MappedClassifiesAsV4(v: Ipv4)
    ensures MappedV4(MappedFrom(v)) == Some(v)
    ensures IsPrivateV6(MappedFrom(v)) <==> IsPrivateV4(v)
  {
    var s := MappedFrom(v);
    MappedRestores(v);
    MappedHasNoSegmentBits(v);
    MappedOutsideHighBlocks(v);
    MappedIsNotSingle(v);
    hide MappedFrom, InCidrV6, And, IsPrivateV4, NewV6, MappedV4;
  }

  lemma MappedIsNotSingle(v: Ipv4)
    ensures MappedFrom(v) != NewV6(0, 0, 0, 0, 0, 0, 0, 1)
    ensures MappedFrom(v) != NewV6(0, 0, 0, 0, 0, 0, 0, 0)
  {
    assert MappedFrom(v)[5] == 0xFFFF;
    assert NewV6(0, 0, 0, 0, 0, 0, 0, 1)[5] == 0;
    assert NewV6(0, 0, 0, 0, 0, 0, 0, 0)[5] == 0;
  }

  lemma MappedHasNoSegmentBits(v: Ipv4)
    ensures MappedFrom(v)[0] == 0
    ensures And(MappedFrom(v)[0], 0xFF00) == 0 && And(MappedFrom(v)[0], 0xFE00) == 0 && And(MappedFrom(v)[0], 0xFFC0) == 0
  {
  }

  lemma MappedOutsideHighBlocks(v: Ipv4)
    ensures !InCidrV6(MappedFrom(v), NewV6(0xFEC0, 0, 0, 0, 0, 0, 0, 0), 10)
    ensures !InCidrV6(MappedFrom(v), NewV6(0x2001, 0x0002, 0, 0, 0, 0, 0, 0), 48)
    ensures !InCidrV6(MappedFrom(v), NewV6(0x2001, 0x0DB8, 0, 0, 0, 0, 0, 0), 32)
    ensures !InCidrV6(MappedFrom(v), NewV6(0x2001, 0x0010, 0, 0, 0, 0, 0, 0), 28)
  {
    var s := MappedFrom(v);
    var a, b, c := NewV6(0x2001, 0x0002, 0, 0, 0, 0, 0, 0), NewV6(0x2001, 0x0DB8, 0, 0, 0, 0, 0, 0),
                   NewV6(0x2001, 0x0010, 0, 0, 0, 0, 0, 0);
    assert s[0] == 0 && a[0] == 0x2001 && b[0] == 0x2001 && c[0] == 0x2001;
    hide *;
    SiteLocalMask();
    SegmentMaskIsCidr(s, 0xFEC0, 10);
    HighBlockMissesLow(s, a, 48);
    HighBlockMissesLow(s, b, 32);
    HighBlockMissesLow(s, c, 28);
  }

  lemma MappedRestores(v: Ipv4)
    ensures MappedV4(MappedFrom(v)) == Some(v)
  {
    var s := MappedFrom(v);
    assert s[..5] == [0, 0, 0, 0, 0];
    var high, low := v / 0x1_0000, v % 0x1_0000;
    assert s[6] == high && s[7] == low;
  }

  lemma SiteLocalMask()
    ensures And(0, Mask(16, 10)) == 0 && And(0xFEC0, Mask(16, 10)) == 0xFEC0
  {
    assert Pow2(6) == 0x40;
    hide Pow2, Mask;
    Pow2Small();
    MaskRoundsDown(16, 0xFEC0, 10);
  }

  // ---- Resolved addresses

  datatype IpAddr = V4Addr(v4: Ipv4) | V6Addr(v6: Ipv6)

  predicate IsPrivate(a: IpAddr) {
    match a
    case V4Addr(v4) => IsPrivateV4(v4)
    case V6Addr(v6) => IsPrivateV6(v6)
  }

  function FilterResolved(addresses: seq<IpAddr>): seq<IpAddr> {
    if addresses == [] then []
    else
      var n := |addresses| - 1;
      var earlier := FilterResolved(addresses[..n]);
      if IsPrivate(addresses[n]) then earlier else earlier + [addresses[n]]
  }

  ghost predicate Selects(kept: seq<nat>, addresses: seq<IpAddr>) {
    && (forall i :: 0 <= i < |kept| ==> kept[i] < |addresses|)
    && (forall i, j :: 0 <= i < j < |kept| ==> kept[i] < kept[j])
    && (forall p :: 0 <= p < |addresses| ==> (p in kept <==> !IsPrivate(addresses[p])))
  }

  /** Filtering keeps exactly the public positions, in their order. */
  lemma {:induction false} FilterIsSubsequence(addresses: seq<IpAddr>) returns (kept: seq<nat>)
    ensures Selects(kept, addresses)
    ensures |FilterResolved(addresses)| == |kept|
    ensures forall i :: 0 <= i < |kept| ==> FilterResolved(addresses)[i] == addresses[kept[i]]
  {
    hide IsPrivate;
    if addresses == [] {
      kept := [];
    } else {
      var n := |addresses| - 1;
      kept := FilterIsSubsequence(addresses[..n]);
      if !IsPrivate(addresses[n]) {
        kept := kept + [n];
      }
    }
  }

  // The resolver's answer: an error when only blocked addresses remain.
  function Resolve(addresses: seq<IpAddr>): Option<seq<IpAddr>> {
    var public := FilterResolved(addresses);
    if public == [] then None else Some(public)
  }

  /** A host resolves exactly when one of its addresses is public, and only to public addresses. */
  lemma ResolvesIffPublic(addresses: seq<IpAddr>)
    ensures Resolve(addresses).Some? <==> exists p :: 0 <= p < |addresses| && !IsPrivate(addresses[p])
    ensures Resolve(addresses).Some? ==> forall a :: a in Resolve(addresses).value <==> a in addresses && !IsPrivate(a)
  {
    var kept := FilterIsSubsequence(addresses);
    hide IsPrivate, FilterResolved;
    var public := FilterResolved(addresses);
    if kept != [] {
      assert kept[0] in kept;
      assert !IsPrivate(addresses[kept[0]]);
    }
    forall a | a in public
      ensures a in addresses && !IsPrivate(a)
    {
      var i :| 0 <= i < |public| && public[i] == a;
      assert kept[i] in kept;
    }
    forall a | a in addresses && !IsPrivate(a)
      ensures a in public
    {
      var p :| 0 <= p < |addresses| && addresses[p] == a;
      assert p in kept;
      var i :| 0 <= i < |kept| && kept[i] == p;
      assert public[i] == a;
    }
  }
}
