/**
 Giving the interface its address: the prefix length of a netmask, the broadcast address of the
 block, and the netlink attributes that carry them.
 */
module Netlink {
  import opened Wrappers
  import opened Bytes
  import opened DhcpCodec

  // ---- masks and prefixes ----

  function Pow2(n: nat): (r: nat)
    ensures r > 0
  {
    if n == 0 then 1 else 2 * Pow2(n - 1)
  }

  /** A byte whose top `n` bits are set. */
  function MaskByte(n: nat): (b: byte)
    requires n <= 8
  {
    [0x00, 0x80, 0xC0, 0xE0, 0xF0, 0xF8, 0xFC, 0xFE, 0xFF][n]
  }

  /** How many of the top `p` bits of an address fall into byte `i`. */
  function BitsInByte(p: nat, i: nat): (n: nat)
    ensures n <= 8
  {
    if p >= 8 * i + 8 then 8 else if p <= 8 * i then 0 else p - 8 * i
  }

  /** net.CIDRMask(p, 32). */
  function CidrMask(p: nat): (m: bytes)
    requires p <= 32
    ensures |m| == 4
  {
    [MaskByte(BitsInByte(p, 0)), MaskByte(BitsInByte(p, 1)), MaskByte(BitsInByte(p, 2)), MaskByte(BitsInByte(p, 3))]
  }

  /** The prefix length of a contiguous mask, 0 for any other. */
  ghost predicate IsPrefixOf(mask: bytes, ones: nat) {
    if exists p :: p <= 32 && mask == CidrMask(p) then ones <= 32 && mask == CidrMask(ones) else ones == 0
  }

  /** net.IPMask.Size of a four-byte mask. */
  method MaskSize(mask: bytes) returns (ones: nat)
    requires |mask| == 4
    ensures IsPrefixOf(mask, ones)
  {
    ones := 0;
    var i := 0;
    while i < 4 && mask[i] == 0xff
      invariant 0 <= i <= 4 && ones == 8 * i && forall j | 0 <= j < i :: mask[j] == 0xff
    {
      ones := ones + 8;
      i := i + 1;
    }
    if i == 4 {
      assert mask == CidrMask(32);
      return;
    }
    var bits := LeadingOnes(mask[i]);
    ghost var whole := i;
    if bits.None? {
      NotAMask(mask, whole);
      return 0;
    }
    ones := ones + bits.value;
    i := i + 1;
    while i < 4
      invariant whole < i <= 4 && forall j | whole < j < i :: mask[j] == 0
    {
      if mask[i] != 0 {
        NotAMaskAfter(mask, whole, i);
        return 0;
      }
      i := i + 1;
    }
    assert mask == CidrMask(ones);
  }

  /** The number of leading ones of a byte other than 0xff, if only zeros follow them. */
  method LeadingOnes(b: byte) returns (n: Option<nat>)
    requires b != 0xff
    ensures n.Some? ==> n.value < 8 && b == MaskByte(n.value)
    ensures n.None? ==> forall k | 0 <= k <= 8 :: b != MaskByte(k)
  {
    var v: int := b;
    var k := 0;
    while v >= 0x80
      invariant 0 <= k <= 8 && 0 <= v < 256
      invariant Shifted(b, k, v)
      decreases 8 - k
    {
      ShiftStep(b, k, v);
      v := v * 2 % 256;
      k := k + 1;
    }
    ShiftEnd(b, k, v);
    if v != 0 { return None; }
    return Some(k);
  }

  /** `v` is what is left of `b` after `k` shifts to the left that each dropped a one. */
  predicate Shifted(b: byte, k: nat, v: int) {
    b * Pow2(k) == 0x100 * (Pow2(k) - 1) + v
  }

  lemma ShiftStep(b: byte, k: nat, v: int)
    requires b != 0xff && k <= 8 && 0x80 <= v < 256 && Shifted(b, k, v)
    ensures k < 8 && Shifted(b, k + 1, v * 2 % 256)
  {
    SmallPower(8);
    assert v * 2 % 256 == 2 * v - 0x100;
    assert b * Pow2(k + 1) == 2 * (b * Pow2(k));
  }

  lemma ShiftEnd(b: byte, k: nat, v: int)
    requires b != 0xff && k <= 8 && 0 <= v < 0x80 && Shifted(b, k, v)
    ensures if v == 0 then k < 8 && b == MaskByte(k) else forall j | 0 <= j <= 8 :: b != MaskByte(j)
  {
    SmallPower(k);
  }

  const SMALL_POWERS: seq<nat> := [1, 2, 4, 8, 16, 32, 64, 128, 256]

  lemma {:induction false} SmallPower(k: nat)
    requires k <= 8
    ensures Pow2(k) == SMALL_POWERS[k]
    decreases k
  {
    if k > 0 { SmallPower(k - 1); }
  }

  /** A mask whose first unfilled byte is no mask byte is not contiguous. */
  lemma NotAMask(mask: bytes, i: nat)
    requires |mask| == 4 && i < 4 && mask[i] != 0xff && forall k | 0 <= k <= 8 :: mask[i] != MaskByte(k)
    ensures !exists p :: p <= 32 && mask == CidrMask(p)
  {
  }

  /** Nor is one with a set bit after its first unfilled byte. */
  lemma NotAMaskAfter(mask: bytes, i: nat, j: nat)
    requires |mask| == 4 && i < j < 4 && mask[i] != 0xff && mask[j] != 0
    ensures !exists p :: p <= 32 && mask == CidrMask(p)
  {
    forall p: nat | p <= 32 ensures mask != CidrMask(p) {
      assert CidrMask(p)[i] == MaskByte(BitsInByte(p, i)) && CidrMask(p)[j] == MaskByte(BitsInByte(p, j));
    }
  }

  // ---- the broadcast address ----

  /** Bitwise OR. */
  function BitOr(a: nat, b: nat): (r: nat)
    decreases a + b
  {
    if a == 0 && b == 0 then 0
    else 2 * BitOr(a / 2, b / 2) + if a % 2 == 1 || b % 2 == 1 then 1 else 0
  }

  /** `a | ^m` on one byte. */
  function OrInverse(a: byte, m: byte): (r: nat) {
    BitOr(a, 255 - m)
  }

  lemma {:induction false} BitOrBound(a: nat, b: nat, k: nat)
    requires a < Pow2(k) && b < Pow2(k)
    ensures BitOr(a, b) < Pow2(k)
    decreases k
  {
    if k > 0 { BitOrBound(a / 2, b / 2, k - 1); }
  }

  /** The broadcast loop of `addAddress`. */
  method Broadcast(ip: bytes, prefix: nat) returns (b: bytes)
    requires |ip| == 4 && prefix <= 32
    ensures b == BroadcastOf(ip, prefix)
  {
    var out := new byte[4];
    var mask := CidrMask(prefix);
    for i := 0 to 4
      invariant forall j | 0 <= j < i :: out[j] == OrInverse(ip[j], mask[j])
    {
      OrInverseIsByte(ip[i], mask[i]);
      out[i] := OrInverse(ip[i], mask[i]);
    }
    b := out[..];
  }

  lemma OrInverseIsByte(a: byte, m: byte)
    ensures OrInverse(a, m) < 256
  {
    Pow2Values();
    BitOrBound(a, 255 - m, 8);
  }

  /** Each byte of the address ORed with the inverse of the mask byte. */
  function OrInverses(ip: bytes, m: bytes): (b: bytes)
    requires |ip| == 4 && |m| == 4
    ensures |b| == 4
  {
    OrInverseIsByte(ip[0], m[0]);
    OrInverseIsByte(ip[1], m[1]);
    OrInverseIsByte(ip[2], m[2]);
    OrInverseIsByte(ip[3], m[3]);
    [OrInverse(ip[0], m[0]), OrInverse(ip[1], m[1]), OrInverse(ip[2], m[2]), OrInverse(ip[3], m[3])]
  }

  function BroadcastOf(ip: bytes, prefix: nat): (b: bytes)
    requires |ip| == 4 && prefix <= 32
    ensures |b| == 4
  {
    OrInverses(ip, CidrMask(prefix))
  }

  /** The last number of the block of size `d` that contains `x`, blocks being counted from 0. */
  function LastOfBlock(x: nat, d: nat): (r: nat)
    requires d > 0
    decreases x
  {
    if x < d then d - 1 else d + LastOfBlock(x - d, d)
  }

  lemma {:induction false} LastOfBlockAt(q: nat, r: nat, d: nat)
    requires r < d
    ensures LastOfBlock(q * d + r, d) == q * d + d - 1
    decreases q
  {
    if q > 0 {
      assert q * d == (q - 1) * d + d;
      LastOfBlockAt(q - 1, r, d);
    }
  }

  /** In closed form. */
  lemma LastOfBlockIs(x: nat, d: nat)
    requires d > 0
    ensures LastOfBlock(x, d) == x / d * d + d - 1
  {
    LastOfBlockAt(x / d, x % d, d);
  }

  lemma SplitAt(x: nat, d: nat) returns (q: nat, r: nat)
    requires d > 0
    ensures x == q * d + r && r < d && LastOfBlock(x, d) == q * d + d - 1
  {
    q, r := x / d, x % d;
    LastOfBlockAt(q, r, d);
  }

  lemma {:induction false} OrFills(q: nat, r: nat, k: nat)
    requires r < Pow2(k)
    ensures BitOr(q * Pow2(k) + r, Pow2(k) - 1) == q * Pow2(k) + Pow2(k) - 1
    decreases k
  {
    if k == 0 {
      OrZero(q);
    } else {
      var d := Pow2(k - 1);
      OrFills(q, r / 2, k - 1);
      TwiceIn(q, d);
      OrOdd(q * d, r, d);
    }
  }

  lemma OrOdd(u: nat, r: nat, d: nat)
    requires d > 0
    ensures BitOr(2 * u + r, 2 * d - 1) == 2 * BitOr(u + r / 2, d - 1) + 1
  {
    assert (2 * d - 1) / 2 == d - 1 && (2 * d - 1) % 2 == 1 && (2 * u + r) / 2 == u + r / 2;
  }

  lemma TwiceIn(x: nat, d: nat)
    ensures x * (2 * d) == 2 * (x * d)
  {
  }

  /** OR-ing in `k` low ones rounds up to the end of the block of size 2^k. */
  lemma OrLowOnes(x: nat, k: nat)
    ensures BitOr(x, Pow2(k) - 1) == LastOfBlock(x, Pow2(k))
  {
    var q, r := SplitAt(x, Pow2(k));
    OrFills(q, r, k);
  }

  lemma {:induction false} OrZero(x: nat)
    ensures BitOr(x, 0) == x
    decreases x
  {
    if x > 0 { OrZero(x / 2); }
  }

  lemma OrDoubles(u: nat, lo: nat, u': nat, lo': nat, w: nat)
    requires BitOr(u + lo / 2, u' + lo' / 2) == w + BitOr(lo / 2, lo' / 2)
    ensures BitOr(2 * u + lo, 2 * u' + lo') == 2 * w + BitOr(lo, lo')
  {
    assert (2 * u + lo) / 2 == u + lo / 2 && (2 * u' + lo') / 2 == u' + lo' / 2;
    assert (2 * u + lo) % 2 == lo % 2 && (2 * u' + lo') % 2 == lo' % 2;
  }

  /** OR works on the high digits and on the low two bits, four bits, or byte separately. */
  lemma OrByPairs(hi: nat, lo: nat, hi': nat, lo': nat)
    requires lo < 4 && lo' < 4
    ensures BitOr(hi * 4 + lo, hi' * 4 + lo') == BitOr(hi, hi') * 4 + BitOr(lo, lo')
  {
    var w := BitOr(hi, hi');
    assert lo / 2 / 2 == 0 && lo' / 2 / 2 == 0;
    OrDoubles(hi, lo / 2, hi', lo' / 2, w);
    OrDoubles(2 * hi, lo, 2 * hi', lo', 2 * w);
  }

  lemma OrByTwoPairs(hi: nat, x: nat, y: nat, hi': nat, x': nat, y': nat)
    requires x < 4 && y < 4 && x' < 4 && y' < 4
    ensures BitOr(hi * 16 + (x * 4 + y), hi' * 16 + (x' * 4 + y')) == BitOr(hi, hi') * 16 + BitOr(x * 4 + y, x' * 4 + y')
  {
    assert hi * 16 + (x * 4 + y) == (hi * 4 + x) * 4 + y && hi' * 16 + (x' * 4 + y') == (hi' * 4 + x') * 4 + y';
    OrByPairs(hi * 4 + x, y, hi' * 4 + x', y');
    OrByPairs(hi, x, hi', x');
    OrByPairs(x, y, x', y');
  }

  lemma OrByNibbles(hi: nat, lo: nat, hi': nat, lo': nat)
    requires lo < 16 && lo' < 16
    ensures BitOr(hi * 16 + lo, hi' * 16 + lo') == BitOr(hi, hi') * 16 + BitOr(lo, lo')
  {
    OrByTwoPairs(hi, lo / 4, lo % 4, hi', lo' / 4, lo' % 4);
  }

  lemma OrByTwoNibbles(hi: nat, x: nat, y: nat, hi': nat, x': nat, y': nat)
    requires x < 16 && y < 16 && x' < 16 && y' < 16
    ensures BitOr(hi * 256 + (x * 16 + y), hi' * 256 + (x' * 16 + y')) == BitOr(hi, hi') * 256 + BitOr(x * 16 + y, x' * 16 + y')
  {
    assert hi * 256 + (x * 16 + y) == (hi * 16 + x) * 16 + y && hi' * 256 + (x' * 16 + y') == (hi' * 16 + x') * 16 + y';
    OrByNibbles(hi * 16 + x, y, hi' * 16 + x', y');
    OrByNibbles(hi, x, hi', x');
    OrByNibbles(x, y, x', y');
  }

  lemma OrByBytes(hi: nat, lo: nat, hi': nat, lo': nat)
    requires lo < 256 && lo' < 256
    ensures BitOr(hi * 256 + lo, hi' * 256 + lo') == BitOr(hi, hi') * 256 + BitOr(lo, lo')
  {
    OrByTwoNibbles(hi, lo / 16, lo % 16, hi', lo' / 16, lo' % 16);
  }

  lemma Pow2Values()
    ensures Pow2(8) == 256 && Pow2(16) == 0x1_0000 && Pow2(24) == 0x100_0000 && Pow2(32) == 0x1_0000_0000
  {
    assert Pow2(4) == 16;
    Pow2Adds(4, 4);
    Pow2Adds(8, 8);
    Pow2Adds(16, 8);
    Pow2Adds(16, 16);
  }

  lemma {:induction false} Pow2Adds(a: nat, b: nat)
    ensures Pow2(a + b) == Pow2(a) * Pow2(b)
    decreases a
  {
    if a > 0 { Pow2Adds(a - 1, b); }
  }

  /** The complement of a mask byte is a run of low ones. */
  lemma InverseOfMaskByte(n: nat)
    requires n <= 8
    ensures 255 - MaskByte(n) as int == Pow2(8 - n) - 1
  {
    assert Pow2(3) == 8;
    if n <= 5 { Pow2Adds(3, 5 - n); }
  }

  /** The inverse of a mask, as a number. */
  function InverseMask(m: bytes): (n: nat)
    requires |m| == 4
  {
    (((255 - m[0] as int) * 256 + (255 - m[1] as int)) * 256 + (255 - m[2] as int)) * 256 + (255 - m[3] as int)
  }

  lemma InverseMaskIsLowOnes(p: nat)
    requires p <= 32
    ensures InverseMask(CidrMask(p)) == Pow2(32 - p) - 1
  {
    InverseOfMaskByte(BitsInByte(p, 0));
    InverseOfMaskByte(BitsInByte(p, 1));
    InverseOfMaskByte(BitsInByte(p, 2));
    InverseOfMaskByte(BitsInByte(p, 3));
    Pow2Values();
    if p <= 8 { Pow2Adds(8 - p, 24); }
    else if p <= 16 { Pow2Adds(16 - p, 16); }
    else if p <= 24 { Pow2Adds(24 - p, 8); }
  }

  /** Byte by byte, `addAddress` ORs the address with the inverted mask as numbers. */
  lemma OrInversesIsOr(ip: bytes, m: bytes)
    requires |ip| == 4 && |m| == 4
    ensures FromBe32(OrInverses(ip, m)) == BitOr(FromBe32(ip), InverseMask(m))
  {
    OrAddress(ip[0], ip[1], ip[2], ip[3], 255 - m[0], 255 - m[1], 255 - m[2], 255 - m[3]);
    Horner(ip);
    Horner(OrInverses(ip, m));
  }

  lemma Horner(b: bytes)
    requires |b| == 4
    ensures FromBe32(b) == ((b[0] as int * 256 + b[1]) * 256 + b[2]) * 256 + b[3]
  {
  }

  lemma OrAddress(a: byte, b: byte, c: byte, d: byte, a': byte, b': byte, c': byte, d': byte)
    ensures BitOr(((a as int * 256 + b) * 256 + c) * 256 + d, ((a' as int * 256 + b') * 256 + c') * 256 + d') ==
            ((BitOr(a, a') * 256 + BitOr(b, b')) * 256 + BitOr(c, c')) * 256 + BitOr(d, d')
  {
    var ab, ab' := a as int * 256 + b, a' as int * 256 + b';
    OrByBytes(a, b, a', b');
    OrByBytes(ab, c, ab', c');
    OrByBytes(ab * 256 + c, d, ab' * 256 + c', d');
  }

  /** For every address and every prefix length, `addAddress` announces the numerically last address of the
      block. */
  lemma BroadcastIsLastOfBlock(ip: bytes, p: nat)
    requires |ip| == 4 && p <= 32
    ensures FromBe32(BroadcastOf(ip, p)) == LastOfBlock(FromBe32(ip), Pow2(32 - p))
  {
    OrInversesIsOr(ip, CidrMask(p));
    InverseMaskIsLowOnes(p);
    OrLowOnes(FromBe32(ip), 32 - p);
  }

  /** The address step of `Configure`: for every address and every contiguous mask the announced broadcast address
      is the last of the block the mask describes; any other mask counts as the whole address space. */
  method AddressStep(ip: bytes, mask: bytes) returns (prefix: nat, broadcast: bytes)
    requires |ip| == 4 && |mask| == 4
    ensures prefix <= 32 && |broadcast| == 4
    ensures forall p: nat | p <= 32 && mask == CidrMask(p) ::
              prefix == p && FromBe32(broadcast) == LastOfBlock(FromBe32(ip), Pow2(32 - p))
    ensures (forall p: nat | p <= 32 :: mask != CidrMask(p)) ==> prefix == 0
  {
    prefix := MaskSize(mask);
    broadcast := Broadcast(ip, prefix);
    BroadcastIsLastOfBlock(ip, prefix);
    forall p: nat | p <= 32 && mask == CidrMask(p) ensures p == prefix { PrefixIsUnique(p, prefix); }
  }

  lemma PrefixIsUnique(p: nat, q: nat)
    requires p <= 32 && q <= 32 && CidrMask(p) == CidrMask(q)
    ensures p == q
  {
    SameBits(p, q, 0);
    SameBits(p, q, 1);
    SameBits(p, q, 2);
    SameBits(p, q, 3);
  }

  lemma SameBits(p: nat, q: nat, i: nat)
    requires p <= 32 && q <= 32 && CidrMask(p) == CidrMask(q) && i < 4
    ensures BitsInByte(p, i) == BitsInByte(q, i)
  {
    var m, n := BitsInByte(p, i), BitsInByte(q, i);
    assert CidrMask(p)[i] == MaskByte(m) && CidrMask(q)[i] == MaskByte(n);
  }

  // ---- netlink attributes ----

  /** A 16-bit little-endian number. */
  function Le16(n: uint16): (r: bytes)
    ensures |r| == 2
  {
    [n % 256, n / 256]
  }

  /** `n` rounded up to a multiple of four. */
  function Aligned(n: nat): (r: nat)
    ensures n <= r < n + 4 && r % 4 == 0
  {
    (n + 3) / 4 * 4
  }

  /** An attribute: its length (cut to 16 bits) and type, its data, and zeros up to a multiple of four bytes. */
  function AttrOf(typ: uint16, data: bytes): (r: bytes)
    ensures |r| % 4 == 0 && |r| >= 4 + |data|
  {
    Le16((4 + |data|) % 0x1_0000) + Le16(typ) + data + Zeros(Aligned(4 + |data|) - (4 + |data|))
  }

  /** `attr`, filling its buffer in place. */
  method Attr(typ: uint16, data: bytes) returns (r: bytes)
    ensures r == AttrOf(typ, data)
  {
    var l := 4 + |data|;
    var b := new byte[Aligned(l)](_ => 0);
    PutAt(b, 0, Le16(l % 0x1_0000));
    PutAt(b, 2, Le16(typ));
    PutAt(b, 4, data);
    r := b[..];
    var head: bytes := Le16(l % 0x1_0000) + Le16(typ);
    assert r[..4] == head && r[4..l] == data && r[l..] == Zeros(|r| - l);
    assert r == r[..4] + r[4..l] + r[l..];
  }

  function AttrsOf(attrs: seq<(uint16, bytes)>): (r: bytes)
    requires forall a | a in attrs :: |a.1| + 4 < 0x1_0000
  {
    if attrs == [] then [] else AttrOf(attrs[0].0, attrs[0].1) + AttrsOf(attrs[1..])
  }

  /** How the kernel reads a run of attributes. */
  function ReadAttrs(b: bytes): (r: Option<seq<(uint16, bytes)>>)
    decreases |b|
  {
    if b == [] then Some([])
    else if |b| < 4 then None
    else
      var l := b[0] as int + b[1] as int * 256;
      var step := Aligned(l);
      if l < 4 || step > |b| then None
      else
        var rest := ReadAttrs(b[step..]);
        if rest.None? then None else Some([(b[2] as int + b[3] as int * 256, b[4..l])] + rest.value)
  }

  /** A message body built from attributes is read back as exactly those attributes. */
  lemma {:induction false} AttrsRoundTrip(attrs: seq<(uint16, bytes)>)
    requires forall a | a in attrs :: |a.1| + 4 < 0x1_0000
    ensures ReadAttrs(AttrsOf(attrs)) == Some(attrs)
    decreases |attrs|
  {
    if attrs == [] {
    } else {
      assert attrs[0] in attrs;
      AttrsRoundTrip(attrs[1..]);
      ReadFirstAttr(attrs[0].0, attrs[0].1, AttrsOf(attrs[1..]));
      assert attrs == [attrs[0]] + attrs[1..];
    }
  }

  lemma AttrBytes(typ: uint16, data: bytes)
    requires |data| + 4 < 0x1_0000
    ensures var a, l := AttrOf(typ, data), 4 + |data|;
            && |a| == Aligned(l) && a[4..l] == data
            && a[0] == l % 256 && a[1] == l / 256 && a[2] == typ % 256 && a[3] == typ / 256
  {
  }

  lemma ReadFirstAttr(typ: uint16, data: bytes, tail: bytes)
    requires |data| + 4 < 0x1_0000
    ensures ReadAttrs(AttrOf(typ, data) + tail) ==
            if ReadAttrs(tail).None? then None else Some([(typ, data)] + ReadAttrs(tail).value)
  {
    var head := AttrOf(typ, data);
    AttrBytes(typ, data);
    var b := head + tail;
    assert b[4..4 + |data|] == head[4..4 + |data|] && b[|head|..] == tail;
    assert b[0] == head[0] && b[1] == head[1] && b[2] == head[2] && b[3] == head[3];
    ReadSplit(b, 4 + |data|, typ, data, tail);
  }

  lemma LittleEndianReads(n: uint16)
    ensures n % 256 + n / 256 * 256 == n
  {
  }

  lemma ReadSplit(b: bytes, l: uint16, typ: uint16, data: bytes, tail: bytes)
    requires 4 <= l && Aligned(l) <= |b|
    requires b[0] == l % 256 && b[1] == l / 256 && b[2] == typ % 256 && b[3] == typ / 256
    requires b[4..l] == data && b[Aligned(l)..] == tail
    ensures ReadAttrs(b) == if ReadAttrs(tail).None? then None else Some([(typ, data)] + ReadAttrs(tail).value)
  {
    LittleEndianReads(l);
    LittleEndianReads(typ);
  }
}
