/**
 The hand-built IPv4/UDP framing of DHCP messages (section 3.1 of RFC 791, RFC 768) and the Internet
 checksum (section 1 of RFC 1071).
 */
module IpUdp {
  import opened Wrappers
  import opened Bytes
  import opened DhcpCodec

  const WORD := 0x1_0000
  const WIDTH := 0x1_0000_0000   // the accumulator is a uint32
  const ONES := 0xffff

  // ---- the Internet checksum ----

  /** Addition of 16-bit one's-complement numbers: a carry out comes back in at the low end. */
  function OnesAdd(a: uint16, b: uint16): (r: uint16) {
    if a as int + b < WORD then a as int + b else a as int + b - ONES
  }

  /** The one's-complement sum of the 16-bit words of `b`, an odd last byte being padded with zero. */
  function OnesSum(b: bytes): (r: uint16) {
    if b == [] then 0
    else if |b| == 1 then b[0] as int * 256
    else OnesAdd(FromBe16(b[..2]), OnesSum(b[2..]))
  }

  /** The plain sum of the same words. */
  function WordSum(b: bytes): (n: nat) {
    if b == [] then 0
    else if |b| == 1 then b[0] as int * 256
    else FromBe16(b[..2]) as int + WordSum(b[2..])
  }

  /** The number in 1..65535, or 0 for 0, that end-around carries reduce `n` to. */
  function Residue(n: nat): (r: uint16) {
    if n == 0 then 0 else (n - 1) % ONES + 1
  }

  /** What `checksum` returns: the accumulator wraps at 32 bits. */
  function ChecksumOf(b: bytes): (c: uint16) {
    ONES - Residue(WordSum(b) % WIDTH)
  }

  lemma FoldKeepsResidue(n: nat)
    ensures Residue(n % WORD + n / WORD) == Residue(n)
    ensures n >= WORD ==> n % WORD + n / WORD < n
  {
    var q, r := n / WORD, n % WORD;
    assert n == q * ONES + (q + r);
    if n > 0 {
      assert q + r > 0;
      ModOfMultiple(q, q + r - 1);
    }
  }

  lemma ModOfMultiple(q: nat, k: nat)
    ensures (q * ONES + k) % ONES == k % ONES
  {
    var a := k / ONES;
    assert q * ONES + k == (q + a) * ONES + k % ONES;
  }

  /** `checksum`, with its explicit 32-bit accumulator. It folds at most twice. */
  method Checksum(b: bytes) returns (c: uint16, ghost folds: nat)
    ensures c == ChecksumOf(b)
    ensures folds <= 2
  {
    var sum := SumWords(b);
    var folded;
    folded, folds := FoldCarries(sum);
    c := ONES - folded;
  }

  method SumWords(b: bytes) returns (sum: uint32)
    ensures sum == WordSum(b) % WIDTH
  {
    sum := 0;
    var i := 0;
    while i + 1 < |b|
      invariant 0 <= i <= |b| && i % 2 == 0
      invariant (sum as int + WordSum(b[i..])) % WIDTH == WordSum(b) % WIDTH
    {
      WordSumStep(b, i);
      var w := FromBe16(b[i..i + 2]);
      WrapAdd(sum as int + w, WordSum(b[i + 2..]));
      sum := (sum as int + w) % WIDTH;
      i := i + 2;
    }
    if |b| % 2 == 1 {
      assert b[i..] == [b[|b| - 1]];
      sum := (sum as int + b[|b| - 1] as int * 256) % WIDTH;
    } else {
      assert b[i..] == [];
    }
  }

  lemma WordSumStep(b: bytes, i: nat)
    requires i + 1 < |b|
    ensures WordSum(b[i..]) == FromBe16(b[i..i + 2]) as int + WordSum(b[i + 2..])
  {
    assert b[i..][..2] == b[i..i + 2] && b[i..][2..] == b[i + 2..];
  }

  method FoldCarries(wide: uint32) returns (sum: uint16, ghost folds: nat)
    ensures sum == Residue(wide)
    ensures folds <= 2
  {
    var acc: nat := wide;
    folds := 0;
    while acc / WORD != 0
      invariant acc < WIDTH && Residue(acc) == Residue(wide)
      invariant folds <= 2 && (folds == 1 ==> acc <= 2 * ONES) && (folds == 2 ==> acc <= ONES)
      decreases acc
    {
      FoldKeepsResidue(acc);
      acc := acc % WORD + acc / WORD;
      folds := folds + 1;
    }
    sum := acc;
  }

  lemma WrapAdd(x: nat, y: nat)
    ensures (x % WIDTH + y) % WIDTH == (x + y) % WIDTH
  {
    var q := x / WIDTH;
    assert x + y == q * WIDTH + (x % WIDTH + y);
    ModOfWidth(q, x % WIDTH + y);
  }

  lemma ModOfWidth(q: nat, k: nat)
    ensures (q * WIDTH + k) % WIDTH == k % WIDTH
  {
    var a := k / WIDTH;
    assert q * WIDTH + k == (q + a) * WIDTH + k % WIDTH;
  }

  const MAX_CHECKED := 131074

  lemma {:induction false} WordSumBound(b: bytes)
    ensures 2 * WordSum(b) <= (|b| + |b| % 2) * ONES
    decreases |b|
  {
    if |b| >= 2 { WordSumBound(b[2..]); }
  }

  lemma {:induction false} OnesSumIsResidue(b: bytes)
    ensures OnesSum(b) == Residue(WordSum(b))
    decreases |b|
  {
    if |b| >= 2 {
      OnesSumIsResidue(b[2..]);
      ResidueAdds(FromBe16(b[..2]), WordSum(b[2..]));
    }
  }

  lemma ResidueAdds(w: uint16, n: nat)
    ensures OnesAdd(w, Residue(n)) == Residue(w as int + n)
  {
    if n > 0 {
      var q, r := (n - 1) / ONES, (n - 1) % ONES;
      assert w as int + n - 1 == q * ONES + (w as int + r);
      ModOfMultiple(q, w as int + r);
    }
  }

  lemma NoOverflow(b: bytes)
    requires |b| <= MAX_CHECKED
    ensures WordSum(b) < WIDTH && ChecksumOf(b) == ONES - Residue(WordSum(b))
  {
    WordSumBound(b);
    assert |b| + |b| % 2 <= 131074;
    assert 2 * WordSum(b) <= 131074 * 0xffff;
    SmallMod(WordSum(b));
  }

  lemma SmallMod(n: nat)
    requires n < WIDTH
    ensures n % WIDTH == n
  {
  }

  /** Up to 131074 bytes the accumulator cannot overflow, and the result is the complement of the
      one's-complement sum of RFC 1071. */
  lemma ChecksumIsRfc1071(b: bytes)
    requires |b| <= MAX_CHECKED
    ensures WordSum(b) < WIDTH
    ensures ChecksumOf(b) == ONES - OnesSum(b)
  {
    NoOverflow(b);
    OnesSumIsResidue(b);
  }

  lemma {:induction false} WordSumOfOddOnes(n: nat)
    ensures WordSum(seq(2 * n + 1, _ => 255)) == n * ONES + 255 * 256
    decreases n
  {
    var b: bytes := seq(2 * n + 1, _ => 255);
    if n > 0 {
      assert b[2..] == seq(2 * (n - 1) + 1, _ => 255);
      WordSumOfOddOnes(n - 1);
    }
  }

  /** Wrapping at 32 bits drops carries that the one's-complement sum would have brought back in. */
  lemma WrapLosesCarries(w: nat)
    ensures Residue(w) == Residue(w / WIDTH + w % WIDTH)
  {
    var q, r := w / WIDTH, w % WIDTH;
    assert w == q * 65537 * ONES + (q + r);
    if w > 0 {
      assert q + r > 0;
      ModOfMultiple(q * 65537, q + r - 1);
    }
  }

  lemma SameResidueIff(q: nat, r: nat)
    ensures Residue(q + r) == Residue(r) <==> q % ONES == 0 && (q == 0 || r > 0)
  {
    if r > 0 {
      var a, b := q / ONES, q % ONES;
      var c := r - 1;
      assert q + c == a * ONES + (b + c);
      ModOfMultiple(a, b + c);
    }
  }

  /** Exactly when the wrapping accumulator gives the checksum of RFC 1071, for every input: when no carry is lost,
      or a multiple of 65535 of them and something is left. Below 8 GiB that is when the sum fits. */
  lemma ChecksumExact(b: bytes)
    ensures ChecksumOf(b) == ONES - OnesSum(b) <==>
            WordSum(b) / WIDTH % ONES == 0 && (WordSum(b) < WIDTH || WordSum(b) % WIDTH > 0)
    ensures |b| <= 2 * WIDTH - 2 ==> (ChecksumOf(b) == ONES - OnesSum(b) <==> WordSum(b) < WIDTH)
  {
    var w := WordSum(b);
    OnesSumIsResidue(b);
    WrapLosesCarries(w);
    SameResidueIff(w / WIDTH, w % WIDTH);
    if |b| <= 2 * WIDTH - 2 { FewCarries(b); }
  }

  lemma FewCarries(b: bytes)
    requires |b| <= 2 * WIDTH - 2
    ensures WordSum(b) / WIDTH < ONES
  {
    WordSumBound(b);
    assert |b| + |b| % 2 <= 2 * (WIDTH - 1);
    assert WordSum(b) <= (WIDTH - 1) * ONES;
  }

  /** The bound is tight: one byte more, and a carry is lost. */
  lemma ChecksumBoundIsTight()
    ensures var b: bytes := seq(MAX_CHECKED + 1, _ => 255); ChecksumOf(b) != ONES - OnesSum(b)
  {
    var b: bytes := seq(MAX_CHECKED + 1, _ => 255);
    assert MAX_CHECKED + 1 == 2 * 65537 + 1;
    WordSumOfOddOnes(65537);
    assert WordSum(b) >= WIDTH;
    ChecksumExact(b);
  }

  lemma {:induction false} WordSumStore(b: bytes, i: nat, c: uint16)
    requires i % 2 == 0 && i + 1 < |b| && b[i] == 0 && b[i + 1] == 0
    ensures WordSum(b[i := c / 256][i + 1 := c % 256]) == WordSum(b) + c
    decreases i
  {
    var b': bytes := b[i := c / 256][i + 1 := c % 256];
    if i == 0 {
      assert b'[2..] == b[2..];
    } else {
      assert b'[..2] == b[..2] && b'[2..] == b[2..][i - 2 := c / 256][i - 1 := c % 256];
      WordSumStore(b[2..], i - 2, c);
    }
  }

  /** Storing the checksum into a zeroed, aligned field makes the checksum of the whole buffer zero. */
  lemma StoredChecksumVerifies(b: bytes, i: nat)
    requires |b| <= MAX_CHECKED && i % 2 == 0 && i + 1 < |b| && b[i] == 0 && b[i + 1] == 0
    ensures ChecksumOf(b[i := ChecksumOf(b) / 256][i + 1 := ChecksumOf(b) % 256]) == 0
  {
    var c := ChecksumOf(b);
    var b' := b[i := c / 256][i + 1 := c % 256];
    NoOverflow(b);
    NoOverflow(b');
    WordSumStore(b, i, c);
    ComplementCompletes(WordSum(b));
  }

  /** A number and the complement of its residue add up to all ones. */
  lemma ComplementCompletes(w: nat)
    ensures Residue(w + (ONES - Residue(w))) == ONES
  {
    if w > 0 {
      var q, r := (w - 1) / ONES, (w - 1) % ONES;
      assert w + (ONES - Residue(w)) - 1 == q * ONES + (ONES - 1);
      ModOfMultiple(q, ONES - 1);
    }
  }

  // ---- framing ----

  const UDP := 17

  function UnsummedIpHeader(total: nat): (r: bytes)
    ensures |r| == 20
  {
    [0x45, 0] + Be16(total % WORD) + [0, 0, 0, 0, 64, UDP, 0, 0, 0, 0, 0, 0, 255, 255, 255, 255]
  }

  function IpHeader(total: nat): (r: bytes)
    ensures |r| == 20
  {
    var h := UnsummedIpHeader(total);
    h[10 := ChecksumOf(h) / 256][11 := ChecksumOf(h) % 256]
  }

  function Frame(payload: bytes, srcPort: uint16, dstPort: uint16): (r: bytes)
    ensures |r| == 28 + |payload|
  {
    IpHeader(28 + |payload|) + Be16(srcPort) + Be16(dstPort) + Be16((8 + |payload|) % WORD) + [0, 0] + payload
  }

  /** Receivers that check the IP header checksum accept the frame. */
  lemma FrameHeaderVerifies(payload: bytes, srcPort: uint16, dstPort: uint16)
    ensures ChecksumOf(Frame(payload, srcPort, dstPort)[..20]) == 0
  {
    var h := UnsummedIpHeader(28 + |payload|);
    StoredChecksumVerifies(h, 10);
    assert Frame(payload, srcPort, dstPort)[..20] == IpHeader(28 + |payload|);
  }

  /** `udpPacket`, filling its buffer in place. */
  method UdpPacket(payload: bytes, srcPort: uint16, dstPort: uint16) returns (r: bytes)
    ensures r == Frame(payload, srcPort, dstPort)
  {
    var total := 20 + 8 + |payload|;
    var b := new byte[total](_ => 0);
    FillIpHeader(b);
    PutAt(b, 20, Be16(srcPort));
    PutAt(b, 22, Be16(dstPort));
    PutAt(b, 24, Be16((8 + |payload|) % WORD));
    PutAt(b, 28, payload);
    r := b[..];
    forall j | 0 <= j < total ensures r[j] == Frame(payload, srcPort, dstPort)[j] {
      FrameAt(payload, srcPort, dstPort, j);
    }
  }

  method FillIpHeader(b: array<byte>)
    requires b.Length >= 28 && forall j | 0 <= j < b.Length :: b[j] == 0
    modifies b
    ensures forall j | 0 <= j < 20 :: b[j] == IpHeader(b.Length)[j]
    ensures forall j | 20 <= j < b.Length :: b[j] == 0
  {
    b[0] := 0x45;
    PutAt(b, 2, Be16(b.Length % WORD));
    b[8], b[9] := 64, UDP;
    PutAt(b, 16, [255, 255, 255, 255]);
    assert b[..20] == UnsummedIpHeader(b.Length);
    var sum, _ := Checksum(b[..20]);
    PutAt(b, 10, Be16(sum));
  }

  /** Where each part of a frame lies. */
  function FrameByte(payload: bytes, srcPort: uint16, dstPort: uint16, j: nat): (b: byte)
    requires j < 28 + |payload|
  {
    if j < 20 then IpHeader(28 + |payload|)[j]
    else if j < 22 then Be16(srcPort)[j - 20]
    else if j < 24 then Be16(dstPort)[j - 22]
    else if j < 26 then Be16((8 + |payload|) % WORD)[j - 24]
    else if j < 28 then 0
    else payload[j - 28]
  }

  lemma FrameAt(payload: bytes, srcPort: uint16, dstPort: uint16, j: nat)
    requires j < 28 + |payload|
    ensures Frame(payload, srcPort, dstPort)[j] == FrameByte(payload, srcPort, dstPort, j)
  {
  }

  /** `udpPayload`: the payload of an unfragmented IPv4/UDP packet to `port`, cut to its own lengths. */
  function UdpPayload(b: bytes, port: uint16): (r: Option<bytes>) {
    if |b| < 20 || b[0] / 16 != 4 || b[9] != UDP then None
    else
      var ihl := b[0] % 16 * 4;
      var total := FromBe16(b[2..4]);
      if ihl < 20 || total > |b| || total < ihl + 8 then None
      else if FromBe16(b[6..8]) % 0x4000 != 0 then None
      else
        var udp := b[ihl..total];
        if FromBe16(udp[2..4]) != port then None
        else
          var ulen := FromBe16(udp[4..6]);
          if ulen < 8 || ulen > |udp| then None else Some(udp[8..ulen])
  }

  /** `b` is an IPv4 packet, in the fields of section 3.1 of RFC 791, that carries a whole UDP datagram (RFC 768) with
      `payload` to `port`: a header `ip` with options and without fragmentation, the ports, length and
      checksum, the payload, bytes of the packet that the datagram does not use, and link-layer padding. */
  predicate IsDatagram(b: bytes, port: uint16, payload: bytes, ip: bytes, source: bytes, sum: bytes, unused: bytes, padding: bytes) {
    && b == ip + source + Be16(port) + Be16((8 + |payload|) % WORD) + sum + payload + unused + padding
    && |source| == 2 && |sum| == 2 && 8 + |payload| < WORD
    && 20 <= |ip| <= 60 && |ip| % 4 == 0 && ip[0] == 0x40 + |ip| / 4
    && ip[2..4] == Be16((|b| - |padding|) % WORD) && |b| - |padding| < WORD
    && ip[6] % 64 == 0 && ip[7] == 0
    && ip[9] == 17
  }

  ghost predicate CarriesTo(b: bytes, port: uint16, payload: bytes) {
    exists ip, source, sum, unused, padding :: IsDatagram(b, port, payload, ip, source, sum, unused, padding)
  }

  /** Extraction returns exactly the payloads of such packets, for every byte string. */
  lemma UdpPayloadIff(b: bytes, port: uint16, payload: bytes)
    ensures UdpPayload(b, port) == Some(payload) <==> CarriesTo(b, port, payload)
  {
    if UdpPayload(b, port) == Some(payload) { PayloadIsCarried(b, port, payload); }
    if CarriesTo(b, port, payload) {
      var ip, source, sum, unused, padding :| IsDatagram(b, port, payload, ip, source, sum, unused, padding);
      CarriedIsPayload(b, port, payload, ip, source, sum, unused, padding);
    }
  }

  lemma PayloadIsCarried(b: bytes, port: uint16, payload: bytes)
    requires UdpPayload(b, port) == Some(payload)
    ensures CarriesTo(b, port, payload)
  {
    var ihl, total := b[0] % 16 * 4, FromBe16(b[2..4]) as int;
    var udp := b[ihl..total];
    var ulen := 8 + |payload|;
    Be16OfFrom(b[2..4]);
    Be16OfFrom(udp[2..4]);
    Be16OfFrom(udp[4..6]);
    NotFragmented(b[6..8]);
    DatagramParts(udp, port, payload);
    var ip, padding := b[..ihl], b[total..];
    assert b == ip + udp + padding && ip[2..4] == b[2..4];
    Assembled(b, port, payload, ip, udp[..2], udp[6..8], udp[ulen..], padding);
  }

  lemma Assembled(b: bytes, port: uint16, payload: bytes, ip: bytes, source: bytes, sum: bytes, unused: bytes, padding: bytes)
    requires b == ip + (source + Be16(port) + Be16((8 + |payload|) % WORD) + sum + payload + unused) + padding
    requires |source| == 2 && |sum| == 2 && 8 + |payload| < WORD
    requires 20 <= |ip| <= 60 && |ip| % 4 == 0 && ip[0] == 0x40 + |ip| / 4
    requires ip[2..4] == Be16((|b| - |padding|) % WORD) && |b| - |padding| < WORD
    requires ip[6] % 64 == 0 && ip[7] == 0 && ip[9] == 17
    ensures CarriesTo(b, port, payload)
  {
    assert b == ip + source + Be16(port) + Be16((8 + |payload|) % WORD) + sum + payload + unused + padding;
    assert IsDatagram(b, port, payload, ip, source, sum, unused, padding);
  }

  lemma DatagramParts(udp: bytes, port: uint16, payload: bytes)
    requires |udp| >= 8 + |payload| && udp[2..4] == Be16(port) && 8 + |payload| < WORD
    requires udp[4..6] == Be16(8 + |payload|) && udp[8..8 + |payload|] == payload
    ensures udp == udp[..2] + Be16(port) + Be16((8 + |payload|) % WORD) + udp[6..8] + payload + udp[8 + |payload|..]
  {
    SmallWord(8 + |payload|);
  }

  lemma Be16OfFrom(b: bytes)
    requires |b| == 2
    ensures Be16(FromBe16(b)) == b
  {
  }

  lemma NotFragmented(b: bytes)
    requires |b| == 2
    ensures FromBe16(b) % 0x4000 == 0 <==> b[0] % 64 == 0 && b[1] == 0
  {
  }

  lemma CarriedIsPayload(b: bytes, port: uint16, payload: bytes, ip: bytes, source: bytes, sum: bytes, unused: bytes,
                         padding: bytes)
    requires IsDatagram(b, port, payload, ip, source, sum, unused, padding)
    ensures UdpPayload(b, port) == Some(payload)
  {
    var udp := source + Be16(port) + Be16((8 + |payload|) % WORD) + sum + payload + unused;
    assert b == ip + udp + padding;
    SmallWord(8 + |payload|);
    SmallWord(|ip| + |udp|);
    UdpFieldsAt(source, Be16(port), Be16(8 + |payload|), sum, payload, unused);
    HeaderIsRead(ip, udp, padding, port, payload);
  }

  lemma UdpFieldsAt(source: bytes, port: bytes, length: bytes, sum: bytes, payload: bytes, unused: bytes)
    requires |source| == |port| == |length| == |sum| == 2
    ensures var udp := source + port + length + sum + payload + unused;
            udp[2..4] == port && udp[4..6] == length && udp[8..8 + |payload|] == payload
  {
  }

  lemma HeaderIsRead(ip: bytes, udp: bytes, padding: bytes, port: uint16, payload: bytes)
    requires 20 <= |ip| <= 60 && |ip| % 4 == 0 && ip[0] == 0x40 + |ip| / 4
    requires |ip| + |udp| < WORD && ip[2..4] == Be16(|ip| + |udp|)
    requires ip[6] % 64 == 0 && ip[7] == 0 && ip[9] == 17
    requires |udp| >= 8 + |payload| && udp[2..4] == Be16(port)
    requires 8 + |payload| < WORD && udp[4..6] == Be16(8 + |payload|) && udp[8..8 + |payload|] == payload
    ensures UdpPayload(ip + udp + padding, port) == Some(payload)
  {
    var b := ip + udp + padding;
    var total := |ip| + |udp|;
    assert b[0] == ip[0] && b[9] == ip[9] && b[2..4] == ip[2..4] && b[6..8] == [ip[6], ip[7]];
    NotFragmented(b[6..8]);
    BigEndianRoundTrips(total, 0);
    BigEndianRoundTrips(port, 0);
    BigEndianRoundTrips(8 + |payload|, 0);
    assert b[|ip|..total] == udp;
  }

  const MAX_PAYLOAD := 65507

  /** A frame goes from 0.0.0.0 to the broadcast address with 64 hops to live, from one port to the other, and carries
      the payload. */
  lemma FrameIsBroadcast(payload: bytes, srcPort: uint16, dstPort: uint16)
    requires |payload| <= MAX_PAYLOAD
    ensures var b := Frame(payload, srcPort, dstPort);
            && b[8] == 64 && b[12..16] == [0, 0, 0, 0] && b[16..20] == [255, 255, 255, 255] && b[20..22] == Be16(srcPort)
            && CarriesTo(b, dstPort, payload)
  {
    var b := Frame(payload, srcPort, dstPort);
    assert b[20..22] == Be16(srcPort);
    forall j | 0 <= j < 20 ensures b[j] == IpHeader(28 + |payload|)[j] { FrameAt(payload, srcPort, dstPort, j); }
    AddressesAt(28 + |payload|);
    FrameRoundTrips(payload, srcPort, dstPort, []);
    assert b + [] == b;
    UdpPayloadIff(b, dstPort, payload);
  }

  lemma AddressesAt(total: nat)
    ensures var h := IpHeader(total);
            h[8] == 64 && h[12] == h[13] == h[14] == h[15] == 0 && h[16] == h[17] == h[18] == h[19] == 255
  {
    var h := UnsummedIpHeader(total);
    assert forall i | 0 <= i < 20 && i != 10 && i != 11 :: IpHeader(total)[i] == h[i];
  }

  /** Extraction inverts framing, whatever padding the link layer appended, for payloads up to 65507 bytes. */
  lemma FrameRoundTrips(payload: bytes, srcPort: uint16, dstPort: uint16, padding: bytes)
    requires |payload| <= MAX_PAYLOAD
    ensures UdpPayload(Frame(payload, srcPort, dstPort) + padding, dstPort) == Some(payload)
  {
    var total := 28 + |payload|;
    var b := Frame(payload, srcPort, dstPort) + padding;
    FrameFields(payload, srcPort, dstPort, padding);
    FramePayload(payload, srcPort, dstPort, padding);
    assert b[2..4] == [b[2], b[3]] && b[6..8] == [b[6], b[7]];
    BigEndianRoundTrips(total, 0);
    BigEndianRoundTrips(dstPort, 0);
    BigEndianRoundTrips(8 + |payload|, 0);
    var udp := b[20..total];
    assert udp[2..4] == [b[22], b[23]] && udp[4..6] == [b[24], b[25]] && udp[8..8 + |payload|] == b[28..total];
  }

  /** The bytes `udpPayload` looks at. */
  lemma FrameFields(payload: bytes, srcPort: uint16, dstPort: uint16, padding: bytes)
    requires |payload| <= MAX_PAYLOAD
    ensures var b := Frame(payload, srcPort, dstPort) + padding;
            && b[0] == 0x45 && b[9] == UDP && b[6] == 0 && b[7] == 0
            && [b[2], b[3]] == Be16(28 + |payload|)
            && [b[22], b[23]] == Be16(dstPort) && [b[24], b[25]] == Be16(8 + |payload|)
  {
    FrameIpFields(payload, srcPort, dstPort, padding);
    FrameUdpFields(payload, srcPort, dstPort, padding);
  }

  lemma FrameIpFields(payload: bytes, srcPort: uint16, dstPort: uint16, padding: bytes)
    requires |payload| <= MAX_PAYLOAD
    ensures var b := Frame(payload, srcPort, dstPort) + padding;
            b[0] == 0x45 && b[9] == UDP && b[6] == 0 && b[7] == 0 && [b[2], b[3]] == Be16(28 + |payload|)
  {
    IpHeaderFields(28 + |payload|);
    FrameAt(payload, srcPort, dstPort, 0);
    FrameAt(payload, srcPort, dstPort, 2);
    FrameAt(payload, srcPort, dstPort, 3);
    FrameAt(payload, srcPort, dstPort, 6);
    FrameAt(payload, srcPort, dstPort, 7);
    FrameAt(payload, srcPort, dstPort, 9);
  }

  lemma FrameUdpFields(payload: bytes, srcPort: uint16, dstPort: uint16, padding: bytes)
    requires |payload| <= MAX_PAYLOAD
    ensures var b := Frame(payload, srcPort, dstPort) + padding;
            [b[22], b[23]] == Be16(dstPort) && [b[24], b[25]] == Be16(8 + |payload|)
  {
    SmallWord(8 + |payload|);
    UdpHeaderAt(IpHeader(28 + |payload|), Be16(srcPort), Be16(dstPort), Be16(8 + |payload|), payload, padding);
  }

  lemma SmallWord(n: nat)
    requires n < WORD
    ensures n % WORD == n
  {
  }

  lemma UdpHeaderAt(ip: bytes, src: bytes, dst: bytes, length: bytes, payload: bytes, padding: bytes)
    requires |ip| == 20 && |src| == |dst| == |length| == 2
    ensures var b := ip + src + dst + length + [0, 0] + payload + padding;
            [b[22], b[23]] == dst && [b[24], b[25]] == length
  {
  }

  lemma IpHeaderFields(total: nat)
    requires total < WORD
    ensures var h := IpHeader(total);
            h[0] == 0x45 && h[9] == UDP && h[6] == 0 && h[7] == 0 && h[2] == Be16(total)[0] && h[3] == Be16(total)[1]
  {
    UnsummedFields(total);
    assert forall i | 0 <= i < 10 :: IpHeader(total)[i] == UnsummedIpHeader(total)[i];
  }

  lemma UnsummedFields(total: nat)
    requires total < WORD
    ensures var h := UnsummedIpHeader(total);
            h[0] == 0x45 && h[9] == UDP && h[6] == 0 && h[7] == 0 && h[2] == Be16(total)[0] && h[3] == Be16(total)[1]
  {
  }

  lemma FramePayload(payload: bytes, srcPort: uint16, dstPort: uint16, padding: bytes)
    ensures (Frame(payload, srcPort, dstPort) + padding)[28..28 + |payload|] == payload
  {
    var b := Frame(payload, srcPort, dstPort) + padding;
    forall j: nat | j < |payload| ensures b[28 + j] == payload[j] { FrameAt(payload, srcPort, dstPort, 28 + j); }
  }

  /** ... and for no longer ones: the 16-bit length fields cannot express them. */
  lemma OversizedFrameFails(payload: bytes, srcPort: uint16, dstPort: uint16, padding: bytes)
    requires |payload| > MAX_PAYLOAD
    ensures UdpPayload(Frame(payload, srcPort, dstPort) + padding, dstPort) != Some(payload)
  {
  }

  /** The full wire round trip: message, UDP, IP, link-layer padding and back. */
  lemma MessageRoundTrips(p: Packet, order: seq<byte>, srcPort: uint16, dstPort: uint16, padding: bytes)
    requires Encodable(p, order) && Distinct(order) && |Encode(p, order)| <= MAX_PAYLOAD
    ensures var payload := UdpPayload(Frame(Encode(p, order), srcPort, dstPort) + padding, dstPort);
            payload.Some? && Decode(payload.value) == Ok(Seen(p, order))
  {
    FrameRoundTrips(Encode(p, order), srcPort, dstPort, padding);
    EncodeRoundTrips(p, order, []);
    assert Encode(p, order) + [] == Encode(p, order);
  }
}
