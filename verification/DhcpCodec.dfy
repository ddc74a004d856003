/**
 The DHCP message codec (sections 2 and 4.1 of RFC 2131, sections 2 and 3 of RFC 2132): encoding
 with options in a given order, and decoding with repeated options concatenated.
 */
module DhcpCodec {
  import opened Wrappers
  import opened Bytes

  const OPT_PAD: byte := 0
  const OPT_END: byte := 255
  const OPT_MSG_TYPE: byte := 53

  const COOKIE: bytes := [99, 130, 83, 99]

  const HEADER_SIZE := 240
  const MIN_SIZE := 300

  type Options = map<byte, bytes>

  /** Addresses are absent (nil) or byte strings, as net.IP is. */
  datatype Packet = Packet(
    op: byte, xid: uint32, flags: uint16, ciaddr: Option<bytes>, yiaddr: Option<bytes>, chaddr: bytes, options: Options)

  datatype DecodeError = NotDhcp | BadHardwareLength | TruncatedOption

  datatype Decoded = Ok(packet: Packet) | Err(error: DecodeError)

  /** net.IP.To4. */
  function To4(ip: bytes): (r: Option<bytes>)
    ensures r.Some? ==> |r.value| == 4
  {
    if |ip| == 4 then Some(ip)
    else if |ip| == 16 && ip[..12] == Zeros(10) + [255, 255] then Some(ip[12..])
    else None
  }

  /** An IPv4 address in its 16-byte form is the same address; no other 16 bytes are one. */
  lemma MappedAddress(prefix: bytes, ip: bytes)
    requires |prefix| == 12 && |ip| == 4
    ensures To4(ip) == Some(ip)
    ensures To4(prefix + ip) == if prefix == [0, 0, 0, 0, 0, 0, 0, 0, 0, 0, 255, 255] then Some(ip) else None
  {
    assert (prefix + ip)[..12] == prefix && (prefix + ip)[12..] == ip;
    assert Zeros(10) == [0, 0, 0, 0, 0, 0, 0, 0, 0, 0];
  }

  /** The four bytes an address field ends up with. */
  function AddressField(ip: Option<bytes>): (r: bytes)
    ensures |r| == 4
  {
    if ip.Some? && To4(ip.value).Some? then To4(ip.value).value else Zeros(4)
  }

  // ---- what the wire format is ----

  function Header(p: Packet): (r: bytes)
    ensures |r| == HEADER_SIZE
  {
    [p.op, 1, |p.chaddr| % 256, 0] + Be32(p.xid) + [0, 0] + Be16(p.flags)
    + AddressField(p.ciaddr) + AddressField(p.yiaddr) + Zeros(8) + Fit(p.chaddr, 16) + Zeros(192) + COOKIE
  }

  /** The options area as a list of its elements. */
  datatype Item = Pad | Opt(code: byte, value: bytes)

  predicate ValidItem(it: Item) {
    it.Opt? ==> it.code != 0 && it.code != 255 && |it.value| <= 255
  }

  predicate ValidItems(items: seq<Item>) {
    forall it | it in items :: ValidItem(it)
  }

  function ItemWire(it: Item): (r: bytes)
    requires ValidItem(it)
    ensures |r| > 0
  {
    match it
    case Pad => [0]
    case Opt(code, value) => [code, |value|] + value
  }

  function Wire(items: seq<Item>): (r: bytes)
    requires ValidItems(items)
  {
    if items == [] then [] else ItemWire(items[0]) + Wire(items[1..])
  }

  /** What the options area says about one code: the concatenation of its values, in order. */
  function ValueOf(items: seq<Item>, code: byte): (v: Option<bytes>) {
    if items == [] then None
    else
      var rest := ValueOf(items[1..], code);
      if items[0].Opt? && items[0].code == code
      then Some(items[0].value + if rest.Some? then rest.value else [])
      else rest
  }

  function PerCode(items: seq<Item>): (m: Options) {
    map c: byte | c in CodesOf(items) :: ValueOf(items, c).value
  }

  function CodesOf(items: seq<Item>): (s: set<byte>)
    ensures forall c: byte :: c in s <==> ValueOf(items, c).Some?
  {
    if items == [] then {}
    else (if items[0].Opt? then {items[0].code} else {}) + CodesOf(items[1..])
  }

  /** Bytes at which reading of options stops: nothing, or an End option followed by anything. */
  predicate Stops(tail: bytes) {
    tail == [] || tail[0] == 255
  }

  /** An option whose length byte or value is missing. */
  predicate CutShort(tail: bytes) {
    |tail| > 0 && tail[0] != 0 && tail[0] != 255 && (|tail| == 1 || |tail| < 2 + tail[1] as int)
  }

  // ---- decoding ----

  function Appended(opts: Options, code: byte, v: bytes): (r: Options) {
    opts[code := (if code in opts then opts[code] else []) + v]
  }

  /** The option loop of `decode`, from the start of `b` on. */
  function Scan(b: bytes, opts: Options): (r: Option<Options>)
    decreases |b|
  {
    if b == [] || b[0] == OPT_END then Some(opts)
    else if b[0] == OPT_PAD then Scan(b[1..], opts)
    else if |b| == 1 || |b| < 2 + b[1] as int then None
    else Scan(b[2 + b[1] as int..], Appended(opts, b[0], b[2..2 + b[1] as int]))
  }

  /** A header that `decode` accepts. */
  predicate GoodHeader(h: bytes) {
    |h| == 240 && h[236..240] == [99, 130, 83, 99] && h[2] <= 16
  }

  /** What `decode` makes of a good header and a set of options. */
  function FromHeader(h: bytes, opts: Options): (p: Packet)
    requires GoodHeader(h)
  {
    Packet(h[0], FromBe32(h[4..8]), FromBe16(h[10..12]), Some(h[12..16]), Some(h[16..20]), h[28..28 + h[2] as int], opts)
  }

  function Decode(b: bytes): (r: Decoded) {
    if |b| < HEADER_SIZE || b[..HEADER_SIZE][236..240] != COOKIE then Err(NotDhcp)
    else if b[2] > 16 then Err(BadHardwareLength)
    else
      var opts := Scan(b[HEADER_SIZE..], map[]);
      if opts.None? then Err(TruncatedOption)
      else Ok(FromHeader(b[..HEADER_SIZE], opts.value))
  }

  /** `decode`. Every index it reads is in range for every input. */
  method DecodeLoop(b: bytes) returns (r: Decoded)
    ensures r == Decode(b)
  {
    if |b| < 240 { return Err(NotDhcp); }
    ghost var h := b[..HEADER_SIZE];
    assert h[236..240] == b[236..240] && h[4..8] == b[4..8] && h[10..12] == b[10..12] && h[12..16] == b[12..16];
    if b[236..240] != COOKIE { return Err(NotDhcp); }
    var hlen := b[2];
    if hlen > 16 { return Err(BadHardwareLength); }
    var options: Options := map[];
    var i := 240;
    while i < |b|
      invariant 240 <= i <= |b|
      invariant Scan(b[i..], options) == Scan(b[240..], map[])
    {
      var code: byte := b[i];
      if code == OPT_END { break; }
      if code == OPT_PAD {
        assert b[i..][1..] == b[i + 1..];
        i := i + 1;
        continue;
      }
      if i + 1 >= |b| || i + 2 + b[i + 1] > |b| { return Err(TruncatedOption); }
      var n := b[i + 1];
      assert b[i..][2..2 + n] == b[i + 2..i + 2 + n] && b[i..][2 + n..] == b[i + 2 + n..];
      options := Appended(options, code, b[i + 2..i + 2 + n]);
      i := i + 2 + n;
    }
    assert h[16..20] == b[16..20] && h[28..28 + hlen] == b[28..28 + hlen];
    r := Ok(Packet(b[0], FromBe32(b[4..8]), FromBe16(b[10..12]), Some(b[12..16]), Some(b[16..20]),
                   b[28..28 + hlen], options));
  }

  // ---- encoding ----

  /** The options of `p` in the given order, skipping those it does not have. */
  function Ordered(opts: Options, order: seq<byte>): (items: seq<Item>) {
    if order == [] then []
    else (if order[0] in opts then [Opt(order[0], opts[order[0]])] else []) + Ordered(opts, order[1..])
  }

  function OptionBytes(opts: Options, order: seq<byte>): (r: bytes) {
    if order == [] then []
    else (if order[0] in opts then [order[0], |opts[order[0]]| % 256] + opts[order[0]] else [])
         + OptionBytes(opts, order[1..])
  }

  function Encode(p: Packet, order: seq<byte>): (r: bytes)
    ensures |r| >= 300 && (|r| > 300 ==> r[|r| - 1] == 255)
  {
    var b := Header(p) + OptionBytes(p.options, order) + [OPT_END];
    if |b| >= MIN_SIZE then b else b + Zeros(MIN_SIZE - |b|)
  }

  /** `encode`: fixed fields written into a zeroed buffer, then options appended in order. */
  method EncodeLoop(p: Packet, order: seq<byte>) returns (r: bytes)
    ensures r == Encode(p, order)
  {
    var b: bytes := EncodeHeader(p);
    for k := 0 to |order|
      invariant b + OptionBytes(p.options, order[k..]) == Header(p) + OptionBytes(p.options, order)
    {
      var code: byte := order[k];
      assert order[k..][1..] == order[k + 1..];
      if code in p.options {
        var v := p.options[code];
        b := b + [code, |v| % 256];
        b := b + v;
      }
    }
    assert order[|order|..] == [];
    b := b + [OPT_END];
    ghost var unpadded := b;
    while |b| < MIN_SIZE
      invariant |unpadded| <= |b| && (|unpadded| >= MIN_SIZE ==> b == unpadded)
      invariant |b| <= MIN_SIZE || b == unpadded
      invariant b == unpadded + Zeros(|b| - |unpadded|)
    {
      b := b + [OPT_PAD];
    }
    r := b;
  }

  /** Where each header field lies. */
  function HeaderByte(p: Packet, j: nat): (b: byte)
    requires j < HEADER_SIZE
  {
    if j == 0 then p.op
    else if j == 1 then 1
    else if j == 2 then |p.chaddr| % 256
    else if 4 <= j < 8 then Be32(p.xid)[j - 4]
    else if 10 <= j < 12 then Be16(p.flags)[j - 10]
    else if 12 <= j < 16 then AddressField(p.ciaddr)[j - 12]
    else if 16 <= j < 20 then AddressField(p.yiaddr)[j - 16]
    else if 28 <= j < 44 then Fit(p.chaddr, 16)[j - 28]
    else if 236 <= j then COOKIE[j - 236]
    else 0
  }

  lemma HeaderAt(p: Packet, j: nat)
    requires j < HEADER_SIZE
    ensures Header(p)[j] == HeaderByte(p, j)
  {
    var front: bytes := [p.op, 1, |p.chaddr| % 256, 0] + Be32(p.xid) + [0, 0] + Be16(p.flags);
    var middle := front + AddressField(p.ciaddr) + AddressField(p.yiaddr) + Zeros(8);
    assert |front| == 12 && |middle| == 28;
    assert Header(p) == middle + Fit(p.chaddr, 16) + Zeros(192) + COOKIE;
    if j < 12 { assert Header(p)[j] == front[j]; }
    else if j < 28 { assert Header(p)[j] == middle[j]; }
  }

  /** The 240 fixed bytes, filled in place. */
  method EncodeHeader(p: Packet) returns (r: bytes)
    ensures r == Header(p)
  {
    var b := new byte[240](_ => 0);
    b[0], b[1], b[2] := p.op, 1, |p.chaddr| % 256;
    PutAt(b, 4, Be32(p.xid));
    PutAt(b, 10, Be16(p.flags));
    if p.ciaddr.Some? && To4(p.ciaddr.value).Some? { PutAt(b, 12, To4(p.ciaddr.value).value); }
    if p.yiaddr.Some? && To4(p.yiaddr.value).Some? { PutAt(b, 16, To4(p.yiaddr.value).value); }
    PutAt(b, 28, if |p.chaddr| <= 16 then p.chaddr else p.chaddr[..16]);
    PutAt(b, 236, COOKIE);
    r := b[..];
    forall j | 0 <= j < 240 ensures r[j] == Header(p)[j] { HeaderAt(p, j); }
  }

  method PutAt(b: array<byte>, at: nat, v: bytes)
    requires at + |v| <= b.Length
    modifies b
    ensures forall j | 0 <= j < b.Length :: b[j] == if at <= j < at + |v| then v[j - at] else old(b[j])
  {
    for i := 0 to |v|
      invariant forall j | 0 <= j < b.Length :: b[j] == if at <= j < at + i then v[j - at] else old(b[j])
    {
      b[at + i] := v[i];
    }
  }

  // ---- decoding inverts the wire format ----

  lemma ScanItem(it: Item, rest: bytes, opts: Options)
    requires ValidItem(it)
    ensures Scan(ItemWire(it) + rest, opts) == Scan(rest, if it.Opt? then Appended(opts, it.code, it.value) else opts)
  {
    var b := ItemWire(it) + rest;
    match it {
      case Pad => assert b[1..] == rest;
      case Opt(code, value) =>
        assert b[0] == code && b[1] == |value| && b[2..2 + |value|] == value && b[2 + |value|..] == rest;
    }
  }

  /** The options a scan collects on top of `opts`. */
  function Collected(items: seq<Item>, opts: Options): (r: Options) {
    if items == [] then opts
    else Collected(items[1..], if items[0].Opt? then Appended(opts, items[0].code, items[0].value) else opts)
  }

  lemma {:induction false} ScanWire(items: seq<Item>, tail: bytes, opts: Options)
    requires ValidItems(items)
    ensures Scan(Wire(items) + tail, opts) == Scan(tail, Collected(items, opts))
    decreases |items|
  {
    if items == [] {
      assert Wire(items) + tail == tail;
    } else {
      assert items[0] in items && ValidItems(items[1..]);
      assert Wire(items) + tail == ItemWire(items[0]) + (Wire(items[1..]) + tail);
      ScanItem(items[0], Wire(items[1..]) + tail, opts);
      ScanWire(items[1..], tail, if items[0].Opt? then Appended(opts, items[0].code, items[0].value) else opts);
    }
  }

  /** Collecting is per-code concatenation. */
  lemma {:induction false} CollectedAt(items: seq<Item>, opts: Options, c: byte)
    ensures c in Collected(items, opts) <==> c in opts || ValueOf(items, c).Some?
    ensures c in Collected(items, opts) ==>
              Collected(items, opts)[c] == (if c in opts then opts[c] else [])
                                           + (if ValueOf(items, c).Some? then ValueOf(items, c).value else [])
    decreases |items|
  {
    if items == [] {
    } else {
      CollectedAt(items[1..], if items[0].Opt? then Appended(opts, items[0].code, items[0].value) else opts, c);
    }
  }

  lemma CollectedIsPerCode(items: seq<Item>)
    ensures Collected(items, map[]) == PerCode(items)
  {
    forall c: byte ensures c in Collected(items, map[]) <==> c in PerCode(items) { CollectedAt(items, map[], c); }
    forall c: byte | c in PerCode(items) ensures Collected(items, map[])[c] == PerCode(items)[c] {
      CollectedAt(items, map[], c);
    }
  }

  /** Decoding any well-formed message gives the per-code concatenation of its options; whatever follows the
      End option, or nothing at all, makes no difference. */
  lemma DecodeWire(h: bytes, items: seq<Item>, tail: bytes)
    requires GoodHeader(h) && ValidItems(items) && Stops(tail)
    ensures Decode(h + Wire(items) + tail) == Ok(FromHeader(h, PerCode(items)))
  {
    assert h + Wire(items) + tail == h + (Wire(items) + tail);
    DecodeSplit(h, Wire(items) + tail);
    ScanWire(items, tail, map[]);
    CollectedIsPerCode(items);
  }

  lemma DecodeSplit(h: bytes, rest: bytes)
    requires GoodHeader(h)
    ensures Decode(h + rest) ==
            if Scan(rest, map[]).None? then Err(TruncatedOption) else Ok(FromHeader(h, Scan(rest, map[]).value))
  {
    assert (h + rest)[..HEADER_SIZE] == h && (h + rest)[HEADER_SIZE..] == rest;
  }

  /** Every byte string splits, in exactly one of two ways, into option elements followed by bytes at which
      reading stops or breaks off. */
  lemma {:induction false} Parse(b: bytes) returns (items: seq<Item>, tail: bytes)
    ensures ValidItems(items) && b == Wire(items) + tail && (Stops(tail) || CutShort(tail))
    decreases |b|
  {
    if Stops(b) || CutShort(b) {
      items, tail := [], b;
    } else {
      var it := if b[0] == OPT_PAD then Pad else Opt(b[0], b[2..2 + b[1] as int]);
      var rest := b[|ItemWire(it)|..];
      assert b == ItemWire(it) + rest;
      var more;
      more, tail := Parse(rest);
      items := [it] + more;
      assert items[1..] == more;
      assert Wire(items) + tail == ItemWire(it) + (Wire(more) + tail);
    }
  }

  lemma HeaderErrors(b: bytes)
    ensures Decode(b) == Err(NotDhcp) <==> |b| < 240 || b[236..240] != [99, 130, 83, 99]
    ensures Decode(b) == Err(BadHardwareLength) <==> |b| >= 240 && b[236..240] == [99, 130, 83, 99] && b[2] > 16
  {
    if |b| >= HEADER_SIZE { assert b[..HEADER_SIZE][236..240] == b[236..240]; }
  }

  /** `decode` accepts exactly the messages with a good header whose options do not break off, and the error
      says which of the three conditions failed. */
  lemma DecodeAccepts(b: bytes) returns (items: seq<Item>, tail: bytes)
    ensures |b| >= HEADER_SIZE ==> ValidItems(items) && b[HEADER_SIZE..] == Wire(items) + tail && (Stops(tail) || CutShort(tail))
    ensures Decode(b).Ok? <==> |b| >= HEADER_SIZE && GoodHeader(b[..HEADER_SIZE]) && Stops(tail)
    ensures Decode(b).Ok? ==> Decode(b).packet == FromHeader(b[..HEADER_SIZE], PerCode(items))
    ensures Decode(b) == Err(TruncatedOption) <==>
            |b| >= HEADER_SIZE && GoodHeader(b[..HEADER_SIZE]) && CutShort(tail)
    ensures Decode(b) == Err(NotDhcp) <==> |b| < 240 || b[236..240] != [99, 130, 83, 99]
    ensures Decode(b) == Err(BadHardwareLength) <==> |b| >= 240 && b[236..240] == [99, 130, 83, 99] && b[2] > 16
  {
    items, tail := [], [];
    HeaderErrors(b);
    if |b| >= HEADER_SIZE {
      var h := b[..HEADER_SIZE];
      items, tail := Parse(b[HEADER_SIZE..]);
      ScanWire(items, tail, map[]);
      if GoodHeader(h) && Stops(tail) {
        DecodeWire(h, items, tail);
        assert b == h + Wire(items) + tail;
      }
    }
  }

  // ---- only the per-code concatenation matters ----

  /** Two messages with the same header and the same value for every code decode alike, whatever their
      padding, their splitting and order of options, and the bytes after End. */
  lemma DecodeDependsOnValues(h: bytes, xs: seq<Item>, xTail: bytes, ys: seq<Item>, yTail: bytes)
    requires GoodHeader(h) && ValidItems(xs) && ValidItems(ys) && Stops(xTail) && Stops(yTail)
    requires forall c: byte :: ValueOf(xs, c) == ValueOf(ys, c)
    ensures Decode(h + Wire(xs) + xTail) == Decode(h + Wire(ys) + yTail)
  {
    DecodeWire(h, xs, xTail);
    DecodeWire(h, ys, yTail);
    assert CodesOf(xs) == CodesOf(ys);
    assert PerCode(xs) == PerCode(ys);
  }

  function Joined(u: Option<bytes>, v: Option<bytes>): (r: Option<bytes>) {
    if u.None? then v else if v.None? then u else Some(u.value + v.value)
  }

  lemma {:induction false} ValueOfConcat(xs: seq<Item>, ys: seq<Item>, c: byte)
    ensures ValueOf(xs + ys, c) == Joined(ValueOf(xs, c), ValueOf(ys, c))
    decreases |xs|
  {
    if xs == [] {
      assert xs + ys == ys;
    } else {
      assert (xs + ys)[0] == xs[0] && (xs + ys)[1..] == xs[1..] + ys;
      ValueOfConcat(xs[1..], ys, c);
      var u, v := ValueOf(xs[1..], c), ValueOf(ys, c);
      if xs[0].Opt? && u.Some? && v.Some? { assert xs[0].value + (u.value + v.value) == xs[0].value + u.value + v.value; }
      if xs[0].Opt? && u.None? && v.Some? { assert xs[0].value + v.value == xs[0].value + [] + v.value; }
      if xs[0].Opt? && v.None? { assert xs[0].value + [] == xs[0].value; }
    }
  }

  lemma ValueInContext(before: seq<Item>, xs: seq<Item>, ys: seq<Item>, after: seq<Item>, c: byte)
    requires ValueOf(xs, c) == ValueOf(ys, c)
    ensures ValueOf(before + xs + after, c) == ValueOf(before + ys + after, c)
  {
    ValueOfConcat(before + xs, after, c);
    ValueOfConcat(before + ys, after, c);
    ValueOfConcat(before, xs, c);
    ValueOfConcat(before, ys, c);
  }

  /** Splitting one option into two instances, anywhere in a message, changes nothing. */
  lemma SplitIsHarmless(h: bytes, before: seq<Item>, code: byte, u: bytes, v: bytes, after: seq<Item>, tail: bytes)
    requires GoodHeader(h) && ValidItems(before) && ValidItems(after) && Stops(tail)
    requires ValidItem(Opt(code, u + v))
    ensures Decode(h + Wire(before + [Opt(code, u + v)] + after) + tail)
            == Decode(h + Wire(before + [Opt(code, u), Opt(code, v)] + after) + tail)
  {
    var xs: seq<Item>, ys: seq<Item> := [Opt(code, u + v)], [Opt(code, u), Opt(code, v)];
    forall c: byte ensures ValueOf(before + xs + after, c) == ValueOf(before + ys + after, c) {
      var y1: Item, y2: Item := Opt(code, u), Opt(code, v);
      assert ys == [y1] + [y2];
      ValueOfConcat([y1], [y2], c);
      assert u + [] == u && v + [] == v && u + v + [] == u + v;
      assert ValueOf(xs, c) == ValueOf(ys, c);
      ValueInContext(before, xs, ys, after, c);
    }
    DecodeDependsOnValues(h, before + xs + after, tail, before + ys + after, tail);
  }

  /** Pads between options change nothing. */
  lemma PadIsHarmless(h: bytes, before: seq<Item>, after: seq<Item>, tail: bytes)
    requires GoodHeader(h) && ValidItems(before) && ValidItems(after) && Stops(tail)
    ensures Decode(h + Wire(before + [Pad] + after) + tail) == Decode(h + Wire(before + [] + after) + tail)
  {
    forall c: byte ensures ValueOf(before + [Pad] + after, c) == ValueOf(before + [] + after, c) {
      assert ValueOf([Pad], c) == ValueOf([], c);
      ValueInContext(before, [Pad], [], after, c);
    }
    DecodeDependsOnValues(h, before + [Pad] + after, tail, before + [] + after, tail);
  }

  /** Exchanging neighbouring options of different codes changes nothing. */
  lemma ReorderIsHarmless(h: bytes, before: seq<Item>, x: Item, y: Item, after: seq<Item>, tail: bytes)
    requires GoodHeader(h) && ValidItems(before) && ValidItems(after) && ValidItem(x) && ValidItem(y) && Stops(tail)
    requires x.Opt? && y.Opt? ==> x.code != y.code
    ensures Decode(h + Wire(before + [x, y] + after) + tail) == Decode(h + Wire(before + [y, x] + after) + tail)
  {
    forall c: byte ensures ValueOf(before + [x, y] + after, c) == ValueOf(before + [y, x] + after, c) {
      assert [x, y][1..] == [y] && [y, x][1..] == [x];
      assert ValueOf([x, y], c) == ValueOf([y, x], c);
      ValueInContext(before, [x, y], [y, x], after, c);
    }
    DecodeDependsOnValues(h, before + [x, y] + after, tail, before + [y, x] + after, tail);
  }

  // ---- the round trip ----

  /** What encode can represent: hardware addresses of at most 16 bytes, option values of at most 255, and no
      option coded as Pad or End. */
  predicate Encodable(p: Packet, order: seq<byte>) {
    && |p.chaddr| <= 16
    && (forall c | c in order && c in p.options :: c != 0 && c != 255 && |p.options[c]| <= 255)
  }

  predicate Distinct(order: seq<byte>) {
    forall i, j | 0 <= i < j < |order| :: order[i] != order[j]
  }

  /** What a receiver gets to see of `p`: addresses as four bytes, and the options that were ordered in. */
  function Seen(p: Packet, order: seq<byte>): (r: Packet) {
    p.(ciaddr := Some(AddressField(p.ciaddr)), yiaddr := Some(AddressField(p.yiaddr)),
       options := map c | c in p.options && c in order :: p.options[c])
  }

  lemma {:induction false} OrderedIsValid(p: Packet, order: seq<byte>)
    requires Encodable(p, order)
    ensures ValidItems(Ordered(p.options, order)) && OptionBytes(p.options, order) == Wire(Ordered(p.options, order))
    decreases |order|
  {
    if order == [] {
    } else {
      OrderedIsValid(p, order[1..]);
      var rest := Ordered(p.options, order[1..]);
      if order[0] in p.options {
        var it := Opt(order[0], p.options[order[0]]);
        assert order[0] in order && ValidItem(it);
        assert Ordered(p.options, order) == [it] + rest && ([it] + rest)[1..] == rest;
      } else {
        assert Ordered(p.options, order) == rest;
      }
    }
  }

  lemma {:induction false} OrderedValue(opts: Options, order: seq<byte>, c: byte)
    requires Distinct(order)
    ensures ValueOf(Ordered(opts, order), c) == if c in opts && c in order then Some(opts[c]) else None
    decreases |order|
  {
    if order == [] {
    } else {
      OrderedValue(opts, order[1..], c);
      var rest := Ordered(opts, order[1..]);
      if order[0] in opts {
        var it := Opt(order[0], opts[order[0]]);
        assert Ordered(opts, order) == [it] + rest && ([it] + rest)[1..] == rest;
        assert it.value + [] == it.value;
      } else {
        assert Ordered(opts, order) == rest;
      }
    }
  }

  /** The header fields come back. */
  lemma HeaderFields(p: Packet)
    requires |p.chaddr| <= 16
    ensures GoodHeader(Header(p))
    ensures FromHeader(Header(p), p.options) ==
            p.(ciaddr := Some(AddressField(p.ciaddr)), yiaddr := Some(AddressField(p.yiaddr)))
  {
    var h := Header(p);
    forall j: nat | j < HEADER_SIZE ensures h[j] == HeaderByte(p, j) { HeaderAt(p, j); }
    BigEndianRoundTrips(p.flags, p.xid);
    assert h[236..240] == COOKIE && h[2] == |p.chaddr|;
    assert h[4..8] == Be32(p.xid) && h[10..12] == Be16(p.flags);
    assert h[12..16] == AddressField(p.ciaddr) && h[16..20] == AddressField(p.yiaddr);
    assert h[28..28 + |p.chaddr|] == p.chaddr by {
      assert forall k | 0 <= k < |p.chaddr| :: h[28 + k] == p.chaddr[k];
    }
  }

  /** decode inverts encode, padding to 300 bytes included, and bytes appended to the message do not matter. */
  lemma EncodeRoundTrips(p: Packet, order: seq<byte>, extra: bytes)
    requires Encodable(p, order) && Distinct(order)
    ensures Decode(Encode(p, order) + extra) == Ok(Seen(p, order))
  {
    var items := Ordered(p.options, order);
    OrderedIsValid(p, order);
    HeaderFields(p);
    var unpadded := Header(p) + Wire(items) + [OPT_END];
    var tail := Encode(p, order)[|Header(p) + Wire(items)|..] + extra;
    assert Encode(p, order) + extra == Header(p) + Wire(items) + tail;
    assert tail[0] == OPT_END;
    DecodeWire(Header(p), items, tail);
    forall c: byte ensures c in PerCode(items) <==> c in Seen(p, order).options { OrderedValue(p.options, order, c); }
    forall c: byte | c in PerCode(items) ensures PerCode(items)[c] == Seen(p, order).options[c] {
      OrderedValue(p.options, order, c);
    }
    assert PerCode(items) == Seen(p, order).options;
  }
}
