/**
 The string handling of the UI client: escaping the PIN into a JSON body over fixed buffers, and
 reading a JSON string back.
 */
module JsonText {
  import opened Wrappers
  import opened Bytes

  const QUOTE: byte := 34
  const BACKSLASH: byte := 92

  const ESCAPED_SIZE := 512
  const BODY_SIZE := 768
  const REQUEST_SIZE := 1024

  predicate NeedsEscape(c: byte) {
    c == QUOTE || c == BACKSLASH
  }

  function Escaped(s: bytes): (r: bytes)
    ensures |s| <= |r| <= 2 * |s|
  {
    if s == [] then []
    else (if NeedsEscape(s[0]) then [BACKSLASH, s[0]] else [s[0]]) + Escaped(s[1..])
  }

  lemma {:induction false} EscapedConcat(s: bytes, t: bytes)
    ensures Escaped(s + t) == Escaped(s) + Escaped(t)
    decreases |s|
  {
    if s == [] {
      assert s + t == t;
    } else {
      assert (s + t)[0] == s[0] && (s + t)[1..] == s[1..] + t;
      EscapedConcat(s[1..], t);
    }
  }

  predicate PinAccepted(pin: bytes) {
    4 <= |pin| <= 256 && forall c | c in pin :: c >= 0x20
  }

  predicate ConfirmAccepted(confirm: bytes) {
    1 <= |confirm| <= 64 && forall c | c in confirm :: 0x20 <= c <= 0x7e && !NeedsEscape(c)
  }

  lemma EscapedGrows(pin: bytes, k: nat)
    requires k < |pin|
    ensures Escaped(pin[..k + 1]) == Escaped(pin[..k]) + if NeedsEscape(pin[k]) then [BACKSLASH, pin[k]] else [pin[k]]
  {
    assert pin[..k + 1] == pin[..k] + [pin[k]];
    EscapedConcat(pin[..k], [pin[k]]);
  }

  /** The escaping loop of `unlockBootloader` over its 512-byte buffer. Its overflow checks never fire: it refuses
      exactly the PINs of the wrong length or with control bytes. */
  method EscapePin(pin: bytes) returns (r: Option<bytes>)
    ensures r.Some? <==> PinAccepted(pin)
    ensures r.Some? ==> r.value == Escaped(pin) && |r.value| <= ESCAPED_SIZE
  {
    if |pin| < 4 || |pin| > 256 { return None; }
    var buf := new byte[512](_ => 0);
    var len := 0;
    for k := 0 to |pin|
      invariant forall j | 0 <= j < k :: pin[j] >= 0x20
      invariant 0 <= len <= 2 * k <= buf.Length == 512 && len <= buf.Length && buf[..len] == Escaped(pin[..k])
    {
      var ch: byte := pin[k];
      EscapedGrows(pin, k);
      if ch < 0x20 {
        assert pin[k] in pin;
        return None;
      }
      ghost var before := buf[..len];
      if ch == QUOTE || ch == BACKSLASH {
        if len + 2 > buf.Length { assert false; }
        buf[len] := BACKSLASH;
        len := len + 1;
      } else if len + 1 > buf.Length { assert false; }
      buf[len] := ch;
      len := len + 1;
      assert buf[..len] == before + if NeedsEscape(ch) then [BACKSLASH, ch] else [ch];
    }
    assert pin[..|pin|] == pin;
    r := Some(buf[..len]);
  }

  // ---- the request text ----

  function ByteOf(c: char): (b: byte) {
    c as int % 256
  }

  function Ascii(s: string): (r: bytes)
    ensures |r| == |s|
  {
    seq(|s|, i requires 0 <= i < |s| => ByteOf(s[i]))
  }

  /** A number in decimal. */
  function Decimal(n: nat): (s: bytes)
    ensures |s| >= 1
  {
    if n < 10 then [48 + n] else Decimal(n / 10) + [48 + n % 10]
  }

  function Body(confirm: bytes, escaped: bytes): (r: bytes)
    ensures |r| == 23 + |confirm| + |escaped|
  {
    Ascii("{\"confirm\":\"") + confirm + Ascii("\",\"pin\":\"") + escaped + Ascii("\"}")
  }

  const FIXED_HEADERS := "Host: recovery\r\nContent-Type: application/json"

  function HttpRequest(verb: string, path: string, body: bytes): (r: bytes)
  {
    Ascii(verb + " " + path + (" HTTP/1.0\r\n" + FIXED_HEADERS + "\r\nContent-Length: ")) + Decimal(|body|) + Ascii("\r\n\r\n") + body
  }

  const UNLOCK_VERB := "POST"
  const UNLOCK_PATH := "/unlock-bootloader"

  /** What `unlockBootloader` writes to the socket, or None where it gives up before connecting. */
  method UnlockRequest(confirm: bytes, pin: bytes) returns (r: Option<bytes>)
    ensures r.Some? <==> ConfirmAccepted(confirm) && PinAccepted(pin)
    ensures r.Some? ==> |r.value| <= REQUEST_SIZE
    ensures r.Some? ==> exists body, digits ::
                          && IsRequest(r.value, "POST", "/unlock-bootloader", FIXED_HEADERS, digits, body)
                          && ReadObject(body) == Some(map[CONFIRM_KEY := confirm, PIN_KEY := pin])
  {
    if |confirm| == 0 || |confirm| > 64 { return None; }
    for k := 0 to |confirm|
      invariant forall c | c in confirm[..k] :: 0x20 <= c <= 0x7e && !NeedsEscape(c)
    {
      var ch: byte := confirm[k];
      assert confirm[k] in confirm && confirm[..k + 1] == confirm[..k] + [ch];
      if ch < 0x20 || ch > 0x7e || ch == QUOTE || ch == BACKSLASH { return None; }
    }
    assert confirm[..|confirm|] == confirm;
    var escaped := EscapePin(pin);
    if escaped.None? { return None; }
    var body := Body(confirm, escaped.value);
    SizesFit(confirm, escaped.value);
    RequestIsRead(UNLOCK_VERB, UNLOCK_PATH, body);
    BodyIsRead(confirm, pin);
    r := Some(HttpRequest(UNLOCK_VERB, UNLOCK_PATH, body));
  }

  lemma DecimalSize(n: nat)
    requires n < 1000
    ensures |Decimal(n)| <= 3
  {
    if n >= 10 {
      assert |Decimal(n)| == |Decimal(n / 10)| + 1;
      if n >= 100 { assert |Decimal(n / 10)| == |Decimal(n / 10 / 10)| + 1 && n / 10 / 10 < 10; }
    }
  }

  /** For all accepted lengths, the body fits its 768 bytes and the request its 1024, so no formatting step can
      fail. */
  lemma SizesFit(confirm: bytes, escaped: bytes)
    requires |confirm| <= 64 && |escaped| <= ESCAPED_SIZE
    ensures |Body(confirm, escaped)| <= BODY_SIZE
    ensures |HttpRequest(UNLOCK_VERB, UNLOCK_PATH, Body(confirm, escaped))| <= REQUEST_SIZE
  {
    DecimalSize(|Body(confirm, escaped)|);
  }

  // ---- what a server reads ----

  predicate AreDigits(s: bytes) {
    s != [] && (forall c | c in s :: 48 <= c <= 57) && (|s| > 1 ==> s[0] != 48)
  }

  function ValueOf(s: bytes): (n: int) {
    if s == [] then 0 else ValueOf(s[..|s| - 1]) * 10 + (s[|s| - 1] as int - 48)
  }

  /** `r` is an HTTP/1.0 request whose last header is a Content-Length, written as `digits`, that is the length of its
      body. */
  predicate IsRequest(r: bytes, verb: string, path: string, headers: string, digits: bytes, body: bytes) {
    && AreDigits(digits) && ValueOf(digits) == |body|
    && r == Ascii(verb + " " + path + (" HTTP/1.0\r\n" + headers + "\r\nContent-Length: ")) + digits + [13, 10, 13, 10] + body
  }

  lemma {:induction false} DecimalReads(n: nat)
    ensures AreDigits(Decimal(n)) && ValueOf(Decimal(n)) == n
    ensures n > 0 ==> Decimal(n)[0] != 48
    decreases n
  {
    if n < 10 {
      assert Decimal(n)[..0] == [];
    } else {
      DecimalReads(n / 10);
      var d := Decimal(n);
      assert d[..|d| - 1] == Decimal(n / 10);
    }
  }

  lemma RequestIsRead(verb: string, path: string, body: bytes)
    ensures IsRequest(HttpRequest(verb, path, body), verb, path, FIXED_HEADERS, Decimal(|body|), body)
  {
    DecimalReads(|body|);
    BlankLine();
  }

  lemma BlankLine()
    ensures Ascii("\r\n\r\n") == [13, 10, 13, 10]
  {
  }

  /** The string at the start of `v`, after its opening quote, and what follows its closing quote. */
  function ReadChars(v: bytes): (r: Option<(bytes, bytes)>)
    ensures r.Some? ==> |r.value.1| < |v|
  {
    if v == [] || v[0] < 0x20 then None
    else if v[0] == 34 then Some(([], v[1..]))
    else if v[0] == 92 then
      if |v| < 2 || (v[1] != 34 && v[1] != 92) then None
      else
        var rest := ReadChars(v[2..]);
        if rest.None? then None else Some(([v[1]] + rest.value.0, rest.value.1))
    else
      var rest := ReadChars(v[1..]);
      if rest.None? then None else Some(([v[0]] + rest.value.0, rest.value.1))
  }

  function ReadQuoted(v: bytes): (r: Option<(bytes, bytes)>)
    ensures r.Some? ==> |r.value.1| < |v|
  {
    if v == [] || v[0] != 34 then None else ReadChars(v[1..])
  }

  /** The members of a JSON object whose values are strings, from its first key on, to the end of the text. */
  function ReadMembers(v: bytes): (m: Option<map<bytes, bytes>>)
    decreases |v|
  {
    var key := ReadQuoted(v);
    if key.None? || key.value.1 == [] || key.value.1[0] != 58 then None
    else
      var value := ReadQuoted(key.value.1[1..]);
      if value.None? || value.value.1 == [] then None
      else if value.value.1 == [125] then Some(map[key.value.0 := value.value.0])
      else if value.value.1[0] != 44 then None
      else
        var more := ReadMembers(value.value.1[1..]);
        if more.None? || key.value.0 in more.value then None else Some(more.value[key.value.0 := value.value.0])
  }

  function ReadObject(b: bytes): (m: Option<map<bytes, bytes>>) {
    if b == [] || b[0] != 123 then None else ReadMembers(b[1..])
  }

  predicate Printable(s: bytes) {
    forall i | 0 <= i < |s| :: s[i] >= 0x20
  }

  lemma ReadOne(c: byte, v: bytes)
    requires c >= 0x20
    ensures ReadChars((if NeedsEscape(c) then [92, c] else [c]) + v) ==
            var rest := ReadChars(v);
            if rest.None? then None else Some(([c] + rest.value.0, rest.value.1))
  {
    assert ([92, c] + v)[2..] == v && ([c] + v)[1..] == v;
  }

  /** An escaped text between quotes reads as that text. */
  lemma {:induction false} EscapedIsRead(s: bytes, rest: bytes)
    requires Printable(s)
    ensures ReadChars(Escaped(s) + ([34] + rest)) == Some((s, rest))
    decreases |s|
  {
    if s == [] {
      var v := Escaped(s) + ([34] + rest);
      assert v == [34] + rest && v[1..] == rest;
    } else {
      EscapedIsRead(s[1..], rest);
      ReadOne(s[0], Escaped(s[1..]) + ([34] + rest));
      EscapedCons(s, [34] + rest);
      assert s == [s[0]] + s[1..];
    }
  }

  lemma EscapedCons(s: bytes, rest: bytes)
    requires s != []
    ensures Escaped(s) + rest == (if NeedsEscape(s[0]) then [92, s[0]] else [s[0]]) + (Escaped(s[1..]) + rest)
  {
  }

  lemma {:induction false} PlainIsEscaped(s: bytes)
    requires forall c | c in s :: !NeedsEscape(c)
    ensures Escaped(s) == s
    decreases |s|
  {
    if s != [] {
      assert s[0] in s;
      PlainIsEscaped(s[1..]);
    }
  }

  /** A quoted text of ordinary bytes. */
  lemma QuotedIsRead(s: bytes, rest: bytes)
    requires Printable(s)
    ensures ReadQuoted([34] + Escaped(s) + [34] + rest) == Some((s, rest))
  {
    EscapedIsRead(s, rest);
    var chars := Escaped(s) + ([34] + rest);
    assert [34] + Escaped(s) + [34] + rest == [34] + chars;
    assert ([34] + chars)[1..] == chars;
  }

  /** The last member of an object, and one with others to follow. */
  lemma LastMemberIsRead(key: bytes, value: bytes)
    requires Printable(key) && Printable(value)
    ensures ReadMembers(Member(key, value) + [125]) == Some(map[key := value])
  {
    MemberIsRead(key, value, [125]);
  }

  lemma NextMemberIsRead(key: bytes, value: bytes, more: bytes, m: map<bytes, bytes>)
    requires Printable(key) && Printable(value) && ReadMembers(more) == Some(m) && key !in m
    ensures ReadMembers(Member(key, value) + ([44] + more)) == Some(m[key := value])
    ensures ReadObject([123] + (Member(key, value) + ([44] + more))) == Some(m[key := value])
  {
    MemberIsRead(key, value, [44] + more);
    assert ([44] + more)[1..] == more;
    ObjectIsMembers(Member(key, value) + ([44] + more));
  }

  function Member(key: bytes, value: bytes): (r: bytes) {
    [34] + Escaped(key) + [34] + ([58] + ([34] + Escaped(value) + [34]))
  }

  lemma MemberIsRead(key: bytes, value: bytes, rest: bytes)
    requires Printable(key) && Printable(value)
    ensures var v := Member(key, value) + rest;
            && ReadQuoted(v).Some? && ReadQuoted(v).value.0 == key
            && |ReadQuoted(v).value.1| > 0 && ReadQuoted(v).value.1[0] == 58
            && ReadQuoted(ReadQuoted(v).value.1[1..]) == Some((value, rest))
  {
    var part := [34] + Escaped(value) + [34] + rest;
    QuotedIsRead(key, [58] + part);
    QuotedIsRead(value, rest);
    assert Member(key, value) + rest == [34] + Escaped(key) + [34] + ([58] + part);
    assert ([58] + part)[1..] == part;
  }

  const CONFIRM_KEY: bytes := [99, 111, 110, 102, 105, 114, 109]   // confirm
  const PIN_KEY: bytes := [112, 105, 110]                          // pin

  /** The body is a JSON object with exactly the two fields that the server decodes. */
  lemma BodyIsRead(confirm: bytes, pin: bytes)
    requires ConfirmAccepted(confirm) && PinAccepted(pin)
    ensures ReadObject(Body(confirm, Escaped(pin))) == Some(map[CONFIRM_KEY := confirm, PIN_KEY := pin])
  {
    KeysArePlain();
    AcceptedIsPrintable(confirm, pin);
    BodyByMember(confirm, pin);
    TwoMembersAreRead(CONFIRM_KEY, confirm, PIN_KEY, pin);
  }

  lemma AcceptedIsPrintable(confirm: bytes, pin: bytes)
    requires ConfirmAccepted(confirm) && PinAccepted(pin)
    ensures Printable(confirm) && Printable(pin)
  {
    assert (forall i | 0 <= i < |confirm| :: confirm[i] in confirm) && (forall i | 0 <= i < |pin| :: pin[i] in pin);
  }

  lemma TwoMembersAreRead(k: bytes, v: bytes, k': bytes, v': bytes)
    requires Printable(k) && Printable(v) && Printable(k') && Printable(v') && k != k'
    ensures ReadObject([123] + (Member(k, v) + ([44] + (Member(k', v') + [125])))) == Some(map[k := v, k' := v'])
  {
    LastMemberIsRead(k', v');
    var m := map[k' := v'];
    assert k !in m;
    NextMemberIsRead(k, v, Member(k', v') + [125], m);
    MapOfTwo(k, v, k', v');
  }

  lemma MapOfTwo(k: bytes, v: bytes, k': bytes, v': bytes)
    requires k != k'
    ensures map[k' := v'][k := v] == map[k := v, k' := v']
  {
  }

  lemma ObjectIsMembers(members: bytes)
    ensures ReadObject([123] + members) == ReadMembers(members)
  {
    assert ([123] + members)[1..] == members;
  }

  lemma KeysArePlain()
    ensures Lower(CONFIRM_KEY) && Lower(PIN_KEY) && CONFIRM_KEY != PIN_KEY && Printable(CONFIRM_KEY) && Printable(PIN_KEY)
  {
    assert |CONFIRM_KEY| != |PIN_KEY|;
  }

  /** Lower-case letters only. */
  predicate Lower(s: bytes) {
    forall i | 0 <= i < |s| :: 97 <= s[i] <= 122
  }

  lemma LowerIsPlain(s: bytes)
    requires Lower(s)
    ensures Printable(s) && Escaped(s) == s
  {
    PlainIsEscaped(s);
  }

  lemma BodyByMember(confirm: bytes, pin: bytes)
    requires ConfirmAccepted(confirm)
    ensures Body(confirm, Escaped(pin)) == [123] + (Member(CONFIRM_KEY, confirm) + ([44] + (Member(PIN_KEY, pin) + [125])))
  {
    PlainIsEscaped(confirm);
    KeysArePlain();
    LowerIsPlain(CONFIRM_KEY);
    LowerIsPlain(PIN_KEY);
    BodyTexts();
    TwoMembers(CONFIRM_KEY, confirm, PIN_KEY, Escaped(pin));
  }

  lemma TwoMembers(k: bytes, v: bytes, k': bytes, v': bytes)
    ensures ([123, 34] + k + [34, 58, 34]) + v + ([34, 44, 34] + k' + [34, 58, 34]) + v' + [34, 125]
            == [123] + ([34] + k + [34] + ([58] + ([34] + v + [34]))
                        + ([44] + ([34] + k' + [34] + ([58] + ([34] + v' + [34])) + [125])))
  {
  }

  lemma BodyTexts()
    ensures Ascii("{\"confirm\":\"") == [123, 34] + CONFIRM_KEY + [34, 58, 34]
    ensures Ascii("\",\"pin\":\"") == [34, 44, 34] + PIN_KEY + [34, 58, 34]
    ensures Ascii("\"}") == [34, 125]
  {
  }

  // ---- reading a JSON string ----

  /** What `jStr` stores of the text `v` after the opening quote when `room` bytes are free. */
  function Unescaped(v: bytes, room: nat): (r: bytes)
    ensures |r| <= room
    decreases room
  {
    if v == [] || v[0] == QUOTE || room == 0 then []
    else if v[0] == BACKSLASH && |v| > 1 then [v[1]] + Unescaped(v[2..], room - 1)
    else [v[0]] + Unescaped(v[1..], room - 1)
  }

  /** `jStr` on the text of the value: the bytes read, a terminating zero, and the rest of the buffer as it was. */
  method ReadString(v: bytes, out: array<byte>)
    requires out.Length > 0
    modifies out
    ensures |v| == 0 || v[0] != QUOTE ==> out[..] == old(out[..])
    ensures |v| > 0 && v[0] == QUOTE ==>
              var r := Unescaped(v[1..], out.Length - 1);
              && out[..|r|] == r && out[|r|] == 0
              && forall k | |r| < k < out.Length :: out[k] == old(out[k])
  {
    if |v| == 0 || v[0] != QUOTE { return; }
    var i := 1;
    var o := 0;
    ghost var all := Unescaped(v[1..], out.Length - 1);
    while i < |v| && v[i] != QUOTE && o + 1 < out.Length
      invariant 1 <= i <= |v| && 0 <= o < out.Length && o <= |all|
      invariant all[o..] == Unescaped(v[i..], out.Length - 1 - o)
      invariant forall k | 0 <= k < o :: out[k] == all[k]
      invariant forall k | o <= k < out.Length :: out[k] == old(out[k])
      decreases out.Length - o
    {
      StepOf(v, i, out.Length - 1 - o);
      assert all[o..][1..] == all[o + 1..] && all[o..][0] == all[o];
      if v[i] == BACKSLASH && i + 1 < |v| { i := i + 1; }
      out[o] := v[i];
      o := o + 1;
      i := i + 1;
    }
    assert all[o..] == [] && o == |all|;
    out[o] := 0;
    assert out[..o] == all;
  }

  lemma StepOf(v: bytes, i: nat, room: nat)
    requires i < |v| && v[i] != QUOTE && room > 0
    ensures var j := if v[i] == BACKSLASH && i + 1 < |v| then i + 1 else i;
            && Unescaped(v[i..], room) == [v[j]] + Unescaped(v[j + 1..], room - 1)
            && Unescaped(v[i..], room)[1..] == Unescaped(v[j + 1..], room - 1)
  {
    assert v[i..][1..] == v[i + 1..];
    if i + 1 < |v| { assert v[i..][2..] == v[i + 2..]; }
  }

  lemma UnescapeFirst(c: byte, e: bytes, tail: bytes, room: nat)
    requires room > 0
    ensures Unescaped((if NeedsEscape(c) then [BACKSLASH, c] else [c]) + e + tail, room) == [c] + Unescaped(e + tail, room - 1)
  {
    var head: bytes := if NeedsEscape(c) then [BACKSLASH, c] else [c];
    assert (head + e + tail)[|head|..] == e + tail;
  }

  /** Reading back inverts escaping, up to the room there is. */
  lemma {:induction false} UnescapedInvertsEscaped(s: bytes, post: bytes, room: nat)
    ensures Unescaped(Escaped(s) + [QUOTE] + post, room) == s[..if |s| <= room then |s| else room]
    decreases |s|
  {
    var v := Escaped(s) + [QUOTE] + post;
    if s == [] {
      assert v[0] == QUOTE;
    } else if room > 0 {
      var c := s[0];
      var rest := Escaped(s[1..]) + [QUOTE] + post;
      UnescapeFirst(c, Escaped(s[1..]), [QUOTE] + post, room);
      assert v == Escaped(s) + ([QUOTE] + post) && rest == Escaped(s[1..]) + ([QUOTE] + post);
      UnescapedInvertsEscaped(s[1..], post, room - 1);
      var n := if |s| <= room then |s| else room;
      assert s[..n] == [c] + s[1..][..n - 1];
    }
  }

  /** Every PIN the client accepts is read back unchanged from the body it is put into. */
  lemma PinRoundTrips(confirm: bytes, pin: bytes, room: nat)
    requires PinAccepted(pin) && room >= |pin|
    ensures var body := Body(confirm, Escaped(pin));
            var value := body[20 + |confirm|..];
            value[0] == QUOTE && Unescaped(value[1..], room) == pin
  {
    var body := Body(confirm, Escaped(pin));
    var value := body[20 + |confirm|..];
    var post := Ascii("}");
    assert value == [QUOTE] + Escaped(pin) + [QUOTE] + post;
    assert value[1..] == Escaped(pin) + [QUOTE] + post;
    UnescapedInvertsEscaped(pin, post, room);
    assert pin[..|pin|] == pin;
  }
}
