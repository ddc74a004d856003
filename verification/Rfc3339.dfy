/**
 The timestamp parser of the UI client (section 5.6 of RFC 3339).
 */
module Rfc3339 {
  import opened Wrappers
  import opened Calendar

  predicate IsDigit(c: char) {
    '0' <= c <= '9'
  }

  function DigitOf(c: char): (n: nat)
    requires IsDigit(c)
    ensures n <= 9
  {
    (c as int) - ('0' as int)
  }

  // ---- std.fmt.parseInt in base 10 ----

  /** Digits with underscores between them, accumulated on top of `acc`. */
  function Accumulate(s: string, acc: nat): (n: Option<nat>) {
    if s == [] then Some(acc)
    else if s[0] == '_' then Accumulate(s[1..], acc)
    else if IsDigit(s[0]) then Accumulate(s[1..], acc * 10 + DigitOf(s[0]))
    else None
  }

  function Unsigned(s: string): (n: Option<nat>) {
    if s == [] || s[0] == '_' || s[|s| - 1] == '_' then None else Accumulate(s, 0)
  }

  function ParseInt(s: string): (n: Option<int>) {
    if s == [] then None
    else if s[0] == '+' || s[0] == '-' then
      var u := Unsigned(s[1..]);
      if u.None? then None else Some(if s[0] == '-' then -(u.value as int) else u.value as int)
    else
      var u := Unsigned(s);
      if u.None? then None else Some(u.value as int)
  }

  /** `num`. */
  function Num(s: string, at: nat, len: nat): (n: Option<int>) {
    if at + len > |s| then None else ParseInt(s[at..at + len])
  }

  // ---- parseRfc3339 ----

  /** The position after a run of digits. */
  function SkipDigits(s: string, i: nat): (j: nat)
    requires i <= |s|
    ensures i <= j <= |s|
    decreases |s| - i
  {
    if i < |s| && IsDigit(s[i]) then SkipDigits(s, i + 1) else i
  }

  /** The zone designator at `i`, in seconds east of UTC. */
  function ZoneAt(s: string, i: nat): (off: Option<int>) {
    if i >= |s| then None
    else if s[i] == 'Z' || s[i] == 'z' then Some(0)
    else if s[i] == '+' || s[i] == '-' then
      var oh := Num(s, i + 1, 2);
      if oh.None? || i + 3 >= |s| || s[i + 3] != ':' then None
      else
        var om := Num(s, i + 4, 2);
        if om.None? then None
        else
          var off := oh.value * 3600 + om.value * 60;
          Some(if s[i] == '-' then -off else off)
    else None
  }

  datatype Fields = Fields(y: int, mo: int, d: int, h: int, mi: int, se: int)

  function FieldsOf(s: string): (f: Option<Fields>) {
    if |s| < 20 || s[4] != '-' || s[7] != '-' || (s[10] != 'T' && s[10] != 't') || s[13] != ':' || s[16] != ':' then None
    else
      var y, mo, d := Num(s, 0, 4), Num(s, 5, 2), Num(s, 8, 2);
      var h, mi, se := Num(s, 11, 2), Num(s, 14, 2), Num(s, 17, 2);
      if y.None? || mo.None? || d.None? || h.None? || mi.None? || se.None? then None
      else if mo.value < 1 || mo.value > 12 || d.value < 1 || d.value > 31 || h.value > 23 || mi.value > 59 || se.value > 60
      then None
      else Some(Fields(y.value, mo.value, d.value, h.value, mi.value, se.value))
  }

  function ZoneStart(s: string): (i: nat)
    requires |s| >= 20
  {
    if s[19] == '.' then SkipDigits(s, 20) else 19
  }

  function Seconds(f: Fields, off: int): (n: int) {
    DaysFromCivil(f.y, f.mo, f.d) * 86400 + f.h * 3600 + f.mi * 60 + f.se - off
  }

  function Parsed(s: string): (n: Option<int>) {
    var f := FieldsOf(s);
    if f.None? then None
    else
      var off := ZoneAt(s, ZoneStart(s));
      if off.None? then None else Some(Seconds(f.value, off.value))
  }

  /** `parseRfc3339`. Every index is in range for every input. */
  method Parse(s: string) returns (r: Option<int>)
    ensures r == Parsed(s)
  {
    var f := ParseFields(s);
    if f.None? { return None; }
    var i := 19;
    if s[i] == '.' {
      i := i + 1;
      while i < |s| && '0' <= s[i] <= '9'
        invariant 20 <= i <= |s| && SkipDigits(s, i) == SkipDigits(s, 20)
      {
        i := i + 1;
      }
    }
    var off := ParseZone(s, i);
    if off.None? { return None; }
    r := Some(DaysFromCivil(f.value.y, f.value.mo, f.value.d) * 86400
              + f.value.h * 3600 + f.value.mi * 60 + f.value.se - off.value);
  }

  /** The six numbers and the punctuation between them. */
  method ParseFields(s: string) returns (f: Option<Fields>)
    ensures f == FieldsOf(s)
  {
    if |s| < 20 { return None; }
    if s[4] != '-' || s[7] != '-' || (s[10] != 'T' && s[10] != 't') { return None; }
    if s[13] != ':' || s[16] != ':' { return None; }
    var y := Num(s, 0, 4);
    if y.None? { return None; }
    var mo := Num(s, 5, 2);
    if mo.None? { return None; }
    var d := Num(s, 8, 2);
    if d.None? { return None; }
    var h := Num(s, 11, 2);
    if h.None? { return None; }
    var mi := Num(s, 14, 2);
    if mi.None? { return None; }
    var se := Num(s, 17, 2);
    if se.None? { return None; }
    if mo.value < 1 || mo.value > 12 || d.value < 1 || d.value > 31 || h.value > 23 || mi.value > 59 || se.value > 60 {
      return None;
    }
    f := Some(Fields(y.value, mo.value, d.value, h.value, mi.value, se.value));
  }

  /** The zone designator. */
  method ParseZone(s: string, i: nat) returns (off: Option<int>)
    ensures off == ZoneAt(s, i)
  {
    if i >= |s| { return None; }
    if s[i] == 'Z' || s[i] == 'z' { return Some(0); }
    if s[i] != '+' && s[i] != '-' { return None; }
    var oh := Num(s, i + 1, 2);
    if oh.None? { return None; }
    if i + 3 >= |s| || s[i + 3] != ':' { return None; }
    var om := Num(s, i + 4, 2);
    if om.None? { return None; }
    var seconds := oh.value * 3600 + om.value * 60;
    off := Some(if s[i] == '-' then -seconds else seconds);
  }

  // ---- bounds ----

  function Power10(n: nat): (r: nat)
    ensures r > 0
  {
    if n == 0 then 1 else 10 * Power10(n - 1)
  }

  lemma {:induction false} AccumulateBound(s: string, acc: nat)
    ensures Accumulate(s, acc).Some? ==> Accumulate(s, acc).value < (acc + 1) * Power10(|s|)
    decreases |s|
  {
    if s == [] {
    } else if s[0] == '_' {
      AccumulateBound(s[1..], acc);
      assert (acc + 1) * Power10(|s|) == 10 * ((acc + 1) * Power10(|s| - 1));
    } else if IsDigit(s[0]) {
      var next := acc * 10 + DigitOf(s[0]);
      AccumulateBound(s[1..], next);
      assert (next + 1) * Power10(|s| - 1) <= (acc + 1) * 10 * Power10(|s| - 1) by {
        MulMono(next + 1, (acc + 1) * 10, Power10(|s| - 1));
      }
      assert (acc + 1) * 10 * Power10(|s| - 1) == (acc + 1) * Power10(|s|);
    }
  }

  lemma MulMono(a: nat, b: nat, d: nat)
    requires a <= b
    ensures a * d <= b * d
  {
  }

  lemma NumBound(s: string, at: nat, len: nat)
    requires len == 2 || len == 4
    ensures Num(s, at, len).Some? ==> -10000 < Num(s, at, len).value < 10000
  {
    assert Power10(2) == 100 && Power10(3) == 1000 && Power10(4) == 10000 && Power10(1) == 10;
    if at + len <= |s| {
      var t := s[at..at + len];
      AccumulateBound(t, 0);
      AccumulateBound(t[1..], 0);
    }
  }

  lemma DaysBound(y: int, m: int, d: int)
    requires -10000 < y < 10000 && 1 <= m <= 12 && 1 <= d <= 31
    ensures -0x100_0000 < DaysFromCivil(y, m, d) < 0x100_0000
  {
    EraDecomposition(if m <= 2 then y - 1 else y);
  }

  lemma FieldsBound(s: string)
    ensures FieldsOf(s).Some? ==>
              var f := FieldsOf(s).value;
              && -10000 < f.y < 10000 && -10000 < f.h < 10000 && -10000 < f.mi < 10000 && -10000 < f.se < 10000
              && 1 <= f.mo <= 12 && 1 <= f.d <= 31
  {
    NumBound(s, 0, 4);
    NumBound(s, 11, 2);
    NumBound(s, 14, 2);
    NumBound(s, 17, 2);
  }

  lemma ZoneBound(s: string, i: nat)
    ensures ZoneAt(s, i).Some? ==> -0x1000_0000 < ZoneAt(s, i).value < 0x1000_0000
  {
    NumBound(s, i + 1, 2);
    NumBound(s, i + 4, 2);
  }

  /** Whatever the input, the result fits the i64 the source computes it in. */
  lemma ResultFits(s: string)
    requires Parsed(s).Some?
    ensures -0x8000_0000_0000_0000 <= Parsed(s).value < 0x8000_0000_0000_0000
  {
    FieldsBound(s);
    ZoneBound(s, ZoneStart(s));
    var f := FieldsOf(s).value;
    DaysBound(f.y, f.mo, f.d);
  }

  // ---- texts of timestamps ----

  datatype Stamp = Stamp(date: Date, h: nat, mi: nat, se: nat)

  /** What the parser lets through: every month has 31 days. */
  predicate LooseStamp(t: Stamp) {
    && 0 <= t.date.y <= 9999 && 1 <= t.date.m <= 12 && 1 <= t.date.d <= 31
    && t.h <= 23 && t.mi <= 59 && t.se <= 60
  }

  /** What section 5.6 of RFC 3339 can express, leap seconds included. */
  predicate ValidStamp(t: Stamp) {
    LooseStamp(t) && ValidDate(t.date)
  }

  datatype Zone = Zulu(letter: char) | Offset(west: bool, h: nat, m: nat)

  predicate ValidZone(z: Zone) {
    match z
    case Zulu(c) => c == 'Z' || c == 'z'
    case Offset(_, h, m) => h <= 99 && m <= 99
  }

  function ZoneSeconds(z: Zone): (n: int) {
    match z
    case Zulu(_) => 0
    case Offset(west, h, m) => if west then -(h * 3600 + m * 60) else h * 3600 + m * 60
  }

  /** The instant: days counted by the calendar, then the time of day, less the offset. */
  function EpochSecond(t: Stamp, z: Zone): (n: int)
    requires ValidStamp(t)
  {
    DayCount(t.date) * 86400 + t.h * 3600 + t.mi * 60 + t.se - ZoneSeconds(z)
  }

  function Digit(n: nat): (c: char)
    requires n <= 9
    ensures IsDigit(c) && DigitOf(c) == n
  {
    (n + 48) as char
  }

  function Two(n: nat): (s: string)
    requires n <= 99
    ensures |s| == 2
  {
    [Digit(n / 10), Digit(n % 10)]
  }

  function Four(n: nat): (s: string)
    requires n <= 9999
    ensures |s| == 4
  {
    Two(n / 100) + Two(n % 100)
  }

  function ZoneText(z: Zone): (s: string)
    requires ValidZone(z)
    ensures |s| >= 1
  {
    match z
    case Zulu(c) => [c]
    case Offset(west, h, m) => [if west then '-' else '+'] + Two(h) + [':'] + Two(m)
  }

  /** No fraction, or a point and any run of digits. */
  predicate ValidFraction(frac: string) {
    frac == [] || (frac[0] == '.' && forall k | 1 <= k < |frac| :: IsDigit(frac[k]))
  }

  function DateTimeText(t: Stamp, sep: char): (s: string)
    requires LooseStamp(t)
    ensures |s| == 19
  {
    Four(t.date.y) + ['-'] + Two(t.date.m) + ['-'] + Two(t.date.d) + [sep]
    + Two(t.h) + [':'] + Two(t.mi) + [':'] + Two(t.se)
  }

  function Text(t: Stamp, sep: char, frac: string, z: Zone): (s: string)
    requires LooseStamp(t) && ValidFraction(frac) && ValidZone(z)
  {
    DateTimeText(t, sep) + frac + ZoneText(z)
  }

  // ---- the parser reads them back ----

  lemma ParseTwo(n: nat)
    requires n <= 99
    ensures ParseInt(Two(n)) == Some(n as int)
  {
    var s := Two(n);
    assert Accumulate(s, 0) == Accumulate(s[1..], n / 10);
    assert s[1..][1..] == [];
    assert Accumulate(s[1..], n / 10) == Some(n / 10 * 10 + n % 10);
  }

  lemma {:induction false} AccumulateConcat(s: string, t: string, acc: nat)
    requires Accumulate(s, acc).Some?
    ensures Accumulate(s + t, acc) == Accumulate(t, Accumulate(s, acc).value)
    decreases |s|
  {
    if s == [] {
      assert s + t == t;
    } else {
      assert (s + t)[0] == s[0] && (s + t)[1..] == s[1..] + t;
      AccumulateConcat(s[1..], t, if s[0] == '_' then acc else acc * 10 + DigitOf(s[0]));
    }
  }

  lemma AccumulateTwo(n: nat, acc: nat)
    requires n <= 99
    ensures Accumulate(Two(n), acc) == Some(acc * 100 + n)
  {
    var s := Two(n);
    var acc1 := acc * 10 + n / 10;
    assert Accumulate(s, acc) == Accumulate(s[1..], acc1);
    assert s[1..][1..] == [];
    assert Accumulate(s[1..], acc1) == Some(acc1 * 10 + n % 10);
  }

  lemma ParseFour(n: nat)
    requires n <= 9999
    ensures ParseInt(Four(n)) == Some(n as int)
  {
    AccumulateTwo(n / 100, 0);
    AccumulateTwo(n % 100, n / 100);
    AccumulateConcat(Two(n / 100), Two(n % 100), 0);
  }

  lemma FieldsOfText(t: Stamp, sep: char, rest: string)
    requires LooseStamp(t) && (sep == 'T' || sep == 't') && |rest| >= 1
    ensures FieldsOf(DateTimeText(t, sep) + rest) == Some(FieldsIn(t))
  {
    var s := DateTimeText(t, sep) + rest;
    assert s[0..4] == Four(t.date.y) && s[4] == '-' && s[5..7] == Two(t.date.m) && s[7] == '-';
    assert s[8..10] == Two(t.date.d) && s[10] == sep && s[11..13] == Two(t.h) && s[13] == ':';
    assert s[14..16] == Two(t.mi) && s[16] == ':' && s[17..19] == Two(t.se);
    ParseFour(t.date.y);
    ParseTwo(t.date.m);
    ParseTwo(t.date.d);
    ParseTwo(t.h);
    ParseTwo(t.mi);
    ParseTwo(t.se);
  }

  lemma {:induction false} SkipDigitsRun(s: string, i: nat, j: nat)
    requires i <= j < |s| && (forall k | i <= k < j :: IsDigit(s[k])) && !IsDigit(s[j])
    ensures SkipDigits(s, i) == j
    decreases j - i
  {
    if i < j { SkipDigitsRun(s, i + 1, j); }
  }

  lemma ZoneIsFound(front: string, frac: string, z: Zone)
    requires |front| == 19 && ValidFraction(frac) && ValidZone(z)
    ensures ZoneStart(front + frac + ZoneText(z)) == 19 + |frac|
  {
    var s := front + frac + ZoneText(z);
    assert s[19 + |frac|] == ZoneText(z)[0];
    if frac != [] {
      assert s[19] == '.';
      forall k | 20 <= k < 19 + |frac| ensures IsDigit(s[k]) { assert s[k] == frac[k - 19]; }
      SkipDigitsRun(s, 20, 19 + |frac|);
    }
  }

  lemma ZoneIsRead(front: string, z: Zone)
    requires ValidZone(z)
    ensures ZoneAt(front + ZoneText(z), |front|) == Some(ZoneSeconds(z))
  {
    var s := front + ZoneText(z);
    var i := |front|;
    match z {
      case Zulu(c) => assert s[i] == c;
      case Offset(west, h, m) =>
        assert s[i + 1..i + 3] == Two(h) && s[i + 3] == ':' && s[i + 4..i + 6] == Two(m);
        ParseTwo(h);
        ParseTwo(m);
    }
  }

  /** For every valid timestamp, either case of the separators, any fraction and any numeric offset or Z, the
      text parses to the instant it names. */
  lemma TextParses(t: Stamp, sep: char, frac: string, z: Zone)
    requires ValidStamp(t) && (sep == 'T' || sep == 't') && ValidFraction(frac) && ValidZone(z)
    ensures Parsed(Text(t, sep, frac, z)) == Some(EpochSecond(t, z))
  {
    LooseTextParses(t, sep, frac, z);
    SecondsAreEpoch(t, z, FieldsIn(t));
  }

  function FieldsIn(t: Stamp): (f: Fields) {
    Fields(t.date.y, t.date.m, t.date.d, t.h, t.mi, t.se)
  }

  /** Without a look at the length of the month, the text parses to its closed form. */
  lemma LooseTextParses(t: Stamp, sep: char, frac: string, z: Zone)
    requires LooseStamp(t) && (sep == 'T' || sep == 't') && ValidFraction(frac) && ValidZone(z)
    ensures Parsed(Text(t, sep, frac, z)) == Some(Seconds(FieldsIn(t), ZoneSeconds(z)))
  {
    FieldsOfText(t, sep, frac + ZoneText(z));
    PartsParse(DateTimeText(t, sep), frac, z, FieldsIn(t));
  }

  /** Given what its first 19 characters say, the rest of a text does what it should. */
  lemma PartsParse(front: string, frac: string, z: Zone, f: Fields)
    requires |front| == 19 && ValidFraction(frac) && ValidZone(z) && FieldsOf(front + (frac + ZoneText(z))) == Some(f)
    ensures Parsed(front + frac + ZoneText(z)) == Some(Seconds(f, ZoneSeconds(z)))
  {
    var s := front + frac + ZoneText(z);
    assert s == front + (frac + ZoneText(z));
    ZoneIsFound(front, frac, z);
    ZoneIsRead(front + frac, z);
    ParsedFrom(s, f, 19 + |frac|, ZoneSeconds(z));
  }

  lemma SecondsAreEpoch(t: Stamp, z: Zone, f: Fields)
    requires ValidStamp(t) && f == FieldsIn(t)
    ensures Seconds(f, ZoneSeconds(z)) == EpochSecond(t, z)
  {
    ClosedFormIsDayCount(t.date);
  }

  lemma ParsedFrom(s: string, f: Fields, i: nat, off: int)
    requires |s| >= 20 && FieldsOf(s) == Some(f) && ZoneStart(s) == i && ZoneAt(s, i) == Some(off)
    ensures Parsed(s) == Some(Seconds(f, off))
  {
  }

  /** So two texts of one instant parse alike, and texts of different instants do not. */
  lemma SameInstantSameParse(t: Stamp, sep: char, frac: string, z: Zone, t': Stamp, sep': char, frac': string, z': Zone)
    requires ValidStamp(t) && (sep == 'T' || sep == 't') && ValidFraction(frac) && ValidZone(z)
    requires ValidStamp(t') && (sep' == 'T' || sep' == 't') && ValidFraction(frac') && ValidZone(z')
    ensures Parsed(Text(t, sep, frac, z)) == Parsed(Text(t', sep', frac', z')) <==> EpochSecond(t, z) == EpochSecond(t', z')
  {
    TextParses(t, sep, frac, z);
    TextParses(t', sep', frac', z');
  }

  // ---- and what else it reads ----

  /** Section 5.6 of RFC 3339 wants a digit after the point, and offsets of at most 23:59. */
  predicate RfcFraction(frac: string) {
    ValidFraction(frac) && |frac| != 1
  }

  predicate RfcZone(z: Zone) {
    ValidZone(z) && (z.Offset? ==> z.h <= 23 && z.m <= 59)
  }

  predicate RfcParts(t: Stamp, sep: char, frac: string, z: Zone) {
    ValidStamp(t) && (sep == 'T' || sep == 't') && RfcFraction(frac) && RfcZone(z)
  }

  predicate IsTextOf(s: string, t: Stamp, sep: char, frac: string, z: Zone) {
    RfcParts(t, sep, frac, z) && s == Text(t, sep, frac, z)
  }

  ghost predicate IsRfcText(s: string) {
    exists t: Stamp, sep: char, frac: string, z: Zone :: IsTextOf(s, t, sep, frac, z)
  }

  predicate PairAt(s: string, i: nat) {
    i + 2 <= |s| && IsDigit(s[i]) && IsDigit(s[i + 1])
  }

  function Pair(s: string, i: nat): (n: nat)
    requires PairAt(s, i)
    ensures n <= 99
  {
    DigitOf(s[i]) * 10 + DigitOf(s[i + 1])
  }

  /** What a caller would have to test before parsing: the number fields are digits only, the day fits its month,
      a point is followed by a digit, an offset is in range, and nothing follows the zone. */
  predicate Plain(s: string) {
    && |s| >= 20
    && PairAt(s, 0) && PairAt(s, 2) && PairAt(s, 5) && PairAt(s, 8)
    && PairAt(s, 11) && PairAt(s, 14) && PairAt(s, 17)
    && Pair(s, 8) <= DaysInMonth(Pair(s, 0) * 100 + Pair(s, 2), Pair(s, 5))
    && (s[19] == '.' ==> |s| > 20 && IsDigit(s[20]))
    && PlainZone(s, ZoneStart(s))
  }

  predicate PlainZone(s: string, i: nat) {
    && i < |s|
    && (s[i] == 'Z' || s[i] == 'z' ==> i + 1 == |s|)
    && (s[i] == '+' || s[i] == '-' ==>
          && i + 6 == |s| && PairAt(s, i + 1) && PairAt(s, i + 4)
          && Pair(s, i + 1) <= 23 && Pair(s, i + 4) <= 59)
  }

  /** Exactly when an accepted text is one the RFC defines, for every string. */
  lemma AcceptedIsRfcText(s: string)
    ensures Parsed(s).Some? && Plain(s) <==> IsRfcText(s)
  {
    if Parsed(s).Some? && Plain(s) { PlainIsText(s); }
    if IsRfcText(s) {
      var t: Stamp, sep: char, frac: string, z: Zone :| IsTextOf(s, t, sep, frac, z);
      TextParses(t, sep, frac, z);
      TextIsPlain(t, sep, frac, z);
    }
  }

  lemma PairIsTwo(s: string, i: nat)
    requires PairAt(s, i)
    ensures s[i..i + 2] == Two(Pair(s, i)) && Num(s, i, 2) == Some(Pair(s, i) as int)
  {
    DigitIsChar(s[i]);
    DigitIsChar(s[i + 1]);
    ParseTwo(Pair(s, i));
  }

  lemma DigitIsChar(c: char)
    requires IsDigit(c)
    ensures Digit(DigitOf(c)) == c
  {
  }

  lemma YearIsFour(s: string)
    requires PairAt(s, 0) && PairAt(s, 2)
    ensures var y := Pair(s, 0) * 100 + Pair(s, 2); s[0..4] == Four(y) && Num(s, 0, 4) == Some(y as int)
  {
    var y := Pair(s, 0) * 100 + Pair(s, 2);
    PairIsTwo(s, 0);
    PairIsTwo(s, 2);
    assert y / 100 == Pair(s, 0) && y % 100 == Pair(s, 2);
    assert s[0..4] == s[0..2] + s[2..4];
    ParseFour(y);
  }

  /** The date and time that a plain text spells out. */
  function StampOf(s: string): (t: Stamp)
    requires Plain(s)
  {
    Stamp(Date(Pair(s, 0) * 100 + Pair(s, 2), Pair(s, 5), Pair(s, 8)), Pair(s, 11), Pair(s, 14), Pair(s, 17))
  }

  lemma PlainFields(s: string)
    requires Plain(s) && FieldsOf(s).Some?
    ensures FieldsOf(s).value == FieldsIn(StampOf(s))
    ensures ValidStamp(StampOf(s))
  {
    YearIsFour(s);
    PairIsTwo(s, 5);
    PairIsTwo(s, 8);
    PairIsTwo(s, 11);
    PairIsTwo(s, 14);
    PairIsTwo(s, 17);
  }

  lemma PlainDate(s: string)
    requires |s| >= 20 && PairAt(s, 0) && PairAt(s, 2) && PairAt(s, 5) && PairAt(s, 8) && s[4] == s[7] == '-'
    ensures s[..11] == Four(Pair(s, 0) * 100 + Pair(s, 2)) + ['-'] + Two(Pair(s, 5)) + ['-'] + Two(Pair(s, 8)) + [s[10]]
  {
    YearIsFour(s);
    PairIsTwo(s, 5);
    PairIsTwo(s, 8);
    assert s[..11] == s[0..4] + [s[4]] + s[5..7] + [s[7]] + s[8..10] + [s[10]];
  }

  lemma PlainTime(s: string)
    requires |s| >= 20 && PairAt(s, 11) && PairAt(s, 14) && PairAt(s, 17) && s[13] == s[16] == ':'
    ensures s[11..19] == Two(Pair(s, 11)) + [':'] + Two(Pair(s, 14)) + [':'] + Two(Pair(s, 17))
  {
    PairIsTwo(s, 11);
    PairIsTwo(s, 14);
    PairIsTwo(s, 17);
    assert s[11..19] == s[11..13] + [s[13]] + s[14..16] + [s[16]] + s[17..19];
  }

  lemma PlainFront(s: string)
    requires Plain(s) && FieldsOf(s).Some? && ValidStamp(StampOf(s))
    ensures s[..19] == DateTimeText(StampOf(s), s[10])
  {
    PlainDate(s);
    PlainTime(s);
    assert s[..19] == s[..11] + s[11..19];
  }

  lemma {:induction false} SkippedAreDigits(s: string, i: nat)
    requires i <= |s|
    ensures forall k | i <= k < SkipDigits(s, i) :: IsDigit(s[k])
    decreases |s| - i
  {
    if i < |s| && IsDigit(s[i]) { SkippedAreDigits(s, i + 1); }
  }

  lemma PlainFractionIsRfc(s: string)
    requires |s| >= 20 && (s[19] == '.' ==> |s| > 20 && IsDigit(s[20]))
    ensures 19 <= ZoneStart(s) <= |s| && RfcFraction(s[19..ZoneStart(s)])
  {
    if s[19] == '.' {
      SkippedAreDigits(s, 20);
      assert SkipDigits(s, 20) >= SkipDigits(s, 21);
    }
  }

  lemma PlainZoneIsRfc(s: string, i: nat) returns (z: Zone)
    requires PlainZone(s, i) && ZoneAt(s, i).Some?
    ensures RfcZone(z) && s[i..] == ZoneText(z)
  {
    if s[i] == 'Z' || s[i] == 'z' {
      z := Zulu(s[i]);
    } else {
      z := Offset(s[i] == '-', Pair(s, i + 1), Pair(s, i + 4));
      PairIsTwo(s, i + 1);
      PairIsTwo(s, i + 4);
      assert s[i..] == [s[i]] + s[i + 1..i + 3] + [s[i + 3]] + s[i + 4..i + 6];
    }
  }

  lemma PlainIsText(s: string)
    requires Parsed(s).Some? && Plain(s)
    ensures IsRfcText(s)
  {
    PlainFields(s);
    PlainFront(s);
    PlainFractionIsRfc(s);
    var z := PlainZoneIsRfc(s, ZoneStart(s));
    Assembles(s, ZoneStart(s), StampOf(s), z);
  }

  lemma Assembles(s: string, i: nat, t: Stamp, z: Zone)
    requires 19 <= i <= |s| && RfcParts(t, s[10], s[19..i], z)
    requires s[..19] == DateTimeText(t, s[10]) && s[i..] == ZoneText(z)
    ensures IsRfcText(s)
  {
    assert s == s[..19] + s[19..i] + s[i..];
    assert IsTextOf(s, t, s[10], s[19..i], z);
  }

  lemma TwoIsPair(s: string, i: nat, n: nat)
    requires n <= 99 && i + 2 <= |s| && s[i..i + 2] == Two(n)
    ensures PairAt(s, i) && Pair(s, i) == n
  {
    assert s[i] == Two(n)[0] && s[i + 1] == Two(n)[1];
  }

  lemma FrontIsPlain(t: Stamp, sep: char, rest: string)
    requires LooseStamp(t)
    ensures var s := DateTimeText(t, sep) + rest;
            && PairAt(s, 0) && PairAt(s, 2) && PairAt(s, 5) && PairAt(s, 8)
            && PairAt(s, 11) && PairAt(s, 14) && PairAt(s, 17)
            && Pair(s, 0) * 100 + Pair(s, 2) == t.date.y && Pair(s, 5) == t.date.m && Pair(s, 8) == t.date.d
  {
    var s := DateTimeText(t, sep) + rest;
    assert s[0..2] == Two(t.date.y / 100) && s[2..4] == Two(t.date.y % 100);
    assert s[5..7] == Two(t.date.m) && s[8..10] == Two(t.date.d);
    assert s[11..13] == Two(t.h) && s[14..16] == Two(t.mi) && s[17..19] == Two(t.se);
    TwoIsPair(s, 0, t.date.y / 100);
    TwoIsPair(s, 2, t.date.y % 100);
    TwoIsPair(s, 5, t.date.m);
    TwoIsPair(s, 8, t.date.d);
    TwoIsPair(s, 11, t.h);
    TwoIsPair(s, 14, t.mi);
    TwoIsPair(s, 17, t.se);
  }

  lemma ZoneIsPlain(front: string, z: Zone)
    requires ValidZone(z)
    ensures PlainZone(front + ZoneText(z), |front|) <==> RfcZone(z)
  {
    var s, i := front + ZoneText(z), |front|;
    if z.Offset? {
      assert s[i + 1..i + 3] == Two(z.h) && s[i + 4..i + 6] == Two(z.m);
      TwoIsPair(s, i + 1, z.h);
      TwoIsPair(s, i + 4, z.m);
    }
  }

  lemma FractionIsPlain(front: string, frac: string, z: Zone)
    requires |front| == 19 && ValidFraction(frac) && ValidZone(z)
    ensures var s := front + (frac + ZoneText(z));
            (s[19] == '.' ==> |s| > 20 && IsDigit(s[20])) <==> RfcFraction(frac)
  {
    var s := front + (frac + ZoneText(z));
    assert frac == [] ==> s[19] == ZoneText(z)[0];
    assert |frac| == 1 ==> s[19] == frac[0] && s[20] == ZoneText(z)[0];
    assert |frac| > 1 ==> s[20] == frac[1];
  }

  lemma TextIsPlain(t: Stamp, sep: char, frac: string, z: Zone)
    requires LooseStamp(t) && ValidFraction(frac) && ValidZone(z)
    ensures Plain(Text(t, sep, frac, z)) <==> ValidDate(t.date) && RfcFraction(frac) && RfcZone(z)
  {
    var s := Text(t, sep, frac, z);
    var front := DateTimeText(t, sep);
    assert s == front + (frac + ZoneText(z));
    FrontIsPlain(t, sep, frac + ZoneText(z));
    FractionIsPlain(front, frac, z);
    ZoneIsFound(front, frac, z);
    ZoneIsPlain(front + frac, z);
  }

  lemma NumExtends(s: string, rest: string, at: nat, len: nat)
    requires at + len <= |s|
    ensures Num(s + rest, at, len) == Num(s, at, len)
  {
    assert (s + rest)[at..at + len] == s[at..at + len];
  }

  lemma FieldsExtend(s: string, rest: string)
    requires |s| >= 20
    ensures FieldsOf(s + rest) == FieldsOf(s)
  {
    NumExtends(s, rest, 0, 4);
    NumExtends(s, rest, 5, 2);
    NumExtends(s, rest, 8, 2);
    NumExtends(s, rest, 11, 2);
    NumExtends(s, rest, 14, 2);
    NumExtends(s, rest, 17, 2);
  }

  lemma ZoneExtends(front: string, frac: string, z: Zone, rest: string)
    requires |front| == 19 && ValidFraction(frac) && ValidZone(z)
    ensures var s, i := front + frac + ZoneText(z), 19 + |frac|;
            ZoneStart(s + rest) == i && ZoneAt(s + rest, i) == Some(ZoneSeconds(z))
  {
    var s, i := front + frac + ZoneText(z), 19 + |frac|;
    var long := s + rest;
    assert long[i] == ZoneText(z)[0];
    if frac != [] {
      assert long[19] == '.';
      forall k | 20 <= k < i ensures IsDigit(long[k]) { assert long[k] == frac[k - 19]; }
      SkipDigitsRun(long, 20, i);
    }
    ZoneIsRead(front + frac, z);
    if z.Offset? {
      NumExtends(s, rest, i + 1, 2);
      NumExtends(s, rest, i + 4, 2);
    }
  }

  /** First deviation: whatever follows the zone is not looked at. */
  lemma TrailingBytesAreIgnored(t: Stamp, sep: char, frac: string, z: Zone, rest: string)
    requires RfcParts(t, sep, frac, z) && rest != []
    ensures Parsed(Text(t, sep, frac, z) + rest) == Some(EpochSecond(t, z))
    ensures !IsRfcText(Text(t, sep, frac, z) + rest)
  {
    var s := Text(t, sep, frac, z);
    FieldsOfText(t, sep, frac + ZoneText(z));
    assert s == DateTimeText(t, sep) + (frac + ZoneText(z));
    FieldsExtend(s, rest);
    ZoneExtends(DateTimeText(t, sep), frac, z, rest);
    SecondsAreEpoch(t, z, FieldsIn(t));
    ParsedFrom(s + rest, FieldsIn(t), 19 + |frac|, ZoneSeconds(z));
    AcceptedIsRfcText(s + rest);
  }

  /** Second: every month has 31 days, a point needs no digits after it, and offsets go up to 99:99. Such texts are
      all accepted, and are RFC texts exactly when the date exists, the fraction has digits and the offset
      is a time of day. */
  lemma LooseTextIsAccepted(t: Stamp, sep: char, frac: string, z: Zone)
    requires LooseStamp(t) && (sep == 'T' || sep == 't') && ValidFraction(frac) && ValidZone(z)
    ensures Parsed(Text(t, sep, frac, z)) == Some(Seconds(FieldsIn(t), ZoneSeconds(z)))
    ensures IsRfcText(Text(t, sep, frac, z)) <==> ValidDate(t.date) && RfcFraction(frac) && RfcZone(z)
  {
    LooseTextParses(t, sep, frac, z);
    TextIsPlain(t, sep, frac, z);
    AcceptedIsRfcText(Text(t, sep, frac, z));
  }

  /** 2023-02-31T00:00:00Z, 2023-02-01T00:00:00.Z and 2023-02-01T00:00:00+99:99. */
  lemma LooseTextsExist()
    ensures var s := Text(Stamp(Date(2023, 2, 31), 0, 0, 0), 'T', "", Zulu('Z')); Parsed(s).Some? && !IsRfcText(s)
    ensures var s := Text(Stamp(Date(2023, 2, 1), 0, 0, 0), 'T', ".", Zulu('Z')); Parsed(s).Some? && !IsRfcText(s)
    ensures var s := Text(Stamp(Date(2023, 2, 1), 0, 0, 0), 'T', "", Offset(false, 99, 99));
            Parsed(s).Some? && !IsRfcText(s)
  {
    LooseTextIsAccepted(Stamp(Date(2023, 2, 31), 0, 0, 0), 'T', "", Zulu('Z'));
    LooseTextIsAccepted(Stamp(Date(2023, 2, 1), 0, 0, 0), 'T', ".", Zulu('Z'));
    LooseTextIsAccepted(Stamp(Date(2023, 2, 1), 0, 0, 0), 'T', "", Offset(false, 99, 99));
  }

  /** Third: numbers may carry a sign, so that an hour can even be negative. */
  lemma SignedHourIsAccepted(t: Stamp, sign: char, digit: char, rest: string)
    requires LooseStamp(t) && (sign == '+' || sign == '-') && IsDigit(digit)
    requires |rest| >= 1 && rest[0] in {'Z', 'z'}
    ensures var s := DateTimeText(t, 'T')[11 := sign][12 := digit] + rest;
            var hour := if sign == '-' then -(DigitOf(digit) as int) else DigitOf(digit);
            Parsed(s) == Some(Seconds(FieldsIn(t).(h := hour), 0)) && !IsRfcText(s)
  {
    var s0 := DateTimeText(t, 'T') + rest;
    var s := DateTimeText(t, 'T')[11 := sign][12 := digit] + rest;
    FieldsOfText(t, 'T', rest);
    OtherFieldsStay(s0, s);
    assert s[11..13] == [sign, digit];
    SignedDigitParses(sign, digit);
    AcceptedIsRfcText(s);
  }

  lemma SignedDigitParses(sign: char, digit: char)
    requires (sign == '+' || sign == '-') && IsDigit(digit)
    ensures ParseInt([sign, digit]) == Some(if sign == '-' then -(DigitOf(digit) as int) else DigitOf(digit))
  {
    var one := [digit];
    assert [sign, digit][1..] == one && one[1..] == [];
    assert Accumulate(one, 0) == Accumulate(one[1..], DigitOf(digit));
  }

  lemma OtherFieldsStay(s: string, s': string)
    requires |s| == |s'| >= 20 && forall k | 0 <= k < |s| && k != 11 && k != 12 :: s'[k] == s[k]
    ensures Num(s', 0, 4) == Num(s, 0, 4) && Num(s', 5, 2) == Num(s, 5, 2) && Num(s', 8, 2) == Num(s, 8, 2)
    ensures Num(s', 14, 2) == Num(s, 14, 2) && Num(s', 17, 2) == Num(s, 17, 2)
  {
    assert s'[0..4] == s[0..4] && s'[5..7] == s[5..7] && s'[8..10] == s[8..10];
    assert s'[14..16] == s[14..16] && s'[17..19] == s[17..19];
  }

  /** Fourth: a year may have underscores inside; they do not count as digits. */
  lemma UnderscoreYearIsAccepted(t: Stamp, rest: string)
    requires LooseStamp(t) && |rest| >= 1 && rest[0] in {'Z', 'z'}
    ensures var s := DateTimeText(t, 'T')[1 := '_'] + rest;
            var year := t.date.y / 1000 * 100 + t.date.y % 100;
            Parsed(s) == Some(Seconds(FieldsIn(t).(y := year), 0)) && !IsRfcText(s)
  {
    var s0 := DateTimeText(t, 'T') + rest;
    var s := DateTimeText(t, 'T')[1 := '_'] + rest;
    FieldsOfText(t, 'T', rest);
    assert s[5..7] == s0[5..7] && s[8..10] == s0[8..10] && s[11..13] == s0[11..13];
    assert s[14..16] == s0[14..16] && s[17..19] == s0[17..19];
    assert s[0..4] == Four(t.date.y)[1 := '_'];
    UnderscoreYear(t.date.y);
    ParsedFrom(s, FieldsIn(t).(y := t.date.y / 1000 * 100 + t.date.y % 100), 19, 0);
    AcceptedIsRfcText(s);
  }

  lemma UnderscoreYear(y: nat)
    requires y <= 9999
    ensures ParseInt(Four(y)[1 := '_']) == Some(y / 1000 * 100 + y % 100)
  {
    UnderscoreParses(Four(y)[1 := '_']);
  }

  lemma UnderscoreParses(y: string)
    requires |y| == 4 && IsDigit(y[0]) && y[1] == '_' && IsDigit(y[2]) && IsDigit(y[3])
    ensures ParseInt(y) == Some(DigitOf(y[0]) * 100 + DigitOf(y[2]) * 10 + DigitOf(y[3]))
  {
    var y1, y2, y3 := y[1..], y[2..], y[3..];
    assert y1[1..] == y2 && y2[1..] == y3 && y3[1..] == [];
    var a := DigitOf(y[0]);
    assert Accumulate(y, 0) == Accumulate(y1, a);
    assert Accumulate(y1, a) == Accumulate(y2, a);
    var b := a * 10 + DigitOf(y[2]);
    assert Accumulate(y2, a) == Accumulate(y3, b);
    assert Accumulate(y3, b) == Accumulate([], b * 10 + DigitOf(y[3]));
  }
}
