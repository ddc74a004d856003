/**
 The closed-form day count of the UI client, against the calendar itself: the proleptic Gregorian
 calendar as a successor function on dates.
 */
module Calendar {

  datatype Date = Date(y: int, m: int, d: int)

  predicate Leap(y: int) {
    y % 4 == 0 && (y % 100 != 0 || y % 400 == 0)
  }

  function DaysInMonth(y: int, m: int): (n: int) {
    if m == 2 then (if Leap(y) then 29 else 28)
    else if m in {4, 6, 9, 11} then 30
    else 31
  }

  predicate ValidDate(t: Date) {
    1 <= t.m <= 12 && 1 <= t.d <= DaysInMonth(t.y, t.m)
  }

  function NextDay(t: Date): (r: Date)
    requires ValidDate(t)
    ensures ValidDate(r)
  {
    if t.d < DaysInMonth(t.y, t.m) then t.(d := t.d + 1)
    else if t.m < 12 then Date(t.y, t.m + 1, 1)
    else Date(t.y + 1, 1, 1)
  }

  predicate Before(s: Date, t: Date) {
    s.y < t.y || (s.y == t.y && (s.m < t.m || (s.m == t.m && s.d < t.d)))
  }

  /** `daysFromCivil`. Division rounds towards minus infinity, as @divFloor does; the other divisions are of
      non-negative numbers. */
  function DaysFromCivil(y: int, m: int, d: int): (n: int) {
    var yy := if m <= 2 then y - 1 else y;
    var era := yy / 400;
    var yoe := yy - era * 400;
    var mp := (m + 9) % 12;
    var doy := (153 * mp + 2) / 5 + d - 1;
    var doe := yoe * 365 + yoe / 4 - yoe / 100 + doy;
    era * 146097 + doe - 719468
  }

  // ---- the reference count ----

  function DaysInYear(y: int): (n: int) {
    if Leap(y) then 366 else 365
  }

  /** Days from 1970-01-01 to January 1 of year `y`, one year at a time. */
  function YearStart(y: int): (n: int)
    decreases if y >= 1970 then y - 1970 else 1970 - y
  {
    if y == 1970 then 0
    else if y > 1970 then YearStart(y - 1) + DaysInYear(y - 1)
    else YearStart(y + 1) - DaysInYear(y)
  }

  /** Days from January 1 to the first of month `m`, one month at a time. */
  function MonthStart(y: int, m: int): (n: int)
    requires 1 <= m <= 12
    decreases m
  {
    if m == 1 then 0 else MonthStart(y, m - 1) + DaysInMonth(y, m - 1)
  }

  function DayCount(t: Date): (n: int)
    requires 1 <= t.m <= 12
  {
    YearStart(t.y) + MonthStart(t.y, t.m) + t.d - 1
  }

  // ---- the closed form counts the same days ----

  /** Days before March 1 of year `yy`, up to a constant, without the era decomposition. */
  function MarchCount(yy: int): (n: int) {
    365 * yy + yy / 4 - yy / 100 + yy / 400
  }

  lemma EraDecomposition(yy: int)
    ensures var era := yy / 400; var yoe := yy - era * 400;
            era * 146097 + yoe * 365 + yoe / 4 - yoe / 100 == MarchCount(yy)
  {
    var era := yy / 400;
    var yoe := yy - era * 400;
    assert yy == 400 * era + yoe;
    assert yy / 4 == 100 * era + yoe / 4;
    assert yy / 100 == 4 * era + yoe / 100;
  }

  lemma MarchCountGrows(yy: int)
    ensures MarchCount(yy) == MarchCount(yy - 1) + DaysInYear(yy)
  {
    DivGrows(yy, 4);
    DivGrows(yy, 100);
    DivGrows(yy, 400);
    CenturiesAreLeapCandidates(yy);
  }

  lemma CenturiesAreLeapCandidates(y: int)
    ensures y % 100 == 0 ==> y % 4 == 0
    ensures y % 400 == 0 ==> y % 100 == 0
  {
    var c, e := y / 100, y / 400;
    if y % 100 == 0 { assert y == 4 * (25 * c); }
    if y % 400 == 0 { assert y == 100 * (4 * e); }
  }

  lemma DivGrows(x: int, k: int)
    requires k in {4, 100, 400}
    ensures x / k == (x - 1) / k + if x % k == 0 then 1 else 0
  {
  }

  /** The month table of the closed form, counted from March. */
  lemma MonthTable(y: int, m: int)
    requires 1 <= m <= 12
    ensures var mp := (m + 9) % 12;
            (153 * mp + 2) / 5 ==
            if m <= 2 then MonthStart(y, m) + 306 else MonthStart(y, m) - MonthStart(y, 3)
  {
    assert MonthStart(y, 2) == 31;
    assert MonthStart(y, 3) == 31 + DaysInMonth(y, 2);
    assert m >= 4 ==> MonthStart(y, 4) == MonthStart(y, 3) + 31;
    assert m >= 5 ==> MonthStart(y, 5) == MonthStart(y, 3) + 61;
    assert m >= 6 ==> MonthStart(y, 6) == MonthStart(y, 3) + 92;
    assert m >= 7 ==> MonthStart(y, 7) == MonthStart(y, 3) + 122;
    assert m >= 8 ==> MonthStart(y, 8) == MonthStart(y, 3) + 153;
    assert m >= 9 ==> MonthStart(y, 9) == MonthStart(y, 3) + 184;
    assert m >= 10 ==> MonthStart(y, 10) == MonthStart(y, 3) + 214;
    assert m >= 11 ==> MonthStart(y, 11) == MonthStart(y, 3) + 245;
    assert m >= 12 ==> MonthStart(y, 12) == MonthStart(y, 3) + 275;
  }

  /** January 1 of every year, forwards and backwards from 1970. */
  lemma {:induction false} YearStartIs(y: int)
    ensures YearStart(y) == MarchCount(y - 1) + 306 - 719468
    decreases if y >= 1970 then y - 1970 else 1970 - y
  {
    if y == 1970 {
    } else if y > 1970 {
      YearStartIs(y - 1);
      MarchCountGrows(y - 1);
    } else {
      YearStartIs(y + 1);
      MarchCountGrows(y);
    }
  }

  /** For every integer year and every valid date the closed form equals the day-by-day count. */
  lemma ClosedFormIsDayCount(t: Date)
    requires ValidDate(t)
    ensures DaysFromCivil(t.y, t.m, t.d) == DayCount(t)
  {
    MonthTable(t.y, t.m);
    YearStartIs(t.y);
    if t.m <= 2 {
      EraDecomposition(t.y - 1);
    } else {
      EraDecomposition(t.y);
      MarchCountGrows(t.y);
      assert MonthStart(t.y, 3) == 31 + DaysInMonth(t.y, 2);
    }
  }

  /** The count is 0 at the epoch and goes up by exactly one from each day to the next, across month, leap-year and
      400-year boundaries. */
  lemma CountsDays(t: Date)
    requires ValidDate(t)
    ensures DaysFromCivil(1970, 1, 1) == 0
    ensures DaysFromCivil(NextDay(t).y, NextDay(t).m, NextDay(t).d) == DaysFromCivil(t.y, t.m, t.d) + 1
  {
    EpochIsZero();
    ClosedFormIsDayCount(t);
    ClosedFormIsDayCount(NextDay(t));
    NextDayCounts(t);
  }

  lemma EpochIsZero()
    ensures DaysFromCivil(1970, 1, 1) == 0
  {
  }

  lemma NextDayCounts(t: Date)
    requires ValidDate(t)
    ensures DayCount(NextDay(t)) == DayCount(t) + 1
  {
    if t.d == DaysInMonth(t.y, t.m) && t.m == 12 {
      YearLength(t.y);
      YearStartGrows(t.y);
    }
  }

  lemma YearLength(y: int)
    ensures MonthStart(y, 12) + 31 == DaysInYear(y)
  {
    MonthTable(y, 12);
    assert MonthStart(y, 3) == 31 + DaysInMonth(y, 2) by { assert MonthStart(y, 2) == 31; }
  }

  lemma YearStartGrows(y: int)
    ensures YearStart(y + 1) == YearStart(y) + DaysInYear(y)
  {
    YearStartIs(y);
    YearStartIs(y + 1);
    MarchCountGrows(y);
  }

  lemma {:induction false} YearStartMonotone(y: int, z: int)
    requires y < z
    ensures YearStart(y) + DaysInYear(y) <= YearStart(z)
    decreases z - y
  {
    YearStartGrows(y);
    if y + 1 < z { YearStartMonotone(y + 1, z); }
  }

  lemma {:induction false} MonthStartMonotone(y: int, m: int, n: int)
    requires 1 <= m < n <= 12
    ensures MonthStart(y, m) + DaysInMonth(y, m) <= MonthStart(y, n)
    decreases n
  {
    if m < n - 1 { MonthStartMonotone(y, m, n - 1); }
  }

  /** A date lies within its year. */
  lemma WithinYear(t: Date)
    requires ValidDate(t)
    ensures 0 <= MonthStart(t.y, t.m) + t.d - 1 < DaysInYear(t.y)
  {
    YearLength(t.y);
    if t.m < 12 { MonthStartMonotone(t.y, t.m, 12); }
    if t.m > 1 { MonthStartMonotone(t.y, 1, t.m); }
  }

  /** The count orders valid dates as the calendar does, so it determines the date. */
  lemma StrictlyMonotone(s: Date, t: Date)
    requires ValidDate(s) && ValidDate(t)
    ensures DaysFromCivil(s.y, s.m, s.d) < DaysFromCivil(t.y, t.m, t.d) <==> Before(s, t)
    ensures DaysFromCivil(s.y, s.m, s.d) == DaysFromCivil(t.y, t.m, t.d) <==> s == t
  {
    if Before(s, t) { LaterCountsMore(s, t); }
    if Before(t, s) { LaterCountsMore(t, s); }
  }

  lemma LaterCountsMore(s: Date, t: Date)
    requires ValidDate(s) && ValidDate(t) && Before(s, t)
    ensures DaysFromCivil(s.y, s.m, s.d) < DaysFromCivil(t.y, t.m, t.d)
  {
    ClosedFormIsDayCount(s);
    ClosedFormIsDayCount(t);
    if s.y < t.y {
      YearStartMonotone(s.y, t.y);
      WithinYear(s);
      WithinYear(t);
    } else if s.m < t.m {
      MonthStartMonotone(s.y, s.m, t.m);
    }
  }
}
