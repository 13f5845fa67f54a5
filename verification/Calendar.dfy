/** Day numbers and dates as section 21.4.1 of ECMA-262 defines them, and the two ways the browser code
    tells a real date from an impossible one. Days are counted from 1970-01-01. */
module Calendar {

  predicate Leap(y: int) { y % 4 == 0 && (y % 100 != 0 || y % 400 == 0) }

  function DaysInYear(y: int): int { if Leap(y) then 366 else 365 }

  /** The day on which a year begins. */
  function DayFromYear(y: int): int
    decreases if y < 1970 then 1970 - y else y - 1970
  {
    if y == 1970 then 0
    else if y > 1970 then DayFromYear(y - 1) + DaysInYear(y - 1)
    else DayFromYear(y + 1) - DaysInYear(y)
  }

  lemma NextYear(y: int)
    ensures DayFromYear(y + 1) == DayFromYear(y) + DaysInYear(y)
  {
  }

  function Formula(y: int): int {
    365 * (y - 1970) + (y - 1969) / 4 - (y - 1901) / 100 + (y - 1601) / 400
  }

  lemma FormulaStep(y: int)
    ensures Formula(y + 1) == Formula(y) + DaysInYear(y)
  {
    assert (y - 1968) / 4 - (y - 1969) / 4 == if y % 4 == 0 then 1 else 0;
    assert (y - 1900) / 100 - (y - 1901) / 100 == if y % 100 == 0 then 1 else 0;
    assert (y - 1600) / 400 - (y - 1601) / 400 == if y % 400 == 0 then 1 else 0;
  }

  /** The closed formula of `DayFromYear` adds up the years. */
  lemma {:induction false} DayFormula(y: int)
    ensures DayFromYear(y) == Formula(y)
    decreases if y < 1970 then 1970 - y else y - 1970
  {
    if y > 1970 {
      DayFormula(y - 1);
      FormulaStep(y - 1);
    } else if y < 1970 {
      DayFormula(y + 1);
      FormulaStep(y);
    }
  }

  /** The year a day lies in. */
  predicate InYear(d: int, y: int) { DayFromYear(y) <= d < DayFromYear(y + 1) }

  lemma {:induction false} Climb(d: int, y: int) returns (r: int)
    requires DayFromYear(y) <= d
    ensures InYear(d, r)
    decreases d - DayFromYear(y)
  {
    NextYear(y);
    if d < DayFromYear(y + 1) { r := y; } else { r := Climb(d, y + 1); }
  }

  lemma LowEstimate(d: int)
    ensures DayFromYear(1970 + (if d >= 0 then d / 366 else d / 365)) <= d
  {
    var k := if d >= 0 then d / 366 else d / 365;
    DayFormula(1970 + k);
    LeapDaysBound(k);
  }

  lemma LeapDaysBound(k: int)
    ensures k >= 0 ==> Formula(1970 + k) <= 366 * k
    ensures k < 0 ==> Formula(1970 + k) <= 365 * k
  {
    var four, hundred, fourHundred := (k + 1) / 4, (k + 69) / 100, (k + 369) / 400;
    assert 4 * four <= k + 1;
    assert k - 30 <= 100 * hundred;
    assert 400 * fourHundred <= k + 369;
    if k >= 0 {
      assert 100 * hundred <= k + 69 < 100 * (hundred + 1);
      assert 400 * fourHundred < 400 * (hundred + 1);
    } else if k == -1 {
      assert four == hundred == fourHundred == 0;
    } else {
      assert 400 * (four - hundred + fourHundred) < 400;
    }
  }

  lemma {:induction false} LaterYears(y: int, z: int)
    requires y <= z
    ensures DayFromYear(y) + 365 * (z - y) <= DayFromYear(z)
    decreases z - y
  {
    if y < z {
      NextYear(z - 1);
      LaterYears(y, z - 1);
    }
  }

  /** Every day lies in exactly one year. */
  lemma OneYear(d: int)
    ensures exists y :: InYear(d, y)
    ensures forall y, z :: InYear(d, y) && InYear(d, z) ==> y == z
  {
    LowEstimate(d);
    var r := Climb(d, 1970 + (if d >= 0 then d / 366 else d / 365));
    forall y, z | InYear(d, y) && InYear(d, z) ensures y == z {
      if y < z { LaterYears(y + 1, z); }
      if z < y { LaterYears(z + 1, y); }
    }
  }

  /** `YearFromTime`. */
  function YearOf(d: int): (r: int)
    ensures InYear(d, r)
  {
    OneYear(d);
    var y :| InYear(d, y);
    y
  }

  lemma YearIsUnique(d: int, y: int)
    requires InYear(d, y)
    ensures YearOf(d) == y
  {
    OneYear(d);
  }

  // ---------------------------------------------------------------- months, counted from 0

  function DaysInMonth(leap: bool, m: int): int
    requires 0 <= m < 12
  {
    if m == 1 then (if leap then 29 else 28)
    else if m == 3 || m == 5 || m == 8 || m == 10 then 30
    else 31
  }

  /** Days of the year before the month begins. */
  function MonthStart(leap: bool, m: int): int
    requires 0 <= m <= 12
  {
    if m == 0 then 0 else MonthStart(leap, m - 1) + DaysInMonth(leap, m - 1)
  }

  lemma {:induction false} MonthStarts(leap: bool, m: int, n: int)
    requires 0 <= m <= n <= 12
    ensures MonthStart(leap, m) + 28 * (n - m) <= MonthStart(leap, n)
    decreases n - m
  {
    if m < n { MonthStarts(leap, m, n - 1); }
  }

  lemma TwelveMonths(leap: bool)
    ensures MonthStart(leap, 12) == if leap then 366 else 365
  {
    var february := if leap then 29 else 28;
    assert MonthStart(leap, 1) == 31;
    assert MonthStart(leap, 2) == 31 + february;
    assert MonthStart(leap, 3) == 62 + february;
    assert MonthStart(leap, 4) == 92 + february;
    assert MonthStart(leap, 5) == 123 + february;
    assert MonthStart(leap, 6) == 153 + february;
    assert MonthStart(leap, 7) == 184 + february;
    assert MonthStart(leap, 8) == 215 + february;
    assert MonthStart(leap, 9) == 245 + february;
    assert MonthStart(leap, 10) == 276 + february;
    assert MonthStart(leap, 11) == 306 + february;
  }

  predicate InMonth(leap: bool, within: int, m: int)
    requires 0 <= m < 12
  {
    MonthStart(leap, m) <= within < MonthStart(leap, m + 1)
  }

  lemma {:induction false} ClimbMonths(leap: bool, within: int, m: int) returns (r: int)
    requires 0 <= m < 12 && MonthStart(leap, m) <= within < MonthStart(leap, 12)
    ensures 0 <= r < 12 && InMonth(leap, within, r)
    decreases 12 - m
  {
    if within < MonthStart(leap, m + 1) { r := m; } else { r := ClimbMonths(leap, within, m + 1); }
  }

  /** Every day of a year lies in exactly one month. */
  lemma OneMonth(leap: bool, within: int)
    requires 0 <= within < MonthStart(leap, 12)
    ensures exists m :: 0 <= m < 12 && InMonth(leap, within, m)
    ensures forall m, n :: 0 <= m < 12 && 0 <= n < 12 && InMonth(leap, within, m) && InMonth(leap, within, n) ==> m == n
  {
    var r := ClimbMonths(leap, within, 0);
    forall m, n | 0 <= m < 12 && 0 <= n < 12 && InMonth(leap, within, m) && InMonth(leap, within, n) ensures m == n {
      if m < n { MonthStarts(leap, m + 1, n); }
      if n < m { MonthStarts(leap, n + 1, m); }
    }
  }

  /** `MonthFromTime`. */
  function MonthOf(leap: bool, within: int): (r: int)
    requires 0 <= within < MonthStart(leap, 12)
    ensures 0 <= r < 12 && InMonth(leap, within, r)
  {
    OneMonth(leap, within);
    var m :| 0 <= m < 12 && InMonth(leap, within, m);
    m
  }

  lemma MonthIsUnique(leap: bool, within: int, m: int)
    requires 0 <= m < 12 && InMonth(leap, within, m) && 0 <= within < MonthStart(leap, 12)
    ensures MonthOf(leap, within) == m
  {
    OneMonth(leap, within);
  }

  datatype Date = Date(year: int, month: int, day: int)

  /** Year, month and day of the month of a day number. */
  function DateOf(d: int): Date {
    var y := YearOf(d);
    var leap, within := Leap(y), d - DayFromYear(y);
    NextYear(y);
    TwelveMonths(leap);
    var m := MonthOf(leap, within);
    Date(y, m, within - MonthStart(leap, m) + 1)
  }

  function MonthDay(y: int, m: int, day: int): int
    requires 0 <= m < 12
  {
    DayFromYear(y) + MonthStart(Leap(y), m) + day - 1
  }

  /** `MakeDay`: months beyond the year carry into it, and any day offset is allowed. */
  function MakeDay(y: int, m: int, day: int): int { MonthDay(y + m / 12, m % 12, day) }

  predicate RealDate(y: int, m: int, day: int) { 0 <= m < 12 && 1 <= day <= DaysInMonth(Leap(y), m) }

  lemma SameYear(y: int, m: int, day: int)
    requires 0 <= m < 12
    ensures MakeDay(y, m, day) == MonthDay(y, m, day)
  {
  }

  lemma WithinYear(leap: bool, m: int, day: int, within: int)
    requires 0 <= m < 12 && 1 <= day <= DaysInMonth(leap, m) && within == MonthStart(leap, m) + day - 1
    ensures 0 <= within < MonthStart(leap, 12) && MonthOf(leap, within) == m
  {
    MonthStarts(leap, 0, m);
    MonthStarts(leap, m + 1, 12);
    MonthIsUnique(leap, within, m);
  }

  lemma DateInYear(y: int, leap: bool, within: int, d: int)
    requires leap == Leap(y) && 0 <= within < MonthStart(leap, 12) && d == DayFromYear(y) + within
    ensures var m := MonthOf(leap, within);
            DateOf(d) == Date(y, m, within - MonthStart(leap, m) + 1)
  {
    TwelveMonths(leap);
    NextYear(y);
    YearIsUnique(d, y);
  }

  lemma RealDateReturns(y: int, m: int, day: int)
    requires RealDate(y, m, day)
    ensures DateOf(MonthDay(y, m, day)) == Date(y, m, day)
  {
    var leap := Leap(y);
    var within := MonthStart(leap, m) + day - 1;
    WithinYear(leap, m, day, within);
    DateInYear(y, leap, within, MonthDay(y, m, day));
  }

  lemma DateOfIsReal(d: int)
    ensures var r := DateOf(d); RealDate(r.year, r.month, r.day) && MonthDay(r.year, r.month, r.day) == d
  {
  }

  /** A date comes back from its day number exactly when it is a real one. */
  lemma ReturnsIffReal(y: int, m: int, day: int)
    requires 0 <= m < 12
    ensures DateOf(MakeDay(y, m, day)) == Date(y, m, day) <==> RealDate(y, m, day)
  {
    SameYear(y, m, day);
    if RealDate(y, m, day) { RealDateReturns(y, m, day); }
    DateOfIsReal(MonthDay(y, m, day));
  }

  lemma DayZeroIs(y: int, m: int)
    requires 1 <= m <= 12
    ensures MakeDay(y, m, 0) == MonthDay(y, m - 1, DaysInMonth(Leap(y), m - 1))
  {
    if m == 12 {
      NextYear(y);
      TwelveMonths(Leap(y));
      assert MakeDay(y, 12, 0) == MonthDay(y + 1, 0, 0);
    } else {
      SameYear(y, m, 0);
    }
  }

  /** Day 0 of the next month is the last day of this one. */
  lemma DayZero(y: int, m: int)
    requires 1 <= m <= 12
    ensures DateOf(MakeDay(y, m, 0)).day == DaysInMonth(Leap(y), m - 1)
  {
    DayZeroIs(y, m);
    RealDateReturns(y, m - 1, DaysInMonth(Leap(y), m - 1));
  }

  // ---------------------------------------------------------------- times

  datatype Clock = Clock(hour: int, minute: int, second: int, ms: int)

  predicate RealClock(c: Clock) { 0 <= c.hour <= 23 && 0 <= c.minute <= 59 && 0 <= c.second <= 59 && 0 <= c.ms <= 999 }

  function MakeTime(c: Clock): int { c.hour * 3600000 + c.minute * 60000 + c.second * 1000 + c.ms }

  /** A time value, kept as `Day` and `TimeWithinDay`. */
  datatype Time = Time(day: int, ms: int)

  predicate ProperTime(t: Time) { 0 <= t.ms < 86400000 }

  /** `MakeDate`: milliseconds beyond the day carry into it. */
  function MakeDate(day: int, ms: int): Time { Time(day + ms / 86400000, ms % 86400000) }

  function ClockOf(t: Time): Clock { Clock(t.ms / 3600000, (t.ms / 60000) % 60, (t.ms / 1000) % 60, t.ms % 1000) }

  lemma ClockReturns(day: int, c: Clock)
    requires RealClock(c)
    ensures MakeDate(day, MakeTime(c)) == Time(day, MakeTime(c)) && ClockOf(Time(day, MakeTime(c))) == c
    ensures ProperTime(Time(day, MakeTime(c)))
  {
    var t := MakeTime(c);
    assert 0 <= t < 86400000;
    assert t / 3600000 == c.hour;
    assert t / 60000 == c.hour * 60 + c.minute;
    assert t / 1000 == (c.hour * 60 + c.minute) * 60 + c.second;
  }

  lemma ClockIsReal(t: Time)
    requires ProperTime(t)
    ensures RealClock(ClockOf(t)) && MakeTime(ClockOf(t)) == t.ms
  {
    var w := t.ms;
    assert w == w / 1000 * 1000 + w % 1000;
    assert w / 1000 == w / 60000 * 60 + w / 1000 % 60;
    assert w / 60000 == w / 3600000 * 60 + w / 60000 % 60;
  }

  // ---------------------------------------------------------------- the two tests

  /** `MakeFullYear`: years 0 to 99 given to `Date.UTC` mean 1900 to 1999. */
  function FullYear(y: int): int { if 0 <= y <= 99 then 1900 + y else y }

  /** `Date.UTC`, months counted from 0. */
  function DateUtc(y: int, m: int, day: int, c: Clock): Time {
    MakeDate(MakeDay(FullYear(y), m, day), MakeTime(c))
  }

  predicate ClockInRange(c: Clock) { c.hour <= 23 && c.minute <= 59 && c.second <= 59 }

  /** `hasValidTimestampComponents`: the wall clock must come back from UTC unchanged. */
  predicate ReturnsFromUtc(y: int, month: int, day: int, c: Clock) {
    && y != 0 && 1 <= month <= 12 && day >= 1 && ClockInRange(c)
    && var t := DateUtc(y, month - 1, day, c);
       DateOf(t.day) == Date(y, month - 1, day) && ClockOf(t) == c
  }

  /** The day number of day 0 of the month that follows `month` (counted from 1). */
  function DayBeforeNext(y: int, month: int): int { MakeDate(MakeDay(FullYear(y), month, 0), 0).day }

  /** `daysInMonth` as `normalizeTimestamp` of the other application computes it. */
  function LastDayOf(y: int, month: int): int { DateOf(DayBeforeNext(y, month)).day }

  /** Its test, given that number. */
  predicate WithinMonth(y: int, month: int, day: int, c: Clock, daysInMonth: int) {
    y >= 1 && 1 <= month <= 12 && 1 <= day <= daysInMonth && ClockInRange(c)
  }

  predicate Unsigned(c: Clock) { c.hour >= 0 && c.minute >= 0 && c.second >= 0 && 0 <= c.ms <= 999 }

  lemma ReturnsFromUtcIsReal(y: int, month: int, day: int, c: Clock)
    requires Unsigned(c) && y >= 100
    ensures ReturnsFromUtc(y, month, day, c) <==> RealDate(y, month - 1, day) && ClockInRange(c)
  {
    if 1 <= month <= 12 && ClockInRange(c) {
      ClockReturns(MakeDay(y, month - 1, day), c);
      ReturnsIffReal(y, month - 1, day);
    }
  }

  lemma CenturiesApart(y: int, m: int, day: int)
    requires 0 <= m < 12
    ensures MonthDay(y, m, day) < MonthDay(1900 + y, m, day)
  {
    LaterYears(y, 1900 + y);
    MonthBound(Leap(y), m);
    MonthBound(Leap(1900 + y), m);
  }

  lemma DateOfOther(y: int, m: int, day: int)
    requires 0 <= m < 12
    ensures DateOf(MakeDay(1900 + y, m, day)) != Date(y, m, day)
  {
    SameYear(1900 + y, m, day);
    CenturiesApart(y, m, day);
    DateOfIsReal(MonthDay(1900 + y, m, day));
  }

  /** Years 1 to 99 never come back: they return as 1901 to 1999. */
  lemma FirstCenturyNeverReturns(y: int, month: int, day: int, c: Clock)
    requires Unsigned(c) && 0 <= y <= 99
    ensures !ReturnsFromUtc(y, month, day, c)
  {
    if 1 <= month <= 12 && ClockInRange(c) {
      ClockReturns(MakeDay(1900 + y, month - 1, day), c);
      DateOfOther(y, month - 1, day);
    }
  }

  lemma MonthBound(leap: bool, m: int)
    requires 0 <= m < 12
    ensures 0 <= MonthStart(leap, m) <= 366
  {
    MonthStarts(leap, 0, m);
    MonthStarts(leap, m, 12);
    TwelveMonths(leap);
  }

  lemma SameLeapYears(y: int, f: int)
    requires y >= 1 && f == FullYear(y)
    ensures Leap(f) == Leap(y)
  {
  }

  /** `daysInMonth` is right in every year, the first century included. */
  lemma DaysAreRight(y: int, month: int)
    requires y >= 1 && 1 <= month <= 12
    ensures LastDayOf(y, month) == DaysInMonth(Leap(y), month - 1)
  {
    DayZero(FullYear(y), month);
    SameLeapYears(y, FullYear(y));
  }

  lemma WithinMonthIsReal(y: int, month: int, day: int, c: Clock, daysInMonth: int)
    requires y >= 1 && 1 <= month <= 12 ==> daysInMonth == DaysInMonth(Leap(y), month - 1)
    ensures WithinMonth(y, month, day, c, daysInMonth) <==> y >= 1 && RealDate(y, month - 1, day) && ClockInRange(c)
  {
  }

  predicate RightDays(y: int, month: int, daysInMonth: int) {
    y >= 1 && 1 <= month <= 12 ==> daysInMonth == DaysInMonth(Leap(y), month - 1)
  }

  /** The two tests accept the same dates exactly from year 100 on (and on impossible dates). */
  lemma TestsAgree(y: int, month: int, day: int, c: Clock, daysInMonth: int)
    requires Unsigned(c) && y >= 0 && RightDays(y, month, daysInMonth)
    ensures (ReturnsFromUtc(y, month, day, c) <==> WithinMonth(y, month, day, c, daysInMonth))
       <==> y == 0 || y >= 100 || !RealDate(y, month - 1, day) || !ClockInRange(c)
  {
    WithinMonthIsReal(y, month, day, c, daysInMonth);
    if y >= 100 { ReturnsFromUtcIsReal(y, month, day, c); } else { FirstCenturyNeverReturns(y, month, day, c); }
  }
}
