/**
 * Civil dates and day numbers: `days_from_civil` (crates/mxdx-client/src/liveness.rs) and the
 * closed-form inverse used by the timestamp printers (crates/mxdx-matrix/src/client.rs and
 * crates/mxdx-client/src/diagnose.rs), against a naive count of the Gregorian calendar.
 */
module Calendar {
  import opened Common

  datatype Date = Date(year: int, month: int, day: int)

  /** Rust's `/` on signed integers, for a positive divisor. */
  function TruncDiv(a: int, b: int): int
    requires b > 0
  {
    if a >= 0 then a / b else -((-a) / b)
  }

  // ---------------------------------------------------------------------------
  // The code
  // ---------------------------------------------------------------------------

  function DaysFromCivil(date: Date): int {
    var y := if date.month <= 2 then date.year - 1 else date.year;
    var era := TruncDiv(if y >= 0 then y else y - 399, 400);
    var yoe := y - era * 400;
    var doy := if date.month > 2
               then (153 * (date.month - 3) + 2) / 5 + date.day - 1
               else (153 * (date.month + 9) + 2) / 5 + date.day - 1;
    var doe := yoe * 365 + yoe / 4 - yoe / 100 + doy;
    era * 146097 + doe - 719468
  }

  function CivilFromDays(days: int): Date {
    var z := days + 719468;
    var era := EraOf(z);
    CivilInEra(era, z - era * 146097)
  }

  function EraOf(z: int): int {
    TruncDiv(if z >= 0 then z else z - 146096, 146097)
  }

  function CivilInEra(era: int, doe: int): Date {
    var yoe := YearOfEra(doe);
    MarchDate(yoe + era * 400, doe - EraYearStart(yoe))
  }

  /** The days of an era before year `yoe` of it. */
  function EraYearStart(yoe: int): int {
    365 * yoe + yoe / 4 - yoe / 100
  }

  /** The date of day `doy` of the year that starts on 1 March of `y`. */
  function MarchDate(y: int, doy: int): Date {
    var mp := (5 * doy + 2) / 153;
    var d := doy - (153 * mp + 2) / 5 + 1;
    var m := if mp < 10 then mp + 3 else mp - 9;
    Date(if m <= 2 then y + 1 else y, m, d)
  }

  function YearOfEra(doe: int): int {
    (doe - doe / 1460 + doe / 36524 - doe / 146096) / 365
  }

  // ---------------------------------------------------------------------------
  // The Gregorian calendar
  // ---------------------------------------------------------------------------

  predicate IsLeap(year: int) {
    year % 4 == 0 && (year % 100 != 0 || year % 400 == 0)
  }

  function YearLength(year: int): nat {
    if IsLeap(year) then 366 else 365
  }

  function DaysInMonth(year: int, month: int): nat {
    if month == 2 then (if IsLeap(year) then 29 else 28)
    else if month == 4 || month == 6 || month == 9 || month == 11 then 30
    else 31
  }

  predicate Valid(date: Date) {
    1 <= date.month <= 12 && 1 <= date.day <= DaysInMonth(date.year, date.month)
  }

  function NextDay(date: Date): Date {
    if date.day < DaysInMonth(date.year, date.month) then date.(day := date.day + 1)
    else if date.month < 12 then Date(date.year, date.month + 1, 1)
    else Date(date.year + 1, 1, 1)
  }

  /** Days from 1 January 1970 to 1 January of `year`, counting year by year. */
  function YearStart(year: int): int
    decreases if year >= 1970 then year - 1970 else 1970 - year
  {
    if year == 1970 then 0
    else if year > 1970 then YearStart(year - 1) + YearLength(year - 1)
    else YearStart(year + 1) - YearLength(year)
  }

  /** Days of `year` before its `month`, counting month by month. */
  function MonthStart(year: int, month: int): nat
    decreases month
  {
    if month <= 1 then 0 else MonthStart(year, month - 1) + DaysInMonth(year, month - 1)
  }

  function NaiveDays(date: Date): int {
    YearStart(date.year) + MonthStart(date.year, date.month) + date.day - 1
  }

  // ---------------------------------------------------------------------------
  // The day number is the naive count
  // ---------------------------------------------------------------------------

  /** The `if y >= 0 { y } else { y - (n - 1) } / n` of the code is floor division. */
  lemma EraIsFloor(y: int, n: int)
    requires n > 0
    ensures TruncDiv(if y >= 0 then y else y - (n - 1), n) == y / n
  {
    if y < 0 {
      var k := (n - 1) - y;
      assert k == n * (k / n) + k % n;
      assert y == n * -(k / n) + (n - 1 - k % n);
      DivModIs(y, n, -(k / n), n - 1 - k % n);
    }
  }

  /** Leap days before year `y + 1`. */
  function Leaps(y: int): int {
    y / 4 - y / 100 + y / 400
  }

  lemma FloorStep(y: int, n: int)
    requires n > 1
    ensures y / n == (y - 1) / n + if y % n == 0 then 1 else 0
  {
    var q, r := y / n, y % n;
    assert y == n * q + r;
    if r == 0 {
      assert y - 1 == n * (q - 1) + (n - 1);
      DivModIs(y - 1, n, q - 1, n - 1);
    } else {
      DivModIs(y - 1, n, q, r - 1);
    }
  }

  /** One more leap day for a leap year. */
  lemma LeapStep(year: int)
    ensures Leaps(year) == Leaps(year - 1) + if IsLeap(year) then 1 else 0
  {
    FloorStep(year, 4);
    FloorStep(year, 100);
    FloorStep(year, 400);
    assert year % 100 == 0 ==> year % 4 == 0;
    assert year % 400 == 0 ==> year % 100 == 0;
  }

  lemma {:induction false} YearStartClosed(year: int)
    ensures YearStart(year) == 365 * (year - 1970) + Leaps(year - 1) - Leaps(1969)
    decreases if year >= 1970 then year - 1970 else 1970 - year
  {
    if year > 1970 {
      YearStartClosed(year - 1);
      LeapStep(year - 1);
    } else if year < 1970 {
      YearStartClosed(year + 1);
      LeapStep(year);
    }
  }

  lemma LeapsInEra(y: int)
    ensures Leaps(y) == 97 * (y / 400) + y % 400 / 4 - y % 400 / 100
  {
    var era, yoe := y / 400, y % 400;
    assert y == 400 * era + yoe;
    DivModIs(y, 4, 100 * era + yoe / 4, yoe % 4);
    DivModIs(y, 100, 4 * era + yoe / 100, yoe % 100);
  }

  lemma MonthStartClosed(year: int, month: int)
    requires 1 <= month <= 12
    ensures MonthStart(year, month) ==
      if month > 2 then (153 * (month - 3) + 2) / 5 + 59 + (if IsLeap(year) then 1 else 0)
      else (153 * (month + 9) + 2) / 5 - 306
  {
    if month > 1 {
      MonthStartClosed(year, month - 1);
    }
  }

  lemma DaysClosed(date: Date)
    ensures var y := if date.month <= 2 then date.year - 1 else date.year;
      DaysFromCivil(date) == 365 * y + Leaps(y) + (153 * MarchMonth(date) + 2) / 5 + date.day - 1 - 719468
  {
    var y := if date.month <= 2 then date.year - 1 else date.year;
    EraIsFloor(y, 400);
    LeapsInEra(y);
  }

  /** Months counted from March. */
  function MarchMonth(date: Date): int {
    if date.month > 2 then date.month - 3 else date.month + 9
  }

  lemma EarlyMonthsAreNaive(date: Date)
    requires 1 <= date.month <= 2
    ensures DaysFromCivil(date) == NaiveDays(date)
  {
    hide Leaps, DaysFromCivil, YearStart, MonthStart, IsLeap;
    DaysClosed(date);
    YearStartClosed(date.year);
    MonthStartClosed(date.year, date.month);
    LeapsOf1969();
  }

  lemma LeapsOf1969()
    ensures Leaps(1969) == 477
  {
  }

  lemma LateMonthsAreNaive(date: Date)
    requires 3 <= date.month <= 12
    ensures DaysFromCivil(date) == NaiveDays(date)
  {
    hide Leaps, DaysFromCivil, YearStart, MonthStart;
    DaysClosed(date);
    YearStartClosed(date.year);
    MonthStartClosed(date.year, date.month);
    LeapStep(date.year);
    LeapsOf1969();
  }

  /** For every date of the proleptic calendar, the closed form is the naive count. */
  lemma DaysAreNaive(date: Date)
    requires 1 <= date.month <= 12
    ensures DaysFromCivil(date) == NaiveDays(date)
  {
    if date.month <= 2 {
      EarlyMonthsAreNaive(date);
    } else {
      LateMonthsAreNaive(date);
    }
  }

  /** Advancing one calendar day adds exactly one, and the epoch is day 0. */
  lemma NextDayAddsOne(date: Date)
    requires Valid(date)
    ensures Valid(NextDay(date))
    ensures DaysFromCivil(NextDay(date)) == DaysFromCivil(date) + 1
    ensures DaysFromCivil(Date(1970, 1, 1)) == 0
  {
    DaysAreNaive(date);
    NextDayNaive(date);
    DaysAreNaive(NextDay(date));
    DaysAreNaive(Date(1970, 1, 1));
  }

  lemma NextDayNaive(date: Date)
    requires Valid(date)
    ensures Valid(NextDay(date)) && NaiveDays(NextDay(date)) == NaiveDays(date) + 1
  {
    if date.month == 12 {
      MonthStartClosed(date.year, 12);
      YearStartStep(date.year);
    }
  }

  lemma YearStartStep(year: int)
    ensures YearStart(year + 1) == YearStart(year) + YearLength(year)
  {
  }

  // ---------------------------------------------------------------------------
  // The inverse
  // ---------------------------------------------------------------------------

  /**
   * A day of an era: century, four-year cycle, year of the cycle, and day of a year that
   * starts in March.
   */
  ghost predicate EraDay(doe: int, c: int, q: int, r: int, doy: int) {
    && 0 <= c <= 3 && 0 <= q <= 24 && 0 <= r <= 3
    && 0 <= doy <= (if r == 3 && (q < 24 || c == 3) then 365 else 364)
    && doe == 36524 * c + 1461 * q + 365 * r + doy
  }

  lemma YearOfEraIs(doe: int, c: int, q: int, r: int, doy: int)
    requires EraDay(doe, c, q, r, doy)
    ensures YearOfEra(doe) == 100 * c + 4 * q + r
  {
    var e := if 24 * c + q + 365 * r + doy >= 1460 then 1 else 0;
    assert doe / 1460 == 25 * c + q + e;
    assert doe / 36524 - doe / 146096 == c;
    assert doe - doe / 1460 + doe / 36524 - doe / 146096 == 365 * (100 * c + 4 * q + r) + (doy - e);
  }

  lemma EraYearParts(c: int, q: int, r: int)
    requires 0 <= c <= 3 && 0 <= q <= 24 && 0 <= r <= 3
    ensures EraYearStart(100 * c + 4 * q + r) == 36524 * c + 1461 * q + 365 * r
  {
    var yoe := 100 * c + 4 * q + r;
    assert yoe / 4 == 25 * c + q;
    assert yoe / 100 == c;
  }

  lemma EraDayExists(doe: int) returns (c: int, q: int, r: int, doy: int)
    requires 0 <= doe < 146097
    ensures EraDay(doe, c, q, r, doy)
  {
    c := if doe == 146096 then 3 else doe / 36524;
    var day := doe - 36524 * c;
    q := day / 1461;
    var rest := day - 1461 * q;
    r := if rest == 1460 then 3 else rest / 365;
    doy := rest - 365 * r;
  }

  /** Month and day of a year that starts in March. */
  lemma MonthOfDay(y: int, doy: int)
    requires 0 <= doy <= if IsLeap(y + 1) then 365 else 364
    ensures Valid(MarchDate(y, doy))
    ensures var date := MarchDate(y, doy); var mp := MarchMonth(date);
      && (if date.month <= 2 then date.year - 1 else date.year) == y
      && (153 * mp + 2) / 5 + date.day - 1 == doy
  {
    var mp := (5 * doy + 2) / 153;
    assert mp == 0 || mp == 1 || mp == 2 || mp == 3 || mp == 4 || mp == 5
        || mp == 6 || mp == 7 || mp == 8 || mp == 9 || mp == 10 || mp == 11;
  }

  lemma DayOfMonth(date: Date)
    requires Valid(date)
    ensures var mp := MarchMonth(date);
      var y := if date.month <= 2 then date.year - 1 else date.year;
      var doy := (153 * mp + 2) / 5 + date.day - 1;
      && 0 <= doy <= (if IsLeap(y + 1) then 365 else 364)
      && MarchDate(y, doy) == date
  {
    var mp := MarchMonth(date);
    var doy := (153 * mp + 2) / 5 + date.day - 1;
    assert mp == 0 || mp == 1 || mp == 2 || mp == 3 || mp == 4 || mp == 5
        || mp == 6 || mp == 7 || mp == 8 || mp == 9 || mp == 10 || mp == 11;
    assert (5 * doy + 2) / 153 == mp;
  }

  /** The year starting in March of `y` ends with the February of `y + 1`. */
  lemma MarchYearLeap(era: int, c: int, q: int, r: int)
    requires 0 <= c <= 3 && 0 <= q <= 24 && 0 <= r <= 3
    ensures IsLeap(400 * era + 100 * c + 4 * q + r + 1) <==> r == 3 && (q < 24 || c == 3)
  {
    var y := 400 * era + 100 * c + 4 * q + r + 1;
    if r < 3 {
      DivModIs(y, 4, 100 * era + 25 * c + q, r + 1);
    } else {
      DivModIs(y, 4, 100 * era + 25 * c + q + 1, 0);
      if q < 24 {
        DivModIs(y, 100, 4 * era + c, 4 * q + 4);
      } else {
        DivModIs(y, 100, 4 * era + c + 1, 0);
        if c < 3 {
          DivModIs(y, 400, era, 100 * c + 100);
        } else {
          DivModIs(y, 400, era + 1, 0);
        }
      }
    }
  }

  lemma DaysParts(date: Date, era: int, c: int, q: int, r: int)
    requires 0 <= c <= 3 && 0 <= q <= 24 && 0 <= r <= 3
    requires (if date.month <= 2 then date.year - 1 else date.year) == 400 * era + 100 * c + 4 * q + r
    ensures var doy := (153 * MarchMonth(date) + 2) / 5 + date.day - 1;
      DaysFromCivil(date) == 146097 * era + 36524 * c + 1461 * q + 365 * r + doy - 719468
  {
    var y := if date.month <= 2 then date.year - 1 else date.year;
    EraIsFloor(y, 400);
    DivModIs(y, 400, era, 100 * c + 4 * q + r);
    EraYearParts(c, q, r);
  }

  lemma CivilInEraIs(era: int, c: int, q: int, r: int, doe: int, doy: int)
    requires EraDay(doe, c, q, r, doy)
    ensures CivilInEra(era, doe) == MarchDate(400 * era + 100 * c + 4 * q + r, doy)
  {
    hide YearOfEra, EraYearStart, MarchDate;
    YearOfEraIs(doe, c, q, r, doy);
    EraYearParts(c, q, r);
    var yoe := 100 * c + 4 * q + r;
    assert CivilInEra(era, doe) == MarchDate(yoe + era * 400, doe - EraYearStart(yoe));
  }

  lemma EraOfIs(era: int, doe: int)
    requires 0 <= doe < 146097
    ensures EraOf(146097 * era + doe) == era
  {
    var z := 146097 * era + doe;
    EraIsFloor(z, 146097);
    DivModIs(z, 146097, era, doe);
  }

  lemma YearParts(y: int) returns (era: int, c: int, q: int, r: int)
    ensures y == 400 * era + 100 * c + 4 * q + r
    ensures 0 <= c <= 3 && 0 <= q <= 24 && 0 <= r <= 3
  {
    era := y / 400;
    var yoe := y % 400;
    c := yoe / 100;
    q := yoe % 100 / 4;
    r := yoe % 100 % 4;
  }

  lemma MarchDayInEra(era: int, c: int, q: int, r: int, doy: int)
    requires 0 <= c <= 3 && 0 <= q <= 24 && 0 <= r <= 3
    requires 0 <= doy <= if IsLeap(400 * era + 100 * c + 4 * q + r + 1) then 365 else 364
    ensures EraDay(36524 * c + 1461 * q + 365 * r + doy, c, q, r, doy)
  {
    MarchYearLeap(era, c, q, r);
  }

  /** Converting a date to its day number and back gives the date. */
  lemma CivilOfDays(date: Date)
    requires Valid(date)
    ensures CivilFromDays(DaysFromCivil(date)) == date
  {
    hide EraOf, CivilInEra, MarchDate, DaysFromCivil, Valid, EraDay, MarchMonth, IsLeap;
    var y := if date.month <= 2 then date.year - 1 else date.year;
    var era, c, q, r := YearParts(y);
    var doy := (153 * MarchMonth(date) + 2) / 5 + date.day - 1;
    var doe := 36524 * c + 1461 * q + 365 * r + doy;
    DayOfMonth(date);
    MarchDayInEra(era, c, q, r, doy);
    DaysParts(date, era, c, q, r);
    EraOfIs(era, doe);
    CivilInEraIs(era, c, q, r, doe, doy);
  }

  lemma MarchDateInEra(era: int, doe: int, c: int, q: int, r: int, doy: int)
    requires EraDay(doe, c, q, r, doy)
    ensures var date := MarchDate(400 * era + 100 * c + 4 * q + r, doy);
      Valid(date) && DaysFromCivil(date) == 146097 * era + doe - 719468
  {
    var y := 400 * era + 100 * c + 4 * q + r;
    MarchYearLeap(era, c, q, r);
    MonthOfDay(y, doy);
    DaysParts(MarchDate(y, doy), era, c, q, r);
  }

  lemma DaysParted(days: int) returns (era: int, doe: int)
    ensures 0 <= doe < 146097 && days == 146097 * era + doe - 719468
  {
    era, doe := (days + 719468) / 146097, (days + 719468) % 146097;
  }

  /** Converting any day number, negative ones too, to a date and back gives the number. */
  lemma DaysOfCivil(days: int)
    ensures Valid(CivilFromDays(days))
    ensures DaysFromCivil(CivilFromDays(days)) == days
  {
    hide EraOf, CivilInEra, MarchDate, DaysFromCivil, Valid, EraDay;
    var era, doe := DaysParted(days);
    var c, q, r, doy := EraDayExists(doe);
    EraOfIs(era, doe);
    CivilInEraIs(era, c, q, r, doe, doy);
    MarchDateInEra(era, doe, c, q, r, doy);
  }
}
