/**
 * The proleptic Gregorian calendar arithmetic that JavaScript's `Date`
 * performs for the invoice flow: `Date.UTC(y, m - 1, d, 23, 59, 59)`
 * (end of a UTC day as epoch seconds) and the date part of
 * `new Date(seconds * 1000).toISOString()`. Days are counted from
 * 1970-01-01 as in ECMA-262 (DayFromYear, MakeDay, Day, TimeClip).
 */
module Calendar {
  import opened Strings

  const SecondsPerDay: int := 86400
  const MsPerDay: int := 86400000
  /** TimeClip bound: a time value beyond 8.64e15 ms either way is NaN. */
  const MaxTimeMs: int := 8640000000000000

  datatype Date = Date(year: int, month: int, day: int)

  predicate IsLeapYear(y: int) {
    y % 4 == 0 && (y % 100 != 0 || y % 400 == 0)
  }

  function DaysInYear(y: int): int {
    if IsLeapYear(y) then 366 else 365
  }

  function DaysInMonth(y: int, m: int): int
    requires 1 <= m <= 12
  {
    if m == 2 then (if IsLeapYear(y) then 29 else 28)
    else if m == 4 || m == 6 || m == 9 || m == 11 then 30
    else 31
  }

  /** Days in the months of year `y` before month `m`. */
  function DaysBeforeMonth(y: int, m: int): (d: int)
    requires 1 <= m <= 12
    ensures 0 <= d <= 335
  {
    var leap := if IsLeapYear(y) then 1 else 0;
    if m == 1 then 0
    else if m == 2 then 31
    else if m == 3 then 59 + leap
    else if m == 4 then 90 + leap
    else if m == 5 then 120 + leap
    else if m == 6 then 151 + leap
    else if m == 7 then 181 + leap
    else if m == 8 then 212 + leap
    else if m == 9 then 243 + leap
    else if m == 10 then 273 + leap
    else if m == 11 then 304 + leap
    else 334 + leap
  }

  predicate ValidDate(date: Date) {
    1 <= date.month <= 12 && 1 <= date.day <= DaysInMonth(date.year, date.month)
  }

  /** Number of days from 1970-01-01 to January 1 of year `y` (ECMA-262 DayFromYear). */
  function DayFromYear(y: int): int {
    365 * (y - 1970) + (y - 1969) / 4 - (y - 1901) / 100 + (y - 1601) / 400
  }

  /** The quarter count gains one exactly when `y` is a multiple of 4. */
  lemma QuarterStep(y: int)
    ensures (y - 1968) / 4 - (y - 1969) / 4 == (if y % 4 == 0 then 1 else 0)
  {
    var q, r := (y - 1969) / 4, (y - 1969) % 4;
    assert y == 4 * (q + 492) + r + 1;
    if r == 3 {
      assert y - 1968 == 4 * (q + 1);
    } else {
      assert y - 1968 == 4 * q + (r + 1);
    }
  }

  /** The century count gains one exactly when `y` is a multiple of 100. */
  lemma CenturyStep(y: int)
    ensures (y - 1900) / 100 - (y - 1901) / 100 == (if y % 100 == 0 then 1 else 0)
  {
    var q, r := (y - 1901) / 100, (y - 1901) % 100;
    assert y == 100 * (q + 19) + r + 1;
    if r == 99 {
      assert y - 1900 == 100 * (q + 1);
    } else {
      assert y - 1900 == 100 * q + (r + 1);
    }
  }

  /** The 400-year count gains one exactly when `y` is a multiple of 400. */
  lemma QuadricentennialStep(y: int)
    ensures (y - 1600) / 400 - (y - 1601) / 400 == (if y % 400 == 0 then 1 else 0)
  {
    var q, r := (y - 1601) / 400, (y - 1601) % 400;
    assert y == 400 * (q + 4) + r + 1;
    if r == 399 {
      assert y - 1600 == 400 * (q + 1);
    } else {
      assert y - 1600 == 400 * q + (r + 1);
    }
  }

  /** One year later is exactly the length of the year later. */
  lemma DayFromYearStep(y: int)
    ensures DayFromYear(y + 1) == DayFromYear(y) + DaysInYear(y)
  {
    QuarterStep(y);
    CenturyStep(y);
    QuadricentennialStep(y);
    if y % 400 == 0 {
      MultipleOf400(y);
    }
    if y % 100 == 0 {
      MultipleOf100(y);
    }
    var q := if y % 4 == 0 then 1 else 0;
    var c := if y % 100 == 0 then 1 else 0;
    var f := if y % 400 == 0 then 1 else 0;
    assert DayFromYear(y + 1) == DayFromYear(y) + 365 + q - c + f;
    assert DaysInYear(y) == 365 + q - c + f;
  }

  /** Multiples of 400 are multiples of 100. */
  lemma MultipleOf400(y: int)
    requires y % 400 == 0
    ensures y % 100 == 0
  {
    var k := y / 400;
    assert y == 100 * (4 * k);
  }

  /** Multiples of 100 are multiples of 4. */
  lemma MultipleOf100(y: int)
    requires y % 100 == 0
    ensures y % 4 == 0
  {
    var k := y / 100;
    assert y == 4 * (25 * k);
  }

  /** DayFromYear stays within a few hundred 400ths of a day of 365.2425 days per year. */
  lemma DayFromYearBounds(y: int)
    ensures 146097 * (y - 1970) - 506 <= 400 * DayFromYear(y) <= 146097 * (y - 1970) + 589
  {
    var a, b, c := y - 1969, y - 1901, y - 1601;
    assert 4 * (a / 4) <= a < 4 * (a / 4) + 4;
    assert 100 * (b / 100) <= b < 100 * (b / 100) + 100;
    assert 400 * (c / 400) <= c < 400 * (c / 400) + 400;
  }

  /** Years partition the day line: a day lies in exactly one year. */
  lemma YearUnique(z: int, y1: int, y2: int)
    requires DayFromYear(y1) <= z < DayFromYear(y1 + 1)
    requires DayFromYear(y2) <= z < DayFromYear(y2 + 1)
    ensures y1 == y2
  {
    if y1 + 2 <= y2 {
      DayFromYearBounds(y1 + 1);
      DayFromYearBounds(y2);
    } else if y2 + 2 <= y1 {
      DayFromYearBounds(y2 + 1);
      DayFromYearBounds(y1);
    }
  }

  /** The year containing day `z` (ECMA-262 YearFromTime, on day numbers). */
  function YearOfDay(z: int): (y: int)
    ensures DayFromYear(y) <= z < DayFromYear(y + 1)
  {
    var guess := 1970 + (400 * z) / 146097;
    DayFromYearBounds(guess - 1);
    DayFromYearBounds(guess + 2);
    if z < DayFromYear(guess) then guess - 1
    else if z >= DayFromYear(guess + 1) then guess + 1
    else guess
  }

  /** The month of year `y` that contains day-of-year `doy`. */
  function MonthOfDayInYear(y: int, doy: int): (m: int)
    requires 0 <= doy < DaysInYear(y)
    ensures 1 <= m <= 12
    ensures DaysBeforeMonth(y, m) <= doy < DaysBeforeMonth(y, m) + DaysInMonth(y, m)
  {
    var leap := if IsLeapYear(y) then 1 else 0;
    if doy < 31 then 1
    else if doy < 59 + leap then 2
    else if doy < 90 + leap then 3
    else if doy < 120 + leap then 4
    else if doy < 151 + leap then 5
    else if doy < 181 + leap then 6
    else if doy < 212 + leap then 7
    else if doy < 243 + leap then 8
    else if doy < 273 + leap then 9
    else if doy < 304 + leap then 10
    else if doy < 334 + leap then 11
    else 12
  }

  /** Days from 1970-01-01 to the given date (day 0 is 1970-01-01). */
  function DaysFromCivil(date: Date): int
    requires 1 <= date.month <= 12
  {
    DayFromYear(date.year) + DaysBeforeMonth(date.year, date.month) + date.day - 1
  }

  /** The calendar date of day number `z`; it is a valid date whose day number is `z`. */
  function CivilFromDays(z: int): (date: Date)
    ensures ValidDate(date) && DaysFromCivil(date) == z
  {
    var y := YearOfDay(z);
    DayFromYearStep(y);
    var doy := z - DayFromYear(y);
    var m := MonthOfDayInYear(y, doy);
    Date(y, m, doy - DaysBeforeMonth(y, m) + 1)
  }

  /** The other direction of the round trip: a valid date comes back from its day number. */
  lemma CivilRoundTrip(date: Date)
    requires ValidDate(date)
    ensures CivilFromDays(DaysFromCivil(date)) == date
  {
    var z := DaysFromCivil(date);
    var y := date.year;
    DayFromYearStep(y);
    assert DaysBeforeMonth(y, date.month) + DaysInMonth(y, date.month) <= DaysInYear(y);
    YearUnique(z, y, YearOfDay(z));
    MonthOfDayInYearExact(y, date.month, date.day);
  }

  /** A day of month `m` falls in month `m`. */
  lemma MonthOfDayInYearExact(y: int, m: int, d: int)
    requires 1 <= m <= 12 && 1 <= d <= DaysInMonth(y, m)
    requires DaysBeforeMonth(y, m) + DaysInMonth(y, m) <= DaysInYear(y)
    ensures MonthOfDayInYear(y, DaysBeforeMonth(y, m) + d - 1) == m
  {
  }

  /** Day numbers and valid dates are in one-to-one correspondence. */
  lemma DaysFromCivilInjective(d1: Date, d2: Date)
    requires ValidDate(d1) && ValidDate(d2)
    requires DaysFromCivil(d1) == DaysFromCivil(d2)
    ensures d1 == d2
  {
    CivilRoundTrip(d1);
    CivilRoundTrip(d2);
  }

  // ---------------------------------------------------------------------
  // Date.UTC(year, month - 1, day, 23, 59, 59) / 1000, floored
  // ---------------------------------------------------------------------

  /**
   * ECMA-262 MakeDay for a non-negative month index: months past 11 roll
   * over into later years, days past the month's end into later months.
   */
  function MakeDay(year: int, monthIndex: nat, date: int): int {
    DaysFromCivil(Date(year + monthIndex / 12, monthIndex % 12 + 1, 1)) + date - 1
  }

  /**
   * `Math.floor(Date.UTC(year, month - 1, day, 23, 59, 59) / 1000)` for the
   * positive integers the deadline check lets through; None is NaN, which
   * TimeClip produces when the instant lies beyond 8.64e15 ms.
   */
  function EndOfDayUtcSeconds(year: nat, month: nat, day: nat): (r: Option<int>)
    requires month >= 1
  {
    var fullYear := if year <= 99 then 1900 + year else year;
    EndOfDaySeconds(MakeDay(fullYear, month - 1, day))
  }

  /** 23:59:59 UTC of day number `days`, in whole seconds, after TimeClip. */
  function EndOfDaySeconds(days: int): Option<int> {
    var ms := days * MsPerDay + ((23 * 60 + 59) * 60 + 59) * 1000;
    if -MaxTimeMs <= ms <= MaxTimeMs then Some(ms / 1000) else None
  }

  /** For a valid date from year 100 on, the deadline is days-from-civil times 86400 plus 86399. */
  lemma EndOfDayFormula(date: Date)
    requires ValidDate(date) && date.year >= 100 && date.day >= 1
    ensures EndOfDayUtcSeconds(date.year, date.month, date.day)
         == (var s := DaysFromCivil(date) * SecondsPerDay + 86399;
             if s * 1000 <= MaxTimeMs then Some(s) else None)
  {
    var z := DaysFromCivil(date);
    MakeDayInYear(date.year, date.month - 1, date.day);
    DaysFromCivilFloor(date);
    EndOfDayOfDayNumber(z);
  }

  /** From year 100 on, day numbers stay far above the TimeClip range's lower end. */
  lemma DaysFromCivilFloor(date: Date)
    requires ValidDate(date) && date.year >= 100
    ensures DaysFromCivil(date) >= -700000
  {
    DayFromYearBounds(date.year);
    assert 400 * DayFromYear(date.year) >= 146097 * (100 - 1970) - 506;
  }

  /** The end-of-day instant of a day number not too far in the past, in seconds. */
  lemma EndOfDayOfDayNumber(z: int)
    requires z >= -700000
    ensures EndOfDaySeconds(z) == (var s := z * SecondsPerDay + 86399;
                                   if s * 1000 <= MaxTimeMs then Some(s) else None)
  {
    var s := z * 86400 + 86399;
    var ms := z * 86400000 + 86399000;
    assert ms == s * 1000 && -MaxTimeMs <= ms;
    WholeSeconds(s);
  }

  /** A whole number of seconds, written in milliseconds, divides back exactly. */
  lemma WholeSeconds(s: int)
    ensures (s * 1000) / 1000 == s
  {
  }

  /** Date.UTC reads years 0 to 99 as 1900 to 1999. */
  lemma TwoDigitYears(year: nat, month: nat, day: nat)
    requires 1 <= year <= 99 && month >= 1
    ensures EndOfDayUtcSeconds(year, month, day) == EndOfDayUtcSeconds(1900 + year, month, day)
  {
  }

  /** Month 13 of a year is January of the next. */
  lemma MonthRollover(year: nat, month: nat, day: nat)
    requires year >= 100 && month >= 1
    ensures EndOfDayUtcSeconds(year, month + 12, day) == EndOfDayUtcSeconds(year + 1, month, day)
  {
    assert (month + 12 - 1) / 12 == (month - 1) / 12 + 1;
    assert (month + 12 - 1) % 12 == (month - 1) % 12;
  }

  /** The day after the last day of a month is the first day of the next month, December included. */
  lemma DayRollover(year: nat, month: nat)
    requires year >= 100 && 1 <= month <= 12
    ensures EndOfDayUtcSeconds(year, month, DaysInMonth(year, month) + 1)
         == EndOfDayUtcSeconds(year + month / 12, month % 12 + 1, 1)
  {
    DayAfterMonthEnd(year, month);
  }

  /** The day number after the last day of a month is that of the next month's first day. */
  lemma DayAfterMonthEnd(year: int, month: int)
    requires 1 <= month <= 12
    ensures MakeDay(year, month - 1, DaysInMonth(year, month) + 1) == MakeDay(year + month / 12, month % 12, 1)
  {
    if month == 12 {
      DayAfterDecember(year);
    } else {
      assert month / 12 == 0 && month % 12 == month;
      DayAfterMonthEndInYear(year, month);
    }
  }

  /** Before December, the day after a month's last day is the next month's first day. */
  lemma DayAfterMonthEndInYear(year: int, month: int)
    requires 1 <= month < 12
    ensures MakeDay(year, month - 1, DaysInMonth(year, month) + 1) == MakeDay(year, month, 1)
  {
    MakeDayInYear(year, month - 1, DaysInMonth(year, month) + 1);
    MakeDayInYear(year, month, 1);
    MonthEndIsNextMonthStart(year, month);
  }

  /** The day after 31 December is 1 January of the next year. */
  lemma DayAfterDecember(year: int)
    ensures MakeDay(year, 11, 32) == MakeDay(year + 1, 0, 1)
  {
    MakeDayInYear(year, 11, 32);
    MakeDayInYear(year + 1, 0, 1);
    DayFromYearStep(year);
    assert DaysBeforeMonth(year, 12) + 31 == DaysInYear(year);
  }

  /** Within the first twelve month indexes, MakeDay counts from the start of that year. */
  lemma MakeDayInYear(year: int, monthIndex: nat, date: int)
    requires monthIndex < 12
    ensures MakeDay(year, monthIndex, date) == DayFromYear(year) + DaysBeforeMonth(year, monthIndex + 1) + date - 1
  {
    assert monthIndex / 12 == 0 && monthIndex % 12 == monthIndex;
  }

  /** The days before a month and that month's length add up to the days before the next month. */
  lemma MonthEndIsNextMonthStart(year: int, month: int)
    requires 1 <= month < 12
    ensures DaysBeforeMonth(year, month) + DaysInMonth(year, month) == DaysBeforeMonth(year, month + 1)
  {
  }

  // ---------------------------------------------------------------------
  // new Date(seconds * 1000).toISOString().split("T")[0]
  // ---------------------------------------------------------------------

  /** The year as toISOString writes it: four digits, or a sign and six digits outside 0..9999. */
  function IsoYear(y: int): string {
    if 0 <= y <= 9999 then PadDecimal(y, 4)
    else if y < 0 then "-" + PadDecimal(-y, 6)
    else "+" + PadDecimal(y, 6)
  }

  /** The `YYYY-MM-DD` form of a date. */
  function IsoDate(date: Date): string
    requires date.month >= 1 && date.day >= 1
  {
    IsoYear(date.year) + "-" + PadDecimal(date.month, 2) + "-" + PadDecimal(date.day, 2)
  }

  /**
   * The date part of `new Date(seconds * 1000).toISOString()`; None where
   * toISOString throws a RangeError because the time value is NaN.
   */
  function IsoDateOfEpochSeconds(seconds: int): Option<string> {
    var ms := seconds * 1000;
    if -MaxTimeMs <= ms <= MaxTimeMs then
      var date := CivilFromDays(ms / MsPerDay);
      Some(IsoDate(date))
    else None
  }

  /** Any second within a day shows that day's date. */
  lemma IsoDateOfSecondInDay(date: Date, secondOfDay: int)
    requires ValidDate(date) && 0 <= secondOfDay < SecondsPerDay
    requires -MaxTimeMs <= (DaysFromCivil(date) * SecondsPerDay + secondOfDay) * 1000 <= MaxTimeMs
    ensures IsoDateOfEpochSeconds(DaysFromCivil(date) * SecondsPerDay + secondOfDay) == Some(IsoDate(date))
  {
    var z := DaysFromCivil(date);
    DayOfInstant(z, secondOfDay);
    CivilRoundTrip(date);
    assert CivilFromDays(z) == date;
  }

  /** An instant within day `z` belongs to day `z`. */
  lemma DayOfInstant(z: int, secondOfDay: int)
    requires 0 <= secondOfDay < SecondsPerDay
    ensures ((z * SecondsPerDay + secondOfDay) * 1000) / MsPerDay == z
  {
    var ms := (z * SecondsPerDay + secondOfDay) * 1000;
    assert ms == z * MsPerDay + secondOfDay * 1000;
  }

  /**
   * The deadline round trip: the end-of-day epoch of a valid date from year
   * 100 on converts back to the same `YYYY-MM-DD`, whenever it is
   * representable at all.
   */
  lemma EndOfDayRoundTrip(date: Date)
    requires ValidDate(date) && date.year >= 100
    requires EndOfDayUtcSeconds(date.year, date.month, date.day).Some?
    ensures IsoDateOfEpochSeconds(EndOfDayUtcSeconds(date.year, date.month, date.day).value)
         == Some(IsoDate(date))
  {
    EndOfDayFormula(date);
    DayFromYearBounds(date.year);
    IsoDateOfSecondInDay(date, 86399);
  }
}
