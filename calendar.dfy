/**
 * The proleptic Gregorian calendar as a day count.
 *
 * Day number 1 is January 1 of year 1, and every day has a day number (years
 * may be zero or negative).  Both the browser's `Date` arithmetic and Python's
 * `date` type are modelled on these numbers.
 */
module Calendar {

  /** A calendar date; months and days are 1-based. */
  datatype Date = Date(year: int, month: int, day: int)

  predicate IsLeapYear(y: int) {
    y % 4 == 0 && (y % 100 != 0 || y % 400 == 0)
  }

  function DaysInYear(y: int): (n: int)
    ensures n == 365 || n == 366
    ensures n == 366 <==> IsLeapYear(y)
  {
    if IsLeapYear(y) then 366 else 365
  }

  function DaysInMonth(y: int, m: int): (n: int)
    requires 1 <= m <= 12
    ensures 28 <= n <= 31
    ensures m == 2 ==> (n == 29 <==> IsLeapYear(y))
  {
    if m == 2 then (if IsLeapYear(y) then 29 else 28)
    else if m == 4 || m == 6 || m == 9 || m == 11 then 30
    else 31
  }

  predicate ValidDate(d: Date) {
    1 <= d.month <= 12 && 1 <= d.day <= DaysInMonth(d.year, d.month)
  }

  /** The number of days from January 1 of year 1 up to, not including, January 1 of year y. */
  function DaysBeforeYear(y: int): int {
    var p := y - 1;
    365 * p + p / 4 - p / 100 + p / 400
  }

  /** The number of days of year y before the first of month m. */
  function DaysBeforeMonth(y: int, m: int): int
    requires 1 <= m <= 12
  {
    [0, 31, 59, 90, 120, 151, 181, 212, 243, 273, 304, 334][m - 1]
      + (if m > 2 && IsLeapYear(y) then 1 else 0)
  }

  /**
   * The day number of day d of month m of year y.  A day outside the month
   * counts on from the first of the month, as ECMAScript's MakeDay does.
   */
  function DayNumber(y: int, m: int, d: int): int
    requires 1 <= m <= 12
  {
    DaysBeforeYear(y) + DaysBeforeMonth(y, m) + d
  }

  function Ordinal(d: Date): int
    requires 1 <= d.month <= 12
  {
    DayNumber(d.year, d.month, d.day)
  }

  /** The ISO weekday of day number n: 1 is Monday, 7 is Sunday (day 1 was a Monday). */
  function IsoWeekday(n: int): (r: int)
    ensures 1 <= r <= 7
  {
    (n + 6) % 7 + 1
  }

  lemma DivStep4(p: int)
    ensures (p + 1) / 4 == p / 4 + (if (p + 1) % 4 == 0 then 1 else 0)
  {
  }

  lemma DivStep100(p: int)
    ensures (p + 1) / 100 == p / 100 + (if (p + 1) % 100 == 0 then 1 else 0)
  {
  }

  lemma DivStep400(p: int)
    ensures (p + 1) / 400 == p / 400 + (if (p + 1) % 400 == 0 then 1 else 0)
  {
  }

  lemma Divides400(x: int)
    requires x % 400 == 0
    ensures x % 100 == 0 && x % 4 == 0
  {
    var k := x / 400;
    assert x == 100 * (4 * k);
    assert x == 4 * (100 * k);
  }

  lemma Divides100(x: int)
    requires x % 100 == 0
    ensures x % 4 == 0
  {
    var k := x / 100;
    assert x == 4 * (25 * k);
  }

  /** January 1 of year p + 1 adds one leap day to the count exactly when p + 1 is a leap year. */
  lemma LeapDayStep(p: int)
    ensures (p + 1) / 4 - (p + 1) / 100 + (p + 1) / 400 == p / 4 - p / 100 + p / 400 + (if IsLeapYear(p + 1) then 1 else 0)
  {
    DivStep4(p);
    DivStep100(p);
    DivStep400(p);
    if (p + 1) % 400 == 0 {
      Divides400(p + 1);
    } else if (p + 1) % 100 == 0 {
      Divides100(p + 1);
    }
  }

  lemma DaysBeforeNextYear(y: int)
    ensures DaysBeforeYear(y + 1) == DaysBeforeYear(y) + DaysInYear(y)
  {
    LeapDayStep(y - 1);
  }

  lemma DaysBeforeYearMonotone(a: int, b: int)
    requires a <= b
    ensures DaysBeforeYear(a) <= DaysBeforeYear(b)
    decreases b - a
  {
    if a < b {
      DaysBeforeNextYear(a);
      DaysBeforeYearMonotone(a + 1, b);
    }
  }

  /** A day given by a month and a day between 1 and 31 lies in its year. */
  lemma DayNumberInYear(y: int, m: int, d: int)
    requires 1 <= m <= 12 && 1 <= d <= 31
    ensures DaysBeforeYear(y) < DayNumber(y, m, d) <= DaysBeforeYear(y + 1)
  {
    DaysBeforeNextYear(y);
  }

  lemma OrdinalInYear(d: Date)
    requires ValidDate(d)
    ensures DaysBeforeYear(d.year) < Ordinal(d) <= DaysBeforeYear(d.year + 1)
  {
    DayNumberInYear(d.year, d.month, d.day);
  }

  /** The calendar year is determined by the day number. */
  lemma YearUnique(t: int, y1: int, y2: int)
    requires DaysBeforeYear(y1) < t <= DaysBeforeYear(y1 + 1)
    requires DaysBeforeYear(y2) < t <= DaysBeforeYear(y2 + 1)
    ensures y1 == y2
  {
    if y1 < y2 {
      DaysBeforeYearMonotone(y1 + 1, y2);
    } else if y2 < y1 {
      DaysBeforeYearMonotone(y2 + 1, y1);
    }
  }

  /**
   * The calendar year that holds day number t (ECMAScript's YearFromTime),
   * for a t no further than a year from year `near`.
   */
  function YearOfDay(t: int, near: int): (y: int)
    requires DaysBeforeYear(near) - 365 < t <= DaysBeforeYear(near + 1) + 365
    ensures DaysBeforeYear(y) < t <= DaysBeforeYear(y + 1)
    ensures near - 1 <= y <= near + 1
  {
    DaysBeforeNextYear(near - 1);
    DaysBeforeNextYear(near);
    DaysBeforeNextYear(near + 1);
    if t <= DaysBeforeYear(near) then near - 1
    else if t > DaysBeforeYear(near + 1) then near + 1
    else near
  }

  /** `getUTCFullYear()` is the only year whose days include day number t. */
  lemma YearOfDayUnique(t: int, near: int, y: int)
    requires DaysBeforeYear(near) - 365 < t <= DaysBeforeYear(near + 1) + 365
    requires DaysBeforeYear(y) < t <= DaysBeforeYear(y + 1)
    ensures y == YearOfDay(t, near)
  {
    YearUnique(t, y, YearOfDay(t, near));
  }
}
