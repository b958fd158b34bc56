/**
 * The overtime arithmetic of the browser app: weekly target hours, the
 * overtime of one week and of all weeks, and the week number and year that
 * the entry form proposes for a date.
 */
module Overtime {
  import opened Wrappers
  import opened Calendar
  import opened IsoWeek

  /**
   * One recorded week.  A missing reduction (an entry stored without the
   * field) is kept apart from a reduction of 0: they differ for deletion.
   */
  datatype WeekEntry = WeekEntry(year: int, week: int, hoursWorked: real, isHoliday: bool, reduction: Option<real>)

  /** The weekly target: 40 hours in a school-holiday week, 41 otherwise. */
  function TargetHours(isHoliday: bool): (h: real)
    ensures isHoliday ==> h == 40.0
    ensures !isHoliday ==> h == 41.0
  {
    if isHoliday then 40.0 else 41.0
  }

  /** `entry.reduction || 0`: a missing reduction counts as 0. */
  function ReductionOrZero(reduction: Option<real>): (r: real)
    ensures reduction.None? ==> r == 0.0
    ensures reduction.Some? ==> r == reduction.value
  {
    match reduction
    case None => 0.0
    case Some(x) => if x != 0.0 then x else 0.0
  }

  /** Hours worked beyond the target and the reduction; negative for a deficit. */
  function WeekOvertime(e: WeekEntry): (r: real)
    ensures e.hoursWorked == TargetHours(e.isHoliday) + ReductionOrZero(e.reduction) + r
  {
    e.hoursWorked - TargetHours(e.isHoliday) - ReductionOrZero(e.reduction)
  }

  /** `weeks.reduce((sum, week) => sum + WeekOvertime(week), 0)`, a left fold from 0. */
  function TotalOvertime(weeks: seq<WeekEntry>): (total: real)
    ensures weeks == [] ==> total == 0.0
    ensures |weeks| == 1 ==> total == WeekOvertime(weeks[0])
  {
    if weeks == [] then 0.0
    else TotalOvertime(weeks[..|weeks| - 1]) + WeekOvertime(weeks[|weeks| - 1])
  }

  /** The total is additive over concatenation. */
  lemma {:induction false} TotalOvertimeAppend(a: seq<WeekEntry>, b: seq<WeekEntry>)
    ensures TotalOvertime(a + b) == TotalOvertime(a) + TotalOvertime(b)
    decreases |b|
  {
    if b == [] {
      assert a + b == a;
    } else {
      var last := |b| - 1;
      assert (a + b)[..|a + b| - 1] == a + b[..last];
      assert (a + b)[|a + b| - 1] == b[last];
      TotalOvertimeAppend(a, b[..last]);
    }
  }

  /** The total is the first week's overtime plus the total of the rest. */
  lemma TotalOvertimeFront(s: seq<WeekEntry>)
    requires s != []
    ensures TotalOvertime(s) == WeekOvertime(s[0]) + TotalOvertime(s[1..])
  {
    assert s == [s[0]] + s[1..];
    TotalOvertimeAppend([s[0]], s[1..]);
    TotalOvertimeSingleton(s[0]);
  }

  lemma TotalOvertimeSingleton(e: WeekEntry)
    ensures TotalOvertime([e]) == WeekOvertime(e)
  {
    assert [e][..0] == [];
  }

  /** The total does not depend on the order of the weeks. */
  lemma {:induction false} TotalOvertimePermutation(a: seq<WeekEntry>, b: seq<WeekEntry>)
    requires multiset(a) == multiset(b)
    ensures TotalOvertime(a) == TotalOvertime(b)
    decreases |a|
  {
    if a == [] {
      assert |b| == |multiset(b)| == 0;
    } else {
      var x := a[0];
      assert x in multiset(b);
      var i :| 0 <= i < |b| && b[i] == x;
      var rest := b[..i] + b[i + 1..];
      assert b == b[..i] + [x] + b[i + 1..];
      assert a == [x] + a[1..];
      assert multiset(b) == multiset(b[..i]) + multiset{x} + multiset(b[i + 1..]);
      assert multiset(rest) == multiset(b[..i]) + multiset(b[i + 1..]);
      assert multiset(rest) == multiset(b) - multiset{x};
      assert multiset(a) == multiset{x} + multiset(a[1..]);
      assert multiset(a[1..]) == multiset(a) - multiset{x};
      TotalOvertimePermutation(a[1..], rest);
      TotalOvertimeAppend([x], a[1..]);
      TotalOvertimeSingleton(x);
      TotalOvertimeAppend(b[..i] + [x], b[i + 1..]);
      TotalOvertimeAppend(b[..i], [x]);
      TotalOvertimeAppend(b[..i], b[i + 1..]);
    }
  }

  /** The cases of the unit tests. */
  lemma OvertimeExamples()
    ensures TargetHours(false) == 41.0 && TargetHours(true) == 40.0
    ensures WeekOvertime(WeekEntry(0, 0, 45.0, false, Some(0.0))) == 4.0
    ensures WeekOvertime(WeekEntry(0, 0, 38.0, false, Some(0.0))) == -3.0
    ensures WeekOvertime(WeekEntry(0, 0, 42.0, true, Some(0.0))) == 2.0
    ensures WeekOvertime(WeekEntry(0, 0, 45.0, false, Some(2.0))) == 2.0
    ensures WeekOvertime(WeekEntry(0, 0, 41.0, false, None)) == 0.0
    ensures TotalOvertime([]) == 0.0
    ensures TotalOvertime([WeekEntry(0, 0, 45.0, false, Some(0.0)), WeekEntry(0, 0, 38.0, false, Some(0.0)),
                           WeekEntry(0, 0, 42.0, true, Some(0.0))]) == 3.0
  {
    var ws := [WeekEntry(0, 0, 45.0, false, Some(0.0)), WeekEntry(0, 0, 38.0, false, Some(0.0)),
               WeekEntry(0, 0, 42.0, true, Some(0.0))];
    assert ws[..2][..1][..0] == [];
  }

  // ---------------------------------------------------------------------------
  // Week number and year of a date

  /** `Date.UTC` reads a year from 0 to 99 as 1900 + year. */
  function UtcYear(y: int): int {
    if 0 <= y <= 99 then 1900 + y else y
  }

  /** `getUTCDay()`: 0 is Sunday, 1 Monday, ..., 6 Saturday. */
  function UtcWeekday(t: int): (r: int)
    ensures 0 <= r <= 6
    ensures r == IsoWeekday(t) % 7
  {
    t % 7
  }

  /** `Math.ceil(a / b)` for a positive divisor. */
  function CeilDiv(a: int, b: int): (r: int)
    requires b > 0
    ensures b * (r - 1) < a <= b * r
  {
    -((-a) / b)
  }

  /** `setUTCDate(getUTCDate() + 4 - (getUTCDay() || 7))`: to the Thursday of the week, counting Sunday as day 7. */
  function ThursdayShift(t: int): (s: int)
    ensures s == WeekThursday(t)
  {
    t + 4 - (if UtcWeekday(t) == 0 then 7 else UtcWeekday(t))
  }

  lemma CeilWeeks(k: int)
    requires k >= 0
    ensures CeilDiv(k + 1, 7) == k / 7 + 1
  {
  }

  /**
   * `getCurrentWeekNumber(date)` as written: the date is taken to UTC with
   * `Date.UTC`, moved to the Thursday of its week, and the Thursday's ordinal
   * in its year, counted from a `Date.UTC` January 1, is divided into weeks.
   * Both `Date.UTC` calls read a year from 0 to 99 as 1900 + year; away from
   * the years where that matters the result is the ISO week.
   */
  function GetCurrentWeekNumberAsWritten(date: Date): (w: int)
    requires ValidDate(date)
    ensures date.year <= -2 || date.year >= 101 ==> w == GetCurrentWeekNumber(date)
  {
    var t := DayNumber(UtcYear(date.year), date.month, date.day);
    DayNumberInYear(UtcYear(date.year), date.month, date.day);
    var thursday := ThursdayShift(t);
    var thursdayYear := YearOfDay(thursday, UtcYear(date.year));
    var yearStart := DayNumber(UtcYear(thursdayYear), 1, 1);
    assert date.year <= -2 || date.year >= 101 ==> UtcYear(date.year) == date.year && UtcYear(thursdayYear) == thursdayYear;
    CeilDiv(thursday - yearStart + 1, 7)
  }

  /**
   * The ISO 8601 week number of a date: `getCurrentWeekNumber` without the
   * two-digit-year reading of `Date.UTC`.
   */
  function GetCurrentWeekNumber(date: Date): (w: int)
    requires ValidDate(date)
    ensures 1 <= w <= 53
    ensures w == IsoCalendar(date).week
  {
    var t := DayNumber(date.year, date.month, date.day);
    DayNumberInYear(date.year, date.month, date.day);
    var thursday := ThursdayShift(t);
    var thursdayYear := YearOfDay(thursday, date.year);
    var yearStart := DayNumber(thursdayYear, 1, 1);
    var w := CeilDiv(thursday - yearStart + 1, 7);
    CeilWeeks(thursday - yearStart);
    ThursdayRule(t, thursdayYear);
    var iso := IsoCalendar(date);
    InIsoWeekUnique(t, thursdayYear, w, iso.year, iso.week);
    w
  }

  /**
   * 0100-01-01 is a Friday; its Thursday is 0099-12-31, and `Date.UTC(99, 0, 1)`
   * is 1999-01-01, so the count runs from a January 1 nineteen centuries later.
   */
  lemma AsWrittenWeekOutOfRange()
    ensures GetCurrentWeekNumberAsWritten(Date(100, 1, 1)) == -99085
    ensures GetCurrentWeekNumber(Date(100, 1, 1)) == 53
  {
    assert DaysBeforeYear(99) == 35794;
    assert DaysBeforeYear(100) == 36159;
    assert DaysBeforeYear(101) == 36524;
    assert DaysBeforeYear(1999) == 729754;
    assert ThursdayShift(36160) == 36159;
    assert YearOfDay(36159, 100) == 99;
    assert CeilDiv(-693595, 7) == -99085;
    assert CeilDiv(365, 7) == 53;
  }

  /** `getCurrentYear(date)`: the calendar year, not the ISO week-numbering year. */
  function GetCurrentYear(date: Date): (y: int)
    ensures y == date.year
  {
    date.year
  }

  /** 2024-12-30 is in calendar year 2024 but in week 1 (of ISO year 2025). */
  lemma YearAndWeekOfDecember30()
    ensures GetCurrentYear(Date(2024, 12, 30)) == 2024 && GetCurrentWeekNumber(Date(2024, 12, 30)) == 1
  {
    assert DaysBeforeYear(2024) == 738885;
    assert DaysBeforeYear(2025) == 739251;
    assert DaysBeforeYear(2026) == 739616;
    assert DayNumber(2024, 12, 30) == 739250;
    assert ThursdayShift(739250) == 739253;
    assert YearOfDay(739253, 2024) == 2025;
  }

  /** 2024-01-01 is a Monday, and week 1 starts on it. */
  // The dates are parameters pinned by `requires` rather than literals only
  // to keep the solver within its resource limit.
  lemma WeekOfNewYear2024(d: Date)
    requires d.year == 2024 && d.month == 1 && d.day == 1
    ensures GetCurrentWeekNumber(d) == 1
  {
    assert DaysBeforeYear(2024) == 738885;
    assert Ordinal(d) == 738886;
    assert Week1Monday(d.year) == 738886;
  }

  /** 2023-12-31, a Sunday, ends week 52 of 2023. */
  // The dates are parameters pinned by `requires` rather than literals only
  // to keep the solver within its resource limit.
  lemma WeekOfDecember31(d: Date)
    requires d.year == 2023 && d.month == 12 && d.day == 31
    ensures GetCurrentWeekNumber(d) == 52
  {
    assert Week1Monday(2023) == 738522 && Week1Monday(2024) == 738886 by {
      assert DaysBeforeYear(2023) == 738520;
      assert DaysBeforeYear(2024) == 738885;
    }
    assert Ordinal(d) == 738885 by {
      assert DaysBeforeYear(2023) == 738520;
    }
    assert (738885 - 738522) / 7 == 51;
    assert InIsoWeek(738885, 2023, 52);
    var r := IsoCalendar(d);
    InIsoWeekUnique(738885, r.year, r.week, 2023, 52);
  }

  /**
   * A year read just before midnight on 2023-12-31 and a week read just
   * after pair up as week 1 of 2023, while either reading alone gives
   * week 52 of 2023 or week 1 of 2024.
   */
  // The dates are parameters pinned by `requires` rather than literals only
  // to keep the solver within its resource limit.
  lemma YearAndWeekAcrossNewYear(yearDay: Date, weekDay: Date)
    requires yearDay.year == 2023 && yearDay.month == 12 && yearDay.day == 31
    requires weekDay.year == 2024 && weekDay.month == 1 && weekDay.day == 1
    ensures GetCurrentYear(yearDay) == 2023 && GetCurrentWeekNumber(yearDay) == 52
    ensures GetCurrentYear(weekDay) == 2024 && GetCurrentWeekNumberAsWritten(weekDay) == 1
  {
    assert ValidDate(yearDay) && ValidDate(weekDay);
    assert GetCurrentYear(yearDay) == 2023 && GetCurrentYear(weekDay) == 2024;
    WeekOfDecember31(yearDay);
    AsWrittenWeekOfNewYear2024(weekDay);
  }

  /** 2024-01-01 is in week 1 as written too: its year is read as it is. */
  // The date is a parameter pinned by `requires` rather than a literal only
  // to keep the solver within its resource limit.
  lemma AsWrittenWeekOfNewYear2024(d: Date)
    requires d.year == 2024 && d.month == 1 && d.day == 1
    ensures GetCurrentWeekNumberAsWritten(d) == 1
  {
    assert ValidDate(d);
    WeekOfNewYear2024(d);
    assert GetCurrentWeekNumberAsWritten(d) == GetCurrentWeekNumber(d);
  }

  /** All seven days of a Monday-to-Sunday week get the same week number. */
  lemma SameWeekSameNumber(monday: Date, day: Date)
    requires ValidDate(monday) && ValidDate(day)
    requires IsoWeekday(Ordinal(monday)) == 1
    requires 0 <= Ordinal(day) - Ordinal(monday) < 7
    ensures GetCurrentWeekNumber(day) == GetCurrentWeekNumber(monday)
  {
    var im, id := IsoCalendar(monday), IsoCalendar(day);
    SameWeekInIsoWeek(Ordinal(monday), Ordinal(day) - Ordinal(monday), im.year, im.week);
    InIsoWeekUnique(Ordinal(day), im.year, im.week, id.year, id.week);
  }
}
