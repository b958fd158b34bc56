/**
 * ISO 8601 week dates (ISO 8601:2004 sections 2.2.10 and 4.1.4): a calendar
 * week runs from Monday to Sunday, and week 1 of a year is the week that holds
 * the year's first Thursday, which is also the week that holds January 4.
 */
module IsoWeek {
  import opened Calendar

  /**
   * The Monday of week 1 for a year whose January 1 has day number jan1, as
   * Python's datetime module computes it: step back to the Monday of
   * January 1's week, and on by a week when January 1 falls after Thursday.
   */
  function Week1MondayFrom(jan1: int): (r: int)
    ensures IsoWeekday(r) == 1
    ensures r <= jan1 + 3 < r + 7
  {
    var firstWeekday := (jan1 + 6) % 7;
    if firstWeekday > 3 then jan1 - firstWeekday + 7 else jan1 - firstWeekday
  }

  /** The day number of the Monday that starts ISO week 1 of year y: the week that holds January 4. */
  function Week1Monday(y: int): (r: int)
    ensures IsoWeekday(r) == 1
    ensures r <= DaysBeforeYear(y) + 4 < r + 7
  {
    Week1MondayFrom(DaysBeforeYear(y) + 1)
  }

  /** The first Thursday of year y is the Thursday of ISO week 1. */
  lemma FirstThursday(y: int)
    ensures DayNumber(y, 1, 1) <= Week1Monday(y) + 3 <= DayNumber(y, 1, 1) + 6
  {
    assert DayNumber(y, 1, 1) == DaysBeforeYear(y) + 1;
  }

  /** Two Mondays are a whole number of weeks apart. */
  lemma MondaysApart(a: int, b: int)
    requires IsoWeekday(a) == 1 && IsoWeekday(b) == 1
    ensures (b - a) % 7 == 0
  {
  }

  /** A Thursday is a whole number of weeks after the Thursday of a Monday's week. */
  lemma ThursdayAfterMonday(t: int, m: int)
    requires IsoWeekday(t) == 4 && IsoWeekday(m) == 1
    ensures (t - (m + 3)) % 7 == 0 && (m + 3 - t) % 7 == 0
  {
  }

  /** Mondays close to two January 4ths one year apart are 52 or 53 weeks apart. */
  lemma MondayGapCount(a: int, b: int, jan4: int, nextJan4: int)
    requires (b - a) % 7 == 0
    requires a <= jan4 < a + 7 && b <= nextJan4 < b + 7
    requires 365 <= nextJan4 - jan4 <= 366
    ensures b - a == 364 || b - a == 371
  {
    var k := (b - a) / 7;
    assert b - a == 7 * k;
  }

  /** An ISO year has 52 or 53 weeks. */
  lemma Week1MondayGap(y: int)
    ensures Week1Monday(y + 1) - Week1Monday(y) == 364 || Week1Monday(y + 1) - Week1Monday(y) == 371
  {
    DaysBeforeNextYear(y);
    MondaysApart(Week1Monday(y), Week1Monday(y + 1));
    MondayGapCount(Week1Monday(y), Week1Monday(y + 1), DaysBeforeYear(y) + 4, DaysBeforeYear(y + 1) + 4);
  }

  lemma Week1MondayMonotone(a: int, b: int)
    requires a <= b
    ensures Week1Monday(a) <= Week1Monday(b)
    decreases b - a
  {
    if a < b {
      Week1MondayGap(a);
      Week1MondayMonotone(a + 1, b);
    }
  }

  /** The reference definition: day n is in ISO week w of ISO week-numbering year y. */
  ghost predicate InIsoWeek(n: int, y: int, w: int) {
    Week1Monday(y) <= n < Week1Monday(y + 1) && w == (n - Week1Monday(y)) / 7 + 1
  }

  /** Every day has at most one ISO week date. */
  lemma InIsoWeekUnique(n: int, y1: int, w1: int, y2: int, w2: int)
    requires InIsoWeek(n, y1, w1) && InIsoWeek(n, y2, w2)
    ensures y1 == y2 && w1 == w2
  {
    var a1, b1, a2, b2 := Week1Monday(y1), Week1Monday(y1 + 1), Week1Monday(y2), Week1Monday(y2 + 1);
    if y1 < y2 {
      Week1MondayMonotone(y1 + 1, y2);
    } else if y2 < y1 {
      Week1MondayMonotone(y2 + 1, y1);
    }
    DisjointYears(n, y1, a1, b1, y2, a2, b2);
  }

  /** On plain numbers: year y owns the days [a, b), later years start no earlier than b. */
  lemma DisjointYears(n: int, y1: int, a1: int, b1: int, y2: int, a2: int, b2: int)
    requires a1 <= n < b1 && a2 <= n < b2
    requires y1 < y2 ==> b1 <= a2
    requires y2 < y1 ==> b2 <= a1
    ensures y1 == y2
  {
  }

  /** ISO week numbers run from 1 to 53. */
  lemma InIsoWeekRange(n: int, y: int, w: int)
    requires InIsoWeek(n, y, w)
    ensures 1 <= w <= 53
  {
    Week1MondayGap(y);
  }

  /** The Thursday of the ISO week that holds day n. */
  function WeekThursday(n: int): (t: int)
    ensures IsoWeekday(t) == 4
    ensures t - 3 <= n < t + 4
  {
    n + 4 - IsoWeekday(n)
  }

  /** Days of one Monday-to-Sunday week share their Thursday. */
  lemma SameWeekSameThursday(n: int, k: int)
    requires IsoWeekday(n) == 1 && 0 <= k < 7
    ensures WeekThursday(n + k) == WeekThursday(n)
  {
  }

  /** Counting on plain numbers: the days of a week that starts at Monday n share its week. */
  lemma SameWeekCount(n: int, k: int, m0: int, m1: int, w: int)
    requires IsoWeekday(n) == 1 && IsoWeekday(m0) == 1 && IsoWeekday(m1) == 1
    requires m0 <= n < m1 && 0 <= k < 7 && w == (n - m0) / 7 + 1
    ensures m0 <= n + k < m1 && w == (n + k - m0) / 7 + 1
  {
    MondaysApart(m0, n);
    MondaysApart(n, m1);
    var q := (n - m0) / 7;
    assert n - m0 == 7 * q;
    var q1 := (m1 - n) / 7;
    assert m1 - n == 7 * q1;
  }

  /** All seven days from Monday to Sunday lie in the same ISO week. */
  lemma SameWeekInIsoWeek(n: int, k: int, y: int, w: int)
    requires IsoWeekday(n) == 1 && 0 <= k < 7
    requires InIsoWeek(n, y, w)
    ensures InIsoWeek(n + k, y, w)
  {
    SameWeekCount(n, k, Week1Monday(y), Week1Monday(y + 1), w);
  }

  /**
   * The counting behind the first-Thursday rule, on plain numbers: t is the
   * Thursday of n's week and lies in the year [jan1, nextJan1); m0 + 3 and
   * m1 + 3 are the first Thursdays of that year and of the next.
   */
  lemma ThursdayCount(n: int, t: int, jan1: int, nextJan1: int, m0: int, m1: int)
    requires t - 3 <= n < t + 4
    requires (t - (m0 + 3)) % 7 == 0 && (m1 + 3 - t) % 7 == 0
    requires jan1 <= m0 + 3 <= jan1 + 6 && nextJan1 <= m1 + 3 <= nextJan1 + 6
    requires jan1 <= t < nextJan1
    ensures m0 <= n < m1
    ensures (n - m0) / 7 == (t - jan1) / 7
  {
    var q := (t - (m0 + 3)) / 7;
    assert t - (m0 + 3) == 7 * q;
    var q1 := (m1 + 3 - t) / 7;
    assert m1 + 3 - t == 7 * q1;
    assert n - m0 == 7 * q + (n - t + 3);
    assert t - jan1 == 7 * q + (m0 + 3 - jan1);
  }

  /**
   * The "first Thursday" rule: the ISO week-numbering year of a day is the
   * calendar year of its week's Thursday, and the week number counts the
   * Thursdays of that year up to and including it.
   */
  lemma ThursdayRule(n: int, y: int)
    requires DaysBeforeYear(y) < WeekThursday(n) <= DaysBeforeYear(y + 1)
    ensures InIsoWeek(n, y, (WeekThursday(n) - DayNumber(y, 1, 1)) / 7 + 1)
  {
    var t := WeekThursday(n);
    var m0, m1 := Week1Monday(y), Week1Monday(y + 1);
    FirstThursday(y);
    FirstThursday(y + 1);
    ThursdayAfterMonday(t, m0);
    ThursdayAfterMonday(t, m1);
    ThursdayCount(n, t, DayNumber(y, 1, 1), DayNumber(y + 1, 1, 1), m0, m1);
  }

  /** Python's `date.isocalendar()` result. */
  datatype IsoCalendarDate = IsoCalendarDate(year: int, week: int, weekday: int)

  /** Day n lies in year y's weeks when it lies between the two week-1 Mondays a and b. */
  lemma InIsoWeekBetween(n: int, y: int, a: int, b: int)
    requires a == Week1Monday(y) && b == Week1Monday(y + 1) && a <= n < b
    ensures InIsoWeek(n, y, (n - a) / 7 + 1)
    ensures 1 <= (n - a) / 7 + 1 <= 53
  {
    InIsoWeekRange(n, y, (n - a) / 7 + 1);
  }

  /** A day before the year's week 1 belongs to the previous ISO year. */
  lemma IsoCalendarBefore(d: Date)
    requires ValidDate(d) && Ordinal(d) < Week1Monday(d.year)
    ensures InIsoWeek(Ordinal(d), d.year - 1, (Ordinal(d) - Week1Monday(d.year - 1)) / 7 + 1)
    ensures 1 <= (Ordinal(d) - Week1Monday(d.year - 1)) / 7 + 1 <= 53
  {
    var y := d.year - 1;
    var a, b := Week1Monday(y), Week1Monday(y + 1);
    assert y + 1 == d.year;
    OrdinalInYear(d);
    Week1MondayGap(y);
    InIsoWeekBetween(Ordinal(d), y, a, b);
  }

  /** A day past week 52 and on or after the next year's week 1 is in week 1 of the next ISO year. */
  lemma IsoCalendarAfter(d: Date)
    requires ValidDate(d) && Ordinal(d) >= Week1Monday(d.year)
    requires (Ordinal(d) - Week1Monday(d.year)) / 7 >= 52 && Ordinal(d) >= Week1Monday(d.year + 1)
    ensures InIsoWeek(Ordinal(d), d.year + 1, 1)
  {
    var y := d.year + 1;
    var a, b := Week1Monday(y), Week1Monday(y + 1);
    OrdinalInYear(d);
    Week1MondayGap(y);
    assert Ordinal(d) - a < 7;
    InIsoWeekBetween(Ordinal(d), y, a, b);
  }

  /** Every other day is in the week of its calendar year counted from week 1. */
  lemma IsoCalendarWithin(d: Date)
    requires ValidDate(d) && Ordinal(d) >= Week1Monday(d.year)
    requires (Ordinal(d) - Week1Monday(d.year)) / 7 < 52 || Ordinal(d) < Week1Monday(d.year + 1)
    ensures InIsoWeek(Ordinal(d), d.year, (Ordinal(d) - Week1Monday(d.year)) / 7 + 1)
    ensures 1 <= (Ordinal(d) - Week1Monday(d.year)) / 7 + 1 <= 53
  {
    var y := d.year;
    var a, b := Week1Monday(y), Week1Monday(y + 1);
    Week1MondayGap(y);
    InIsoWeekBetween(Ordinal(d), y, a, b);
  }

  /**
   * `date.isocalendar()` as Python's datetime module computes it: the week
   * offset from ISO week 1 of the calendar year, moved back to the previous
   * ISO year when negative and on to the next one when the day is on or
   * after the next year's week 1.
   */
  function IsoCalendar(d: Date): (r: IsoCalendarDate)
    requires ValidDate(d)
    ensures InIsoWeek(Ordinal(d), r.year, r.week)
    ensures 1 <= r.week <= 53
    ensures r.weekday == IsoWeekday(Ordinal(d))
    ensures d.year - 1 <= r.year <= d.year + 1
  {
    if Ordinal(d) < Week1Monday(d.year) then
      IsoCalendarBefore(d);
      IsoCalendarDate(d.year - 1, (Ordinal(d) - Week1Monday(d.year - 1)) / 7 + 1, IsoWeekday(Ordinal(d)))
    else if (Ordinal(d) - Week1Monday(d.year)) / 7 >= 52 && Ordinal(d) >= Week1Monday(d.year + 1) then
      IsoCalendarAfter(d);
      IsoCalendarDate(d.year + 1, 1, IsoWeekday(Ordinal(d)))
    else
      IsoCalendarWithin(d);
      IsoCalendarDate(d.year, (Ordinal(d) - Week1Monday(d.year)) / 7 + 1, IsoWeekday(Ordinal(d)))
  }
}
