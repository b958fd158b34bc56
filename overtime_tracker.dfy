/**
 * The command-line tracker's data: a dictionary from week keys such as
 * "2024-W01" to a bucket with the week's total hours and its entries.
 */
module OvertimeTracker {
  import opened Wrappers
  import opened Calendar
  import opened IsoWeek
  import opened Strings

  /** A value of Python's `date` type: a valid date in the years 1 to 9999. */
  predicate PyDate(d: Date) {
    ValidDate(d) && 1 <= d.year <= 9999
  }

  /** `get_calendar_week(target_date)`: the ISO week-numbering year and the ISO week. */
  function GetCalendarWeek(d: Date): (r: (int, int))
    requires ValidDate(d)
    ensures InIsoWeek(Ordinal(d), r.0, r.1)
    ensures 1 <= r.1 <= 53
  {
    var iso := IsoCalendar(d);
    (iso.year, iso.week)
  }

  /** The key under which the entries of a date are filed. */
  function WeekKeyOf(d: Date): string
    requires ValidDate(d)
  {
    var (year, week) := GetCalendarWeek(d);
    FormatWeekKey(year, week)
  }

  /** Reads a key back: digits, "-W", digits. */
  function ParseWeekKey(key: string): (r: Option<(int, int)>)
    ensures r.Some? ==> r.value.0 >= 0 && r.value.1 >= 0
  {
    var dash := IndexOf(key, '-');
    if dash + 2 <= |key| && key[dash..dash + 2] == "-W" then
      var year, week := key[..dash], key[dash + 2..];
      if year != [] && AllDigits(year) && week != [] && AllDigits(week) then
        Some((DigitsValue(year) as int, DigitsValue(week) as int))
      else None
    else None
  }

  lemma {:induction false} NoDashInDigits(s: string)
    requires AllDigits(s)
    ensures IndexOf(s, '-') == |s|
    decreases |s|
  {
    if s != [] {
      assert IsDigit(s[0]);
      assert AllDigits(s[1..]) by {
        forall i | 0 <= i < |s[1..]| ensures IsDigit(s[1..][i]) {
          assert s[1..][i] == s[i + 1];
        }
      }
      NoDashInDigits(s[1..]);
    }
  }

  /** The first dash after a run of digits is the one that follows them. */
  lemma IndexOfAfterDigits(s: string, rest: string)
    requires AllDigits(s) && rest != [] && rest[0] == '-'
    ensures IndexOf(s + rest, '-') == |s|
  {
    NoDashInDigits(s);
    var k := s + rest;
    assert k[|s|] == '-';
    forall j | 0 <= j < |s| ensures k[j] != '-' {
      assert k[j] == s[j];
      assert IsDigit(s[j]);
    }
  }

  /** Digits, "-W", digits read back as the two numbers. */
  lemma ParseWeekKeyOfParts(y: string, w: string)
    requires y != [] && AllDigits(y) && w != [] && AllDigits(w)
    ensures ParseWeekKey(y + ("-W" + w)) == Some((DigitsValue(y) as int, DigitsValue(w) as int))
  {
    var key := y + ("-W" + w);
    IndexOfAfterDigits(y, "-W" + w);
    assert key[..|y|] == y && key[|y|..|y| + 2] == "-W" && key[|y| + 2..] == w;
  }

  /**
   * `format_week_key(year, week)`: `f"{year}-W{week:02d}"`.  A key of a
   * non-negative year and week reads back as that year and week.
   */
  function FormatWeekKey(year: int, week: int): (key: string)
    ensures year >= 0 && week >= 0 ==> ParseWeekKey(key) == Some((year, week))
  {
    var y, w := IntToString(year), PaddedInt(week, 2);
    if year >= 0 && week >= 0 then
      ParseWeekKeyOfParts(y, w);
      y + ("-W" + w)
    else y + ("-W" + w)
  }

  /** Keys of different non-negative weeks differ. */
  lemma WeekKeyInjective(y1: nat, w1: nat, y2: nat, w2: nat)
    requires FormatWeekKey(y1, w1) == FormatWeekKey(y2, w2)
    ensures y1 == y2 && w1 == w2
  {
  }

  // The year and week are parameters pinned by `requires` rather than
  // literals only to keep the solver within its resource limit.
  lemma WeekKeyExample(year: int, week: int)
    requires year == 2024 && week == 1
    ensures FormatWeekKey(year, week) == "2024-W01"
  {
    YearText2024();
    WeekText01();
  }

  lemma YearText2024()
    ensures IntToString(2024) == "2024"
  {
    FourDigits(2024);
    assert IntToString(2024) == Digits(2024, 4);
    DigitsOf2024();
  }

  lemma WeekText01()
    ensures PaddedInt(1, 2) == "01"
  {
    assert NumDigits(1) == 1;
    assert PaddedInt(1, 2) == Digits(1, 2);
    assert Digits(1, 2) == Digits(0, 1) + ['1'];
    assert Digits(0, 1) == "" + ['0'];
  }

  lemma DigitsOf2024()
    ensures Digits(2024, 4) == "2024"
  {
    assert Pow10(1) == 10 && Pow10(2) == 100 && Pow10(3) == 1000 && Pow10(4) == 10000;
    assert Digits(2, 1) == "" + ['2'];
    assert Digits(20, 2) == Digits(2, 1) + ['0'];
    assert Digits(202, 3) == Digits(20, 2) + ['2'];
    assert Digits(2024, 4) == Digits(202, 3) + ['4'];
  }

  lemma FourDigits(n: nat)
    requires 1000 <= n <= 9999
    ensures NumDigits(n) == 4
  {
    var k := NumDigits(n);
    assert Pow10(3) == 1000 && Pow10(4) == 10000;
    if k <= 3 {
      Pow10Monotone(k, 3);
    } else if k >= 5 {
      Pow10Monotone(4, k - 1);
    }
  }

  lemma TwoDigits(n: nat)
    requires n <= 99
    ensures Max(2, NumDigits(n)) == 2
  {
    var k := NumDigits(n);
    assert Pow10(2) == 100;
  }

  /**
   * With four-digit years and weeks below 100, the string order of keys, in
   * which `sorted` lists them, is the chronological order of (year, week).
   */
  lemma WeekKeyOrder(y1: int, w1: int, y2: int, w2: int)
    requires 1000 <= y1 <= 9999 && 1000 <= y2 <= 9999
    requires 0 <= w1 <= 99 && 0 <= w2 <= 99
    ensures LexLess(FormatWeekKey(y1, w1), FormatWeekKey(y2, w2)) <==> y1 < y2 || (y1 == y2 && w1 < w2)
  {
    var a, b := IntToString(y1), IntToString(y2);
    var c, d := PaddedInt(w1, 2), PaddedInt(w2, 2);
    FourDigits(y1);
    FourDigits(y2);
    TwoDigits(w1);
    TwoDigits(w2);
    assert FormatWeekKey(y1, w1) == a + ("-W" + c) && FormatWeekKey(y2, w2) == b + ("-W" + d);
    LexLessAppend(a, b, "-W" + c, "-W" + d);
    LexLessAppend("-W", "-W", c, d);
    LexLessIrreflexive("-W");
    DigitsLexLess(a, b);
    DigitsLexLess(c, d);
    if a == b {
      assert y1 == y2;
    }
  }

  /** `date.isoformat()`: "YYYY-MM-DD", each part zero-padded. */
  function IsoFormat(d: Date): (s: string)
    requires PyDate(d)
    ensures |s| == 10
  {
    assert Pow10(2) == 100 && Pow10(4) == 10000;
    Digits(d.year, 4) + "-" + Digits(d.month, 2) + "-" + Digits(d.day, 2)
  }

  /** Reads "YYYY-MM-DD" back into its three numbers. */
  function ParseIsoDate(s: string): Option<Date> {
    if |s| == 10 && s[4] == '-' && s[7] == '-' && AllDigits(s[..4]) && AllDigits(s[5..7]) && AllDigits(s[8..]) then
      Some(Date(DigitsValue(s[..4]), DigitsValue(s[5..7]), DigitsValue(s[8..])))
    else None
  }

  lemma IsoFormatRoundTrip(d: Date)
    requires PyDate(d)
    ensures ParseIsoDate(IsoFormat(d)) == Some(d)
  {
    assert Pow10(2) == 100 && Pow10(4) == 10000;
    var y, m, dd := Digits(d.year, 4), Digits(d.month, 2), Digits(d.day, 2);
    var s := IsoFormat(d);
    assert s == y + "-" + m + "-" + dd;
    assert s[..4] == y && s[5..7] == m && s[8..] == dd;
  }

  lemma IsoFormatExample()
    ensures IsoFormat(Date(2024, 3, 5)) == "2024-03-05"
  {
    assert Pow10(1) == 10 && Pow10(2) == 100;
    DigitsOf2024();
    assert Digits(3, 2) == Digits(0, 1) + ['3'];
    assert Digits(5, 2) == Digits(0, 1) + ['5'];
    assert Digits(0, 1) == "" + ['0'];
  }

  /** One entry of a bucket: the date as ISO text, the hours and the description. */
  datatype Entry = Entry(date: string, hours: real, description: string)

  /** A week's bucket: `{"total_hours": ..., "entries": [...]}`. */
  datatype WeekData = WeekData(totalHours: real, entries: seq<Entry>)

  /** The bucket a week has before anything was added to it. */
  const EmptyWeek: WeekData := WeekData(0.0, [])

  function SumHours(entries: seq<Entry>): real {
    if entries == [] then 0.0 else SumHours(entries[..|entries| - 1]) + entries[|entries| - 1].hours
  }

  /** The entry's date is a date, and k reads back as that date's ISO year and week. */
  predicate FiledUnder(e: Entry, k: string) {
    var d := ParseIsoDate(e.date);
    d.Some? && ValidDate(d.value) && ParseWeekKey(k) == Some(GetCalendarWeek(d.value))
  }

  /** A bucket is non-empty and its total is the sum of its entries' hours. */
  predicate TotalValid(b: WeekData) {
    b.entries != [] && b.totalHours == SumHours(b.entries)
  }

  /** What `add_overtime` keeps true of every bucket: its total, and each entry filed under its own week. */
  predicate BucketValid(k: string, b: WeekData) {
    TotalValid(b) && AllFiledUnder(b.entries, k)
  }

  predicate AllFiledUnder(entries: seq<Entry>, k: string)
    decreases |entries|
  {
    entries == [] || (AllFiledUnder(entries[..|entries| - 1], k) && FiledUnder(entries[|entries| - 1], k))
  }

  /** Every single entry of a valid bucket is filed under the bucket's key. */
  lemma {:induction false} AllFiledUnderAt(entries: seq<Entry>, k: string, i: int)
    requires AllFiledUnder(entries, k) && 0 <= i < |entries|
    ensures FiledUnder(entries[i], k)
    decreases |entries|
  {
    if i < |entries| - 1 {
      AllFiledUnderAt(entries[..|entries| - 1], k, i);
    }
  }

  predicate ValidData(data: map<string, WeekData>) {
    forall k :: k in data ==> BucketValid(k, data[k])
  }

  /** `data.get(key, {"total_hours": 0.0, "entries": []})`. */
  function Lookup(data: map<string, WeekData>, key: string): (b: WeekData)
    ensures key in data ==> b == data[key]
    ensures key !in data ==> b == EmptyWeek
  {
    if key in data then data[key] else EmptyWeek
  }

  /**
   * The dictionary after `add_overtime`, the save left out: the bucket of
   * `key` (created empty if absent) gets the entry's hours added to its total
   * and the entry appended.
   */
  function AddEntry(data: map<string, WeekData>, key: string, entry: Entry): (r: map<string, WeekData>)
    ensures r.Keys == data.Keys + {key}
    ensures r[key].totalHours == Lookup(data, key).totalHours + entry.hours
    ensures r[key].entries == Lookup(data, key).entries + [entry]
    ensures forall k :: k in data && k != key ==> r[k] == data[k]
  {
    var bucket := Lookup(data, key);
    data[key := WeekData(bucket.totalHours + entry.hours, bucket.entries + [entry])]
  }

  /** A week not in the dictionary starts from zero hours and no entries. */
  lemma AddToNewWeek(data: map<string, WeekData>, key: string, entry: Entry)
    requires key !in data
    ensures AddEntry(data, key, entry)[key] == WeekData(entry.hours, [entry])
  {
  }

  lemma SumHoursAppend(entries: seq<Entry>, e: Entry)
    ensures SumHours(entries + [e]) == SumHours(entries) + e.hours
  {
    assert (entries + [e])[..|entries|] == entries;
  }

  /** The entry `add_overtime` builds for a date is filed under that date's week. */
  lemma NewEntryFiledUnderItsWeek(date: Date, hours: real, description: string)
    requires PyDate(date)
    ensures FiledUnder(Entry(IsoFormat(date), hours, description), WeekKeyOf(date))
  {
    IsoFormatRoundTrip(date);
  }

  /** Appending an entry filed under k keeps k's bucket valid; the empty bucket counts as a start. */
  lemma AppendKeepsBucketValid(k: string, b: WeekData, entry: Entry)
    requires BucketValid(k, b) || b == EmptyWeek
    requires FiledUnder(entry, k)
    ensures BucketValid(k, WeekData(b.totalHours + entry.hours, b.entries + [entry]))
  {
    SumHoursAppend(b.entries, entry);
    assert (b.entries + [entry])[..|b.entries|] == b.entries;
  }

  /** Adding keeps every bucket's total equal to the sum of its entries and every entry under its own date's key. */
  lemma AddPreservesValid(data: map<string, WeekData>, key: string, entry: Entry)
    requires ValidData(data) && FiledUnder(entry, key)
    ensures ValidData(AddEntry(data, key, entry))
  {
    forall k | k in AddEntry(data, key, entry)
      ensures BucketValid(k, AddEntry(data, key, entry)[k])
    {
      BucketAfterAdd(data, key, entry, k);
    }
  }

  /** Every bucket's total is the sum of its entries' hours. */
  predicate TotalsValid(data: map<string, WeekData>) {
    forall k :: k in data ==> TotalValid(data[k])
  }

  /**
   * Every add keeps the totals right, whatever key the entry is filed
   * under: the hours go to the same bucket the entry is appended to.
   */
  lemma AddKeepsTotals(data: map<string, WeekData>, key: string, entry: Entry)
    requires TotalsValid(data)
    ensures TotalsValid(AddEntry(data, key, entry))
  {
    SumHoursAppend(Lookup(data, key).entries, entry);
  }

  /** One bucket after the add: the added-to bucket by AppendKeepsBucketValid, every other bucket as it was. */
  lemma BucketAfterAdd(data: map<string, WeekData>, key: string, entry: Entry, k: string)
    requires k in AddEntry(data, key, entry)
    requires k in data ==> BucketValid(k, data[k])
    requires FiledUnder(entry, key)
    ensures BucketValid(k, AddEntry(data, key, entry)[k])
  {
    if k == key {
      AppendKeepsBucketValid(key, Lookup(data, key), entry);
    } else {
      assert AddEntry(data, key, entry)[k] == data[k];
    }
  }

  /** Starting from the empty dictionary, one add gives one bucket holding just that entry. */
  lemma AddToEmpty(key: string, entry: Entry)
    ensures AddEntry(map[], key, entry) == map[key := WeekData(entry.hours, [entry])]
  {
    assert [] + [entry] == [entry];
  }

  /** The key the dictionary files nothing under yet is looked up as the empty bucket, and nothing is inserted. */
  lemma LookupMissing(data: map<string, WeekData>, year: int, week: int)
    requires FormatWeekKey(year, week) !in data
    ensures Lookup(data, FormatWeekKey(year, week)) == EmptyWeek
  {
  }

  /** Python's `<` on strings, shown for one key pair: a week of December before week 1 of the following year. */
  lemma SortedKeysExample()
    ensures LexLess(FormatWeekKey(2024, 52), FormatWeekKey(2025, 1))
  {
    WeekKeyOrder(2024, 52, 2025, 1);
  }

  /** m comes before every other element of s. */
  predicate IsMin(m: string, s: set<string>) {
    forall x :: x in s ==> x == m || LexLess(m, x)
  }

  lemma {:induction false} MinExists(s: set<string>)
    requires s != {}
    ensures exists m :: m in s && IsMin(m, s)
    decreases |s|
  {
    var y :| y in s;
    if s == {y} {
      assert IsMin(y, s);
    } else {
      var rest := s - {y};
      MinExists(rest);
      var m :| m in rest && IsMin(m, rest);
      if LexLess(y, m) {
        forall x | x in s && x != y ensures LexLess(y, x) {
          if x != m {
            LexLessTransitive(y, m, x);
          }
        }
        assert IsMin(y, s);
      } else {
        LexLessTotal(y, m);
        assert IsMin(m, s);
      }
    }
  }

  lemma MinUnique(a: string, b: string, s: set<string>)
    requires a in s && b in s && IsMin(a, s) && IsMin(b, s)
    ensures a == b
  {
    if a != b {
      LexLessAsymmetric(a, b);
    }
  }

  lemma MinsEqual(s: set<string>)
    ensures forall a, b :: a in s && IsMin(a, s) && b in s && IsMin(b, s) ==> a == b
  {
    forall a, b | a in s && IsMin(a, s) && b in s && IsMin(b, s) ensures a == b {
      MinUnique(a, b, s);
    }
  }

  /** `sorted(keys)`: the keys in ascending string order. */
  function SortedKeys(s: set<string>): (r: seq<string>)
    ensures forall k :: k in r <==> k in s
    ensures forall i, j :: 0 <= i < j < |r| ==> LexLess(r[i], r[j])
    decreases |s|
  {
    if s == {} then []
    else
      MinExists(s);
      MinsEqual(s);
      var m :| m in s && IsMin(m, s);
      var rest := SortedKeys(s - {m});
      [m] + rest
  }

  /** Strictly ascending lists have no repetitions, so each key is listed exactly once. */
  lemma {:induction false} SortedKeysLength(s: set<string>)
    ensures |SortedKeys(s)| == |s|
    decreases |s|
  {
    var r := SortedKeys(s);
    if s != {} {
      var m := r[0];
      assert r == [m] + r[1..];
      assert m in s;
      assert r[1..] == SortedKeys(s - {m});
      SortedKeysLength(s - {m});
    }
  }

  /** The Mondays that start ISO week 1 of 2024 and of 2025. */
  lemma Week1Mondays2024And2025()
    ensures Week1Monday(2024) == 738886 && Week1Monday(2025) == 739250
  {
    assert DaysBeforeYear(2024) == 738885;
    assert DaysBeforeYear(2025) == 739251;
  }

  /** The week of a date is the one ISO week that holds its day number. */
  lemma CalendarWeekIs(d: Date, year: int, week: int)
    requires ValidDate(d) && InIsoWeek(Ordinal(d), year, week)
    ensures GetCalendarWeek(d) == (year, week)
  {
    var r := GetCalendarWeek(d);
    InIsoWeekUnique(Ordinal(d), r.0, r.1, year, week);
  }

  /** 2024-01-07, a Sunday, ends ISO week 1 of 2024; the Monday after starts week 2. */
  // The dates are parameters pinned by `requires` rather than literals only
  // to keep the solver within its resource limit.
  lemma WeeksAroundJanuary8(sunday: Date, monday: Date)
    requires sunday.year == 2024 && sunday.month == 1 && sunday.day == 7
    requires monday.year == 2024 && monday.month == 1 && monday.day == 8
    ensures GetCalendarWeek(sunday) == (2024, 1)
    ensures GetCalendarWeek(monday) == (2024, 2)
  {
    Week1Mondays2024And2025();
    assert DayNumber(2024, 1, 7) == 738892 && DayNumber(2024, 1, 8) == 738893 by {
      assert DaysBeforeYear(2024) == 738885;
    }
    assert ValidDate(sunday) && ValidDate(monday);
    assert Ordinal(sunday) == 738892 && Ordinal(monday) == 738893;
    assert (738892 - 738886) / 7 == 0 && (738893 - 738886) / 7 == 1;
    assert InIsoWeek(738892, 2024, 1) && InIsoWeek(738893, 2024, 2);
    CalendarWeekIs(sunday, 2024, 1);
    CalendarWeekIs(monday, 2024, 2);
  }

  /**
   * An entry dated `entryDate` is filed under the key of `keyDate` exactly
   * when the two dates fall in the same ISO week.
   */
  lemma FiledUnderIffSameWeek(keyDate: Date, entryDate: Date, hours: real, description: string)
    requires PyDate(keyDate) && PyDate(entryDate)
    ensures FiledUnder(Entry(IsoFormat(entryDate), hours, description), WeekKeyOf(keyDate))
            <==> GetCalendarWeek(keyDate) == GetCalendarWeek(entryDate)
  {
    IsoFormatRoundTrip(entryDate);
    var (year, week) := GetCalendarWeek(keyDate);
    assert ParseWeekKey(FormatWeekKey(year, week)) == Some((year, week));
  }

  /** An add whose entry is not filed under its key leaves an invalid bucket behind. */
  lemma AddOutsideItsWeek(data: map<string, WeekData>, key: string, entry: Entry)
    requires !FiledUnder(entry, key)
    ensures !ValidData(AddEntry(data, key, entry))
  {
    var r := AddEntry(data, key, entry);
    if ValidData(r) {
      assert false;
    }
  }

  /**
   * Two clock readings on either side of Sunday midnight: the key comes from
   * Sunday 2024-01-07 and the entry's date is Monday 2024-01-08, so the entry
   * is not filed under its own week, and by `AddOutsideItsWeek` that add
   * breaks the bucket invariant.
   */
  // The dates are parameters pinned by `requires` rather than literals only
  // to keep the solver within its resource limit.
  lemma MidnightBetweenClockReads(sunday: Date, monday: Date, hours: real, description: string)
    requires sunday.year == 2024 && sunday.month == 1 && sunday.day == 7
    requires monday.year == 2024 && monday.month == 1 && monday.day == 8
    ensures !FiledUnder(Entry(IsoFormat(monday), hours, description), WeekKeyOf(sunday))
  {
    assert PyDate(sunday) && PyDate(monday);
    WeeksAroundJanuary8(sunday, monday);
    FiledUnderIffSameWeek(sunday, monday, hours, description);
  }

  /** The tracker: the dictionary of week buckets. */
  class OvertimeTracker {
    var data: map<string, WeekData>

    ghost predicate Valid()
      reads this
    {
      ValidData(data)
    }

    /** A tracker whose data file does not exist yet starts with an empty dictionary. */
    constructor ()
      ensures data == map[] && Valid()
    {
      data := map[];
    }

    /**
     * `add_overtime(hours, target_date, description)` as written, the file
     * save left out.  Without a target date the clock is read twice: once
     * for the week key (in `get_calendar_week`) and once for the entry's
     * date; `clockForKey` and `clockForEntry` are those two readings.  The
     * entry is filed under its own date's week when a date is given or both
     * readings fall in the same week.
     */
    method AddOvertime(hours: real, targetDate: Option<Date>, description: string, clockForKey: Date, clockForEntry: Date)
      requires targetDate.Some? ==> PyDate(targetDate.value)
      requires PyDate(clockForKey) && PyDate(clockForEntry)
      modifies this
      ensures data == AddEntry(old(data), WeekKeyOf(targetDate.GetOr(clockForKey)),
                               Entry(IsoFormat(targetDate.GetOr(clockForEntry)), hours, description))
      ensures old(Valid()) && (targetDate.Some? || WeekKeyOf(clockForKey) == WeekKeyOf(clockForEntry)) ==> Valid()
      ensures old(TotalsValid(data)) ==> TotalsValid(data)
    {
      var keyDate := if targetDate.Some? then targetDate.value else clockForKey;
      var (year, week) := GetCalendarWeek(keyDate);
      var weekKey := FormatWeekKey(year, week);
      var entryDate := if targetDate.Some? then targetDate.value else clockForEntry;
      var entry := Entry(IsoFormat(entryDate), hours, description);
      NewEntryFiledUnderItsWeek(entryDate, hours, description);
      FileEntry(weekKey, entry);
    }

    /**
     * `add_overtime` with the clock read once: the week key and the entry's
     * date both come from the one date, so every entry is filed under its
     * own date's week and the bucket invariant always holds.
     */
    method AddOvertimeOnOneDate(hours: real, targetDate: Option<Date>, description: string, clock: Date)
      requires targetDate.Some? ==> PyDate(targetDate.value)
      requires PyDate(clock)
      modifies this
      ensures data == AddEntry(old(data), WeekKeyOf(targetDate.GetOr(clock)), Entry(IsoFormat(targetDate.GetOr(clock)), hours, description))
      ensures old(Valid()) ==> Valid()
      ensures old(TotalsValid(data)) ==> TotalsValid(data)
    {
      var date := if targetDate.Some? then targetDate.value else clock;
      var (year, week) := GetCalendarWeek(date);
      var weekKey := FormatWeekKey(year, week);
      var entry := Entry(IsoFormat(date), hours, description);
      NewEntryFiledUnderItsWeek(date, hours, description);
      FileEntry(weekKey, entry);
    }

    /** The dictionary steps of `add_overtime`: create the bucket if missing, add the hours, append the entry. */
    method FileEntry(weekKey: string, entry: Entry)
      modifies this
      ensures data == AddEntry(old(data), weekKey, entry)
      ensures old(Valid()) && FiledUnder(entry, weekKey) ==> Valid()
      ensures old(TotalsValid(data)) ==> TotalsValid(data)
    {
      ghost var before := Lookup(data, weekKey);
      if weekKey !in data {
        data := data[weekKey := EmptyWeek];
      }
      var bucket := data[weekKey];
      assert bucket == before;
      data := data[weekKey := bucket.(totalHours := bucket.totalHours + entry.hours)];
      bucket := data[weekKey];
      data := data[weekKey := bucket.(entries := bucket.entries + [entry])];
      assert data == AddEntry(old(data), weekKey, entry);
      if old(Valid()) && FiledUnder(entry, weekKey) {
        AddPreservesValid(old(data), weekKey, entry);
      }
      if old(TotalsValid(data)) {
        AddKeepsTotals(old(data), weekKey, entry);
      }
    }

    /** `get_week_overtime(year, week)`: the stored bucket, or the empty one; nothing is inserted. */
    function GetWeekOvertime(year: int, week: int): (b: WeekData)
      reads this
      ensures FormatWeekKey(year, week) in data ==> b == data[FormatWeekKey(year, week)]
      ensures FormatWeekKey(year, week) !in data ==> b == EmptyWeek
    {
      Lookup(data, FormatWeekKey(year, week))
    }

    /** `get_all_weeks()`: every key once, in ascending order. */
    function GetAllWeeks(): (keys: seq<string>)
      reads this
      ensures forall k :: k in keys <==> k in data
      ensures forall i, j :: 0 <= i < j < |keys| ==> LexLess(keys[i], keys[j])
      ensures |keys| == |data|
    {
      SortedKeysLength(data.Keys);
      SortedKeys(data.Keys)
    }
  }
}
