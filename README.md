# TimeTracker overtime core, modelled in Dafny

TimeTracker records weekly working hours and keeps an overtime balance
("Überstunden") against a weekly target of 41 hours, or 40 in a school-holiday
week. The repository holds two trackers. This project models the core of both:

- **Browser app.**
  - The overtime arithmetic: target hours, week overtime, the total, and the
    ISO 8601 week number and calendar year of a date.
  - The app's list of weeks: add appends, and delete removes every
    structurally equal entry. After every change the list is saved.
  - The week table: a stable newest-first sort of a copy, plus the values
    derived for each row.
  - The entry form: five fields and a submit.
  - The one-key storage adapter.
  - The sign rule of the balance card.
- **Python tracker.** A dictionary of week buckets keyed by `"YYYY-Www"`,
  with `add_overtime`, lookup with a default, the sorted key list, and the
  ISO week of a date.

Modules, one per source file or shared concept:

| file | module | models |
|---|---|---|
| `wrappers.dfy` | `Wrappers` | `Option` |
| `seqs.dfy` | `Seqs` | small sequence facts |
| `calendar.dfy` | `Calendar` | proleptic Gregorian dates as day numbers (day 1 = 0001-01-01) |
| `iso_week.dfy` | `IsoWeek` | ISO 8601:2004 week dates (sections 2.2.10 and 4.1.4); Python's `date.isocalendar()` |
| `strings.dfy` | `Strings` | decimal text, Python's `f"{n}"` / `f"{n:02d}"`, Python's string order |
| `overtime.dfy` | `Overtime` | `src/utils/overtime.js` |
| `overtime_summary.dfy` | `OvertimeSummary` | `src/components/OvertimeSummary.jsx` |
| `storage.dfy` | `Storage` | `src/utils/storage.js` |
| `app.dfy` | `App` | `src/App.jsx` |
| `week_list.dfy` | `WeekList` | `src/components/WeekList.jsx` |
| `week_form.dfy` | `WeekForm` | `src/components/WeekForm.jsx` |
| `overtime_tracker.dfy` | `OvertimeTracker` | `overtime_tracker.py` (data model, without file I/O) |

How the model is built:

- Hours are exact `real`s.
- A `WeekEntry` keeps a missing reduction (`None`) apart from a reduction of 0.
  Deletion compares strictly, so the two differ there. The overtime formula
  counts a missing reduction as 0.
- Dates are `(year, month, day)` values over a day count. `isocalendar()`
  and the ISO week function `Overtime.GetCurrentWeekNumber` are written out
  over it, and both are proved equal to one reference definition,
  `IsoWeek.InIsoWeek`: the week that holds the year's first Thursday is
  week 1. `getCurrentWeekNumber` as written
  (`Overtime.GetCurrentWeekNumberAsWritten`) is proved equal to them for
  years up to -2 and from 101 on; for years -1 to 100 it can differ (see Findings).
- Browser storage is a class holding a `map<string, string>`. The JSON codec
  is a parameter: a pair of functions. Where a proof needs it, the codec is
  required to round-trip the one list at hand (`Storage.RoundTrips`).
- `App`, `WeekForm` and the Python `OvertimeTracker` are classes whose methods
  update their fields. The list transitions, the sort and the row derivation
  are functions.

The modelled files have no "next week" suggestion and no rollover after
week 52 (the form starts at the current year and week), one storage backend
only, and no export to or import from a file; the model has none of these
either.

## Model

| member | source | states |
|---|---|---|
| `Overtime.TargetHours` | src/utils/overtime.js:1-3 | 40 hours in a holiday week, 41 otherwise |
| `Overtime.ReductionOrZero` | src/utils/overtime.js:7 | `reduction \|\| 0`: a missing reduction counts as 0, a present one as itself |
| `Overtime.WeekOvertime` | src/utils/overtime.js:5-9 | hours worked = target + reduction + overtime, so a deficit is negative |
| `Overtime.TotalOvertime` | src/utils/overtime.js:11-13 | an empty list totals 0, and a one-week list totals that week's overtime |
| `Overtime.TotalOvertimeAppend` | src/utils/overtime.js:11-13 | the total of a concatenation is the sum of the totals |
| `Overtime.TotalOvertimeFront` | src/utils/overtime.js:11-13 | a non-empty list totals its first week's overtime plus the total of the rest |
| `Overtime.TotalOvertimeSingleton` | src/utils/overtime.js:12 | a one-week list totals that week's overtime |
| `Overtime.TotalOvertimePermutation` | src/utils/overtime.js:12 | the total does not depend on the order of the weeks |
| `Overtime.OvertimeExamples` | src/__tests__/overtime.test.js:10-61 | targets 41/40; 45→4, 38→-3, holiday 42→2, reduction 2→2, missing reduction 41→0; empty total 0; the three-week total is 3 |
| `Overtime.UtcWeekday` | src/utils/overtime.js:17 | `getUTCDay()` is 0 for Sunday through 6 for Saturday, agreeing with the ISO weekday modulo 7 |
| `Overtime.ThursdayShift` | src/utils/overtime.js:17 | the date shift with Sunday counted as 7 lands on the Thursday of the date's Monday-to-Sunday week |
| `Overtime.CeilDiv` | src/utils/overtime.js:19 | `Math.ceil(a / b)` is the least r with a ≤ b·r |
| `Calendar.YearOfDayUnique` | src/utils/overtime.js:18 | no other year holds the day: `getUTCFullYear()` is determined by the day number |
| `Calendar.YearOfDay` | src/utils/overtime.js:18 | `getUTCFullYear()` of the shifted date: the unique calendar year holding that day |
| `Overtime.GetCurrentWeekNumber` | src/utils/overtime.js:15-20 | the week number is in [1, 53] and is the ISO week of the date, the same week that Python's `isocalendar()` gives |
| `Overtime.GetCurrentWeekNumberAsWritten` | src/utils/overtime.js:15-20 | for years up to -2 and from 101 on, where `Date.UTC` reads no year as a two-digit year, the code as written gives the ISO week |
| `Overtime.AsWrittenWeekOutOfRange` | src/utils/overtime.js:16-18 | 0100-01-01 gives -99085 as written, but ISO week 53 (see Findings) |
| `Overtime.GetCurrentYear` | src/utils/overtime.js:22-24 | the calendar year of the date, not the ISO week-numbering year |
| `Overtime.YearAndWeekOfDecember30` | src/utils/overtime.js:15-24 | 2024-12-30 is paired with year 2024 and week 1 |
| `Overtime.WeekOfNewYear2024` | src/__tests__/overtime.test.js:70-74 | 2024-01-01 is in week 1 |
| `Overtime.WeekOfDecember31` | src/utils/overtime.js:15-20 | 2023-12-31 is in week 52 |
| `Overtime.AsWrittenWeekOfNewYear2024` | src/utils/overtime.js:15-20 | 2024-01-01 is in week 1 also as written |
| `Overtime.YearAndWeekAcrossNewYear` | src/components/WeekForm.jsx:5-6 | a year read on 2023-12-31 gives 2023 and a week read on 2024-01-01 gives 1, so the form's two readings can pair up as week 1 of 2023 |
| `Overtime.SameWeekSameNumber` | src/utils/overtime.js:17-19 | all seven days from a Monday to the following Sunday get the same week number |
| `IsoWeek.Week1Monday` | overtime_tracker.py:58 | the Monday that starts week 1 is the Monday of the week holding January 4 |
| `IsoWeek.FirstThursday` | src/utils/overtime.js:17-19 | the Thursday of week 1 falls on January 1-7, so it is the year's first Thursday |
| `IsoWeek.Week1MondayGap` | src/utils/overtime.js:19 | an ISO year has 52 or 53 weeks |
| `IsoWeek.InIsoWeekUnique` | overtime_tracker.py:45-59 | each day has at most one ISO (year, week) |
| `IsoWeek.InIsoWeekRange` | src/utils/overtime.js:15-20 | ISO week numbers run from 1 to 53 |
| `IsoWeek.SameWeekInIsoWeek` | src/utils/overtime.js:17 | the seven days of a Monday-to-Sunday week share one ISO week |
| `IsoWeek.ThursdayRule` | src/utils/overtime.js:17-19 | a day is in the ISO year of its week's Thursday, in the week that counts the Thursdays of that year up to that one |
| `IsoWeek.IsoCalendar` | overtime_tracker.py:58 | `isocalendar()` gives the day's ISO year (within one of the calendar year), its ISO week in [1, 53] and its ISO weekday |
| `OvertimeSummary.ClassOf` | src/components/OvertimeSummary.jsx:5 | the class is `positive` if and only if the value is ≥ 0 |
| `OvertimeSummary.PrefixOf` | src/components/OvertimeSummary.jsx:11 | the `+` prefix appears if and only if the value is ≥ 0, otherwise there is no prefix |
| `OvertimeSummary.SummaryView` | src/components/OvertimeSummary.jsx:4-11 | the card shows the total overtime of the weeks, with class and prefix positive exactly when the total is ≥ 0 |
| `OvertimeSummary.EmptySummary` | src/components/OvertimeSummary.jsx:4-5 | no weeks: total 0, the positive class and the prefix `+` (`+0h`) |
| `OvertimeSummary.SummaryIgnoresOrder` | src/components/OvertimeSummary.jsx:4 | permuting the weeks does not change the card |
| `Storage.LocalStorage.GetItem` | src/utils/storage.js:5 | `getItem` returns the stored text, or `null` when the key is absent |
| `Storage.LocalStorage.SetItem` | src/utils/storage.js:13 | `setItem` updates that key only |
| `Storage.LoadWeeks` | src/utils/storage.js:3-10 | from the store: a missing value, empty text or text that does not decode gives `[]`; otherwise the decoded list |
| `Storage.LoadFrom` | src/utils/storage.js:3-10 | a missing value, empty text or unparsable text loads as `[]`; otherwise the decoded list is returned; load is total |
| `Storage.SaveWeeks` | src/utils/storage.js:12-14 | the store gets the encoded list under `timetracker_weeks`, and every other key keeps its value |
| `Storage.SaveThenLoad` | src/utils/storage.js:3-14 | when the codec round-trips the list, loading after a save returns the saved list, whatever else the store holds |
| `Storage.SaveKeepsOtherKeys` | src/utils/storage.js:13 | a save neither adds, removes nor changes any other key |
| `App.SameEntry` | src/App.jsx:21-22 | the five-field comparison holds exactly when the entries are equal |
| `App.Add` | src/App.jsx:15-17 | the list grows by one, with the earlier entries unchanged and the new entry last |
| `App.Delete` | src/App.jsx:19-23 | no remaining entry matches, every remaining entry was in the list, and a list with no match is returned unchanged |
| `App.DeleteIsSubsequence` | src/App.jsx:20 | the result is a subsequence of the list: relative order is kept |
| `App.DeleteMultiset` | src/App.jsx:20-22 | every copy of the entry goes, and every other entry stays as often as it was there |
| `App.DeleteIdempotent` | src/App.jsx:19-23 | deleting twice is deleting once |
| `App.DeleteAppend` | src/App.jsx:20 | deletion distributes over concatenation |
| `App.DeleteAfterAdd` | src/App.jsx:15-23 | deleting an entry just added also removes its earlier duplicates |
| `App.MissingReductionIsNotZero` | src/App.jsx:21-22 | an entry without a reduction and the same entry with reduction 0 have equal overtime, but the latter does not delete the former |
| `App.App.constructor` | src/App.jsx:9-13 | the initial list is what loads from the store, and the effect then saves it |
| `App.App.HandleAdd` | src/App.jsx:11-17 | the list becomes the appended list, and the store holds its encoding under the key, the other keys unchanged |
| `App.App.HandleDelete` | src/App.jsx:11-23 | the list becomes the filtered list, and the store holds its encoding under the key, the other keys unchanged |
| `App.ReloadGivesWeeks` | src/App.jsx:9-13 | once saved, and when the codec round-trips the current list, loading the store gives it back |
| `WeekList.Compare` | src/components/WeekList.jsx:4 | the comparator is negative when the first entry has a later (year, week), and zero when they share a (year, week) |
| `WeekList.Insert` | src/components/WeekList.jsx:4 | inserting adds exactly the one entry to the multiset |
| `WeekList.Sort` | src/components/WeekList.jsx:4 | the sorted copy is a permutation of the weeks |
| `WeekList.InsertSorted` | src/components/WeekList.jsx:4 | inserting into a newest-first list keeps it newest first |
| `WeekList.SortIsSorted` | src/components/WeekList.jsx:4 | the sorted copy is non-increasing by year and, within a year, by week |
| `WeekList.SortIsStable` | src/components/WeekList.jsx:4 | entries of the same (year, week) keep their input order |
| `WeekList.RowOf` | src/components/WeekList.jsx:32-47 | the row holds the entry itself (the delete payload), the target of its holiday flag, `reduction \|\| 0`, and overtime with hours = target + reduction + overtime; class and prefix are positive exactly when overtime ≥ 0 |
| `WeekList.Rows` | src/components/WeekList.jsx:32 | one row per sorted entry, in the same order |
| `WeekList.Entries` | src/components/WeekList.jsx:46 | the entries the rows' delete buttons pass, in row order |
| `WeekList.RowsEntries` | src/components/WeekList.jsx:32-46 | the rows' delete payloads are the sorted entries themselves |
| `WeekList.View` | src/components/WeekList.jsx:4-13 | no weeks gives the empty state; otherwise the table's rows are the rows of the newest-first sorted copy, one per week, and their entries are a permutation of the weeks |
| `WeekList.ViewIsNewestFirst` | src/components/WeekList.jsx:4-32 | the table lists its entries newest first |
| `WeekList.RowsAddUpToTotal` | src/components/WeekList.jsx:33 | the rows' overtimes add up to the total overtime of the weeks |
| `WeekForm.ParseFloat` | src/components/WeekForm.jsx:19 | the empty text is not a number |
| `WeekForm.JsNumber` | src/components/WeekForm.jsx:19-21 | `Number("")` is 0; any other text is read as a floating-point literal, or NaN |
| `WeekForm.ParseFloatOfInt` | src/components/WeekForm.jsx:19 | the text of any whole number reads back as that number |
| `WeekForm.ParseFloatOfFraction` | src/components/WeekForm.jsx:19 | `"2.5"` reads as 2.5 |
| `WeekForm.ParseFloatOfNegativeFraction` | src/components/WeekForm.jsx:19 | `"-.5"` reads as -0.5 |
| `WeekForm.ParseFloatOfExponent` | src/components/WeekForm.jsx:19 | `"1e2"` reads as 100 |
| `WeekForm.ParseFloatOfDecimal` | src/components/WeekForm.jsx:19 | any text digits, `.`, digits (the first part possibly empty) reads as the whole part plus the fraction digits over their power of ten, and with a leading `-` as the negation of that |
| `WeekForm.OutsideNumberInputGrammar` | src/components/WeekForm.jsx:19 | `"5."`, `"+5"` and `"abc"` are not valid floating-point numbers in the number input's grammar, so they have no value |
| `WeekForm.ReductionValue` | src/components/WeekForm.jsx:21 | `Number(reduction) \|\| 0`: the untouched field gives its number, edited text gives its value, and NaN gives 0 |
| `WeekForm.ReductionFallsBackToZero` | src/components/WeekForm.jsx:21 | a cleared or unreadable reduction is submitted as 0 |
| `WeekForm.SubmittedEntry` | src/components/WeekForm.jsx:15-22 | nothing is emitted exactly when hours are empty; otherwise one entry with the form's year, week, holiday flag, hours read as a number and a reduction that is always present |
| `WeekForm.ZeroHoursAreSubmitted` | src/components/WeekForm.jsx:15-19 | `"0"` hours are not empty: an entry with 0 hours is emitted |
| `WeekForm.WeekForm.constructor` | src/components/WeekForm.jsx:5-9 | initial state: the calendar year of the first clock reading and `getCurrentWeekNumber` as written of the second (its ISO week from year 101 on), empty hours, not a holiday, reduction 0 |
| `WeekForm.WeekForm.DisplayedTarget` | src/components/WeekForm.jsx:11 | the displayed target is the target of the holiday flag: 40 exactly when it is set |
| `WeekForm.WeekForm.SetYear` | src/components/WeekForm.jsx:35 | the year field takes the input's value |
| `WeekForm.WeekForm.SetWeek` | src/components/WeekForm.jsx:39 | the week field takes the input's value |
| `WeekForm.WeekForm.SetHoursWorked` | src/components/WeekForm.jsx:45 | the hours field takes the input's text |
| `WeekForm.WeekForm.SetIsHoliday` | src/components/WeekForm.jsx:54 | the holiday flag takes the checkbox's state |
| `WeekForm.WeekForm.SetReduction` | src/components/WeekForm.jsx:49 | the reduction field takes the input's text |
| `WeekForm.WeekForm.Submit` | src/components/WeekForm.jsx:13-26 | empty hours: nothing emitted and no state changed; otherwise the entry is emitted, hours become `''`, reduction 0 and holiday false, while year and week stay |
| `OvertimeTracker.GetCalendarWeek` | overtime_tracker.py:45-59 | the ISO week-numbering year and the ISO week in [1, 53] |
| `Strings.PaddedInt` | overtime_tracker.py:73 | `f"{n:02d}"`: the digits of n padded with zeros to at least the width; for negatives the sign comes first and counts toward the width |
| `Strings.IntToString` | overtime_tracker.py:73 | `f"{n}"`: exactly the digits of n, with one minus sign before them for negatives |
| `Strings.LexLess` | overtime_tracker.py:136 | Python's string order: no text is less than itself, and a proper prefix is less than the text it starts |
| `OvertimeTracker.FormatWeekKey` | overtime_tracker.py:61-73 | the key of a non-negative year and week reads back as that year and week |
| `OvertimeTracker.WeekKeyInjective` | overtime_tracker.py:73 | different weeks have different keys |
| `OvertimeTracker.WeekKeyExample` | overtime_tracker.py:71-73 | year 2024, week 1 gives `"2024-W01"` |
| `OvertimeTracker.YearText2024` | overtime_tracker.py:73 | `f"{2024}"` is `"2024"` |
| `OvertimeTracker.WeekText01` | overtime_tracker.py:73 | `f"{1:02d}"` is `"01"` |
| `OvertimeTracker.WeekKeyOrder` | overtime_tracker.py:129-136 | with 4-digit years and weeks below 100, string order of keys is (year, week) order |
| `OvertimeTracker.SortedKeysExample` | overtime_tracker.py:136 | week 52 of 2024 is listed before week 1 of 2025 |
| `OvertimeTracker.IsoFormat` | overtime_tracker.py:97 | `isoformat()` is 10 characters, `YYYY-MM-DD` |
| `OvertimeTracker.IsoFormatRoundTrip` | overtime_tracker.py:97 | an entry's date text reads back as its date |
| `OvertimeTracker.IsoFormatExample` | overtime_tracker.py:97 | 2024-03-05 is written `"2024-03-05"` |
| `OvertimeTracker.Lookup` | overtime_tracker.py:117 | `data.get(key, default)`: the stored bucket, or `{0.0, []}` when the key is absent |
| `OvertimeTracker.LookupMissing` | overtime_tracker.py:116-117 | a week with no bucket is looked up as the empty bucket |
| `OvertimeTracker.AddEntry` | overtime_tracker.py:88-101 | the keys gain exactly the week key; that week's total grows by the hours and its entries by exactly the entry, at the end; every other bucket is unchanged |
| `OvertimeTracker.AddToNewWeek` | overtime_tracker.py:88-92 | an absent week starts from `{0.0, []}` |
| `OvertimeTracker.AddToEmpty` | overtime_tracker.py:88-101 | one add to the empty dictionary gives a single bucket holding that entry |
| `OvertimeTracker.NewEntryFiledUnderItsWeek` | overtime_tracker.py:85-97 | the entry is filed under the key of its own date's ISO year and week |
| `OvertimeTracker.AddKeepsTotals` | overtime_tracker.py:88-101 | every add, under whatever key, keeps every bucket non-empty with its total equal to the sum of its entries' hours |
| `OvertimeTracker.AddPreservesValid` | overtime_tracker.py:94-101 | an add whose entry is filed under its key (its date lies in the key's ISO week) keeps every bucket non-empty, its total equal to the sum of its entries' hours, and each entry under its own date's key |
| `OvertimeTracker.CalendarWeekIs` | overtime_tracker.py:58-59 | the week of a date is the one ISO week that holds its day |
| `OvertimeTracker.WeeksAroundJanuary8` | overtime_tracker.py:58-59 | Sunday 2024-01-07 is in week 1 of 2024 and Monday 2024-01-08 in week 2 |
| `OvertimeTracker.FiledUnderIffSameWeek` | overtime_tracker.py:85-97 | an entry dated one day is filed under the key of another exactly when the two days share an ISO week |
| `OvertimeTracker.AddOutsideItsWeek` | overtime_tracker.py:85-101 | an add whose entry is not filed under its key leaves the dictionary outside the bucket invariant |
| `OvertimeTracker.MidnightBetweenClockReads` | overtime_tracker.py:85-97 | a key read on Sunday 2024-01-07 and an entry date read on Monday 2024-01-08 file the entry outside its own week |
| `OvertimeTracker.SortedKeys` | overtime_tracker.py:136 | `sorted(keys)` lists exactly the keys, strictly ascending in Python's string order |
| `OvertimeTracker.SortedKeysLength` | overtime_tracker.py:136 | each key is listed exactly once |
| `OvertimeTracker.OvertimeTracker.constructor` | overtime_tracker.py:36-37 | with no data file the dictionary starts empty, and the bucket invariant holds |
| `OvertimeTracker.OvertimeTracker.AddOvertime` | overtime_tracker.py:75-101 | the dictionary after `add_overtime`: without a target date the key comes from one clock reading and the entry's date from another; every bucket's total stays the sum of its entries' hours on every call; each entry stays under its own date's week when a date is given or both readings fall in one week |
| `OvertimeTracker.OvertimeTracker.AddOvertimeOnOneDate` | overtime_tracker.py:75-101 | `add_overtime` with the date read once: the date's week bucket gains the hours and the entry; the totals and the filing invariant are always kept |
| `OvertimeTracker.OvertimeTracker.FileEntry` | overtime_tracker.py:88-101 | bucket creation, `+=` on the total and the append, step by step, equal the whole add |
| `OvertimeTracker.OvertimeTracker.GetWeekOvertime` | overtime_tracker.py:105-117 | the week's bucket, or the empty default, without inserting anything |
| `OvertimeTracker.OvertimeTracker.GetAllWeeks` | overtime_tracker.py:129-136 | every key exactly once, in ascending order |

## Left out

- Real browser storage and JSON are left out. The store is a `map<string, string>`. `JSON.stringify` and `JSON.parse` are a `Codec` parameter. `Storage.SaveThenLoad` and `App.ReloadGivesWeeks` require that the codec round-trips the list they save (`Storage.RoundTrips`).
- `JSON.parse` can return a value that is not an array, and `loadWeeks` passes it on unchecked (src/utils/storage.js:6). The codec's `decode` returns `Option<seq<WeekEntry>>`, so the model has no such value.
- Floating point is left out. Hours are exact reals, so IEEE-754 rounding is not modelled. NaN and Infinity from `Number(...)` are not modelled either. Because `NaN !== NaN`, an entry holding NaN could never be deleted; that is not modelled.
- React mechanics are left out: rendering, `useState`/`useEffect` scheduling and the JSX markup. After every change the effect's save is folded into the method that changes the list.
- How numbers are shown (`{total}h`, `{overtime}h`) is left out, and so are the React row keys.
- Dates are given as local calendar dates. `getFullYear()`/`getMonth()`/`getDate()` read them before the UTC arithmetic. Time zones are not modelled.
- `date.today()` and `new Date()` become date parameters, one per reading: `add_overtime` without a date reads the clock twice (see Findings), and the form reads it once for the year and once for the week. `get_current_week_overtime` is only `get_week_overtime` at today's week, so it has no member of its own.
- `WeekForm.WeekForm.SetYear`, `WeekForm.WeekForm.SetWeek`: the year and week fields hold integers. The source stores the number input's text and applies `Number(...)` on submit. Both inputs are `required`, so the browser does not submit them empty.
- `WeekForm.WeekForm.SetHoursWorked`: requires the empty text or a valid number, as a number input sanitises its value. `WeekForm.SubmittedEntry` and `WeekForm.WeekForm.Submit` require the same, since hours that are NaN have no `real` value.
- `WeekForm.JsNumber`: covers `Number(...)` only on the grammar of a number input's value: an optional `-`, digits with an optional fraction, and an optional exponent. Whitespace, hex literals, `Infinity`, and texts such as `"5."` and `"+5"` (which `Number` reads as 5) are not covered; a number input never holds them.
- `WeekForm.WeekForm.Submit`: models the submit handler as called, without the browser's constraint validation: `min="1" max="53"` on the week, `step="0.5"` on the hours and the reduction, `min="0"` on the reduction and `required` on the hours (src/components/WeekForm.jsx:39-49). The model emits entries that the browser would block, such as week 60 or a reduction of -3.
- `WeekForm.WeekForm.constructor`: the two `useState` initialisers read the clock separately (src/components/WeekForm.jsx:5-6). Across midnight on December 31 the form can open on week 1 of the old year, as `Overtime.YearAndWeekAcrossNewYear` shows; the user can correct both fields before submitting, so this is recorded rather than corrected.
- The `hoursWorked !== 0` half of the submit guard (src/components/WeekForm.jsx:15) never matters. The field holds `''` at first and text after every edit, never the number 0.
- The Python file I/O is left out: `load_data`, `save_data`, the `display_*` printers and the command-line `main`. So are the save at the end of `add_overtime` and the GUI in `overtime_tracker_gui.py`. The constructor models a missing data file.
- `OvertimeTracker.AddPreservesValid`: the totals half of the bucket invariant holds for every add (`OvertimeTracker.AddKeepsTotals`). Only the filing half (each entry under its own date's week) depends on the date: it holds for adds that pass a date, or whose two clock readings fall in one ISO week, and an add without a date that runs across Sunday midnight breaks it (see Findings). Data loaded from a file on disk is not covered: a hand-edited file need not satisfy it.
- `OvertimeTracker.WeekKeyOrder`: string order of keys is chronological only for 4-digit years and weeks below 100. Python dates have years 1 to 9999, so years before 1000 sort out of chronological order.

## Findings

| source | as written | input that shows it | evidently intended | confidence | as-written member | corrected member |
|---|---|---|---|---|---|---|
| src/utils/overtime.js:16-18 | `Date.UTC(year, …)` reads a year from 0 to 99 as 1900 + year, both for the date itself and for the Thursday's year start | 0100-01-01, a Friday: its Thursday is 0099-12-31, the year start becomes 1999-01-01, and the week number is -99085 | the ISO week number, 53 for that date, and always in [1, 53] | not executed; certain for the arithmetic as modelled, of no practical weight for current dates | `Overtime.GetCurrentWeekNumberAsWritten` (shown by `Overtime.AsWrittenWeekOutOfRange`) | `Overtime.GetCurrentWeekNumber` |
| overtime_tracker.py:85-101 | without a target date, `get_calendar_week` reads `date.today()` for the week key and the entry reads `date.today()` again for its date | the first reading at 23:59:59 on Sunday 2024-01-07 (key `2024-W01`), the second just after midnight (date `2024-01-08`, ISO week 2) | the entry is filed under its own date's week | not executed; needs a call across Sunday midnight | `OvertimeTracker.OvertimeTracker.AddOvertime` (shown by `OvertimeTracker.MidnightBetweenClockReads` and `OvertimeTracker.AddOutsideItsWeek`) | `OvertimeTracker.OvertimeTracker.AddOvertimeOnOneDate` |
