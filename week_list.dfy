/**
 * The table of recorded weeks: a copy of the list sorted newest first by
 * year and week, stably, and one row per entry with its target, overtime,
 * sign and reduction.
 */
module WeekList {
  import opened Wrappers
  import opened Overtime
  import opened OvertimeSummary
  import opened Seqs

  /** The comparator `b.year - a.year || b.week - a.week`: negative when a goes first. */
  function Compare(a: WeekEntry, b: WeekEntry): (c: int)
    ensures c < 0 <==> a.year > b.year || (a.year == b.year && a.week > b.week)
    ensures c == 0 <==> a.year == b.year && a.week == b.week
  {
    if b.year - a.year != 0 then b.year - a.year else b.week - a.week
  }

  /** a's (year, week) is not before b's: a may come first in the table. */
  predicate NotOlder(a: WeekEntry, b: WeekEntry) {
    a.year > b.year || (a.year == b.year && a.week >= b.week)
  }

  /** Newest first: non-increasing by year and, within a year, by week. */
  predicate SortedNewestFirst(s: seq<WeekEntry>) {
    forall i, j :: 0 <= i < j < |s| ==> NotOlder(s[i], s[j])
  }

  /**
   * Inserts x into a sorted list after every entry it does not strictly
   * precede, so it follows the entries of its own week that were there before.
   */
  function Insert(sorted: seq<WeekEntry>, x: WeekEntry): (r: seq<WeekEntry>)
    ensures multiset(r) == multiset(sorted) + multiset{x}
    decreases |sorted|
  {
    if sorted == [] then [x]
    else if Compare(x, sorted[0]) < 0 then [x] + sorted
    else
      assert sorted == [sorted[0]] + sorted[1..];
      [sorted[0]] + Insert(sorted[1..], x)
  }

  /**
   * `[...weeks].sort(Compare)`: `Array.prototype.sort` is stable, so the
   * result is the stable sort, built here by inserting the entries in order.
   */
  function Sort(weeks: seq<WeekEntry>): (r: seq<WeekEntry>)
    ensures multiset(r) == multiset(weeks)
  {
    if weeks == [] then []
    else
      assert weeks == weeks[..|weeks| - 1] + [weeks[|weeks| - 1]];
      Insert(Sort(weeks[..|weeks| - 1]), weeks[|weeks| - 1])
  }

  lemma {:induction false} InsertSorted(sorted: seq<WeekEntry>, x: WeekEntry)
    requires SortedNewestFirst(sorted)
    ensures SortedNewestFirst(Insert(sorted, x))
    decreases |sorted|
  {
    if sorted != [] && Compare(x, sorted[0]) >= 0 {
      var tail := Insert(sorted[1..], x);
      InsertSorted(sorted[1..], x);
      forall w | w in tail
        ensures NotOlder(sorted[0], w)
      {
        assert w in multiset(tail);
        if w != x {
          assert w in multiset(sorted[1..]);
          var k :| 0 <= k < |sorted[1..]| && sorted[1..][k] == w;
          assert sorted[k + 1] == w;
        }
      }
      var r := [sorted[0]] + tail;
      forall i, j | 0 <= i < j < |r|
        ensures NotOlder(r[i], r[j])
      {
        if i == 0 {
          assert r[j] == tail[j - 1];
          assert r[j] in tail;
        } else {
          assert r[i] == tail[i - 1] && r[j] == tail[j - 1];
        }
      }
    }
  }

  /** The table is newest first. */
  lemma {:induction false} SortIsSorted(weeks: seq<WeekEntry>)
    ensures SortedNewestFirst(Sort(weeks))
    decreases |weeks|
  {
    if weeks != [] {
      SortIsSorted(weeks[..|weeks| - 1]);
      InsertSorted(Sort(weeks[..|weeks| - 1]), weeks[|weeks| - 1]);
    }
  }

  /** The entries of one week, in list order. */
  function OfWeek(s: seq<WeekEntry>, year: int, week: int): seq<WeekEntry>
    decreases |s|
  {
    if s == [] then []
    else (if s[0].year == year && s[0].week == week then [s[0]] else []) + OfWeek(s[1..], year, week)
  }

  lemma {:induction false} OfWeekAppend(a: seq<WeekEntry>, b: seq<WeekEntry>, year: int, week: int)
    ensures OfWeek(a + b, year, week) == OfWeek(a, year, week) + OfWeek(b, year, week)
    decreases |a|
  {
    if a == [] {
      assert a + b == b;
    } else {
      assert (a + b)[0] == a[0] && (a + b)[1..] == a[1..] + b;
      OfWeekAppend(a[1..], b, year, week);
    }
  }

  lemma SortedTail(s: seq<WeekEntry>)
    requires SortedNewestFirst(s) && s != []
    ensures SortedNewestFirst(s[1..])
  {
    forall i, j | 0 <= i < j < |s[1..]| ensures NotOlder(s[1..][i], s[1..][j]) {
      assert s[1..][i] == s[i + 1] && s[1..][j] == s[j + 1];
    }
  }

  /** A sorted list whose head is strictly older than x holds nothing of x's week. */
  lemma {:induction false} NoneOfNewerWeek(s: seq<WeekEntry>, x: WeekEntry)
    requires SortedNewestFirst(s) && s != [] && Compare(x, s[0]) < 0
    ensures OfWeek(s, x.year, x.week) == []
    decreases |s|
  {
    if |s| > 1 {
      assert NotOlder(s[0], s[1]);
      SortedTail(s);
      NoneOfNewerWeek(s[1..], x);
    } else {
      assert s[1..] == [];
    }
  }

  lemma OfWeekSingleton(x: WeekEntry, year: int, week: int)
    ensures OfWeek([x], year, week) == if x.year == year && x.week == week then [x] else []
  {
    assert [x][1..] == [];
  }

  /** Inserting x puts it after the entries of its week in the sorted list. */
  lemma {:induction false} InsertOfWeek(sorted: seq<WeekEntry>, x: WeekEntry, year: int, week: int)
    requires SortedNewestFirst(sorted)
    ensures OfWeek(Insert(sorted, x), year, week) == OfWeek(sorted, year, week) + OfWeek([x], year, week)
    decreases |sorted|
  {
    if sorted == [] {
      assert Insert(sorted, x) == [x];
      assert OfWeek(sorted, year, week) == [];
    } else if Compare(x, sorted[0]) < 0 {
      InsertAtFront(sorted, x, year, week);
    } else {
      SortedTail(sorted);
      InsertOfWeek(sorted[1..], x, year, week);
      InsertPastHead(sorted, x, year, week);
    }
  }

  /** x goes first: the sorted list holds nothing of its week, if x is of the week. */
  lemma InsertAtFront(sorted: seq<WeekEntry>, x: WeekEntry, year: int, week: int)
    requires SortedNewestFirst(sorted) && sorted != [] && Compare(x, sorted[0]) < 0
    ensures OfWeek(Insert(sorted, x), year, week) == OfWeek(sorted, year, week) + OfWeek([x], year, week)
  {
    OfWeekSingleton(x, year, week);
    assert Insert(sorted, x) == [x] + sorted;
    OfWeekAppend([x], sorted, year, week);
    if x.year == year && x.week == week {
      NoneOfNewerWeek(sorted, x);
    }
  }

  /** x goes past the head: the head's contribution comes first on both sides. */
  lemma InsertPastHead(sorted: seq<WeekEntry>, x: WeekEntry, year: int, week: int)
    requires sorted != [] && Compare(x, sorted[0]) >= 0
    requires OfWeek(Insert(sorted[1..], x), year, week) == OfWeek(sorted[1..], year, week) + OfWeek([x], year, week)
    ensures OfWeek(Insert(sorted, x), year, week) == OfWeek(sorted, year, week) + OfWeek([x], year, week)
  {
    var head, tail := [sorted[0]], sorted[1..];
    assert Insert(sorted, x) == head + Insert(tail, x);
    SplitFirst(sorted);
    OfWeekAppend(head, Insert(tail, x), year, week);
    OfWeekAppend(head, tail, year, week);
    ConcatAssoc(OfWeek(head, year, week), OfWeek(tail, year, week), OfWeek([x], year, week));
  }

  /** Stability: the entries of each week keep their relative order. */
  lemma {:induction false} SortIsStable(weeks: seq<WeekEntry>, year: int, week: int)
    ensures OfWeek(Sort(weeks), year, week) == OfWeek(weeks, year, week)
    decreases |weeks|
  {
    if weeks != [] {
      var init, last := weeks[..|weeks| - 1], weeks[|weeks| - 1];
      SortIsStable(init, year, week);
      SortIsSorted(init);
      InsertOfWeek(Sort(init), last, year, week);
      SplitLast(weeks);
      OfWeekAppend(init, [last], year, week);
    }
  }

  /** One table row. The delete button hands back the row's entry itself. */
  datatype Row = Row(entry: WeekEntry, target: real, reduction: real, overtime: real, overtimeClass: SignClass, prefix: string)

  datatype ListView = EmptyState | Table(rows: seq<Row>)

  function RowOf(entry: WeekEntry): (row: Row)
    ensures row.entry == entry
    ensures row.target == TargetHours(entry.isHoliday)
    ensures row.reduction == ReductionOrZero(entry.reduction)
    ensures entry.hoursWorked == row.target + row.reduction + row.overtime
    ensures row.overtimeClass == Positive <==> row.overtime >= 0.0
    ensures row.prefix == "+" <==> row.overtime >= 0.0
  {
    var overtime := WeekOvertime(entry);
    Row(entry, TargetHours(entry.isHoliday), ReductionOrZero(entry.reduction), overtime, ClassOf(overtime), PrefixOf(overtime))
  }

  function Rows(sorted: seq<WeekEntry>): (rows: seq<Row>)
    ensures |rows| == |sorted|
    ensures forall i :: 0 <= i < |sorted| ==> rows[i] == RowOf(sorted[i])
  {
    if sorted == [] then [] else [RowOf(sorted[0])] + Rows(sorted[1..])
  }

  /** The table: the empty state for no weeks, else one row per entry of the sorted copy. */
  function View(weeks: seq<WeekEntry>): (v: ListView)
    ensures v.EmptyState? <==> weeks == []
    ensures v.Table? ==> v.rows == Rows(Sort(weeks))
    ensures v.Table? ==> |v.rows| == |weeks| && multiset(Entries(v.rows)) == multiset(weeks)
  {
    var sorted := Sort(weeks);
    if sorted == [] then EmptyState
    else
      RowsEntries(sorted);
      Table(Rows(sorted))
  }

  function Entries(rows: seq<Row>): (s: seq<WeekEntry>)
    ensures |s| == |rows| && forall i :: 0 <= i < |rows| ==> s[i] == rows[i].entry
  {
    if rows == [] then [] else [rows[0].entry] + Entries(rows[1..])
  }

  lemma RowsEntries(sorted: seq<WeekEntry>)
    ensures Entries(Rows(sorted)) == sorted
  {
  }

  /** The table's rows list the entries newest first. */
  lemma ViewIsNewestFirst(weeks: seq<WeekEntry>)
    requires weeks != []
    ensures SortedNewestFirst(Entries(View(weeks).rows))
  {
    RowsEntries(Sort(weeks));
    SortIsSorted(weeks);
  }

  function RowsOvertime(rows: seq<Row>): real {
    if rows == [] then 0.0 else rows[0].overtime + RowsOvertime(rows[1..])
  }

  /** The rows' overtimes add up to the balance of the summary card. */
  lemma {:induction false} RowsAddUpToTotal(weeks: seq<WeekEntry>)
    requires weeks != []
    ensures RowsOvertime(View(weeks).rows) == TotalOvertime(weeks)
  {
    var sorted := Sort(weeks);
    TotalOvertimePermutation(sorted, weeks);
    RowsOvertimeIsTotal(sorted);
  }

  lemma {:induction false} RowsOvertimeIsTotal(s: seq<WeekEntry>)
    ensures RowsOvertime(Rows(s)) == TotalOvertime(s)
    decreases |s|
  {
    if s != [] {
      RowsOvertimeIsTotal(s[1..]);
      RowsOvertimeFront(s);
      TotalOvertimeFront(s);
    }
  }

  lemma RowsOvertimeFront(s: seq<WeekEntry>)
    requires s != []
    ensures RowsOvertime(Rows(s)) == WeekOvertime(s[0]) + RowsOvertime(Rows(s[1..]))
  {
    var rows := Rows(s);
    assert rows[0] == RowOf(s[0]) && rows[1..] == Rows(s[1..]);
  }
}
