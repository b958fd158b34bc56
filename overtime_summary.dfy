/**
 * The balance card: the total overtime with a colour class and a sign prefix
 * that depend on whether the balance is negative.  The same sign rule
 * colours each row of the week list.
 */
module OvertimeSummary {
  import opened Overtime

  datatype SignClass = Positive | Negative

  /** `value >= 0 ? 'positive' : 'negative'`. */
  function ClassOf(value: real): (c: SignClass)
    ensures c == Positive <==> value >= 0.0
  {
    if value >= 0.0 then Positive else Negative
  }

  /** `value >= 0 ? '+' : ''`: negative numbers bring their own minus sign. */
  function PrefixOf(value: real): (p: string)
    ensures p == "+" <==> value >= 0.0
    ensures p == "" <==> value < 0.0
  {
    if value >= 0.0 then "+" else ""
  }

  /** What the card shows: the number, its class and its prefix (the number's formatting is not modelled). */
  datatype Summary = Summary(total: real, colorClass: SignClass, prefix: string)

  function SummaryView(weeks: seq<WeekEntry>): (s: Summary)
    ensures s.total == TotalOvertime(weeks)
    ensures s.colorClass == Positive <==> TotalOvertime(weeks) >= 0.0
    ensures s.prefix == "+" <==> TotalOvertime(weeks) >= 0.0
  {
    var total := TotalOvertime(weeks);
    Summary(total, ClassOf(total), PrefixOf(total))
  }

  /** No weeks: a zero balance, shown as `+0h` in the positive colour. */
  lemma EmptySummary()
    ensures SummaryView([]) == Summary(0.0, Positive, "+")
  {
  }

  /** The balance shown does not depend on the order in which the weeks are stored. */
  lemma SummaryIgnoresOrder(a: seq<WeekEntry>, b: seq<WeekEntry>)
    requires multiset(a) == multiset(b)
    ensures SummaryView(a) == SummaryView(b)
  {
    TotalOvertimePermutation(a, b);
  }
}
