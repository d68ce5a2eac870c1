/** Calendar dates, months and quarters as pandas' Timestamp and Period("Q")
    values are used by the dashboard: a date is a (year, month, day) triple
    whose chronological order is the order of the integer DateOrd. */
module Calendar {

  type Month = m: int | 1 <= m <= 12 witness 1
  type Day = d: int | 1 <= d <= 31 witness 1
  type QuarterNumber = q: int | 1 <= q <= 4 witness 1

  datatype Date = Date(year: int, month: Month, day: Day)

  /** A calendar quarter, pandas' Period with frequency "Q". */
  datatype Quarter = Quarter(year: int, number: QuarterNumber)

  /** A day count that orders dates chronologically (31 slots per month). */
  function DateOrd(d: Date): int
  {
    (d.year * 12 + (d.month - 1)) * 31 + (d.day - 1)
  }

  predicate DateLe(a: Date, b: Date)
  {
    DateOrd(a) <= DateOrd(b)
  }

  /** Months counted from year 0, so that "12 months earlier" is "minus 12". */
  function MonthIndex(d: Date): int
  {
    d.year * 12 + (d.month - 1)
  }

  /** The first day of the month that contains `d` (to_period("M").to_timestamp()). */
  function MonthStart(d: Date): (r: Date)
    ensures r.day == 1 && MonthIndex(r) == MonthIndex(d)
    ensures DateLe(r, d)
  {
    Date(d.year, d.month, 1)
  }

  /** The calendar quarter that contains `d` (to_period("Q")). */
  function QuarterOf(d: Date): (q: Quarter)
    ensures q.year == d.year
    ensures 3 * (q.number - 1) < d.month <= 3 * q.number
  {
    Quarter(d.year, (d.month - 1) / 3 + 1)
  }

  /** Quarters counted from year 0; consecutive quarters differ by one. */
  function QuarterIndex(q: Quarter): int
  {
    q.year * 4 + (q.number - 1)
  }

  /** DateOrd tells dates apart, so equal ordinals mean equal dates. */
  lemma DateOrdInjective(a: Date, b: Date)
    requires DateOrd(a) == DateOrd(b)
    ensures a == b
  {
    assert MonthIndex(a) == MonthIndex(b);
  }

  /** DateOrd is the lexicographic (year, month, day) order, i.e. chronological order. */
  lemma DateOrdIsChronological(a: Date, b: Date)
    ensures DateOrd(a) < DateOrd(b) <==>
      a.year < b.year || (a.year == b.year && (a.month < b.month || (a.month == b.month && a.day < b.day)))
  {
    if a.year < b.year {
      assert MonthIndex(a) < MonthIndex(b);
    } else if b.year < a.year {
      assert MonthIndex(b) < MonthIndex(a);
    }
  }

  lemma QuarterIndexInjective(a: Quarter, b: Quarter)
    requires QuarterIndex(a) == QuarterIndex(b)
    ensures a == b
  {
  }
}
