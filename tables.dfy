/** The registrations table (vahan/data_processing.py works on DataFrames with
    columns date, category, manufacturer, registrations) and the month
    normaliser ensure_month_start. */
module Tables {
  import opened Wrappers
  import opened Calendar

  /** One row: a registration count for a date, a vehicle category and a
      manufacturer that may be missing (NaN). */
  datatype Record = Record(date: Date, category: string, manufacturer: Option<string>, registrations: nat)

  datatype Column = DateCol | CategoryCol | ManufacturerCol | RegistrationsCol | QuarterCol | YoyCol | QoqCol

  /** A DataFrame: its column names and its rows. */
  datatype Table = Table(columns: seq<Column>, rows: seq<Record>)

  /** The exceptions the core raises. */
  datatype Error = ValueError(message: string) | RuntimeError(message: string) | BrowserError

  /** The sum of the registrations column. */
  function Total(rs: seq<Record>): nat
  {
    if rs == [] then 0 else rs[0].registrations + Total(rs[1..])
  }

  lemma TotalCons(x: Record, s: seq<Record>)
    ensures Total([x] + s) == x.registrations + Total(s)
  {
    assert ([x] + s)[1..] == s;
  }

  /** ensure_month_start: every date becomes the first day of its month; the
      row count, the row order and every other column are kept. */
  function EnsureMonthStart(rs: seq<Record>): (r: seq<Record>)
    ensures |r| == |rs|
    ensures forall i :: 0 <= i < |r| ==>
      r[i].date.day == 1 && r[i].date.year == rs[i].date.year && r[i].date.month == rs[i].date.month
    ensures forall i :: 0 <= i < |r| ==>
      r[i].category == rs[i].category && r[i].manufacturer == rs[i].manufacturer &&
      r[i].registrations == rs[i].registrations
    ensures Total(r) == Total(rs)
  {
    if rs == [] then []
    else [rs[0].(date := MonthStart(rs[0].date))] + EnsureMonthStart(rs[1..])
  }

  /** Normalising dates that are already month starts changes nothing. */
  lemma {:induction false} EnsureMonthStartIdempotent(rs: seq<Record>)
    ensures EnsureMonthStart(EnsureMonthStart(rs)) == EnsureMonthStart(rs)
  {
    if rs != [] {
      EnsureMonthStartIdempotent(rs[1..]);
    }
  }

  lemma EnsureMonthStartOfMonthStarts(rs: seq<Record>)
    requires forall i :: 0 <= i < |rs| ==> rs[i].date.day == 1
    ensures EnsureMonthStart(rs) == rs
  {
  }
}
