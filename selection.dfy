/** filter_df, latest_quarter and summarize_latest (vahan/data_processing.py). */
module Selection {
  import opened Wrappers
  import opened Calendar
  import opened Sequences
  import opened Tables
  import opened Growth

  /** A list argument takes part only when it is truthy: None and [] switch it off. */
  predicate Active(sel: Option<seq<string>>)
  {
    sel.Some? && sel.value != []
  }

  /** The conjunction of every criterion filter_df applies. */
  predicate Selected(r: Record, start: Option<Date>, end: Option<Date>,
                     categories: Option<seq<string>>, manufacturers: Option<seq<string>>)
  {
    (start.Some? ==> DateLe(start.value, r.date)) &&
    (end.Some? ==> DateLe(r.date, end.value)) &&
    (Active(categories) ==> r.category in categories.value) &&
    (Active(manufacturers) ==> r.manufacturer.Some? && r.manufacturer.value in manufacturers.value)
  }

  function SelectedBy(start: Option<Date>, end: Option<Date>,
                      categories: Option<seq<string>>, manufacturers: Option<seq<string>>): Record -> bool
  {
    (r: Record) => Selected(r, start, end, categories, manufacturers)
  }

  /** One `if arg: dff = dff[mask]` step; the mask is only evaluated when the argument is truthy. */
  function Stage(s: seq<Record>, on: bool, p: Record -> bool): seq<Record>
  {
    if on then Filter(s, p) else s
  }

  lemma StageIsFilter(s: seq<Record>, on: bool, p: Record -> bool, q: Record -> bool)
    requires forall r :: q(r) == (!on || p(r))
    ensures Stage(s, on, p) == Filter(s, q)
  {
    if on {
      FilterFilter(s, q, q, p);
      FilterFilter(s, p, p, p);
      FilterEquivalent(s, p, q);
    } else {
      FilterAll(s, q);
    }
  }

  lemma {:induction false} FilterEquivalent(s: seq<Record>, p: Record -> bool, q: Record -> bool)
    requires forall r :: p(r) == q(r)
    ensures Filter(s, p) == Filter(s, q)
  {
    if s != [] {
      FilterEquivalent(s[1..], p, q);
    }
  }

  function OnOrAfter(start: Option<Date>): Record -> bool
  {
    (r: Record) => start.Some? ==> DateLe(start.value, r.date)
  }

  function OnOrBefore(end: Option<Date>): Record -> bool
  {
    (r: Record) => end.Some? ==> DateLe(r.date, end.value)
  }

  function InCategories(categories: Option<seq<string>>): Record -> bool
  {
    (r: Record) => Active(categories) ==> r.category in categories.value
  }

  /** isin: a missing manufacturer is in no list. */
  function InManufacturers(manufacturers: Option<seq<string>>): Record -> bool
  {
    (r: Record) => Active(manufacturers) ==> r.manufacturer.Some? && r.manufacturer.value in manufacturers.value
  }

  function BetweenDates(start: Option<Date>, end: Option<Date>): Record -> bool
  {
    (r: Record) => OnOrAfter(start)(r) && OnOrBefore(end)(r)
  }

  function InDatesAndCategories(start: Option<Date>, end: Option<Date>, categories: Option<seq<string>>): Record -> bool
  {
    (r: Record) => BetweenDates(start, end)(r) && InCategories(categories)(r)
  }

  /** filter_df: the four guarded selections, applied one after the other. */
  function FilterDf(rs: seq<Record>, start: Option<Date>, end: Option<Date>,
                    categories: Option<seq<string>>, manufacturers: Option<seq<string>>): (r: seq<Record>)
    ensures r == Filter(rs, SelectedBy(start, end, categories, manufacturers))
  {
    var s1 := Stage(rs, start.Some?, OnOrAfter(start));
    var s2 := Stage(s1, end.Some?, OnOrBefore(end));
    var s3 := Stage(s2, Active(categories), InCategories(categories));
    var s4 := Stage(s3, Active(manufacturers), InManufacturers(manufacturers));
    DateStages(rs, start, end);
    CategoryStage(rs, s2, start, end, categories);
    MakerStage(rs, s3, start, end, categories, manufacturers);
    s4
  }

  lemma DateStages(rs: seq<Record>, start: Option<Date>, end: Option<Date>)
    ensures Stage(Stage(rs, start.Some?, OnOrAfter(start)), end.Some?, OnOrBefore(end)) ==
            Filter(rs, BetweenDates(start, end))
  {
    var s1 := Stage(rs, start.Some?, OnOrAfter(start));
    StageIsFilter(rs, start.Some?, OnOrAfter(start), OnOrAfter(start));
    StageIsFilter(s1, end.Some?, OnOrBefore(end), OnOrBefore(end));
    FilterFilter(rs, OnOrAfter(start), OnOrBefore(end), BetweenDates(start, end));
  }

  lemma CategoryStage(rs: seq<Record>, s2: seq<Record>, start: Option<Date>, end: Option<Date>,
                      categories: Option<seq<string>>)
    requires s2 == Filter(rs, BetweenDates(start, end))
    ensures Stage(s2, Active(categories), InCategories(categories)) ==
            Filter(rs, InDatesAndCategories(start, end, categories))
  {
    StageIsFilter(s2, Active(categories), InCategories(categories), InCategories(categories));
    FilterFilter(rs, BetweenDates(start, end), InCategories(categories), InDatesAndCategories(start, end, categories));
  }

  lemma MakerStage(rs: seq<Record>, s3: seq<Record>, start: Option<Date>, end: Option<Date>,
                   categories: Option<seq<string>>, manufacturers: Option<seq<string>>)
    requires s3 == Filter(rs, InDatesAndCategories(start, end, categories))
    ensures Stage(s3, Active(manufacturers), InManufacturers(manufacturers)) ==
            Filter(rs, SelectedBy(start, end, categories, manufacturers))
  {
    StageIsFilter(s3, Active(manufacturers), InManufacturers(manufacturers), InManufacturers(manufacturers));
    forall x ensures SelectedBy(start, end, categories, manufacturers)(x) ==
      (InDatesAndCategories(start, end, categories)(x) && InManufacturers(manufacturers)(x))
    {
      assert BetweenDates(start, end)(x) == (OnOrAfter(start)(x) && OnOrBefore(end)(x));
    }
    FilterFilter(rs, InDatesAndCategories(start, end, categories), InManufacturers(manufacturers),
                 SelectedBy(start, end, categories, manufacturers));
  }

  /** filter_df keeps a row exactly when it meets every active criterion, in the input order. */
  lemma FilterDfMembership(rs: seq<Record>, start: Option<Date>, end: Option<Date>,
                           categories: Option<seq<string>>, manufacturers: Option<seq<string>>)
    ensures forall i :: 0 <= i < |FilterDf(rs, start, end, categories, manufacturers)| ==>
      var r := FilterDf(rs, start, end, categories, manufacturers)[i];
      r in rs && Selected(r, start, end, categories, manufacturers)
    ensures forall i :: 0 <= i < |rs| && Selected(rs[i], start, end, categories, manufacturers) ==>
      rs[i] in FilterDf(rs, start, end, categories, manufacturers)
  {
    var r := FilterDf(rs, start, end, categories, manufacturers);
    forall i | 0 <= i < |r| ensures r[i] in rs {
      assert r[i] in r;
    }
    forall i | 0 <= i < |rs| && Selected(rs[i], start, end, categories, manufacturers) ensures rs[i] in r {
      assert rs[i] in rs;
    }
  }

  /** With every argument falsy nothing is filtered out. */
  lemma FilterDfNoCriteria(rs: seq<Record>, categories: Option<seq<string>>, manufacturers: Option<seq<string>>)
    requires !Active(categories) && !Active(manufacturers)
    ensures FilterDf(rs, None, None, categories, manufacturers) == rs
  {
    FilterAll(rs, SelectedBy(None, None, categories, manufacturers));
  }

  /** An empty list selects everything, not nothing. */
  lemma FilterDfEmptyList(rs: seq<Record>, start: Option<Date>, end: Option<Date>, manufacturers: Option<seq<string>>)
    ensures FilterDf(rs, start, end, Some([]), manufacturers) == FilterDf(rs, start, end, None, manufacturers)
  {
    FilterEquivalent(rs, SelectedBy(start, end, Some([]), manufacturers), SelectedBy(start, end, None, manufacturers));
  }

  /** The latest date of the rows, None (NaT) for no rows. */
  function MaxDate(rs: seq<Record>): (d: Option<Date>)
    ensures d.None? <==> rs == []
    ensures d.Some? ==> exists i :: 0 <= i < |rs| && rs[i].date == d.value
    ensures d.Some? ==> forall i :: 0 <= i < |rs| ==> DateLe(rs[i].date, d.value)
  {
    if rs == [] then None
    else
      assert forall i :: 0 < i < |rs| ==> rs[i] == rs[1..][i - 1];
      match MaxDate(rs[1..])
      case None => Some(rs[0].date)
      case Some(m) =>
        assert exists i :: 0 < i < |rs| && rs[i].date == m by {
          var i :| 0 <= i < |rs[1..]| && rs[1..][i].date == m;
          assert rs[i + 1].date == m;
        }
        if DateLe(m, rs[0].date) then Some(rs[0].date) else Some(m)
  }

  /** latest_quarter: the largest calendar quarter of the dates, None (NaT) for no rows. */
  function LatestQuarter(rs: seq<Record>): (q: Option<Quarter>)
    ensures q.None? <==> rs == []
    ensures q.Some? ==> exists i :: 0 <= i < |rs| && QuarterOf(rs[i].date) == q.value
    ensures q.Some? ==> forall i :: 0 <= i < |rs| ==> QuarterIndex(QuarterOf(rs[i].date)) <= QuarterIndex(q.value)
  {
    if rs == [] then None
    else
      assert forall i :: 0 < i < |rs| ==> rs[i] == rs[1..][i - 1];
      var here := QuarterOf(rs[0].date);
      match LatestQuarter(rs[1..])
      case None => Some(here)
      case Some(m) =>
        assert exists i :: 0 < i < |rs| && QuarterOf(rs[i].date) == m by {
          var i :| 0 <= i < |rs[1..]| && QuarterOf(rs[1..][i].date) == m;
          assert rs[i + 1] == rs[1..][i];
        }
        if QuarterIndex(m) <= QuarterIndex(here) then Some(here) else Some(m)
  }

  /** The latest quarter is the quarter of the latest date. */
  lemma LatestQuarterOfMaxDate(rs: seq<Record>)
    requires rs != []
    ensures LatestQuarter(rs) == Some(QuarterOf(MaxDate(rs).value))
  {
    var d := MaxDate(rs).value;
    var q := LatestQuarter(rs).value;
    var i :| 0 <= i < |rs| && rs[i].date == d;
    var j :| 0 <= j < |rs| && QuarterOf(rs[j].date) == q;
    assert DateLe(rs[j].date, d);
    QuarterMonotone(rs[j].date, d);
    QuarterIndexInjective(q, QuarterOf(d));
  }

  lemma QuarterMonotone(a: Date, b: Date)
    requires DateLe(a, b)
    ensures QuarterIndex(QuarterOf(a)) <= QuarterIndex(QuarterOf(b))
  {
    DateOrdIsChronological(a, b);
    if a.year == b.year && a.month != b.month {
      assert a.month < b.month;
    }
  }

  function AtDate(d: Date): Annotated -> bool
  {
    (a: Annotated) => a.rec.date == d
  }

  /** The key of sort_values("registrations", ascending=False). */
  function NegRegistrations(a: Annotated): int
  {
    -(a.rec.registrations as int)
  }

  /** summarize_latest: the latest date of the category table and its rows
      at that date, largest registrations first; the manufacturer table is
      not used. */
  function SummarizeLatest(dfCat: seq<Annotated>, dfMaker: seq<Annotated>): (r: (Option<Date>, seq<Annotated>))
    ensures r.0.None? <==> dfCat == []
    ensures r.0.None? ==> r.1 == []
    ensures r.0.Some? ==>
      (exists i :: 0 <= i < |dfCat| && dfCat[i].rec.date == r.0.value) &&
      (forall i :: 0 <= i < |dfCat| ==> DateLe(dfCat[i].rec.date, r.0.value))
    ensures r.0.Some? ==> multiset(r.1) == multiset(Filter(dfCat, AtDate(r.0.value)))
    ensures r.0.Some? ==> forall a :: a in r.1 <==> a in dfCat && a.rec.date == r.0.value
    ensures forall i, j :: 0 <= i < j < |r.1| ==> r.1[i].rec.registrations >= r.1[j].rec.registrations
  {
    var recs := Recs(dfCat);
    match MaxDate(recs)
    case None => (None, [])
    case Some(d) =>
      assert exists i :: 0 <= i < |dfCat| && dfCat[i].rec.date == d by {
        var i :| 0 <= i < |recs| && recs[i].date == d;
      }
      var rows := SortBy(Filter(dfCat, AtDate(d)), NegRegistrations);
      LatestRowsFacts(dfCat, d, rows);
      (Some(d), rows)
  }

  /** The rows of one date, sorted by decreasing registrations, are exactly
      that date's rows. */
  lemma LatestRowsFacts(dfCat: seq<Annotated>, d: Date, rows: seq<Annotated>)
    requires rows == SortBy(Filter(dfCat, AtDate(d)), NegRegistrations)
    ensures forall a :: a in rows <==> a in dfCat && a.rec.date == d
    ensures forall i, j :: 0 <= i < j < |rows| ==> rows[i].rec.registrations >= rows[j].rec.registrations
  {
    var f := Filter(dfCat, AtDate(d));
    forall a ensures a in rows <==> a in dfCat && a.rec.date == d {
      assert a in rows <==> a in multiset(rows);
      assert a in f <==> a in multiset(f);
      InFilter(dfCat, AtDate(d), a);
    }
    forall i, j | 0 <= i < j < |rows| ensures rows[i].rec.registrations >= rows[j].rec.registrations {
      assert NegRegistrations(rows[i]) <= NegRegistrations(rows[j]);
    }
  }
}
