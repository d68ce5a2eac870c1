/** The selection logic of the dashboard page (app.py): the processing
    pipeline, the per-category headline row, the last-12-months window of
    each category tab and the per-manufacturer latest snapshot. */
module Dashboard {
  import opened Wrappers
  import opened Calendar
  import opened Sequences
  import opened Tables
  import opened Aggregation
  import opened Growth
  import opened Selection

  /** The categories the page lays out, in column and tab order. */
  const Categories: seq<string> := ["2W", "3W", "4W"]

  /** `selection or None`: an empty multiselect becomes None. */
  function OrNone(s: seq<string>): (r: Option<seq<string>>)
    ensures r.None? <==> s == []
    ensures r.Some? ==> r.value == s
  {
    if s == [] then None else Some(s)
  }

  /** df_f: the month-normalised rows inside the sidebar selection. */
  function Filtered(loaded: seq<Record>, start: Date, end: Date, cats: seq<string>, makers: seq<string>): seq<Record>
  {
    FilterDf(EnsureMonthStart(loaded), Some(start), Some(end), OrNone(cats), OrNone(makers))
  }

  /** cat_ts and maker_ts after add_growth_rates. */
  datatype Series = Series(categoryTs: seq<Annotated>, makerTs: seq<Annotated>)

  lemma CategoryGrowthSucceeds(rs: seq<Record>)
    ensures AddGrowthRates(TotalByCategory(rs)).Success?
  {
    assert CategoryCol in TotalByCategory(rs).columns;
  }

  lemma MakerGrowthSucceeds(rs: seq<Record>)
    ensures AddGrowthRates(TotalByManufacturer(rs)).Success?
  {
    assert CategoryCol in TotalByManufacturer(rs).columns;
  }

  /** A row of a category total comes from an existing (date, category) pair. */
  lemma CategoryRowOrigin(dff: seq<Record>, j: int)
    requires 0 <= j < |TotalByCategory(dff).rows|
    ensures exists m :: (0 <= m < |dff| && dff[m].date == TotalByCategory(dff).rows[j].date &&
                         dff[m].category == TotalByCategory(dff).rows[j].category)
  {
    var t := TotalByCategory(dff);
    InKeySet(t.rows, j);
    var m :| 0 <= m < |dff| && AggKey(dff[m].date, None, dff[m].category) == KeyOf(t.rows[j]);
  }

  /** The pipeline of the page: normalise the months, filter, then total and
      annotate per category and per manufacturer. */
  function Pipeline(loaded: seq<Record>, start: Date, end: Date, cats: seq<string>, makers: seq<string>): (r: Series)
    ensures var dff := Filtered(loaded, start, end, cats, makers);
      multiset(Recs(r.categoryTs)) == multiset(TotalByCategory(dff).rows) &&
      multiset(Recs(r.makerTs)) == multiset(TotalByManufacturer(dff).rows)
    ensures forall i :: 0 <= i < |r.categoryTs| ==>
      var row := r.categoryTs[i].rec;
      row.registrations == CategorySum(Filtered(loaded, start, end, cats, makers), row.date, row.category) &&
      DateLe(start, row.date) && DateLe(row.date, end) && (cats != [] ==> row.category in cats)
    ensures forall i :: 0 <= i < |r.makerTs| ==>
      var row := r.makerTs[i].rec;
      row.manufacturer.Some? &&
      row.registrations == MakerSum(Filtered(loaded, start, end, cats, makers), row.date, row.manufacturer.value, row.category) &&
      DateLe(start, row.date) && DateLe(row.date, end) && (cats != [] ==> row.category in cats) &&
      (makers != [] ==> row.manufacturer.value in makers)
    ensures var dff := Filtered(loaded, start, end, cats, makers);
      AddGrowthRates(TotalByCategory(dff)).Success? && AddGrowthRates(TotalByManufacturer(dff)).Success? &&
      r.categoryTs == AddGrowthRates(TotalByCategory(dff)).value.rows &&
      r.makerTs == AddGrowthRates(TotalByManufacturer(dff)).value.rows
  {
    var dff := Filtered(loaded, start, end, cats, makers);
    CategoryGrowthSucceeds(dff);
    MakerGrowthSucceeds(dff);
    var r := Series(AddGrowthRates(TotalByCategory(dff)).value.rows, AddGrowthRates(TotalByManufacturer(dff)).value.rows);
    PipelineCategoryRows(loaded, start, end, cats, makers, r.categoryTs);
    PipelineMakerRows(loaded, start, end, cats, makers, r.makerTs);
    r
  }

  /** Every row of df_f lies inside the sidebar selection. */
  lemma FilteredSelected(loaded: seq<Record>, start: Date, end: Date, cats: seq<string>, makers: seq<string>, m: int)
    requires 0 <= m < |Filtered(loaded, start, end, cats, makers)|
    ensures Selected(Filtered(loaded, start, end, cats, makers)[m], Some(start), Some(end), OrNone(cats), OrNone(makers))
  {
  }

  lemma PipelineCategoryRow(loaded: seq<Record>, start: Date, end: Date, cats: seq<string>, makers: seq<string>,
                            row: Record)
    requires row in multiset(TotalByCategory(Filtered(loaded, start, end, cats, makers)).rows)
    ensures row.registrations == CategorySum(Filtered(loaded, start, end, cats, makers), row.date, row.category)
    ensures DateLe(start, row.date) && DateLe(row.date, end) && (cats != [] ==> row.category in cats)
  {
    var dff := Filtered(loaded, start, end, cats, makers);
    var t := TotalByCategory(dff);
    var j :| 0 <= j < |t.rows| && t.rows[j] == row;
    CategoryRowOrigin(dff, j);
    var m :| 0 <= m < |dff| && dff[m].date == row.date && dff[m].category == row.category;
    FilteredSelected(loaded, start, end, cats, makers, m);
  }

  lemma PipelineCategoryRows(loaded: seq<Record>, start: Date, end: Date, cats: seq<string>, makers: seq<string>,
                             ts: seq<Annotated>)
    requires multiset(Recs(ts)) == multiset(TotalByCategory(Filtered(loaded, start, end, cats, makers)).rows)
    ensures forall i :: 0 <= i < |ts| ==>
      var row := ts[i].rec;
      row.registrations == CategorySum(Filtered(loaded, start, end, cats, makers), row.date, row.category) &&
      DateLe(start, row.date) && DateLe(row.date, end) && (cats != [] ==> row.category in cats)
  {
    forall i | 0 <= i < |ts|
      ensures var row := ts[i].rec;
        row.registrations == CategorySum(Filtered(loaded, start, end, cats, makers), row.date, row.category) &&
        DateLe(start, row.date) && DateLe(row.date, end) && (cats != [] ==> row.category in cats)
    {
      assert ts[i].rec == Recs(ts)[i];
      assert ts[i].rec in multiset(Recs(ts));
      PipelineCategoryRow(loaded, start, end, cats, makers, ts[i].rec);
    }
  }

  /** A row of a manufacturer total comes from an input row with its key. */
  lemma MakerRowOrigin(dff: seq<Record>, j: int)
    requires 0 <= j < |TotalByManufacturer(dff).rows|
    ensures exists m :: 0 <= m < |dff| && KeyOf(dff[m]) == KeyOf(TotalByManufacturer(dff).rows[j])
  {
    var t := TotalByManufacturer(dff);
    InKeySet(t.rows, j);
    var m :| 0 <= m < |dff| && dff[m].manufacturer.Some? && KeyOf(dff[m]) == KeyOf(t.rows[j]);
  }

  lemma PipelineMakerRow(loaded: seq<Record>, start: Date, end: Date, cats: seq<string>, makers: seq<string>,
                         row: Record)
    requires row in multiset(TotalByManufacturer(Filtered(loaded, start, end, cats, makers)).rows)
    ensures row.manufacturer.Some?
    ensures row.registrations == MakerSum(Filtered(loaded, start, end, cats, makers), row.date, row.manufacturer.value, row.category)
    ensures DateLe(start, row.date) && DateLe(row.date, end) && (cats != [] ==> row.category in cats)
    ensures makers != [] ==> row.manufacturer.value in makers
  {
    var dff := Filtered(loaded, start, end, cats, makers);
    var t := TotalByManufacturer(dff);
    var j :| 0 <= j < |t.rows| && t.rows[j] == row;
    MakerRowOrigin(dff, j);
    var m :| 0 <= m < |dff| && KeyOf(dff[m]) == KeyOf(row);
    FilteredSelected(loaded, start, end, cats, makers, m);
  }

  lemma PipelineMakerRows(loaded: seq<Record>, start: Date, end: Date, cats: seq<string>, makers: seq<string>,
                          ts: seq<Annotated>)
    requires multiset(Recs(ts)) == multiset(TotalByManufacturer(Filtered(loaded, start, end, cats, makers)).rows)
    ensures forall i :: 0 <= i < |ts| ==>
      var row := ts[i].rec;
      row.manufacturer.Some? &&
      row.registrations == MakerSum(Filtered(loaded, start, end, cats, makers), row.date, row.manufacturer.value, row.category) &&
      DateLe(start, row.date) && DateLe(row.date, end) && (cats != [] ==> row.category in cats) &&
      (makers != [] ==> row.manufacturer.value in makers)
  {
    forall i | 0 <= i < |ts|
      ensures var row := ts[i].rec;
        row.manufacturer.Some? &&
        row.registrations == MakerSum(Filtered(loaded, start, end, cats, makers), row.date, row.manufacturer.value, row.category) &&
        DateLe(start, row.date) && DateLe(row.date, end) && (cats != [] ==> row.category in cats) &&
        (makers != [] ==> row.manufacturer.value in makers)
    {
      assert ts[i].rec == Recs(ts)[i];
      assert ts[i].rec in multiset(Recs(ts));
      PipelineMakerRow(loaded, start, end, cats, makers, ts[i].rec);
    }
  }

  // ----- the latest row of a series -----

  function DateKeyA(a: Annotated): int
  {
    DateOrd(a.rec.date)
  }

  /** The latest date of a non-empty series. */
  function LatestDate(sub: seq<Annotated>): Date
    requires sub != []
  {
    MaxDate(Recs(sub)).value
  }

  lemma AtLatestDateNonEmpty(sub: seq<Annotated>)
    requires sub != []
    ensures Filter(sub, AtDate(LatestDate(sub))) != []
  {
    var d := LatestDate(sub);
    var i :| 0 <= i < |Recs(sub)| && Recs(sub)[i].date == d;
    assert AtDate(d)(sub[i]);
  }

  /** The last row, in series order, among the rows at the series' latest date. */
  function LatestRow(sub: seq<Annotated>): Annotated
    requires sub != []
  {
    AtLatestDateNonEmpty(sub);
    var atMax := Filter(sub, AtDate(LatestDate(sub)));
    atMax[|atMax| - 1]
  }

  /** The latest row is a row of the series, no row is later, and no later
      position holds a row of the same date. */
  lemma LatestRowFacts(sub: seq<Annotated>)
    requires sub != []
    ensures LatestRow(sub) in sub
    ensures forall a :: a in sub ==> DateLe(a.rec.date, LatestRow(sub).rec.date)
    ensures exists k :: (0 <= k < |sub| && sub[k] == LatestRow(sub) &&
                         (forall j :: k < j < |sub| ==> sub[j].rec.date != LatestRow(sub).rec.date))
  {
    var d := LatestDate(sub);
    AtLatestDateNonEmpty(sub);
    var k := FilterLast(sub, AtDate(d));
    assert sub[k] == LatestRow(sub) && AtDate(d)(sub[k]);
    forall j | k < j < |sub| ensures sub[j].rec.date != d {
      assert !AtDate(d)(sub[j]);
    }
    forall a | a in sub ensures DateLe(a.rec.date, d) {
      var j :| 0 <= j < |sub| && sub[j] == a;
      assert Recs(sub)[j] == a.rec;
    }
  }

  function HasCategory(cat: string): Annotated -> bool
  {
    (a: Annotated) => a.rec.category == cat
  }

  /** The rows of one category, sorted by date. */
  function CategorySeries(ts: seq<Annotated>, cat: string): seq<Annotated>
  {
    SortBy(Filter(ts, HasCategory(cat)), DateKeyA)
  }

  /** The series of a category is sorted by date and holds that category's
      rows, duplicates included. */
  lemma CategorySeriesFacts(ts: seq<Annotated>, cat: string)
    ensures SortedBy(CategorySeries(ts, cat), DateKeyA)
    ensures multiset(CategorySeries(ts, cat)) == multiset(Filter(ts, HasCategory(cat)))
  {
  }

  /** A row is in the series of a category exactly when it is a row of that category. */
  lemma CategorySeriesMembers(ts: seq<Annotated>, cat: string)
    ensures forall a :: a in CategorySeries(ts, cat) <==> a in ts && a.rec.category == cat
  {
    var sub := CategorySeries(ts, cat);
    var f := Filter(ts, HasCategory(cat));
    assert multiset(sub) == multiset(f);
    forall a ensures a in sub <==> a in ts && a.rec.category == cat {
      assert a in sub <==> a in multiset(sub);
      assert a in f <==> a in multiset(f);
      InFilter(ts, HasCategory(cat), a);
    }
  }

  /** The headline of one category: the row at that category's own latest
      date, or nothing when the category has no rows. */
  function CategoryHeadline(ts: seq<Annotated>, cat: string): Option<Annotated>
  {
    var sub := CategorySeries(ts, cat);
    if sub == [] then None else Some(LatestRow(sub))
  }

  /** There is a headline exactly when the category has rows; it is a row of
      that category and none of its rows is later. */
  lemma CategoryHeadlineFacts(ts: seq<Annotated>, cat: string)
    ensures CategoryHeadline(ts, cat).None? <==> forall a :: a in ts ==> a.rec.category != cat
    ensures CategoryHeadline(ts, cat).Some? ==>
      CategoryHeadline(ts, cat).value in ts && CategoryHeadline(ts, cat).value.rec.category == cat
    ensures CategoryHeadline(ts, cat).Some? ==>
      forall a :: a in ts && a.rec.category == cat ==> DateLe(a.rec.date, CategoryHeadline(ts, cat).value.rec.date)
  {
    var sub := CategorySeries(ts, cat);
    CategorySeriesMembers(ts, cat);
    if sub != [] {
      LatestRowFacts(sub);
    } else {
      forall a | a in ts ensures a.rec.category != cat {
        assert a !in sub;
      }
    }
  }

  /** The headline loop: one slot per category, left empty for a category without rows. */
  method HeadlineColumns(ts: seq<Annotated>) returns (cols: seq<Option<Annotated>>)
    ensures |cols| == |Categories|
    ensures forall i :: 0 <= i < |Categories| ==> cols[i] == CategoryHeadline(ts, Categories[i])
  {
    cols := [];
    for i := 0 to |Categories|
      invariant |cols| == i
      invariant forall j :: 0 <= j < i ==> cols[j] == CategoryHeadline(ts, Categories[j])
    {
      var sub := CategorySeries(ts, Categories[i]);
      if sub == [] {
        HeadlineStep(cols, ts, i, None);
        cols := cols + [None];
        continue;
      }
      var latest := LatestRow(sub);
      HeadlineStep(cols, ts, i, Some(latest));
      cols := cols + [Some(latest)];
    }
  }

  lemma HeadlineStep(cols: seq<Option<Annotated>>, ts: seq<Annotated>, i: int, c: Option<Annotated>)
    requires 0 <= i < |Categories| && |cols| == i
    requires forall j :: 0 <= j < i ==> cols[j] == CategoryHeadline(ts, Categories[j])
    requires c == CategoryHeadline(ts, Categories[i])
    ensures forall j :: 0 <= j < i + 1 ==> (cols + [c])[j] == CategoryHeadline(ts, Categories[j])
  {
  }

  /** The table of one category tab: the last 12 rows of its date-sorted series. */
  function CategoryWindow(ts: seq<Annotated>, cat: string): Option<seq<Annotated>>
  {
    var sub := CategorySeries(ts, cat);
    if sub == [] then None else Some(Tail(sub, 12))
  }

  /** A tab exists exactly when the category has rows. */
  lemma CategoryWindowPresence(ts: seq<Annotated>, cat: string)
    ensures CategoryWindow(ts, cat).None? <==> forall a :: a in ts ==> a.rec.category != cat
  {
    var sub := CategorySeries(ts, cat);
    CategorySeriesMembers(ts, cat);
    if sub == [] {
      forall a | a in ts ensures a.rec.category != cat {
        assert a !in sub;
      }
    } else {
      assert sub[0] in sub;
    }
  }

  /** A tab holds the last min(12, n) rows of the series, sorted, all of that
      category, and no row left out of it is later than a row shown. */
  lemma CategoryWindowContents(ts: seq<Annotated>, cat: string)
    requires CategoryWindow(ts, cat).Some?
    ensures var sub := CategorySeries(ts, cat); var w := CategoryWindow(ts, cat).value;
      |w| == (if |sub| < 12 then |sub| else 12) &&
      w == sub[|sub| - |w|..] &&
      SortedBy(w, DateKeyA) &&
      (forall a :: a in w ==> a in ts && a.rec.category == cat) &&
      (forall i, j :: 0 <= i < |sub| - |w| <= j < |sub| ==> DateKeyA(sub[i]) <= DateKeyA(sub[j]))
  {
    var sub := CategorySeries(ts, cat);
    CategorySeriesFacts(ts, cat);
    CategorySeriesMembers(ts, cat);
    TailOfSorted(sub, DateKeyA, 12);
  }

  lemma TabStep(tabs: seq<Option<seq<Annotated>>>, ts: seq<Annotated>, i: int, w: Option<seq<Annotated>>)
    requires 0 <= i < |Categories| && |tabs| == i
    requires forall j :: 0 <= j < i ==> tabs[j] == CategoryWindow(ts, Categories[j])
    requires w == CategoryWindow(ts, Categories[i])
    ensures forall j :: 0 <= j < i + 1 ==> (tabs + [w])[j] == CategoryWindow(ts, Categories[j])
  {
  }

  /** The category tabs loop: one window per category, none when it has no rows. */
  method CategoryTabs(ts: seq<Annotated>) returns (tabs: seq<Option<seq<Annotated>>>)
    ensures |tabs| == |Categories|
    ensures forall i :: 0 <= i < |Categories| ==> tabs[i] == CategoryWindow(ts, Categories[i])
  {
    tabs := [];
    for i := 0 to |Categories|
      invariant |tabs| == i
      invariant forall j :: 0 <= j < i ==> tabs[j] == CategoryWindow(ts, Categories[j])
    {
      var sub := CategorySeries(ts, Categories[i]);
      if sub == [] {
        TabStep(tabs, ts, i, None);
        tabs := tabs + [None];
        continue;
      }
      TabStep(tabs, ts, i, Some(Tail(sub, 12)));
      tabs := tabs + [Some(Tail(sub, 12))];
    }
  }

  // ----- the manufacturer snapshot -----

  /** A row is shown when its manufacturer is one of the selected ones. */
  function Shown(selected: seq<string>): Annotated -> bool
  {
    (a: Annotated) => a.rec.manufacturer.Some? && a.rec.manufacturer.value in selected
  }

  function OfMaker(m: string): Annotated -> bool
  {
    (a: Annotated) => a.rec.manufacturer == Some(m)
  }

  /** The manufacturers of the rows, each once. */
  function DistinctMakers(rows: seq<Annotated>): (ms: seq<string>)
    ensures forall i, j :: 0 <= i < j < |ms| ==> ms[i] != ms[j]
    ensures forall i :: 0 <= i < |rows| && rows[i].rec.manufacturer.Some? ==> rows[i].rec.manufacturer.value in ms
    ensures forall k :: 0 <= k < |ms| ==> exists i :: 0 <= i < |rows| && rows[i].rec.manufacturer == Some(ms[k])
  {
    if rows == [] then []
    else
      var rest := DistinctMakers(rows[1..]);
      assert forall i :: 0 < i < |rows| ==> rows[i] == rows[1..][i - 1];
      assert forall k :: 0 <= k < |rest| ==> exists i :: 0 < i < |rows| && rows[i].rec.manufacturer == Some(rest[k]) by {
        forall k | 0 <= k < |rest| ensures exists i :: 0 < i < |rows| && rows[i].rec.manufacturer == Some(rest[k]) {
          var i :| 0 <= i < |rows[1..]| && rows[1..][i].rec.manufacturer == Some(rest[k]);
          assert rows[i + 1] == rows[1..][i];
        }
      }
      match rows[0].rec.manufacturer
      case None => rest
      case Some(m) => if m in rest then rest else [m] + rest
  }

  /** The latest row of each shown manufacturer, in DistinctMakers order. */
  function LatestPerMaker(show: seq<Annotated>, ms: seq<string>): (rows: seq<Annotated>)
    requires forall k :: 0 <= k < |ms| ==> exists i :: 0 <= i < |show| && show[i].rec.manufacturer == Some(ms[k])
    ensures |rows| == |ms|
    ensures forall k :: 0 <= k < |ms| ==>
      Filter(show, OfMaker(ms[k])) != [] && rows[k] == LatestRow(Filter(show, OfMaker(ms[k])))
  {
    assert forall k :: 0 <= k < |ms| ==> Filter(show, OfMaker(ms[k])) != [] by {
      forall k | 0 <= k < |ms| ensures Filter(show, OfMaker(ms[k])) != [] {
        MakerPresent(show, ms[k]);
      }
    }
    seq(|ms|, k requires 0 <= k < |ms| =>
      MakerPresent(show, ms[k]);
      LatestRow(Filter(show, OfMaker(ms[k]))))
  }

  lemma MakerPresent(show: seq<Annotated>, m: string)
    requires exists i :: 0 <= i < |show| && show[i].rec.manufacturer == Some(m)
    ensures Filter(show, OfMaker(m)) != []
  {
    var i :| 0 <= i < |show| && show[i].rec.manufacturer == Some(m);
    assert show[i] in show && OfMaker(m)(show[i]);
    assert show[i] in Filter(show, OfMaker(m));
  }

  function MakerOf(a: Annotated): Option<string>
  {
    a.rec.manufacturer
  }

  /** The manufacturer tab's table: one row per selected manufacturer that has
      rows, at that manufacturer's own latest date, largest registrations first. */
  function MakerSnapshot(makerTs: seq<Annotated>, selected: seq<string>): (r: seq<Annotated>)
    ensures forall a :: a in r ==> a in makerTs && a.rec.manufacturer.Some? && a.rec.manufacturer.value in selected
    ensures selected == [] ==> r == []
    ensures forall i, j :: 0 <= i < j < |r| ==> r[i].rec.manufacturer != r[j].rec.manufacturer
    ensures forall a :: a in makerTs && a.rec.manufacturer.Some? && a.rec.manufacturer.value in selected ==>
      exists i :: 0 <= i < |r| && r[i].rec.manufacturer == a.rec.manufacturer
    ensures forall a, i :: a in makerTs && 0 <= i < |r| && a.rec.manufacturer == r[i].rec.manufacturer ==>
      DateLe(a.rec.date, r[i].rec.date)
    ensures forall i, j :: 0 <= i < j < |r| ==> r[i].rec.registrations >= r[j].rec.registrations
  {
    var show := Filter(makerTs, Shown(selected));
    var ms := DistinctMakers(show);
    var latest := LatestPerMaker(show, ms);
    var r := SortBy(latest, NegRegistrations);
    SnapshotFacts(makerTs, selected, show, ms, latest, r);
    r
  }

  lemma LatestOfMaker(show: seq<Annotated>, m: string, row: Annotated)
    requires Filter(show, OfMaker(m)) != [] && row == LatestRow(Filter(show, OfMaker(m)))
    ensures row in show && row.rec.manufacturer == Some(m)
    ensures forall a :: a in show && a.rec.manufacturer == Some(m) ==> DateLe(a.rec.date, row.rec.date)
  {
    var g := Filter(show, OfMaker(m));
    LatestRowFacts(g);
    forall a | a in show && a.rec.manufacturer == Some(m) ensures DateLe(a.rec.date, row.rec.date) {
      var i :| 0 <= i < |show| && show[i] == a;
      assert a in g;
    }
  }

  /** Each latest row belongs to its manufacturer and no row of that manufacturer is later. */
  lemma LatestPerMakerFacts(show: seq<Annotated>, ms: seq<string>, latest: seq<Annotated>, k: int)
    requires ms == DistinctMakers(show) && latest == LatestPerMaker(show, ms) && 0 <= k < |ms|
    ensures latest[k] in show && latest[k].rec.manufacturer == Some(ms[k])
    ensures forall a :: a in show && a.rec.manufacturer == Some(ms[k]) ==> DateLe(a.rec.date, latest[k].rec.date)
  {
    MakerPresent(show, ms[k]);
    LatestOfMaker(show, ms[k], latest[k]);
  }

  lemma SnapshotRowsShown(show: seq<Annotated>, ms: seq<string>, latest: seq<Annotated>, r: seq<Annotated>, a: Annotated)
    requires ms == DistinctMakers(show) && latest == LatestPerMaker(show, ms) && multiset(r) == multiset(latest)
    requires a in r
    ensures a in show
  {
    assert a in multiset(latest);
    var k :| 0 <= k < |latest| && latest[k] == a;
    LatestPerMakerFacts(show, ms, latest, k);
  }

  lemma SnapshotCovers(show: seq<Annotated>, ms: seq<string>, latest: seq<Annotated>, r: seq<Annotated>, a: Annotated)
    requires ms == DistinctMakers(show) && latest == LatestPerMaker(show, ms) && multiset(r) == multiset(latest)
    requires a in show && a.rec.manufacturer.Some?
    ensures exists i :: 0 <= i < |r| && r[i].rec.manufacturer == a.rec.manufacturer
  {
    var q :| 0 <= q < |show| && show[q] == a;
    var k :| 0 <= k < |ms| && ms[k] == a.rec.manufacturer.value;
    LatestPerMakerFacts(show, ms, latest, k);
    assert latest[k] in multiset(r);
    var i :| 0 <= i < |r| && r[i] == latest[k];
  }

  lemma SnapshotLatest(show: seq<Annotated>, ms: seq<string>, latest: seq<Annotated>, r: seq<Annotated>,
                       a: Annotated, i: int)
    requires ms == DistinctMakers(show) && latest == LatestPerMaker(show, ms) && multiset(r) == multiset(latest)
    requires a in show && 0 <= i < |r| && a.rec.manufacturer == r[i].rec.manufacturer
    ensures DateLe(a.rec.date, r[i].rec.date)
  {
    assert r[i] in multiset(latest);
    var k :| 0 <= k < |latest| && latest[k] == r[i];
    LatestPerMakerFacts(show, ms, latest, k);
  }

  lemma SnapshotDistinct(show: seq<Annotated>, ms: seq<string>, latest: seq<Annotated>, r: seq<Annotated>)
    requires ms == DistinctMakers(show) && latest == LatestPerMaker(show, ms) && multiset(r) == multiset(latest)
    ensures forall i, j :: 0 <= i < j < |r| ==> r[i].rec.manufacturer != r[j].rec.manufacturer
  {
    forall k | 0 <= k < |latest| ensures MakerOf(latest[k]) == Some(ms[k]) {
      LatestPerMakerFacts(show, ms, latest, k);
    }
    DistinctByPermutation(latest, r, MakerOf);
  }

  lemma SnapshotFacts(makerTs: seq<Annotated>, selected: seq<string>, show: seq<Annotated>, ms: seq<string>,
                      latest: seq<Annotated>, r: seq<Annotated>)
    requires show == Filter(makerTs, Shown(selected)) && ms == DistinctMakers(show)
    requires latest == LatestPerMaker(show, ms) && r == SortBy(latest, NegRegistrations)
    ensures forall a :: a in r ==> a in makerTs && a.rec.manufacturer.Some? && a.rec.manufacturer.value in selected
    ensures selected == [] ==> r == []
    ensures forall i, j :: 0 <= i < j < |r| ==> r[i].rec.manufacturer != r[j].rec.manufacturer
    ensures forall a :: a in makerTs && a.rec.manufacturer.Some? && a.rec.manufacturer.value in selected ==>
      exists i :: 0 <= i < |r| && r[i].rec.manufacturer == a.rec.manufacturer
    ensures forall a, i :: a in makerTs && 0 <= i < |r| && a.rec.manufacturer == r[i].rec.manufacturer ==>
      DateLe(a.rec.date, r[i].rec.date)
  {
    forall a | a in r ensures a in makerTs && a.rec.manufacturer.Some? && a.rec.manufacturer.value in selected {
      SnapshotRowsShown(show, ms, latest, r, a);
      InFilter(makerTs, Shown(selected), a);
    }
    if selected == [] {
      FilterNone(makerTs, Shown(selected));
    }
    SnapshotDistinct(show, ms, latest, r);
    forall a | a in makerTs && a.rec.manufacturer.Some? && a.rec.manufacturer.value in selected
      ensures exists i :: 0 <= i < |r| && r[i].rec.manufacturer == a.rec.manufacturer
    {
      InFilter(makerTs, Shown(selected), a);
      SnapshotCovers(show, ms, latest, r, a);
    }
    forall a, i | a in makerTs && 0 <= i < |r| && a.rec.manufacturer == r[i].rec.manufacturer
      ensures DateLe(a.rec.date, r[i].rec.date)
    {
      SnapshotRowsShown(show, ms, latest, r, r[i]);
      InFilter(makerTs, Shown(selected), r[i]);
      InFilter(makerTs, Shown(selected), a);
      SnapshotLatest(show, ms, latest, r, a, i);
    }
  }
}
