/** add_growth_rates and get_group_cols (vahan/data_processing.py): the table
    is sorted by date, every row gets its calendar quarter, a year-over-year
    change taken 12 positions back in its group and a quarter-over-quarter
    change of its group's quarter sum against the previous quarter present
    in that group. A change is (v - p) / p on exact reals; None stands for
    pandas' NaN, and also for a zero denominator (where pandas gives inf or
    NaN). */
module Growth {
  import opened Wrappers
  import opened Calendar
  import opened Sequences
  import opened Tables

  /** get_group_cols: "category", then "manufacturer", as far as the table has them. */
  function GroupCols(columns: seq<Column>): (gc: seq<Column>)
    ensures forall c :: c in gc <==> (c == CategoryCol || c == ManufacturerCol) && c in columns
    ensures |gc| <= 2 && (|gc| == 2 ==> gc == [CategoryCol, ManufacturerCol])
  {
    (if CategoryCol in columns then [CategoryCol] else []) +
    (if ManufacturerCol in columns then [ManufacturerCol] else [])
  }

  /** The value of a row in the group columns. */
  datatype GroupKey = GroupKey(category: Option<string>, manufacturer: Option<string>)

  /** The group of a row; None when a group column holds a missing value,
      because groupby leaves such rows out of every group. */
  function KeyFor(r: Record, gc: seq<Column>): (k: Option<GroupKey>)
    ensures k.None? <==> ManufacturerCol in gc && r.manufacturer.None?
    ensures k.Some? && CategoryCol in gc ==> k.value.category == Some(r.category)
    ensures k.Some? && ManufacturerCol in gc ==> k.value.manufacturer == r.manufacturer
  {
    if ManufacturerCol in gc && r.manufacturer.None? then None
    else Some(GroupKey(if CategoryCol in gc then Some(r.category) else None,
                       if ManufacturerCol in gc then r.manufacturer else None))
  }

  /** Two grouped rows share a group exactly when they agree on every group column. */
  lemma SameGroupIffAgree(a: Record, b: Record, gc: seq<Column>)
    requires KeyFor(a, gc).Some? && KeyFor(b, gc).Some?
    ensures KeyFor(a, gc) == KeyFor(b, gc) <==>
      (CategoryCol in gc ==> a.category == b.category) &&
      (ManufacturerCol in gc ==> a.manufacturer == b.manufacturer)
  {
  }

  function InGroup(gc: seq<Column>, k: GroupKey): Record -> bool
  {
    (r: Record) => KeyFor(r, gc) == Some(k)
  }

  /** The sort key of sort_values("date"). */
  function DateKey(r: Record): int
  {
    DateOrd(r.date)
  }

  /** pct_change's (v - p) / p; None for a zero denominator. */
  function Ratio(v: nat, p: nat): (r: Option<real>)
    ensures r.Some? <==> p != 0
    ensures r.Some? ==> r.value * (p as real) == v as real - p as real
  {
    if p == 0 then None else Some((v as real - p as real) / p as real)
  }

  /** pct_change(12) at position j of a group's date-sorted rows. */
  function YoyAt(g: seq<Record>, j: nat): (r: Option<real>)
    requires j < |g|
    ensures r.Some? <==> j >= 12 && g[j - 12].registrations != 0
    ensures r.Some? ==>
      j >= 12 && r.value * (g[j - 12].registrations as real) == g[j].registrations as real - g[j - 12].registrations as real
  {
    if j < 12 then None else Ratio(g[j].registrations, g[j - 12].registrations)
  }

  function QuarterIdx(r: Record): int
  {
    QuarterIndex(QuarterOf(r.date))
  }

  /** The group's total in quarter `q`, the qsum of the source. */
  function QuarterSum(g: seq<Record>, q: int): nat
  {
    if g == [] then 0
    else (if QuarterIdx(g[0]) == q then g[0].registrations else 0) + QuarterSum(g[1..], q)
  }

  ghost predicate Increasing(qs: seq<int>)
  {
    forall i, j :: 0 <= i < j < |qs| ==> qs[i] < qs[j]
  }

  lemma IncreasingIndex(qs: seq<int>, i: int, j: int)
    requires Increasing(qs) && 0 <= i < |qs| && 0 <= j < |qs|
    ensures qs[i] < qs[j] <==> i < j
    ensures qs[i] == qs[j] <==> i == j
  {
  }

  lemma IncreasingCons(x: int, qs: seq<int>)
    requires Increasing(qs) && forall k :: 0 <= k < |qs| ==> x < qs[k]
    ensures Increasing([x] + qs)
  {
    var r := [x] + qs;
    forall i, j | 0 <= i < j < |r| ensures r[i] < r[j] {
      assert r[j] == qs[j - 1];
      if 0 < i {
        assert r[i] == qs[i - 1];
      }
    }
  }

  lemma IncreasingTail(qs: seq<int>)
    requires Increasing(qs) && qs != []
    ensures Increasing(qs[1..])
    ensures forall k :: 0 <= k < |qs[1..]| ==> qs[0] < qs[1..][k]
  {
    forall i, j | 0 <= i < j < |qs[1..]| ensures qs[1..][i] < qs[1..][j] {
      assert qs[1..][i] == qs[i + 1] && qs[1..][j] == qs[j + 1];
    }
    forall k | 0 <= k < |qs[1..]| ensures qs[0] < qs[1..][k] {
      assert qs[1..][k] == qs[k + 1];
    }
  }

  function InsertQuarter(q: int, qs: seq<int>): (r: seq<int>)
    ensures Increasing(qs) ==> Increasing(r)
    ensures forall x :: x in r <==> x == q || x in qs
  {
    if qs == [] then [q]
    else if q < qs[0] then
      assert Increasing(qs) ==> Increasing([q] + qs) by {
        if Increasing(qs) {
          forall k | 0 <= k < |qs| ensures q < qs[k] {
            if 0 < k {
              assert qs[0] < qs[k];
            }
          }
          IncreasingCons(q, qs);
        }
      }
      [q] + qs
    else if q == qs[0] then qs
    else
      var rest := InsertQuarter(q, qs[1..]);
      assert qs == [qs[0]] + qs[1..];
      assert Increasing(qs) ==> Increasing([qs[0]] + rest) by {
        if Increasing(qs) {
          IncreasingTail(qs);
          forall k | 0 <= k < |rest| ensures qs[0] < rest[k] {
            assert rest[k] in rest;
            if rest[k] != q {
              var m :| 0 <= m < |qs[1..]| && qs[1..][m] == rest[k];
            }
          }
          IncreasingCons(qs[0], rest);
        }
      }
      [qs[0]] + rest
  }

  /** The quarters present in a group, ascending and without repeats: the
      keys of the source's groupby on the quarter. */
  function PresentQuarters(g: seq<Record>): (qs: seq<int>)
    ensures Increasing(qs)
    ensures forall i :: 0 <= i < |g| ==> QuarterIdx(g[i]) in qs
  {
    if g == [] then []
    else
      var rest := PresentQuarters(g[1..]);
      PresentQuartersStep(g, rest);
      InsertQuarter(QuarterIdx(g[0]), rest)
  }

  lemma PresentQuartersStep(g: seq<Record>, rest: seq<int>)
    requires g != [] && Increasing(rest)
    requires forall i :: 0 <= i < |g[1..]| ==> QuarterIdx(g[1..][i]) in rest
    ensures var qs := InsertQuarter(QuarterIdx(g[0]), rest);
      Increasing(qs) && forall i :: 0 <= i < |g| ==> QuarterIdx(g[i]) in qs
  {
    var qs := InsertQuarter(QuarterIdx(g[0]), rest);
    forall i | 0 <= i < |g| ensures QuarterIdx(g[i]) in qs {
      if 0 < i {
        assert g[i] == g[1..][i - 1];
      }
    }
  }

  /** Every present quarter is the quarter of some row of the group. */
  lemma PresentWitness(g: seq<Record>, qs: seq<int>, k: int) returns (m: int)
    requires qs == PresentQuarters(g) && 0 <= k < |qs|
    ensures 0 <= m < |g| && QuarterIdx(g[m]) == qs[k]
  {
    var rest := PresentQuarters(g[1..]);
    assert qs[k] in qs;
    if qs[k] == QuarterIdx(g[0]) {
      m := 0;
    } else {
      var k' :| 0 <= k' < |rest| && rest[k'] == qs[k];
      var m' := PresentWitness(g[1..], rest, k');
      m := m' + 1;
    }
  }

  function IndexOf(qs: seq<int>, q: int): (k: nat)
    requires q in qs
    ensures k < |qs| && qs[k] == q
  {
    if qs[0] == q then 0 else 1 + IndexOf(qs[1..], q)
  }

  /** The quarter-over-quarter change of quarter `q`: its sum against the sum
      of the previous quarter present in the group, None for the first one. */
  function QoqAt(g: seq<Record>, q: int): Option<real>
  {
    var qs := PresentQuarters(g);
    if q !in qs then None
    else
      var k := IndexOf(qs, q);
      if k == 0 then None else Ratio(QuarterSum(g, q), QuarterSum(g, qs[k - 1]))
  }

  /** One row of add_growth_rates' result. */
  datatype Annotated = Annotated(rec: Record, quarter: Quarter, yoy: Option<real>, qoq: Option<real>)

  /** The annotation of one group's date-sorted rows. */
  function AnnotateGroup(g: seq<Record>): (h: seq<Annotated>)
    ensures |h| == |g|
    ensures forall j :: 0 <= j < |g| ==> h[j].rec == g[j] && h[j].quarter == QuarterOf(g[j].date)
  {
    seq(|g|, j requires 0 <= j < |g| =>
      Annotated(g[j], QuarterOf(g[j].date), YoyAt(g, j), QoqAt(g, QuarterIdx(g[j]))))
  }

  /** The annotation of row j of the date-sorted table: computed within its
      own group, at its rank in that group. */
  function AnnotateRow(s: seq<Record>, gc: seq<Column>, j: int): (a: Annotated)
    requires 0 <= j < |s|
    ensures a.rec == s[j] && a.quarter == QuarterOf(s[j].date)
    ensures KeyFor(s[j], gc).None? ==> a.yoy.None? && a.qoq.None?
  {
    match KeyFor(s[j], gc)
    case None => Annotated(s[j], QuarterOf(s[j].date), None, None)
    case Some(k) =>
      RankInFilter(s, InGroup(gc, k), j);
      AnnotateGroup(Filter(s, InGroup(gc, k)))[|Filter(s[..j], InGroup(gc, k))|]
  }

  function Annotate(s: seq<Record>, gc: seq<Column>): (a: seq<Annotated>)
    ensures |a| == |s|
    ensures forall j :: 0 <= j < |s| ==> a[j].rec == s[j] && a[j].quarter == QuarterOf(s[j].date)
    ensures forall j :: 0 <= j < |s| && KeyFor(s[j], gc).None? ==> a[j].yoy.None? && a[j].qoq.None?
  {
    seq(|s|, j requires 0 <= j < |s| => AnnotateRow(s, gc, j))
  }

  function Recs(rows: seq<Annotated>): (s: seq<Record>)
    ensures |s| == |rows| && forall i :: 0 <= i < |rows| ==> s[i] == rows[i].rec
  {
    seq(|rows|, i requires 0 <= i < |rows| => rows[i].rec)
  }

  /** The result of add_growth_rates: the columns and the annotated rows. */
  datatype GrowthTable = GrowthTable(columns: seq<Column>, rows: seq<Annotated>)

  /** Assigning a column keeps its place when it exists and appends it otherwise. */
  function WithColumn(columns: seq<Column>, c: Column): (r: seq<Column>)
    ensures c in r && forall x :: x in columns ==> x in r
    ensures forall x :: x in r ==> x == c || x in columns
  {
    if c in columns then columns else columns + [c]
  }

  function GrowthColumns(columns: seq<Column>): seq<Column>
  {
    WithColumn(WithColumn(WithColumn(columns, QuarterCol), YoyCol), QoqCol)
  }

  /** What the result of add_growth_rates holds for table `t`: the columns
      with the three new ones, the rows stably sorted by date (a permutation of
      the input), each with its own quarter, and no growth value on a row
      without a complete group key. */
  ghost predicate GrowthOf(t: Table, g: GrowthTable)
  {
    g.columns == GrowthColumns(t.columns) &&
    Recs(g.rows) == SortBy(t.rows, DateKey) &&
    multiset(Recs(g.rows)) == multiset(t.rows) &&
    SortedBy(Recs(g.rows), DateKey) &&
    (forall j :: 0 <= j < |g.rows| ==> g.rows[j].quarter == QuarterOf(g.rows[j].rec.date)) &&
    (forall j :: 0 <= j < |g.rows| && KeyFor(g.rows[j].rec, GroupCols(t.columns)).None? ==>
      g.rows[j].yoy.None? && g.rows[j].qoq.None?)
  }

  /** add_growth_rates: fails as groupby does without group keys; otherwise
      the rows sorted by date, each with its quarter and growth values. */
  function AddGrowthRates(t: Table): (r: Result<GrowthTable, Error>)
    ensures r.Failure? <==> GroupCols(t.columns) == [] && t.rows != []
    ensures r.Failure? ==> r.error == ValueError("No group keys passed!")
    ensures r.Success? ==> GrowthOf(t, r.value)
  {
    var gc := GroupCols(t.columns);
    if gc == [] && t.rows != [] then Failure(ValueError("No group keys passed!"))
    else
      var sorted := SortBy(t.rows, DateKey);
      var rows := Annotate(sorted, gc);
      AnnotateRecs(sorted, gc);
      Success(GrowthTable(GrowthColumns(t.columns), rows))
  }

  /** Annotating keeps the records, in order. */
  lemma AnnotateRecs(s: seq<Record>, gc: seq<Column>)
    ensures Recs(Annotate(s, gc)) == s
  {
    var a := Annotate(s, gc);
    assert forall j :: 0 <= j < |s| ==> Recs(a)[j] == s[j];
  }

  function InGroupA(gc: seq<Column>, k: GroupKey): Annotated -> bool
  {
    (a: Annotated) => KeyFor(a.rec, gc) == Some(k)
  }

  /** A group's rows in the result are the annotation of that group's own
      input rows, sorted by date: no other group influences them. */
  lemma GrowthOfGroup(t: Table, k: GroupKey)
    requires AddGrowthRates(t).Success?
    ensures Filter(AddGrowthRates(t).value.rows, InGroupA(GroupCols(t.columns), k)) ==
      AnnotateGroup(SortBy(Filter(t.rows, InGroup(GroupCols(t.columns), k)), DateKey))
  {
    var gc := GroupCols(t.columns);
    var s := SortBy(t.rows, DateKey);
    assert AddGrowthRates(t).value.rows == Annotate(s, gc);
    AnnotateOfGroup(s, gc, k);
    FilterSortBy(t.rows, DateKey, InGroup(gc, k));
  }

  /** Annotating a table and then selecting group k is annotating group k alone. */
  lemma AnnotateOfGroup(s: seq<Record>, gc: seq<Column>, k: GroupKey)
    ensures Filter(Annotate(s, gc), InGroupA(gc, k)) == AnnotateGroup(Filter(s, InGroup(gc, k)))
  {
    var a := Annotate(s, gc);
    var p, q := InGroup(gc, k), InGroupA(gc, k);
    var h := AnnotateGroup(Filter(s, p));
    forall i | 0 <= i < |s| ensures q(a[i]) == p(s[i]) {
      assert a[i].rec == s[i];
    }
    forall i {:trigger a[i]} | 0 <= i < |s| && p(s[i])
      ensures |Filter(s[..i], p)| < |h| && a[i] == h[|Filter(s[..i], p)|]
    {
      RankInFilter(s, p, i);
      assert a[i] == AnnotateRow(s, gc, i);
    }
    FilterPointwise(s, a, p, q, h);
  }

  /** Tables whose rows in group k agree get the same growth values in group k. */
  lemma GroupIsolation(t1: Table, t2: Table, k: GroupKey)
    requires GroupCols(t1.columns) != [] && GroupCols(t1.columns) == GroupCols(t2.columns)
    requires Filter(t1.rows, InGroup(GroupCols(t1.columns), k)) == Filter(t2.rows, InGroup(GroupCols(t2.columns), k))
    ensures AddGrowthRates(t2).Success?
    ensures Filter(AddGrowthRates(t1).value.rows, InGroupA(GroupCols(t1.columns), k)) ==
      Filter(AddGrowthRates(t2).value.rows, InGroupA(GroupCols(t2.columns), k))
  {
    GrowthOfGroup(t1, k);
    GrowthOfGroup(t2, k);
  }

  /** Each result row takes its values from its group's date-sorted rows G:
      the YoY at its rank in G, the QoQ of its quarter in G. */
  lemma GrowthOfRow(t: Table, j: int) returns (g: seq<Record>, pos: nat)
    requires AddGrowthRates(t).Success? && 0 <= j < |AddGrowthRates(t).value.rows|
    requires KeyFor(AddGrowthRates(t).value.rows[j].rec, GroupCols(t.columns)).Some?
    ensures g == Filter(Recs(AddGrowthRates(t).value.rows),
                        InGroup(GroupCols(t.columns), KeyFor(AddGrowthRates(t).value.rows[j].rec, GroupCols(t.columns)).value))
    ensures SortedBy(g, DateKey)
    ensures pos < |g| && g[pos] == AddGrowthRates(t).value.rows[j].rec
    ensures AddGrowthRates(t).value.rows[j].yoy == YoyAt(g, pos)
    ensures AddGrowthRates(t).value.rows[j].qoq == QoqAt(g, QuarterIdx(g[pos]))
  {
    var gc := GroupCols(t.columns);
    var s := SortBy(t.rows, DateKey);
    var a := Annotate(s, gc);
    assert AddGrowthRates(t).value.rows == a;
    AnnotateRecs(s, gc);
    var k := KeyFor(s[j], gc).value;
    g := Filter(s, InGroup(gc, k));
    pos := |Filter(s[..j], InGroup(gc, k))|;
    RankInFilter(s, InGroup(gc, k), j);
    FilterSorted(s, DateKey, InGroup(gc, k));
    assert a[j] == AnnotateRow(s, gc, j);
  }

  /** All rows of one group and one quarter share their QoQ value. */
  lemma QoqShared(t: Table, i: int, j: int)
    requires AddGrowthRates(t).Success?
    requires 0 <= i < |AddGrowthRates(t).value.rows| && 0 <= j < |AddGrowthRates(t).value.rows|
    requires KeyFor(AddGrowthRates(t).value.rows[i].rec, GroupCols(t.columns)) ==
             KeyFor(AddGrowthRates(t).value.rows[j].rec, GroupCols(t.columns))
    requires AddGrowthRates(t).value.rows[i].quarter == AddGrowthRates(t).value.rows[j].quarter
    ensures AddGrowthRates(t).value.rows[i].qoq == AddGrowthRates(t).value.rows[j].qoq
  {
    var rows := AddGrowthRates(t).value.rows;
    if KeyFor(rows[i].rec, GroupCols(t.columns)).Some? {
      var g, p := GrowthOfRow(t, i);
      var g', p' := GrowthOfRow(t, j);
    }
  }

  /** The first present quarter of a group has no QoQ value. */
  lemma QoqFirstPresentQuarter(g: seq<Record>, j: int)
    requires 0 <= j < |g|
    requires forall i :: 0 <= i < |g| ==> QuarterIdx(g[j]) <= QuarterIdx(g[i])
    ensures QoqAt(g, QuarterIdx(g[j])) == None
  {
    var qs := PresentQuarters(g);
    var q := QuarterIdx(g[j]);
    var k := IndexOf(qs, q);
    var m := PresentWitness(g, qs, 0);
    IncreasingIndex(qs, 0, k);
  }

  /** No row of `g` has a quarter strictly between quarters lo and hi. */
  ghost predicate NoRowBetween(g: seq<Record>, lo: int, hi: int)
  {
    forall m :: 0 <= m < |g| ==> !(lo < QuarterIdx(g[m]) < hi)
  }

  /** A quarter's QoQ compares it with the previous quarter present in the
      group, however many calendar quarters lie between. */
  lemma QoqPreviousPresent(g: seq<Record>, j: int, i: int)
    requires 0 <= j < |g| && 0 <= i < |g| && QuarterIdx(g[i]) < QuarterIdx(g[j])
    requires NoRowBetween(g, QuarterIdx(g[i]), QuarterIdx(g[j]))
    ensures QoqAt(g, QuarterIdx(g[j])) == Ratio(QuarterSum(g, QuarterIdx(g[j])), QuarterSum(g, QuarterIdx(g[i])))
  {
    QoqBetweenPresent(g, PresentQuarters(g), QuarterIdx(g[i]), QuarterIdx(g[j]));
  }

  lemma QoqBetweenPresent(g: seq<Record>, qs: seq<int>, lo: int, hi: int)
    requires qs == PresentQuarters(g) && lo in qs && hi in qs && lo < hi
    requires NoRowBetween(g, lo, hi)
    ensures QoqAt(g, hi) == Ratio(QuarterSum(g, hi), QuarterSum(g, lo))
  {
    forall t | 0 <= t < |qs| ensures !(lo < qs[t] < hi) {
      NothingPresentBetween(g, lo, hi, qs, t);
    }
    var k := PositionAfter(qs, lo, hi);
    QoqAtPosition(g, qs, k);
  }

  /** A present quarter is some row's quarter, so none lies strictly between
      two quarters that no row lies between. */
  lemma NothingPresentBetween(g: seq<Record>, lo: int, hi: int, qs: seq<int>, t: int)
    requires NoRowBetween(g, lo, hi)
    requires qs == PresentQuarters(g) && 0 <= t < |qs|
    ensures !(lo < qs[t] < hi)
  {
    var m := PresentWitness(g, qs, t);
  }

  /** Two values of an increasing sequence with no value strictly between
      them are neighbours. */
  lemma PositionAfter(qs: seq<int>, lo: int, hi: int) returns (k: int)
    requires Increasing(qs) && lo in qs && hi in qs && lo < hi
    requires forall t :: 0 <= t < |qs| ==> !(lo < qs[t] < hi)
    ensures 0 < k < |qs| && qs[k] == hi && qs[k - 1] == lo
  {
    k := IndexOf(qs, hi);
    var n := IndexOf(qs, lo);
    IncreasingIndex(qs, n, k);
    IncreasingIndex(qs, n, k - 1);
    IncreasingIndex(qs, k - 1, k);
  }

  /** The QoQ of the quarter at position k > 0 of the present quarters. */
  lemma QoqAtPosition(g: seq<Record>, qs: seq<int>, k: int)
    requires qs == PresentQuarters(g) && 0 < k < |qs|
    ensures QoqAt(g, qs[k]) == Ratio(QuarterSum(g, qs[k]), QuarterSum(g, qs[k - 1]))
  {
    var k' := IndexOf(qs, qs[k]);
    IncreasingIndex(qs, k', k);
  }


  /** The QoQ of the quarter right after a present one is the change between
      the two quarter sums. */
  lemma QoqPreviousCalendarQuarter(g: seq<Record>, j: int, i: int)
    requires 0 <= j < |g| && 0 <= i < |g| && QuarterIdx(g[i]) + 1 == QuarterIdx(g[j])
    ensures QoqAt(g, QuarterIdx(g[j])) == Ratio(QuarterSum(g, QuarterIdx(g[j])), QuarterSum(g, QuarterIdx(g[i])))
  {
    QoqPreviousPresent(g, j, i);
  }

  /** The quarter sum over the rows of a quarter. */
  lemma {:induction false} QuarterSumAppend(a: seq<Record>, b: seq<Record>, q: int)
    ensures QuarterSum(a + b, q) == QuarterSum(a, q) + QuarterSum(b, q)
  {
    if a == [] {
      assert a + b == b;
    } else {
      assert (a + b)[1..] == a[1..] + b;
      QuarterSumAppend(a[1..], b, q);
    }
  }

  // ----- YoY: positional and calendar readings -----

  /** The first row of `g` in month `m` (a MonthIndex), if any. */
  function FindMonth(g: seq<Record>, m: int): (r: Option<nat>)
    ensures r.Some? ==> r.value < |g| && MonthIndex(g[r.value].date) == m
    ensures r.None? ==> forall i :: 0 <= i < |g| ==> MonthIndex(g[i].date) != m
  {
    if g == [] then None
    else if MonthIndex(g[0].date) == m then Some(0)
    else
      match FindMonth(g[1..], m)
      case None =>
        assert forall i :: 0 < i < |g| ==> g[i] == g[1..][i - 1];
        None
      case Some(i) => Some(i + 1)
  }

  /** The calendar YoY: the change against the row exactly 12 months
      earlier, undefined when there is no such row. */
  function CalendarYoy(g: seq<Record>, j: nat): Option<real>
    requires j < |g|
  {
    match FindMonth(g, MonthIndex(g[j].date) - 12)
    case None => None
    case Some(i) => Ratio(g[j].registrations, g[i].registrations)
  }

  /** Every month from the first row's to the last one's is present, once. */
  ghost predicate Contiguous(g: seq<Record>)
  {
    forall i :: 0 < i < |g| ==> MonthIndex(g[i].date) == MonthIndex(g[i - 1].date) + 1
  }

  lemma {:induction false} ContiguousMonths(g: seq<Record>, i: int)
    requires Contiguous(g) && 0 <= i < |g|
    ensures MonthIndex(g[i].date) == MonthIndex(g[0].date) + i
  {
    if i > 0 {
      ContiguousMonths(g, i - 1);
    }
  }

  /** With no month missing, 12 positions back is 12 months back. */
  lemma PositionalYoyIsCalendar(g: seq<Record>, j: nat)
    requires Contiguous(g) && j < |g|
    ensures YoyAt(g, j) == CalendarYoy(g, j)
  {
    ContiguousMonths(g, j);
    var m := MonthIndex(g[j].date) - 12;
    if j >= 12 {
      ContiguousMonths(g, j - 12);
      var r := FindMonth(g, m);
      ContiguousMonths(g, r.value);
    } else {
      forall i | 0 <= i < |g| ensures MonthIndex(g[i].date) != m {
        ContiguousMonths(g, i);
      }
    }
  }

  /** With a month missing the two readings differ: 100 in January 2022 and
      150 in January 2023 give no positional YoY, while the calendar YoY is 0.5. */
  lemma SparseSeriesYoy()
    ensures var g := [Record(Date(2022, 1, 1), "2W", None, 100), Record(Date(2023, 1, 1), "2W", None, 150)];
      YoyAt(g, 1) == None && CalendarYoy(g, 1) == Some(0.5)
  {
    var g := [Record(Date(2022, 1, 1), "2W", None, 100), Record(Date(2023, 1, 1), "2W", None, 150)];
    assert FindMonth(g, MonthIndex(g[1].date) - 12) == Some(0);
  }

  function Month2022(month: Month, registrations: nat): Record
  {
    Record(Date(2022, month, 1), "2W", None, registrations)
  }

  function FirstQuarterRows(): seq<Record>
  {
    [Month2022(1, 100), Month2022(2, 100), Month2022(3, 100)]
  }

  function SecondQuarterRows(): seq<Record>
  {
    [Month2022(4, 200), Month2022(5, 200), Month2022(6, 100)]
  }

  lemma {:induction false} Month2022Sum(x: Record, y: Record, z: Record, q: int)
    requires QuarterIdx(x) == QuarterIdx(y) == QuarterIdx(z)
    ensures QuarterSum([x, y, z], q) ==
      if QuarterIdx(x) == q then x.registrations + y.registrations + z.registrations else 0
  {
    assert [x, y, z][1..] == [y, z];
    assert [y, z][1..] == [z];
    assert [z][1..] == [];
    assert QuarterSum([z], q) == if QuarterIdx(z) == q then z.registrations else 0;
    assert QuarterSum([y, z], q) == if QuarterIdx(z) == q then y.registrations + z.registrations else 0;
  }

  /** 100, 100, 100 in the first quarter of 2022 and 200, 200, 100 in the
      second: the second quarter's rows get (500 - 300) / 300. */
  lemma QuarterOverQuarterExample()
    ensures var g := FirstQuarterRows() + SecondQuarterRows();
      QoqAt(g, QuarterIdx(g[4])) == Some(2.0 / 3.0)
  {
    var g := FirstQuarterRows() + SecondQuarterRows();
    ExampleQuarters(g);
    QoqPreviousCalendarQuarter(g, 4, 0);
    assert Ratio(500, 300) == Some(2.0 / 3.0);
  }

  lemma ExampleQuarters(g: seq<Record>)
    requires g == FirstQuarterRows() + SecondQuarterRows()
    ensures QuarterIdx(g[0]) + 1 == QuarterIdx(g[4])
    ensures QuarterSum(g, QuarterIdx(g[0])) == 300 && QuarterSum(g, QuarterIdx(g[4])) == 500
  {
    var a, b := FirstQuarterRows(), SecondQuarterRows();
    assert g[0] == a[0] && g[4] == b[1];
    ExampleQuarterSum(a, b, QuarterIdx(a[0]));
    ExampleQuarterSum(a, b, QuarterIdx(b[0]));
  }

  lemma ExampleQuarterSum(a: seq<Record>, b: seq<Record>, q: int)
    requires a == FirstQuarterRows() && b == SecondQuarterRows()
    ensures QuarterSum(a + b, q) ==
      (if q == QuarterIdx(a[0]) then 300 else 0) + (if q == QuarterIdx(b[0]) then 500 else 0)
  {
    Month2022Sum(a[0], a[1], a[2], q);
    Month2022Sum(b[0], b[1], b[2], q);
    QuarterSumAppend(a, b, q);
  }
}
