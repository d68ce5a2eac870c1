/** total_by_category and total_by_manufacturer (vahan/data_processing.py):
    groupby(keys).sum() yields one row per distinct key, in ascending key
    order, holding the exact sum of the registrations with that key; rows
    with a missing key value are dropped. */
module Aggregation {
  import opened Wrappers
  import opened Calendar
  import opened Strings
  import opened Sequences
  import opened Tables

  /** A grouping key. Category totals carry no manufacturer (None), so one
      order serves both groupings: (date, category) and (date, manufacturer, category). */
  datatype AggKey = AggKey(date: Date, manufacturer: Option<string>, category: string)

  function KeyOf(r: Record): AggKey
  {
    AggKey(r.date, r.manufacturer, r.category)
  }

  predicate OptLt(a: Option<string>, b: Option<string>)
  {
    match (a, b)
    case (None, Some(_)) => true
    case (Some(x), Some(y)) => StrLt(x, y)
    case _ => false
  }

  /** groupby's sorted key order: by date, then manufacturer, then category. */
  predicate KeyLt(a: AggKey, b: AggKey)
  {
    DateOrd(a.date) < DateOrd(b.date) ||
    (a.date == b.date &&
      (OptLt(a.manufacturer, b.manufacturer) ||
       (a.manufacturer == b.manufacturer && StrLt(a.category, b.category))))
  }

  lemma KeyLtIrreflexive(a: AggKey)
    ensures !KeyLt(a, a)
  {
    StrLtIrreflexive(a.category);
    if a.manufacturer.Some? {
      StrLtIrreflexive(a.manufacturer.value);
    }
  }

  lemma OptLtTransitive(a: Option<string>, b: Option<string>, c: Option<string>)
    requires OptLt(a, b) && OptLt(b, c)
    ensures OptLt(a, c)
  {
    if a.Some? {
      StrLtTransitive(a.value, b.value, c.value);
    }
  }

  lemma OptLtIrreflexive(a: Option<string>)
    ensures !OptLt(a, a)
  {
    if a.Some? {
      StrLtIrreflexive(a.value);
    }
  }

  lemma KeyLtTransitive(a: AggKey, b: AggKey, c: AggKey)
    requires KeyLt(a, b) && KeyLt(b, c)
    ensures KeyLt(a, c)
  {
    if a.date == b.date && b.date == c.date {
      OptLtIrreflexive(a.manufacturer);
      OptLtIrreflexive(b.manufacturer);
      if a.manufacturer == b.manufacturer && b.manufacturer == c.manufacturer {
        StrLtTransitive(a.category, b.category, c.category);
      } else if OptLt(a.manufacturer, b.manufacturer) && OptLt(b.manufacturer, c.manufacturer) {
        OptLtTransitive(a.manufacturer, b.manufacturer, c.manufacturer);
      }
    }
  }

  lemma KeyLtTotal(a: AggKey, b: AggKey)
    requires a != b
    ensures KeyLt(a, b) || KeyLt(b, a)
  {
    if a.date != b.date {
      if DateOrd(a.date) == DateOrd(b.date) {
        DateOrdInjective(a.date, b.date);
      }
    } else if a.manufacturer != b.manufacturer {
      if a.manufacturer.Some? && b.manufacturer.Some? {
        StrLtTotal(a.manufacturer.value, b.manufacturer.value);
      }
    } else {
      StrLtTotal(a.category, b.category);
    }
  }

  /** Keys strictly ascending: sorted, and no key twice. */
  ghost predicate StrictlySorted(s: seq<Record>)
  {
    forall i, j :: 0 <= i < j < |s| ==> KeyLt(KeyOf(s[i]), KeyOf(s[j]))
  }

  /** The exact sum of the registrations of the rows with key `k`. */
  function SumFor(s: seq<Record>, k: AggKey): nat
  {
    if s == [] then 0
    else (if KeyOf(s[0]) == k then s[0].registrations else 0) + SumFor(s[1..], k)
  }

  ghost function KeySet(s: seq<Record>): set<AggKey>
  {
    set i | 0 <= i < |s| :: KeyOf(s[i])
  }

  lemma KeySetCons(x: Record, s: seq<Record>)
    ensures KeySet([x] + s) == {KeyOf(x)} + KeySet(s)
  {
    var t := [x] + s;
    forall k | k in KeySet(t) ensures k in {KeyOf(x)} + KeySet(s) {
      var i :| 0 <= i < |t| && KeyOf(t[i]) == k;
      if i > 0 {
        assert t[i] == s[i - 1];
      }
    }
    forall k | k in KeySet(s) ensures k in KeySet(t) {
      var i :| 0 <= i < |s| && KeyOf(s[i]) == k;
      assert t[i + 1] == s[i];
    }
    assert KeyOf(t[0]) in KeySet(t);
  }

  /** What adding row `r` to the running sums `acc` must give. */
  ghost predicate Inserted(acc: seq<Record>, r: Record, res: seq<Record>)
  {
    (StrictlySorted(acc) ==> StrictlySorted(res)) &&
    KeySet(res) == KeySet(acc) + {KeyOf(r)} &&
    (forall k :: SumFor(res, k) == SumFor(acc, k) + (if KeyOf(r) == k then r.registrations else 0)) &&
    Total(res) == Total(acc) + r.registrations
  }

  /** Adds one row to the running group sums, keeping them strictly sorted. */
  function Insert(acc: seq<Record>, r: Record): (res: seq<Record>)
    ensures StrictlySorted(acc) ==> StrictlySorted(res)
    ensures KeySet(res) == KeySet(acc) + {KeyOf(r)}
    ensures forall k :: SumFor(res, k) == SumFor(acc, k) + (if KeyOf(r) == k then r.registrations else 0)
    ensures Total(res) == Total(acc) + r.registrations
  {
    if acc == [] || KeyLt(KeyOf(r), KeyOf(acc[0])) then
      InsertInFront(acc, r);
      [r] + acc
    else if KeyOf(acc[0]) == KeyOf(r) then
      var merged := acc[0].(registrations := acc[0].registrations + r.registrations);
      InsertMerged(acc, r);
      [merged] + acc[1..]
    else
      var rest := Insert(acc[1..], r);
      InsertBehind(acc, r, rest);
      [acc[0]] + rest
  }

  lemma InsertInFront(acc: seq<Record>, r: Record)
    requires acc == [] || KeyLt(KeyOf(r), KeyOf(acc[0]))
    ensures Inserted(acc, r, [r] + acc)
  {
    KeySetCons(r, acc);
    assert ([r] + acc)[1..] == acc;
    if acc != [] {
      SortedAfterSmaller(r, acc);
    }
    TotalCons(r, acc);
  }

  lemma InsertMerged(acc: seq<Record>, r: Record)
    requires acc != [] && KeyOf(acc[0]) == KeyOf(r)
    ensures Inserted(acc, r, [acc[0].(registrations := acc[0].registrations + r.registrations)] + acc[1..])
  {
    var merged := acc[0].(registrations := acc[0].registrations + r.registrations);
    var res := [merged] + acc[1..];
    assert acc == [acc[0]] + acc[1..];
    assert forall i :: 0 < i < |acc| ==> res[i] == acc[i];
    KeySetCons(acc[0], acc[1..]);
    KeySetCons(merged, acc[1..]);
    assert res[1..] == acc[1..];
    TotalCons(acc[0], acc[1..]);
    TotalCons(merged, acc[1..]);
    forall k ensures SumFor(res, k) == SumFor(acc, k) + (if KeyOf(r) == k then r.registrations else 0) {
      assert SumFor(res, k) == (if KeyOf(merged) == k then merged.registrations else 0) + SumFor(acc[1..], k);
    }
    SameKeysSorted(acc, res);
  }

  /** Changing registrations only, position by position, keeps the order of the keys. */
  lemma SameKeysSorted(acc: seq<Record>, res: seq<Record>)
    requires |acc| == |res| && forall i :: 0 <= i < |acc| ==> KeyOf(acc[i]) == KeyOf(res[i])
    ensures StrictlySorted(acc) ==> StrictlySorted(res)
  {
    if StrictlySorted(acc) {
      forall i, j | 0 <= i < j < |res| ensures KeyLt(KeyOf(res[i]), KeyOf(res[j])) {
        assert KeyLt(KeyOf(acc[i]), KeyOf(acc[j]));
      }
    }
  }

  lemma InsertBehind(acc: seq<Record>, r: Record, rest: seq<Record>)
    requires acc != [] && KeyOf(acc[0]) != KeyOf(r) && !KeyLt(KeyOf(r), KeyOf(acc[0]))
    requires Inserted(acc[1..], r, rest)
    ensures Inserted(acc, r, [acc[0]] + rest)
  {
    var res := [acc[0]] + rest;
    assert acc == [acc[0]] + acc[1..];
    KeySetCons(acc[0], acc[1..]);
    KeySetCons(acc[0], rest);
    assert res[1..] == rest;
    TotalCons(acc[0], acc[1..]);
    TotalCons(acc[0], rest);
    KeyLtTotal(KeyOf(r), KeyOf(acc[0]));
    InsertKeepsOrder(acc, r, rest);
  }

  lemma SortedAfterSmaller(r: Record, acc: seq<Record>)
    requires acc != [] && KeyLt(KeyOf(r), KeyOf(acc[0]))
    ensures StrictlySorted(acc) ==> StrictlySorted([r] + acc)
  {
    if StrictlySorted(acc) {
      var t := [r] + acc;
      forall i, j | 0 <= i < j < |t| ensures KeyLt(KeyOf(t[i]), KeyOf(t[j])) {
        if i == 0 && j > 1 {
          KeyLtTransitive(KeyOf(r), KeyOf(acc[0]), KeyOf(acc[j - 1]));
        }
      }
    }
  }

  lemma InsertKeepsOrder(acc: seq<Record>, r: Record, rest: seq<Record>)
    requires acc != [] && KeyLt(KeyOf(acc[0]), KeyOf(r))
    requires KeySet(rest) == KeySet(acc[1..]) + {KeyOf(r)}
    requires StrictlySorted(acc[1..]) ==> StrictlySorted(rest)
    ensures StrictlySorted(acc) ==> StrictlySorted([acc[0]] + rest)
  {
    if StrictlySorted(acc) {
      var t := [acc[0]] + rest;
      assert StrictlySorted(acc[1..]);
      forall i, j | 0 <= i < j < |t| ensures KeyLt(KeyOf(t[i]), KeyOf(t[j])) {
        if i == 0 {
          assert KeyOf(t[j]) in KeySet(rest);
          if KeyOf(t[j]) != KeyOf(r) {
            var m :| 0 <= m < |acc[1..]| && KeyOf(acc[1..][m]) == KeyOf(t[j]);
            assert acc[1..][m] == acc[m + 1];
          }
        }
      }
    }
  }

  /** groupby(...).sum() on already projected rows. */
  function GroupSum(rs: seq<Record>): (res: seq<Record>)
    ensures StrictlySorted(res)
    ensures KeySet(res) == KeySet(rs)
    ensures forall k :: SumFor(res, k) == SumFor(rs, k)
    ensures Total(res) == Total(rs)
  {
    if rs == [] then []
    else
      assert rs == [rs[0]] + rs[1..];
      KeySetCons(rs[0], rs[1..]);
      Insert(GroupSum(rs[1..]), rs[0])
  }

  lemma {:induction false} SumForAbsent(s: seq<Record>, k: AggKey)
    requires forall i :: 0 <= i < |s| ==> KeyOf(s[i]) != k
    ensures SumFor(s, k) == 0
  {
    if s != [] {
      SumForAbsent(s[1..], k);
    }
  }

  /** In a strictly sorted result each row is alone with its key, so its
      registrations are the whole sum for that key. */
  lemma {:induction false} SumForDistinct(s: seq<Record>, i: int)
    requires StrictlySorted(s) && 0 <= i < |s|
    ensures SumFor(s, KeyOf(s[i])) == s[i].registrations
  {
    if i == 0 {
      forall j | 0 <= j < |s[1..]| ensures KeyOf(s[1..][j]) != KeyOf(s[0]) {
        assert KeyLt(KeyOf(s[0]), KeyOf(s[j + 1]));
        KeyLtIrreflexive(KeyOf(s[0]));
      }
      SumForAbsent(s[1..], KeyOf(s[0]));
    } else {
      assert KeyLt(KeyOf(s[0]), KeyOf(s[i]));
      KeyLtIrreflexive(KeyOf(s[0]));
      SumForDistinct(s[1..], i - 1);
    }
  }

  /** The rows of a category total carry no manufacturer. */
  function DropManufacturer(rs: seq<Record>): (r: seq<Record>)
    ensures |r| == |rs|
    ensures forall i :: 0 <= i < |r| ==> r[i] == rs[i].(manufacturer := None)
  {
    if rs == [] then [] else [rs[0].(manufacturer := None)] + DropManufacturer(rs[1..])
  }

  /** The reference sum: all rows for this date and category, whatever their manufacturer. */
  function CategorySum(rs: seq<Record>, d: Date, c: string): nat
  {
    if rs == [] then 0
    else (if rs[0].date == d && rs[0].category == c then rs[0].registrations else 0) + CategorySum(rs[1..], d, c)
  }

  /** The reference sum: all rows for this date, manufacturer and category. */
  function MakerSum(rs: seq<Record>, d: Date, m: string, c: string): nat
  {
    if rs == [] then 0
    else
      var here := if rs[0].date == d && rs[0].manufacturer == Some(m) && rs[0].category == c
                  then rs[0].registrations else 0;
      here + MakerSum(rs[1..], d, m, c)
  }

  lemma {:induction false} SumForDropped(rs: seq<Record>, d: Date, c: string)
    ensures SumFor(DropManufacturer(rs), AggKey(d, None, c)) == CategorySum(rs, d, c)
  {
    if rs != [] {
      assert DropManufacturer(rs)[1..] == DropManufacturer(rs[1..]);
      SumForDropped(rs[1..], d, c);
    }
  }

  lemma {:induction false} SumForKnown(rs: seq<Record>, d: Date, m: string, c: string)
    ensures SumFor(Filter(rs, HasManufacturer), AggKey(d, Some(m), c)) == MakerSum(rs, d, m, c)
  {
    if rs != [] {
      SumForKnown(rs[1..], d, m, c);
    }
  }

  lemma {:induction false} TotalDropped(rs: seq<Record>)
    ensures Total(DropManufacturer(rs)) == Total(rs)
  {
    if rs != [] {
      assert DropManufacturer(rs)[1..] == DropManufacturer(rs[1..]);
      TotalDropped(rs[1..]);
    }
  }

  predicate HasManufacturer(r: Record)
  {
    r.manufacturer.Some?
  }

  /** The columns of total_by_category's result. */
  const CategoryColumns := [DateCol, CategoryCol, RegistrationsCol]

  /** The columns of total_by_manufacturer's result. */
  const MakerColumns := [DateCol, ManufacturerCol, CategoryCol, RegistrationsCol]

  lemma InKeySet(s: seq<Record>, i: int)
    requires 0 <= i < |s|
    ensures KeyOf(s[i]) in KeySet(s)
  {
  }

  lemma FromKeySet(s: seq<Record>, k: AggKey) returns (i: int)
    requires k in KeySet(s)
    ensures 0 <= i < |s| && KeyOf(s[i]) == k
  {
    i :| 0 <= i < |s| && KeyOf(s[i]) == k;
  }

  lemma CategoryRow(rs: seq<Record>, rows: seq<Record>, i: int)
    requires rows == GroupSum(DropManufacturer(rs)) && 0 <= i < |rows|
    ensures rows[i].manufacturer == None && rows[i].registrations == CategorySum(rs, rows[i].date, rows[i].category)
  {
    var dropped := DropManufacturer(rs);
    InKeySet(rows, i);
    var m := FromKeySet(dropped, KeyOf(rows[i]));
    assert rows[i].manufacturer == None;
    SumForDistinct(rows, i);
    SumForDropped(rs, rows[i].date, rows[i].category);
  }

  /** The (date, category) keys present in the input, as category-total keys. */
  ghost function CategoryKeys(rs: seq<Record>): set<AggKey>
  {
    set i | 0 <= i < |rs| :: AggKey(rs[i].date, None, rs[i].category)
  }

  lemma DroppedKeys(rs: seq<Record>)
    ensures KeySet(DropManufacturer(rs)) == CategoryKeys(rs)
  {
    var dropped := DropManufacturer(rs);
    forall k | k in KeySet(dropped) ensures k in CategoryKeys(rs) {
      var i := FromKeySet(dropped, k);
    }
    forall k | k in CategoryKeys(rs) ensures k in KeySet(dropped) {
      var i :| 0 <= i < |rs| && AggKey(rs[i].date, None, rs[i].category) == k;
      InKeySet(dropped, i);
    }
  }

  /** total_by_category: one row per distinct (date, category), ascending,
      with the exact sum of that pair's registrations; nothing is lost. */
  function TotalByCategory(rs: seq<Record>): (t: Table)
    ensures t.columns == CategoryColumns
    ensures StrictlySorted(t.rows)
    ensures forall i :: 0 <= i < |t.rows| ==>
      t.rows[i].manufacturer == None &&
      t.rows[i].registrations == CategorySum(rs, t.rows[i].date, t.rows[i].category)
    ensures KeySet(t.rows) == CategoryKeys(rs)
    ensures Total(t.rows) == Total(rs)
  {
    var rows := GroupSum(DropManufacturer(rs));
    TotalDropped(rs);
    forall i | 0 <= i < |rows|
      ensures rows[i].manufacturer == None && rows[i].registrations == CategorySum(rs, rows[i].date, rows[i].category)
    {
      CategoryRow(rs, rows, i);
    }
    DroppedKeys(rs);
    Table(CategoryColumns, rows)
  }

  lemma MakerRow(rs: seq<Record>, rows: seq<Record>, i: int)
    requires rows == GroupSum(Filter(rs, HasManufacturer)) && 0 <= i < |rows|
    ensures rows[i].manufacturer.Some? &&
      rows[i].registrations == MakerSum(rs, rows[i].date, rows[i].manufacturer.value, rows[i].category)
  {
    var known := Filter(rs, HasManufacturer);
    InKeySet(rows, i);
    var m := FromKeySet(known, KeyOf(rows[i]));
    assert HasManufacturer(known[m]);
    SumForDistinct(rows, i);
    SumForKnown(rs, rows[i].date, rows[i].manufacturer.value, rows[i].category);
  }

  /** The (date, manufacturer, category) keys of the input rows that name a manufacturer. */
  ghost function MakerKeys(rs: seq<Record>): set<AggKey>
  {
    set i | 0 <= i < |rs| && rs[i].manufacturer.Some? :: KeyOf(rs[i])
  }

  lemma KnownKeys(rs: seq<Record>)
    ensures KeySet(Filter(rs, HasManufacturer)) == MakerKeys(rs)
  {
    var known := Filter(rs, HasManufacturer);
    forall k | k in KeySet(known) ensures k in MakerKeys(rs) {
      var m := FromKeySet(known, k);
      assert known[m] in rs;
      var i :| 0 <= i < |rs| && rs[i] == known[m];
    }
    forall k | k in MakerKeys(rs) ensures k in KeySet(known) {
      var i :| 0 <= i < |rs| && rs[i].manufacturer.Some? && KeyOf(rs[i]) == k;
      assert rs[i] in known;
      var m :| 0 <= m < |known| && known[m] == rs[i];
      InKeySet(known, m);
    }
  }

  /** total_by_manufacturer: one row per distinct (date, manufacturer,
      category), ascending, with the exact sum; rows without a manufacturer
      are dropped, as groupby drops missing keys. */
  function TotalByManufacturer(rs: seq<Record>): (t: Table)
    ensures t.columns == MakerColumns
    ensures StrictlySorted(t.rows)
    ensures forall i :: 0 <= i < |t.rows| ==>
      t.rows[i].manufacturer.Some? &&
      t.rows[i].registrations == MakerSum(rs, t.rows[i].date, t.rows[i].manufacturer.value, t.rows[i].category)
    ensures KeySet(t.rows) == MakerKeys(rs)
    ensures Total(t.rows) == Total(Filter(rs, HasManufacturer))
  {
    var rows := GroupSum(Filter(rs, HasManufacturer));
    forall i | 0 <= i < |rows|
      ensures rows[i].manufacturer.Some? &&
        rows[i].registrations == MakerSum(rs, rows[i].date, rows[i].manufacturer.value, rows[i].category)
    {
      MakerRow(rs, rows, i);
    }
    KnownKeys(rs);
    Table(MakerColumns, rows)
  }
}
