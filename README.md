# Vahan registrations dashboard: the processing engine in Dafny

This project models the data path of a small dashboard of Indian vehicle
registrations. The input is a table of monthly records
`(date, category, manufacturer, registrations)`. The pipeline:

1. normalises dates to the first of the month;
2. applies the sidebar selection (inclusive date range, categories, manufacturers);
3. sums registrations per (date, category) and per (date, manufacturer, category);
4. annotates each row with its calendar quarter, a year-over-year change and
   a quarter-over-quarter change, within its group;
5. picks latest-period rows: the overview snapshot, the headline of each
   category, the last twelve rows of each category tab and the latest row of
   each selected manufacturer.

The loader normalises category names and dispatches on the data source.

Modules, following the program's structure:

| module | file | models |
|---|---|---|
| `Wrappers` | wrappers.dfy | `Option` (pandas' NaN/NaT) and `Result` (raised exceptions) |
| `Calendar` | calendar.dfy | dates, months, quarters (`to_period("M")`, `to_period("Q")`) |
| `Sequences` | sequences.dfy | boolean-mask filtering and sorting of a table's rows |
| `Strings` | strings.dfy | `str.upper` and `str.replace` on `seq<char>` |
| `Tables` | tables.dfy | records, column names, `ensure_month_start` |
| `Ingestion` | ingestion.dfy | `load_local_csv`'s category normalisation, `get_data` |
| `Aggregation` | aggregation.dfy | `total_by_category`, `total_by_manufacturer` (groupby-sum) |
| `Growth` | growth.dfy | `get_group_cols`, `add_growth_rates` |
| `Selection` | selection.dfy | `filter_df`, `latest_quarter`, `summarize_latest` |
| `Dashboard` | dashboard.dfy | app.py's pipeline, headline loop, tab loop and manufacturer snapshot |

Modelling decisions:

- A date is `(year, month, day)` and is ordered by the integer `DateOrd`.
- A growth value is `(v - p) / p` on exact reals.
  - `None` stands for pandas' NaN.
  - A zero denominator also gives `None`. This is a modelling choice: pandas gives inf or NaN there.
- groupby-sum is insertion into a list kept strictly sorted by the group key.
  - The list therefore has one row per key, in ascending key order.
  - Category totals carry no manufacturer (`None`).
- Every `sort_values` is one stable insertion sort, `Sequences.SortBy`.
  - Rows with equal keys therefore keep their input order, and the contracts
    about sorted results fix that order.
  - Pandas' default quicksort is not stable, so on ties the model fixes one of
    the orders pandas may produce (see "## Left out").
- app.py's two `for cat in [...]` loops are methods with `for` loops:
  - `Dashboard.HeadlineColumns`
  - `Dashboard.CategoryTabs`

  Each one is proved against a function of one category.

Two places where the code is not a calendar reading:

- **YoY is positional.** `pct_change(12)` compares a row with the row twelve
  positions earlier in its date-sorted group. That row is not necessarily the
  row of the same month a year earlier.
  - The series 100 in January 2022 and 150 in January 2023 gets no YoY value
    (`Growth.SparseSeriesYoy`).
  - The two readings agree when a group has a row for every month
    (`Growth.PositionalYoyIsCalendar`).
- **QoQ skips missing quarters.** `pct_change()` runs over the quarter sums
  of the quarters present in the group, so a quarter with no rows is skipped.
  It is not treated as a gap. See `Growth.QoqPreviousPresent`.

## Model

| member | source | states |
|---|---|---|
| Calendar.MonthStart | vahan/data_processing.py:8 | the month start is day 1 of the same year and month, and is not later than the date |
| Calendar.QuarterOf | vahan/data_processing.py:21 | the quarter lies in the same year, and its three months contain the date's month |
| Calendar.DateOrdIsChronological | vahan/data_processing.py:20 | the date sort key orders dates by year, then month, then day |
| Calendar.DateOrdInjective | vahan/data_processing.py:20 | two dates with the same sort key are the same date |
| Tables.EnsureMonthStart | vahan/data_processing.py:6-9 | same number of rows; every date becomes day 1 of its own year and month; category, manufacturer, registrations and the grand total are unchanged |
| Tables.EnsureMonthStartIdempotent | vahan/data_processing.py:6-9 | normalising twice equals normalising once |
| Tables.EnsureMonthStartOfMonthStarts | vahan/data_processing.py:6-9 | a table whose dates are all month starts is returned unchanged |
| Strings.Upper | vahan/data_ingestion.py:27 | same length, and every character is the upper case of the character at its position |
| Ingestion.NormalizeCategory | vahan/data_ingestion.py:27 | upper-casing followed by the two alias replacements; its meaning is given by the lemmas below |
| Strings.Replace | vahan/data_ingestion.py:27 | left-to-right replacement of non-overlapping occurrences; `Strings.ReplaceAbsent` and `Strings.ReplaceFirst` together determine it on every string |
| Strings.ReplaceAbsent | vahan/data_ingestion.py:27 | a string without an occurrence of the pattern is returned unchanged |
| Strings.ReplaceFirst | vahan/data_ingestion.py:27 | the first occurrence of the pattern becomes the replacement, the text before it is kept, and replacement continues after it |
| Strings.ReplaceSplit | vahan/data_ingestion.py:27 | on a split that no occurrence straddles, replacing the whole equals replacing each piece |
| Strings.ReplaceAround | vahan/data_ingestion.py:27 | a middle piece that no occurrence can partly overlap is replaced on its own, between the replaced pieces around it |
| Strings.UpperAppend | vahan/data_ingestion.py:27 | upper-casing distributes over concatenation |
| Ingestion.NormalizedCategoryIsCanonical | vahan/data_ingestion.py:27 | a normalised category has no lower-case letter and contains neither "TWO WHEELER" nor "THREE WHEELER" |
| Ingestion.NormalizeCategoryIdempotent | vahan/data_ingestion.py:27 | normalising an already normalised category changes nothing |
| Ingestion.CanonicalCategoriesUnchanged | vahan/data_ingestion.py:27 | "2W", "3W" and "4W" pass through unchanged |
| Ingestion.AliasMatchesInAnyCase | vahan/data_ingestion.py:27 | any spelling whose upper case is "TWO WHEELER", for example "two wheeler", becomes "2W" |
| Ingestion.AliasInsideLongerValue | vahan/data_ingestion.py:27 | aliases are replaced as substrings, in any case: for all a, x, b where the upper cases of a and b hold no alias, a value a + x + b with x upper-casing to "TWO WHEELER" (or "THREE WHEELER") becomes upper(a) + "2W" (or "3W") + upper(b); so "e-three wheeler" becomes "E-3W" |
| Ingestion.NoOtherAlias | vahan/data_ingestion.py:27 | no other alias is recognised: every value whose upper case holds neither alias is only upper-cased |
| Ingestion.FourWheelerUnchanged | vahan/data_ingestion.py:27 | an instance of `Ingestion.NoOtherAlias`: "FOUR WHEELER" is returned unchanged |
| Ingestion.LoadLocalCsv | vahan/data_ingestion.py:24-28 | the parsed rows, in order, with only the category replaced by its normalisation |
| Ingestion.LoadLocalCsvIdempotent | vahan/data_ingestion.py:24-28 | loading an already loaded table changes nothing |
| Ingestion.GetData | vahan/data_ingestion.py:42-90 | ValueError exactly for a source other than "local" and "selenium"; "local" always succeeds; "selenium" gives RuntimeError exactly when Selenium cannot be imported, and a browser error exactly when it imports but the browser session does not start; it succeeds exactly when both hold; every success is the CSV loader's result |
| Aggregation.KeyLtTransitive | vahan/data_processing.py:12 | the groupby key order is transitive |
| Aggregation.KeyLtTotal | vahan/data_processing.py:12 | any two distinct keys are ordered one way or the other |
| Aggregation.Insert | vahan/data_processing.py:12 | adding one row to a strictly sorted summary keeps it strictly sorted, adds its key, adds its registrations to that key's sum only, and raises the total by that amount |
| Aggregation.GroupSum | vahan/data_processing.py:12 | the result is strictly sorted by key, has exactly the input's keys, and gives each key the input's sum for it; the grand total is preserved |
| Aggregation.SumForDistinct | vahan/data_processing.py:12 | in a strictly sorted summary, a key's sum is the registrations of its single row |
| Aggregation.DropManufacturer | vahan/data_processing.py:12 | grouping by (date, category) ignores the manufacturer of every row |
| Aggregation.SumForDropped | vahan/data_processing.py:12 | a (date, category) sum counts every row of that date and category, whatever its manufacturer |
| Aggregation.CategoryRow | vahan/data_processing.py:11-13 | every category row's registrations are the sum over the input rows of its date and category |
| Aggregation.DroppedKeys | vahan/data_processing.py:11-13 | the category keys are exactly the input's (date, category) pairs |
| Aggregation.TotalByCategory | vahan/data_processing.py:11-13 | columns date, category, registrations; one row per distinct (date, category), ascending; each row holds the exact sum for its key; the grand total is preserved |
| Aggregation.SumForKnown | vahan/data_processing.py:16 | a (date, manufacturer, category) sum over the rows with a manufacturer counts every input row with that key |
| Aggregation.MakerRow | vahan/data_processing.py:15-17 | every manufacturer row has a manufacturer, and its registrations are the sum over the input rows with its key |
| Aggregation.KnownKeys | vahan/data_processing.py:15-17 | the manufacturer keys are exactly the keys of the input rows whose manufacturer is present |
| Aggregation.TotalByManufacturer | vahan/data_processing.py:15-17 | one row per (date, manufacturer, category), ascending, with the exact sum; rows with a missing manufacturer are dropped, and the total equals the total of the remaining rows |
| Growth.GroupCols | vahan/data_processing.py:62-63 | the group columns are "category" and "manufacturer", each exactly when the table has it, in that order |
| Growth.KeyFor | vahan/data_processing.py:24 | a row has no group exactly when grouping by manufacturer and its manufacturer is missing; otherwise its key carries the row's value of each group column |
| Growth.SameGroupIffAgree | vahan/data_processing.py:24 | two grouped rows share a group exactly when they agree on every group column |
| Growth.Ratio | vahan/data_processing.py:25 | a change is defined exactly when the earlier value is non-zero, and then change * p == v - p |
| Growth.YoyAt | vahan/data_processing.py:25 | position j has a YoY exactly when j >= 12 and the value 12 positions earlier is non-zero; then it is the change against that value |
| Growth.QuarterSum | vahan/data_processing.py:29 | the sum of the registrations of a group's rows in one quarter; `Growth.QuarterSumAppend` states that it adds over concatenation |
| Growth.InsertQuarter | vahan/data_processing.py:31 | adding a quarter to an increasing list keeps it increasing, and its members are the old members plus the new quarter |
| Growth.PresentQuarters | vahan/data_processing.py:31 | the group's quarters form an increasing list that holds the quarter of every row |
| Growth.PresentWitness | vahan/data_processing.py:31 | every listed quarter is the quarter of some row of the group |
| Growth.QoqAt | vahan/data_processing.py:29-31 | a quarter's change against the previous quarter present in the group; its meaning is given by `Growth.QoqAtPosition` and `Growth.QoqPreviousPresent` |
| Growth.QoqAtPosition | vahan/data_processing.py:29-32 | the k-th present quarter (k > 0) gets (S_k - S_(k-1)) / S_(k-1) of the quarter sums |
| Growth.QoqFirstPresentQuarter | vahan/data_processing.py:31 | rows of the group's first present quarter get no QoQ |
| Growth.QoqPreviousPresent | vahan/data_processing.py:31 | a quarter's QoQ compares it with the previous present quarter, however many empty quarters lie between |
| Growth.QoqPreviousCalendarQuarter | vahan/data_processing.py:31 | when the previous calendar quarter has rows, QoQ compares with that quarter's sum |
| Growth.WithColumn | vahan/data_processing.py:21 | assigning a column adds exactly that column and keeps all others |
| Growth.AnnotateGroup | vahan/data_processing.py:24-32 | one annotated row per row of a group, in order, each keeping its record and getting its calendar quarter; `Growth.GrowthOfGroup` and `Growth.GrowthOfRow` give its growth values |
| Growth.Annotate | vahan/data_processing.py:20-32 | every sorted row keeps its record and gets its calendar quarter; rows outside every group get no YoY and no QoQ |
| Growth.AddGrowthRates | vahan/data_processing.py:19-34 | ValueError "No group keys passed!" exactly for a non-empty table without group columns; otherwise (an empty table included) quarter, yoy and qoq columns are added, the rows are the input stably sorted by date (a permutation), each row gets its own calendar quarter, and rows outside every group get no YoY and no QoQ |
| Growth.AnnotateOfGroup | vahan/data_processing.py:24-32 | the annotated rows of one group are that group's rows annotated on their own |
| Growth.GrowthOfGroup | vahan/data_processing.py:24-32 | a group's rows in the result are the growth annotation of that group's rows alone, sorted by date |
| Growth.GroupIsolation | vahan/data_processing.py:24-32 | two tables with the same rows in a group give that group the same annotated rows, whatever the other groups hold |
| Growth.GrowthOfRow | vahan/data_processing.py:24-32 | a grouped row's YoY is the change against the row 12 positions earlier in its date-sorted group, and its QoQ is its quarter's change within the group |
| Growth.QoqShared | vahan/data_processing.py:29-32 | all rows of one (group, quarter) get the same QoQ |
| Growth.PositionalYoyIsCalendar | vahan/data_processing.py:25 | in a group with a row for every month, the positional YoY equals the change against the same month a year earlier |
| Growth.SparseSeriesYoy | vahan/data_processing.py:25 | with rows only in January 2022 and January 2023, the positional YoY is undefined while the calendar YoY is 0.5 |
| Growth.QuarterOverQuarterExample | vahan/data_processing.py:29-32 | quarter sums of 300 and then 500 give the second quarter's rows a QoQ of 2/3 |
| Selection.FilterDf | vahan/data_processing.py:65-75 | the input rows, in order, that satisfy every active criterion: inclusive start, inclusive end, category in the list, manufacturer in the list |
| Selection.FilterDfMembership | vahan/data_processing.py:65-75 | every kept row is an input row meeting the criteria, and every input row meeting them is kept |
| Selection.FilterDfNoCriteria | vahan/data_processing.py:65-75 | with no criteria the table is returned unchanged |
| Selection.FilterDfEmptyList | vahan/data_processing.py:71-72 | an empty category list disables that criterion instead of selecting nothing |
| Selection.MaxDate | vahan/data_processing.py:83 | no date exactly for an empty table; otherwise a date of some row, and no row is later |
| Selection.LatestQuarter | vahan/data_processing.py:77-79 | no quarter exactly for an empty table; otherwise the quarter of some row, and no row's quarter is later |
| Selection.LatestQuarterOfMaxDate | vahan/data_processing.py:77-79 | the latest quarter is the quarter of the latest date |
| Selection.SummarizeLatest | vahan/data_processing.py:81-85 | the latest date of the category table and exactly its rows at that date (as a multiset), with registrations non-increasing; the manufacturer table is ignored |
| Dashboard.Filtered | app.py:41-54 | the month-normalised loaded rows passed through `filter_df`; `Dashboard.FilteredSelected` states what it keeps |
| Dashboard.OrNone | app.py:54 | an empty selection is passed on as None and a non-empty one unchanged |
| Dashboard.CategoryGrowthSucceeds | app.py:57-58 | add_growth_rates never raises on category totals |
| Dashboard.MakerGrowthSucceeds | app.py:60-61 | add_growth_rates never raises on manufacturer totals |
| Dashboard.Pipeline | app.py:41-61 | both series are exactly add_growth_rates applied to the totals of the filtered, month-normalised rows, so sums and growth values come only from selected rows; both series are permutations of those totals, every row's sum counts only selected rows, and its date, category and manufacturer lie inside the selection |
| Dashboard.FilteredSelected | app.py:54 | every filtered row satisfies the sidebar selection |
| Dashboard.PipelineCategoryRows | app.py:54-58 | every category row's registrations are the sum over the selected rows of its date and category, and the row lies inside the selection |
| Dashboard.PipelineMakerRows | app.py:54-61 | every manufacturer row has a manufacturer, its registrations are the sum over the selected rows of its key, and it lies inside the selection |
| Dashboard.CategorySeries | app.py:70 | one category's rows sorted by date; `Dashboard.CategorySeriesFacts` and `Dashboard.CategorySeriesMembers` state its meaning |
| Dashboard.CategorySeriesFacts | app.py:70 | a category's series is sorted by date and is a permutation of that category's rows |
| Dashboard.CategorySeriesMembers | app.py:70 | a row is in a category's series exactly when it is a row of that category |
| Dashboard.LatestRow | app.py:73 | the last row at the series' latest date; `Dashboard.LatestRowFacts` states its meaning |
| Dashboard.LatestRowFacts | app.py:73 | `tail(1)` at the latest date: a row of the series, no row is later, and no later position holds a row of the same date |
| Dashboard.CategoryHeadline | app.py:69-75 | no headline for a category without rows, otherwise the latest row of its series; `Dashboard.CategoryHeadlineFacts` states its meaning |
| Dashboard.CategoryHeadlineFacts | app.py:69-75 | a category has a headline exactly when it has rows; the headline is one of its rows, at that category's own latest date |
| Dashboard.HeadlineColumns | app.py:69-75 | the loop fills one entry per category, in page order, each being that category's headline |
| Dashboard.CategoryWindow | app.py:92-99 | no table for a category without rows, otherwise the last twelve rows of its series; `Dashboard.CategoryWindowPresence` and `Dashboard.CategoryWindowContents` state its meaning |
| Dashboard.CategoryWindowPresence | app.py:92-95 | a category tab shows a table exactly when the category has rows |
| Dashboard.CategoryWindowContents | app.py:92-99 | the tab shows the last min(12, n) rows of the date-sorted series; they are rows of that category, in date order, and no earlier row is later than any of them |
| Dashboard.CategoryTabs | app.py:90-99 | the loop fills one entry per category, in page order, each being that category's window |
| Dashboard.Shown | app.py:103 | the row mask: a row is shown exactly when it has a manufacturer in the selection |
| Dashboard.DistinctMakers | app.py:106 | the distinct manufacturers, in order of last occurrence (groupby lists them sorted; the final sort makes this harmless): each manufacturer once, every present manufacturer listed, every listed one present |
| Dashboard.LatestPerMaker | app.py:106-108 | one row per listed manufacturer, namely the last row at that manufacturer's latest date |
| Dashboard.LatestOfMaker | app.py:107 | that row belongs to the manufacturer, and none of its rows is later |
| Dashboard.MakerSnapshot | app.py:103-110 | only selected manufacturers; an empty selection gives an empty snapshot; one row per shown manufacturer, at its own latest date; registrations non-increasing |

## Left out

- Reading the CSV file, `pd.to_datetime` parsing and the Selenium, Chrome and CAPTCHA flow are I/O.
  - The parsed rows are a parameter of `Ingestion.LoadLocalCsv`.
  - Whether Selenium can be imported, and whether the browser session starts, are parameters of `Ingestion.GetData`.
  - The scraping is unimplemented in the source and always falls back to the CSV, so it is modelled as that fallback.
- Every Streamlit call (widgets, charts, metrics, `pivot`, percentage formatting) is presentation. The sidebar's values are parameters of `Dashboard.Pipeline`.
- Floating point is not modelled: changes are exact reals, NaN is `None`, and pandas' inf for a zero denominator is `None` too.
- `registrations` is an unbounded `nat`; the int64 width of the column is not modelled.
- Strings.Upper: upper-cases ASCII letters only, because there is no Unicode case mapping in the model.
- Selection.SummarizeLatest: does not fix the order of rows with equal registrations, because pandas' default quicksort is not stable.
- Dashboard.MakerSnapshot: does not fix the order of rows with equal registrations, for the same reason.
- The `value_col` parameter of `add_growth_rates` is always "registrations" in the program, so the model fixes it.
- The commented-out second `add_growth_rates` (vahan/data_processing.py:36-60) is dead code.
- `get_group_cols` also tests `c != "date"`. This test can never fail for "category" or "manufacturer", so the model omits it.
- Growth.AddGrowthRates: pandas' default quicksort fixes no order among rows of the same date, while the model keeps their input order. This matters at app.py:107: when a manufacturer has rows in several categories at its latest date, `tail(1)` in `Dashboard.LatestPerMaker` takes the one its sort placed last, which may differ from the model's.
- Growth.AddGrowthRates: the empty table without group columns is taken to succeed, by the reading that groupby raises "No group keys passed!" only for a table with rows. app.py never reaches this case, because both series carry a category.
- Ingestion.GetData: the browser launch and the first page load (vahan/data_ingestion.py:65-66) raise outside any handler; the model names that failure `BrowserError` and carries no message. The blocking `input()` for the CAPTCHA (vahan/data_ingestion.py:77) and the waits are I/O and are left out.
- Growth.WithColumn: states which columns are present, not their order. A new column is appended, and an existing one keeps its place.
- `st.date_input` can return a single date while the user is still picking a range. The source then fails to unpack it; the model always takes two dates.
- The registrations and growth columns are kept, but the column renaming and selection for display (app.py:97-98, 109) are not tracked.
