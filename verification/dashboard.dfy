/** The computation behind the dashboard's tables: derived columns, the
    sidebar filter, the yearly totals and the YoY and QoQ growth tables
    (dashboard/app.py lines 40-117). */
module Dashboard {
  import opened Options
  import opened Records
  import opened Keys
  import opened Filtering
  import opened Aggregation
  import opened Growth
  import Sorting

  /** A loaded table: whether it has a `Manufacturer` column, and its rows. */
  datatype Dataset = Dataset(hasManufacturer: bool, rows: seq<RawRow>)

  /** The tables the page shows: yearly totals, YoY growth and QoQ growth. */
  datatype Report = Report(
    grouping: Grouping,
    totals: seq<AggRow>,
    yoy: seq<GrowthRow>,
    qoq: seq<GrowthRow>)

  function GroupingOf(ds: Dataset): Grouping
  {
    if ds.hasManufacturer then ByCategoryAndManufacturer else ByCategory
  }

  /** The records the tables are computed from. */
  function Selected(ds: Dataset, sel: Selection): seq<Record>
  {
    Filter(GroupingOf(ds), sel, DeriveAll(ds.rows))
  }

  /** An empty table shows only a notice; otherwise the three tables. */
  function Run(ds: Dataset, sel: Selection): (r: Option<Report>)
    ensures r.None? <==> |ds.rows| == 0
    ensures r.Some? ==>
      var recs := Selected(ds, sel);
      && r.value.grouping == GroupingOf(ds)
      && UniqueKeys(r.value.totals)
      && KeysOf(r.value.totals) == RecordKeys(GroupingOf(ds), Yearly, recs)
      && Total(r.value.totals) == Counted(Yearly, recs)
      && multiset(Bases(r.value.yoy)) == multiset(r.value.totals)
      && Total(Bases(r.value.qoq)) == Counted(Quarterly, recs)
  {
    if |ds.rows| == 0 then None
    else
      var g := GroupingOf(ds);
      var recs := Selected(ds, sel);
      var totals := Aggregate(g, Yearly, recs);
      var quarterly := Aggregate(g, Quarterly, recs);
      var qoq := ComputeGrowth(quarterly);
      Some(Report(g, totals, ComputeGrowth(totals), qoq))
  }

  /** Every row of a growth table holds the sum over exactly the selected
      records with its key. */
  lemma GrowthRowsAreSums(ds: Dataset, sel: Selection, p: Period, i: int)
    requires |ds.rows| > 0
    ensures var r := Run(ds, sel).value;
      var out := if p == Yearly then r.yoy else r.qoq;
      0 <= i < |out| ==> out[i].total == SumFor(GroupingOf(ds), p, out[i].key, Selected(ds, sel))
  {
    var g, recs := GroupingOf(ds), Selected(ds, sel);
    var rows := Aggregate(g, p, recs);
    var out := ComputeGrowth(rows);
    assert out == (var r := Run(ds, sel).value; if p == Yearly then r.yoy else r.qoq);
    if 0 <= i < |out| {
      var b := Bases(out);
      assert b[i] in multiset(rows);
      var j :| 0 <= j < |rows| && rows[j] == b[i];
    }
  }

  /** What one loaded row contributes to a sum, through its derived record. */
  function RawValue(raw: RawRow): nat
  {
    Value(Derive(raw))
  }

  /** All registrations of a loaded table, and those of its dated rows: sums
      over the raw rows that do not go through group keys, so that
      `CountedDerived` can tie the keyed counts to them. */
  function SumAll(raws: seq<RawRow>): nat
  {
    if |raws| == 0 then 0 else SumAll(raws[..|raws| - 1]) + RawValue(raws[|raws| - 1])
  }

  function SumDated(raws: seq<RawRow>): nat
  {
    if |raws| == 0 then 0
    else SumDated(raws[..|raws| - 1]) + (if raws[|raws| - 1].date.Some? then RawValue(raws[|raws| - 1]) else 0)
  }

  lemma {:induction false} CountedDerived(raws: seq<RawRow>)
    ensures Counted(Yearly, DeriveAll(raws)) == SumDated(raws)
    ensures Counted(Quarterly, DeriveAll(raws)) == SumAll(raws)
    decreases |raws|
  {
    if |raws| > 0 {
      var init := raws[..|raws| - 1];
      assert DeriveAll(raws)[..|raws| - 1] == DeriveAll(init);
      CountedDerived(init);
    }
  }

  /** With the default selection, the yearly tables account for every
      registration of a dated row and the quarterly table for every
      registration of every row, each exactly once. */
  lemma DefaultSelectionConserves(ds: Dataset)
    requires |ds.rows| > 0
    ensures var recs := DeriveAll(ds.rows);
      var r := Run(ds, DefaultSelection(GroupingOf(ds), recs)).value;
      && Total(r.totals) == SumDated(ds.rows)
      && Total(Bases(r.yoy)) == SumDated(ds.rows)
      && Total(Bases(r.qoq)) == SumAll(ds.rows)
  {
    var recs := DeriveAll(ds.rows);
    var sel := DefaultSelection(GroupingOf(ds), recs);
    DefaultDropsNothing(GroupingOf(ds), recs);
    CountedDerived(ds.rows);
  }

  // ----- a worked example -----

  const ScenarioRows: seq<RawRow> := [
    RawRow(Some(Date(2022, 3, 1)), "Car", "", Some(100)),
    RawRow(Some(Date(2023, 3, 1)), "Car", "", Some(150)),
    RawRow(Some(Date(2024, 3, 1)), "Car", "", Some(0))]

  const ScenarioTotals: seq<AggRow> := [
    AggRow(Key(YearKey(2022), "Car", None), 100),
    AggRow(Key(YearKey(2023), "Car", None), 150),
    AggRow(Key(YearKey(2024), "Car", None), 0)]

  lemma ScenarioRecords()
    ensures var recs := DeriveAll(ScenarioRows);
      && |recs| == 3
      && (forall i :: 0 <= i < 3 ==> KeyOf(ByCategory, Yearly, recs[i]) == Some(ScenarioTotals[i].key))
      && (forall i :: 0 <= i < 3 ==> Value(recs[i]) == ScenarioTotals[i].total)
  {
    var recs := DeriveAll(ScenarioRows);
    assert recs[0] == Derive(ScenarioRows[0]) && recs[0].year == Some(2022);
    assert recs[1] == Derive(ScenarioRows[1]) && recs[1].year == Some(2023);
    assert recs[2] == Derive(ScenarioRows[2]) && recs[2].year == Some(2024);
  }

  lemma ScenarioDistinct()
    ensures DistinctKeys(ByCategory, Yearly, DeriveAll(ScenarioRows))
    ensures OwnRows(ByCategory, Yearly, DeriveAll(ScenarioRows)) == ScenarioTotals
  {
    ScenarioRecords();
  }

  lemma ScenarioGrouped()
    ensures GroupSum(ByCategory, Yearly, DeriveAll(ScenarioRows)) == ScenarioTotals
  {
    ScenarioDistinct();
    GroupSumDistinct(ByCategory, Yearly, DeriveAll(ScenarioRows));
  }

  lemma ScenarioSorted(o: SortOrder)
    ensures Sorting.Sorted(o, ScenarioTotals)
  {
    PartitionIrreflexive(Partition(None, "Car"));
  }

  lemma ScenarioAggregated()
    ensures Aggregate(ByCategory, Yearly, DeriveAll(ScenarioRows)) == ScenarioTotals
  {
    var grouped := GroupSum(ByCategory, Yearly, DeriveAll(ScenarioRows));
    ScenarioGrouped();
    ScenarioSorted(GroupOrder);
    Sorting.SortedPermutationsEqual(GroupOrder, Sorting.Sort(GroupOrder, grouped), ScenarioTotals);
  }

  lemma ScenarioAnnotated()
    ensures Annotate(ScenarioTotals, 0).growth == Undefined
    ensures Annotate(ScenarioTotals, 1).growth == Percent(50.0)
    ensures Annotate(ScenarioTotals, 2).growth == Percent(-100.0)
  {
    var part := Partition(None, "Car");
    assert LastTotalIn(ScenarioTotals, part, 1) == Some(100);
    assert LastTotalIn(ScenarioTotals, part, 2) == Some(150);
  }

  lemma ScenarioGrowth()
    ensures var out := ComputeGrowth(ScenarioTotals);
      && |out| == 3
      && out[0].growth == Undefined
      && out[1].growth == Percent(50.0)
      && out[2].growth == Percent(-100.0)
  {
    ScenarioSorted(PartitionOrder);
    GrowthOfSorted(ScenarioTotals);
    ScenarioAnnotated();
  }

  /** Three yearly totals of one category, 100, 150 and 0: no growth for the
      first year, then +50% and -100%. */
  lemma YearOverYearScenario()
    ensures var yoy := Run(Dataset(false, ScenarioRows), DefaultSelection(ByCategory, DeriveAll(ScenarioRows))).value.yoy;
      && |yoy| == 3
      && yoy[0].growth == Undefined
      && yoy[1].growth == Percent(50.0)
      && yoy[2].growth == Percent(-100.0)
  {
    DefaultDropsNothing(ByCategory, DeriveAll(ScenarioRows));
    ScenarioAggregated();
    ScenarioGrowth();
  }
}
