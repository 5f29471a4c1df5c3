/** The sidebar selection and the row filter built from it
    (dashboard/app.py lines 49, 54-67). */
module Filtering {
  import opened Options
  import opened Records
  import opened Keys

  /** The chosen years, categories and manufacturers. A NaN `Year` is a value
      of the year column like any other, so it can be selected too. */
  datatype Selection = Selection(
    years: set<Option<int>>,
    categories: set<string>,
    manufacturers: set<string>)

  /** `isin` on year and category, and on manufacturer only when the table
      has a manufacturer column. */
  predicate Keeps(g: Grouping, sel: Selection, r: Record)
  {
    && r.year in sel.years
    && r.category in sel.categories
    && (g == ByCategoryAndManufacturer ==> r.manufacturer in sel.manufacturers)
  }

  /** Boolean-mask indexing: the kept rows, in their original order. */
  function Filter(g: Grouping, sel: Selection, recs: seq<Record>): (kept: seq<Record>)
    ensures |kept| <= |recs|
    ensures forall r :: multiset(kept)[r] == if Keeps(g, sel, r) then multiset(recs)[r] else 0
  {
    if |recs| == 0 then []
    else
      assert recs == [recs[0]] + recs[1..];
      var rest := Filter(g, sel, recs[1..]);
      if Keeps(g, sel, recs[0]) then [recs[0]] + rest else rest
  }

  /** The mask is applied row by row, so filtering keeps the row order. */
  lemma {:induction false} FilterAppend(g: Grouping, sel: Selection, a: seq<Record>, b: seq<Record>)
    ensures Filter(g, sel, a + b) == Filter(g, sel, a) + Filter(g, sel, b)
  {
    if |a| > 0 {
      assert (a + b)[1..] == a[1..] + b;
      FilterAppend(g, sel, a[1..], b);
    } else {
      assert a + b == b;
    }
  }

  /** The widgets' defaults: every year and category present, and every
      manufacturer when there is a manufacturer column. */
  function DefaultSelection(g: Grouping, recs: seq<Record>): Selection
  {
    Selection(
      set r | r in recs :: r.year,
      set r | r in recs :: r.category,
      if g == ByCategoryAndManufacturer then set r | r in recs :: r.manufacturer else {})
  }

  lemma {:induction false} FilterKeepsAll(g: Grouping, sel: Selection, recs: seq<Record>)
    requires forall r :: r in recs ==> Keeps(g, sel, r)
    ensures Filter(g, sel, recs) == recs
  {
    if |recs| > 0 {
      assert recs == [recs[0]] + recs[1..];
      FilterKeepsAll(g, sel, recs[1..]);
    }
  }

  /** With the default selection nothing is filtered out. */
  lemma DefaultDropsNothing(g: Grouping, recs: seq<Record>)
    ensures Filter(g, DefaultSelection(g, recs), recs) == recs
  {
    var sel := DefaultSelection(g, recs);
    forall r | r in recs ensures Keeps(g, sel, r) {
      assert r.year in sel.years;
      assert r.category in sel.categories;
    }
    FilterKeepsAll(g, sel, recs);
  }
}
