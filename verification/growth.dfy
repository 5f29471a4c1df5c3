/** Sort by `(partition, time)`, `groupby(partition)['Registrations'].shift(1)`
    and the percentage change (dashboard/app.py lines 89-91, 96-98, 107-109,
    115-117). */
module Growth {
  import opened Options
  import opened Keys
  import Records
  import Sorting

  /** A growth cell: a finite percentage, or the float `inf` or `NaN` that the
      division yields when there is no usable previous value. */
  datatype Growth = Percent(value: real) | Infinite | Undefined

  /** An aggregate row with its `Prev_Registrations` and growth columns. */
  datatype GrowthRow = GrowthRow(key: Key, total: nat, prev: Option<nat>, growth: Growth)

  /** `(cur - prev) / prev * 100` in exact arithmetic: NaN when `prev` is NaN,
      `0 / 0` is NaN and a positive count over 0 is `inf`. */
  function GrowthOf(cur: nat, prev: Option<nat>): (g: Growth)
    ensures prev.None? ==> g == Undefined
    ensures prev == Some(0) && cur == 0 ==> g == Undefined
    ensures prev == Some(0) && cur > 0 ==> g == Infinite
    ensures prev.Some? && prev.value > 0 ==>
      g.Percent? && g.value * (prev.value as real) == (cur as real - prev.value as real) * 100.0
  {
    match prev
    case None => Undefined
    case Some(p) =>
      if p == 0 then (if cur == 0 then Undefined else Infinite)
      else Percent((cur as real - p as real) / (p as real) * 100.0)
  }

  lemma ProductSign(a: real, p: real)
    requires p > 0.0
    ensures a * p > 0.0 <==> a > 0.0
    ensures a * p == 0.0 <==> a == 0.0
  {
  }

  /** Counts are never negative, so growth never falls below -100%; its sign
      is the sign of the change, and the current count is recovered from the
      previous count and the percentage. */
  lemma GrowthMeaning(cur: nat, prev: nat)
    requires prev > 0
    ensures var g := GrowthOf(cur, Some(prev)).value;
      && g >= -100.0
      && (g == -100.0 <==> cur == 0)
      && (g > 0.0 <==> cur > prev)
      && (g == 0.0 <==> cur == prev)
      && cur as real == prev as real + g * (prev as real) / 100.0
  {
    var g := GrowthOf(cur, Some(prev)).value;
    var p, x := prev as real, cur as real;
    assert g * p == (x - p) * 100.0;
    assert (g + 100.0) * p == x * 100.0;
    ProductSign(g + 100.0, p);
    ProductSign(g, p);
  }

  /** `shift(1)` within `groupby(partition)`: the total of the nearest earlier
      row (among the first `n`) of the same partition, if there is one. */
  function LastTotalIn(rows: seq<AggRow>, part: Partition, n: nat): Option<nat>
    requires n <= |rows|
  {
    if n == 0 then None
    else if PartitionOf(rows[n - 1].key) == part then Some(rows[n - 1].total)
    else LastTotalIn(rows, part, n - 1)
  }

  /** `LastTotalIn` is missing exactly when no earlier row is of the partition,
      and otherwise is the total of the last such row. */
  lemma {:induction false} LastTotalInMeaning(rows: seq<AggRow>, part: Partition, n: nat)
    requires n <= |rows|
    ensures var r := LastTotalIn(rows, part, n);
      && (r.None? <==> forall j :: 0 <= j < n ==> PartitionOf(rows[j].key) != part)
      && (r.Some? ==> exists j :: (0 <= j < n && PartitionOf(rows[j].key) == part
            && r.value == rows[j].total
            && forall j' :: j < j' < n ==> PartitionOf(rows[j'].key) != part))
  {
    if n > 0 && PartitionOf(rows[n - 1].key) != part {
      LastTotalInMeaning(rows, part, n - 1);
    }
  }

  /** The single pass pandas makes: remember the last total seen per partition.
      A second formulation of the shift, proved equal to the reference
      `LastTotalIn` for every row; `ComputeGrowth` uses the reference. */
  method GroupShift(rows: seq<AggRow>) returns (prev: seq<Option<nat>>)
    ensures |prev| == |rows|
    ensures forall i :: 0 <= i < |rows| ==> prev[i] == LastTotalIn(rows, PartitionOf(rows[i].key), i)
  {
    var last: map<Partition, nat> := map[];
    prev := [];
    var i := 0;
    while i < |rows|
      invariant 0 <= i <= |rows|
      invariant |prev| == i
      invariant forall j :: 0 <= j < i ==> prev[j] == LastTotalIn(rows, PartitionOf(rows[j].key), j)
      invariant forall part :: LastTotalIn(rows, part, i) == if part in last then Some(last[part]) else None
    {
      var part := PartitionOf(rows[i].key);
      var before := if part in last then Some(last[part]) else None;
      prev := prev + [before];
      last := last[part := rows[i].total];
      i := i + 1;
    }
  }

  /** A growth table without its `Prev_Registrations` and growth columns. */
  function Bases(out: seq<GrowthRow>): seq<AggRow>
  {
    seq(|out|, i requires 0 <= i < |out| => AggRow(out[i].key, out[i].total))
  }

  function Annotate(sorted: seq<AggRow>, i: nat): GrowthRow
    requires i < |sorted|
  {
    var prev := LastTotalIn(sorted, PartitionOf(sorted[i].key), i);
    GrowthRow(sorted[i].key, sorted[i].total, prev, GrowthOf(sorted[i].total, prev))
  }

  /** The growth table: the aggregate rows, unchanged, sorted by
      `(partition, time)`, each with its partition-local previous total and
      the growth from it. */
  function ComputeGrowth(rows: seq<AggRow>): (out: seq<GrowthRow>)
    ensures |out| == |rows|
    ensures multiset(Bases(out)) == multiset(rows)
    ensures Total(Bases(out)) == Total(rows)
    ensures UniqueKeys(rows) ==> Sorting.Sorted(PartitionOrder, Bases(out))
    ensures forall i :: 0 <= i < |out| ==>
      out[i].prev == LastTotalIn(Bases(out), PartitionOf(out[i].key), i)
      && out[i].growth == GrowthOf(out[i].total, out[i].prev)
  {
    var sorted := Sorting.Sort(PartitionOrder, rows);
    var out := seq(|sorted|, i requires 0 <= i < |sorted| => Annotate(sorted, i));
    assert Bases(out) == sorted;
    out
  }

  /** On an already partition-sorted table the sort changes nothing. */
  lemma GrowthOfSorted(rows: seq<AggRow>)
    requires Sorting.Sorted(PartitionOrder, rows)
    ensures |ComputeGrowth(rows)| == |rows|
    ensures forall i :: 0 <= i < |rows| ==> ComputeGrowth(rows)[i] == Annotate(rows, i)
  {
    Sorting.SortedIsUnique(PartitionOrder, rows);
    Sorting.SortedPermutationsEqual(PartitionOrder, Sorting.Sort(PartitionOrder, rows), rows);
  }

  // ----- the previous row after the partition sort -----

  /** Rows of one partition are contiguous in a partition-sorted table. */
  lemma Contiguous(s: seq<AggRow>, j: int, k: int, i: int)
    requires Sorting.Sorted(PartitionOrder, s)
    requires 0 <= j < k < i < |s|
    requires PartitionOf(s[j].key) == PartitionOf(s[i].key)
    ensures PartitionOf(s[k].key) == PartitionOf(s[i].key)
  {
    var pj, pk, pi := PartitionOf(s[j].key), PartitionOf(s[k].key), PartitionOf(s[i].key);
    PartitionOrderSplits(s[j].key, s[k].key);
    PartitionOrderSplits(s[k].key, s[i].key);
    if pk != pi {
      assert PartitionLess(pj, pk) && PartitionLess(pk, pj);
      PartitionAsymmetric(pj, pk);
    }
  }

  /** In a partition-sorted table, a row of the same partition with an earlier
      time bucket lies before, and a row of the same partition lying before
      has an earlier time bucket. */
  lemma SamePartitionOrder(s: seq<AggRow>, j: int, i: int)
    requires Sorting.Sorted(PartitionOrder, s)
    requires 0 <= j < |s| && 0 <= i < |s|
    requires PartitionOf(s[j].key) == PartitionOf(s[i].key)
    ensures j < i <==> TimeLess(s[j].key.time, s[i].key.time)
  {
    PartitionIrreflexive(PartitionOf(s[i].key));
    TimeIrreflexive(s[i].key.time);
    if i < j {
      assert TimeLess(s[i].key.time, s[j].key.time);
      if TimeLess(s[j].key.time, s[i].key.time) {
        TimeTransitive(s[i].key.time, s[j].key.time, s[i].key.time);
      }
    }
  }

  lemma PrevInSorted(s: seq<AggRow>, i: int)
    requires Sorting.Sorted(PartitionOrder, s)
    requires 0 <= i < |s|
    ensures LastTotalIn(s, PartitionOf(s[i].key), i)
      == if i > 0 && PartitionOf(s[i - 1].key) == PartitionOf(s[i].key) then Some(s[i - 1].total) else None
  {
    var part := PartitionOf(s[i].key);
    if i > 0 && PartitionOf(s[i - 1].key) != part {
      LastTotalInMeaning(s, part, i);
      forall j | 0 <= j < i ensures PartitionOf(s[j].key) != part {
        if j < i - 1 && PartitionOf(s[j].key) == part {
          Contiguous(s, j, i - 1, i);
        }
      }
    }
  }

  /** `Prev_Registrations` is the total of the row just before in the sorted
      table when that row is of the same partition, and missing otherwise. */
  lemma PrevIsAdjacent(rows: seq<AggRow>, i: int)
    requires UniqueKeys(rows)
    requires 0 <= i < |rows|
    ensures var out := ComputeGrowth(rows);
      && (out[i].prev.Some? <==> i > 0 && PartitionOf(out[i - 1].key) == PartitionOf(out[i].key))
      && (out[i].prev.Some? ==> out[i].prev.value == out[i - 1].total)
  {
    var out := ComputeGrowth(rows);
    PrevInSorted(Bases(out), i);
  }

  lemma EarliestInSorted(s: seq<AggRow>, i: int)
    requires Sorting.Sorted(PartitionOrder, s)
    requires 0 <= i < |s|
    ensures !(i > 0 && PartitionOf(s[i - 1].key) == PartitionOf(s[i].key)) <==>
      forall r :: r in s && PartitionOf(r.key) == PartitionOf(s[i].key) ==> !TimeLess(r.key.time, s[i].key.time)
  {
    var part, t := PartitionOf(s[i].key), s[i].key.time;
    if i > 0 && PartitionOf(s[i - 1].key) == part {
      SamePartitionOrder(s, i - 1, i);
      assert s[i - 1] in s;
    } else {
      forall r | r in s && PartitionOf(r.key) == part ensures !TimeLess(r.key.time, t) {
        var j :| 0 <= j < |s| && s[j] == r;
        SamePartitionOrder(s, j, i);
        if 0 <= j < i - 1 {
          Contiguous(s, j, i - 1, i);
        }
      }
    }
  }

  /** `Prev_Registrations` is missing exactly for the earliest time bucket of
      a partition. */
  lemma PrevMissingIffEarliest(rows: seq<AggRow>, i: int)
    requires UniqueKeys(rows)
    requires 0 <= i < |rows|
    ensures var out := ComputeGrowth(rows);
      out[i].prev.None? <==>
        forall r :: r in rows && PartitionOf(r.key) == PartitionOf(out[i].key)
          ==> !TimeLess(r.key.time, out[i].key.time)
  {
    var out := ComputeGrowth(rows);
    var s := Bases(out);
    assert s[i].key == out[i].key;
    PrevInSorted(s, i);
    EarliestInSorted(s, i);
    SameMembers(rows, s);
  }

  lemma SameMembers(a: seq<AggRow>, b: seq<AggRow>)
    requires multiset(a) == multiset(b)
    ensures forall x :: x in a <==> x in b
  {
    forall x ensures x in a <==> x in b {
      assert x in a <==> x in multiset(a);
      assert x in b <==> x in multiset(b);
    }
  }

  lemma LatestEarlierInSorted(s: seq<AggRow>, i: int, j: int)
    requires Sorting.Sorted(PartitionOrder, s)
    requires 0 < i < |s| && 0 <= j < |s|
    requires PartitionOf(s[i - 1].key) == PartitionOf(s[i].key)
    requires PartitionOf(s[j].key) == PartitionOf(s[i].key) && TimeLess(s[j].key.time, s[i].key.time)
    ensures j == i - 1 || TimeLess(s[j].key.time, s[i - 1].key.time)
  {
    SamePartitionOrder(s, j, i);
    if j < i - 1 {
      SamePartitionOrder(s, j, i - 1);
    }
  }

  lemma LatestEarlierRow(s: seq<AggRow>, i: int)
    requires Sorting.Sorted(PartitionOrder, s)
    requires 0 < i < |s| && PartitionOf(s[i - 1].key) == PartitionOf(s[i].key)
    ensures var part, t, r := PartitionOf(s[i].key), s[i].key.time, s[i - 1];
      && r in s && PartitionOf(r.key) == part && TimeLess(r.key.time, t)
      && forall r' :: r' in s && PartitionOf(r'.key) == part && TimeLess(r'.key.time, t)
           ==> r' == r || TimeLess(r'.key.time, r.key.time)
  {
    SamePartitionOrder(s, i - 1, i);
    forall r' | r' in s && PartitionOf(r'.key) == PartitionOf(s[i].key) && TimeLess(r'.key.time, s[i].key.time)
      ensures r' == s[i - 1] || TimeLess(r'.key.time, s[i - 1].key.time)
    {
      var j :| 0 <= j < |s| && s[j] == r';
      LatestEarlierInSorted(s, i, j);
    }
  }

  /** When present, `Prev_Registrations` is the total of the latest earlier
      time bucket of the same partition, never of another partition. */
  lemma PrevIsLatestEarlier(rows: seq<AggRow>, i: int)
    requires UniqueKeys(rows)
    requires 0 <= i < |rows|
    ensures var out := ComputeGrowth(rows);
      var part, t := PartitionOf(out[i].key), out[i].key.time;
      out[i].prev.Some? ==>
        (exists r :: r in rows && PartitionOf(r.key) == part && TimeLess(r.key.time, t)
          && out[i].prev.value == r.total
          && forall r' :: r' in rows && PartitionOf(r'.key) == part && TimeLess(r'.key.time, t)
               ==> r' == r || TimeLess(r'.key.time, r.key.time))
  {
    var out := ComputeGrowth(rows);
    if out[i].prev.Some? {
      var s := Bases(out);
      assert s[i].key == out[i].key;
      PrevInSorted(s, i);
      LatestEarlierRow(s, i);
      SameMembers(rows, s);
      var r := s[i - 1];
      assert out[i].prev.value == r.total;
    }
  }

  /** The growth table does not depend on the order of the aggregate rows. */
  lemma GrowthIgnoresRowOrder(a: seq<AggRow>, b: seq<AggRow>)
    requires UniqueKeys(a) && UniqueKeys(b)
    requires multiset(a) == multiset(b)
    ensures ComputeGrowth(a) == ComputeGrowth(b)
  {
    Sorting.SortedPermutationsEqual(PartitionOrder, Sorting.Sort(PartitionOrder, a), Sorting.Sort(PartitionOrder, b));
  }

  /** In a quarterly table the undated "NaT" bucket sorts after every dated
      quarter, so when its partition has a dated quarter it does get a
      previous total, taken from a dated quarter, and a growth figure
      against it. */
  lemma UndatedQuarterHasPrev(rows: seq<AggRow>, i: int, j: int, y: int, q: int)
    requires UniqueKeys(rows)
    requires 0 <= i < |rows| && 0 <= j < |rows|
    requires 0 <= y <= 9999 && 1 <= q <= 4
    requires rows[j].key.time == QuarterKey(Records.Label(y, q))
    ensures var out := ComputeGrowth(rows);
      out[i].key.time == QuarterKey(Records.MissingLabel) && PartitionOf(out[i].key) == PartitionOf(rows[j].key)
      ==> && out[i].prev.Some?
          && out[i].growth == GrowthOf(out[i].total, out[i].prev)
          && (exists r :: r in rows && PartitionOf(r.key) == PartitionOf(out[i].key)
                && r.key.time != QuarterKey(Records.MissingLabel) && out[i].prev.value == r.total)
  {
    var out := ComputeGrowth(rows);
    var t := out[i].key.time;
    if t == QuarterKey(Records.MissingLabel) && PartitionOf(out[i].key) == PartitionOf(rows[j].key) {
      Records.LabelBeforeMissing(y, q);
      assert TimeLess(rows[j].key.time, t);
      assert rows[j] in rows;
      PrevMissingIffEarliest(rows, i);
      PrevIsLatestEarlier(rows, i);
      var r :| r in rows && PartitionOf(r.key) == PartitionOf(out[i].key) && TimeLess(r.key.time, t)
        && out[i].prev.value == r.total;
      TimeIrreflexive(t);
    }
  }
}
