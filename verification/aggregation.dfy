/** `groupby(keys, as_index=False)['Registrations'].sum()`
    (dashboard/app.py lines 72, 74, 106, 114). */
module Aggregation {
  import opened Options
  import opened Records
  import opened Keys
  import Sorting

  /** What one record adds to a sum: pandas' `sum` skips NaN. */
  function Value(r: Record): nat
  {
    match r.registrations
    case None => 0
    case Some(n) => n
  }

  /** Reference sum: the registrations of exactly the records whose key is `k`. */
  function SumFor(g: Grouping, p: Period, k: Key, recs: seq<Record>): nat
    decreases |recs|
  {
    if |recs| == 0 then 0
    else
      var last := recs[|recs| - 1];
      SumFor(g, p, k, recs[..|recs| - 1]) + (if KeyOf(g, p, last) == Some(k) then Value(last) else 0)
  }

  /** The registrations of the records that have a time bucket at all. */
  function Counted(p: Period, recs: seq<Record>): nat
    decreases |recs|
  {
    if |recs| == 0 then 0
    else
      var last := recs[|recs| - 1];
      Counted(p, recs[..|recs| - 1]) + (if TimeOf(p, last).Some? then Value(last) else 0)
  }

  /** The keys the records carry, NaN-keyed records excluded. */
  function RecordKeys(g: Grouping, p: Period, recs: seq<Record>): set<Key>
  {
    set r | r in recs && KeyOf(g, p, r).Some? :: KeyOf(g, p, r).value
  }

  /** Sum of the totals of the rows keyed `k`; with distinct keys, that row's total. */
  function TotalFor(rows: seq<AggRow>, k: Key): nat
  {
    if |rows| == 0 then 0
    else (if rows[0].key == k then rows[0].total else 0) + TotalFor(rows[1..], k)
  }

  lemma {:induction false} TotalForMember(rows: seq<AggRow>, i: int)
    requires UniqueKeys(rows) && 0 <= i < |rows|
    ensures TotalFor(rows, rows[i].key) == rows[i].total
  {
    assert rows == [rows[0]] + rows[1..];
    UniqueCons(rows[0], rows[1..]);
    if i == 0 {
      TotalForAbsent(rows[1..], rows[0].key);
    } else {
      TotalForMember(rows[1..], i - 1);
    }
  }

  lemma {:induction false} TotalForAbsent(rows: seq<AggRow>, k: Key)
    requires k !in KeysOf(rows)
    ensures TotalFor(rows, k) == 0
  {
    if |rows| > 0 {
      assert rows[0] in rows;
      assert rows == [rows[0]] + rows[1..];
      KeysOfCons(rows[0], rows[1..]);
      TotalForAbsent(rows[1..], k);
    }
  }

  lemma RecordKeysSnoc(g: Grouping, p: Period, recs: seq<Record>)
    requires |recs| > 0
    ensures var last := recs[|recs| - 1];
      RecordKeys(g, p, recs) == RecordKeys(g, p, recs[..|recs| - 1])
        + (if KeyOf(g, p, last).Some? then {KeyOf(g, p, last).value} else {})
  {
    var init, last := recs[..|recs| - 1], recs[|recs| - 1];
    assert recs == init + [last];
    assert forall r :: r in recs <==> r in init || r == last;
  }

  /** Adds `v` to the row keyed `k`, or appends a new row for `k`. */
  function AddTo(rows: seq<AggRow>, k: Key, v: nat): (r: seq<AggRow>)
    ensures KeysOf(r) == KeysOf(rows) + {k}
    ensures Total(r) == Total(rows) + v
  {
    if |rows| == 0 then
      KeysOfCons(AggRow(k, v), []);
      [AggRow(k, v)]
    else
      assert rows == [rows[0]] + rows[1..];
      KeysOfCons(rows[0], rows[1..]);
      if rows[0].key == k then
        KeysOfCons(AggRow(k, rows[0].total + v), rows[1..]);
        [AggRow(k, rows[0].total + v)] + rows[1..]
      else
        var rest := AddTo(rows[1..], k, v);
        KeysOfCons(rows[0], rest);
        [rows[0]] + rest
  }

  lemma {:induction false} AddToTotalFor(rows: seq<AggRow>, k: Key, v: nat, k': Key)
    ensures TotalFor(AddTo(rows, k, v), k') == TotalFor(rows, k') + (if k' == k then v else 0)
  {
    if |rows| > 0 && rows[0].key != k {
      AddToTotalFor(rows[1..], k, v, k');
    }
  }

  lemma {:induction false} AddToUnique(rows: seq<AggRow>, k: Key, v: nat)
    requires UniqueKeys(rows)
    ensures UniqueKeys(AddTo(rows, k, v))
  {
    if |rows| > 0 {
      assert rows == [rows[0]] + rows[1..];
      UniqueCons(rows[0], rows[1..]);
      if rows[0].key == k {
        UniqueCons(AggRow(k, rows[0].total + v), rows[1..]);
      } else {
        AddToUnique(rows[1..], k, v);
        UniqueCons(rows[0], AddTo(rows[1..], k, v));
      }
    } else {
      UniqueCons(AggRow(k, v), []);
    }
  }

  /** A key not yet present gets a new row at the end, so rows appear in the
      order their keys first occur. */
  lemma {:induction false} AddToNewKey(rows: seq<AggRow>, k: Key, v: nat)
    requires k !in KeysOf(rows)
    ensures AddTo(rows, k, v) == rows + [AggRow(k, v)]
  {
    if |rows| > 0 {
      assert rows[0] in rows;
      assert rows == [rows[0]] + rows[1..];
      KeysOfCons(rows[0], rows[1..]);
      AddToNewKey(rows[1..], k, v);
    }
  }

  /** One pass over the records in order, accumulating one row per key. */
  function GroupSum(g: Grouping, p: Period, recs: seq<Record>): (rows: seq<AggRow>)
    ensures UniqueKeys(rows)
    ensures KeysOf(rows) == RecordKeys(g, p, recs)
    ensures forall k :: TotalFor(rows, k) == SumFor(g, p, k, recs)
    ensures Total(rows) == Counted(p, recs)
    decreases |recs|
  {
    if |recs| == 0 then []
    else
      var last := recs[|recs| - 1];
      RecordKeysSnoc(g, p, recs);
      var rows := GroupSum(g, p, recs[..|recs| - 1]);
      match KeyOf(g, p, last)
      case None => rows
      case Some(k) =>
        AddToUnique(rows, k, Value(last));
        assert forall k' :: TotalFor(AddTo(rows, k, Value(last)), k') == SumFor(g, p, k', recs) by {
          forall k' ensures TotalFor(AddTo(rows, k, Value(last)), k') == SumFor(g, p, k', recs) {
            AddToTotalFor(rows, k, Value(last), k');
          }
        }
        AddTo(rows, k, Value(last))
  }

  /** A record whose key has not occurred before opens a new group at the end. */
  lemma GroupSumNewKey(g: Grouping, p: Period, recs: seq<Record>)
    requires |recs| > 0
    requires KeyOf(g, p, recs[|recs| - 1]).Some?
    requires KeyOf(g, p, recs[|recs| - 1]).value !in RecordKeys(g, p, recs[..|recs| - 1])
    ensures GroupSum(g, p, recs) ==
      GroupSum(g, p, recs[..|recs| - 1]) + [AggRow(KeyOf(g, p, recs[|recs| - 1]).value, Value(recs[|recs| - 1]))]
  {
    var last := recs[|recs| - 1];
    AddToNewKey(GroupSum(g, p, recs[..|recs| - 1]), KeyOf(g, p, last).value, Value(last));
  }

  /** No two records share a key, and every record has one. */
  predicate DistinctKeys(g: Grouping, p: Period, recs: seq<Record>)
  {
    && (forall i :: 0 <= i < |recs| ==> KeyOf(g, p, recs[i]).Some?)
    && (forall i, j :: 0 <= i < j < |recs| ==> KeyOf(g, p, recs[i]) != KeyOf(g, p, recs[j]))
  }

  /** One row per record: what `groupby` yields when no two records share a key. */
  function OwnRows(g: Grouping, p: Period, recs: seq<Record>): seq<AggRow>
    requires forall i :: 0 <= i < |recs| ==> KeyOf(g, p, recs[i]).Some?
  {
    seq(|recs|, i requires 0 <= i < |recs| => AggRow(KeyOf(g, p, recs[i]).value, Value(recs[i])))
  }

  lemma OwnRowsSnoc(g: Grouping, p: Period, recs: seq<Record>)
    requires DistinctKeys(g, p, recs) && |recs| > 0
    ensures var n := |recs| - 1;
      OwnRows(g, p, recs) == OwnRows(g, p, recs[..n]) + [AggRow(KeyOf(g, p, recs[n]).value, Value(recs[n]))]
  {
  }

  lemma LastKeyIsNew(g: Grouping, p: Period, recs: seq<Record>)
    requires DistinctKeys(g, p, recs) && |recs| > 0
    ensures KeyOf(g, p, recs[|recs| - 1]).value !in RecordKeys(g, p, recs[..|recs| - 1])
  {
    var n := |recs| - 1;
    var init := recs[..n];
    forall r | r in init && KeyOf(g, p, r).Some? ensures KeyOf(g, p, r).value != KeyOf(g, p, recs[n]).value {
      var j :| 0 <= j < n && init[j] == r;
      assert KeyOf(g, p, recs[j]) != KeyOf(g, p, recs[n]);
    }
  }

  /** Records with pairwise distinct keys each form a group of their own, in
      record order. */
  lemma {:induction false} GroupSumDistinct(g: Grouping, p: Period, recs: seq<Record>)
    requires DistinctKeys(g, p, recs)
    ensures GroupSum(g, p, recs) == OwnRows(g, p, recs)
    decreases |recs|
  {
    if |recs| > 0 {
      var n := |recs| - 1;
      var init := recs[..n];
      assert DistinctKeys(g, p, init);
      GroupSumDistinct(g, p, init);
      LastKeyIsNew(g, p, recs);
      GroupSumNewKey(g, p, recs);
      OwnRowsSnoc(g, p, recs);
    }
  }

  /** The aggregate table: one row per key present, each holding the sum over
      exactly the records with that key, in `groupby`'s key order. */
  function Aggregate(g: Grouping, p: Period, recs: seq<Record>): (rows: seq<AggRow>)
    ensures UniqueKeys(rows)
    ensures Sorting.Sorted(GroupOrder, rows)
    ensures KeysOf(rows) == RecordKeys(g, p, recs)
    ensures forall i :: 0 <= i < |rows| ==> rows[i].total == SumFor(g, p, rows[i].key, recs)
    ensures Total(rows) == Counted(p, recs)
  {
    var grouped := GroupSum(g, p, recs);
    var rows := Sorting.Sort(GroupOrder, grouped);
    Sorting.SortedIsUnique(GroupOrder, rows);
    KeysOfPermutation(rows, grouped);
    assert forall i :: 0 <= i < |rows| ==> rows[i].total == SumFor(g, p, rows[i].key, recs) by {
      forall i | 0 <= i < |rows| ensures rows[i].total == SumFor(g, p, rows[i].key, recs) {
        assert rows[i] in multiset(grouped);
        var j :| 0 <= j < |grouped| && grouped[j] == rows[i];
        TotalForMember(grouped, j);
      }
    }
    rows
  }

  /** The registrations of the records without a date. */
  function UndatedSum(recs: seq<Record>): nat
    decreases |recs|
  {
    if |recs| == 0 then 0
    else
      var last := recs[|recs| - 1];
      UndatedSum(recs[..|recs| - 1]) + (if last.year.None? then Value(last) else 0)
  }

  /** A record without a date is dropped from the yearly groups but lands in
      the "NaT" quarter, so the quarterly tables count it and the yearly ones do not. */
  lemma {:induction false} QuarterlyCountsUndated(recs: seq<Record>)
    ensures Counted(Quarterly, recs) == Counted(Yearly, recs) + UndatedSum(recs)
    decreases |recs|
  {
    if |recs| > 0 {
      QuarterlyCountsUndated(recs[..|recs| - 1]);
    }
  }
}
