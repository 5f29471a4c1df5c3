/** `sort_values` over the key columns of an aggregate table
    (dashboard/app.py lines 89, 96, 107, 115), and the key order in which
    `groupby` emits its groups. */
module Sorting {
  import opened Keys

  /** Strictly ascending: keys increase from every row to every later row. */
  predicate Sorted(o: SortOrder, rows: seq<AggRow>)
  {
    forall i, j :: 0 <= i < j < |rows| ==> KeyLess(o, rows[i].key, rows[j].key)
  }

  lemma SortedIsUnique(o: SortOrder, rows: seq<AggRow>)
    requires Sorted(o, rows)
    ensures UniqueKeys(rows)
  {
    forall i, j | 0 <= i < j < |rows| ensures rows[i].key != rows[j].key {
      KeyAsymmetric(o, rows[i].key, rows[j].key);
    }
  }

  function Insert(o: SortOrder, x: AggRow, rows: seq<AggRow>): (r: seq<AggRow>)
    ensures |r| == |rows| + 1
    ensures multiset(r) == multiset(rows) + multiset{x}
    ensures Total(r) == x.total + Total(rows)
  {
    if |rows| == 0 then [x]
    else if KeyLess(o, x.key, rows[0].key) then [x] + rows
    else
      assert rows == [rows[0]] + rows[1..];
      [rows[0]] + Insert(o, x, rows[1..])
  }

  lemma InsertFront(o: SortOrder, x: AggRow, rows: seq<AggRow>)
    requires Sorted(o, rows) && |rows| > 0
    requires KeyLess(o, x.key, rows[0].key)
    ensures Sorted(o, [x] + rows)
  {
    var r := [x] + rows;
    forall i, j | 0 <= i < j < |r| ensures KeyLess(o, r[i].key, r[j].key) {
      if i == 0 && j > 1 {
        KeyTransitive(o, x.key, rows[0].key, rows[j - 1].key);
      }
    }
  }

  lemma ConsSorted(o: SortOrder, y: AggRow, rows: seq<AggRow>)
    requires Sorted(o, rows)
    requires forall z :: z in rows ==> KeyLess(o, y.key, z.key)
    ensures Sorted(o, [y] + rows)
  {
    var r := [y] + rows;
    forall i, j | 0 <= i < j < |r| ensures KeyLess(o, r[i].key, r[j].key) {
      if i == 0 {
        assert r[j] in rows;
      } else {
        assert r[i] == rows[i - 1] && r[j] == rows[j - 1];
      }
    }
  }

  lemma {:induction false} InsertSorted(o: SortOrder, x: AggRow, rows: seq<AggRow>)
    requires Sorted(o, rows)
    requires x.key !in KeysOf(rows)
    ensures Sorted(o, Insert(o, x, rows))
  {
    if |rows| == 0 {
    } else if KeyLess(o, x.key, rows[0].key) {
      InsertFront(o, x, rows);
    } else {
      assert rows[0] in rows;
      KeyTotal(o, x.key, rows[0].key);
      var tail := rows[1..];
      assert x.key !in KeysOf(tail) by {
        forall y | y in tail ensures y.key != x.key { assert y in rows; }
      }
      assert Sorted(o, tail);
      InsertSorted(o, x, tail);
      var ins := Insert(o, x, tail);
      forall z | z in ins ensures KeyLess(o, rows[0].key, z.key) {
        assert z in multiset(ins);
        if z != x {
          assert z in multiset(tail);
          var m :| 0 <= m < |tail| && tail[m] == z;
          assert rows[m + 1] == z;
        }
      }
      ConsSorted(o, rows[0], ins);
    }
  }

  /** Insertion sort; with distinct keys its result is the one strictly
      ascending arrangement of the rows. */
  function Sort(o: SortOrder, rows: seq<AggRow>): (r: seq<AggRow>)
    ensures |r| == |rows|
    ensures multiset(r) == multiset(rows)
    ensures Total(r) == Total(rows)
    ensures UniqueKeys(rows) ==> Sorted(o, r)
  {
    if |rows| == 0 then []
    else
      assert rows == [rows[0]] + rows[1..];
      var rest := Sort(o, rows[1..]);
      if UniqueKeys(rows) then
        UniqueCons(rows[0], rows[1..]);
        KeysOfPermutation(rest, rows[1..]);
        InsertSorted(o, rows[0], rest);
        Insert(o, rows[0], rest)
      else
        Insert(o, rows[0], rest)
  }

  lemma SortedHeadsEqual(o: SortOrder, a: seq<AggRow>, b: seq<AggRow>)
    requires Sorted(o, a) && Sorted(o, b)
    requires multiset(a) == multiset(b)
    requires |a| > 0
    ensures |b| > 0 && a[0] == b[0]
  {
    assert |b| == |multiset(b)| == |multiset(a)| == |a|;
    assert a[0] in multiset(b) && b[0] in multiset(a);
    var k :| 0 <= k < |b| && b[k] == a[0];
    var m :| 0 <= m < |a| && a[m] == b[0];
    if a[0] != b[0] {
      assert KeyLess(o, a[0].key, a[m].key);
      assert KeyLess(o, b[0].key, b[k].key);
      KeyAsymmetric(o, a[0].key, a[m].key);
    }
  }

  /** Two strictly ascending tables with the same rows are equal: the sorted
      order is fully determined by the rows. */
  lemma {:induction false} SortedPermutationsEqual(o: SortOrder, a: seq<AggRow>, b: seq<AggRow>)
    requires Sorted(o, a) && Sorted(o, b)
    requires multiset(a) == multiset(b)
    ensures a == b
  {
    if |a| == 0 {
      assert |multiset(b)| == 0;
    } else {
      SortedHeadsEqual(o, a, b);
      var a', b' := a[1..], b[1..];
      assert a == [a[0]] + a' && b == [b[0]] + b';
      assert multiset(a') == multiset(a) - multiset{a[0]};
      assert multiset(b') == multiset(b) - multiset{b[0]};
      assert Sorted(o, a') && Sorted(o, b');
      SortedPermutationsEqual(o, a', b');
    }
  }
}
