/** Group keys, their sort orders, and the aggregate rows that carry them
    (dashboard/app.py lines 47-51, 71-74, 89, 96, 106-107, 114-115). */
module Keys {
  import opened Options
  import opened Records
  import Lex

  /** Whether the table has a `Manufacturer` column, decided once per table:
      it adds the manufacturer to every group key and partition. */
  datatype Grouping = ByCategory | ByCategoryAndManufacturer

  /** The time bucket of the year-over-year or the quarter-over-quarter table. */
  datatype Period = Yearly | Quarterly

  /** `Year` is an integer column; `Quarter` is a text column. */
  datatype TimeKey = YearKey(year: int) | QuarterKey(text: string)

  /** A group key `(time, Vehicle Category[, Manufacturer])`; the manufacturer
      is `None` exactly under `ByCategory`. */
  datatype Key = Key(time: TimeKey, category: string, manufacturer: Option<string>)

  /** The non-time part of a key, which `groupby(...).shift(1)` partitions by. */
  datatype Partition = Partition(manufacturer: Option<string>, category: string)

  /** `GroupOrder` is the order `groupby` emits its groups in, `(time, category,
      manufacturer)`; `PartitionOrder` is the `sort_values` order of the growth
      tables, `(manufacturer, category, time)`. */
  datatype SortOrder = GroupOrder | PartitionOrder

  /** One row of `groupby(...)['Registrations'].sum()`. */
  datatype AggRow = AggRow(key: Key, total: nat)

  function PartitionOf(k: Key): Partition
  {
    Partition(k.manufacturer, k.category)
  }

  /** The time bucket a record falls in. A record without a date has a NaN
      `Year`, which `groupby` drops, but the `Quarter` text "NaT", which it keeps. */
  function TimeOf(p: Period, r: Record): Option<TimeKey>
  {
    match p
    case Yearly => if r.year.Some? then Some(YearKey(r.year.value)) else None
    case Quarterly => Some(QuarterKey(r.quarter))
  }

  /** The `groupby` key of a record, or `None` when the record is dropped. */
  function KeyOf(g: Grouping, p: Period, r: Record): Option<Key>
  {
    match TimeOf(p, r)
    case None => None
    case Some(t) =>
      Some(Key(t, r.category, if g == ByCategoryAndManufacturer then Some(r.manufacturer) else None))
  }

  // ----- orders -----

  predicate TimeLess(a: TimeKey, b: TimeKey)
  {
    match (a, b)
    case (YearKey(x), YearKey(y)) => x < y
    case (QuarterKey(x), QuarterKey(y)) => Lex.Less(x, y)
    case (YearKey(_), QuarterKey(_)) => true
    case (QuarterKey(_), YearKey(_)) => false
  }

  predicate OptLess(a: Option<string>, b: Option<string>)
  {
    match (a, b)
    case (None, Some(_)) => true
    case (Some(x), Some(y)) => Lex.Less(x, y)
    case _ => false
  }

  predicate PartitionLess(a: Partition, b: Partition)
  {
    OptLess(a.manufacturer, b.manufacturer)
    || (a.manufacturer == b.manufacturer && Lex.Less(a.category, b.category))
  }

  predicate KeyLess(o: SortOrder, a: Key, b: Key)
  {
    match o
    case GroupOrder =>
      TimeLess(a.time, b.time)
      || (a.time == b.time
          && (Lex.Less(a.category, b.category)
              || (a.category == b.category && OptLess(a.manufacturer, b.manufacturer))))
    case PartitionOrder =>
      PartitionLess(PartitionOf(a), PartitionOf(b))
      || (PartitionOf(a) == PartitionOf(b) && TimeLess(a.time, b.time))
  }

  /** Quarterly buckets compare chronologically under `TimeLess`. */
  lemma QuarterKeysChronological(d1: Date, d2: Date)
    ensures TimeLess(QuarterKey(QuarterLabel(Some(d1))), QuarterKey(QuarterLabel(Some(d2))))
        <==> (d1.year < d2.year || (d1.year == d2.year && QuarterOf(d1.month) < QuarterOf(d2.month)))
  {
    LabelOrderIsChronological(d1.year, QuarterOf(d1.month), d2.year, QuarterOf(d2.month));
  }

  lemma TimeIrreflexive(a: TimeKey)
    ensures !TimeLess(a, a)
  {
    if a.QuarterKey? { Lex.Irreflexive(a.text); }
  }

  lemma TimeTransitive(a: TimeKey, b: TimeKey, c: TimeKey)
    requires TimeLess(a, b) && TimeLess(b, c)
    ensures TimeLess(a, c)
  {
    if a.QuarterKey? { Lex.Transitive(a.text, b.text, c.text); }
  }

  lemma TimeTotal(a: TimeKey, b: TimeKey)
    requires a != b
    ensures TimeLess(a, b) || TimeLess(b, a)
  {
    if a.QuarterKey? && b.QuarterKey? { Lex.Total(a.text, b.text); }
  }

  lemma OptIrreflexive(a: Option<string>)
    ensures !OptLess(a, a)
  {
    if a.Some? { Lex.Irreflexive(a.value); }
  }

  lemma OptTransitive(a: Option<string>, b: Option<string>, c: Option<string>)
    requires OptLess(a, b) && OptLess(b, c)
    ensures OptLess(a, c)
  {
    if a.Some? { Lex.Transitive(a.value, b.value, c.value); }
  }

  lemma OptTotal(a: Option<string>, b: Option<string>)
    requires a != b
    ensures OptLess(a, b) || OptLess(b, a)
  {
    if a.Some? && b.Some? { Lex.Total(a.value, b.value); }
  }

  lemma PartitionIrreflexive(a: Partition)
    ensures !PartitionLess(a, a)
  {
    OptIrreflexive(a.manufacturer);
    Lex.Irreflexive(a.category);
  }

  lemma PartitionTransitive(a: Partition, b: Partition, c: Partition)
    requires PartitionLess(a, b) && PartitionLess(b, c)
    ensures PartitionLess(a, c)
  {
    if OptLess(a.manufacturer, b.manufacturer) && OptLess(b.manufacturer, c.manufacturer) {
      OptTransitive(a.manufacturer, b.manufacturer, c.manufacturer);
    } else if a.manufacturer == b.manufacturer == c.manufacturer {
      Lex.Transitive(a.category, b.category, c.category);
    }
  }

  lemma PartitionTotal(a: Partition, b: Partition)
    requires a != b
    ensures PartitionLess(a, b) || PartitionLess(b, a)
  {
    if a.manufacturer != b.manufacturer {
      OptTotal(a.manufacturer, b.manufacturer);
    } else {
      Lex.Total(a.category, b.category);
    }
  }

  lemma PartitionAsymmetric(a: Partition, b: Partition)
    requires PartitionLess(a, b)
    ensures !PartitionLess(b, a) && a != b
  {
    if PartitionLess(b, a) {
      PartitionTransitive(a, b, a);
    }
    PartitionIrreflexive(a);
  }

  lemma KeyIrreflexive(o: SortOrder, a: Key)
    ensures !KeyLess(o, a, a)
  {
    TimeIrreflexive(a.time);
    OptIrreflexive(a.manufacturer);
    Lex.Irreflexive(a.category);
    PartitionIrreflexive(PartitionOf(a));
  }

  lemma KeyTransitive(o: SortOrder, a: Key, b: Key, c: Key)
    requires KeyLess(o, a, b) && KeyLess(o, b, c)
    ensures KeyLess(o, a, c)
  {
    match o
    case GroupOrder =>
      if TimeLess(a.time, b.time) && TimeLess(b.time, c.time) {
        TimeTransitive(a.time, b.time, c.time);
      } else if a.time == b.time == c.time {
        if Lex.Less(a.category, b.category) && Lex.Less(b.category, c.category) {
          Lex.Transitive(a.category, b.category, c.category);
        } else if a.category == b.category == c.category {
          OptTransitive(a.manufacturer, b.manufacturer, c.manufacturer);
        }
      }
    case PartitionOrder =>
      var pa, pb, pc := PartitionOf(a), PartitionOf(b), PartitionOf(c);
      if PartitionLess(pa, pb) && PartitionLess(pb, pc) {
        PartitionTransitive(pa, pb, pc);
      } else if pa == pb == pc {
        TimeTransitive(a.time, b.time, c.time);
      }
  }

  lemma KeyTotal(o: SortOrder, a: Key, b: Key)
    requires a != b
    ensures KeyLess(o, a, b) || KeyLess(o, b, a)
  {
    if a.time != b.time { TimeTotal(a.time, b.time); }
    if a.category != b.category { Lex.Total(a.category, b.category); }
    if a.manufacturer != b.manufacturer { OptTotal(a.manufacturer, b.manufacturer); }
    if PartitionOf(a) != PartitionOf(b) { PartitionTotal(PartitionOf(a), PartitionOf(b)); }
  }

  lemma KeyAsymmetric(o: SortOrder, a: Key, b: Key)
    requires KeyLess(o, a, b)
    ensures !KeyLess(o, b, a) && a != b
  {
    if KeyLess(o, b, a) {
      KeyTransitive(o, a, b, a);
    }
    KeyIrreflexive(o, a);
  }

  /** Under the partition order, partitions never decrease and, within one
      partition, time increases. */
  lemma PartitionOrderSplits(a: Key, b: Key)
    requires KeyLess(PartitionOrder, a, b)
    ensures PartitionLess(PartitionOf(a), PartitionOf(b))
         || (PartitionOf(a) == PartitionOf(b) && TimeLess(a.time, b.time))
  {
  }

  // ----- aggregate tables -----

  function KeysOf(rows: seq<AggRow>): set<Key>
  {
    set x | x in rows :: x.key
  }

  predicate UniqueKeys(rows: seq<AggRow>)
  {
    forall i, j :: 0 <= i < j < |rows| ==> rows[i].key != rows[j].key
  }

  /** Sum of the `Registrations` column of a table. */
  function Total(rows: seq<AggRow>): nat
  {
    if |rows| == 0 then 0 else rows[0].total + Total(rows[1..])
  }

  lemma KeysOfCons(x: AggRow, rows: seq<AggRow>)
    ensures KeysOf([x] + rows) == {x.key} + KeysOf(rows)
  {
    var s := [x] + rows;
    forall k | k in KeysOf(s) ensures k in {x.key} + KeysOf(rows) {
      var y :| y in s && y.key == k;
      if y != x { assert y in rows; }
    }
    forall k | k in KeysOf(rows) ensures k in KeysOf(s) {
      var y :| y in rows && y.key == k;
      assert y in s;
    }
  }

  lemma KeysOfPermutation(a: seq<AggRow>, b: seq<AggRow>)
    requires multiset(a) == multiset(b)
    ensures KeysOf(a) == KeysOf(b)
  {
    forall k | k in KeysOf(a) ensures k in KeysOf(b) {
      var y :| y in a && y.key == k;
      assert y in multiset(b);
    }
    forall k | k in KeysOf(b) ensures k in KeysOf(a) {
      var y :| y in b && y.key == k;
      assert y in multiset(a);
    }
  }

  lemma UniqueCons(x: AggRow, rows: seq<AggRow>)
    ensures UniqueKeys([x] + rows) <==> (x.key !in KeysOf(rows) && UniqueKeys(rows))
  {
    var s := [x] + rows;
    if UniqueKeys(s) {
      forall y | y in rows ensures y.key != x.key {
        var j :| 0 <= j < |rows| && rows[j] == y;
        assert s[j + 1] == y && s[0] == x;
        assert s[0].key != s[j + 1].key;
      }
      forall i, j | 0 <= i < j < |rows| ensures rows[i].key != rows[j].key {
        assert s[i + 1].key != s[j + 1].key;
      }
    }
    if x.key !in KeysOf(rows) && UniqueKeys(rows) {
      forall i, j | 0 <= i < j < |s| ensures s[i].key != s[j].key {
        if i == 0 { assert s[j] in rows; }
        else { assert s[i] == rows[i - 1] && s[j] == rows[j - 1]; }
      }
    }
  }
}
