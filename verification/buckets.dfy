/**
 Time bucketing of the filtered rows for the trend chart. Each granularity
 maps a date to the date pandas labels its bin with, which is the LAST day
 of the period: the day itself, the Sunday ending its Monday-to-Sunday week,
 the month end, the quarter end (quarters ending in March, June, September
 and December) or December 31. Rows with the same key are summed.
 */
module Buckets {
  import opened Calendar
  import opened Records

  datatype Granularity = Day | Week | Month | Quarter | Year

  /** Index of the Monday-to-Sunday week a date falls in; week 0 starts on 0001-01-01. */
  function WeekIndex(d: Date): int
    requires Valid(d)
  {
    (Ordinal(d) - 1) / 7
  }

  /** Moving forward to the end of the week keeps the week index and lands on a Sunday. */
  lemma WeekEnd(d: Date, k: Date)
    requires Valid(d) && Valid(k) && Ordinal(k) == Ordinal(d) + (6 - Weekday(d))
    ensures WeekIndex(k) == WeekIndex(d) && Weekday(k) == 6
  {
    WeekEndArithmetic(Ordinal(d));
  }

  /** The day after a Sunday starts the next week. */
  lemma NextWeek(k: Date)
    requires Valid(k) && Weekday(k) == 6
    ensures WeekIndex(NextDay(k)) == WeekIndex(k) + 1
  {
    SundayArithmetic(Ordinal(k));
    assert Ordinal(NextDay(k)) == Ordinal(k) + 1;
  }

  /** Sundays are the ordinals 7, 14, 21, ...: the last day of each week. */
  lemma SundayOrdinal(k: Date)
    requires Valid(k) && Weekday(k) == 6
    ensures Ordinal(k) == 7 * WeekIndex(k) + 7
  {
    SundayArithmetic(Ordinal(k));
  }

  lemma WeekEndArithmetic(o: int)
    ensures ((o + (6 - WeekdayOfOrdinal(o))) - 1) / 7 == (o - 1) / 7
    ensures WeekdayOfOrdinal(o + (6 - WeekdayOfOrdinal(o))) == 6
  {
    var q, r := (o - 1) / 7, (o - 1) % 7;
    DivModSeven(o + 6, q + 1, r);
    DivModSeven(o + (6 - r) - 1, q, 6);
    DivModSeven(o + (6 - r) + 6, q + 1, 6);
  }

  lemma SundayArithmetic(o: int)
    requires WeekdayOfOrdinal(o) == 6
    ensures o == 7 * ((o - 1) / 7) + 7
    ensures (o + 1 - 1) / 7 == (o - 1) / 7 + 1
  {
    var q := (o + 6) / 7;
    DivModSeven(o + 6, q, 6);
    DivModSeven(o - 1, q - 1, 6);
    DivModSeven(o, q, 0);
  }

  /** a and b fall in the same period of the granularity. */
  predicate SamePeriod(g: Granularity, a: Date, b: Date)
    requires Valid(a) && Valid(b)
  {
    match g
    case Day => a == b
    case Week => WeekIndex(a) == WeekIndex(b)
    case Month => SameMonth(a, b)
    case Quarter => a.year == b.year && QuarterOf(a.month) == QuarterOf(b.month)
    case Year => a.year == b.year
  }

  /** The date that labels d's bucket. */
  function BucketKey(g: Granularity, d: Date): (k: Date)
    requires Valid(d)
    ensures Valid(k) && Ordinal(d) <= Ordinal(k)
    ensures SamePeriod(g, d, k)
    ensures !SamePeriod(g, k, NextDay(k))
    ensures g == Week ==> Weekday(k) == 6
  {
    match g
    case Day => d
    case Week =>
      var k := AddDays(d, 6 - Weekday(d));
      WeekEnd(d, k);
      NextWeek(k);
      k
    case Month => LastOfMonth(d)
    case Quarter =>
      var m := 3 * QuarterOf(d.month);
      Date(d.year, m, DaysInMonth(d.year, m))
    case Year => Date(d.year, 12, 31)
  }

  /** Two dates share a bucket exactly when they fall in the same period. */
  lemma BucketKeyIdentifiesPeriod(g: Granularity, a: Date, b: Date)
    requires Valid(a) && Valid(b)
    ensures BucketKey(g, a) == BucketKey(g, b) <==> SamePeriod(g, a, b)
  {
    if g == Week {
      var ka, kb := BucketKey(g, a), BucketKey(g, b);
      SundayOrdinal(ka);
      SundayOrdinal(kb);
      OrdinalOrder(ka, kb);
    }
  }

  /** A bucket key is its own key: re-bucketing the output changes nothing. */
  lemma BucketKeyIdempotent(g: Granularity, d: Date)
    requires Valid(d)
    ensures BucketKey(g, BucketKey(g, d)) == BucketKey(g, d)
  {
    var k := BucketKey(g, d);
    BucketKeyIdentifiesPeriod(g, d, k);
    BucketKeyIdentifiesPeriod(g, k, d);
  }

  // ---------------------------------------------------------------------------
  // Grouping rows into buckets

  datatype Bucket = Bucket(key: Date, total: real)

  predicate ValidDates(rows: seq<Row>) {
    forall i :: 0 <= i < |rows| ==> Valid(rows[i].date)
  }

  /** Bucket keys are valid and strictly increasing: no duplicate periods. */
  predicate Ascending(bs: seq<Bucket>) {
    && (forall i :: 0 <= i < |bs| ==> Valid(bs[i].key))
    && (forall i, j :: 0 <= i < j < |bs| ==> Ordinal(bs[i].key) < Ordinal(bs[j].key))
  }

  function Keys(bs: seq<Bucket>): set<Date> {
    set i | 0 <= i < |bs| :: bs[i].key
  }

  /** Total recorded under key k (0 when k has no bucket). */
  function TotalAt(bs: seq<Bucket>, k: Date): real {
    if |bs| == 0 then 0.0
    else (if bs[0].key == k then bs[0].total else 0.0) + TotalAt(bs[1..], k)
  }

  function SumTotals(bs: seq<Bucket>): real {
    if |bs| == 0 then 0.0 else bs[0].total + SumTotals(bs[1..])
  }

  /** Sum of the values of the rows whose bucket key is k. */
  function PeriodSum(g: Granularity, rows: seq<Row>, k: Date): real
    requires ValidDates(rows)
  {
    if |rows| == 0 then 0.0
    else
      var last := rows[|rows| - 1];
      PeriodSum(g, rows[..|rows| - 1], k) + (if BucketKey(g, last.date) == k then last.value else 0.0)
  }

  lemma {:induction false} TotalAtAbsent(bs: seq<Bucket>, k: Date)
    requires k !in Keys(bs)
    ensures TotalAt(bs, k) == 0.0
  {
    if |bs| > 0 {
      assert Keys(bs[1..]) <= Keys(bs);
      TotalAtAbsent(bs[1..], k);
    }
  }

  lemma KeysOfCons(b: Bucket, bs: seq<Bucket>)
    ensures Keys([b] + bs) == {b.key} + Keys(bs)
  {
    var s := [b] + bs;
    assert s[0].key == b.key;
    forall x | x in Keys(s) ensures x in {b.key} + Keys(bs) {
      var i :| 0 <= i < |s| && s[i].key == x;
      if i > 0 {
        assert bs[i - 1].key == x;
      }
    }
    forall x | x in Keys(bs) ensures x in Keys(s) {
      var i :| 0 <= i < |bs| && bs[i].key == x;
      assert s[i + 1].key == x;
    }
  }

  /** Putting a bucket with a smaller key in front keeps a list ascending. */
  lemma AscendingBucketsCons(b: Bucket, bs: seq<Bucket>)
    requires Valid(b.key) && Ascending(bs)
    requires |bs| > 0 ==> Ordinal(b.key) < Ordinal(bs[0].key)
    ensures Ascending([b] + bs)
  {
    var r := [b] + bs;
    forall i, j | 0 <= i < j < |r| ensures Ordinal(r[i].key) < Ordinal(r[j].key) {
      if i > 0 {
        assert r[i] == bs[i - 1] && r[j] == bs[j - 1];
      } else if j > 1 {
        assert r[j] == bs[j - 1];
      }
    }
  }

  /** Adds v to the bucket for k, opening it in its place if absent. */
  function Insert(bs: seq<Bucket>, k: Date, v: real): (r: seq<Bucket>)
    requires Ascending(bs) && Valid(k)
    ensures Ascending(r)
    ensures |r| > 0 && r[0].key == if |bs| == 0 || Ordinal(k) < Ordinal(bs[0].key) then k else bs[0].key
  {
    if |bs| == 0 then
      [Bucket(k, v)]
    else if bs[0].key == k then
      AscendingBucketsCons(Bucket(k, bs[0].total + v), bs[1..]);
      [Bucket(k, bs[0].total + v)] + bs[1..]
    else if Ordinal(k) < Ordinal(bs[0].key) then
      AscendingBucketsCons(Bucket(k, v), bs);
      [Bucket(k, v)] + bs
    else
      OrdinalOrder(k, bs[0].key);
      var rest := Insert(bs[1..], k, v);
      AscendingBucketsCons(bs[0], rest);
      [bs[0]] + rest
  }

  /** Inserting under k adds k to the keys and nothing else. */
  lemma {:induction false} InsertKeys(bs: seq<Bucket>, k: Date, v: real)
    requires Ascending(bs) && Valid(k)
    ensures Keys(Insert(bs, k, v)) == Keys(bs) + {k}
  {
    var r := Insert(bs, k, v);
    if |bs| == 0 {
      assert r[0].key == k;
    } else if bs[0].key == k {
      KeysOfCons(bs[0], bs[1..]);
      KeysOfCons(r[0], bs[1..]);
      assert bs == [bs[0]] + bs[1..];
    } else if Ordinal(k) < Ordinal(bs[0].key) {
      KeysOfCons(r[0], bs);
    } else {
      InsertKeys(bs[1..], k, v);
      KeysOfCons(bs[0], bs[1..]);
      KeysOfCons(bs[0], Insert(bs[1..], k, v));
      assert bs == [bs[0]] + bs[1..];
    }
  }

  /** Inserting adds v to k's total and leaves every other key's total alone. */
  lemma {:induction false} InsertTotals(bs: seq<Bucket>, k: Date, v: real, x: Date)
    requires Ascending(bs) && Valid(k)
    ensures TotalAt(Insert(bs, k, v), x) == TotalAt(bs, x) + (if x == k then v else 0.0)
  {
    var r := Insert(bs, k, v);
    if |bs| == 0 {
    } else if bs[0].key == k {
      assert r[1..] == bs[1..];
    } else if Ordinal(k) < Ordinal(bs[0].key) {
      assert r[1..] == bs;
      forall j | 0 <= j < |bs| ensures bs[j].key != k {
        assert Ordinal(bs[0].key) <= Ordinal(bs[j].key);
      }
      assert k !in Keys(bs);
      TotalAtAbsent(bs, k);
    } else {
      assert r[1..] == Insert(bs[1..], k, v);
      InsertTotals(bs[1..], k, v, x);
    }
  }

  /** Inserting adds v to the grand total. */
  lemma {:induction false} InsertSum(bs: seq<Bucket>, k: Date, v: real)
    requires Ascending(bs) && Valid(k)
    ensures SumTotals(Insert(bs, k, v)) == SumTotals(bs) + v
  {
    var r := Insert(bs, k, v);
    if |bs| == 0 {
    } else if bs[0].key == k {
      assert r[1..] == bs[1..];
    } else if Ordinal(k) < Ordinal(bs[0].key) {
      assert r[1..] == bs;
    } else {
      assert r[1..] == Insert(bs[1..], k, v);
      InsertSum(bs[1..], k, v);
    }
  }

  /** The rows' bucket keys, in row order. */
  function RowKeyList(g: Granularity, rows: seq<Row>): (ks: seq<Date>)
    requires ValidDates(rows)
    ensures |ks| == |rows|
    ensures forall i :: 0 <= i < |rows| ==> ks[i] == BucketKey(g, rows[i].date)
  {
    if |rows| == 0 then []
    else RowKeyList(g, rows[..|rows| - 1]) + [BucketKey(g, rows[|rows| - 1].date)]
  }

  /** The keys the rows' dates map to. */
  function RowKeys(g: Granularity, rows: seq<Row>): set<Date>
    requires ValidDates(rows)
  {
    set k | k in RowKeyList(g, rows)
  }

  lemma RowKeysSnoc(g: Granularity, rows: seq<Row>)
    requires ValidDates(rows) && |rows| > 0
    ensures RowKeys(g, rows) == RowKeys(g, rows[..|rows| - 1]) + {BucketKey(g, rows[|rows| - 1].date)}
  {
  }

  /** A date is a key of the rows exactly when some row's date maps to it. */
  lemma RowKeysMembership(g: Granularity, rows: seq<Row>, k: Date)
    requires ValidDates(rows)
    ensures k in RowKeys(g, rows) <==> exists i :: 0 <= i < |rows| && BucketKey(g, rows[i].date) == k
  {
    var ks := RowKeyList(g, rows);
    if k in RowKeys(g, rows) {
      var i :| 0 <= i < |ks| && ks[i] == k;
      assert BucketKey(g, rows[i].date) == k;
    }
  }

  /** Group-and-sum of rows by bucket key (the pandas Grouper): one bucket
      per period that has rows, in ascending order of date. */
  function Aggregate(g: Granularity, rows: seq<Row>): (bs: seq<Bucket>)
    requires ValidDates(rows)
    ensures Ascending(bs)
    ensures Keys(bs) == RowKeys(g, rows)
  {
    if |rows| == 0 then []
    else
      var init := rows[..|rows| - 1];
      var last := rows[|rows| - 1];
      RowKeysSnoc(g, rows);
      InsertKeys(Aggregate(g, init), BucketKey(g, last.date), last.value);
      Insert(Aggregate(g, init), BucketKey(g, last.date), last.value)
  }

  /** The bucket for key k holds the sum of the values of the rows in k's period. */
  lemma {:induction false} AggregateTotals(g: Granularity, rows: seq<Row>, k: Date)
    requires ValidDates(rows)
    ensures TotalAt(Aggregate(g, rows), k) == PeriodSum(g, rows, k)
  {
    if |rows| > 0 {
      var init := rows[..|rows| - 1];
      var last := rows[|rows| - 1];
      AggregateTotals(g, init, k);
      InsertTotals(Aggregate(g, init), BucketKey(g, last.date), last.value, k);
    }
  }

  /** Conservation: the buckets add up to the sum of all row values. */
  lemma {:induction false} AggregateConserves(g: Granularity, rows: seq<Row>)
    requires ValidDates(rows)
    ensures SumTotals(Aggregate(g, rows)) == SumValues(rows)
  {
    if |rows| > 0 {
      var init := rows[..|rows| - 1];
      var last := rows[|rows| - 1];
      AggregateConserves(g, init);
      InsertSum(Aggregate(g, init), BucketKey(g, last.date), last.value);
    }
  }

  /** With distinct keys, a bucket's total is what TotalAt reports for its key. */
  lemma {:induction false} TotalAtBucket(bs: seq<Bucket>, i: int)
    requires Ascending(bs) && 0 <= i < |bs|
    ensures TotalAt(bs, bs[i].key) == bs[i].total
  {
    if i == 0 {
      forall j | 0 <= j < |bs[1..]| ensures bs[1..][j].key != bs[0].key {
        assert Ordinal(bs[0].key) < Ordinal(bs[j + 1].key);
      }
      assert bs[0].key !in Keys(bs[1..]);
      TotalAtAbsent(bs[1..], bs[0].key);
    } else {
      assert Ordinal(bs[0].key) < Ordinal(bs[i].key);
      TotalAtBucket(bs[1..], i - 1);
    }
  }

  /** Every bucket of the aggregate holds exactly the sum of its period's rows. */
  lemma BucketTotals(g: Granularity, rows: seq<Row>)
    requires ValidDates(rows)
    ensures var bs := Aggregate(g, rows);
            forall i :: 0 <= i < |bs| ==> bs[i].total == PeriodSum(g, rows, bs[i].key)
  {
    var bs := Aggregate(g, rows);
    forall i | 0 <= i < |bs| ensures bs[i].total == PeriodSum(g, rows, bs[i].key) {
      TotalAtBucket(bs, i);
      AggregateTotals(g, rows, bs[i].key);
    }
  }

  /** The trend chart after filtering: its buckets add up to the filtered total. */
  lemma FilteredTrendConserves(g: Granularity, sel: Selection, rows: seq<Row>)
    requires ValidDates(rows)
    requires Filter(sel, rows).Kept?
    ensures ValidDates(Filter(sel, rows).rows)
    ensures SumTotals(Aggregate(g, Filter(sel, rows).rows)) == SumValues(Filter(sel, rows).rows)
  {
    var kept := Filter(sel, rows).rows;
    forall i | 0 <= i < |kept| ensures Valid(kept[i].date) {
      assert kept[i] in rows;
    }
    AggregateConserves(g, kept);
  }
}
