/**
 The Pareto (80/20) computations over per-entity sales totals sorted by value,
 largest first: the count of entities that stay within 80 % of the sales, the
 table of products up to and including the one that reaches 80 %, and the
 customers' shares, running shares, ranks and the "within 30 %" selection.
 Amounts are exact reals; the grand total must be positive.
 */
module Pareto {
  import Records

  datatype Entry<K> = Entry(key: K, value: real)

  function Values<K>(es: seq<Entry<K>>): (vs: seq<real>)
    ensures |vs| == |es| && forall i :: 0 <= i < |es| ==> vs[i] == es[i].value
  {
    seq(|es|, i requires 0 <= i < |es| => es[i].value)
  }

  function Sum(vs: seq<real>): real {
    if |vs| == 0 then 0.0 else Sum(vs[..|vs| - 1]) + vs[|vs| - 1]
  }

  /** Sum of the first k values. */
  function PrefixSum(vs: seq<real>, k: nat): real
    requires k <= |vs|
  {
    Sum(vs[..k])
  }

  predicate NonNegative(vs: seq<real>) {
    forall i :: 0 <= i < |vs| ==> vs[i] >= 0.0
  }

  predicate Descending(vs: seq<real>) {
    forall i, j :: 0 <= i < j < |vs| ==> vs[i] >= vs[j]
  }

  lemma PrefixSumStep(vs: seq<real>, k: nat)
    requires k < |vs|
    ensures PrefixSum(vs, k + 1) == PrefixSum(vs, k) + vs[k]
  {
    assert vs[..k + 1][..k] == vs[..k];
  }

  lemma PrefixSumAll(vs: seq<real>)
    ensures PrefixSum(vs, |vs|) == Sum(vs)
  {
    assert vs[..|vs|] == vs;
  }

  /** Adding non-negative values never lowers the running sum. */
  lemma {:induction false} PrefixSumMonotone(vs: seq<real>, i: nat, j: nat)
    requires i <= j <= |vs|
    requires forall m :: i <= m < j ==> vs[m] >= 0.0
    ensures PrefixSum(vs, i) <= PrefixSum(vs, j)
    decreases j - i
  {
    if i < j {
      PrefixSumStep(vs, j - 1);
      PrefixSumMonotone(vs, i, j - 1);
    }
  }

  /** Adding non-positive values never raises the running sum. */
  lemma {:induction false} PrefixSumAntitone(vs: seq<real>, i: nat, j: nat)
    requires i <= j <= |vs|
    requires forall m :: i <= m < j ==> vs[m] <= 0.0
    ensures PrefixSum(vs, j) <= PrefixSum(vs, i)
    decreases j - i
  {
    if i < j {
      PrefixSumStep(vs, j - 1);
      PrefixSumAntitone(vs, i, j - 1);
    }
  }

  /** The running sums of a list sorted largest first rise while the values
      are non-negative and fall once they turn negative, so a middle prefix
      is never below both an earlier and a later one. */
  lemma PrefixSumUnimodal(vs: seq<real>, i: nat, j: nat, k: nat)
    requires Descending(vs) && i <= j <= k <= |vs|
    ensures PrefixSum(vs, i) <= PrefixSum(vs, j) || PrefixSum(vs, k) <= PrefixSum(vs, j)
  {
    if i < j && vs[j - 1] >= 0.0 {
      assert forall m :: i <= m < j ==> vs[m] >= vs[j - 1];
      PrefixSumMonotone(vs, i, j);
    } else if i < j {
      assert forall m :: j <= m < k ==> vs[j - 1] >= vs[m];
      PrefixSumAntitone(vs, j, k);
    }
  }

  lemma DivideMonotone(a: real, b: real, total: real)
    requires total > 0.0 && a <= b
    ensures a / total <= b / total
  {
    assert b / total - a / total == (b - a) / total;
  }

  lemma DivideReflects(a: real, b: real, total: real)
    requires total > 0.0 && a / total < b / total
    ensures a < b
  {
    assert b - a == (b / total - a / total) * total;
  }

  // ---------------------------------------------------------------------------
  // Entities within 80 % of the sales

  /** count obeys the stopping rule of the counting loop: every prefix up to
      count keeps the running sum at or below 80 % of the total, and the next
      entity takes it above. */
  predicate IsWithinCount(vs: seq<real>, count: int)
    requires Sum(vs) > 0.0
  {
    && 0 <= count < |vs|
    && (forall j :: 1 <= j <= count ==> PrefixSum(vs, j) / Sum(vs) <= 0.8)
    && PrefixSum(vs, count + 1) / Sum(vs) > 0.8
  }

  /** The "80/20" counter: add values in order while the running sum stays
      within 80 % of the total, stop at the first one that exceeds it. The
      whole list adds up to 100 %, so the loop always stops at a crossing. */
  method CountWithin80<K>(es: seq<Entry<K>>) returns (count: nat)
    requires Sum(Values(es)) > 0.0
    ensures IsWithinCount(Values(es), count)
  {
    var vs := Values(es);
    var total := Sum(vs);
    PrefixSumAll(vs);
    var acc := 0.0;
    count := 0;
    while true
      invariant count < |vs|
      invariant acc == PrefixSum(vs, count)
      invariant forall j :: 1 <= j <= count ==> PrefixSum(vs, j) / total <= 0.8
      decreases |vs| - count
    {
      acc := acc + es[count].value;
      PrefixSumStep(vs, count);
      if acc / total <= 0.8 {
        count := count + 1;
      } else {
        break;
      }
    }
  }

  /** The stopping rule determines the count. */
  lemma WithinCountUnique(vs: seq<real>, a: int, b: int)
    requires Sum(vs) > 0.0 && IsWithinCount(vs, a) && IsWithinCount(vs, b)
    ensures a == b
  {
  }

  /** On values sorted largest first the count is the length of the longest
      prefix within 80 %: every longer prefix exceeds it. Negative values may
      occur; the running sum then falls, but never below the whole total. */
  lemma WithinCountIsLongest(vs: seq<real>, count: int)
    requires Sum(vs) > 0.0 && Descending(vs) && IsWithinCount(vs, count)
    ensures forall j :: count < j <= |vs| ==> PrefixSum(vs, j) / Sum(vs) > 0.8
  {
    var total := Sum(vs);
    PrefixSumAll(vs);
    forall j | count < j <= |vs| ensures PrefixSum(vs, j) / total > 0.8 {
      PrefixSumUnimodal(vs, count + 1, j, |vs|);
      StaysAboveShare(PrefixSum(vs, j), PrefixSum(vs, count + 1), total, 0.8);
    }
  }

  /** A running sum at least an earlier one above a share of the total, or
      at least the total itself, is above that share as well. */
  lemma StaysAboveShare(p: real, earlier: real, total: real, share: real)
    requires total > 0.0 && share < 1.0 && earlier / total > share
    requires earlier <= p || total <= p
    ensures p / total > share
  {
    if earlier <= p {
      DivideMonotone(earlier, p, total);
    } else {
      DivideMonotone(total, p, total);
      assert total / total == 1.0;
    }
  }

  // ---------------------------------------------------------------------------
  // Table of the products reaching 80 %

  datatype TableRow<K> = TableRow(key: K, value: real, share: real, cumulative: real)

  /** The table: a prefix of the entities with each one's percentage of the
      total and the running percentage, ending at the first entity whose
      running percentage reaches 80. */
  ghost predicate IsParetoTable<K>(es: seq<Entry<K>>, table: seq<TableRow<K>>)
    requires Sum(Values(es)) > 0.0
  {
    && 1 <= |table| <= |es|
    && (forall i :: 0 <= i < |table| ==> table[i] == ExpectedRow(es, i))
    && (forall i :: 0 <= i < |table| - 1 ==> table[i].cumulative < 80.0)
    && table[|table| - 1].cumulative >= 80.0
  }

  /** Row i of the table: the entity, its percentage of the total and the
      running percentage of the first i+1 entities. */
  ghost function ExpectedRow<K>(es: seq<Entry<K>>, i: nat): TableRow<K>
    requires Sum(Values(es)) > 0.0 && i < |es|
  {
    var vs := Values(es);
    TableRow(es[i].key, es[i].value, es[i].value / Sum(vs) * 100.0, PrefixSum(vs, i + 1) / Sum(vs) * 100.0)
  }

  method ParetoTable<K>(es: seq<Entry<K>>) returns (table: seq<TableRow<K>>)
    requires Sum(Values(es)) > 0.0
    ensures IsParetoTable(es, table)
  {
    var vs := Values(es);
    var total := Sum(vs);
    PrefixSumAll(vs);
    assert PrefixSum(vs, |vs|) / total * 100.0 == 100.0;
    var acc := 0.0;
    table := [];
    var i := 0;
    while true
      invariant i < |vs| && |table| == i
      invariant acc == PrefixSum(vs, i)
      invariant forall j :: 0 <= j < i ==> table[j] == ExpectedRow(es, j)
      invariant forall j :: 0 <= j < i ==> table[j].cumulative < 80.0
      decreases |vs| - i
    {
      acc := acc + es[i].value;
      PrefixSumStep(vs, i);
      var cumulative := (acc / total) * 100.0;
      var row := TableRow(es[i].key, es[i].value, (es[i].value / total) * 100.0, cumulative);
      assert row == ExpectedRow(es, i);
      table := table + [row];
      if cumulative >= 80.0 {
        break;
      }
      i := i + 1;
    }
  }

  /** The two 80 % cuts differ by at most the crossing entity: the table has
      one row more than the count, unless some prefix hits exactly 80 %, in
      which case it may be shorter. */
  lemma CountVersusTable<K>(es: seq<Entry<K>>, count: int, table: seq<TableRow<K>>)
    requires Sum(Values(es)) > 0.0
    requires IsWithinCount(Values(es), count) && IsParetoTable(es, table)
    ensures |table| <= count + 1
    ensures |table| == count + 1 || table[|table| - 1].cumulative == 80.0
  {
    var vs := Values(es);
    var total := Sum(vs);
    forall j | 1 <= j < |table| ensures PrefixSum(vs, j) / total < 0.8 {
      assert table[j - 1].cumulative < 80.0;
    }
    assert table[|table| - 1].cumulative == PrefixSum(vs, |table|) / total * 100.0;
  }

  /** With 50/30/15/5 the counter stops at two entities (80 % exactly is
      still within). */
  lemma CountExampleExact()
    ensures Sum([50.0, 30.0, 15.0, 5.0]) == 100.0
    ensures forall c :: IsWithinCount([50.0, 30.0, 15.0, 5.0], c) <==> c == 2
  {
    var a := [50.0, 30.0, 15.0, 5.0];
    assert PrefixSum(a, 0) == 0.0;
    PrefixSumStep(a, 0);
    PrefixSumStep(a, 1);
    PrefixSumStep(a, 2);
    PrefixSumStep(a, 3);
    PrefixSumAll(a);
    assert Sum(a) == 100.0;
    assert PrefixSum(a, 1) / Sum(a) == 0.5;
    assert PrefixSum(a, 2) / Sum(a) == 0.8;
    assert PrefixSum(a, 3) / Sum(a) == 0.95;
    assert IsWithinCount(a, 2);
    forall c | IsWithinCount(a, c) ensures c == 2 {
      WithinCountUnique(a, c, 2);
    }
  }

  /** With 50/40/10 the counter keeps one entity. */
  lemma CountExampleCrossing()
    ensures Sum([50.0, 40.0, 10.0]) == 100.0
    ensures forall c :: IsWithinCount([50.0, 40.0, 10.0], c) <==> c == 1
  {
    var b := [50.0, 40.0, 10.0];
    assert b[..1] == [50.0] && b[..2] == [50.0, 40.0];
    assert PrefixSum(b, 1) == 50.0 && PrefixSum(b, 2) == 90.0;
    assert Sum(b) == 100.0;
    assert IsWithinCount(b, 1);
    forall c | IsWithinCount(b, c) ensures c == 1 {
      WithinCountUnique(b, c, 1);
    }
  }

  /** With 50/40/10 the table lists two products: it includes the crossing one. */
  lemma TableExampleCrossing()
    ensures Sum(Values([Entry(1, 50.0), Entry(2, 40.0), Entry(3, 10.0)])) == 100.0
    ensures forall t: seq<TableRow<int>> ::
      IsParetoTable([Entry(1, 50.0), Entry(2, 40.0), Entry(3, 10.0)], t) ==> |t| == 2
  {
    var es := [Entry(1, 50.0), Entry(2, 40.0), Entry(3, 10.0)];
    var b := [50.0, 40.0, 10.0];
    assert Values(es) == b;
    assert b[..1] == [50.0] && b[..2] == [50.0, 40.0];
    assert PrefixSum(b, 1) == 50.0 && PrefixSum(b, 2) == 90.0;
    assert Sum(b) == 100.0;
    assert ExpectedRow(es, 0).cumulative == 50.0;
    assert ExpectedRow(es, 1).cumulative == 90.0;
    forall t: seq<TableRow<int>> | IsParetoTable(es, t) ensures |t| == 2 {
      assert t[0].cumulative == 50.0;
    }
  }

  // ---------------------------------------------------------------------------
  // Customer shares, ranks and the top selection

  datatype RankedEntry<K> = RankedEntry(key: K, value: real, rank: nat, share: real, cumulative: real)

  /** Each value as a percentage of the total. */
  function Shares(vs: seq<real>, total: real): (shares: seq<real>)
    requires total != 0.0
    ensures |shares| == |vs|
    ensures forall i :: 0 <= i < |vs| ==> shares[i] == vs[i] / total * 100.0
  {
    seq(|vs|, i requires 0 <= i < |vs| => vs[i] / total * 100.0)
  }

  /** Running sums (pandas `cumsum`): entry i is the sum of the first i+1 values. */
  function RunningSum(xs: seq<real>): (r: seq<real>)
    ensures |r| == |xs|
    ensures forall i :: 0 <= i < |xs| ==> r[i] == PrefixSum(xs, i + 1)
  {
    if |xs| == 0 then []
    else
      var init := xs[..|xs| - 1];
      forall j | 1 <= j <= |init| ensures PrefixSum(init, j) == PrefixSum(xs, j) {
        assert init[..j] == xs[..j];
      }
      PrefixSumAll(xs);
      RunningSum(init) + [Sum(xs)]
  }

  /** Summing percentages is taking the percentage of the sum. */
  lemma {:induction false} SharesPrefixSum(vs: seq<real>, total: real, k: nat)
    requires total != 0.0 && k <= |vs|
    ensures PrefixSum(Shares(vs, total), k) == PrefixSum(vs, k) / total * 100.0
  {
    if k > 0 {
      SharesPrefixSum(vs, total, k - 1);
      PrefixSumStep(vs, k - 1);
      PrefixSumStep(Shares(vs, total), k - 1);
      var p := PrefixSum(vs, k - 1);
      var v := vs[k - 1];
      assert p / total * 100.0 + v / total * 100.0 == (p + v) / total * 100.0;
    }
  }

  /** The running sum of the percentages is the percentage of the running sum. */
  lemma CumulativeShares(vs: seq<real>, total: real)
    requires total != 0.0
    ensures forall i :: 0 <= i < |vs| ==>
      RunningSum(Shares(vs, total))[i] == PrefixSum(vs, i + 1) / total * 100.0
  {
    forall i | 0 <= i < |vs| ensures RunningSum(Shares(vs, total))[i] == PrefixSum(vs, i + 1) / total * 100.0 {
      SharesPrefixSum(vs, total, i + 1);
    }
  }

  /** Customers ranked 1..n in the given (descending) order, each with its
      percentage of the sales and the running percentage. */
  function RankCustomers<K>(es: seq<Entry<K>>): (ranked: seq<RankedEntry<K>>)
    requires Sum(Values(es)) > 0.0
    ensures |ranked| == |es|
    ensures forall i :: 0 <= i < |es| ==>
      ranked[i].key == es[i].key && ranked[i].value == es[i].value && ranked[i].rank == i + 1
    ensures forall i :: 0 <= i < |es| ==>
      ranked[i].share == es[i].value / Sum(Values(es)) * 100.0
    ensures forall i :: 0 <= i < |es| ==>
      ranked[i].cumulative == PrefixSum(Values(es), i + 1) / Sum(Values(es)) * 100.0
  {
    var vs := Values(es);
    var total := Sum(vs);
    var cumulative := RunningSum(Shares(vs, total));
    CumulativeShares(vs, total);
    seq(|es|, i requires 0 <= i < |es| =>
      RankedEntry(es[i].key, es[i].value, i + 1, es[i].value / total * 100.0, cumulative[i]))
  }

  /** The last customer's running percentage is the whole 100 %. */
  lemma RankingEndsAtHundred<K>(es: seq<Entry<K>>)
    requires Sum(Values(es)) > 0.0
    ensures |RankCustomers(es)| > 0
    ensures RankCustomers(es)[|es| - 1].cumulative == 100.0
  {
    var vs := Values(es);
    PrefixSumAll(vs);
    assert PrefixSum(vs, |es|) / Sum(vs) == 1.0;
  }

  /** With non-negative values the running percentage never decreases. */
  lemma CumulativeNonDecreasing<K>(es: seq<Entry<K>>)
    requires Sum(Values(es)) > 0.0 && NonNegative(Values(es))
    ensures var ranked := RankCustomers(es);
            forall i, j :: 0 <= i < j < |ranked| ==> ranked[i].cumulative <= ranked[j].cumulative
  {
    var ranked := RankCustomers(es);
    var vs := Values(es);
    forall i, j | 0 <= i < j < |ranked| ensures ranked[i].cumulative <= ranked[j].cumulative {
      PrefixSumMonotone(vs, i + 1, j + 1);
      DivideMonotone(PrefixSum(vs, i + 1), PrefixSum(vs, j + 1), Sum(vs));
    }
  }

  /** The percentage a customer counts as "top" up to. */
  const TopThreshold: real := 30.0

  /** The boolean mask `porcentaje_acumulado <= threshold`: the ranked rows
      within the threshold, in their order and with their multiplicities. */
  function UpToThreshold<K(!new)>(ranked: seq<RankedEntry<K>>, threshold: real): (top: seq<RankedEntry<K>>)
    ensures |top| <= |ranked|
    ensures forall x :: x in top <==> x in ranked && x.cumulative <= threshold
  {
    if |ranked| == 0 then []
    else
      var rest := UpToThreshold(ranked[1..], threshold);
      assert forall x :: x in ranked <==> x == ranked[0] || x in ranked[1..];
      if ranked[0].cumulative <= threshold then [ranked[0]] + rest else rest
  }

  /** The mask keeps the order of the ranking and each selected row's
      multiplicity, and drops every other row entirely. */
  lemma {:induction false} UpToThresholdIsMask<K(!new)>(ranked: seq<RankedEntry<K>>, threshold: real)
    ensures Records.IsSubsequence(UpToThreshold(ranked, threshold), ranked)
    ensures forall x ::
              multiset(UpToThreshold(ranked, threshold))[x] ==
              if x.cumulative <= threshold then multiset(ranked)[x] else 0
  {
    if |ranked| > 0 {
      var rest := ranked[1..];
      UpToThresholdIsMask(rest, threshold);
      var top := UpToThreshold(ranked, threshold);
      assert ranked == [ranked[0]] + rest;
      if ranked[0].cumulative <= threshold {
        assert top == [ranked[0]] + UpToThreshold(rest, threshold);
        assert top[1..] == UpToThreshold(rest, threshold);
      }
    }
  }

  /** Whenever a ranked row is within the threshold, so is every earlier row. */
  predicate ThresholdClosed<K>(ranked: seq<RankedEntry<K>>, threshold: real) {
    forall i, j :: 0 <= i < j < |ranked| && ranked[j].cumulative <= threshold ==>
      ranked[i].cumulative <= threshold
  }

  /** When no row within the threshold follows one beyond it (in particular
      when running percentages never decrease), the selection is a prefix. */
  lemma {:induction false} SelectionIsPrefix<K(!new)>(ranked: seq<RankedEntry<K>>, threshold: real)
    requires ThresholdClosed(ranked, threshold)
    ensures UpToThreshold(ranked, threshold) == ranked[..|UpToThreshold(ranked, threshold)|]
  {
    if |ranked| > 0 {
      var rest := ranked[1..];
      assert ThresholdClosed(rest, threshold);
      SelectionIsPrefix(rest, threshold);
      if ranked[0].cumulative > threshold {
        assert forall x :: x in rest ==> x.cumulative > threshold;
      }
    }
  }

  /** For customer totals sorted largest first, the top customers (running
      percentage at most 30) are the first ones of the ranking. Negative
      totals may occur: the running percentage then falls, but it ends at
      100, so it never falls back to 30. */
  lemma TopCustomersArePrefix<K(!new)>(es: seq<Entry<K>>)
    requires Sum(Values(es)) > 0.0 && Descending(Values(es))
    ensures var ranked := RankCustomers(es);
            var top := UpToThreshold(ranked, TopThreshold);
            top == ranked[..|top|]
  {
    RankingThresholdClosed(es, TopThreshold);
    SelectionIsPrefix(RankCustomers(es), TopThreshold);
  }

  /** For totals sorted largest first, a customer within a threshold below
      100 % has every earlier customer within it too. */
  lemma RankingThresholdClosed<K>(es: seq<Entry<K>>, threshold: real)
    requires Sum(Values(es)) > 0.0 && Descending(Values(es)) && threshold < 100.0
    ensures ThresholdClosed(RankCustomers(es), threshold)
  {
    var ranked := RankCustomers(es);
    var vs := Values(es);
    PrefixThresholdClosed(vs, threshold);
    forall i, j | 0 <= i < j < |ranked| && ranked[j].cumulative <= threshold
      ensures ranked[i].cumulative <= threshold
    {
      assert ranked[j].cumulative == PrefixSum(vs, j + 1) / Sum(vs) * 100.0;
      assert ranked[i].cumulative == PrefixSum(vs, i + 1) / Sum(vs) * 100.0;
    }
  }

  lemma PrefixThresholdClosed(vs: seq<real>, threshold: real)
    requires Sum(vs) > 0.0 && Descending(vs) && threshold < 100.0
    ensures forall i, j :: 0 <= i <= j <= |vs| && PrefixSum(vs, j) / Sum(vs) * 100.0 <= threshold ==>
      PrefixSum(vs, i) / Sum(vs) * 100.0 <= threshold
  {
    forall i, j | 0 <= i <= j <= |vs| && PrefixSum(vs, j) / Sum(vs) * 100.0 <= threshold
      ensures PrefixSum(vs, i) / Sum(vs) * 100.0 <= threshold
    {
      PercentWithinThreshold(vs, i, j, threshold);
    }
  }

  /** On values sorted largest first, a running percentage within a
      threshold below 100 has every earlier running percentage within it. */
  lemma PercentWithinThreshold(vs: seq<real>, i: nat, j: nat, threshold: real)
    requires Sum(vs) > 0.0 && Descending(vs) && i <= j <= |vs| && threshold < 100.0
    requires PrefixSum(vs, j) / Sum(vs) * 100.0 <= threshold
    ensures PrefixSum(vs, i) / Sum(vs) * 100.0 <= threshold
  {
    var total := Sum(vs);
    ShortOfTotal(PrefixSum(vs, j), total, PrefixSum(vs, j) / total * 100.0, threshold);
    PrefixBelowTotal(vs, i, j);
    DivideMonotone(PrefixSum(vs, i), PrefixSum(vs, j), total);
  }

  /** On values sorted largest first, a running sum still short of the total
      is at least every earlier one. */
  lemma PrefixBelowTotal(vs: seq<real>, i: nat, j: nat)
    requires Descending(vs) && i <= j <= |vs| && PrefixSum(vs, j) < Sum(vs)
    ensures PrefixSum(vs, i) <= PrefixSum(vs, j)
  {
    PrefixSumUnimodal(vs, i, j, |vs|);
    PrefixSumAll(vs);
  }

  /** A running sum whose percentage of the total is below 100 is short of
      the total. */
  lemma ShortOfTotal(p: real, total: real, percent: real, threshold: real)
    requires total > 0.0 && percent == p / total * 100.0
    requires percent <= threshold < 100.0
    ensures p < total
  {
    assert total / total == 1.0;
    DivideReflects(p, total, total);
  }

}
