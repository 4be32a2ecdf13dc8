/**
 Ordering grouped totals by amount: the ascending sort followed by the last
 ten rows that the "top 10" bar charts show, and the descending order the
 Pareto loops and the customer ranking walk through. pandas' default sort
 is not stable, so entries with equal amounts may come out in any order;
 the contracts here hold whichever order ties take.
 */
module Ranking {
  import opened Records
  import opened Pareto
  import opened Grouping

  /** How many rows the top charts show. */
  const TopCount: nat := 10

  predicate AscendingValues<K>(es: seq<Entry<K>>) {
    forall i, j :: 0 <= i < j < |es| ==> es[i].value <= es[j].value
  }

  /** Inserts e before the first entry that is not smaller. */
  function InsertAscending<K>(e: Entry<K>, s: seq<Entry<K>>): (r: seq<Entry<K>>)
    ensures |r| == |s| + 1
    ensures multiset(r) == multiset(s) + multiset{e}
  {
    if |s| == 0 then [e]
    else if e.value <= s[0].value then [e] + s
    else
      assert s == [s[0]] + s[1..];
      [s[0]] + InsertAscending(e, s[1..])
  }

  lemma InsertedMember<K>(e: Entry<K>, s: seq<Entry<K>>, x: Entry<K>)
    requires x in InsertAscending(e, s)
    ensures x == e || x in s
  {
    assert x in multiset(InsertAscending(e, s));
  }

  /** Prepending an entry no larger than any other keeps the order. */
  lemma AscendingCons<K>(x: Entry<K>, t: seq<Entry<K>>)
    requires AscendingValues(t)
    requires forall y :: y in t ==> x.value <= y.value
    ensures AscendingValues([x] + t)
  {
    var r := [x] + t;
    forall i, j | 0 <= i < j < |r| ensures r[i].value <= r[j].value {
      assert r[j] == t[j - 1];
      if i > 0 {
        assert r[i] == t[i - 1];
      }
    }
  }

  lemma {:induction false} InsertAscendingSorted<K>(e: Entry<K>, s: seq<Entry<K>>)
    requires AscendingValues(s)
    ensures AscendingValues(InsertAscending(e, s))
    decreases |s|
  {
    if |s| > 0 && e.value > s[0].value {
      var rest := InsertAscending(e, s[1..]);
      InsertAscendingSorted(e, s[1..]);
      forall x | x in rest ensures s[0].value <= x.value {
        InsertedMember(e, s[1..], x);
        if x != e {
          var k :| 0 <= k < |s| - 1 && s[1..][k] == x;
          assert s[k + 1] == x;
        }
      }
      AscendingCons(s[0], rest);
    } else if |s| > 0 {
      forall y | y in s ensures e.value <= y.value {
        var k :| 0 <= k < |s| && s[k] == y;
        assert s[0].value <= s[k].value;
      }
      AscendingCons(e, s);
    }
  }

  lemma {:induction false} InsertAscendingSum<K>(e: Entry<K>, s: seq<Entry<K>>)
    ensures EntrySum(InsertAscending(e, s)) == EntrySum(s) + e.value
    decreases |s|
  {
    if |s| == 0 {
      EntrySumSnoc([], e);
      assert [] + [e] == [e];
    } else if e.value <= s[0].value {
      EntrySumCons(e, s);
    } else {
      InsertAscendingSum(e, s[1..]);
      assert s == [s[0]] + s[1..];
      EntrySumCons(s[0], s[1..]);
      EntrySumCons(s[0], InsertAscending(e, s[1..]));
    }
  }

  /** sort_values(ascending=True), by insertion. */
  function SortAscending<K>(es: seq<Entry<K>>): (r: seq<Entry<K>>)
    ensures |r| == |es|
    ensures AscendingValues(r)
    ensures multiset(r) == multiset(es)
  {
    if |es| == 0 then []
    else
      assert es == [es[0]] + es[1..];
      var t := SortAscending(es[1..]);
      InsertAscendingSorted(es[0], t);
      InsertAscending(es[0], t)
  }

  lemma {:induction false} SortAscendingSum<K>(es: seq<Entry<K>>)
    ensures EntrySum(SortAscending(es)) == EntrySum(es)
    decreases |es|
  {
    if |es| > 0 {
      var t := SortAscending(es[1..]);
      SortAscendingSum(es[1..]);
      InsertAscendingSum(es[0], t);
      assert SortAscending(es) == InsertAscending(es[0], t);
      EntrySumFirst(es);
    }
  }

  function Reverse<T>(s: seq<T>): (r: seq<T>)
    ensures |r| == |s|
    ensures forall i :: 0 <= i < |s| ==> r[i] == s[|s| - 1 - i]
  {
    if |s| == 0 then [] else Reverse(s[1..]) + [s[0]]
  }

  lemma {:induction false} ReverseMultiset<T>(s: seq<T>)
    ensures multiset(Reverse(s)) == multiset(s)
    decreases |s|
  {
    if |s| > 0 {
      ReverseMultiset(s[1..]);
      assert s == [s[0]] + s[1..];
    }
  }

  lemma {:induction false} ReverseSum<K>(s: seq<Entry<K>>)
    ensures EntrySum(Reverse(s)) == EntrySum(s)
    decreases |s|
  {
    if |s| > 0 {
      ReverseSum(s[1..]);
      assert s == [s[0]] + s[1..];
      EntrySumCons(s[0], s[1..]);
      EntrySumSnoc(Reverse(s[1..]), s[0]);
    }
  }

  /** sort_values(ascending=False): the largest amounts first. */
  function SortDescending<K>(es: seq<Entry<K>>): (r: seq<Entry<K>>)
    ensures Descending(Values(r))
    ensures multiset(r) == multiset(es)
    ensures EntrySum(r) == EntrySum(es)
  {
    var a := SortAscending(es);
    ReverseMultiset(a);
    ReverseSum(a);
    SortAscendingSum(es);
    Reverse(a)
  }

  /** `tail(10)` of the ascending sort: the (at most) ten largest amounts,
      smallest of them first. */
  function TopTen<K>(es: seq<Entry<K>>): (top: seq<Entry<K>>)
    ensures |top| == if |es| < TopCount then |es| else TopCount
    ensures AscendingValues(top)
    ensures multiset(top) <= multiset(es)
  {
    var s := SortAscending(es);
    var k := if |s| < TopCount then |s| else TopCount;
    assert s == s[..|s| - k] + s[|s| - k..];
    s[|s| - k..]
  }

  /** In an ascending sequence every entry after a cut is at least every
      entry before it. */
  lemma AscendingSplit<K>(s: seq<Entry<K>>, d: nat)
    requires AscendingValues(s) && d <= |s|
    ensures forall x, y :: x in s[d..] && y in s[..d] ==> y.value <= x.value
  {
    forall x, y | x in s[d..] && y in s[..d] ensures y.value <= x.value {
      var i :| 0 <= i < |s| - d && s[d..][i] == x;
      var j :| 0 <= j < d && s[..d][j] == y;
      assert s[j] == y && s[d + i] == x;
    }
  }

  /** No entry left out of the top ten has a larger amount than one in it. */
  lemma TopTenDominates<K>(es: seq<Entry<K>>)
    ensures forall x: Entry<K>, y: Entry<K> ::
      x in TopTen(es) && y in multiset(es) - multiset(TopTen(es)) ==> y.value <= x.value
  {
    var s := SortAscending(es);
    var k := if |s| < TopCount then |s| else TopCount;
    var d := |s| - k;
    assert TopTen(es) == s[d..];
    SplitMultiset(s, d);
    AscendingSplit(s, d);
  }

  lemma SplitMultiset<T>(s: seq<T>, d: nat)
    requires d <= |s|
    ensures multiset(s) - multiset(s[d..]) == multiset(s[..d])
  {
    assert s == s[..d] + s[d..];
  }

  /** The list the Pareto loops walk: the grouped totals, largest first. It
      holds the same amount as the rows it came from, so the loops'
      percentages are of the filtered sales. */
  lemma ParetoInput<K>(rows: seq<Row>, key: Row -> K)
    ensures Descending(Values(SortDescending(GroupSum(ToEntries(rows, key)))))
    ensures EntrySum(SortDescending(GroupSum(ToEntries(rows, key)))) == SumValues(rows)
  {
    ToEntriesSum(rows, key);
    GroupSumConserves(ToEntries(rows, key));
    assert EntrySum(SortDescending(GroupSum(ToEntries(rows, key)))) == EntrySum(GroupSum(ToEntries(rows, key)));
  }

  /** The customer section end to end: group the rows by customer, sort the
      totals largest first and rank them; whenever the sales add up to a
      positive amount, the customers within 30 % are the first ones of the
      ranking, whatever the signs of the individual totals. */
  lemma TopCustomersOfRows<K(!new)>(rows: seq<Row>, customer: Row -> K)
    requires SumValues(rows) > 0.0
    ensures var es := SortDescending(GroupSum(ToEntries(rows, customer)));
            Sum(Values(es)) > 0.0 &&
            var ranked := RankCustomers(es);
            var top := UpToThreshold(ranked, TopThreshold);
            top == ranked[..|top|]
  {
    var es := SortDescending(GroupSum(ToEntries(rows, customer)));
    ParetoInput(rows, customer);
    TopCustomersArePrefix(es);
  }
}
