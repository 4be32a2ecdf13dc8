/**
 Grouping rows by a key the caller chooses (subgroup or (subgroup, product)
 over the filtered rows, customer over all rows) and summing their amounts:
 one entry per distinct key, carrying the sum of the amounts of that key's
 rows. Groups appear in the order their keys first occur, where pandas'
 `groupby` sorts the keys; no property here depends on that order, and the
 descending sort that follows only inherits it for tied amounts.
 */
module Grouping {
  import opened Records
  import opened Pareto

  /** One entry per row, keyed by the grouping column. */
  function ToEntries<K>(rows: seq<Row>, key: Row -> K): (es: seq<Entry<K>>)
    ensures |es| == |rows|
    ensures forall i :: 0 <= i < |rows| ==> es[i] == Entry(key(rows[i]), rows[i].value)
  {
    seq(|rows|, i requires 0 <= i < |rows| => Entry(key(rows[i]), rows[i].value))
  }

  predicate DistinctKeys<K(==)>(g: seq<Entry<K>>) {
    forall i, j :: 0 <= i < j < |g| ==> g[i].key != g[j].key
  }

  function KeySet<K>(es: seq<Entry<K>>): set<K> {
    set i | 0 <= i < |es| :: es[i].key
  }

  lemma KeySetCons<K>(x: Entry<K>, s: seq<Entry<K>>)
    ensures KeySet([x] + s) == {x.key} + KeySet(s)
  {
    var r := [x] + s;
    forall k | k in KeySet(r) ensures k in {x.key} + KeySet(s) {
      var i :| 0 <= i < |r| && r[i].key == k;
      if i > 0 {
        assert r[i] == s[i - 1];
      }
    }
    forall k | k in KeySet(s) ensures k in KeySet(r) {
      var i :| 0 <= i < |s| && s[i].key == k;
      assert r[i + 1] == s[i];
    }
    assert r[0] == x;
  }

  /** Sum of the amounts of the entries with key k. */
  function KeyTotal<K(==)>(es: seq<Entry<K>>, k: K): real {
    if |es| == 0 then 0.0
    else
      var last := es[|es| - 1];
      KeyTotal(es[..|es| - 1], k) + (if last.key == k then last.value else 0.0)
  }

  /** The amount recorded for key k, 0 when k has no entry. */
  function Lookup<K(==)>(g: seq<Entry<K>>, k: K): real {
    if |g| == 0 then 0.0
    else if g[0].key == k then g[0].value
    else Lookup(g[1..], k)
  }

  // ---------------------------------------------------------------------------
  // Sums over sequences of entries

  lemma {:induction false} SumAppend(a: seq<real>, b: seq<real>)
    ensures Sum(a + b) == Sum(a) + Sum(b)
    decreases |b|
  {
    if |b| > 0 {
      var b' := b[..|b| - 1];
      assert (a + b)[..|a + b| - 1] == a + b';
      SumAppend(a, b');
    } else {
      assert a + b == a;
    }
  }

  lemma SumCons(x: real, s: seq<real>)
    ensures Sum([x] + s) == x + Sum(s)
  {
    SumAppend([x], s);
    assert [x][..0] == [];
  }

  lemma ValuesAppend<K>(a: seq<Entry<K>>, b: seq<Entry<K>>)
    ensures Values(a + b) == Values(a) + Values(b)
  {
  }

  /** Sum of the amounts of a sequence of entries. */
  function EntrySum<K>(es: seq<Entry<K>>): real {
    Sum(Values(es))
  }

  lemma EntrySumCons<K>(e: Entry<K>, es: seq<Entry<K>>)
    ensures EntrySum([e] + es) == e.value + EntrySum(es)
  {
    ValuesAppend([e], es);
    assert Values([e]) == [e.value];
    SumCons(e.value, Values(es));
  }

  lemma EntrySumFirst<K>(es: seq<Entry<K>>)
    requires |es| > 0
    ensures EntrySum(es) == es[0].value + EntrySum(es[1..])
  {
    assert es == [es[0]] + es[1..];
    EntrySumCons(es[0], es[1..]);
  }

  lemma EntrySumLast<K>(es: seq<Entry<K>>)
    requires |es| > 0
    ensures EntrySum(es) == EntrySum(es[..|es| - 1]) + es[|es| - 1].value
  {
    assert es == es[..|es| - 1] + [es[|es| - 1]];
    EntrySumSnoc(es[..|es| - 1], es[|es| - 1]);
  }

  lemma EntrySumSnoc<K>(es: seq<Entry<K>>, e: Entry<K>)
    ensures EntrySum(es + [e]) == EntrySum(es) + e.value
  {
    ValuesAppend(es, [e]);
    assert Values([e]) == [e.value];
    SumAppend(Values(es), [e.value]);
    assert Sum([e.value]) == Sum([e.value][..0]) + e.value;
  }

  /** Turning rows into entries keeps the amount of the rows. */
  lemma {:induction false} ToEntriesSum<K>(rows: seq<Row>, key: Row -> K)
    ensures EntrySum(ToEntries(rows, key)) == SumValues(rows)
    decreases |rows|
  {
    if |rows| > 0 {
      var init := rows[..|rows| - 1];
      ToEntriesSum(init, key);
      var es := ToEntries(rows, key);
      assert es == ToEntries(init, key) + [es[|es| - 1]];
      EntrySumSnoc(ToEntries(init, key), es[|es| - 1]);
    } else {
      assert Values(ToEntries(rows, key)) == [];
    }
  }

  // ---------------------------------------------------------------------------
  // Adding one entry to the groups

  /** Adds an amount to its key's group, or opens a new group at the end. */
  function AddToGroup<K(==)>(g: seq<Entry<K>>, e: Entry<K>): (r: seq<Entry<K>>)
    ensures KeySet(r) == KeySet(g) + {e.key}
  {
    if |g| == 0 then
      KeySetCons(e, []);
      assert [e] + [] == [e];
      [e]
    else
      assert g == [g[0]] + g[1..];
      KeySetCons(g[0], g[1..]);
      if g[0].key == e.key then
        KeySetCons(Entry(e.key, g[0].value + e.value), g[1..]);
        [Entry(e.key, g[0].value + e.value)] + g[1..]
      else
        var rest := AddToGroup(g[1..], e);
        KeySetCons(g[0], rest);
        [g[0]] + rest
  }

  lemma {:induction false} AddToGroupDistinct<K>(g: seq<Entry<K>>, e: Entry<K>)
    requires DistinctKeys(g)
    ensures DistinctKeys(AddToGroup(g, e))
    decreases |g|
  {
    if |g| > 0 && g[0].key != e.key {
      var rest := AddToGroup(g[1..], e);
      AddToGroupDistinct(g[1..], e);
      assert g[0].key !in KeySet(g[1..]) by {
        assert forall i :: 0 <= i < |g| - 1 ==> g[1..][i] == g[i + 1];
      }
      assert g[0].key !in KeySet(rest);
      var r := AddToGroup(g, e);
      assert r == [g[0]] + rest;
      forall i, j | 0 <= i < j < |r| ensures r[i].key != r[j].key {
        if i == 0 {
          assert r[j] == rest[j - 1];
          assert rest[j - 1].key in KeySet(rest);
        } else {
          assert r[i] == rest[i - 1] && r[j] == rest[j - 1];
        }
      }
    } else if |g| > 0 {
      var r := AddToGroup(g, e);
      assert forall i :: 1 <= i < |g| ==> r[i] == g[i];
    }
  }

  lemma {:induction false} AddToGroupLookup<K>(g: seq<Entry<K>>, e: Entry<K>, k: K)
    requires DistinctKeys(g)
    ensures Lookup(AddToGroup(g, e), k) == Lookup(g, k) + (if e.key == k then e.value else 0.0)
    decreases |g|
  {
    if |g| > 0 && g[0].key != e.key {
      assert DistinctKeys(g[1..]);
      AddToGroupLookup(g[1..], e, k);
    } else if |g| > 0 {
      var r := AddToGroup(g, e);
      assert r[1..] == g[1..];
    }
  }

  lemma {:induction false} AddToGroupSum<K>(g: seq<Entry<K>>, e: Entry<K>)
    ensures EntrySum(AddToGroup(g, e)) == EntrySum(g) + e.value
    decreases |g|
  {
    if |g| == 0 {
      assert Values([e]) == [e.value];
      assert Sum([e.value]) == Sum([e.value][..0]) + e.value;
    } else if g[0].key == e.key {
      assert g == [g[0]] + g[1..];
      EntrySumCons(g[0], g[1..]);
      EntrySumCons(Entry(e.key, g[0].value + e.value), g[1..]);
    } else {
      assert g == [g[0]] + g[1..];
      AddToGroupSum(g[1..], e);
      EntrySumCons(g[0], g[1..]);
      EntrySumCons(g[0], AddToGroup(g[1..], e));
    }
  }

  // ---------------------------------------------------------------------------
  // Grouping a whole sequence

  /** pandas `groupby(key)[amount].sum()`: one entry per distinct key. */
  function GroupSum<K(==)>(es: seq<Entry<K>>): (g: seq<Entry<K>>)
    ensures DistinctKeys(g)
    ensures KeySet(g) == KeySet(es)
  {
    if |es| == 0 then []
    else
      var init := es[..|es| - 1];
      var g := GroupSum(init);
      AddToGroupDistinct(g, es[|es| - 1]);
      assert KeySet(es) == KeySet(init) + {es[|es| - 1].key} by {
        assert forall i :: 0 <= i < |init| ==> init[i] == es[i];
      }
      AddToGroup(g, es[|es| - 1])
  }

  /** Each group carries exactly the sum of its key's amounts. */
  lemma {:induction false} GroupSumTotals<K>(es: seq<Entry<K>>, k: K)
    ensures Lookup(GroupSum(es), k) == KeyTotal(es, k)
    decreases |es|
  {
    if |es| > 0 {
      var init := es[..|es| - 1];
      GroupSumTotals(init, k);
      AddToGroupLookup(GroupSum(init), es[|es| - 1], k);
    }
  }

  /** Grouping neither creates nor loses any amount. */
  lemma {:induction false} GroupSumConserves<K>(es: seq<Entry<K>>)
    ensures EntrySum(GroupSum(es)) == EntrySum(es)
    decreases |es|
  {
    if |es| > 0 {
      var init := es[..|es| - 1];
      GroupSumConserves(init);
      AddToGroupSum(GroupSum(init), es[|es| - 1]);
      EntrySumLast(es);
    } else {
      assert Values(es) == [];
    }
  }
}
