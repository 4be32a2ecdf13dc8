/**
 The sales rows the dashboard works on and the sidebar filter applied to them
 before any chart is computed: guards that halt the page, then a conjunction
 of three membership tests and an inclusive date range.
 */
module Records {
  import opened Calendar

  /** One sales line: its date, where and what was sold, to whom, and its amount in pesos. */
  datatype Row = Row(
    date: Date,
    department: string,
    city: string,
    subgroup: string,
    product: string,
    customer: string,
    value: real)

  /** The resolved sidebar choices. */
  datatype Selection = Selection(
    start: Date,
    end: Date,
    departments: set<string>,
    cities: set<string>,
    subgroups: set<string>)

  /** Why the page stops instead of showing data, in the order the guards are tried. */
  datatype Halt = StartAfterEnd | NoDepartment | NoCity | NoSubgroup

  datatype FilterOutcome = Halted(reason: Halt) | Kept(rows: seq<Row>)

  predicate OnOrBefore(a: Date, b: Date) {
    !Precedes(b, a)
  }

  /** The five conjuncts a row must satisfy to be kept. */
  predicate Matches(sel: Selection, r: Row) {
    && r.department in sel.departments
    && r.city in sel.cities
    && r.subgroup in sel.subgroups
    && OnOrBefore(sel.start, r.date)
    && OnOrBefore(r.date, sel.end)
  }

  /** a can be obtained from b by deleting elements. */
  predicate IsSubsequence<T(==)>(a: seq<T>, b: seq<T>)
    decreases |b|
  {
    if |a| == 0 then true
    else if |b| == 0 then false
    else (a[0] == b[0] && IsSubsequence(a[1..], b[1..])) || IsSubsequence(a, b[1..])
  }

  /** The rows satisfying the selection, in their original order. */
  function KeepMatching(sel: Selection, rows: seq<Row>): (kept: seq<Row>)
    ensures IsSubsequence(kept, rows)
    ensures forall r :: multiset(kept)[r] == if Matches(sel, r) then multiset(rows)[r] else 0
    ensures forall r :: r in kept <==> r in rows && Matches(sel, r)
  {
    if |rows| == 0 then []
    else
      var rest := KeepMatching(sel, rows[1..]);
      assert rows == [rows[0]] + rows[1..];
      if Matches(sel, rows[0]) then
        var kept := [rows[0]] + rest;
        assert kept[1..] == rest;
        kept
      else
        rest
  }

  /** The guards, then the filter. */
  function Filter(sel: Selection, rows: seq<Row>): (out: FilterOutcome)
    ensures out == Halted(StartAfterEnd) <==> Precedes(sel.end, sel.start)
    ensures out == Halted(NoDepartment) <==> !Precedes(sel.end, sel.start) && sel.departments == {}
    ensures out == Halted(NoCity) <==>
      !Precedes(sel.end, sel.start) && sel.departments != {} && sel.cities == {}
    ensures out == Halted(NoSubgroup) <==>
      !Precedes(sel.end, sel.start) && sel.departments != {} && sel.cities != {} && sel.subgroups == {}
    ensures out.Kept? ==> IsSubsequence(out.rows, rows)
    ensures out.Kept? ==> forall r :: r in out.rows <==> r in rows && Matches(sel, r)
    ensures out.Kept? ==>
      forall r :: multiset(out.rows)[r] == if Matches(sel, r) then multiset(rows)[r] else 0
  {
    if Precedes(sel.end, sel.start) then Halted(StartAfterEnd)
    else if sel.departments == {} then Halted(NoDepartment)
    else if sel.cities == {} then Halted(NoCity)
    else if sel.subgroups == {} then Halted(NoSubgroup)
    else Kept(KeepMatching(sel, rows))
  }

  function SumValues(rows: seq<Row>): real {
    if |rows| == 0 then 0.0 else SumValues(rows[..|rows| - 1]) + rows[|rows| - 1].value
  }

  /** The guards only ask that each list be non-empty, and the lists are
      chosen independently: a city that has no sales in the chosen
      department passes every guard and keeps no row, so the filtered sales
      add up to 0. */
  lemma EmptySelectionPassesGuards()
    ensures var rows := [Row(Date(2016, 1, 31), "Antioquia", "Medellin", "Aceites", "A1", "C1", 10.0)];
            var sel := Selection(Date(2016, 1, 1), Date(2016, 1, 31), {"Antioquia"}, {"Cali"}, {"Aceites"});
            Filter(sel, rows) == Kept([]) && SumValues(Filter(sel, rows).rows) == 0.0
  {
    var rows := [Row(Date(2016, 1, 31), "Antioquia", "Medellin", "Aceites", "A1", "C1", 10.0)];
    var sel := Selection(Date(2016, 1, 1), Date(2016, 1, 31), {"Antioquia"}, {"Cali"}, {"Aceites"});
    assert !Matches(sel, rows[0]);
    assert KeepMatching(sel, rows[1..]) == [];
  }
}
