/**
 Axis text of the trend chart. Weekly buckets are labelled "m/d - m/d" with
 the Monday-to-Sunday week clipped to the bucket's calendar month; monthly
 buckets get a Spanish month abbreviation, quarterly ones "Tri q", and the
 remaining granularities the year. Some buckets additionally get the year
 written under the axis (an annotation).
 */
module Labels {
  import opened Calendar
  import opened Decimal
  import opened Buckets
  import Records

  // ---------------------------------------------------------------------------
  // Weekly labels

  /** First and last day of d's Monday-to-Sunday week, clipped to d's month. */
  function WeekSpan(d: Date): (span: (Date, Date))
    requires Valid(d)
    ensures Valid(span.0) && Valid(span.1)
    ensures SameMonth(span.0, d) && SameMonth(span.1, d)
    ensures Ordinal(span.0) <= Ordinal(d) <= Ordinal(span.1)
    ensures Ordinal(span.1) - Ordinal(span.0) <= 6
    ensures Weekday(span.0) == 0 || span.0.day == 1
    ensures Weekday(span.1) == 6 || span.1.day == DaysInMonth(d.year, d.month)
  {
    var monday := MondayOf(d);
    var sunday := AddDays(monday, 6);
    var first := FirstOfMonth(d);
    var last := LastOfMonth(d);
    // max and min in chronological order
    var start := if Ordinal(monday) < Ordinal(first) then first else monday;
    var end := if Ordinal(last) < Ordinal(sunday) then last else sunday;
    OrdinalOrder(first, d);
    OrdinalOrder(d, last);
    WithinMonth(first, start, d);
    WithinMonth(d, end, last);
    MondayOfIsMonday(d);
    SundayAfterMonday(monday);
    (start, end)
  }

  /** Ordinal bounds of the clipped week, as a reference definition. */
  lemma WeekSpanOrdinals(d: Date)
    requires Valid(d)
    ensures var o := Ordinal(d) - Weekday(d);
            var first := Ordinal(FirstOfMonth(d));
            Ordinal(WeekSpan(d).0) == (if o < first then first else o)
    ensures var o := Ordinal(d) - Weekday(d) + 6;
            var last := Ordinal(LastOfMonth(d));
            Ordinal(WeekSpan(d).1) == (if last < o then last else o)
  {
  }

  /** For a bucket key of the weekly grouping (a Sunday), the label ends on
      the key itself and starts on its Monday, or on the 1st when that Monday
      lies in the previous month. */
  lemma WeekSpanOfSunday(d: Date)
    requires Valid(d) && Weekday(d) == 6
    ensures WeekSpan(d).1 == d
    ensures var monday := SubDays(d, 6);
            WeekSpan(d).0 == if SameMonth(monday, d) then monday else FirstOfMonth(d)
  {
    var monday := SubDays(d, 6);
    var sunday := AddDays(monday, 6);
    OrdinalOrder(sunday, d);
    OrdinalOrder(d, LastOfMonth(d));
    OrdinalOrder(monday, FirstOfMonth(d));
    if !SameMonth(monday, d) {
      OrdinalOrder(FirstOfMonth(d), monday);
      if Ordinal(FirstOfMonth(d)) <= Ordinal(monday) {
        WithinMonth(FirstOfMonth(d), monday, d);
      }
    }
  }

  /** The same, for a Monday given by its distance from the Sunday. */
  lemma WeekSpanOfSundayFrom(d: Date, monday: Date)
    requires Valid(d) && Valid(monday) && Weekday(d) == 6
    requires Ordinal(monday) + 6 == Ordinal(d)
    ensures WeekSpan(d) == (if SameMonth(monday, d) then monday else FirstOfMonth(d), d)
  {
    WeekSpanOfSunday(d);
    OrdinalOrder(monday, SubDays(d, 6));
  }

  /** "m/d" of a date, without zero padding. */
  function MonthDay(d: Date): string
    requires Valid(d)
  {
    NatToString(d.month) + ("/" + NatToString(d.day))
  }

  function WeekLabel(d: Date): string
    requires Valid(d)
  {
    SpanLabel(WeekSpan(d))
  }

  /** "m/d - m/d" of a first and a last day. */
  function SpanLabel(span: (Date, Date)): string
    requires Valid(span.0) && Valid(span.1)
  {
    MonthDay(span.0) + (" - " + MonthDay(span.1))
  }

  /** Reads "m/d" at the start of s; yields both numbers and the rest. */
  function ParseMonthDay(s: string): Option<(nat, nat, string)> {
    var month := ParseNat(s);
    if month.None? then None
    else
      var r := month.value.1;
      if |r| == 0 || r[0] != '/' then None
      else
        var day := ParseNat(r[1..]);
        if day.None? then None
        else Some((month.value.0, day.value.0, day.value.1))
  }

  /** Reads "m/d - m/d" back into its four numbers. */
  function ParseWeekLabel(s: string): Option<(nat, nat, nat, nat)> {
    match ParseMonthDay(s)
    case None => None
    case Some((m1, d1, r)) =>
      if |r| < 3 || r[..3] != " - " then None
      else match ParseMonthDay(r[3..])
      case None => None
      case Some((m2, d2, rest)) => if |rest| == 0 then Some((m1, d1, m2, d2)) else None
  }

  lemma ParseRenderedMonthDay(m: nat, d: nat, rest: string)
    requires !StartsWithDigit(rest)
    ensures ParseMonthDay(NatToString(m) + ("/" + (NatToString(d) + rest))) == Some((m, d, rest))
  {
    var tail := NatToString(d) + rest;
    var r := "/" + tail;
    ParseRendered(m, r);
    assert r[1..] == tail;
    ParseRendered(d, rest);
  }

  /** Regrouping of a concatenation, stated once for the rendered week label
      so the regrouped forms enter the proof without being re-checked. */
  lemma ConcatAssociative(a: string, b: string, c: string)
    ensures (a + b) + c == a + (b + c)
  {
  }

  /** Parsing reverses rendering for any two month/day pairs. */
  lemma ParseRenderedWeek(m1: nat, d1: nat, m2: nat, d2: nat)
    ensures var first := NatToString(m1) + ("/" + NatToString(d1));
            var second := NatToString(m2) + ("/" + NatToString(d2));
            ParseWeekLabel(first + (" - " + second)) == Some((m1, d1, m2, d2))
  {
    var second := NatToString(m2) + ("/" + NatToString(d2));
    var r := " - " + second;
    ConcatAssociative(NatToString(m1), "/" + NatToString(d1), r);
    ConcatAssociative("/", NatToString(d1), r);
    ParseRenderedMonthDay(m1, d1, r);
    assert r[..3] == " - " && r[3..] == second;
    assert second + "" == second;
    assert NatToString(d2) + "" == NatToString(d2);
    ParseRenderedMonthDay(m2, d2, "");
  }

  /** Round trip: the week label determines the clipped week's months and days. */
  lemma WeekLabelRoundTrip(d: Date)
    requires Valid(d)
    ensures var span := WeekSpan(d);
            ParseWeekLabel(WeekLabel(d))
              == Some((span.0.month, span.0.day, span.1.month, span.1.day))
  {
    var span := WeekSpan(d);
    ParseRenderedWeek(span.0.month, span.0.day, span.1.month, span.1.day);
  }

  lemma SmallNumerals()
    ensures NatToString(1) == "1" && NatToString(3) == "3" && NatToString(6) == "6"
    ensures NatToString(25) == "25" && NatToString(31) == "31"
  {
    assert DigitChar(1) == '1' && DigitChar(3) == '3' && DigitChar(6) == '6';
    assert DigitChar(2) == '2' && DigitChar(5) == '5';
  }

  /** The label of a weekly bucket key (a Sunday): it starts six days
      earlier, or on the 1st when the Monday lies in the previous month, and
      ends on the key. */
  lemma SundayWeekLabel(d: Date)
    requires Valid(d) && Weekday(d) == 6
    ensures d.day >= 7 ==> WeekLabel(d) == MonthDay(Date(d.year, d.month, d.day - 6)) + (" - " + MonthDay(d))
    ensures d.day < 7 ==> WeekLabel(d) == MonthDay(FirstOfMonth(d)) + (" - " + MonthDay(d))
  {
    var monday := SubDays(d, 6);
    WeekSpanOfSunday(d);
    if d.day >= 7 {
      var m := Date(d.year, d.month, d.day - 6);
      OrdinalOrder(monday, m);
      assert WeekSpan(d) == (m, d);
    } else {
      OrdinalOrder(monday, FirstOfMonth(d));
      assert WeekSpan(d) == (FirstOfMonth(d), d);
    }
  }

  /** A week lying wholly inside January 2016: the bucket 2016-01-31 spans
      2016-01-25 .. 2016-01-31. */
  lemma WeekSpanJanuary()
    ensures WeekSpan(Date(2016, 1, 31)) == (Date(2016, 1, 25), Date(2016, 1, 31))
  {
    var d := Date(2016, 1, 31);
    assert DaysBeforeYear(2016) == 735963 by {
      DaysBeforeYearClosedForm(2016);
    }
    assert Ordinal(d) == 735994;
    var monday := Date(2016, 1, 25);
    assert Ordinal(monday) == 735988;
    assert Weekday(d) == 6;
    WeekSpanOfSundayFrom(d, monday);
  }

  /** ... and its label reads "1/25 - 1/31". */
  lemma WeekLabelJanuary()
    ensures SpanLabel((Date(2016, 1, 25), Date(2016, 1, 31))) == "1/25 - 1/31"
  {
    SmallNumerals();
  }

  /** The week of 2016-03-06, whose Monday is the leap day 2016-02-29: the
      bucket is clipped to 2016-03-01 .. 2016-03-06. */
  lemma WeekSpanLeapDay()
    ensures WeekSpan(Date(2016, 3, 6)) == (Date(2016, 3, 1), Date(2016, 3, 6))
  {
    var d := Date(2016, 3, 6);
    assert DaysBeforeYear(2016) == 735963 by {
      DaysBeforeYearClosedForm(2016);
    }
    assert Ordinal(d) == 736029;
    var monday := Date(2016, 2, 29);
    assert Ordinal(monday) == 736023;
    assert Weekday(d) == 6;
    WeekSpanOfSundayFrom(d, monday);
  }

  /** ... and its label reads "3/1 - 3/6". */
  lemma WeekLabelLeapDay()
    ensures SpanLabel((Date(2016, 3, 1), Date(2016, 3, 6))) == "3/1 - 3/6"
  {
    SmallNumerals();
  }

  // ---------------------------------------------------------------------------
  // Month, quarter and year labels

  const MonthAbbreviations: seq<string> :=
    ["Ene", "Feb", "Mar", "Abr", "May", "Jun", "Jul", "Ago", "Sep", "Oct", "Nov", "Dic"]

  const QuarterNames: seq<string> := ["Tri 1", "Tri 2", "Tri 3", "Tri 4"]

  function MonthLabel(m: int): (s: string)
    requires 1 <= m <= 12
    ensures |s| == 3
  {
    MonthAbbreviations[m - 1]
  }

  /** Position (1-based) of s in the month table. */
  function MonthOfLabel(s: string): (r: Option<int>)
    ensures r.Some? ==> 1 <= r.value <= 12 && MonthLabel(r.value) == s
  {
    IndexOf(MonthAbbreviations, s, 0)
  }

  function IndexOf(xs: seq<string>, s: string, from: nat): (r: Option<int>)
    requires |xs| == 12 && from <= 12
    ensures r.Some? ==> from + 1 <= r.value <= 12 && xs[r.value - 1] == s
    ensures r.None? ==> forall i :: from <= i < 12 ==> xs[i] != s
    decreases 12 - from
  {
    if from == 12 then None
    else if xs[from] == s then Some(from + 1)
    else IndexOf(xs, s, from + 1)
  }

  /** The month abbreviations are distinct, so a label names its month. */
  lemma MonthLabelRoundTrip(m: int)
    requires 1 <= m <= 12
    ensures MonthOfLabel(MonthLabel(m)) == Some(m)
  {
    MonthAbbreviationsDistinct();
  }

  /** No two months share an abbreviation: the first and last letters
      already tell them apart. */
  lemma MonthAbbreviationsDistinct()
    ensures forall i, j :: 0 <= i < j < 12 ==> MonthAbbreviations[i] != MonthAbbreviations[j]
  {
    var xs := MonthAbbreviations;
    forall i, j | 0 <= i < j < 12 ensures xs[i] != xs[j] {
      assert |xs[i]| == 3 && |xs[j]| == 3;
      assert xs[i][0] != xs[j][0] || xs[i][2] != xs[j][2];
    }
  }

  function QuarterLabel(q: int): (s: string)
    requires 1 <= q <= 4
    ensures s == "Tri " + NatToString(q)
  {
    QuarterNames[q - 1]
  }

  function YearLabel(y: int): (s: string)
    requires 1 <= y
    ensures ParseNat(s) == Some((y, ""))
  {
    ParseRendered(y, "");
    assert NatToString(y) + "" == NatToString(y);
    NatToString(y)
  }

  /** Tick text computed for a bucket. The daily view falls into the same
      branch as the yearly one, whose text is the year; that branch then
      clears the tick positions, so for those two views the text is computed
      but the axis shows the year annotations instead. */
  function TickLabel(g: Granularity, key: Date): string
    requires Valid(key)
  {
    match g
    case Week => WeekLabel(key)
    case Month => MonthLabel(key.month)
    case Quarter => QuarterLabel(QuarterOf(key.month))
    case Day => YearLabel(key.year)
    case Year => YearLabel(key.year)
  }

  /** Buckets that get the year written under the axis. */
  predicate Annotated(g: Granularity, key: Date)
    requires Valid(key)
  {
    match g
    case Week => false
    case Month => key.month == 1
    case Quarter => QuarterOf(key.month) == 1
    case Day => true
    case Year => true
  }

  function TickLabels(g: Granularity, keys: seq<Date>): (labels: seq<string>)
    requires forall i :: 0 <= i < |keys| ==> Valid(keys[i])
    ensures |labels| == |keys|
    ensures forall i :: 0 <= i < |keys| ==> labels[i] == TickLabel(g, keys[i])
  {
    seq(|keys|, i requires 0 <= i < |keys| => TickLabel(g, keys[i]))
  }

  datatype Annotation = Annotation(at: Date, text: string)

  /** One annotation per annotated bucket, in bucket order, carrying its year. */
  function Annotations(g: Granularity, keys: seq<Date>): (notes: seq<Annotation>)
    requires forall i :: 0 <= i < |keys| ==> Valid(keys[i])
    ensures forall a :: a in notes <==>
      a.at in keys && Annotated(g, a.at) && a.text == YearLabel(a.at.year)
    ensures |notes| <= |keys|
  {
    if |keys| == 0 then []
    else
      var rest := Annotations(g, keys[1..]);
      assert forall x :: x in keys <==> x == keys[0] || x in keys[1..];
      if Annotated(g, keys[0]) then [Annotation(keys[0], YearLabel(keys[0].year))] + rest
      else rest
  }

  /** The buckets the annotations sit on, in annotation order. */
  function AnnotatedDates(notes: seq<Annotation>): (dates: seq<Date>)
    ensures |dates| == |notes|
    ensures forall i :: 0 <= i < |notes| ==> dates[i] == notes[i].at
  {
    if |notes| == 0 then [] else [notes[0].at] + AnnotatedDates(notes[1..])
  }

  /** Annotations follow the bucket order: their buckets, read left to right,
      are a subsequence of the keys. */
  lemma {:induction false} AnnotationsInBucketOrder(g: Granularity, keys: seq<Date>)
    requires forall i :: 0 <= i < |keys| ==> Valid(keys[i])
    ensures Records.IsSubsequence(AnnotatedDates(Annotations(g, keys)), keys)
  {
    if |keys| > 0 {
      var rest := keys[1..];
      AnnotationsInBucketOrder(g, rest);
      var dates := AnnotatedDates(Annotations(g, keys));
      if Annotated(g, keys[0]) {
        assert Annotations(g, keys)[1..] == Annotations(g, rest);
        assert dates[0] == keys[0] && dates[1..] == AnnotatedDates(Annotations(g, rest));
      } else {
        assert dates == AnnotatedDates(Annotations(g, rest));
      }
    }
  }

  /** Each annotated bucket gets exactly as many annotations as it occurs
      in the keys (one, for the distinct keys of the trend), carrying its
      year; nothing else is annotated. */
  lemma {:induction false} AnnotationsPerBucket(g: Granularity, keys: seq<Date>)
    requires forall i :: 0 <= i < |keys| ==> Valid(keys[i])
    ensures forall a ::
              multiset(Annotations(g, keys))[a] ==
              if Valid(a.at) && Annotated(g, a.at) && a.text == YearLabel(a.at.year)
              then multiset(keys)[a.at] else 0
  {
    if |keys| > 0 {
      var rest := keys[1..];
      AnnotationsPerBucket(g, rest);
      assert multiset(keys) == multiset{keys[0]} + multiset(rest) by {
        assert keys == [keys[0]] + rest;
      }
      if Annotated(g, keys[0]) {
        var first := Annotation(keys[0], YearLabel(keys[0].year));
        assert multiset(Annotations(g, keys)) == multiset{first} + multiset(Annotations(g, rest));
      } else {
        assert Annotations(g, keys) == Annotations(g, rest);
      }
    }
  }

  /** Which buckets are annotated, per granularity: January buckets in the
      monthly view, first-quarter buckets in the quarterly one, every bucket in
      the yearly and daily ones, none in the weekly one. */
  lemma AnnotatedBuckets(g: Granularity, keys: seq<Date>, k: Date)
    requires forall i :: 0 <= i < |keys| ==> Valid(keys[i])
    requires k in keys
    ensures var annotated := exists a :: a in Annotations(g, keys) && a.at == k;
            match g
            case Week => !annotated
            case Month => annotated <==> k.month == 1
            case Quarter => annotated <==> k.month <= 3
            case Day => annotated
            case Year => annotated
  {
    var a := Annotation(k, YearLabel(k.year));
    if Annotated(g, k) {
      assert a in Annotations(g, keys);
    }
  }

  /** Month labels depend on the month alone, quarter labels on the quarter,
      and year labels on the year. */
  lemma LabelsArePeriodFunctions(g: Granularity, a: Date, b: Date)
    requires Valid(a) && Valid(b)
    ensures g == Month ==> (TickLabel(g, a) == TickLabel(g, b) <==> a.month == b.month)
    ensures g == Quarter ==> (TickLabel(g, a) == TickLabel(g, b) <==> QuarterOf(a.month) == QuarterOf(b.month))
    ensures (g == Year || g == Day) ==> (TickLabel(g, a) == TickLabel(g, b) <==> a.year == b.year)
  {
    if g == Month {
      MonthLabelRoundTrip(a.month);
      MonthLabelRoundTrip(b.month);
    } else if g == Quarter {
      if TickLabel(g, a) == TickLabel(g, b) {
        var qa, qb := QuarterOf(a.month), QuarterOf(b.month);
        assert QuarterNames[qa - 1] == QuarterNames[qb - 1];
      }
    } else if g == Year || g == Day {
      if TickLabel(g, a) == TickLabel(g, b) {
        NatToStringInjective(a.year, b.year);
      }
    }
  }

  /** Along the axis, two month ticks read the same exactly when their
      buckets share the month, quarter ticks when they share the quarter and
      year ticks when they share the year; every week tick reads back as the
      months and days of its clipped week. */
  lemma TickLabelsIdentifyPeriods(g: Granularity, keys: seq<Date>)
    requires forall i :: 0 <= i < |keys| ==> Valid(keys[i])
    ensures |TickLabels(g, keys)| == |keys|
    ensures var labels := TickLabels(g, keys);
            forall i, j :: 0 <= i < |keys| && 0 <= j < |keys| ==>
              && (g == Month ==> (labels[i] == labels[j] <==> keys[i].month == keys[j].month))
              && (g == Quarter ==> (labels[i] == labels[j] <==> QuarterOf(keys[i].month) == QuarterOf(keys[j].month)))
              && ((g == Year || g == Day) ==> (labels[i] == labels[j] <==> keys[i].year == keys[j].year))
    ensures var labels := TickLabels(g, keys);
            g == Week ==> forall i :: 0 <= i < |keys| ==>
              var span := WeekSpan(keys[i]);
              ParseWeekLabel(labels[i]) == Some((span.0.month, span.0.day, span.1.month, span.1.day))
  {
    var labels := TickLabels(g, keys);
    forall i, j | 0 <= i < |keys| && 0 <= j < |keys|
      ensures && (g == Month ==> (labels[i] == labels[j] <==> keys[i].month == keys[j].month))
              && (g == Quarter ==> (labels[i] == labels[j] <==> QuarterOf(keys[i].month) == QuarterOf(keys[j].month)))
              && ((g == Year || g == Day) ==> (labels[i] == labels[j] <==> keys[i].year == keys[j].year))
    {
      LabelsArePeriodFunctions(g, keys[i], keys[j]);
    }
    if g == Week {
      forall i | 0 <= i < |keys|
        ensures var span := WeekSpan(keys[i]);
                ParseWeekLabel(labels[i]) == Some((span.0.month, span.0.day, span.1.month, span.1.day))
      {
        WeekLabelRoundTrip(keys[i]);
      }
    }
  }
}
