/**
 The proleptic Gregorian calendar the dashboard's dates live in: leap years,
 month lengths, a day ordinal (day 1 is Monday 0001-01-01, as in Python's
 `date.toordinal`), weekdays numbered from 0 = Monday, and stepping a date
 forwards and backwards by whole days.
 */
module Calendar {

  datatype Date = Date(year: int, month: int, day: int)

  predicate IsLeapYear(y: int) {
    y % 4 == 0 && (y % 100 != 0 || y % 400 == 0)
  }

  function DaysInMonth(y: int, m: int): (n: int)
    requires 1 <= m <= 12
    ensures 28 <= n <= 31
    ensures n == 29 <==> m == 2 && IsLeapYear(y)
    ensures n == 28 <==> m == 2 && !IsLeapYear(y)
  {
    if m == 2 then (if IsLeapYear(y) then 29 else 28)
    else if m == 4 || m == 6 || m == 9 || m == 11 then 30
    else 31
  }

  predicate Valid(d: Date) {
    1 <= d.year && 1 <= d.month <= 12 && 1 <= d.day <= DaysInMonth(d.year, d.month)
  }

  function DaysInYear(y: int): int {
    if IsLeapYear(y) then 366 else 365
  }

  /** Number of days in the years 1 .. y-1. */
  function DaysBeforeYear(y: int): (n: int)
    requires 1 <= y
    ensures n >= 365 * (y - 1)
    decreases y
  {
    if y == 1 then 0 else DaysBeforeYear(y - 1) + DaysInYear(y - 1)
  }

  /** The leap-day count in closed form over p whole years, as Python's
      `_days_before_year` computes it. */
  function ClosedForm(p: int): int {
    365 * p + p / 4 - p / 100 + p / 400
  }

  /** Number of days of year y that come before the first of month m. */
  function DaysBeforeMonth(y: int, m: int): (n: int)
    requires 1 <= m <= 12
  {
    var common :=
      if m == 1 then 0 else if m == 2 then 31 else if m == 3 then 59
      else if m == 4 then 90 else if m == 5 then 120 else if m == 6 then 151
      else if m == 7 then 181 else if m == 8 then 212 else if m == 9 then 243
      else if m == 10 then 273 else if m == 11 then 304 else 334;
    common + (if m > 2 && IsLeapYear(y) then 1 else 0)
  }

  /** Days since 0000-12-31: the first valid date has ordinal 1. */
  function Ordinal(d: Date): (n: int)
    requires Valid(d)
    ensures n >= 1
  {
    DaysBeforeYear(d.year) + DaysBeforeMonth(d.year, d.month) + d.day
  }

  /** Day of the week, 0 = Monday .. 6 = Sunday. */
  function Weekday(d: Date): (w: int)
    requires Valid(d)
    ensures 0 <= w <= 6
  {
    WeekdayOfOrdinal(Ordinal(d))
  }

  /** Weekday of the day with ordinal n; ordinal 1 is a Monday. */
  function WeekdayOfOrdinal(n: int): (w: int)
    ensures 0 <= w <= 6
  {
    (n + 6) % 7
  }

  /** Chronological order of dates: strictly earlier. */
  predicate Precedes(a: Date, b: Date) {
    a.year < b.year
    || (a.year == b.year && (a.month < b.month || (a.month == b.month && a.day < b.day)))
  }

  predicate SameMonth(a: Date, b: Date) {
    a.year == b.year && a.month == b.month
  }

  function FirstOfMonth(d: Date): (f: Date)
    requires Valid(d)
    ensures Valid(f) && SameMonth(f, d) && f.day == 1
  {
    Date(d.year, d.month, 1)
  }

  function LastOfMonth(d: Date): (l: Date)
    requires Valid(d)
    ensures Valid(l) && SameMonth(l, d) && l.day == DaysInMonth(d.year, d.month)
  {
    Date(d.year, d.month, DaysInMonth(d.year, d.month))
  }

  /** Quarter of a month: months 1-3 are quarter 1, ..., 10-12 quarter 4. */
  function QuarterOf(m: int): (q: int)
    requires 1 <= m <= 12
    ensures 1 <= q <= 4
    ensures 3 * q - 2 <= m <= 3 * q
  {
    (m - 1) / 3 + 1
  }

  // ---------------------------------------------------------------------------
  // Facts about the day counts

  lemma DaysBeforeNextYear(y: int)
    requires 1 <= y
    ensures DaysBeforeYear(y + 1) == DaysBeforeYear(y) + DaysInYear(y)
  {
  }

  /** Counting the years one by one agrees with the closed form. */
  lemma {:induction false} DaysBeforeYearClosedForm(y: int)
    requires 1 <= y
    ensures DaysBeforeYear(y) == ClosedForm(y - 1)
    decreases y
  {
    if y > 1 {
      DaysBeforeYearClosedForm(y - 1);
      ClosedFormStep(y - 2);
    }
  }

  lemma ClosedFormStep(p: int)
    ensures ClosedForm(p + 1) == ClosedForm(p) + DaysInYear(p + 1)
  {
    QuotientStepFour(p);
    QuotientStepHundred(p);
    QuotientStepFourHundred(p);
    DivisibilityChain(p + 1);
  }

  lemma DivisibilityChain(y: int)
    ensures y % 400 == 0 ==> y % 100 == 0
    ensures y % 100 == 0 ==> y % 4 == 0
  {
    if y % 400 == 0 {
      MultipleOfHundred(y, 4 * (y / 400));
    }
    if y % 100 == 0 {
      MultipleOfFour(y, 25 * (y / 100));
    }
  }

  lemma MultipleOfHundred(y: int, k: int)
    requires y == 100 * k
    ensures y % 100 == 0
  {
  }

  lemma MultipleOfFour(y: int, k: int)
    requires y == 4 * k
    ensures y % 4 == 0
  {
  }

  lemma QuotientStepFour(p: int)
    ensures (p + 1) / 4 == p / 4 + (if (p + 1) % 4 == 0 then 1 else 0)
  {
  }

  lemma QuotientStepHundred(p: int)
    ensures (p + 1) / 100 == p / 100 + (if (p + 1) % 100 == 0 then 1 else 0)
  {
  }

  lemma QuotientStepFourHundred(p: int)
    ensures (p + 1) / 400 == p / 400 + (if (p + 1) % 400 == 0 then 1 else 0)
  {
  }

  lemma DaysBeforeMonthStep(y: int, m: int)
    requires 1 <= m < 12
    ensures DaysBeforeMonth(y, m + 1) == DaysBeforeMonth(y, m) + DaysInMonth(y, m)
  {
  }

  lemma DaysBeforeDecember(y: int)
    ensures DaysBeforeMonth(y, 12) + DaysInMonth(y, 12) == DaysInYear(y)
  {
  }

  /** A month ends no later than any later month begins, and within the year. */
  lemma MonthEndsBefore(y: int, m1: int, m2: int)
    requires 1 <= m1 < m2 <= 12
    ensures DaysBeforeMonth(y, m1) + DaysInMonth(y, m1) <= DaysBeforeMonth(y, m2)
  {
  }

  lemma MonthEndsInYear(y: int, m: int)
    requires 1 <= m <= 12
    ensures DaysBeforeMonth(y, m) + DaysInMonth(y, m) <= DaysInYear(y)
  {
  }

  lemma {:induction false} YearEndsBefore(y1: int, y2: int)
    requires 1 <= y1 < y2
    ensures DaysBeforeYear(y1) + DaysInYear(y1) <= DaysBeforeYear(y2)
    decreases y2 - y1
  {
    DaysBeforeNextYear(y1);
    if y1 + 1 < y2 {
      YearEndsBefore(y1 + 1, y2);
    }
  }

  // ---------------------------------------------------------------------------
  // Ordinals follow the calendar order

  lemma OrdinalIncreasing(a: Date, b: Date)
    requires Valid(a) && Valid(b) && Precedes(a, b)
    ensures Ordinal(a) < Ordinal(b)
  {
    if a.year < b.year {
      MonthEndsInYear(a.year, a.month);
      YearEndsBefore(a.year, b.year);
    } else if a.month < b.month {
      MonthEndsBefore(a.year, a.month, b.month);
    }
  }

  /** Comparing ordinals is comparing dates chronologically. */
  lemma OrdinalOrder(a: Date, b: Date)
    requires Valid(a) && Valid(b)
    ensures Precedes(a, b) <==> Ordinal(a) < Ordinal(b)
    ensures a == b <==> Ordinal(a) == Ordinal(b)
  {
    if Precedes(a, b) {
      OrdinalIncreasing(a, b);
    } else if Precedes(b, a) {
      OrdinalIncreasing(b, a);
    }
  }

  /** A date lying between two dates of one month belongs to that month. */
  lemma WithinMonth(a: Date, x: Date, b: Date)
    requires Valid(a) && Valid(x) && Valid(b) && SameMonth(a, b)
    requires Ordinal(a) <= Ordinal(x) <= Ordinal(b)
    ensures SameMonth(x, a)
  {
    OrdinalOrder(a, x);
    OrdinalOrder(x, b);
  }

  // ---------------------------------------------------------------------------
  // Day arithmetic

  function NextDay(d: Date): (r: Date)
    requires Valid(d)
    ensures Valid(r) && Ordinal(r) == Ordinal(d) + 1
  {
    if d.day < DaysInMonth(d.year, d.month) then
      Date(d.year, d.month, d.day + 1)
    else if d.month < 12 then
      DaysBeforeMonthStep(d.year, d.month);
      Date(d.year, d.month + 1, 1)
    else
      DaysBeforeDecember(d.year);
      DaysBeforeNextYear(d.year);
      Date(d.year + 1, 1, 1)
  }

  function PrevDay(d: Date): (r: Date)
    requires Valid(d) && Ordinal(d) > 1
    ensures Valid(r) && Ordinal(r) == Ordinal(d) - 1
  {
    if d.day > 1 then
      Date(d.year, d.month, d.day - 1)
    else if d.month > 1 then
      DaysBeforeMonthStep(d.year, d.month - 1);
      Date(d.year, d.month - 1, DaysInMonth(d.year, d.month - 1))
    else
      DaysBeforeDecember(d.year - 1);
      DaysBeforeNextYear(d.year - 1);
      Date(d.year - 1, 12, 31)
  }

  /** The date n days after d. */
  function AddDays(d: Date, n: nat): (r: Date)
    requires Valid(d)
    ensures Valid(r) && Ordinal(r) == Ordinal(d) + n
    decreases n
  {
    if n == 0 then d else AddDays(NextDay(d), n - 1)
  }

  /** The date n days before d; there must be n earlier days. */
  function SubDays(d: Date, n: nat): (r: Date)
    requires Valid(d) && n < Ordinal(d)
    ensures Valid(r) && Ordinal(r) == Ordinal(d) - n
    decreases n
  {
    if n == 0 then d else SubDays(PrevDay(d), n - 1)
  }

  /** The Monday starting d's week (`d - weekday(d)` days). Ordinal 1 is a
      Monday, so there always are enough earlier days. */
  function MondayOf(d: Date): (m: Date)
    requires Valid(d)
    ensures Valid(m) && Ordinal(m) == Ordinal(d) - Weekday(d)
  {
    WeekdayBelowOrdinal(d);
    SubDays(d, Weekday(d))
  }

  /** The date MondayOf finds is indeed a Monday. */
  lemma MondayOfIsMonday(d: Date)
    requires Valid(d)
    ensures Weekday(MondayOf(d)) == 0
  {
    WeekdayByOrdinal(d, MondayOf(d), -Weekday(d));
  }

  lemma WeekdayBelowOrdinal(d: Date)
    requires Valid(d)
    ensures Weekday(d) < Ordinal(d)
  {
    MondayArithmetic(Ordinal(d));
  }

  /** Two dates k days apart have weekdays k apart, cyclically. */
  lemma WeekdayByOrdinal(a: Date, b: Date, k: int)
    requires Valid(a) && Valid(b) && Ordinal(b) == Ordinal(a) + k
    ensures Weekday(b) == (Weekday(a) + k) % 7
  {
    WeekdayShift(Ordinal(a), k);
  }

  /** A date n days before another has its weekday n back, cyclically. */
  lemma WeekdayBackByOrdinal(a: Date, b: Date, n: int)
    requires Valid(a) && Valid(b) && Ordinal(b) == Ordinal(a) - n
    ensures Weekday(b) == (Weekday(a) - n) % 7
  {
    WeekdayShift(Ordinal(a), -n);
  }

  /** Going back n days moves the weekday back by n, cyclically. */
  lemma SubDaysWeekday(d: Date, n: nat)
    requires Valid(d) && n < Ordinal(d)
    ensures Weekday(SubDays(d, n)) == (Weekday(d) - n) % 7
  {
    WeekdayBackByOrdinal(d, SubDays(d, n), n);
  }

  /** Going forward n days moves the weekday on by n, cyclically. */
  lemma AddDaysWeekday(d: Date, n: nat)
    requires Valid(d)
    ensures Weekday(AddDays(d, n)) == (Weekday(d) + n) % 7
  {
    WeekdayByOrdinal(d, AddDays(d, n), n);
  }

  /** The Sunday ending a week that starts on Monday m. */
  lemma SundayAfterMonday(m: Date)
    requires Valid(m) && Weekday(m) == 0
    ensures Weekday(AddDays(m, 6)) == 6
  {
    WeekdayByOrdinal(m, AddDays(m, 6), 6);
    SixAfterMonday(Weekday(m));
  }

  lemma SixAfterMonday(w: int)
    requires w == 0
    ensures (w + 6) % 7 == 6
  {
  }

  lemma MondayArithmetic(o: int)
    requires o >= 1
    ensures (o + 6) % 7 < o
  {
  }

  /** Moving n days moves the weekday by n, cyclically. */
  lemma WeekdayShift(o: int, n: int)
    ensures WeekdayOfOrdinal(o + n) == (WeekdayOfOrdinal(o) + n) % 7
  {
    var a := o + 6;
    var x := a % 7 + n;
    DivModSeven(a + n, a / 7 + x / 7, x % 7);
  }

  lemma DivModSeven(x: int, q: int, r: int)
    requires 0 <= r < 7 && x == 7 * q + r
    ensures x % 7 == r && x / 7 == q
  {
  }

  /** The calendar's anchors: 0001-01-01 was a Monday, 2016-01-31 a Sunday. */
  lemma WeekdayAnchors()
    ensures Weekday(Date(1, 1, 1)) == 0
    ensures Weekday(Date(2016, 1, 31)) == 6
  {
    assert DaysBeforeYear(2016) == 735963 by {
      DaysBeforeYearClosedForm(2016);
    }
    assert Ordinal(Date(2016, 1, 31)) == 735994;
    DivModSeven(736000, 105142, 6);
  }
}
