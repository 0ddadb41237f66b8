/**
  Calendar dates as the licence engine uses them: Python `date` values
  (proleptic Gregorian calendar, years 1 to 9999), their day ordinals
  (`date.toordinal()`, day 1 being 0001-01-01), and the (year, month)
  keys by which statistics are bucketed.

  `today + timedelta(days=t)` is computed by Python through ordinals, so the
  model compares ordinals; `OrdinalIsCalendarOrder` shows that comparing
  ordinals is the same as comparing the dates themselves.
*/
module Dates {

  const MinYear := 1
  const MaxYear := 9999

  /** Ordinal of 9999-12-31, the largest date Python represents. */
  const MaxOrdinal := 3652059

  datatype Date = Date(year: int, month: int, day: int) {
    predicate Valid() {
      MinYear <= year <= MaxYear && 1 <= month <= 12 && 1 <= day <= DaysInMonth(year, month)
    }
  }

  /** A value of Python's `date` type: always a real calendar day. */
  type CalendarDate = d: Date | d.Valid() witness Date(1, 1, 1)

  predicate IsLeap(y: int) {
    y % 4 == 0 && (y % 100 != 0 || y % 400 == 0)
  }

  function DaysInYear(y: int): int {
    if IsLeap(y) then 366 else 365
  }

  function DaysInMonth(y: int, m: int): (n: int)
    requires 1 <= m <= 12
    ensures 28 <= n <= 31
    ensures n == 29 <==> m == 2 && IsLeap(y)
  {
    if m == 2 then (if IsLeap(y) then 29 else 28)
    else if m == 4 || m == 6 || m == 9 || m == 11 then 30
    else 31
  }

  /** Days in the months of year y before month m. */
  function DaysBeforeMonth(y: int, m: int): int
    requires 1 <= m <= 12
  {
    [0, 31, 59, 90, 120, 151, 181, 212, 243, 273, 304, 334][m - 1]
      + (if m > 2 && IsLeap(y) then 1 else 0)
  }

  /** Days in the years before year y, counted from year 1. */
  function DaysBeforeYear(y: int): int
    requires y >= 1
  {
    var p := y - 1;
    p * 365 + p / 4 - p / 100 + p / 400
  }

  /** Python's `date.toordinal()`. */
  function Ordinal(d: CalendarDate): int {
    DaysBeforeYear(d.year) + DaysBeforeMonth(d.year, d.month) + d.day
  }

  /** Python's comparison of dates: by year, then month, then day. */
  predicate Before(a: Date, b: Date) {
    a.year < b.year
    || (a.year == b.year && a.month < b.month)
    || (a.year == b.year && a.month == b.month && a.day < b.day)
  }

  /** Counting multiples of 4 up to p + 1 adds one exactly when p + 1 is one. */
  lemma QuotientStep4(p: int)
    requires p >= 0
    ensures (p + 1) / 4 == p / 4 + (if (p + 1) % 4 == 0 then 1 else 0)
  {
    assert p == (p / 4) * 4 + p % 4;
  }

  lemma QuotientStep100(p: int)
    requires p >= 0
    ensures (p + 1) / 100 == p / 100 + (if (p + 1) % 100 == 0 then 1 else 0)
  {
    assert p == (p / 100) * 100 + p % 100;
  }

  lemma QuotientStep400(p: int)
    requires p >= 0
    ensures (p + 1) / 400 == p / 400 + (if (p + 1) % 400 == 0 then 1 else 0)
  {
    assert p == (p / 400) * 400 + p % 400;
  }

  /** A year's length counts its divisibility by 4, 100 and 400 one day each. */
  lemma YearLength(y: int)
    ensures DaysInYear(y) == 365 + (if y % 4 == 0 then 1 else 0)
      - (if y % 100 == 0 then 1 else 0) + (if y % 400 == 0 then 1 else 0)
  {
    if y % 100 == 0 {
      var q := y / 100;
      assert y == 4 * (25 * q);
    }
    if y % 400 == 0 {
      var q := y / 400;
      assert y == 100 * (4 * q);
    }
  }

  /** Consecutive years differ in ordinal by the length of the earlier one. */
  lemma DaysBeforeNextYear(y: int)
    requires y >= 1
    ensures DaysBeforeYear(y + 1) == DaysBeforeYear(y) + DaysInYear(y)
  {
    var p := y - 1;
    QuotientStep4(p);
    QuotientStep100(p);
    QuotientStep400(p);
    YearLength(y);
  }

  lemma {:induction false} DaysBeforeYearGrows(y1: int, y2: int)
    requires 1 <= y1 < y2
    ensures DaysBeforeYear(y1) + DaysInYear(y1) <= DaysBeforeYear(y2)
    decreases y2 - y1
  {
    DaysBeforeNextYear(y1);
    if y1 + 1 < y2 {
      DaysBeforeYearGrows(y1 + 1, y2);
    }
  }

  /** The days of month m and all months before it fit before month m'. */
  lemma MonthFits(y: int, m: int, m': int)
    requires 1 <= m < m' <= 12
    ensures DaysBeforeMonth(y, m) + DaysInMonth(y, m) <= DaysBeforeMonth(y, m')
  {
  }

  lemma YearFits(y: int, m: int)
    requires 1 <= m <= 12
    ensures DaysBeforeMonth(y, m) + DaysInMonth(y, m) <= DaysInYear(y)
  {
  }

  lemma BeforeHasSmallerOrdinal(a: CalendarDate, b: CalendarDate)
    requires Before(a, b)
    ensures Ordinal(a) < Ordinal(b)
  {
    if a.year < b.year {
      YearFits(a.year, a.month);
      DaysBeforeYearGrows(a.year, b.year);
    } else if a.month < b.month {
      MonthFits(a.year, a.month, b.month);
    }
  }

  /**
    Ordinals are an order isomorphism from dates onto integers: two dates
    compare exactly as their ordinals do.
  */
  lemma OrdinalIsCalendarOrder(a: CalendarDate, b: CalendarDate)
    ensures Before(a, b) <==> Ordinal(a) < Ordinal(b)
    ensures a == b <==> Ordinal(a) == Ordinal(b)
  {
    if Before(a, b) {
      BeforeHasSmallerOrdinal(a, b);
    } else if Before(b, a) {
      BeforeHasSmallerOrdinal(b, a);
    } else {
      assert a == b;
    }
  }

  lemma OrdinalAtLeastOne(d: CalendarDate)
    ensures 1 <= Ordinal(d)
  {
    if d != Date(MinYear, 1, 1) {
      BeforeHasSmallerOrdinal(Date(MinYear, 1, 1), d);
    }
  }

  lemma OrdinalAtMostMax(d: CalendarDate)
    ensures Ordinal(d) <= MaxOrdinal
  {
    if d != Date(MaxYear, 12, 31) {
      BeforeHasSmallerOrdinal(d, Date(MaxYear, 12, 31));
    }
  }

  /** Every date lies between the ordinals of 0001-01-01 and 9999-12-31. */
  lemma OrdinalRange(d: CalendarDate)
    ensures 1 <= Ordinal(d) <= MaxOrdinal
  {
    OrdinalAtLeastOne(d);
    OrdinalAtMostMax(d);
  }

  /**
    Python's `date + timedelta(days=t)` succeeds only when the resulting
    ordinal is a date again; otherwise it raises `OverflowError`.
  */
  predicate AddDaysInRange(d: CalendarDate, t: int) {
    1 <= Ordinal(d) + t <= MaxOrdinal
  }

  // ---------------------------------------------------------------------
  // Month keys ("YYYY-MM" in the source, ordered as strings, i.e. by year
  // then month)
  // ---------------------------------------------------------------------

  datatype MonthKey = MonthKey(year: int, month: int)

  predicate ValidMonth(k: MonthKey) {
    1 <= k.month <= 12
  }

  predicate Earlier(a: MonthKey, b: MonthKey) {
    a.year < b.year || (a.year == b.year && a.month < b.month)
  }

  function MonthOf(d: Date): MonthKey {
    MonthKey(d.year, d.month)
  }

  /** The calendar month after k. */
  function Next(k: MonthKey): (r: MonthKey)
    requires ValidMonth(k)
    ensures ValidMonth(r) && Earlier(k, r)
    ensures r.year * 12 + r.month == k.year * 12 + k.month + 1
  {
    if k.month == 12 then MonthKey(k.year + 1, 1) else MonthKey(k.year, k.month + 1)
  }

  /** n consecutive months starting at `start` (none when n <= 0). */
  function Window(start: MonthKey, n: int): seq<MonthKey>
    requires ValidMonth(start)
    decreases n
  {
    if n <= 0 then [] else [start] + Window(Next(start), n - 1)
  }

  /**
    A window has exactly max(n, 0) months, all valid, strictly ascending,
    each the calendar successor of the one before.
  */
  lemma {:induction false} WindowShape(start: MonthKey, n: int)
    requires ValidMonth(start)
    ensures |Window(start, n)| == if n <= 0 then 0 else n
    ensures n > 0 ==> Window(start, n)[0] == start
    ensures forall i :: 0 <= i < |Window(start, n)| ==> ValidMonth(Window(start, n)[i])
    ensures forall i :: 0 < i < |Window(start, n)| ==> Window(start, n)[i] == Next(Window(start, n)[i - 1])
    ensures forall i, j :: 0 <= i < j < |Window(start, n)| ==> Earlier(Window(start, n)[i], Window(start, n)[j])
    decreases n
  {
    if n > 0 {
      var rest := Window(Next(start), n - 1);
      WindowShape(Next(start), n - 1);
      var w := Window(start, n);
      assert w == [start] + rest;
      forall i, j | 0 <= i < j < |w| ensures Earlier(w[i], w[j]) {
        if i > 0 {
          assert Earlier(rest[i - 1], rest[j - 1]);
        } else if j > 1 {
          assert Earlier(rest[0], rest[j - 1]);
        }
      }
    }
  }

  /** The i-th month after `start`, by the wrap-around arithmetic of the source. */
  function MonthsAfter(start: MonthKey, i: int): MonthKey
    requires i >= 0
  {
    MonthKey(start.year + (start.month - 1 + i) / 12, (start.month - 1 + i) % 12 + 1)
  }

  /** The closed formula agrees with stepping through `Next` one month at a time. */
  lemma {:induction false} WindowAt(start: MonthKey, n: int, i: int)
    requires ValidMonth(start)
    requires 0 <= i < n
    ensures |Window(start, n)| == n
    ensures Window(start, n)[i] == MonthsAfter(start, i)
    decreases n
  {
    WindowShape(start, n);
    if i > 0 {
      WindowAt(Next(start), n - 1, i - 1);
      if start.month == 12 {
        assert (start.month - 1 + i) / 12 == 1 + (i - 1) / 12;
      }
    }
  }

  /**
    `months_window(n)`: the keys of the n months starting with today's month,
    built by the source's loop over `range(n)`.
  */
  method MonthsWindow(today: CalendarDate, n: int) returns (months: seq<MonthKey>)
    ensures months == Window(MonthOf(today), n)
  {
    var start := MonthOf(today);
    months := [];
    var i := 0;
    while i < n
      invariant 0 <= i && (n >= 0 ==> i <= n) && (n <= 0 ==> i == 0)
      invariant |months| == i
      invariant forall j :: 0 <= j < i ==> months[j] == MonthsAfter(start, j)
    {
      var y := start.year + (start.month - 1 + i) / 12;
      var m := (start.month - 1 + i) % 12 + 1;
      months := months + [MonthKey(y, m)];
      i := i + 1;
    }
    WindowShape(start, n);
    forall j | 0 <= j < |months| ensures months[j] == Window(start, n)[j] {
      WindowAt(start, n, j);
    }
  }
}
