/**
 * Calendar dates as the dashboard uses them: a publish time is a date at
 * midnight, and `pd.DateOffset(months = n)` moves a date back by whole
 * months, clamping the day to the last day of the month it lands in.
 */
module Dates {

  datatype Date = Date(year: int, month: int, day: int)

  /** The proleptic Gregorian leap-year rule pandas timestamps follow. */
  predicate IsLeapYear(y: int) {
    (y % 4 == 0 && y % 100 != 0) || y % 400 == 0
  }

  function DaysInMonth(y: int, m: int): (n: int)
    requires 1 <= m <= 12
    ensures 28 <= n <= 31
    ensures n == 29 <==> m == 2 && IsLeapYear(y)
  {
    if m == 2 then (if IsLeapYear(y) then 29 else 28)
    else if m == 4 || m == 6 || m == 9 || m == 11 then 30
    else 31
  }

  predicate ValidDate(d: Date) {
    1 <= d.month <= 12 && 1 <= d.day <= DaysInMonth(d.year, d.month)
  }

  /** A date that exists on the calendar. */
  type CalendarDate = d: Date | ValidDate(d) witness Date(2000, 1, 1)

  /** Months since the start of year 0. */
  function MonthIndex(d: Date): int {
    d.year * 12 + d.month - 1
  }

  /**
   * A sort key for dates: 31 slots per month, so that comparing keys is
   * comparing dates (see OrdinalOrder).
   */
  function Ordinal(d: Date): int {
    MonthIndex(d) * 31 + d.day - 1
  }

  /** The calendar order itself: by year, then month, then day. */
  predicate OnOrBefore(a: Date, b: Date) {
    a.year < b.year
    || (a.year == b.year && a.month < b.month)
    || (a.year == b.year && a.month == b.month && a.day <= b.day)
  }

  /** Comparing ordinals is comparing dates, and the ordinal is one-to-one. */
  lemma OrdinalOrder(a: CalendarDate, b: CalendarDate)
    ensures OnOrBefore(a, b) <==> Ordinal(a) <= Ordinal(b)
    ensures Ordinal(a) == Ordinal(b) ==> a == b
  {
    if a.year < b.year {
      assert MonthIndex(a) + 1 <= MonthIndex(b);
    } else if b.year < a.year {
      assert MonthIndex(b) + 1 <= MonthIndex(a);
    }
  }

  /**
   * `d - pd.DateOffset(months = n)`: step back n months and keep the day of
   * the month, or the last day of the target month when that is shorter.
   */
  function MonthsBack(d: CalendarDate, n: nat): (r: CalendarDate)
    ensures MonthIndex(r) == MonthIndex(d) - n
    ensures r.day <= d.day
    ensures r.day == d.day || r.day == DaysInMonth(r.year, r.month)
  {
    var idx := MonthIndex(d) - n;
    var y := idx / 12;
    var m := idx % 12 + 1;
    var last := DaysInMonth(y, m);
    Date(y, m, if d.day <= last then d.day else last)
  }

  /** Stepping back never moves forward; stepping back by 0 months is the identity. */
  lemma MonthsBackNotLater(d: CalendarDate, n: nat)
    ensures Ordinal(MonthsBack(d, n)) <= Ordinal(d)
    ensures n > 0 ==> Ordinal(MonthsBack(d, n)) < Ordinal(d)
    ensures n == 0 ==> MonthsBack(d, n) == d
  {
    var r := MonthsBack(d, n);
    if n == 0 {
      assert r.year * 12 + r.month == d.year * 12 + d.month;
    }
  }

  /** The further back, the earlier: a 6-month threshold is never before a 12-month one. */
  lemma MonthsBackAntitone(d: CalendarDate, near: nat, far: nat)
    requires near <= far
    ensures Ordinal(MonthsBack(d, far)) <= Ordinal(MonthsBack(d, near))
  {
    var a, b := MonthsBack(d, far), MonthsBack(d, near);
    if near < far {
      assert MonthIndex(a) + 1 <= MonthIndex(b);
    } else {
      assert a == b;
    }
  }

  /** Day clamping: the last day of March goes back to a leap day, and a leap day back a year to Feb 28. */
  lemma MonthsBackClampsDay()
    ensures MonthsBack(Date(2024, 3, 31), 1) == Date(2024, 2, 29)
    ensures MonthsBack(Date(2024, 2, 29), 12) == Date(2023, 2, 28)
    ensures MonthsBack(Date(2023, 12, 1), 12) == Date(2022, 12, 1)
  {
  }
}
