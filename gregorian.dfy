/** Gregorian calendar arithmetic for the month view: how many days a month
    has, which weekday it starts on, and stepping between months. Months are
    numbered 0..11 as `Date.prototype.getMonth` numbers them. */
module Gregorian {

  /** The month the calendar shows (`currentDate`, always the first of a month). */
  datatype YearMonth = YearMonth(year: int, month: int) {
    predicate Valid() {
      0 <= month < 12
    }
  }

  predicate IsLeapYear(y: int) {
    y % 4 == 0 && (y % 100 != 0 || y % 400 == 0)
  }

  function YearLength(y: int): (n: int)
    ensures n == 365 || n == 366
  {
    if IsLeapYear(y) then 366 else 365
  }

  /** `new Date(year, month + 1, 0).getDate()`: the number of days in a month. */
  function DaysInMonth(y: int, m: int): (n: int)
    requires 0 <= m < 12
    ensures 28 <= n <= 31
    ensures n == 29 <==> m == 1 && IsLeapYear(y)
  {
    if m == 1 then (if IsLeapYear(y) then 29 else 28)
    else if m == 3 || m == 5 || m == 8 || m == 10 then 30
    else 31
  }

  /** Days of the year before the first of month `m`. */
  function DaysBeforeMonth(y: int, m: int): int
    requires 0 <= m <= 12
  {
    if m == 0 then 0 else DaysBeforeMonth(y, m - 1) + DaysInMonth(y, m - 1)
  }

  /** The twelve months add up to the length of the year. */
  lemma MonthsFillYear(y: int)
    ensures DaysBeforeMonth(y, 12) == YearLength(y)
  {
    var feb := DaysInMonth(y, 1);
    assert DaysBeforeMonth(y, 1) == 31;
    assert DaysBeforeMonth(y, 2) == 31 + feb;
    assert DaysBeforeMonth(y, 3) == 62 + feb;
    assert DaysBeforeMonth(y, 4) == 92 + feb;
    assert DaysBeforeMonth(y, 5) == 123 + feb;
    assert DaysBeforeMonth(y, 6) == 153 + feb;
    assert DaysBeforeMonth(y, 7) == 184 + feb;
    assert DaysBeforeMonth(y, 8) == 215 + feb;
    assert DaysBeforeMonth(y, 9) == 245 + feb;
    assert DaysBeforeMonth(y, 10) == 276 + feb;
    assert DaysBeforeMonth(y, 11) == 306 + feb;
    assert DaysBeforeMonth(y, 12) == 337 + feb;
  }

  /** Leap years strictly before year `y`, counted from year 0 (floor
      division, so it also holds for years before 0). */
  function LeapYearsBefore(y: int): int {
    (y - 1) / 4 - (y - 1) / 100 + (y - 1) / 400
  }

  /** One step of the floor-division count: `y / k` exceeds `(y - 1) / k` by
      one exactly when `k` divides `y`. */
  lemma DivStep(y: int, k: int)
    requires k == 4 || k == 100 || k == 400
    ensures y / k - (y - 1) / k == if y % k == 0 then 1 else 0
  {
    var q, r := y / k, y % k;
    assert y == k * q + r && 0 <= r < k;
    if r == 0 {
      assert y - 1 == k * (q - 1) + (k - 1);
    } else {
      assert y - 1 == k * q + (r - 1);
    }
  }

  /** A multiple of 400 is a multiple of 100. */
  lemma Multiple400Is100(y: int)
    requires y % 400 == 0
    ensures y % 100 == 0
  {
    var q := y / 400;
    assert y == 400 * q;
    assert y == 100 * (4 * q) + 0;
  }

  /** A multiple of 100 is a multiple of 4. */
  lemma Multiple100Is4(y: int)
    requires y % 100 == 0
    ensures y % 4 == 0
  {
    var h := y / 100;
    assert y == 100 * h;
    assert y == 4 * (25 * h) + 0;
  }

  lemma LeapYearsStep(y: int)
    ensures LeapYearsBefore(y + 1) - LeapYearsBefore(y) == if IsLeapYear(y) then 1 else 0
  {
    DivStep(y, 4);
    DivStep(y, 100);
    DivStep(y, 400);
    if y % 400 == 0 {
      Multiple400Is100(y);
    }
    if y % 100 == 0 {
      Multiple100Is4(y);
    }
    var d4, d100, d400 := y / 4 - (y - 1) / 4, y / 100 - (y - 1) / 100, y / 400 - (y - 1) / 400;
    assert LeapYearsBefore(y + 1) - LeapYearsBefore(y) == d4 - d100 + d400;
  }

  /** Days from 1970-01-01 to the first of January of year `y`. */
  function DaysBeforeYear(y: int): int {
    365 * (y - 1970) + LeapYearsBefore(y) - LeapYearsBefore(1970)
  }

  /** Consecutive years are one year length apart. */
  lemma YearStep(y: int)
    ensures DaysBeforeYear(y + 1) == DaysBeforeYear(y) + YearLength(y)
  {
    LeapYearsStep(y);
  }

  /** The day number of `new Date(y, m, d)`: days since 1970-01-01. */
  function DayNumber(y: int, m: int, d: int): int
    requires 0 <= m < 12
  {
    DaysBeforeYear(y) + DaysBeforeMonth(y, m) + d - 1
  }

  /** `Date.prototype.getDay` of a day number: 0 is Sunday; 1970-01-01 was a Thursday. */
  function Weekday(day: int): (w: int)
    ensures 0 <= w < 7
  {
    (day + 4) % 7
  }

  /** `new Date(year, month, 1).getDay()`. */
  function FirstWeekday(ym: YearMonth): (w: int)
    requires ym.Valid()
    ensures 0 <= w < 7
  {
    Weekday(DayNumber(ym.year, ym.month, 1))
  }

  /** `setMonth(getMonth() + 1)` on the first of a month. */
  function NextMonth(ym: YearMonth): (r: YearMonth)
    requires ym.Valid()
    ensures r.Valid()
    ensures 12 * r.year + r.month == 12 * ym.year + ym.month + 1
  {
    if ym.month == 11 then YearMonth(ym.year + 1, 0) else YearMonth(ym.year, ym.month + 1)
  }

  /** `setMonth(getMonth() - 1)` on the first of a month; it undoes NextMonth
      and NextMonth undoes it. */
  function PreviousMonth(ym: YearMonth): (r: YearMonth)
    requires ym.Valid()
    ensures r.Valid()
    ensures 12 * r.year + r.month == 12 * ym.year + ym.month - 1
    ensures NextMonth(r) == ym
  {
    if ym.month == 0 then YearMonth(ym.year - 1, 11) else YearMonth(ym.year, ym.month - 1)
  }

  /** Going forward one month and back again returns to the same month. */
  lemma BackAfterForward(ym: YearMonth)
    requires ym.Valid()
    ensures PreviousMonth(NextMonth(ym)) == ym
  {
  }

  /** The first of the next month is the day after the last day of this one:
      day 0 of the next month, which `new Date(year, month + 1, 0)` asks for,
      is day `DaysInMonth` of this month. */
  lemma {:induction false} FirstOfNextMonth(ym: YearMonth)
    requires ym.Valid()
    ensures var n := NextMonth(ym);
      DayNumber(n.year, n.month, 1) == DayNumber(ym.year, ym.month, 1) + DaysInMonth(ym.year, ym.month)
    ensures var n := NextMonth(ym);
      DayNumber(n.year, n.month, 0) == DayNumber(ym.year, ym.month, DaysInMonth(ym.year, ym.month))
  {
    if ym.month == 11 {
      YearStep(ym.year);
      MonthsFillYear(ym.year);
    }
  }

  /** The blank cells of consecutive month grids fit together: next month
      starts on the weekday after this month's last day. */
  lemma NextMonthWeekday(ym: YearMonth)
    requires ym.Valid()
    ensures FirstWeekday(NextMonth(ym)) == (FirstWeekday(ym) + DaysInMonth(ym.year, ym.month)) % 7
  {
    FirstOfNextMonth(ym);
    var next := NextMonth(ym);
    WeekdayShift(DayNumber(ym.year, ym.month, 1), DayNumber(next.year, next.month, 1), DaysInMonth(ym.year, ym.month));
  }

  /** Moving `n` days on moves the weekday `n` places on, modulo 7. */
  lemma WeekdayShift(d1: int, d2: int, n: int)
    requires d2 == d1 + n
    ensures Weekday(d2) == (Weekday(d1) + n) % 7
  {
    var a := d1 + 4;
    var q, r := a / 7, a % 7;
    assert a + n == 7 * q + (r + n);
    var q2, r2 := (r + n) / 7, (r + n) % 7;
    assert a + n == 7 * (q + q2) + r2 && 0 <= r2 < 7;
  }

  /** The month the calendar opens on, May 2025, starts on a Thursday and has 31 days. */
  lemma OpeningMonth()
    ensures FirstWeekday(YearMonth(2025, 4)) == 4
    ensures DaysInMonth(2025, 4) == 31
  {
    assert LeapYearsBefore(2025) == 491;
    assert LeapYearsBefore(1970) == 477;
    assert DaysBeforeYear(2025) == 20089;
    assert DaysBeforeMonth(2025, 4) == 120 by {
      assert !IsLeapYear(2025);
      MonthsUpToMay(2025);
    }
    assert DayNumber(2025, 4, 1) == 20209;
  }

  lemma MonthsUpToMay(y: int)
    requires !IsLeapYear(y)
    ensures DaysBeforeMonth(y, 4) == 120
  {
    assert DaysBeforeMonth(y, 1) == 31;
    assert DaysBeforeMonth(y, 2) == 59;
    assert DaysBeforeMonth(y, 3) == 90;
  }

}
