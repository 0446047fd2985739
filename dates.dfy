/**
 * Calendar dates as JavaScript's `Date` treats them for deadlines: the proleptic
 * Gregorian calendar, with `setDate` and `setMonth` letting an out-of-range day
 * roll over into the following month. Time of day and time zones are not modelled.
 */
module Dates {

  datatype Date = Date(year: int, month: int, day: int)

  predicate IsLeapYear(y: int) {
    y % 4 == 0 && (y % 100 != 0 || y % 400 == 0)
  }

  function DaysInMonth(y: int, m: int): (n: int)
    requires 1 <= m <= 12
    ensures 28 <= n <= 31
  {
    if m == 2 then (if IsLeapYear(y) then 29 else 28)
    else if m == 4 || m == 6 || m == 9 || m == 11 then 30
    else 31
  }

  predicate ValidDate(d: Date) {
    1 <= d.month <= 12 && 1 <= d.day <= DaysInMonth(d.year, d.month)
  }

  /** A date that exists in the calendar: what a stored timestamp denotes. */
  type CalendarDate = d: Date | ValidDate(d) witness Date(1970, 1, 1)

  /** What `new Date(null)` denotes: the first day of 1970. */
  const Epoch: CalendarDate := Date(1970, 1, 1)

  /** The month after (y, m). */
  function NextMonth(y: int, m: int): (r: (int, int))
    requires 1 <= m <= 12
    ensures 1 <= r.1 <= 12
  {
    if m == 12 then (y + 1, 1) else (y, m + 1)
  }

  /** `d.setDate(d.getDate() + k)` for a small k: the day grows by k, and an overflow
      past the month's end continues in the next month. */
  function AddDays(d: Date, k: int): (r: Date)
    requires ValidDate(d) && 0 <= k <= 28
    ensures ValidDate(r)
  {
    var n := d.day + k;
    if n <= DaysInMonth(d.year, d.month) then Date(d.year, d.month, n)
    else
      var next := NextMonth(d.year, d.month);
      Date(next.0, next.1, n - DaysInMonth(d.year, d.month))
  }

  /** `d.setMonth(d.getMonth() + 1)`: the month grows by one and the day is kept; a day
      the new month does not have rolls over into the month after it (31 January
      becomes 3 March in a common year). */
  function AddMonth(d: Date): (r: Date)
    requires ValidDate(d)
    ensures ValidDate(r)
  {
    var next := NextMonth(d.year, d.month);
    if d.day <= DaysInMonth(next.0, next.1) then Date(next.0, next.1, d.day)
    else
      var after := NextMonth(next.0, next.1);
      Date(after.0, after.1, d.day - DaysInMonth(next.0, next.1))
  }

  // ---- An independent day count, to state what the two operations do ----

  function YearLength(y: int): int {
    if IsLeapYear(y) then 366 else 365
  }

  /** Days from 1 January of year 1 to 1 January of year y (negative before year 1). */
  function DaysBeforeYear(y: int): int
    decreases if y >= 1 then y else 2 - y
  {
    if y == 1 then 0
    else if y > 1 then DaysBeforeYear(y - 1) + YearLength(y - 1)
    else DaysBeforeYear(y + 1) - YearLength(y)
  }

  /** Days from 1 January of year y to the first day of month m (m = 13: the next year). */
  function DaysBeforeMonth(y: int, m: int): int
    requires 1 <= m <= 13
  {
    var common :=
      if m == 1 then 0 else if m == 2 then 31 else if m == 3 then 59
      else if m == 4 then 90 else if m == 5 then 120 else if m == 6 then 151
      else if m == 7 then 181 else if m == 8 then 212 else if m == 9 then 243
      else if m == 10 then 273 else if m == 11 then 304 else if m == 12 then 334
      else 365;
    common + (if m > 2 && IsLeapYear(y) then 1 else 0)
  }

  /** The number of the day a date denotes, counted from 1 January of year 1. */
  function DayIndex(d: Date): int
    requires 1 <= d.month <= 12
  {
    DaysBeforeYear(d.year) + DaysBeforeMonth(d.year, d.month) + d.day - 1
  }

  /** The first day of the month after d's month is DaysInMonth days after the first of d's. */
  lemma {:induction false} FirstOfNextMonth(y: int, m: int)
    requires 1 <= m <= 12
    ensures var n := NextMonth(y, m);
      DayIndex(Date(n.0, n.1, 1)) == DayIndex(Date(y, m, 1)) + DaysInMonth(y, m)
  {
    if m == 12 {
      assert DaysBeforeYear(y + 1) == DaysBeforeYear(y) + YearLength(y) by {
        if y < 1 {
          assert DaysBeforeYear(y) == DaysBeforeYear(y + 1) - YearLength(y);
        }
      }
    }
  }

  /** Adding k days moves the day count forward by exactly k. */
  lemma {:induction false} AddDaysIndex(d: Date, k: int)
    requires ValidDate(d) && 0 <= k <= 28
    ensures DayIndex(AddDays(d, k)) == DayIndex(d) + k
  {
    FirstOfNextMonth(d.year, d.month);
  }

  /** Adding a month lands (day - 1) days after the first of the next month: the
      calendar rule by which JavaScript resolves an out-of-range day. */
  lemma {:induction false} AddMonthIndex(d: Date)
    requires ValidDate(d)
    ensures var n := NextMonth(d.year, d.month);
      DayIndex(AddMonth(d)) == DayIndex(Date(n.0, n.1, 1)) + d.day - 1
  {
    var n := NextMonth(d.year, d.month);
    FirstOfNextMonth(n.0, n.1);
  }
}
