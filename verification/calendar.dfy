/**
  Calendar dates as the dashboard uses them: an ISO 8601 `YYYY-MM-DD` date
  already parsed into a (year, month, day) triple, compared chronologically.
  Months are numbered by a single integer, `year * 12 + (month - 1)`, so that
  date-fns' `subMonths`/`eachMonthOfInterval` on first-of-month dates become
  integer arithmetic. The proleptic Gregorian calendar is used, as JavaScript's
  `Date` does.
 */
module Calendar {

  datatype Date = Date(year: int, month: int, day: int)

  predicate IsLeapYear(year: int) {
    year % 4 == 0 && (year % 100 != 0 || year % 400 == 0)
  }

  function DaysInMonth(year: int, month: int): (n: int)
    requires 1 <= month <= 12
    ensures 28 <= n <= 31
    ensures month == 2 ==> (n == 29 <==> IsLeapYear(year))
  {
    if month == 2 then (if IsLeapYear(year) then 29 else 28)
    else if month == 4 || month == 6 || month == 9 || month == 11 then 30
    else 31
  }

  predicate ValidDate(d: Date) {
    1 <= d.month <= 12 && 1 <= d.day <= DaysInMonth(d.year, d.month)
  }

  /** A real calendar day, the only kind a date input or the clock produces. */
  type CalendarDate = d: Date | ValidDate(d) witness Date(1970, 1, 1)

  /** Chronological order on days (a `Date` at local midnight in the source). */
  predicate DateLe(a: Date, b: Date) {
    || a.year < b.year
    || (a.year == b.year && (a.month < b.month || (a.month == b.month && a.day <= b.day)))
  }

  /** Months counted from January of year 0. */
  function MonthIndex(d: Date): int {
    d.year * 12 + (d.month - 1)
  }

  /** The first day of the month with index `k`. */
  function FirstOfMonth(k: int): (d: CalendarDate)
    ensures d.day == 1
    ensures MonthIndex(d) == k
  {
    Date(k / 12, k % 12 + 1, 1)
  }

  /** date-fns `startOfMonth`. */
  function StartOfMonth(d: CalendarDate): (r: CalendarDate)
    ensures r.year == d.year && r.month == d.month && r.day == 1
    ensures DateLe(r, d)
    ensures r == FirstOfMonth(MonthIndex(d))
  {
    Date(d.year, d.month, 1)
  }

  /** The month before (`year`, `month`), crossing into the previous year after January. */
  function PreviousMonth(year: int, month: int): (r: (int, int))
    requires 1 <= month <= 12
    ensures 1 <= r.1 <= 12
    ensures r.0 * 12 + r.1 == year * 12 + month - 1
  {
    if month == 1 then (year - 1, 12) else (year, month - 1)
  }

  /** The month after (`year`, `month`), crossing into the next year after December. */
  function NextMonth(year: int, month: int): (r: (int, int))
    requires 1 <= month <= 12
    ensures 1 <= r.1 <= 12
    ensures r.0 * 12 + r.1 == year * 12 + month + 1
  {
    if month == 12 then (year + 1, 1) else (year, month + 1)
  }

  /**
    The day-overflow rule of JavaScript's `new Date(year, monthIndex, day)` once
    the month is in range: a day below 1 borrows from the previous months, a
    day past the month's end carries into the next ones.
   */
  function NormalizeDay(year: int, month: int, day: int): (r: CalendarDate)
    requires 1 <= month <= 12
    decreases if day < 1 then 1 else 0, if day < 1 then -day else day
  {
    if day < 1 then
      var (py, pm) := PreviousMonth(year, month);
      NormalizeDay(py, pm, day + DaysInMonth(py, pm))
    else if day > DaysInMonth(year, month) then
      var (ny, nm) := NextMonth(year, month);
      NormalizeDay(ny, nm, day - DaysInMonth(year, month))
    else
      Date(year, month, day)
  }

  /**
    JavaScript's `new Date(year, monthIndex, day)` for a zero-based month index
    (time of day and time zone left out): the month index is brought into
    0..11 by floor division, then the day is normalised. The two-digit-year
    rule and the bounded range of JavaScript time values are not modelled.
   */
  function JsDate(year: int, monthIndex: int, day: int): (r: CalendarDate)
    ensures 1 <= day <= 28 && 0 <= monthIndex < 12 ==> r == Date(year, monthIndex + 1, day)
  {
    NormalizeDay(year + monthIndex / 12, monthIndex % 12 + 1, day)
  }

  /**
    The chart's `monthEnd`: `new Date(y, m + 1, 0)` for the first day of a
    month (`m` being JavaScript's zero-based month), i.e. day 0 of the next
    month.
   */
  function MonthEnd(monthStart: CalendarDate): (r: CalendarDate)
    ensures r.year == monthStart.year && r.month == monthStart.month
    ensures 28 <= r.day
  {
    JsDate(monthStart.year, (monthStart.month - 1) + 1, 0)
  }

  /** Day 0 of the next month is this month's last day, December and February included. */
  lemma MonthEndIsLastDay(monthStart: CalendarDate)
    ensures MonthEnd(monthStart)
            == Date(monthStart.year, monthStart.month, DaysInMonth(monthStart.year, monthStart.month))
  {
    var y, m := monthStart.year, monthStart.month;
    if m == 12 {
      assert (y + 12 / 12, 12 % 12 + 1) == (y + 1, 1);
      assert PreviousMonth(y + 1, 1) == (y, 12);
    } else {
      assert (y + m / 12, m % 12 + 1) == (y, m + 1);
      assert PreviousMonth(y, m + 1) == (y, m);
    }
  }

  /** On real days, being on or after the first of month `k` means lying in month `k` or later. */
  lemma OnOrAfterFirstOfMonth(k: int, d: CalendarDate)
    ensures DateLe(FirstOfMonth(k), d) <==> MonthIndex(d) >= k
  {
  }

  /** On real days, lying between a month's first and last day means lying in that month. */
  lemma WithinMonthIff(k: int, d: CalendarDate)
    ensures DateLe(FirstOfMonth(k), d) && DateLe(d, MonthEnd(FirstOfMonth(k))) <==> MonthIndex(d) == k
  {
    MonthEndIsLastDay(FirstOfMonth(k));
  }
}
