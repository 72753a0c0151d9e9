/**
  The `chartData` computation of the revenue chart: one bucket per calendar
  month of the window, oldest first, each holding the revenue dated from the
  month's first day to its last day. Month labels are presentation and left out.
 */
module RevenueChart {
  import opened Seqs
  import opened Calendar
  import opened SalesTypes
  import opened Ledger

  /** One point of the chart: the month (its first day) and its revenue. */
  datatype Bucket = Bucket(month: CalendarDate, value: real)

  /** date-fns `eachMonthOfInterval` between two month starts, as month indices, ascending. */
  function EachMonthOfInterval(start: int, end: int): (r: seq<int>)
    requires start <= end
    ensures |r| == end - start + 1
    ensures forall i :: 0 <= i < |r| ==> r[i] == start + i
    decreases end - start
  {
    if start == end then [start] else [start] + EachMonthOfInterval(start + 1, end)
  }

  /** The chart's per-month filter: `saleDate >= monthStart && saleDate <= monthEnd`. */
  function InMonthRange(k: int): Sale -> bool {
    (s: Sale) => DateLe(FirstOfMonth(k), s.date) && DateLe(s.date, MonthEnd(FirstOfMonth(k)))
  }

  /** The revenue of month `k` as the chart computes it. */
  function MonthRevenue(sales: seq<Sale>, k: int): real {
    SumWhere(sales, InMonthRange(k))
  }

  /** Selection by calendar month, stated on month indices alone. */
  function DatedInMonth(k: int): Sale -> bool {
    (s: Sale) => MonthIndex(s.date) == k
  }

  function DatedFrom(lo: int): Sale -> bool {
    (s: Sale) => lo <= MonthIndex(s.date)
  }

  function DatedBetween(lo: int, hi: int): Sale -> bool {
    (s: Sale) => lo <= MonthIndex(s.date) <= hi
  }

  /** The `.map` over the month range: one bucket per month, in range order. */
  function MonthBuckets(sales: seq<Sale>, months: seq<int>): (r: seq<Bucket>)
    ensures |r| == |months|
    ensures forall i :: 0 <= i < |r| ==> r[i].month == FirstOfMonth(months[i])
    ensures forall i :: 0 <= i < |r| ==> r[i].value == SumWhere(sales, DatedInMonth(months[i]))
  {
    if |months| == 0 then []
    else
      MonthRevenueIsCalendarMonth(sales, months[0]);
      [Bucket(FirstOfMonth(months[0]), MonthRevenue(sales, months[0]))] + MonthBuckets(sales, months[1..])
  }

  /**
    `chartData` for a window of `months` months (the dashboard offers 1, 3, 6
    and 12): the months from `months - 1` before the current one up to the
    current one.
   */
  function ChartData(sales: seq<Sale>, today: CalendarDate, months: int): (r: seq<Bucket>)
    requires months >= 1
    ensures |r| == months
    ensures MonthIndex(r[0].month) == MonthIndex(today) - (months - 1)
    ensures r[months - 1].month == StartOfMonth(today)
    ensures forall i :: 0 <= i < |r| ==> r[i].month.day == 1
    ensures forall i :: 0 <= i < |r| - 1 ==> MonthIndex(r[i + 1].month) == MonthIndex(r[i].month) + 1
    ensures forall i :: 0 <= i < |r| ==> r[i].value == SumWhere(sales, DatedInMonth(MonthIndex(r[i].month)))
  {
    var startDate := PeriodStart(today, months);
    var endDate := StartOfMonth(today);
    MonthBuckets(sales, EachMonthOfInterval(MonthIndex(startDate), MonthIndex(endDate)))
  }

  /** Between the first day and `monthEnd`, both inclusive, means dated in that calendar month. */
  lemma MonthRevenueIsCalendarMonth(sales: seq<Sale>, k: int)
    ensures MonthRevenue(sales, k) == SumWhere(sales, DatedInMonth(k))
  {
    forall s | s in sales
      ensures InMonthRange(k)(s) == DatedInMonth(k)(s)
    {
      WithinMonthIff(k, s.date);
    }
    SumWhereCongruent(sales, InMonthRange(k), DatedInMonth(k));
  }

  /** A month in which no sale is dated still gets a bucket, with value 0. */
  lemma EmptyMonthIsZero(sales: seq<Sale>, k: int)
    requires forall s :: s in sales ==> MonthIndex(s.date) != k
    ensures MonthRevenue(sales, k) == 0.0
  {
    MonthRevenueIsCalendarMonth(sales, k);
    FilterNone(sales, DatedInMonth(k));
  }

  /** No sale falls in the ranges of two different months. */
  lemma MonthRangesDisjoint(s: Sale, k1: int, k2: int)
    requires k1 != k2
    ensures !(InMonthRange(k1)(s) && InMonthRange(k2)(s))
  {
    WithinMonthIff(k1, s.date);
    WithinMonthIff(k2, s.date);
  }

  /** The sum of the bucket values, front to back. */
  function ChartTotal(buckets: seq<Bucket>): real {
    if |buckets| == 0 then 0.0 else buckets[0].value + ChartTotal(buckets[1..])
  }

  /** The buckets of a month range add up to the revenue dated anywhere in that range. */
  lemma {:induction false} RangeTotal(sales: seq<Sale>, lo: int, hi: int)
    requires lo <= hi
    ensures ChartTotal(MonthBuckets(sales, EachMonthOfInterval(lo, hi))) == SumWhere(sales, DatedBetween(lo, hi))
    decreases hi - lo
  {
    var range := EachMonthOfInterval(lo, hi);
    var buckets := MonthBuckets(sales, range);
    if lo == hi {
      assert buckets[1..] == [];
      SumWhereCongruent(sales, DatedInMonth(lo), DatedBetween(lo, hi));
    } else {
      assert range[1..] == EachMonthOfInterval(lo + 1, hi);
      RangeTotal(sales, lo + 1, hi);
      SumWhereSplit(sales, DatedBetween(lo, hi), DatedInMonth(lo), DatedBetween(lo + 1, hi));
    }
  }

  /**
    With non-negative values the chart never shows more than the period total
    of the same window: the period total also counts sales dated after the
    current month, the chart stops there.
   */
  lemma ChartTotalAtMostPeriodTotal(sales: seq<Sale>, today: CalendarDate, months: int)
    requires months >= 1
    requires forall s :: s in sales ==> s.value >= 0.0
    ensures ChartTotal(ChartData(sales, today, months)) <= PeriodTotal(sales, today, months)
  {
    var lo, hi := MonthIndex(today) - (months - 1), MonthIndex(today);
    assert SumWhere(sales, DatedBetween(lo, hi)) <= SumWhere(sales, DatedFrom(lo)) by {
      BoundedWindowAtMostOpen(sales, lo, hi);
    }
    ChartAtMostPeriodFromWindows(sales, today, months);
  }

  /** When no sale is dated after the current month, the chart adds up to the period total. */
  lemma ChartTotalEqualsPeriodTotal(sales: seq<Sale>, today: CalendarDate, months: int)
    requires months >= 1
    requires forall s :: s in sales ==> MonthIndex(s.date) <= MonthIndex(today)
    ensures ChartTotal(ChartData(sales, today, months)) == PeriodTotal(sales, today, months)
  {
    var lo, hi := MonthIndex(today) - (months - 1), MonthIndex(today);
    assert SumWhere(sales, DatedBetween(lo, hi)) == SumWhere(sales, DatedFrom(lo)) by {
      NoLaterSales(sales, lo, hi);
    }
    ChartEqualsPeriodFromWindows(sales, today, months);
  }

  /** When the bounded window sums to at most the open-ended one, so does the chart against the period total. */
  lemma ChartAtMostPeriodFromWindows(sales: seq<Sale>, today: CalendarDate, months: int)
    requires months >= 1
    requires SumWhere(sales, DatedBetween(MonthIndex(today) - (months - 1), MonthIndex(today)))
             <= SumWhere(sales, DatedFrom(MonthIndex(today) - (months - 1)))
    ensures ChartTotal(ChartData(sales, today, months)) <= PeriodTotal(sales, today, months)
  {
    ChartTotalIsRangeTotal(sales, today, months);
    PeriodTotalFromMonth(sales, today, months);
  }

  /** When the bounded and the open-ended window agree, so do the chart and the period total. */
  lemma ChartEqualsPeriodFromWindows(sales: seq<Sale>, today: CalendarDate, months: int)
    requires months >= 1
    requires SumWhere(sales, DatedBetween(MonthIndex(today) - (months - 1), MonthIndex(today)))
             == SumWhere(sales, DatedFrom(MonthIndex(today) - (months - 1)))
    ensures ChartTotal(ChartData(sales, today, months)) == PeriodTotal(sales, today, months)
  {
    ChartTotalIsRangeTotal(sales, today, months);
    PeriodTotalFromMonth(sales, today, months);
  }

  /** With non-negative values, a window ending at month `hi` sums to at most the open-ended one. */
  lemma BoundedWindowAtMostOpen(sales: seq<Sale>, lo: int, hi: int)
    requires forall s :: s in sales ==> s.value >= 0.0
    ensures SumWhere(sales, DatedBetween(lo, hi)) <= SumWhere(sales, DatedFrom(lo))
  {
    SumWhereMonotone(sales, DatedBetween(lo, hi), DatedFrom(lo));
  }

  /** Without sales dated after month `hi`, a window ending at `hi` and an open-ended one agree. */
  lemma NoLaterSales(sales: seq<Sale>, lo: int, hi: int)
    requires forall s :: s in sales ==> MonthIndex(s.date) <= hi
    ensures SumWhere(sales, DatedBetween(lo, hi)) == SumWhere(sales, DatedFrom(lo))
  {
    SumWhereCongruent(sales, DatedBetween(lo, hi), DatedFrom(lo));
  }

  lemma ChartTotalIsRangeTotal(sales: seq<Sale>, today: CalendarDate, months: int)
    requires months >= 1
    ensures ChartTotal(ChartData(sales, today, months))
            == SumWhere(sales, DatedBetween(MonthIndex(today) - (months - 1), MonthIndex(today)))
  {
    var lo, hi := MonthIndex(today) - (months - 1), MonthIndex(today);
    assert MonthIndex(PeriodStart(today, months)) == lo;
    assert MonthIndex(StartOfMonth(today)) == hi;
    RangeTotal(sales, lo, hi);
  }

  /** The period total selects the sales dated in its first month or later. */
  lemma PeriodTotalFromMonth(sales: seq<Sale>, today: CalendarDate, months: int)
    ensures PeriodTotal(sales, today, months) == SumWhere(sales, DatedFrom(MonthIndex(today) - (months - 1)))
  {
    var lo := MonthIndex(today) - (months - 1);
    forall s | s in sales
      ensures WithinPeriod(today, months)(s) == DatedFrom(lo)(s)
    {
      OnOrAfterFirstOfMonth(lo, s.date);
    }
    SumWhereCongruent(sales, WithinPeriod(today, months), DatedFrom(lo));
  }
}
