/**
  The sales ledger of `useSales`: an immutable sequence of sales, newest first,
  with the two mutations (add, delete) and the four calendar-window queries.
  The wall clock is the `today` parameter, `crypto.randomUUID()` is the `id`
  parameter and the insertion timestamp is the `createdAt` parameter.
 */
module Ledger {
  import opened Options
  import opened Seqs
  import opened Calendar
  import opened SalesTypes

  /** `reduce((sum, sale) => sum + sale.value, 0)`: the values added left to right. */
  function Total(sales: seq<Sale>): real {
    if |sales| == 0 then 0.0 else Total(sales[..|sales| - 1]) + sales[|sales| - 1].value
  }

  lemma {:induction false} TotalAppend(a: seq<Sale>, b: seq<Sale>)
    ensures Total(a + b) == Total(a) + Total(b)
    decreases |b|
  {
    if |b| > 0 {
      assert (a + b)[..|a + b| - 1] == a + b[..|b| - 1];
      TotalAppend(a, b[..|b| - 1]);
    } else {
      assert a + b == a;
    }
  }

  /** The sum of the values of the sales that satisfy `p`: a filter followed by a reduce. */
  function SumWhere(sales: seq<Sale>, p: Sale -> bool): real {
    Total(Filter(sales, p))
  }

  function Everything(): Sale -> bool {
    (s: Sale) => true
  }

  /**
    A filtered sum is 0 when nothing is selected and the full total when
    everything is; with non-negative values it lies between the two.
   */
  lemma SumWhereBounds(sales: seq<Sale>, p: Sale -> bool)
    ensures (forall x :: x in sales ==> !p(x)) ==> SumWhere(sales, p) == 0.0
    ensures (forall x :: x in sales ==> p(x)) ==> SumWhere(sales, p) == Total(sales)
    ensures (forall x :: x in sales ==> x.value >= 0.0) ==> 0.0 <= SumWhere(sales, p) <= Total(sales)
  {
    if forall x :: x in sales ==> !p(x) {
      FilterNone(sales, p);
    }
    if forall x :: x in sales ==> p(x) {
      FilterAll(sales, p);
    }
    if forall x :: x in sales ==> x.value >= 0.0 {
      SumWhereNonNegative(sales, p);
      SumWhereMonotone(sales, p, Everything());
      FilterAll(sales, Everything());
    }
  }

  lemma {:induction false} SumWhereNonNegative(sales: seq<Sale>, p: Sale -> bool)
    requires forall x :: x in sales ==> x.value >= 0.0
    ensures SumWhere(sales, p) >= 0.0
    decreases |sales|
  {
    if |sales| > 0 {
      var x, rest := sales[0], sales[1..];
      assert sales == [x] + rest;
      assert x in sales;
      assert forall y :: y in rest ==> y in sales;
      SumWhereNonNegative(rest, p);
      SumWhereCons(x, rest, p);
    }
  }

  /** Peeling the first sale off a filtered sum. */
  lemma SumWhereCons(x: Sale, sales: seq<Sale>, p: Sale -> bool)
    ensures SumWhere([x] + sales, p) == (if p(x) then x.value else 0.0) + SumWhere(sales, p)
  {
    FilterAppend([x], sales, p);
    assert Filter([x], p) == (if p(x) then [x] else []) by {
      assert [x][1..] == [];
    }
    TotalAppend(Filter([x], p), Filter(sales, p));
    assert Total([x]) == x.value by {
      assert [x][..0] == [];
    }
  }

  /** A selection that is the disjoint union of two others sums to their two sums. */
  lemma {:induction false} SumWhereSplit(sales: seq<Sale>, p: Sale -> bool, q: Sale -> bool, r: Sale -> bool)
    requires forall x :: x in sales ==> (p(x) <==> q(x) || r(x))
    requires forall x :: x in sales ==> !(q(x) && r(x))
    ensures SumWhere(sales, p) == SumWhere(sales, q) + SumWhere(sales, r)
    decreases |sales|
  {
    if |sales| > 0 {
      var x, rest := sales[0], sales[1..];
      assert sales == [x] + rest;
      assert x in sales;
      assert forall y :: y in rest ==> y in sales;
      SumWhereSplit(rest, p, q, r);
      SumWhereCons(x, rest, p);
      SumWhereCons(x, rest, q);
      SumWhereCons(x, rest, r);
    }
  }

  /** With non-negative values, selecting more sales never lowers the sum. */
  lemma {:induction false} SumWhereMonotone(sales: seq<Sale>, p: Sale -> bool, q: Sale -> bool)
    requires forall x :: x in sales ==> x.value >= 0.0
    requires forall x :: x in sales && p(x) ==> q(x)
    ensures SumWhere(sales, p) <= SumWhere(sales, q)
    decreases |sales|
  {
    if |sales| > 0 {
      var x, rest := sales[0], sales[1..];
      assert sales == [x] + rest;
      assert x in sales;
      assert forall y :: y in rest ==> y in sales;
      SumWhereMonotone(rest, p, q);
      SumWhereCons(x, rest, p);
      SumWhereCons(x, rest, q);
    }
  }

  /** Selections that agree on every sale give the same sum. */
  lemma SumWhereCongruent(sales: seq<Sale>, p: Sale -> bool, q: Sale -> bool)
    requires forall x :: x in sales ==> p(x) == q(x)
    ensures SumWhere(sales, p) == SumWhere(sales, q)
  {
    FilterCongruent(sales, p, q);
  }

  /** Selections used by the queries, named so that every use denotes the same predicate. */
  function HasIdOf(id: string): Sale -> bool {
    (s: Sale) => s.id == id
  }

  function OtherThan(id: string): Sale -> bool {
    (s: Sale) => s.id != id
  }

  function DatedOn(today: CalendarDate): Sale -> bool {
    (s: Sale) => s.date == today
  }

  function FromStartOfMonth(today: CalendarDate): Sale -> bool {
    (s: Sale) => DateLe(StartOfMonth(today), s.date)
  }

  function WithinPeriod(today: CalendarDate, months: int): Sale -> bool {
    (s: Sale) => InPeriod(today, months, s)
  }

  predicate HasId(sales: seq<Sale>, id: string) {
    exists s :: s in sales && s.id == id
  }

  /** The ledger's invariants: ids are unique and every value is strictly positive. */
  predicate ValidLedger(sales: seq<Sale>) {
    && (forall i, j :: 0 <= i < j < |sales| ==> sales[i].id != sales[j].id)
    && (forall s :: s in sales ==> s.value > 0.0)
  }

  /**
    `addSale`: the new sale goes in front of the existing ones. A missing or
    empty date (`date || today`) falls back to today.
   */
  function AddSale(
    sales: seq<Sale>, id: string, value: real, source: SaleSource,
    description: Option<string>, date: Option<CalendarDate>,
    today: CalendarDate, createdAt: string): (r: seq<Sale>)
    ensures |r| == |sales| + 1
    ensures r[1..] == sales
    ensures r[0].id == id && r[0].value == value && r[0].source == source
    ensures r[0].description == description && r[0].createdAt == createdAt
    ensures date.Some? ==> r[0].date == date.value
    ensures date.None? ==> r[0].date == today
  {
    var newSale := Sale(id, value, source, description, if date.Some? then date.value else today, createdAt);
    [newSale] + sales
  }

  /** `deleteSale`: every sale with the given id goes, all the others stay in order. */
  function DeleteSale(sales: seq<Sale>, id: string): (r: seq<Sale>)
    ensures forall s :: s in r <==> s in sales && s.id != id
    ensures IsSubsequence(r, sales)
    ensures |r| + Count(sales, HasIdOf(id)) == |sales|
    ensures !HasId(sales, id) ==> r == sales
  {
    var keep := OtherThan(id);
    CountComplement(sales, keep, HasIdOf(id));
    var r := Filter(sales, keep);
    FilterMembership(sales, keep);
    assert !HasId(sales, id) ==> r == sales by {
      if !HasId(sales, id) {
        FilterAll(sales, keep);
      }
    }
    r
  }

  /** Deleting an id a second time changes nothing. */
  lemma DeleteSaleIdempotent(sales: seq<Sale>, id: string)
    ensures DeleteSale(DeleteSale(sales, id), id) == DeleteSale(sales, id)
  {
    FilterIdempotent(sales, OtherThan(id));
  }

  /** Deleting a freshly added sale by its id restores the ledger. */
  lemma DeleteUndoesAdd(
    sales: seq<Sale>, id: string, value: real, source: SaleSource,
    description: Option<string>, date: Option<CalendarDate>,
    today: CalendarDate, createdAt: string)
    requires !HasId(sales, id)
    ensures DeleteSale(AddSale(sales, id, value, source, description, date, today, createdAt), id) == sales
  {
    var added := AddSale(sales, id, value, source, description, date, today, createdAt);
    var keep := OtherThan(id);
    assert added == [added[0]] + sales;
    FilterAppend([added[0]], sales, keep);
    FilterNone([added[0]], keep);
    FilterAll(sales, keep);
    assert [] + sales == sales;
  }

  /** Adding a sale with a fresh id and a positive value keeps the ledger valid. */
  lemma AddSalePreservesValid(
    sales: seq<Sale>, id: string, value: real, source: SaleSource,
    description: Option<string>, date: Option<CalendarDate>,
    today: CalendarDate, createdAt: string)
    requires ValidLedger(sales) && !HasId(sales, id) && value > 0.0
    ensures ValidLedger(AddSale(sales, id, value, source, description, date, today, createdAt))
  {
    var r := AddSale(sales, id, value, source, description, date, today, createdAt);
    forall i, j | 0 <= i < j < |r|
      ensures r[i].id != r[j].id
    {
      assert r[j] == sales[j - 1];
      if i > 0 {
        assert r[i] == sales[i - 1];
      } else {
        assert r[j] in sales;
      }
    }
  }

  /** Deleting keeps the ledger valid. */
  lemma {:induction false} DeleteSalePreservesValid(sales: seq<Sale>, id: string)
    requires ValidLedger(sales)
    ensures ValidLedger(DeleteSale(sales, id))
  {
    SubsequenceKeepsIdsUnique(DeleteSale(sales, id), sales);
  }

  lemma {:induction false} SubsequenceKeepsIdsUnique(a: seq<Sale>, b: seq<Sale>)
    requires IsSubsequence(a, b)
    requires forall i, j :: 0 <= i < j < |b| ==> b[i].id != b[j].id
    ensures forall i, j :: 0 <= i < j < |a| ==> a[i].id != a[j].id
    decreases |b|
  {
    if |a| > 0 {
      assert |b| > 0;
      var tail := b[1..];
      assert forall i, j :: 0 <= i < j < |tail| ==> tail[i].id != tail[j].id by {
        forall i, j | 0 <= i < j < |tail| ensures tail[i].id != tail[j].id {
          assert tail[i] == b[i + 1] && tail[j] == b[j + 1];
        }
      }
      if a[0] == b[0] && IsSubsequence(a[1..], tail) {
        SubsequenceKeepsIdsUnique(a[1..], tail);
        SubsequenceElements(a[1..], tail);
        forall j | 0 < j < |a| ensures a[0].id != a[j].id {
          assert a[j] == a[1..][j - 1];
          assert a[j] in a[1..];
          assert a[j] in tail;
          var k :| 0 <= k < |tail| && tail[k] == a[j];
          assert b[k + 1] == a[j];
        }
      } else {
        SubsequenceKeepsIdsUnique(a, tail);
      }
    }
  }

  lemma {:induction false} SubsequenceElements<T>(a: seq<T>, b: seq<T>)
    requires IsSubsequence(a, b)
    ensures forall x :: x in a ==> x in b
    decreases |b|
  {
    if |a| > 0 {
      if a[0] == b[0] && IsSubsequence(a[1..], b[1..]) {
        SubsequenceElements(a[1..], b[1..]);
        assert forall x :: x in a ==> x == a[0] || x in a[1..];
      } else {
        SubsequenceElements(a, b[1..]);
      }
    }
  }

  /** `getDailyTotal`: the sales dated today. */
  function DailyTotal(sales: seq<Sale>, today: CalendarDate): (r: real)
    ensures (forall s :: s in sales ==> s.date != today) ==> r == 0.0
    ensures (forall s :: s in sales ==> s.date == today) ==> r == Total(sales)
    ensures (forall s :: s in sales ==> s.value >= 0.0) ==> 0.0 <= r <= Total(sales)
  {
    SumWhereBounds(sales, DatedOn(today));
    SumWhere(sales, DatedOn(today))
  }

  /** `getMonthlyTotal`: the sales dated on or after the first of the current month, with no upper bound. */
  function MonthlyTotal(sales: seq<Sale>, today: CalendarDate): (r: real)
    ensures (forall s :: s in sales ==> MonthIndex(s.date) < MonthIndex(today)) ==> r == 0.0
    ensures (forall s :: s in sales ==> MonthIndex(s.date) >= MonthIndex(today)) ==> r == Total(sales)
    ensures (forall s :: s in sales ==> s.value >= 0.0) ==> 0.0 <= r <= Total(sales)
  {
    forall s | s in sales
      ensures FromStartOfMonth(today)(s) <==> MonthIndex(s.date) >= MonthIndex(today)
    {
      OnOrAfterFirstOfMonth(MonthIndex(today), s.date);
    }
    SumWhereBounds(sales, FromStartOfMonth(today));
    SumWhere(sales, FromStartOfMonth(today))
  }

  /** `subMonths(startOfMonth(now), months - 1)`: the first day of the month `months - 1` before the current one. */
  function PeriodStart(today: CalendarDate, months: int): CalendarDate {
    FirstOfMonth(MonthIndex(today) - (months - 1))
  }

  predicate InPeriod(today: CalendarDate, months: int, s: Sale) {
    DateLe(PeriodStart(today, months), s.date)
  }

  /** Every sale is dated before month `k`. */
  predicate AllBeforeMonth(sales: seq<Sale>, k: int) {
    forall s :: s in sales ==> MonthIndex(s.date) < k
  }

  /** Every sale is dated in month `k` or later. */
  predicate AllFromMonth(sales: seq<Sale>, k: int) {
    forall s :: s in sales ==> MonthIndex(s.date) >= k
  }

  predicate NonNegativeValues(sales: seq<Sale>) {
    forall s :: s in sales ==> s.value >= 0.0
  }

  /** `getPeriodTotal`. */
  function PeriodTotal(sales: seq<Sale>, today: CalendarDate, months: int): (r: real)
    ensures AllBeforeMonth(sales, MonthIndex(today) - (months - 1)) ==> r == 0.0
    ensures AllFromMonth(sales, MonthIndex(today) - (months - 1)) ==> r == Total(sales)
    ensures NonNegativeValues(sales) ==> 0.0 <= r <= Total(sales)
  {
    forall s | s in sales
      ensures WithinPeriod(today, months)(s) <==> MonthIndex(s.date) >= MonthIndex(today) - (months - 1)
    {
      OnOrAfterFirstOfMonth(MonthIndex(today) - (months - 1), s.date);
    }
    SumWhereBounds(sales, WithinPeriod(today, months));
    SumWhere(sales, WithinPeriod(today, months))
  }

  /** `getSalesByPeriod`: the sales of the last `months` calendar months (and any later), in ledger order. */
  function SalesByPeriod(sales: seq<Sale>, today: CalendarDate, months: int): (r: seq<Sale>)
    ensures IsSubsequence(r, sales)
    ensures |r| == Count(sales, WithinPeriod(today, months))
    ensures forall s :: s in r <==> s in sales && MonthIndex(s.date) >= MonthIndex(today) - (months - 1)
  {
    var r := Filter(sales, WithinPeriod(today, months));
    FilterMembership(sales, WithinPeriod(today, months));
    forall s | s in sales
      ensures InPeriod(today, months, s) <==> MonthIndex(s.date) >= MonthIndex(today) - (months - 1)
    {
      OnOrAfterFirstOfMonth(MonthIndex(today) - (months - 1), s.date);
    }
    r
  }

  /** A sale adds its value to the daily total exactly when it is dated today. */
  lemma DailyTotalCons(x: Sale, sales: seq<Sale>, today: CalendarDate)
    ensures DailyTotal([x] + sales, today) == (if x.date == today then x.value else 0.0) + DailyTotal(sales, today)
  {
    SumWhereCons(x, sales, DatedOn(today));
  }

  /** Sales dated on any other day leave the daily total unchanged, wherever they sit. */
  lemma DailyTotalIgnoresOtherDays(sales: seq<Sale>, others: seq<Sale>, today: CalendarDate)
    requires forall s :: s in others ==> s.date != today
    ensures DailyTotal(sales + others, today) == DailyTotal(sales, today)
    ensures DailyTotal(others + sales, today) == DailyTotal(sales, today)
  {
    var p := DatedOn(today);
    FilterAppend(sales, others, p);
    FilterAppend(others, sales, p);
    FilterNone(others, p);
    assert Filter(sales, p) + [] == Filter(sales, p);
    assert [] + Filter(sales, p) == Filter(sales, p);
  }

  /**
    A sale counts towards the monthly total exactly when it lies in the current
    month or later: the first of the month is included and future dates are too.
   */
  lemma MonthlyTotalCons(x: Sale, sales: seq<Sale>, today: CalendarDate)
    ensures MonthlyTotal([x] + sales, today)
            == (if MonthIndex(x.date) >= MonthIndex(today) then x.value else 0.0) + MonthlyTotal(sales, today)
  {
    SumWhereCons(x, sales, FromStartOfMonth(today));
    OnOrAfterFirstOfMonth(MonthIndex(today), x.date);
  }

  /** `getPeriodTotal(m)` is the sum of the values `getSalesByPeriod(m)` lists. */
  lemma PeriodTotalSumsSalesByPeriod(sales: seq<Sale>, today: CalendarDate, months: int)
    ensures PeriodTotal(sales, today, months) == Total(SalesByPeriod(sales, today, months))
  {
  }

  /** A one-month period is the current month. */
  lemma PeriodOfOneMonthIsMonthly(sales: seq<Sale>, today: CalendarDate)
    ensures PeriodTotal(sales, today, 1) == MonthlyTotal(sales, today)
  {
    assert PeriodStart(today, 1) == StartOfMonth(today);
    SumWhereCongruent(sales, WithinPeriod(today, 1), FromStartOfMonth(today));
  }

  /** A longer period lists every sale a shorter one lists, in the same order. */
  lemma SalesByPeriodMonotone(sales: seq<Sale>, today: CalendarDate, m1: int, m2: int)
    requires m1 <= m2
    ensures IsSubsequence(SalesByPeriod(sales, today, m1), SalesByPeriod(sales, today, m2))
  {
    forall s | s in sales && InPeriod(today, m1, s)
      ensures InPeriod(today, m2, s)
    {
      OnOrAfterFirstOfMonth(MonthIndex(today) - (m1 - 1), s.date);
      OnOrAfterFirstOfMonth(MonthIndex(today) - (m2 - 1), s.date);
    }
    FilterMonotone(sales, WithinPeriod(today, m1), WithinPeriod(today, m2));
  }

  /**
    A sale added with a fresh id and a date inside the period is listed by the
    period query exactly once, first, with its fields as given.
   */
  lemma AddedSaleListedOnce(
    sales: seq<Sale>, id: string, value: real, source: SaleSource,
    description: Option<string>, date: CalendarDate,
    today: CalendarDate, createdAt: string, months: int)
    requires !HasId(sales, id)
    requires MonthIndex(date) >= MonthIndex(today) - (months - 1)
    ensures var listed := SalesByPeriod(AddSale(sales, id, value, source, description, Some(date), today, createdAt), today, months);
            && |listed| > 0
            && listed[0] == Sale(id, value, source, description, date, createdAt)
            && forall i :: 1 <= i < |listed| ==> listed[i].id != id
  {
    var added := AddSale(sales, id, value, source, description, Some(date), today, createdAt);
    var p := WithinPeriod(today, months);
    assert added == [added[0]] + sales;
    FilterAppend([added[0]], sales, p);
    OnOrAfterFirstOfMonth(MonthIndex(today) - (months - 1), date);
    assert Filter([added[0]], p) == [added[0]] by {
      assert [added[0]][1..] == [];
    }
    var listed := SalesByPeriod(added, today, months);
    assert listed == [added[0]] + Filter(sales, p);
    FilterMembership(sales, p);
    forall i | 1 <= i < |listed|
      ensures listed[i].id != id
    {
      assert listed[i] in Filter(sales, p);
      assert listed[i] in sales;
    }
  }

  /** The dashboard's scenario: one sale of 150 on 2024-03-15 makes March 2024's monthly total 150. */
  lemma MonthlyTotalScenario(id: string, createdAt: string)
    ensures MonthlyTotal(AddSale([], id, 150.0, Curso, None, Some(Date(2024, 3, 15)), Date(2024, 3, 20), createdAt), Date(2024, 3, 20)) == 150.0
  {
    var added := AddSale([], id, 150.0, Curso, None, Some(Date(2024, 3, 15)), Date(2024, 3, 20), createdAt);
    assert added == [added[0]];
    assert Total(added) == 150.0 by {
      assert added[..0] == [];
    }
  }
}
