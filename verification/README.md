# Sales dashboard ledger — a Dafny model

This project models the logic core of a small sales dashboard ("meu dinheiro"):

- **The ledger.** It is a list of sales, newest first. `addSale` prepends a record and `deleteSale` removes records by id.
- **Four calendar-window queries.** They give today's total, the current month's total, the total of the last *m* months, and the list of the last *m* months.
- **The revenue chart's monthly buckets.**
- **The submit handler of the "new sale" dialog.** It turns a typed amount into a number with `parseFloat` and accepts only positive amounts.
- **The data model.** This is the six sale sources, the sale record, and the label and colour tables.

Everything is pure. The ledger is an immutable `seq<Sale>`. Amounts are exact `real`s. Dates are already-parsed calendar days `Date(year, month, day)`. The current day, the fresh id and the creation timestamp are parameters.

Modules, following the source files:

| module | file | models |
|---|---|---|
| `Options` | options.dfy | `Option` for optional fields and lookups |
| `Seqs` | seqs.dfy | `Array.prototype.filter` and order-preserving subsequences |
| `Calendar` | calendar.dfy | calendar days, month indices (`year * 12 + month - 1`), `startOfMonth`, and JavaScript's `new Date(y, m, 0)` normalisation |
| `SalesTypes` | sales_types.dfy | src/types/sales.ts |
| `Ledger` | ledger.dfy | src/hooks/useSales.ts |
| `RevenueChart` | revenue_chart.dfy | the `chartData` computation of src/components/RevenueChart.tsx |
| `JsParseFloat` | parse_float.dfy | the global `parseFloat` of section 19.2.4 of ECMA-262, over exact reals |
| `AddSaleDialog` | add_sale_dialog.dfy | `handleSubmit` of src/components/AddSaleDialog.tsx |

## Model

| member | source | states |
|---|---|---|
| SalesTypes.SourceOfTag | src/types/sales.ts:1 | reading a tag back gives a source only for a string that is that source's tag |
| SalesTypes.TagRoundTrip | src/types/sales.ts:1 | every source's tag reads back as that same source |
| SalesTypes.SourceTagsAreExactlySix | src/types/sales.ts:1 | a string names a source exactly when it is one of `info-produto`, `curso`, `mentoria`, `ebook`, `consultoria`, `outro` |
| SalesTypes.AllSourcesEnumerates | src/types/sales.ts:1 | the list of sources has six pairwise different entries and contains every source |
| SalesTypes.TablesAreTotal | src/types/sales.ts:12-28 | the label table and the colour table both have an entry for every source, and both have the same keys |
| SalesTypes.LabelsAreDistinct | src/types/sales.ts:12-19 | two sources with the same label are the same source |
| SalesTypes.SelectOptions | src/components/AddSaleDialog.tsx:85-88 | the dialog's select has six options; each shows its own key's label, no key appears twice, and every source sits at its declaration position |
| SalesTypes.SelectOptionsAreUnambiguous | src/components/AddSaleDialog.tsx:85-88 | every source appears among the options with its label, and no two options share a label |
| Ledger.AddSale | src/hooks/useSales.ts:22-32 | the ledger grows by one: the new sale comes first and the old ledger follows unchanged; the new sale stores id, value, source, description and createdAt as given, with the given date, or today when none is given |
| Ledger.AddSalePreservesValid | src/hooks/useSales.ts:22-31 | adding a sale with a fresh id and a positive value keeps ids unique and values positive |
| Ledger.DeleteSale | src/hooks/useSales.ts:34-36 | a sale survives exactly when its id differs; the survivors keep their order; exactly the sales with that id are removed; an absent id leaves the ledger unchanged |
| Ledger.DeleteSaleIdempotent | src/hooks/useSales.ts:35 | deleting the same id twice is the same as deleting it once |
| Ledger.DeleteUndoesAdd | src/hooks/useSales.ts:22-36 | deleting a sale just added with a fresh id gives back the original ledger |
| Ledger.DeleteSalePreservesValid | src/hooks/useSales.ts:34-36 | deleting keeps ids unique and values positive |
| Ledger.TotalAppend | src/hooks/useSales.ts:45 | the summing `reduce` over two lists joined end to end is the sum of their two totals |
| Ledger.DailyTotal | src/hooks/useSales.ts:38-46 | `getDailyTotal` is 0 when no sale is dated today and the whole ledger's total when every sale is; with non-negative values it lies between 0 and that total |
| Ledger.DailyTotalCons | src/hooks/useSales.ts:38-46 | a sale adds its value to the daily total exactly when it is dated today, and adds nothing otherwise |
| Ledger.DailyTotalIgnoresOtherDays | src/hooks/useSales.ts:38-46 | sales dated on other days leave the daily total unchanged, wherever they sit in the list |
| Ledger.MonthlyTotal | src/hooks/useSales.ts:48-53 | `getMonthlyTotal` is 0 when every sale is dated before the current month and the whole ledger's total when none is; with non-negative values it lies between 0 and that total |
| Ledger.MonthlyTotalCons | src/hooks/useSales.ts:48-53 | a sale counts towards the monthly total exactly when it is dated in the current month or later: the first of the month is included, and so are future dates |
| Ledger.MonthlyTotalScenario | src/hooks/useSales.ts:48-53 | one sale of 150 dated 2024-03-15, added on 2024-03-20, makes that month's total 150 |
| Ledger.PeriodTotal | src/hooks/useSales.ts:55-60 | `getPeriodTotal(m)` is 0 when every sale is dated before the window's first month and the whole ledger's total when none is; with non-negative values it lies between 0 and that total |
| Ledger.SalesByPeriod | src/hooks/useSales.ts:62-67 | the listed sales keep ledger order, each sale of the window is listed as often as it occurs in the ledger, and a sale is listed exactly when its month is at most `months - 1` months before the current month |
| Ledger.SalesByPeriodMonotone | src/hooks/useSales.ts:62-67 | a longer period lists every sale a shorter one lists, in the same order |
| Ledger.PeriodTotalSumsSalesByPeriod | src/hooks/useSales.ts:55-67 | the period total is the sum of the values that the period list returns |
| Ledger.PeriodOfOneMonthIsMonthly | src/hooks/useSales.ts:48-60 | the total of a one-month period equals the monthly total |
| Ledger.AddedSaleListedOnce | src/hooks/useSales.ts:22-67 | a sale added with a fresh id and a date inside the period is listed exactly once, first, with its fields as given |
| Calendar.StartOfMonth | src/hooks/useSales.ts:49 | the first day of a day's month keeps its year and month, is on or before it, and is the first day of the month with the same index |
| Calendar.OnOrAfterFirstOfMonth | src/hooks/useSales.ts:51 | a day is on or after the first of month `k` exactly when its month index is `k` or more |
| Calendar.JsDate | src/components/RevenueChart.tsx:23 | on ordinary arguments (day 1 to 28, month index 0 to 11), `new Date(y, m, d)` is that very day |
| Calendar.MonthEnd | src/components/RevenueChart.tsx:23 | `monthEnd` lies in the same year and month as `monthStart`, on day 28 or later |
| Calendar.MonthEndIsLastDay | src/components/RevenueChart.tsx:23 | day 0 of the next month is the month's last day, across December to January and in leap-year February |
| Calendar.WithinMonthIff | src/components/RevenueChart.tsx:22-28 | a day lies between the first of month `k` and that month's end, both included, exactly when it falls in month `k` |
| RevenueChart.EachMonthOfInterval | src/components/RevenueChart.tsx:19 | the month range from start to end, both included, in ascending order |
| RevenueChart.MonthBuckets | src/components/RevenueChart.tsx:21-37 | one bucket per month, in order; each bucket holds the first day of its month and the revenue dated in that month |
| RevenueChart.ChartData | src/components/RevenueChart.tsx:14-38 | exactly `months` buckets, oldest first, a month apart, starting `months - 1` months back and ending at the current month; each bucket holds the revenue dated in its month |
| RevenueChart.MonthRevenueIsCalendarMonth | src/components/RevenueChart.tsx:22-30 | the bucket filter (`monthStart <= date <= monthEnd`) selects exactly the sales dated in that calendar month |
| RevenueChart.EmptyMonthIsZero | src/components/RevenueChart.tsx:25-30 | a month without sales gets a bucket of value 0 |
| RevenueChart.MonthRangesDisjoint | src/components/RevenueChart.tsx:22-28 | no sale falls in the ranges of two different months |
| RevenueChart.RangeTotal | src/components/RevenueChart.tsx:19-30 | the buckets of a month range add up to the revenue dated anywhere in that range |
| RevenueChart.PeriodTotalFromMonth | src/hooks/useSales.ts:55-60 | the period total selects the sales dated in its first month or later |
| RevenueChart.ChartTotalAtMostPeriodTotal | src/components/RevenueChart.tsx:16-30 | when no value is negative, the chart's buckets add up to at most the period total of the same window |
| RevenueChart.ChartTotalEqualsPeriodTotal | src/components/RevenueChart.tsx:16-30 | when no sale is dated after the current month, the chart's buckets add up to exactly the period total |
| JsParseFloat.TrimStart | src/components/AddSaleDialog.tsx:37 | leading white space is dropped, and nothing else is |
| JsParseFloat.ParseFloat | src/components/AddSaleDialog.tsx:37 | `parseFloat` of blank text, or of text whose first non-blank character can start no number (not a digit, sign, `.` or `I`), is NaN |
| JsParseFloat.ParseUnsigned | src/components/AddSaleDialog.tsx:37 | an unsigned numeral is never NaN, never negative and never negative infinity |
| JsParseFloat.ParseFloatSkipsWhiteSpace | src/components/AddSaleDialog.tsx:37 | a leading white-space character never changes the result |
| JsParseFloat.ParseFloatDecimal | src/components/AddSaleDialog.tsx:37 | `digits.fraction` parses to its decimal value, and text after it that cannot extend the numeral is ignored |
| JsParseFloat.ParseFloatInteger | src/components/AddSaleDialog.tsx:37 | an integer numeral parses to its value, and trailing text that cannot extend it is ignored |
| JsParseFloat.ParseFloatNegative | src/components/AddSaleDialog.tsx:37 | a minus sign before a digit negates the parsed number |
| JsParseFloat.ParseFloatInfinity | src/components/AddSaleDialog.tsx:37 | text starting with `Infinity` parses to positive infinity |
| JsParseFloat.ParseFloatNoNumber | src/components/AddSaleDialog.tsx:37 | text starting with a lower-case letter parses to NaN |
| JsParseFloat.ParseFloatEmpty | src/components/AddSaleDialog.tsx:37 | the empty field parses to NaN |
| AddSaleDialog.ReplaceFirst | src/components/AddSaleDialog.tsx:37 | the replacement keeps the length of the text, and text without a comma comes back unchanged |
| AddSaleDialog.ReplaceFirstAt | src/components/AddSaleDialog.tsx:37 | the comma replacement changes the first comma only, and keeps everything before and after it |
| AddSaleDialog.ReplaceFirstKeepsLaterCommas | src/components/AddSaleDialog.tsx:37 | every comma after the first one stays a comma |
| AddSaleDialog.ThousandsSeparatorReadAsDecimalPoint | src/components/AddSaleDialog.tsx:37 | an amount typed with a point as thousands separator and a decimal comma (`1.234,56`) is read up to the second point, so it gives 1.234 |
| AddSaleDialog.TypedAmountRoundTrip | src/components/AddSaleDialog.tsx:37 | an amount typed as the placeholder `0,00` shows (whole part, comma, two cent digits) is read back as exactly that amount |
| AddSaleDialog.DescriptionArgument | src/components/AddSaleDialog.tsx:43 | an empty description is passed as no description; any other is passed verbatim |
| AddSaleDialog.HandleSubmitAsWritten | src/components/AddSaleDialog.tsx:34-51 | the guard as written: a submit calls `onAddSale` exactly when the parsed amount is not NaN, not negative infinity and not a finite amount of at most 0; a rejected submit keeps the form; an accepted one passes the parsed amount (positive infinity or a positive finite number), the chosen source and date, and the description (none when empty), then clears value and description, resets the source to `info-produto` and the date to today, and closes the dialog |
| AddSaleDialog.HandleSubmit | src/components/AddSaleDialog.tsx:34-51 | a submit calls `onAddSale` exactly when the amount parses to a finite positive number; a rejected submit keeps the form; an accepted one passes that amount, the chosen source and date, and the description (none when empty), then clears value and description, resets the source to `info-produto` and the date to today, and closes the dialog |
| AddSaleDialog.GuardsDifferOnlyOnInfinity | src/components/AddSaleDialog.tsx:38-41 | for any parsed number other than positive infinity, the written guard produces exactly the intended guard's submission, call arguments and form included, with the amount as a finite number; when the intended guard accepts, both pass the same finite amount |
| AddSaleDialog.HandleSubmitDiffersOnlyOnInfinity | src/components/AddSaleDialog.tsx:38-41 | unless the typed amount parses to positive infinity, the written handler produces exactly the intended handler's submission, call arguments and reset form included, with the amount as a finite number |
| AddSaleDialog.InfinityPassesWrittenGuard | src/components/AddSaleDialog.tsx:37-43 | typing `Infinity` gets past the written guard, so `onAddSale` receives positive infinity; the intended guard rejects it |
| AddSaleDialog.FiniteAmountSubmitted | src/components/AddSaleDialog.tsx:38-43 | any finite parsed amount is accepted by both guards exactly when it is positive, and is passed on unchanged; otherwise neither guard calls anything or touches the form |
| AddSaleDialog.SubmitTypedAmount | src/components/AddSaleDialog.tsx:37-43 | an amount typed with cents is accepted exactly when it is not zero, and then exactly that amount is added |
| AddSaleDialog.SubmitWholeAmount | src/components/AddSaleDialog.tsx:37-43 | a whole amount typed without a comma is accepted exactly when it is not zero, and then exactly that amount is added |
| AddSaleDialog.NegativeAmountRejected | src/components/AddSaleDialog.tsx:37-41 | a minus sign followed by a digit is rejected by both guards, which leave the form as it was |
| AddSaleDialog.SubmitSale | src/pages/Index.tsx:31 | with `onAddSale` wired to `addSale`, a rejected submit leaves ledger and form alone; an accepted one prepends one sale of positive value and keeps the rest of the ledger |
| AddSaleDialog.SubmitSalePreservesValid | src/components/AddSaleDialog.tsx:38-43 | submits through the dialog keep ids unique and values positive when the id is fresh |

## Left out

- Persistence is I/O and is not modelled. This covers the `localStorage` reads and writes and the JSON (de)serialisation at src/hooks/useSales.ts:10-20.
- `crypto.randomUUID()` is a foreign call. It becomes the `id` parameter, and a fresh id is a precondition where uniqueness matters.
- The clock is not modelled. `new Date()` becomes the `today` parameter. The creation timestamp `createdAt` is an uninterpreted string parameter.
- Time zones are not modelled. The stored default date comes from `toISOString` in UTC, while the queries compare with `startOfDay` and `startOfMonth` in local time. The model uses one calendar day `today` for both.
- ISO date strings are not modelled. A sale's `date` is an already-parsed calendar day, and malformed date strings (which `parseISO` turns into an invalid date) are out of scope.
- Ledger.AddSale: an empty date string and a missing date both become `None`. `date || today` treats them alike.
- Calendar.JsDate: JavaScript's Date constructor maps a two-digit year (0 to 99) to 1900 to 1999, and time values are bounded to about 275 760 years either side of 1970. Neither rule is modelled, so for years 0 to 99 `MonthEnd` and `MonthRevenueIsCalendarMonth` differ from `new Date(y, m + 1, 0)`. The chart's months always lie next to the clock's current date, far from either case.
- RevenueChart.ChartData: requires `months >= 1`. With a start after the end, `eachMonthOfInterval` behaves differently across date-fns versions. The dashboard only passes 1, 3, 6 or 12.
- JsParseFloat.ParseFloat: exact reals instead of IEEE-754 doubles. Rounding, and overflow of huge numerals to infinity (`1e999`), are not modelled. The same goes for floating-point summation in the totals.
- Month labels (`format(..., ptBR)`), BRL currency formatting and all rendering are presentation behind foreign libraries and are not modelled. The rendering lives in src/components/StatsCard.tsx, src/components/SalesHistory.tsx and src/pages/Index.tsx.
- The toasts, `e.preventDefault()`, React state, hooks and `useMemo` are UI plumbing and are not modelled. The dialog's state is the `Form` value that `handleSubmit` returns.

## Findings

| source | as written | input that shows it | evidently intended | confidence | as-written member | corrected member |
|---|---|---|---|---|---|---|
| src/components/AddSaleDialog.tsx:38 | `isNaN(numValue) \|\| numValue <= 0` lets positive infinity through | the amount `Infinity` (`parseFloat` gives positive infinity, which is neither NaN nor ≤ 0), so `onAddSale(Infinity, …)` stores a sale of infinite value | only finite, strictly positive amounts reach `onAddSale` | not executed | AddSaleDialog.HandleSubmitAsWritten, AddSaleDialog.InfinityPassesWrittenGuard | AddSaleDialog.HandleSubmit, AddSaleDialog.SubmitSale |
