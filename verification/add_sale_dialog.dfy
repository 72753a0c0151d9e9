/**
  The submit handler of the "new sale" dialog: the amount typed with a decimal
  comma is normalised and parsed, a NaN or non-positive amount is rejected
  without touching the form, and an accepted sale is handed to `onAddSale`
  (the ledger's `addSale`) before the form is reset and the dialog closed.
 */
module AddSaleDialog {
  import opened Options
  import opened Calendar
  import opened SalesTypes
  import opened JsParseFloat
  import Ledger

  /**
    The dialog's state. `date` is the date input's value: a calendar day, or
    None when the input has been cleared (the empty string).
   */
  datatype Form = Form(open: bool, value: string, source: SaleSource, description: string, date: Option<CalendarDate>)

  /** The arguments handed to `onAddSale`. */
  datatype AddSaleCall<N> = AddSaleCall(value: N, source: SaleSource, description: Option<string>, date: Option<CalendarDate>)

  /** The outcome of one submit: the call made, if any, and the dialog's next state. */
  datatype Submission<N> = Submission(call: Option<AddSaleCall<N>>, form: Form)

  /** The position of the first occurrence of `c` in `s`. */
  function FirstIndexOf(s: string, c: char): (i: nat)
    requires c in s
    ensures i < |s| && s[i] == c
    ensures forall j :: 0 <= j < i ==> s[j] != c
  {
    if s[0] == c then 0 else 1 + FirstIndexOf(s[1..], c)
  }

  /** `String.prototype.replace` with a one-character string pattern: only the first match is replaced. */
  function ReplaceFirst(s: string, target: char, replacement: char): (r: string)
    ensures |r| == |s|
    ensures target !in s ==> r == s
  {
    if |s| == 0 then s
    else if s[0] == target then [replacement] + s[1..]
    else [s[0]] + ReplaceFirst(s[1..], target, replacement)
  }

  /** The first occurrence is the one replaced: everything before and after it stays. */
  lemma {:induction false} ReplaceFirstAt(s: string, i: nat, target: char, replacement: char)
    requires i < |s| && s[i] == target
    requires forall j :: 0 <= j < i ==> s[j] != target
    ensures ReplaceFirst(s, target, replacement) == s[..i] + [replacement] + s[i + 1..]
    decreases i
  {
    if i > 0 {
      ReplaceFirstAt(s[1..], i - 1, target, replacement);
      assert s[..i] == [s[0]] + s[1..][..i - 1];
    }
  }

  /** Only the first comma becomes a point; every later comma stays. */
  lemma ReplaceFirstKeepsLaterCommas(s: string, k: int, j: int)
    requires 0 <= k < j < |s| && s[k] == ',' && s[j] == ','
    ensures ReplaceFirst(s, ',', '.')[j] == ','
  {
    assert s[k] in s;
    var i := FirstIndexOf(s, ',');
    assert i <= k;
    ReplaceFirstAt(s, i, ',', '.');
    var front, back := s[..i] + ['.'], s[i + 1..];
    assert |front| == i + 1;
    assert (front + back)[j] == back[j - (i + 1)] == s[j];
  }

  /** The amount `onAddSale` receives, as the handler parses it. */
  function ParsedAmount(form: Form): JsNumber {
    ParseFloat(ReplaceFirst(form.value, ',', '.'))
  }

  /** `description || undefined`. */
  function DescriptionArgument(description: string): (r: Option<string>)
    ensures r.None? <==> description == ""
    ensures r.Some? ==> r.value == description
  {
    if description == "" then None else Some(description)
  }

  /** The state after a successful submit: cleared fields, default source, today's date, dialog closed. */
  function ResetForm(today: CalendarDate): Form {
    Form(false, "", InfoProduto, "", Some(today))
  }

  /** `isNaN(numValue) || numValue <= 0`. */
  predicate RejectedAsWritten(n: JsNumber) {
    match n
    case NaN => true
    case Infinity(negative) => negative
    case Finite(v) => v <= 0.0
  }

  /** `handleSubmit` as written: the guard lets positive infinity through. */
  function HandleSubmitAsWritten(form: Form, today: CalendarDate): (out: Submission<JsNumber>)
    ensures out.call.None? <==> RejectedAsWritten(ParsedAmount(form))
    ensures out.call.None? ==> out.form == form
    ensures out.call.Some? ==> out.call.value.value.Infinity? || out.call.value.value.Finite?
    ensures out.call.Some? && out.call.value.value.Finite? ==> out.call.value.value.value > 0.0
    ensures out.call.Some? ==> && out.call.value.value == ParsedAmount(form)
                               && out.call.value.source == form.source
                               && out.call.value.date == form.date
                               && out.call.value.description == DescriptionArgument(form.description)
    ensures out.call.Some? ==> && !out.form.open && out.form.value == "" && out.form.description == ""
                               && out.form.source == InfoProduto && out.form.date == Some(today)
  {
    GuardedAsWritten(ParsedAmount(form), form, today)
  }

  /** The written guard applied to the parsed amount `n`, then the call and the reset. */
  function GuardedAsWritten(n: JsNumber, form: Form, today: CalendarDate): Submission<JsNumber> {
    if RejectedAsWritten(n) then Submission(None, form)
    else Submission(Some(AddSaleCall(n, form.source, DescriptionArgument(form.description), form.date)), ResetForm(today))
  }

  /** The guard it evidently intends: only a finite, strictly positive amount is accepted. */
  predicate Rejected(n: JsNumber) {
    !(n.Finite? && n.value > 0.0)
  }

  /**
    `handleSubmit` with the intended guard. A rejected submit calls nothing and
    leaves the form as it was; an accepted one passes a strictly positive
    amount, the chosen source and date, the description or nothing for an empty
    one, and resets the form.
   */
  function HandleSubmit(form: Form, today: CalendarDate): (out: Submission<real>)
    ensures out.call.Some? <==> ParsedAmount(form).Finite? && ParsedAmount(form).value > 0.0
    ensures out.call.None? ==> out.form == form
    ensures out.call.Some? ==> && out.call.value.value == ParsedAmount(form).value
                               && out.call.value.value > 0.0
                               && out.call.value.source == form.source
                               && out.call.value.date == form.date
                               && out.call.value.description == DescriptionArgument(form.description)
    ensures out.call.Some? ==> && !out.form.open && out.form.value == "" && out.form.description == ""
                               && out.form.source == InfoProduto && out.form.date == Some(today)
  {
    Guarded(ParsedAmount(form), form, today)
  }

  /** The intended guard applied to the parsed amount `n`, then the call and the reset. */
  function Guarded(n: JsNumber, form: Form, today: CalendarDate): Submission<real> {
    if Rejected(n) then Submission(None, form)
    else Submission(Some(AddSaleCall(n.value, form.source, DescriptionArgument(form.description), form.date)), ResetForm(today))
  }

  /** A submission of the intended handler seen as one of the written handler: the amount as a finite number. */
  function AsJsNumber(sub: Submission<real>): Submission<JsNumber> {
    match sub.call
    case None => Submission(None, sub.form)
    case Some(c) => Submission(Some(AddSaleCall(Finite(c.value), c.source, c.description, c.date)), sub.form)
  }

  /** The two guards differ only on positive infinity, which only the written one lets through. */
  lemma GuardsDifferOnlyOnInfinity(n: JsNumber, form: Form, today: CalendarDate)
    ensures n != Infinity(false) ==> GuardedAsWritten(n, form, today) == AsJsNumber(Guarded(n, form, today))
    ensures n != Infinity(false) ==>
              && (Guarded(n, form, today).call.None? <==> GuardedAsWritten(n, form, today).call.None?)
              && Guarded(n, form, today).form == GuardedAsWritten(n, form, today).form
    ensures Guarded(n, form, today).call.Some? ==>
              GuardedAsWritten(n, form, today).call.value.value == Finite(Guarded(n, form, today).call.value.value)
  {
  }

  /** The two handlers differ only when the amount parses to positive infinity. */
  lemma HandleSubmitDiffersOnlyOnInfinity(form: Form, today: CalendarDate)
    ensures ParsedAmount(form) != Infinity(false) ==> HandleSubmitAsWritten(form, today) == AsJsNumber(HandleSubmit(form, today))
    ensures ParsedAmount(form) != Infinity(false) ==>
              && (HandleSubmit(form, today).call.None? <==> HandleSubmitAsWritten(form, today).call.None?)
              && HandleSubmit(form, today).form == HandleSubmitAsWritten(form, today).form
    ensures HandleSubmit(form, today).call.Some? ==>
              HandleSubmitAsWritten(form, today).call.value.value == Finite(HandleSubmit(form, today).call.value.value)
  {
    GuardsDifferOnlyOnInfinity(ParsedAmount(form), form, today);
  }

  /** Typing `Infinity` gets past the written guard and reaches `onAddSale`; the intended guard stops it. */
  lemma InfinityPassesWrittenGuard(form: Form, today: CalendarDate, rest: string)
    requires form.value == "Infinity" + rest && ',' !in rest
    ensures HandleSubmitAsWritten(form, today).call.Some?
    ensures HandleSubmitAsWritten(form, today).call.value.value == Infinity(false)
    ensures HandleSubmit(form, today).call.None?
  {
    assert ',' !in form.value;
    ParsedAmountWithoutComma(form);
    ParseFloatInfinity(rest);
    PositiveInfinitySubmitted(form, today);
  }

  /** Positive infinity is passed on by the written guard and stopped by the intended one. */
  lemma PositiveInfinitySubmitted(form: Form, today: CalendarDate)
    ensures GuardedAsWritten(Infinity(false), form, today).call.Some?
    ensures GuardedAsWritten(Infinity(false), form, today).call.value.value == Infinity(false)
    ensures Guarded(Infinity(false), form, today).call.None?
  {
  }

  /**
    A finite amount is accepted by both guards exactly when it is positive, and
    is then passed on unchanged; otherwise neither calls anything nor touches the form.
   */
  lemma FiniteAmountSubmitted(form: Form, today: CalendarDate, v: real)
    ensures Guarded(Finite(v), form, today).call.Some? <==> v > 0.0
    ensures GuardedAsWritten(Finite(v), form, today).call.Some? <==> v > 0.0
    ensures v > 0.0 ==> Guarded(Finite(v), form, today).call.value.value == v
    ensures v <= 0.0 ==> Guarded(Finite(v), form, today) == Submission(None, form)
    ensures v <= 0.0 ==> GuardedAsWritten(Finite(v), form, today) == Submission(None, form)
  {
  }

  /** An amount typed the way the field's placeholder `0,00` shows: whole part, comma, two-digit cents. */
  function TypedAmount(cents: nat): (r: string)
  {
    Digits(cents / 100) + [','] + CentDigits(cents % 100)
  }

  /** The two characters of a cent count below 100. */
  function CentDigits(c: nat): (r: string)
    requires c < 100
    ensures |r| == 2 && AllDigits(r)
    ensures DigitsValue(r) == c
  {
    var tens, units := ('0' as int + c / 10) as char, ('0' as int + c % 10) as char;
    var r := [tens, units];
    assert r[..1] == [tens] && [tens][..0] == [];
    assert DigitsValue([tens]) == c / 10;
    r
  }

  /** A whole part and a two-digit cent part denote the amount in cents divided by 100. */
  lemma CentsSplit(cents: nat)
    ensures (cents / 100) as real + (cents % 100) as real / 100.0 == cents as real / 100.0
  {
    var q, r := cents / 100, cents % 100;
    assert cents == 100 * q + r;
    assert cents as real == 100.0 * q as real + r as real;
  }

  /** An amount typed with a decimal comma is read back as exactly that amount. */
  lemma TypedAmountRoundTrip(cents: nat)
    ensures ParseFloat(ReplaceFirst(TypedAmount(cents), ',', '.')) == Finite(cents as real / 100.0)
  {
    var whole, fraction := Digits(cents / 100), CentDigits(cents % 100);
    calc {
      ParseFloat(ReplaceFirst(TypedAmount(cents), ',', '.'));
      == { TypedAmountNormalised(cents); }
      ParseFloat(whole + "." + fraction + "");
      == { ParseFloatDecimal(whole, fraction, ""); }
      Finite(DecimalValue(whole, fraction));
      == { TypedAmountValue(cents); }
      Finite(cents as real / 100.0);
    }
  }

  /** Normalising the typed amount turns its comma into a decimal point. */
  lemma TypedAmountNormalised(cents: nat)
    ensures ReplaceFirst(TypedAmount(cents), ',', '.') == Digits(cents / 100) + "." + CentDigits(cents % 100) + ""
  {
    var whole, fraction := Digits(cents / 100), CentDigits(cents % 100);
    var typed := whole + [','] + fraction;
    ReplaceFirstAt(typed, |whole|, ',', '.');
    assert typed[..|whole|] == whole && typed[|whole| + 1..] == fraction;
    assert whole + ['.'] + fraction == whole + "." + fraction + "";
  }

  /** The numeral `whole.cc` denotes the amount in cents divided by 100. */
  lemma TypedAmountValue(cents: nat)
    ensures DecimalValue(Digits(cents / 100), CentDigits(cents % 100)) == cents as real / 100.0
  {
    var whole, fraction := Digits(cents / 100), CentDigits(cents % 100);
    assert Pow10(|fraction|) == 100;
    CentsSplit(cents);
  }

  /** An amount typed with cents is accepted exactly when it is not zero, and then passed on exactly. */
  lemma SubmitTypedAmount(form: Form, today: CalendarDate, cents: nat)
    requires form.value == TypedAmount(cents)
    ensures HandleSubmit(form, today).call.Some? <==> cents > 0
    ensures cents > 0 ==> HandleSubmit(form, today).call.value.value == cents as real / 100.0
    ensures cents == 0 ==> HandleSubmit(form, today) == Submission(None, form)
  {
    TypedAmountParsed(form, cents);
    FiniteAmountSubmitted(form, today, cents as real / 100.0);
  }

  lemma TypedAmountParsed(form: Form, cents: nat)
    requires form.value == TypedAmount(cents)
    ensures ParsedAmount(form) == Finite(cents as real / 100.0)
  {
    TypedAmountRoundTrip(cents);
  }

  /** A whole amount typed without a comma is accepted exactly when it is not zero, and then passed on exactly. */
  lemma SubmitWholeAmount(form: Form, today: CalendarDate, n: nat)
    requires form.value == Digits(n)
    ensures HandleSubmit(form, today).call.Some? <==> n > 0
    ensures n > 0 ==> HandleSubmit(form, today).call.value.value == n as real
    ensures n == 0 ==> HandleSubmit(form, today) == Submission(None, form)
  {
    WholeAmountParsed(form, n);
    FiniteAmountSubmitted(form, today, n as real);
  }

  lemma WholeAmountParsed(form: Form, n: nat)
    requires form.value == Digits(n)
    ensures ParsedAmount(form) == Finite(n as real)
  {
    assert ',' !in form.value;
    ParsedAmountWithoutComma(form);
    ParseFloatWholeNumeral(form.value);
  }

  /**
    A point typed as a thousands separator is read as the decimal point: the
    comma after it becomes a second point, which ends the numeral, so
    `1.234,56` is read as 1.234.
   */
  lemma ThousandsSeparatorReadAsDecimalPoint(form: Form, whole: string, group: string, cents: string)
    requires |whole| > 0 && AllDigits(whole) && AllDigits(group) && AllDigits(cents)
    requires form.value == whole + "." + group + "," + cents
    ensures ParsedAmount(form) == Finite(DecimalValue(whole, group))
  {
    GroupedAmountNormalised(whole, group, cents);
    ParseFloatDecimal(whole, group, "." + cents);
  }

  lemma GroupedAmountNormalised(whole: string, group: string, cents: string)
    requires AllDigits(whole) && AllDigits(group) && AllDigits(cents)
    ensures ReplaceFirst(whole + "." + group + "," + cents, ',', '.') == whole + "." + group + ("." + cents)
  {
    var typed := whole + "." + group + "," + cents;
    var i := |whole| + 1 + |group|;
    assert forall j :: 0 <= j < i ==> typed[j] == (whole + "." + group)[j];
    ReplaceFirstAt(typed, i, ',', '.');
    assert typed[..i] == whole + "." + group && typed[i + 1..] == cents;
  }

  /** Text without a comma is parsed as it was typed. */
  lemma ParsedAmountWithoutComma(form: Form)
    requires ',' !in form.value
    ensures ParsedAmount(form) == ParseFloat(form.value)
  {
  }

  /** A minus sign followed by a digit is rejected by both guards and leaves the form as it was. */
  lemma NegativeAmountRejected(form: Form, today: CalendarDate, numeral: string)
    requires |numeral| > 0 && IsDigit(numeral[0]) && ',' !in numeral
    requires form.value == "-" + numeral
    ensures HandleSubmit(form, today) == Submission(None, form)
    ensures HandleSubmitAsWritten(form, today) == Submission(None, form)
  {
    NegativeAmountParsed(form, numeral);
    FiniteAmountSubmitted(form, today, ParsedAmount(form).value);
  }

  lemma NegativeAmountParsed(form: Form, numeral: string)
    requires |numeral| > 0 && IsDigit(numeral[0]) && ',' !in numeral
    requires form.value == "-" + numeral
    ensures ParsedAmount(form).Finite? && ParsedAmount(form).value <= 0.0
  {
    ParsedAmountWithoutComma(form);
    ParseFloatMinusSign(numeral);
    ParseUnsignedOfDigitStart(numeral);
  }

  /**
    The dashboard wires `onAddSale` to the ledger's `addSale`: one submit either
    leaves both the ledger and the form alone or prepends one sale. `id` and
    `createdAt` stand for `crypto.randomUUID()` and the clock.
   */
  function SubmitSale(sales: seq<Sale>, form: Form, today: CalendarDate, id: string, createdAt: string): (r: (seq<Sale>, Form))
    ensures r.1 == HandleSubmit(form, today).form
    ensures HandleSubmit(form, today).call.None? ==> r.0 == sales && r.1 == form
    ensures HandleSubmit(form, today).call.Some? ==> |r.0| == |sales| + 1 && r.0[1..] == sales && r.0[0].value > 0.0
  {
    var out := HandleSubmit(form, today);
    match out.call
    case None => (sales, out.form)
    case Some(call) =>
      (Ledger.AddSale(sales, id, call.value, call.source, call.description, call.date, today, createdAt), out.form)
  }

  /** Submits through the dialog keep the ledger valid when ids are fresh. */
  lemma SubmitSalePreservesValid(sales: seq<Sale>, form: Form, today: CalendarDate, id: string, createdAt: string)
    requires Ledger.ValidLedger(sales) && !Ledger.HasId(sales, id)
    ensures Ledger.ValidLedger(SubmitSale(sales, form, today, id, createdAt).0)
  {
    var out := HandleSubmit(form, today);
    if out.call.Some? {
      var call := out.call.value;
      Ledger.AddSalePreservesValid(sales, id, call.value, call.source, call.description, call.date, today, createdAt);
    }
  }
}
