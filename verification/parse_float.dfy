/**
  JavaScript's global `parseFloat` (section 19.2.4 of ECMA-262) over exact
  reals: leading white space is skipped, then the longest prefix that is a
  StrDecimalLiteral (optional sign, then `Infinity` or digits with an optional
  fraction and exponent) gives the value; with no such prefix the result is NaN.
  IEEE-754 rounding and overflow are not modelled.
 */
module JsParseFloat {
  import opened Options

  /** A JavaScript number as `parseFloat` can produce it. */
  datatype JsNumber = NaN | Infinity(negative: bool) | Finite(value: real)

  predicate IsDigit(c: char) {
    '0' <= c <= '9'
  }

  predicate AllDigits(s: string) {
    forall i :: 0 <= i < |s| ==> IsDigit(s[i])
  }

  /** StrWhiteSpaceChar: the WhiteSpace and LineTerminator code points. */
  predicate IsStrWhiteSpace(c: char) {
    var n := c as int;
    || n == 0x09 || n == 0x0B || n == 0x0C || n == 0x20 || n == 0xA0 || n == 0xFEFF
    || n == 0x1680 || (0x2000 <= n <= 0x200A) || n == 0x202F || n == 0x205F || n == 0x3000
    || n == 0x0A || n == 0x0D || n == 0x2028 || n == 0x2029
  }

  /** `TrimString(s, start)`: drops the leading white space and nothing else. */
  function TrimStart(s: string): (r: string)
    ensures |r| <= |s| && r == s[|s| - |r|..]
    ensures |r| == 0 || !IsStrWhiteSpace(r[0])
    ensures forall i :: 0 <= i < |s| - |r| ==> IsStrWhiteSpace(s[i])
  {
    if |s| > 0 && IsStrWhiteSpace(s[0]) then
      var r := TrimStart(s[1..]);
      assert forall i :: 1 <= i < |s| - |r| ==> s[i] == s[1..][i - 1];
      r
    else s
  }

  /** The length of the longest run of decimal digits at the start of `s`. */
  function DigitRun(s: string): (n: nat)
    ensures n <= |s|
    ensures AllDigits(s[..n])
    ensures n == |s| || !IsDigit(s[n])
  {
    if |s| > 0 && IsDigit(s[0]) then 1 + DigitRun(s[1..]) else 0
  }

  /** The value of a decimal digit string, most significant digit first. */
  function DigitsValue(ds: string): nat
    requires AllDigits(ds)
  {
    if |ds| == 0 then 0 else 10 * DigitsValue(ds[..|ds| - 1]) + ((ds[|ds| - 1] as int) - ('0' as int))
  }

  function Pow10(n: nat): (r: nat)
    ensures r >= 1
  {
    if n == 0 then 1 else 10 * Pow10(n - 1)
  }

  /** 10 raised to a signed exponent. */
  function Scale(e: int): (r: real)
    ensures r > 0.0
  {
    if e >= 0 then Pow10(e) as real else 1.0 / (Pow10(-e) as real)
  }

  /**
    An ExponentPart at the start of `s` (`e` or `E`, an optional sign, at least
    one digit): how many characters it takes and the exponent it denotes.
   */
  function ScanExponent(s: string): (r: Option<(nat, int)>)
    ensures r.Some? ==> 2 <= r.value.0 <= |s|
    ensures |s| == 0 || (s[0] != 'e' && s[0] != 'E') ==> r.None?
  {
    if |s| == 0 || (s[0] != 'e' && s[0] != 'E') then None
    else
      var signLen := if |s| > 1 && (s[1] == '+' || s[1] == '-') then 1 else 0;
      var digits := s[1 + signLen..];
      var n := DigitRun(digits);
      if n == 0 then None
      else
        var magnitude: int := DigitsValue(digits[..n]);
        Some((1 + signLen + n, if signLen == 1 && s[1] == '-' then -magnitude else magnitude))
  }

  /** The value of a decimal numeral `intPart.fracPart` (either part may be empty). */
  function DecimalValue(intPart: string, fracPart: string): (r: real)
    requires AllDigits(intPart) && AllDigits(fracPart)
    ensures r >= 0.0
  {
    DigitsValue(intPart) as real + DigitsValue(fracPart) as real / Pow10(|fracPart|) as real
  }

  /**
    The longest prefix of `s` of the form `digits`, `digits.digits`, `digits.`
    or `.digits`, split into its integer digits, its fraction digits and the
    text after it; None when `s` starts with no digit either side of a point.
   */
  function NumeralParts(s: string): (r: Option<(string, string, string)>)
    ensures r.Some? ==> AllDigits(r.value.0) && AllDigits(r.value.1)
    ensures r.Some? ==> |r.value.0| > 0 || |r.value.1| > 0
    ensures |s| > 0 && IsDigit(s[0]) ==> r.Some?
    ensures |s| == 0 || (!IsDigit(s[0]) && s[0] != '.') ==> r.None?
  {
    var intLen := DigitRun(s);
    var afterInt := s[intLen..];
    var hasDot := |afterInt| > 0 && afterInt[0] == '.';
    var fracLen := if hasDot then DigitRun(afterInt[1..]) else 0;
    if intLen == 0 && fracLen == 0 then None
    else
      var fracPart := if hasDot then afterInt[1..][..fracLen] else "";
      var afterFrac := if hasDot then afterInt[1 + fracLen..] else afterInt;
      Some((s[..intLen], fracPart, afterFrac))
  }

  /** The exponent an ExponentPart at the start of `s` denotes, or 0 when there is none. */
  function ExponentOf(s: string): int {
    match ScanExponent(s)
    case None => 0
    case Some(e) => e.1
  }

  lemma ProductNonNegative(a: real, b: real)
    requires a >= 0.0 && b >= 0.0
    ensures a * b >= 0.0
  {
  }

  predicate StartsWithInfinity(s: string) {
    |s| >= 8 && s[..8] == "Infinity"
  }

  /**
    StrUnsignedDecimalLiteral: the value of the longest prefix of `s` of that
    form, or None when no prefix is one.
   */
  function ParseUnsigned(s: string): (r: Option<JsNumber>)
    ensures r.Some? ==> !r.value.NaN? && (r.value.Infinity? ==> !r.value.negative)
    ensures r.Some? && r.value.Finite? ==> r.value.value >= 0.0
  {
    if StartsWithInfinity(s) then Some(Infinity(false))
    else
      match NumeralParts(s)
      case None => None
      case Some(parts) =>
        var m, e := DecimalValue(parts.0, parts.1), Scale(ExponentOf(parts.2));
        ProductNonNegative(m, e);
        Some(Finite(m * e))
  }

  function Negate(n: JsNumber): JsNumber {
    match n
    case NaN => NaN
    case Infinity(negative) => Infinity(!negative)
    case Finite(v) => Finite(-v)
  }

  /**
    `parseFloat(input)`: leading white space is skipped, then an optional sign
    and the longest StrUnsignedDecimalLiteral prefix are read.
   */
  function ParseFloat(input: string): (r: JsNumber)
    ensures |TrimStart(input)| == 0 ==> r == NaN
    ensures var t := TrimStart(input);
            |t| > 0 && !IsDigit(t[0]) && t[0] !in "+-.I" ==> r == NaN
  {
    var t := TrimStart(input);
    var negative := |t| > 0 && t[0] == '-';
    var unsigned := if |t| > 0 && (t[0] == '+' || t[0] == '-') then t[1..] else t;
    match ParseUnsigned(unsigned)
    case None => NaN
    case Some(n) => if negative then Negate(n) else n
  }

  /** Leading white space never changes the result. */
  lemma ParseFloatSkipsWhiteSpace(c: char, s: string)
    requires IsStrWhiteSpace(c)
    ensures ParseFloat([c] + s) == ParseFloat(s)
  {
    assert ([c] + s)[1..] == s;
  }

  /** Text that starts with a digit is read without trimming or a sign. */
  lemma ParseFloatOfDigitStart(s: string)
    requires |s| > 0 && IsDigit(s[0])
    ensures ParseFloat(s) == ParseUnsigned(s).value
  {
    TrimStartNoWhiteSpace(s);
    assert s[0] != '+' && s[0] != '-';
    ParseUnsignedOfDigitStart(s);
  }

  /** Text that starts with a digit always has a numeric prefix. */
  lemma ParseUnsignedOfDigitStart(s: string)
    requires |s| > 0 && IsDigit(s[0])
    ensures ParseUnsigned(s).Some? && ParseUnsigned(s).value.Finite?
  {
    NotInfinity(s);
  }

  /** Text that does not start with `e` or `E` carries no exponent. */
  lemma NoExponent(s: string)
    requires |s| == 0 || (s[0] != 'e' && s[0] != 'E')
    ensures ExponentOf(s) == 0
  {
  }

  /** Text that starts with a digit is not the `Infinity` literal. */
  lemma NotInfinity(s: string)
    requires |s| > 0 && IsDigit(s[0])
    ensures !StartsWithInfinity(s)
  {
    if |s| >= 8 {
      assert s[..8][0] == s[0];
    }
  }

  /** The parts of a decimal numeral followed by text that cannot extend it. */
  lemma NumeralPartsDecimal(intPart: string, fracPart: string, rest: string)
    requires |intPart| > 0 && AllDigits(intPart) && AllDigits(fracPart)
    requires |rest| == 0 || !IsDigit(rest[0])
    ensures NumeralParts(intPart + "." + fracPart + rest) == Some((intPart, fracPart, rest))
  {
    var s := intPart + "." + fracPart + rest;
    DigitRunOf(intPart, "." + fracPart + rest);
    assert s == intPart + ("." + fracPart + rest);
    assert s[..|intPart|] == intPart;
    var afterInt := s[|intPart|..];
    assert afterInt == "." + fracPart + rest;
    assert afterInt[1..] == fracPart + rest;
    DigitRunOf(fracPart, rest);
    assert afterInt[1..][..|fracPart|] == fracPart;
    assert afterInt[1 + |fracPart|..] == rest;
  }

  lemma ParseUnsignedDecimal(intPart: string, fracPart: string, rest: string)
    requires |intPart| > 0 && AllDigits(intPart) && AllDigits(fracPart)
    requires |rest| == 0 || (!IsDigit(rest[0]) && rest[0] != 'e' && rest[0] != 'E')
    ensures ParseUnsigned(intPart + "." + fracPart + rest) == Some(Finite(DecimalValue(intPart, fracPart)))
  {
    var s := intPart + "." + fracPart + rest;
    assert s[0] == intPart[0];
    NotInfinity(s);
    NumeralPartsDecimal(intPart, fracPart, rest);
    NoExponent(rest);
    assert Scale(0) == 1.0;
  }

  /**
    A decimal numeral `digits.fraction` followed by anything that cannot extend
    it parses to the numeral's value: the trailing text is ignored.
   */
  lemma ParseFloatDecimal(intPart: string, fracPart: string, rest: string)
    requires |intPart| > 0 && AllDigits(intPart) && AllDigits(fracPart)
    requires |rest| == 0 || (!IsDigit(rest[0]) && rest[0] != 'e' && rest[0] != 'E')
    ensures ParseFloat(intPart + "." + fracPart + rest) == Finite(DecimalValue(intPart, fracPart))
  {
    var s := intPart + "." + fracPart + rest;
    assert s[0] == intPart[0];
    ParseFloatOfDigitStart(s);
    ParseUnsignedDecimal(intPart, fracPart, rest);
  }

  /** The parts of an integer numeral followed by text that cannot extend it. */
  lemma NumeralPartsInteger(intPart: string, rest: string)
    requires |intPart| > 0 && AllDigits(intPart)
    requires |rest| == 0 || (!IsDigit(rest[0]) && rest[0] != '.')
    ensures NumeralParts(intPart + rest) == Some((intPart, "", rest))
  {
    var s := intPart + rest;
    DigitRunOf(intPart, rest);
    assert s[..|intPart|] == intPart;
    assert s[|intPart|..] == rest;
  }

  lemma ParseUnsignedInteger(intPart: string, rest: string)
    requires |intPart| > 0 && AllDigits(intPart)
    requires |rest| == 0 || (!IsDigit(rest[0]) && rest[0] != '.' && rest[0] != 'e' && rest[0] != 'E')
    ensures ParseUnsigned(intPart + rest) == Some(Finite(DigitsValue(intPart) as real))
  {
    ParseUnsignedIntegerScaled(intPart, rest);
    IntegerValue(intPart);
  }

  lemma ParseUnsignedIntegerScaled(intPart: string, rest: string)
    requires |intPart| > 0 && AllDigits(intPart)
    requires |rest| == 0 || (!IsDigit(rest[0]) && rest[0] != '.' && rest[0] != 'e' && rest[0] != 'E')
    ensures ParseUnsigned(intPart + rest) == Some(Finite(DecimalValue(intPart, "") * Scale(0)))
  {
    var s := intPart + rest;
    assert s[0] == intPart[0];
    NotInfinity(s);
    NumeralPartsInteger(intPart, rest);
    NoExponent(rest);
  }

  /** A numeral without fraction digits denotes its integer value. */
  lemma IntegerValue(intPart: string)
    requires AllDigits(intPart)
    ensures DecimalValue(intPart, "") * Scale(0) == DigitsValue(intPart) as real
  {
    assert Scale(0) == 1.0;
    assert DigitsValue("") == 0;
  }

  /** An integer numeral followed by anything that cannot extend it parses to its value. */
  lemma ParseFloatInteger(intPart: string, rest: string)
    requires |intPart| > 0 && AllDigits(intPart)
    requires |rest| == 0 || (!IsDigit(rest[0]) && rest[0] != '.' && rest[0] != 'e' && rest[0] != 'E')
    ensures ParseFloat(intPart + rest) == Finite(DigitsValue(intPart) as real)
  {
    var s := intPart + rest;
    assert s[0] == intPart[0];
    ParseFloatOfDigitStart(s);
    ParseUnsignedInteger(intPart, rest);
  }

  /** The digit run of `digits + rest` is exactly `digits` when `rest` does not start with a digit. */
  lemma {:induction false} DigitRunOf(digits: string, rest: string)
    requires AllDigits(digits)
    requires |rest| == 0 || !IsDigit(rest[0])
    ensures DigitRun(digits + rest) == |digits|
    decreases |digits|
  {
    if |digits| > 0 {
      assert (digits + rest)[1..] == digits[1..] + rest;
      DigitRunOf(digits[1..], rest);
    } else {
      assert digits + rest == rest;
    }
  }

  /** The literal `Infinity`, with any trailing text, parses to positive infinity. */
  lemma ParseFloatInfinity(rest: string)
    ensures ParseFloat("Infinity" + rest) == Infinity(false)
  {
    var s := "Infinity" + rest;
    assert s[0] == 'I';
    assert TrimStart(s) == s;
    assert s[..8] == "Infinity";
  }

  /** Text with no numeric prefix (here: one starting with a letter other than `I`) is NaN. */
  lemma ParseFloatNoNumber(s: string)
    requires |s| > 0 && 'a' <= s[0] <= 'z'
    ensures ParseFloat(s) == NaN
  {
    TrimStartNoWhiteSpace(s);
    if |s| >= 8 {
      assert s[..8][0] == s[0];
    }
    assert NumeralParts(s).None?;
    assert ParseUnsigned(s).None?;
  }

  /** Text that does not start with white space is left as it is by trimming. */
  lemma TrimStartNoWhiteSpace(s: string)
    requires |s| == 0 || !IsStrWhiteSpace(s[0])
    ensures TrimStart(s) == s
  {
  }

  lemma ParseFloatEmpty()
    ensures ParseFloat("") == NaN
  {
  }

  /** The decimal numeral of a natural number, without leading zeros. */
  function Digits(n: nat): (r: string)
    ensures |r| > 0 && AllDigits(r)
    ensures DigitsValue(r) == n
  {
    var last := ('0' as int + n % 10) as char;
    if n < 10 then [last]
    else
      var init := Digits(n / 10);
      var r := init + [last];
      assert r[..|r| - 1] == init;
      r
  }

  /** A leading minus sign negates the number that follows it. */
  lemma ParseFloatNegative(s: string)
    requires |s| > 0 && IsDigit(s[0])
    ensures ParseFloat("-" + s) == Negate(ParseFloat(s))
  {
    ParseFloatOfDigitStart(s);
    ParseFloatMinusSign(s);
  }

  /** After a minus sign, the unsigned numeral is read and negated. */
  lemma ParseFloatMinusSign(s: string)
    requires |s| > 0 && IsDigit(s[0])
    ensures ParseFloat("-" + s) == Negate(ParseUnsigned(s).value)
  {
    ParseUnsignedOfDigitStart(s);
    TrimStartNoWhiteSpace("-" + s);
    assert ("-" + s)[1..] == s;
  }

  /** A string of digits alone is an unsigned numeral of its integer value. */
  lemma ParseUnsignedWholeNumeral(digits: string)
    requires |digits| > 0 && AllDigits(digits)
    ensures ParseUnsigned(digits) == Some(Finite(DigitsValue(digits) as real))
  {
    ParseUnsignedInteger(digits, "");
    assert digits + "" == digits;
  }

  /** A string of digits alone parses to its integer value. */
  lemma ParseFloatWholeNumeral(digits: string)
    requires |digits| > 0 && AllDigits(digits)
    ensures ParseFloat(digits) == Finite(DigitsValue(digits) as real)
  {
    ParseFloatOfDigitStart(digits);
    ParseUnsignedWholeNumeral(digits);
  }
}
