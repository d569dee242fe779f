/** Exact decimal numbers: how Python's Decimal reads them from text and writes them with the `g` format. */
module Decimals {
  import opened Wrappers

  /** coef * 10^exp; trailing zeros are kept, as Decimal keeps them. */
  datatype Dec = Dec(coef: int, exp: int)
  {
    function Times(sign: int): Dec {
      Dec(coef * sign, exp)
    }

    predicate IsZero() {
      coef == 0
    }

    predicate IsInteger() {
      exp >= 0 || Abs(coef) % Pow10(-exp) == 0
    }

    /** Equality of values: 1.50 equals 1.5. */
    predicate Equals(other: Dec) {
      var low := if exp < other.exp then exp else other.exp;
      coef * Pow10(exp - low) == other.coef * Pow10(other.exp - low)
    }
  }

  const ZERO := Dec(0, 0)

  function Abs(n: int): nat {
    if n < 0 then -n else n
  }

  function Pow10(n: nat): (p: nat)
    ensures p > 0
  {
    if n == 0 then 1 else 10 * Pow10(n - 1)
  }

  // ---------------------------------------------------------------------------------------------
  // Digit strings

  predicate IsDigit(ch: char) {
    '0' <= ch <= '9'
  }

  predicate AllDigits(s: string) {
    forall i :: 0 <= i < |s| ==> IsDigit(s[i])
  }

  function DigitChar(d: nat): (ch: char)
    requires d < 10
    ensures IsDigit(ch) && DigitValue(ch) == d
  {
    "0123456789"[d]
  }

  function DigitValue(ch: char): nat
    requires IsDigit(ch)
  {
    ch as int - '0' as int
  }

  function NatText(n: nat): (s: string)
    ensures s != "" && AllDigits(s)
  {
    if n < 10 then [DigitChar(n)] else NatText(n / 10) + [DigitChar(n % 10)]
  }

  function NatValue(s: string): nat
    requires AllDigits(s)
  {
    if s == "" then 0 else NatValue(s[..|s| - 1]) * 10 + DigitValue(s[|s| - 1])
  }

  lemma {:induction false} NatRoundTrip(n: nat)
    ensures NatValue(NatText(n)) == n
  {
    var s := NatText(n);
    if n >= 10 {
      NatRoundTrip(n / 10);
      assert s[..|s| - 1] == NatText(n / 10);
    } else {
      assert s[..|s| - 1] == "";
    }
  }

  function Zeros(n: nat): (s: string)
    ensures |s| == n && AllDigits(s)
  {
    seq(n, _ => '0')
  }

  lemma {:induction false} LeadingZeros(n: nat, s: string)
    requires AllDigits(s)
    ensures NatValue(Zeros(n) + s) == NatValue(s)
    decreases |s| + n
  {
    var t := Zeros(n) + s;
    if s != "" {
      assert t[..|t| - 1] == Zeros(n) + s[..|s| - 1];
      LeadingZeros(n, s[..|s| - 1]);
    } else if n > 0 {
      assert t[..|t| - 1] == Zeros(n - 1) + "";
      LeadingZeros(n - 1, "");
    }
  }

  // ---------------------------------------------------------------------------------------------
  // Decimal(text)

  function DigitRun(s: string): (n: nat)
    ensures n <= |s| && AllDigits(s[..n])
  {
    if s != "" && IsDigit(s[0]) then 1 + DigitRun(s[1..]) else 0
  }

  /** An optional sign, and what follows it. */
  function SplitSign(s: string): (int, string) {
    if s != "" && s[0] == '-' then (-1, s[1..])
    else if s != "" && s[0] == '+' then (1, s[1..])
    else (1, s)
  }

  /** `[eE][+-]?digits`, or nothing. */
  function ParseExponent(s: string): Option<int> {
    if s == "" then Some(0)
    else if s[0] == 'e' || s[0] == 'E' then
      var (sign, digits) := SplitSign(s[1..]);
      if digits != "" && AllDigits(digits) then Some(sign * NatValue(digits)) else None
    else None
  }

  /** The run of digits after a leading point, if there is a point, and what follows. */
  function SplitFraction(s: string): (string, string) {
    if s != "" && s[0] == '.' then
      var j := DigitRun(s[1..]);
      (s[1..][..j], s[1..][j..])
    else ("", s)
  }

  /** Digits with an optional point, at least one digit in all, then an optional exponent. */
  function ParseUnsigned(s: string): Option<Dec> {
    var i := DigitRun(s);
    var (fraction, tail) := SplitFraction(s[i..]);
    if s[..i] + fraction == "" then None
    else
      match ParseExponent(tail)
      case None => None
      case Some(e) => Some(Dec(NatValue(s[..i] + fraction), e - |fraction|))
  }

  /** Anything else than an optional sign and an unsigned number is an InvalidOperation. */
  function ParseDecimal(s: string): Option<Dec> {
    var (sign, body) := SplitSign(s);
    match ParseUnsigned(body)
    case None => None
    case Some(d) => Some(d.Times(sign))
  }

  // ---------------------------------------------------------------------------------------------
  // The `g` format

  function PointAnd(fraction: string): string {
    if fraction == "" then "" else "." + fraction
  }

  function WithPoint(whole: string, fraction: string): string {
    whole + PointAnd(fraction)
  }

  function ExponentText(e: int): string {
    "e" + (if e < 0 then "-" else "+") + NatText(Abs(e))
  }

  /** The digits in plain notation when the exponent is not positive and the number is not tiny, else
      in scientific notation with one digit before the point. */
  function FormatMagnitude(coef: nat, exp: int): string {
    var digits := NatText(coef);
    var leftDigits := exp + |digits|;
    if exp <= 0 && leftDigits > -6 then
      if leftDigits <= 0 then WithPoint("0", Zeros(-leftDigits) + digits)
      else WithPoint(digits[..leftDigits], digits[leftDigits..])
    else
      WithPoint(digits[..1], digits[1..]) + ExponentText(leftDigits - 1)
  }

  function FormatG(d: Dec): string {
    (if d.coef < 0 then "-" else "") + FormatMagnitude(Abs(d.coef), d.exp)
  }

  // ---------------------------------------------------------------------------------------------
  // Reading back what was written

  predicate NoDigitFirst(s: string) {
    s == "" || !IsDigit(s[0])
  }

  lemma {:induction false} DigitRunStops(a: string, b: string)
    requires AllDigits(a) && NoDigitFirst(b)
    ensures DigitRun(a + b) == |a|
    ensures (a + b)[..|a|] == a && (a + b)[|a|..] == b
  {
    if a != "" {
      assert (a + b)[1..] == a[1..] + b;
      DigitRunStops(a[1..], b);
    } else {
      assert a + b == b;
    }
  }

  lemma ExponentRoundTrip(e: int)
    ensures ParseExponent(ExponentText(e)) == Some(e)
  {
    var digits := NatText(Abs(e));
    assert ExponentText(e)[1..] == (if e < 0 then "-" else "+") + digits;
    assert ((if e < 0 then "-" else "+") + digits)[1..] == digits;
    NatRoundTrip(Abs(e));
  }

  lemma FractionParts(fraction: string, tail: string)
    requires AllDigits(fraction) && NoDigitFirst(tail) && (tail == "" || tail[0] != '.')
    ensures SplitFraction(PointAnd(fraction) + tail) == (fraction, tail)
    ensures NoDigitFirst(PointAnd(fraction) + tail)
  {
    if fraction == "" {
      assert "" + tail == tail;
    } else {
      assert ("." + fraction + tail)[1..] == fraction + tail;
      DigitRunStops(fraction, tail);
    }
  }

  /** Where the digits end and what the point splits off decide what is read. */
  lemma ParseAt(s: string, whole: string, rest: string, fraction: string, tail: string, e: int)
    requires whole != "" && AllDigits(whole) && AllDigits(fraction)
    requires DigitRun(s) == |whole| && s[..|whole|] == whole && s[|whole|..] == rest
    requires SplitFraction(rest) == (fraction, tail) && ParseExponent(tail) == Some(e)
    ensures ParseUnsigned(s) == Some(Dec(NatValue(whole + fraction), e - |fraction|))
  {
    hide ParseExponent, SplitFraction, NatValue, DigitRun;
  }

  /** A written mantissa followed by a written exponent is taken apart at the same places. */
  lemma ParseParts(whole: string, fraction: string, tail: string, e: int)
    requires AllDigits(whole) && AllDigits(fraction) && whole != ""
    requires NoDigitFirst(tail) && (tail == "" || tail[0] != '.')
    requires ParseExponent(tail) == Some(e)
    ensures ParseUnsigned(WithPoint(whole, fraction) + tail) == Some(Dec(NatValue(whole + fraction), e - |fraction|))
  {
    var rest := PointAnd(fraction) + tail;
    assert WithPoint(whole, fraction) + tail == whole + rest;
    hide *;
    FractionParts(fraction, tail);
    DigitRunStops(whole, rest);
    ParseAt(whole + rest, whole, rest, fraction, tail, e);
  }

  lemma PlainParts(whole: string, fraction: string)
    requires AllDigits(whole) && AllDigits(fraction) && whole != ""
    ensures ParseUnsigned(WithPoint(whole, fraction)) == Some(Dec(NatValue(whole + fraction), -|fraction|))
  {
    hide ParseUnsigned, WithPoint, NatValue;
    ParseParts(whole, fraction, "", 0);
    assert WithPoint(whole, fraction) + "" == WithPoint(whole, fraction);
  }

  lemma PaddedParts(zeros: nat, digits: string)
    requires AllDigits(digits)
    ensures ParseUnsigned(WithPoint("0", Zeros(zeros) + digits)) == Some(Dec(NatValue(digits), -(zeros + |digits|)))
  {
    hide ParseUnsigned, WithPoint, NatValue;
    PlainParts("0", Zeros(zeros) + digits);
    LeadingZeros(zeros + 1, digits);
    assert "0" + (Zeros(zeros) + digits) == Zeros(zeros + 1) + digits;
  }

  lemma MagnitudeRoundTrip(coef: nat, exp: int)
    ensures ParseUnsigned(FormatMagnitude(coef, exp)) == Some(Dec(coef, exp))
  {
    hide ParseUnsigned, WithPoint, NatText, ExponentText, NatValue;
    var digits := NatText(coef);
    var leftDigits := exp + |digits|;
    NatRoundTrip(coef);
    if exp <= 0 && leftDigits > -6 {
      if leftDigits <= 0 {
        PaddedParts(-leftDigits, digits);
      } else {
        assert digits[..leftDigits] + digits[leftDigits..] == digits;
        PlainParts(digits[..leftDigits], digits[leftDigits..]);
      }
    } else {
      assert digits[..1] + digits[1..] == digits;
      ExponentRoundTrip(leftDigits - 1);
      ExponentStart(leftDigits - 1);
      ParseParts(digits[..1], digits[1..], ExponentText(leftDigits - 1), leftDigits - 1);
    }
  }

  lemma ExponentStart(e: int)
    ensures ExponentText(e) != "" && ExponentText(e)[0] == 'e'
  {
  }

  /** Decimal(f"{d:g}") is d, coefficient and exponent alike. */
  lemma FormatRoundTrip(d: Dec)
    ensures ParseDecimal(FormatG(d)) == Some(d)
  {
    hide FormatMagnitude, ParseUnsigned;
    var body := FormatMagnitude(Abs(d.coef), d.exp);
    MagnitudeStart(Abs(d.coef), d.exp);
    MagnitudeRoundTrip(Abs(d.coef), d.exp);
    if d.coef < 0 {
      assert FormatG(d) == "-" + body;
      assert FormatG(d)[1..] == body;
    } else {
      assert FormatG(d) == body;
    }
    assert Dec(Abs(d.coef), d.exp).Times(if d.coef < 0 then -1 else 1) == d;
  }

  lemma MagnitudeStart(coef: nat, exp: int)
    ensures FormatMagnitude(coef, exp) != "" && IsDigit(FormatMagnitude(coef, exp)[0])
  {
  }

  /** The characters a written number is made of. */
  predicate PlainNumber(s: string) {
    forall i :: 0 <= i < |s| ==> IsDigit(s[i]) || s[i] == '+' || s[i] == '-' || s[i] == '.' || s[i] == 'e'
  }

  lemma FormatChars(d: Dec)
    ensures FormatG(d) != "" && PlainNumber(FormatG(d))
  {
    hide FormatMagnitude;
    MagnitudeStart(Abs(d.coef), d.exp);
    MagnitudeChars(Abs(d.coef), d.exp);
  }

  lemma MagnitudeChars(coef: nat, exp: int)
    ensures PlainNumber(FormatMagnitude(coef, exp))
  {
    hide NatText;
    assert forall e :: PlainNumber(ExponentText(e));
  }
}
