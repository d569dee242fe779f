/** Which texts are decimal numbers, and which numbers they are. */
module Numbers {
  import Calendar
  import opened Wrappers
  import opened Decimals

  /** The parts of a number: an optional sign, digits with an optional point, an optional exponent. */
  datatype NumberText = NumberText(sign: string, whole: string, point: string, fraction: string, exponent: string)

  function TextOf(n: NumberText): string {
    n.sign + (n.whole + (n.point + (n.fraction + n.exponent)))
  }

  predicate IsSign(s: string) {
    s == "" || s == "+" || s == "-"
  }

  ghost predicate IsExponent(s: string) {
    s == "" || exists letter, sign, digits :: IsExponentOf(s, letter, sign, digits)
  }

  predicate IsExponentOf(s: string, letter: string, sign: string, digits: string) {
    && s == letter + (sign + digits) && (letter == "e" || letter == "E") && IsSign(sign)
    && digits != "" && AllDigits(digits)
  }

  ghost predicate IsNumber(n: NumberText) {
    && IsSign(n.sign) && AllDigits(n.whole) && AllDigits(n.fraction) && n.whole + n.fraction != ""
    && (n.point == "." || (n.point == "" && n.fraction == "")) && IsExponent(n.exponent)
  }

  function SignValue(sign: string): int {
    if sign == "-" then -1 else 1
  }

  lemma SignIsSplit(sign: string, rest: string)
    requires IsSign(sign) && (rest == "" || (rest[0] != '+' && rest[0] != '-'))
    ensures SplitSign(sign + rest) == (SignValue(sign), rest)
  {
    assert sign == "" ==> sign + rest == rest;
    assert sign != "" ==> (sign + rest)[1..] == rest;
  }

  /** The exponent after its letter, with its sign. */
  lemma ExponentMeaning(s: string, letter: string, sign: string, digits: string)
    requires IsExponentOf(s, letter, sign, digits)
    ensures ParseExponent(s) == Some(SignValue(sign) * NatValue(digits))
  {
    assert s[1..] == sign + digits;
    SignIsSplit(sign, digits);
  }

  lemma ExponentLanguage(s: string)
    ensures ParseExponent(s).Some? <==> IsExponent(s)
  {
    if s != "" && ParseExponent(s).Some? {
      var rest := s[1..];
      var digits := SplitSign(rest).1;
      var sign := rest[..|rest| - |digits|];
      assert rest == sign + digits;
      assert s == [s[0]] + (sign + digits);
      assert IsExponentOf(s, [s[0]], sign, digits);
    }
    if s != "" && IsExponent(s) {
      var letter, sign, digits :| IsExponentOf(s, letter, sign, digits);
      ExponentMeaning(s, letter, sign, digits);
    }
  }

  lemma ExponentBegins(s: string)
    requires IsExponent(s)
    ensures s == "" || s[0] == 'e' || s[0] == 'E'
  {
  }

  lemma AfterFraction(n: NumberText)
    requires IsNumber(n)
    ensures SplitFraction(n.point + (n.fraction + n.exponent)) == (n.fraction, n.exponent)
    ensures NoDigitFirst(n.point + (n.fraction + n.exponent))
  {
    ExponentBegins(n.exponent);
    if n.point == "" {
      assert n.point + (n.fraction + n.exponent) == n.exponent;
    } else {
      assert (n.point + (n.fraction + n.exponent))[1..] == n.fraction + n.exponent;
      DigitRunStops(n.fraction, n.exponent);
    }
  }

  /** Where the digits end and what the point splits off decide what is read. */
  lemma UnsignedAt(s: string, n: NumberText, rest: string)
    requires AllDigits(n.whole) && AllDigits(n.fraction) && n.whole + n.fraction != ""
    requires DigitRun(s) == |n.whole| && s[..|n.whole|] == n.whole && s[|n.whole|..] == rest
    requires SplitFraction(rest) == (n.fraction, n.exponent) && ParseExponent(n.exponent).Some?
    ensures ParseUnsigned(s)
            == Some(Dec(NatValue(n.whole + n.fraction), ParseExponent(n.exponent).value - |n.fraction|))
  {
    hide ParseExponent, SplitFraction, NatValue, DigitRun;
  }

  lemma SignedAt(sign: string, body: string, d: Dec)
    requires IsSign(sign) && (body == "" || (body[0] != '+' && body[0] != '-')) && ParseUnsigned(body) == Some(d)
    ensures ParseDecimal(sign + body) == Some(Dec(d.coef * SignValue(sign), d.exp))
  {
    hide ParseUnsigned, SplitSign, SignValue;
    SignIsSplit(sign, body);
  }

  lemma Checked(n: NumberText)
    requires IsNumber(n)
    ensures IsSign(n.sign) && AllDigits(n.whole) && AllDigits(n.fraction) && n.whole + n.fraction != ""
    ensures IsExponent(n.exponent)
  {
  }

  function Rest(n: NumberText): string {
    n.point + (n.fraction + n.exponent)
  }

  lemma WholeFirst(n: NumberText)
    requires IsNumber(n)
    ensures var body := n.whole + Rest(n);
            && DigitRun(body) == |n.whole| && body[..|n.whole|] == n.whole && body[|n.whole|..] == Rest(n)
    ensures SplitFraction(Rest(n)) == (n.fraction, n.exponent)
  {
    hide DigitRun, SplitFraction, IsExponent;
    AfterFraction(n);
    DigitRunStops(n.whole, Rest(n));
  }

  /** The digits before and after the point as one number, with the exponent lowered by the digits after the
      point. */
  ghost function Magnitude(n: NumberText): Dec
    requires IsNumber(n)
  {
    Checked(n);
    TwoRuns(n.whole, n.fraction);
    ExponentLanguage(n.exponent);
    Dec(NatValue(n.whole + n.fraction), ParseExponent(n.exponent).value - |n.fraction|)
  }

  lemma UnsignedMeaning(n: NumberText)
    requires IsNumber(n)
    ensures ParseUnsigned(n.whole + Rest(n)) == Some(Magnitude(n))
  {
    hide IsNumber, AllDigits, SplitFraction, ParseExponent, NatValue, IsExponent, ParseUnsigned, DigitRun, Rest;
    Checked(n);
    ExponentLanguage(n.exponent);
    WholeFirst(n);
    TwoRuns(n.whole, n.fraction);
    UnsignedAt(n.whole + Rest(n), n, Rest(n));
  }

  /** What a number is. */
  lemma NumberMeaning(n: NumberText)
    requires IsNumber(n)
    ensures ParseDecimal(TextOf(n)) == Some(Dec(Magnitude(n).coef * SignValue(n.sign), Magnitude(n).exp))
  {
    assert TextOf(n) == n.sign + (n.whole + Rest(n));
    BodyBegins(n);
    Checked(n);
    assert n.whole + Rest(n) == n.whole + (n.point + (n.fraction + n.exponent));
    hide *;
    UnsignedMeaning(n);
    SignedAt(n.sign, n.whole + Rest(n), Magnitude(n));
  }

  lemma TwoRuns(a: string, b: string)
    requires AllDigits(a) && AllDigits(b)
    ensures AllDigits(a + b)
  {
  }

  lemma BodyBegins(n: NumberText)
    requires IsNumber(n)
    ensures var body := n.whole + (n.point + (n.fraction + n.exponent)); body != "" && body[0] != '+' && body[0] != '-'
  {
    hide IsExponent;
    var body := n.whole + (n.point + (n.fraction + n.exponent));
    if n.whole != "" {
      assert body[0] == n.whole[0];
    } else {
      assert body[0] == '.';
    }
  }

  /** And nothing else is a number. */
  lemma NumberLanguage(s: string)
    ensures ParseDecimal(s).Some? <==> exists n :: IsNumber(n) && s == TextOf(n)
  {
    if ParseDecimal(s).Some? {
      var n := PartsOf(s);
    }
    forall n | IsNumber(n) && s == TextOf(n)
      ensures ParseDecimal(s).Some?
    {
      NumberMeaning(n);
    }
  }

  lemma PartsOf(s: string) returns (n: NumberText)
    requires ParseDecimal(s).Some?
    ensures IsNumber(n) && s == TextOf(n)
  {
    var body := SplitSign(s).1;
    var sign := SignSplits(s);
    assert ParseUnsigned(body).Some?;
    var whole, point, fraction, exponent := UnsignedPartsOf(body);
    hide ParseDecimal, SplitSign, IsExponent, IsSign;
    n := NumberText(sign, whole, point, fraction, exponent);
  }

  lemma SignSplits(s: string) returns (sign: string)
    ensures IsSign(sign) && s == sign + SplitSign(s).1
  {
    sign := if s != "" && (s[0] == '+' || s[0] == '-') then [s[0]] else "";
  }

  lemma UnsignedPartsOf(s: string) returns (whole: string, point: string, fraction: string, exponent: string)
    requires ParseUnsigned(s).Some?
    ensures s == whole + (point + (fraction + exponent)) && AllDigits(whole) && AllDigits(fraction)
    ensures whole + fraction != "" && IsExponent(exponent) && (point == "." || (point == "" && fraction == ""))
  {
    hide DigitRun, SplitFraction, ParseExponent, IsExponent, AllDigits;
    var rest := s[DigitRun(s)..];
    whole := s[..DigitRun(s)];
    point := FractionSplits(rest);
    fraction, exponent := SplitFraction(rest).0, SplitFraction(rest).1;
    ExponentLanguage(exponent);
    assert s == whole + rest;
  }

  lemma FractionSplits(rest: string) returns (point: string)
    ensures var (fraction, tail) := SplitFraction(rest);
            && rest == point + (fraction + tail) && AllDigits(fraction)
            && (point == "." || (point == "" && fraction == ""))
  {
    point := if rest != "" && rest[0] == '.' then "." else "";
  }

  lemma MagnitudeIs(n: NumberText, digits: string, coef: nat, e: int)
    requires IsNumber(n) && n.whole + n.fraction == digits && AllDigits(digits) && NatValue(digits) == coef
    requires ParseExponent(n.exponent) == Some(e)
    ensures Magnitude(n) == Dec(coef, e - |n.fraction|)
  {
    hide IsNumber, NatValue, ParseExponent;
  }

  lemma ReadsAs(n: NumberText, text: string, digits: string, coef: nat, e: int)
    requires IsSign(n.sign) && AllDigits(n.whole) && AllDigits(n.fraction) && n.whole + n.fraction == digits != ""
    requires n.point == "." || (n.point == "" && n.fraction == "")
    requires IsExponent(n.exponent) && ParseExponent(n.exponent) == Some(e)
    requires AllDigits(digits) && NatValue(digits) == coef && TextOf(n) == text
    ensures ParseDecimal(text) == Some(Dec(coef * SignValue(n.sign), e - |n.fraction|))
  {
    hide IsSign, AllDigits, IsExponent, ParseExponent, NatValue, TextOf, ParseDecimal, SignValue, Magnitude;
    MagnitudeIs(n, digits, coef, e);
    NumberMeaning(n);
  }

  /** Numbers as people write them. */
  lemma NumberExamples()
    ensures ParseDecimal(".5") == Some(Dec(5, -1)) && ParseDecimal("5.") == Some(Dec(5, 0))
    ensures ParseDecimal("+1.50E3") == Some(Dec(150, 1)) && ParseDecimal("-2e-1") == Some(Dec(-2, -1))
  {
    PointExamples();
    SignExample();
    MinusExample();
  }

  lemma PointExamples()
    ensures ParseDecimal(".5") == Some(Dec(5, -1)) && ParseDecimal("5.") == Some(Dec(5, 0))
  {
    NoExponent();
    DigitsValue();
    hide ParseExponent, NatValue, ParseDecimal, IsExponent;
    PointFirst();
    PointLast();
  }

  lemma NoExponent()
    ensures IsExponent("") && ParseExponent("") == Some(0)
  {
  }

  lemma PointFirst()
    ensures ParseDecimal(".5") == Some(Dec(5, -1))
  {
    NoExponent();
    DigitsValue();
    hide ParseExponent, NatValue, ParseDecimal, IsExponent;
    ReadsAs(NumberText("", "", ".", "5", ""), ".5", "5", 5, 0);
  }

  lemma PointLast()
    ensures ParseDecimal("5.") == Some(Dec(5, 0))
  {
    NoExponent();
    DigitsValue();
    hide ParseExponent, NatValue, ParseDecimal, IsExponent;
    ReadsAs(NumberText("", "5", ".", "", ""), "5.", "5", 5, 0);
  }

  lemma SignExample()
    ensures ParseDecimal("+1.50E3") == Some(Dec(150, 1))
  {
    DigitsValue();
    ExponentExamples();
    hide ParseExponent, NatValue, ParseDecimal, IsExponent;
    ReadsAs(NumberText("+", "1", ".", "50", "E3"), "+1.50E3", "150", 150, 3);
  }

  lemma MinusExample()
    ensures ParseDecimal("-2e-1") == Some(Dec(-2, -1))
  {
    DigitsValue();
    ExponentExamples();
    hide ParseExponent, NatValue, ParseDecimal, IsExponent;
    ReadsAs(NumberText("-", "2", "", "", "e-1"), "-2e-1", "2", 2, -1);
  }

  lemma ExponentExamples()
    ensures IsExponent("") && IsExponent("E3") && IsExponent("e-1")
    ensures ParseExponent("E3") == Some(3) && ParseExponent("e-1") == Some(-1)
  {
    DigitsValue();
    hide ParseExponent, NatValue;
    assert IsExponentOf("E3", "E", "", "3");
    ExponentMeaning("E3", "E", "", "3");
    assert IsExponentOf("e-1", "e", "-", "1");
    ExponentMeaning("e-1", "e", "-", "1");
  }

  /** A comma is no point, and there has to be a digit, in the exponent too. */
  lemma NoNumbers()
    ensures ParseDecimal("1,5").None? && ParseDecimal(".").None? && ParseDecimal("1e").None?
  {
    assert "1,5"[1..] == ",5" && "1e"[1..] == "e" && "."[1..] == "";
    assert DigitRun("1,5") == 1 && DigitRun("1e") == 1 && DigitRun(".") == 0;
    assert SplitFraction(",5") == ("", ",5") && SplitFraction("e") == ("", "e");
    assert "e"[1..] == "" && ParseExponent("e").None?;
    assert "."[0..] == "." && SplitFraction(".") == ("", "");
    assert "."[..0] + "" == "";
  }

  lemma DigitsValue()
    ensures NatValue("5") == 5 && NatValue("3") == 3 && NatValue("1") == 1 && NatValue("2") == 2
    ensures NatValue("150") == 150
  {
    assert "5"[..0] == "" && "3"[..0] == "" && "1"[..0] == "" && "2"[..0] == "";
    assert "150"[..2] == "15" && "15"[..1] == "1";
  }

  // ---------------------------------------------------------------------------------------------
  // How a number is written

  /** Digits without leading zeros. */
  lemma {:induction false} NoLeadingZero(n: nat)
    ensures n == 0 ==> NatText(n) == "0"
    ensures n > 0 ==> NatText(n)[0] != '0'
    decreases n
  {
    if n >= 10 {
      NoLeadingZero(n / 10);
      assert NatText(n)[0] == NatText(n / 10)[0];
    } else {
      assert NatText(n) == [DigitChar(n)];
    }
  }

  lemma WrittenPlain(coef: nat, exp: int)
    requires exp <= 0 && |NatText(coef)| + exp > -6
    ensures var digits := NatText(coef);
            var lead := |digits| + exp;
            FormatMagnitude(coef, exp) ==
            if lead > 0 then WithPoint(digits[..lead], digits[lead..]) else WithPoint("0", Zeros(-lead) + digits)
  {
    hide NatText, WithPoint, Zeros, ExponentText;
  }

  lemma WrittenWithExponent(coef: nat, exp: int)
    requires exp > 0 || |NatText(coef)| + exp <= -6
    ensures var digits := NatText(coef);
            FormatMagnitude(coef, exp) == WithPoint(digits[..1], digits[1..]) + ExponentText(|digits| + exp - 1)
  {
    hide NatText, WithPoint, Zeros, ExponentText;
  }

  lemma Pointed(whole: string, fraction: string)
    ensures WithPoint(whole, fraction) == if fraction == "" then whole else whole + "." + fraction
  {
    assert whole + ("." + fraction) == whole + "." + fraction;
    assert whole + "" == whole;
  }

  lemma ExponentIs(e: int)
    ensures ExponentText(e) == (if e < 0 then "e-" else "e+") + NatText(Abs(e))
  {
    hide NatText;
  }

  /** A whole number that is not too large is written in plain digits, and so is one with digits after the point
      unless there are six zeros or more before the first of them; all others have an exponent. */
  lemma Notation(coef: nat, exp: int)
    ensures var (digits, text) := (NatText(coef), FormatMagnitude(coef, exp));
            var lead := |digits| + exp;
            && (exp == 0 ==> text == digits)
            && (exp < 0 < lead ==> text == digits[..lead] + "." + digits[lead..])
            && (-6 < lead <= 0 && exp < 0 ==> text == "0." + (Zeros(-lead) + digits))
            && (exp > 0 || lead <= -6 ==>
                  text == (if |digits| == 1 then digits else digits[..1] + "." + digits[1..])
                          + ((if lead < 1 then "e-" else "e+") + NatText(Abs(lead - 1))))
  {
    hide NatText, FormatMagnitude, WithPoint, ExponentText;
    var digits := NatText(coef);
    var lead := |digits| + exp;
    if exp > 0 || lead <= -6 {
      WrittenWithExponent(coef, exp);
      Pointed(digits[..1], digits[1..]);
      ExponentIs(lead - 1);
      assert |digits| == 1 ==> digits[..1] == digits;
    } else {
      WrittenPlain(coef, exp);
      if lead > 0 {
        Pointed(digits[..lead], digits[lead..]);
        assert exp == 0 ==> digits[..lead] == digits;
      } else {
        Pointed("0", Zeros(-lead) + digits);
        assert "0" + "." == "0.";
      }
    }
  }

  lemma OneDigit(n: nat)
    requires n < 10
    ensures NatText(n) == [DigitChar(n)]
  {
  }

  lemma TwoDigits(a: nat, b: nat)
    requires 0 < a < 10 && b < 10
    ensures NatText(10 * a + b) == [DigitChar(a), DigitChar(b)]
  {
    assert (10 * a + b) / 10 == a && (10 * a + b) % 10 == b;
    OneDigit(a);
    assert [DigitChar(a)] + [DigitChar(b)] == [DigitChar(a), DigitChar(b)];
  }

  lemma PositiveIsMagnitude(coef: int, exp: int)
    requires coef >= 0
    ensures FormatG(Dec(coef, exp)) == FormatMagnitude(coef, exp)
    ensures coef > 0 ==> FormatG(Dec(-coef, exp)) == "-" + FormatMagnitude(coef, exp)
  {
    hide FormatMagnitude;
    assert "" + FormatMagnitude(coef, exp) == FormatMagnitude(coef, exp);
  }

  lemma PlainExamples()
    ensures FormatG(Dec(0, 0)) == "0" && FormatG(Dec(15, 0)) == "15" && FormatG(Dec(-15, -1)) == "-1.5"
  {
    OneDigit(0);
    TwoDigits(1, 5);
    hide NatText, FormatMagnitude, FormatG;
    Notation(0, 0);
    PositiveIsMagnitude(0, 0);
    Notation(15, 0);
    PositiveIsMagnitude(15, 0);
    Notation(15, -1);
    PositiveIsMagnitude(15, -1);
    assert "15"[..1] + "." + "15"[1..] == "1.5" && "-" + "1.5" == "-1.5";
  }

  lemma SmallExamples()
    ensures FormatG(Dec(1, -6)) == "0.000001" && FormatG(Dec(1, -7)) == "1e-7"
  {
    OneDigit(1);
    OneDigit(7);
    hide NatText, FormatMagnitude, FormatG;
    Notation(1, -6);
    PositiveIsMagnitude(1, -6);
    assert "0." + (Zeros(5) + "1") == "0.000001";
    Notation(1, -7);
    PositiveIsMagnitude(1, -7);
    assert "1" + ("e-" + "7") == "1e-7";
  }

  lemma LargeExamples()
    ensures FormatG(Dec(1, 1)) == "1e+1" && FormatG(Dec(12, 5)) == "1.2e+6"
  {
    OneDigit(1);
    OneDigit(6);
    TwoDigits(1, 2);
    hide NatText, FormatMagnitude, FormatG;
    Notation(1, 1);
    PositiveIsMagnitude(1, 1);
    assert "1" + ("e+" + "1") == "1e+1";
    Notation(12, 5);
    PositiveIsMagnitude(12, 5);
    assert "12"[..1] + "." + "12"[1..] + ("e+" + "6") == "1.2e+6";
  }

  // ---------------------------------------------------------------------------------------------
  // Values

  /** Equal numbers: the same value in any two notations. */
  lemma EqualsMeaning(a: Dec, b: Dec, low: int)
    requires low <= a.exp && low <= b.exp
    ensures a.Equals(b) <==> a.coef * Pow10(a.exp - low) == b.coef * Pow10(b.exp - low)
  {
    var least := if a.exp < b.exp then a.exp else b.exp;
    PowAdds(a.exp - least, least - low);
    PowAdds(b.exp - least, least - low);
    var (x, y, p) := (a.coef * Pow10(a.exp - least), b.coef * Pow10(b.exp - least), Pow10(least - low));
    hide Pow10;
    Regroup(a.coef, Pow10(a.exp - least), p);
    Regroup(b.coef, Pow10(b.exp - least), p);
    CancelFactor(x, y, p);
  }

  lemma Regroup(a: int, b: int, c: int)
    ensures a * (b * c) == (a * b) * c
  {
  }

  lemma CancelFactor(x: int, y: int, p: int)
    requires p > 0
    ensures x * p == y * p <==> x == y
  {
  }

  lemma {:induction false} PowAdds(m: nat, n: nat)
    ensures Pow10(m + n) == Pow10(m) * Pow10(n)
    decreases m
  {
    if m > 0 {
      PowAdds(m - 1, n);
      assert Pow10(m + n) == 10 * Pow10(m - 1 + n) == 10 * (Pow10(m - 1) * Pow10(n));
    }
  }

  lemma Powers()
    ensures Pow10(0) == 1 && Pow10(1) == 10 && Pow10(3) == 1000
  {
  }

  /** An integer is a number that equals one without a fraction. */
  lemma IntegerMeaning(d: Dec)
    ensures d.IsInteger() <==> exists k: int :: d.Equals(Dec(k, 0))
  {
    if d.exp >= 0 {
      var k := d.coef * Pow10(d.exp);
      assert Pow10(0) == 1;
      assert d.Equals(Dec(k, 0));
    } else {
      var p := Pow10(-d.exp);
      assert Pow10(0) == 1;
      forall k: int
        ensures d.Equals(Dec(k, 0)) <==> d.coef == k * p
      {
      }
      if d.IsInteger() {
        var k := if d.coef >= 0 then Abs(d.coef) / p else -(Abs(d.coef) / p);
        assert Abs(d.coef) == (Abs(d.coef) / p) * p;
        Calendar.DivModUnique(Abs(d.coef), p, Abs(d.coef) / p, 0);
        SignedMultiple(d.coef, Abs(d.coef) / p, p);
        assert d.Equals(Dec(k, 0));
      } else if k: int :| d.Equals(Dec(k, 0)) {
        MultipleRemainder(d.coef, k, p);
        assert false;
      }
    }
  }

  lemma SignedMultiple(coef: int, q: int, p: nat)
    requires Abs(coef) == q * p
    ensures coef == (if coef >= 0 then q else -q) * p
  {
  }

  lemma MultipleRemainder(coef: int, k: int, p: nat)
    requires p > 0 && coef == k * p
    ensures Abs(coef) % p == 0
  {
    if coef >= 0 {
      NoRemainder(k, p);
    } else {
      assert -coef == -k * p;
      NoRemainder(-k, p);
    }
  }

  lemma NoRemainder(k: int, p: nat)
    requires p > 0
    ensures (k * p) % p == 0
  {
    Calendar.DivModUnique(k * p, p, k, 0);
  }
}
