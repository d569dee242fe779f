/** What the parser makes of single characters, commas, signs and date-times. */
module Readings {
  import opened Decimals
  import opened Wrappers
  import opened Durations
  import opened Parser
  import opened Grammar
  import Numbers
  import RoundTrip

  // ---------------------------------------------------------------------------------------------
  // Characters

  /** The characters a number is made of, and the letters: no character is both. */
  lemma Characters(ch: char)
    ensures IsNumber(ch) <==>
            ch in {'0', '1', '2', '3', '4', '5', '6', '7', '8', '9', '+', '-', '.', ',', 'e', 'E'}
    ensures IsLetter(ch) <==>
            ch in {'a', 'b', 'c', 'd', 'f', 'g', 'h', 'i', 'j', 'k', 'l', 'm', 'n', 'o', 'p', 'q', 'r', 's', 't', 'u',
                   'v', 'w', 'x', 'y', 'z', 'A', 'B', 'C', 'D', 'F', 'G', 'H', 'I', 'J', 'K', 'L', 'M', 'N', 'O', 'P',
                   'Q', 'R', 'S', 'T', 'U', 'V', 'W', 'X', 'Y', 'Z'}
  {
  }

  // ---------------------------------------------------------------------------------------------
  // Commas

  /** The text with points for its commas. */
  function WithPoints(s: string): (t: string)
    ensures |t| == |s|
    ensures forall i :: 0 <= i < |s| ==> t[i] == if s[i] == ',' then '.' else s[i]
  {
    seq(|s|, i requires 0 <= i < |s| => if s[i] == ',' then '.' else s[i])
  }

  lemma PointsStep(s: string)
    requires s != ""
    ensures WithPoints(s)[1..] == WithPoints(s[1..]) && WithPoints(s)[0] == if s[0] == ',' then '.' else s[0]
  {
  }

  lemma SameRole(ch: char)
    ensures var point := if ch == ',' then '.' else ch;
            && (IsLetter(point) <==> IsLetter(ch)) && (IsNumber(point) <==> IsNumber(ch))
            && (IsLetter(ch) ==> point == ch) && PointForComma(point) == PointForComma(ch)
  {
  }

  lemma {:induction false} TimeIgnoresCommas(rest: string, table: Designators, number: string, d: TimeDuration,
                                             sign: int)
    ensures ScanTime(WithPoints(rest), table, number, d, sign) == ScanTime(rest, table, number, d, sign)
    decreases |rest|
  {
    hide ParseDecimal, Consume, SetTime, IsLetter, IsNumber, PointForComma, WithPoints;
    if rest != "" {
      PointsStep(rest);
      SameRole(rest[0]);
      if IsLetter(rest[0]) {
        var (left, field) := Consume(table, rest[0]);
        if field.Some? && ParseDecimal(number).Some? {
          var next := SetTime(d, field.value, ParseDecimal(number).value.Times(sign));
          TimeIgnoresCommas(rest[1..], left, "", next, sign);
        }
      } else if IsNumber(rest[0]) {
        TimeIgnoresCommas(rest[1..], table, number + [PointForComma(rest[0])], d, sign);
      }
    }
  }

  /** In a time every comma is read as a point. */
  lemma CommaIsPoint(s: string, sign: int)
    ensures TimeOf(WithPoints(s), sign) == TimeOf(s, sign)
  {
    hide ScanTime;
    TimeIgnoresCommas(s, TIME_DESIGNATORS, "", NO_TIME, sign);
  }

  /** A number that is read, with its comma as a point, for each designator of a time. */
  lemma OneTime(number: string, letter: char, value: Dec, sign: int)
    requires NumberText(number) && ParseDecimal(WithPoints(number)) == Some(value)
    ensures letter == 'H' ==>
              TimeOf(number + [letter], sign) == Ok(TimeDuration(value.Times(sign), ZERO, ZERO))
    ensures letter == 'M' ==>
              TimeOf(number + [letter], sign) == Ok(TimeDuration(ZERO, value.Times(sign), ZERO))
    ensures letter == 'S' ==>
              TimeOf(number + [letter], sign) == Ok(TimeDuration(ZERO, ZERO, value.Times(sign)))
  {
    hide ParseDecimal;
    DottedIsPoints(number);
    if letter in {'H', 'M', 'S'} {
      var t := Token(number, letter);
      OneToken(t);
      TimeMeaning([t], "", sign);
      assert number + [letter] + "" == number + [letter];
    }
  }

  lemma DottedIsPoints(s: string)
    ensures Dotted(s) == WithPoints(s)
  {
  }

  lemma OneToken(t: Token)
    requires Numeric(t)
    ensures Render([t]) == t.number + [t.letter]
    ensures t.letter in {'H', 'M', 'S'} ==> TimeTokens(0, [t])
    ensures t.letter in {'Y', 'M', 'D', 'W'} ==> DateTokens([t])
    ensures forall letter :: Last([t], letter) == if letter == t.letter then Some(ValueOf(t)) else None
  {
    hide Numeric, ValueOf;
    assert [t][1..] == [];
    assert Render([]) == "" && t.number + [t.letter] + "" == t.number + [t.letter];
  }

  /** Seconds with a decimal comma. */
  lemma CommaSeconds(a: string, b: string, sign: int)
    requires a != "" && AllDigits(a) && AllDigits(b)
    ensures AllDigits(a + b)
    ensures TimeOf(a + "," + b + "S", sign)
            == Ok(TimeDuration(ZERO, ZERO, Dec(NatValue(a + b), -|b|).Times(sign)))
  {
    var number := a + "," + b;
    assert forall i :: 0 <= i < |number| ==> IsNumber(number[i]);
    assert WithPoints(number) == a + "." + b;
    PointedNumber(a, b);
    hide TimeOf, ParseDecimal, NatValue, WithPoints;
    OneTime(number, 'S', Dec(NatValue(a + b), -|b|), sign);
    assert a + "," + b + "S" == number + ['S'];
  }

  lemma PointedNumber(a: string, b: string)
    requires a != "" && AllDigits(a) && AllDigits(b)
    ensures AllDigits(a + b) && ParseDecimal(a + "." + b) == Some(Dec(NatValue(a + b), -|b|))
  {
    var n := Numbers.NumberText("", a, ".", b, "");
    Numbers.NoExponent();
    NoSign(n);
    assert a + b != "";
    hide *;
    Numbers.TwoRuns(a, b);
    Numbers.ReadsAs(n, a + "." + b, a + b, NatValue(a + b), 0);
  }

  lemma NoSign(n: Numbers.NumberText)
    requires n.sign == "" && n.exponent == ""
    ensures Numbers.IsSign(n.sign) && Numbers.SignValue(n.sign) == 1
    ensures Numbers.TextOf(n) == n.whole + n.point + n.fraction
  {
    assert n.fraction + "" == n.fraction && "" + (n.whole + (n.point + n.fraction)) == n.whole + n.point + n.fraction;
  }

  /** And for each designator of a date. */
  lemma OneDate(number: string, letter: char, value: Dec, sign: int, arrow: string -> Option<Stamp>)
    requires NumberText(number) && ParseDecimal(WithPoints(number)) == Some(value)
    ensures letter == 'Y' ==>
              DateOf(number + [letter], sign, arrow)
              == Ok(Duration(DateDuration(value.Times(sign), ZERO, ZERO, ZERO), NO_TIME))
    ensures letter == 'M' ==>
              DateOf(number + [letter], sign, arrow)
              == Ok(Duration(DateDuration(ZERO, value.Times(sign), ZERO, ZERO), NO_TIME))
    ensures letter == 'D' ==>
              DateOf(number + [letter], sign, arrow)
              == Ok(Duration(DateDuration(ZERO, ZERO, value.Times(sign), ZERO), NO_TIME))
    ensures letter == 'W' ==>
              DateOf(number + [letter], sign, arrow)
              == Ok(Duration(DateDuration(ZERO, ZERO, ZERO, value.Times(sign)), NO_TIME))
  {
    hide ParseDecimal;
    DottedIsPoints(number);
    if letter in {'Y', 'M', 'D', 'W'} {
      var t := Token(number, letter);
      OneToken(t);
      assert number + [letter] + ("" + "") == number + [letter];
      assert IsDateSentence(number + [letter], [t], "", "");
      DateMeaning(number + [letter], [t], "", "", sign, arrow);
    }
  }

  // ---------------------------------------------------------------------------------------------
  // Date-times

  /** A single number without a comma before the T hands the whole text to the date-time parser; what that makes
      of it is taken over component by component, under the sign. */
  lemma DateTimeMeaning(number: string, time: string, sign: int, arrow: string -> Option<Stamp>)
    requires NumberText(number) && number != "" && ',' !in number
    ensures var r := DateOf(number + "T" + time, sign, arrow);
            match arrow(number + "T" + time)
            case None => r == Err(UnparseableValue)
            case Some(t) =>
              && r.Ok?
              && r.value.date == DateDuration(Dec(t.year * sign, 0), Dec(t.month * sign, 0), Dec(t.day * sign, 0), ZERO)
              && r.value.time == TimeDuration(Dec(t.hour * sign, 0), Dec(t.minute * sign, 0), Dec(t.second * sign, 0))
  {
    var (s, end) := (number + "T" + time, "T" + time);
    NoTokens();
    assert Render([]) + (number + end) == s;
    assert IsDateSentence(s, [], number, end);
    DottedIsPoints(number);
    assert Dotted(number) == number;
    DateMeaning(s, [], number, end, sign, arrow);
  }

  lemma NoTokens()
    ensures DateTokens([]) && Render([]) == ""
  {
  }

  // ---------------------------------------------------------------------------------------------
  // The sign and the P

  /** A plus in front changes nothing. */
  lemma PlusLaw(s: string, arrow: string -> Option<Stamp>)
    requires |s| >= 2 && s[0] == 'P'
    ensures Parse("+" + s, arrow) == Parse(s, arrow)
  {
    hide FractionalOk, ScanDate;
    var t := "+" + s;
    assert t[1..] == s;
  }

  /** What is refused as empty: texts of fewer than two characters, and texts without a P where it belongs. */
  lemma RefusedAsEmpty(s: string, arrow: string -> Option<Stamp>)
    ensures Parse(s, arrow) == Err(EmptyDuration) <==>
            |s| < 2 || (if s[0] == '+' || s[0] == '-' then s[1] != 'P' else s[0] != 'P')
  {
    hide FractionalOk, ScanDate;
    if |s| >= 2 {
      var (sign, body) := SplitSign(s);
      RoundTrip.NeverEmpty("", body[1..], "", NO_DATE, sign, arrow);
    }
  }

  // ---------------------------------------------------------------------------------------------
  // Fractions

  /** Which durations are refused for a fraction: those with one above a component that is not zero, in the order
      years, months, days, weeks, hours, minutes, seconds. */
  lemma FractionMeaning(d: Duration)
    ensures FractionalOk(d) <==>
            && (!d.date.years.IsInteger() ==> d.date.months.coef == 0)
            && (!d.date.years.IsInteger() || !d.date.months.IsInteger() ==> d.date.days.coef == 0)
            && (!d.date.years.IsInteger() || !d.date.months.IsInteger() || !d.date.days.IsInteger() ==>
                  d.date.weeks.coef == 0)
            && (!DateWhole(d.date) ==> d.time.hours.coef == 0)
            && (!DateWhole(d.date) || !d.time.hours.IsInteger() ==> d.time.minutes.coef == 0)
            && (!DateWhole(d.date) || !d.time.hours.IsInteger() || !d.time.minutes.IsInteger() ==>
                  d.time.seconds.coef == 0)
  {
    hide Dec.IsInteger;
    var c := d.Components();
    assert c[0] == d.date.years && c[1] == d.date.months && c[2] == d.date.days && c[3] == d.date.weeks;
    assert c[4] == d.time.hours && c[5] == d.time.minutes && c[6] == d.time.seconds;
  }

  predicate DateWhole(d: DateDuration) {
    d.years.IsInteger() && d.months.IsInteger() && d.days.IsInteger() && d.weeks.IsInteger()
  }
}
