/** Reading back a formatted duration, and reading a text with a sign put before it. */
module RoundTrip {
  import opened Decimals
  import opened Wrappers
  import opened Durations
  import opened Parser
  import opened Grammar
  import opened Formatter

  // ---------------------------------------------------------------------------------------------
  // What formatting keeps: every component, except that any zero becomes the plain zero

  function CanonDec(value: Dec): Dec {
    if value.IsZero() then ZERO else value
  }

  function CanonDate(d: DateDuration): DateDuration {
    DateDuration(CanonDec(d.years), CanonDec(d.months), CanonDec(d.days), CanonDec(d.weeks))
  }

  function CanonTime(d: TimeDuration): TimeDuration {
    TimeDuration(CanonDec(d.hours), CanonDec(d.minutes), CanonDec(d.seconds))
  }

  function Canon(d: Duration): Duration {
    Duration(CanonDate(d.date), CanonTime(d.time))
  }

  lemma CanonComponents(d: Duration)
    ensures forall i :: 0 <= i < 7 ==> Canon(d).Components()[i] == CanonDec(d.Components()[i])
  {
  }

  lemma ZeroKeeps(value: Dec)
    requires value.IsZero()
    ensures ZERO.Equals(value) && value.IsInteger()
  {
    hide Pow10;
    if value.exp < 0 {
      ZeroRemainder(Pow10(-value.exp));
    }
  }

  lemma ZeroRemainder(p: nat)
    requires p > 0
    ensures 0 % p == 0
  {
  }

  lemma CanonDecKeeps(value: Dec)
    ensures CanonDec(value).Equals(value)
    ensures CanonDec(value).IsInteger() <==> value.IsInteger()
    ensures CanonDec(value).IsZero() <==> value.IsZero()
  {
    hide Pow10;
    if value.IsZero() {
      ZeroKeeps(value);
      ZeroKeeps(ZERO);
    }
  }

  /** Two durations are equal if all seven components are. */
  lemma EqualsFields(a: Duration, b: Duration)
    ensures a.Equals(b) <==>
            && a.date.years.Equals(b.date.years) && a.date.months.Equals(b.date.months)
            && a.date.weeks.Equals(b.date.weeks) && a.date.days.Equals(b.date.days)
            && a.time.hours.Equals(b.time.hours) && a.time.minutes.Equals(b.time.minutes)
            && a.time.seconds.Equals(b.time.seconds)
  {
    hide Dec.Equals;
    var (c, e) := (a.Components(), b.Components());
    assert c[0] == a.date.years && c[1] == a.date.months && c[2] == a.date.days && c[3] == a.date.weeks;
    assert c[4] == a.time.hours && c[5] == a.time.minutes && c[6] == a.time.seconds;
    assert a.Equals(b) ==> forall i :: 0 <= i < 7 ==> c[i].Equals(e[i]);
  }

  /** The canonical form has the same value, and is as fractional. */
  lemma CanonKeeps(d: Duration)
    ensures Canon(d).Equals(d)
    ensures FractionalOk(Canon(d)) <==> FractionalOk(d)
  {
    hide CanonDec, Canon;
    CanonComponents(d);
    forall i | 0 <= i < 7
      ensures Canon(d).Components()[i].Equals(d.Components()[i])
      ensures Canon(d).Components()[i].IsInteger() <==> d.Components()[i].IsInteger()
      ensures Canon(d).Components()[i].IsZero() <==> d.Components()[i].IsZero()
    {
      CanonDecKeeps(d.Components()[i]);
    }
  }

  // ---------------------------------------------------------------------------------------------
  // The tokens a duration is written as are sentences of the scanners' languages

  lemma WrittenNumber(value: Dec, letter: char)
    ensures var t := Token(FormatG(value), letter); Numeric(t) && ValueOf(t) == value
  {
    hide FormatG, ParseDecimal;
    var text := FormatG(value);
    FormatChars(value);
    assert Dotted(text) == text;
    FormatRoundTrip(value);
  }

  lemma {:induction false} LastAppend(a: seq<Token>, b: seq<Token>, letter: char)
    ensures Last(a + b, letter) == if Last(b, letter).Some? then Last(b, letter) else Last(a, letter)
    decreases |a|
  {
    hide Numeric, ValueOf;
    if a == [] {
      assert a + b == b;
    } else {
      assert (a + b)[1..] == a[1..] + b;
      LastAppend(a[1..], b, letter);
    }
  }

  lemma LastPiece(value: Dec, sign: int, letter: char, other: char)
    ensures Last(Piece(value, sign, letter), other) ==
            if value.IsZero() || other != letter then None else Some(value.Times(sign))
  {
    hide FormatG, Numeric, ValueOf;
    WrittenNumber(value.Times(sign), letter);
    assert [Token(FormatG(value.Times(sign)), letter)][1..] == [];
  }

  lemma SignedTwice(value: Dec, sign: int)
    requires sign in {-1, 1}
    ensures Signed(if value.IsZero() then None else Some(value.Times(sign)), sign, ZERO) == CanonDec(value)
  {
    if sign == 1 {
      assert value.Times(1).Times(1) == value;
    } else {
      assert value.Times(-1).Times(-1) == value;
    }
  }

  lemma DatePiecesLast(d: DateDuration, sign: int, letter: char)
    ensures Last(DatePieces(d, sign), letter) ==
            var value := match letter
                         case 'W' => d.weeks
                         case 'Y' => d.years
                         case 'M' => d.months
                         case 'D' => d.days
                         case _ => ZERO;
            if value.IsZero() then None else Some(value.Times(sign))
  {
    hide Piece, Last;
    var (w, y) := (Piece(d.weeks, sign, 'W'), Piece(d.years, sign, 'Y'));
    var (m, n) := (Piece(d.months, sign, 'M'), Piece(d.days, sign, 'D'));
    LastAppend(w + y + m, n, letter);
    LastAppend(w + y, m, letter);
    LastAppend(w, y, letter);
    LastPiece(d.weeks, sign, 'W', letter);
    LastPiece(d.years, sign, 'Y', letter);
    LastPiece(d.months, sign, 'M', letter);
    LastPiece(d.days, sign, 'D', letter);
  }

  lemma TimePiecesLast(d: TimeDuration, sign: int, letter: char)
    ensures Last(TimePieces(d, sign), letter) ==
            var value := match letter
                         case 'H' => d.hours
                         case 'M' => d.minutes
                         case 'S' => d.seconds
                         case _ => ZERO;
            if value.IsZero() then None else Some(value.Times(sign))
  {
    hide Piece, Last;
    var (h, m, s) := (Piece(d.hours, sign, 'H'), Piece(d.minutes, sign, 'M'), Piece(d.seconds, sign, 'S'));
    LastAppend(h + m, s, letter);
    LastAppend(h, m, letter);
    LastPiece(d.hours, sign, 'H', letter);
    LastPiece(d.minutes, sign, 'M', letter);
    LastPiece(d.seconds, sign, 'S', letter);
  }

  lemma DatePiecesRead(d: DateDuration, sign: int)
    requires sign in {-1, 1}
    ensures ReadDate(DatePieces(d, sign), sign, NO_DATE) == CanonDate(d)
  {
    hide DatePieces, Last, CanonDec, Signed;
    DatePiecesLast(d, sign, 'Y');
    DatePiecesLast(d, sign, 'M');
    DatePiecesLast(d, sign, 'D');
    DatePiecesLast(d, sign, 'W');
    SignedTwice(d.years, sign);
    SignedTwice(d.months, sign);
    SignedTwice(d.days, sign);
    SignedTwice(d.weeks, sign);
  }

  lemma TimePiecesRead(d: TimeDuration, sign: int)
    requires sign in {-1, 1}
    ensures ReadTime(TimePieces(d, sign), sign, NO_TIME) == CanonTime(d)
  {
    hide TimePieces, Last, CanonDec, Signed;
    TimePiecesLast(d, sign, 'H');
    TimePiecesLast(d, sign, 'M');
    TimePiecesLast(d, sign, 'S');
    SignedTwice(d.hours, sign);
    SignedTwice(d.minutes, sign);
    SignedTwice(d.seconds, sign);
  }

  lemma DateTokensPrepend(value: Dec, sign: int, letter: char, rest: seq<Token>)
    requires letter in {'Y', 'M', 'D', 'W'} && DateTokens(rest)
    ensures DateTokens(Piece(value, sign, letter) + rest)
  {
    hide FormatG, Numeric;
    WrittenNumber(value.Times(sign), letter);
    var piece := Piece(value, sign, letter);
    if piece == [] {
      assert piece + rest == rest;
    } else {
      assert (piece + rest)[1..] == rest;
    }
  }

  lemma DatePiecesAreTokens(d: DateDuration, sign: int)
    ensures DateTokens(DatePieces(d, sign))
  {
    hide Piece, DateTokens;
    var (w, y) := (Piece(d.weeks, sign, 'W'), Piece(d.years, sign, 'Y'));
    var (m, n) := (Piece(d.months, sign, 'M'), Piece(d.days, sign, 'D'));
    NoDateTokens();
    DateTokensPrepend(d.days, sign, 'D', []);
    DateTokensPrepend(d.months, sign, 'M', n + []);
    DateTokensPrepend(d.years, sign, 'Y', m + (n + []));
    DateTokensPrepend(d.weeks, sign, 'W', y + (m + (n + [])));
    assert w + (y + (m + (n + []))) == DatePieces(d, sign);
  }

  lemma NoDateTokens()
    ensures DateTokens([])
  {
  }

  lemma TimeTokensPrepend(value: Dec, sign: int, letter: char, rest: seq<Token>)
    requires Rank(letter) < 3 && TimeTokens(Rank(letter) + 1, rest)
    ensures TimeTokens(Rank(letter), Piece(value, sign, letter) + rest)
  {
    hide FormatG, Numeric;
    WrittenNumber(value.Times(sign), letter);
    var piece := Piece(value, sign, letter);
    if piece == [] {
      assert piece + rest == rest;
    } else {
      assert (piece + rest)[1..] == rest;
    }
  }

  lemma TimePiecesAreTokens(d: TimeDuration, sign: int)
    ensures TimeTokens(0, TimePieces(d, sign))
  {
    hide Piece, TimeTokens;
    var (h, m, s) := (Piece(d.hours, sign, 'H'), Piece(d.minutes, sign, 'M'), Piece(d.seconds, sign, 'S'));
    NoTimeTokens();
    TimeTokensPrepend(d.seconds, sign, 'S', []);
    TimeTokensPrepend(d.minutes, sign, 'M', s + []);
    TimeTokensPrepend(d.hours, sign, 'H', m + (s + []));
    assert h + (m + (s + [])) == TimePieces(d, sign);
  }

  lemma NoTimeTokens()
    ensures TimeTokens(3, [])
  {
  }

  // ---------------------------------------------------------------------------------------------
  // The round trip

  /** The text after the "P" is read back without ever consulting the date-time parser. */
  lemma BodyReadsBack(d: Duration, sign: int, arrow: string -> Option<Stamp>)
    requires sign in {-1, 1}
    ensures DateOf(Render(DatePieces(d.date, sign)) + TimeText(d.time, sign), sign, arrow) == Ok(Canon(d))
  {
    hide DatePieces, TimePieces, Render, DateOf, TimeOf, ReadDate, ReadTime, DateTokens, TimeTokens, CanonDate,
         CanonTime;
    var tokens := DatePieces(d.date, sign);
    var end := TimeText(d.time, sign);
    assert Render(tokens) + end == Render(tokens) + ("" + end);
    DatePiecesAreTokens(d.date, sign);
    DatePiecesRead(d.date, sign);
    DateMeaning(Render(tokens) + end, tokens, "", end, sign, arrow);
    TimePiecesRead(d.time, sign);
    if end == "" {
      NothingToRead(sign);
    } else {
      var times := TimePieces(d.time, sign);
      TimePiecesAreTokens(d.time, sign);
      TimeMeaning(times, "", sign);
      assert Render(times) + "" == Render(times);
      assert end[1..] == Render(times);
      RenderNonEmpty(times);
    }
  }

  lemma NothingToRead(sign: int)
    ensures ReadTime([], sign, NO_TIME) == NO_TIME
  {
  }

  lemma RenderNonEmpty(tokens: seq<Token>)
    requires tokens != []
    ensures Render(tokens) != ""
  {
  }

  lemma ZeroToken()
    ensures var t := Token("0", 'D'); Numeric(t) && ValueOf(t) == ZERO
    ensures Render([Token("0", 'D')]) == "0D"
  {
    assert [Token("0", 'D')][1..] == [];
    assert NatText(0) == "0";
    assert FormatG(ZERO) == "0";
    WrittenNumber(ZERO, 'D');
  }

  lemma ZeroTokens(t: Token)
    requires Numeric(t) && ValueOf(t) == ZERO && t.letter == 'D'
    ensures DateTokens([t]) && ReadDate([t], 1, NO_DATE) == NO_DATE
  {
    hide Numeric, ValueOf;
    var rest := [t][1..];
    assert rest == [];
    assert Last(rest, 'D') == None && Last(rest, 'Y') == None && Last(rest, 'M') == None && Last(rest, 'W') == None;
    assert Last([t], 'D') == Some(ZERO) && Last([t], 'Y') == None && Last([t], 'M') == None && Last([t], 'W') == None;
    assert ZERO.Times(1) == ZERO;
  }

  lemma ZeroText(arrow: string -> Option<Stamp>)
    ensures Parse("P0D", arrow) == Ok(Duration(NO_DATE, NO_TIME))
  {
    hide Numeric, ValueOf, DateTokens, DateOf, ReadDate, Render, FractionalOk;
    var zero := Token("0", 'D');
    ZeroToken();
    ZeroTokens(zero);
    assert "0D" == Render([zero]) + ("" + "");
    DateMeaning("0D", [zero], "", "", 1, arrow);
    assert "P0D"[1..] == "0D";
    ZeroIsFine(Duration(NO_DATE, NO_TIME));
  }

  /** Formatting fails exactly when weeks are mixed with years, months or days. What it writes parses
      back to the same duration, component by component, exactly when only the lowest non-zero
      component has a fraction, and is otherwise rejected for that fraction. This holds whatever the
      date-time parser would answer, so that parser is never reached. */
  lemma FormatParse(d: Duration, arrow: string -> Option<Stamp>)
    ensures Format(d).Ok? <==> !MixesWeeks(d.date)
    ensures Format(d).Ok? ==>
              Parse(Format(d).value, arrow) == if FractionalOk(d) then Ok(Canon(d)) else Err(InvalidFractional)
    ensures Canon(d).Equals(d)
  {
    hide DateOf, FractionalOk, Render, DatePieces, TimeText, MixesWeeks, CheckGlobalSign, Canon;
    CanonKeeps(d);
    GlobalSign(d);
    var sign := CheckGlobalSign(d);
    var rest := Render(DatePieces(d.date, sign)) + TimeText(d.time, sign);
    var body := "P" + Render(DatePieces(d.date, sign)) + TimeText(d.time, sign);
    assert body == "P" + rest;
    BodyReadsBack(d, sign, arrow);
    if !MixesWeeks(d.date) {
      if body == "P" {
        assert rest == "";
        EmptyBody(d, sign);
        ZeroText(arrow);
        ZeroIsFine(d);
      } else {
        var s := Format(d).value;
        assert body[1..] == rest;
        if sign < 0 {
          assert s == "-" + body;
          assert s[1..] == body;
        } else {
          assert s == body;
        }
      }
    }
  }

  lemma EmptyBody(d: Duration, sign: int)
    requires Render(DatePieces(d.date, sign)) + TimeText(d.time, sign) == ""
    ensures Canon(d) == Duration(NO_DATE, NO_TIME)
    ensures forall i :: 0 <= i < 7 ==> d.Components()[i].IsZero()
  {
    hide FormatG;
    if DatePieces(d.date, sign) != [] {
      RenderNonEmpty(DatePieces(d.date, sign));
      assert false;
    }
  }

  lemma ZeroIsFine(d: Duration)
    requires forall i :: 0 <= i < 7 ==> d.Components()[i].IsZero()
    ensures FractionalOk(d)
  {
  }

  // ---------------------------------------------------------------------------------------------
  // A sign in front

  function NegateTime(r: Result<TimeDuration>): Result<TimeDuration> {
    if r.Ok? then Ok(r.value.Negate()) else r
  }

  function Negated(r: Result<Duration>): Result<Duration> {
    if r.Ok? then Ok(r.value.Negate()) else r
  }

  lemma {:induction false} TimeNegates(rest: string, table: Designators, number: string, d: TimeDuration)
    ensures ScanTime(rest, table, number, d.Negate(), -1) == NegateTime(ScanTime(rest, table, number, d, 1))
    decreases |rest|
  {
    hide ParseDecimal, Consume;
    if rest == "" {
    } else if IsLetter(rest[0]) {
      var (left, field) := Consume(table, rest[0]);
      var value := ParseDecimal(number);
      if field.Some? && value.Some? {
        var next := SetTime(d, field.value, value.value.Times(1));
        assert next.Negate() == SetTime(d.Negate(), field.value, value.value.Times(-1));
        TimeNegates(rest[1..], left, "", next);
      }
    } else if IsNumber(rest[0]) {
      TimeNegates(rest[1..], table, number + [PointForComma(rest[0])], d);
    }
  }

  lemma AfterTNegates(done: string, number: string, time: string, date: DateDuration, arrow: string -> Option<Stamp>)
    ensures AfterT(done, number, time, date.Negate(), -1, arrow) == Negated(AfterT(done, number, time, date, 1, arrow))
  {
    hide ScanTime;
    assert NO_TIME.Negate() == NO_TIME;
    TimeNegates(time, TIME_DESIGNATORS, "", NO_TIME);
  }

  lemma {:induction false} DateNegates(done: string, rest: string, number: string, d: DateDuration,
                                       arrow: string -> Option<Stamp>)
    ensures ScanDate(done, rest, number, d.Negate(), -1, arrow) == Negated(ScanDate(done, rest, number, d, 1, arrow))
    decreases |rest|
  {
    hide ParseDecimal, Consume, AfterT;
    if rest == "" {
      assert NO_TIME.Negate() == NO_TIME;
    } else if rest[0] == 'T' {
      AfterTNegates(done, number, rest[1..], d, arrow);
    } else if IsLetter(rest[0]) {
      var (_, field) := Consume(DATE_DESIGNATORS, rest[0]);
      var value := ParseDecimal(number);
      if field.Some? && value.Some? {
        var next := SetDate(d, field.value, value.value.Times(1));
        assert next.Negate() == SetDate(d.Negate(), field.value, value.value.Times(-1));
        DateNegates(done + [rest[0]], rest[1..], "", next, arrow);
      }
    } else if IsNumber(rest[0]) {
      DateNegates(done + [rest[0]], rest[1..], number + [PointForComma(rest[0])], d, arrow);
    }
  }

  lemma {:induction false} NeverEmpty(done: string, rest: string, number: string, d: DateDuration, sign: int,
                                      arrow: string -> Option<Stamp>)
    ensures ScanDate(done, rest, number, d, sign, arrow) != Err(EmptyDuration)
    decreases |rest|
  {
    hide ParseDecimal, Consume, SetDate, SetTime;
    if rest == "" {
    } else if rest[0] == 'T' {
      TimeNeverEmpty(rest[1..], TIME_DESIGNATORS, "", NO_TIME, sign);
    } else if IsLetter(rest[0]) {
      var (_, field) := Consume(DATE_DESIGNATORS, rest[0]);
      var value := ParseDecimal(number);
      if field.Some? && value.Some? {
        NeverEmpty(done + [rest[0]], rest[1..], "", SetDate(d, field.value, value.value.Times(sign)), sign, arrow);
      }
    } else if IsNumber(rest[0]) {
      NeverEmpty(done + [rest[0]], rest[1..], number + [PointForComma(rest[0])], d, sign, arrow);
    }
  }

  lemma {:induction false} TimeNeverEmpty(rest: string, table: Designators, number: string, d: TimeDuration, sign: int)
    ensures ScanTime(rest, table, number, d, sign) != Err(EmptyDuration)
    decreases |rest|
  {
    hide ParseDecimal, Consume, SetTime;
    if rest == "" {
    } else if IsLetter(rest[0]) {
      var (left, field) := Consume(table, rest[0]);
      var value := ParseDecimal(number);
      if field.Some? && value.Some? {
        TimeNeverEmpty(rest[1..], left, "", SetTime(d, field.value, value.value.Times(sign)), sign);
      }
    } else if IsNumber(rest[0]) {
      TimeNeverEmpty(rest[1..], table, number + [PointForComma(rest[0])], d, sign);
    }
  }

  lemma NegationKeepsFraction(d: Duration)
    ensures FractionalOk(d.Negate()) <==> FractionalOk(d)
  {
    hide Pow10;
    forall i | 0 <= i < 7
      ensures d.Negate().Components()[i] == d.Components()[i].Times(-1)
      ensures d.Negate().Components()[i].IsZero() <==> d.Components()[i].IsZero()
      ensures d.Negate().Components()[i].IsInteger() <==> d.Components()[i].IsInteger()
    {
    }
  }

  /** A sign has already been given, or the "P" is all there is. */
  predicate TakesNoSign(s: string) {
    s == "P" || (|s| >= 2 && (s[0] == '+' || s[0] == '-') && s[1] == 'P')
  }

  /** A minus in front of a text negates what it parses to, errors included, for exactly the texts that
      do not have a sign before their "P" already and are not the bare "P": "P" is refused as empty,
      but "-P" is read as a zero duration. */
  lemma NegationLaw(s: string, arrow: string -> Option<Stamp>)
    ensures Parse("-" + s, arrow) == Negated(Parse(s, arrow)) <==> !TakesNoSign(s)
  {
    hide FractionalOk, ScanDate;
    var t := "-" + s;
    assert t[1..] == s;
    if s != "" && s[0] == 'P' {
      var body := s[1..];
      assert NO_DATE.Negate() == NO_DATE;
      DateNegates("", body, "", NO_DATE, arrow);
      var r := DateOf(body, 1, arrow);
      if r.Ok? {
        NegationKeepsFraction(r.value);
      }
      if s == "P" {
        ReadsNothing(arrow);
        assert Parse(t, arrow).Ok?;
      }
    } else if TakesNoSign(s) {
      NeverEmpty("", s[1..][1..], "", NO_DATE, SplitSign(s).0, arrow);
      assert Parse(t, arrow) == Err(EmptyDuration);
      assert Parse(s, arrow) != Err(EmptyDuration);
    }
  }

  lemma BareP(arrow: string -> Option<Stamp>)
    ensures Parse("P", arrow) == Err(EmptyDuration) && Parse("-P", arrow) == Ok(Duration(NO_DATE, NO_TIME))
  {
    hide ScanDate, FractionalOk;
    ReadsNothing(arrow);
    assert "-P"[1..] == "P" && "P"[1..] == "";
  }

  lemma ReadsNothing(arrow: string -> Option<Stamp>)
    ensures DateOf("", -1, arrow) == Ok(Duration(NO_DATE, NO_TIME))
    ensures FractionalOk(Duration(NO_DATE, NO_TIME))
  {
    ZeroIsFine(Duration(NO_DATE, NO_TIME));
  }
}
