/** The languages the two scanners accept, and what they read, in terms of tokens. */
module Grammar {
  import opened Decimals
  import opened Wrappers
  import opened Durations
  import opened Parser

  /** A run of number characters and the designator letter that ends it. */
  datatype Token = Token(number: string, letter: char)

  function Render(tokens: seq<Token>): string {
    if tokens == [] then "" else tokens[0].number + [tokens[0].letter] + Render(tokens[1..])
  }

  predicate NumberText(s: string) {
    forall i :: 0 <= i < |s| ==> IsNumber(s[i])
  }

  /** The text with every comma read as a point. */
  function Dotted(s: string): (t: string)
    ensures |t| == |s|
  {
    seq(|s|, i requires 0 <= i < |s| => PointForComma(s[i]))
  }

  predicate Numeric(t: Token) {
    NumberText(t.number) && ParseDecimal(Dotted(t.number)).Some?
  }

  function ValueOf(t: Token): Dec
    requires Numeric(t)
  {
    ParseDecimal(Dotted(t.number)).value
  }

  /** The place of a letter in the time designator table; 3 if it has none. */
  function Rank(letter: char): nat {
    if letter == 'H' then 0 else if letter == 'M' then 1 else if letter == 'S' then 2 else 3
  }

  /** Numbers whose letters are a strictly increasing selection from place `k` of H, M, S on. */
  predicate TimeTokens(k: nat, tokens: seq<Token>)
    decreases |tokens|
  {
    tokens == []
    || (Numeric(tokens[0]) && k <= Rank(tokens[0].letter) < 3 && TimeTokens(Rank(tokens[0].letter) + 1, tokens[1..]))
  }

  /** Numbers with date letters, in any order and any number. */
  predicate DateTokens(tokens: seq<Token>)
    decreases |tokens|
  {
    tokens == []
    || (Numeric(tokens[0]) && tokens[0].letter in {'Y', 'M', 'D', 'W'} && DateTokens(tokens[1..]))
  }

  /** The value of the last token that carries the letter. */
  function Last(tokens: seq<Token>, letter: char): Option<Dec> {
    if tokens == [] then None
    else if Last(tokens[1..], letter).Some? then Last(tokens[1..], letter)
    else if tokens[0].letter == letter && Numeric(tokens[0]) then Some(ValueOf(tokens[0]))
    else None
  }

  function Signed(value: Option<Dec>, sign: int, default: Dec): Dec {
    if value.Some? then value.value.Times(sign) else default
  }

  function ReadTime(tokens: seq<Token>, sign: int, d: TimeDuration): TimeDuration {
    TimeDuration(Signed(Last(tokens, 'H'), sign, d.hours), Signed(Last(tokens, 'M'), sign, d.minutes),
                 Signed(Last(tokens, 'S'), sign, d.seconds))
  }

  function ReadDate(tokens: seq<Token>, sign: int, d: DateDuration): DateDuration {
    DateDuration(Signed(Last(tokens, 'Y'), sign, d.years), Signed(Last(tokens, 'M'), sign, d.months),
                 Signed(Last(tokens, 'D'), sign, d.days), Signed(Last(tokens, 'W'), sign, d.weeks))
  }

  /** The tokens of `number` followed by `rest`, the loose number characters at the end of them, and
      what there is from the first "T" on. */
  function Tokens(number: string, rest: string): (seq<Token>, string, string)
    decreases |rest|
  {
    if rest == "" || rest[0] == 'T' then ([], number, rest)
    else if IsLetter(rest[0]) then
      var (tokens, tail, end) := Tokens("", rest[1..]);
      ([Token(number, rest[0])] + tokens, tail, end)
    else Tokens(number + [rest[0]], rest[1..])
  }

  // ---------------------------------------------------------------------------------------------
  // Reading a run of number characters

  lemma {:induction false} TimeReadsNumber(n: string, rest: string, table: Designators, number: string,
                                           d: TimeDuration, sign: int)
    requires NumberText(n)
    ensures ScanTime(n + rest, table, number, d, sign) == ScanTime(rest, table, number + Dotted(n), d, sign)
    decreases |n|
  {
    if n == "" {
      assert n + rest == rest && number + Dotted(n) == number;
    } else {
      assert (n + rest)[0] == n[0] && (n + rest)[1..] == n[1..] + rest;
      TimeReadsNumber(n[1..], rest, table, number + [PointForComma(n[0])], d, sign);
      assert number + [PointForComma(n[0])] + Dotted(n[1..]) == number + Dotted(n);
    }
  }

  lemma {:induction false} DateReadsNumber(done: string, n: string, rest: string, number: string, d: DateDuration,
                                           sign: int,
                                           arrow: string -> Option<Stamp>)
    requires NumberText(n)
    ensures ScanDate(done, n + rest, number, d, sign, arrow)
            == ScanDate(done + n, rest, number + Dotted(n), d, sign, arrow)
    decreases |n|
  {
    hide AfterT, Consume, SetDate, ParseDecimal;
    if n == "" {
      assert n + rest == rest && number + Dotted(n) == number && done + n == done;
    } else {
      assert (n + rest)[0] == n[0] && (n + rest)[1..] == n[1..] + rest;
      DateReadsNumber(done + [n[0]], n[1..], rest, number + [PointForComma(n[0])], d, sign, arrow);
      assert number + [PointForComma(n[0])] + Dotted(n[1..]) == number + Dotted(n);
      assert done + [n[0]] + n[1..] == done + n;
    }
  }

  lemma RenderHead(t: Token, tokens: seq<Token>, end: string)
    ensures Render([t] + tokens) + end == t.number + ([t.letter] + (Render(tokens) + end))
    ensures ([t.letter] + (Render(tokens) + end))[1..] == Render(tokens) + end
  {
    assert ([t] + tokens)[1..] == tokens;
    assert t.number + [t.letter] + Render(tokens) + end == t.number + ([t.letter] + (Render(tokens) + end));
  }

  lemma DottedStep(number: string, ch: char)
    ensures Dotted(number) + [PointForComma(ch)] == Dotted(number + [ch])
    ensures "" + Dotted(number) == Dotted(number) && Dotted("") == ""
  {
  }

  // ---------------------------------------------------------------------------------------------
  // The time scanner

  lemma {:induction false} ConsumeTime(k: nat, letter: char)
    requires k <= 3
    ensures Consume(TIME_DESIGNATORS[k..], letter) ==
            if k <= Rank(letter) < 3 then (TIME_DESIGNATORS[Rank(letter) + 1..], Some(TIME_DESIGNATORS[Rank(letter)].1))
            else ([], None)
    decreases 3 - k
  {
    if k < 3 {
      var table := TIME_DESIGNATORS[k..];
      assert table[1..] == TIME_DESIGNATORS[k + 1..];
      ConsumeTime(k + 1, letter);
    }
  }

  /** Reading one token with the table consumed up to place `k`. */
  lemma TimeReadsToken(k: nat, t: Token, after: string, d: TimeDuration, sign: int)
    requires k <= 3 && Numeric(t) && k <= Rank(t.letter) < 3
    ensures ScanTime(t.number + ([t.letter] + after), TIME_DESIGNATORS[k..], "", d, sign)
            == ScanTime(after, TIME_DESIGNATORS[Rank(t.letter) + 1..], "",
                        SetTime(d, TIME_DESIGNATORS[Rank(t.letter)].1, ValueOf(t).Times(sign)), sign)
  {
    hide ParseDecimal, Consume;
    TimeReadsNumber(t.number, [t.letter] + after, TIME_DESIGNATORS[k..], "", d, sign);
    DottedStep(t.number, ',');
    assert ([t.letter] + after)[1..] == after;
    ConsumeTime(k, t.letter);
  }

  /** The place the designator table has reached after the tokens. */
  function NextPlace(k: nat, tokens: seq<Token>): (place: nat)
    requires k <= 3 && TimeTokens(k, tokens)
    ensures k <= place <= 3
    decreases |tokens|
  {
    if tokens == [] then k else NextPlace(Rank(tokens[0].letter) + 1, tokens[1..])
  }

  /** Reading tokens takes their values and uses up their part of the table. */
  lemma {:induction false} TimeReadsTokens(k: nat, tokens: seq<Token>, rest: string, d: TimeDuration, sign: int)
    requires k <= 3 && TimeTokens(k, tokens)
    ensures ScanTime(Render(tokens) + rest, TIME_DESIGNATORS[k..], "", d, sign)
            == ScanTime(rest, TIME_DESIGNATORS[NextPlace(k, tokens)..], "", ReadTime(tokens, sign, d), sign)
    decreases |tokens|
  {
    hide ParseDecimal, Consume, ScanTime;
    if tokens == [] {
      assert Render(tokens) + rest == rest;
    } else {
      var t := tokens[0];
      assert tokens == [t] + tokens[1..];
      RenderHead(t, tokens[1..], rest);
      TimeReadsToken(k, t, Render(tokens[1..]) + rest, d, sign);
      var next := SetTime(d, TIME_DESIGNATORS[Rank(t.letter)].1, ValueOf(t).Times(sign));
      TimeReadsTokens(Rank(t.letter) + 1, tokens[1..], rest, next, sign);
      LaterLetters(Rank(t.letter) + 1, tokens[1..]);
    }
  }

  /** Letters the table has passed do not come again. */
  lemma {:induction false} LaterLetters(k: nat, tokens: seq<Token>)
    requires TimeTokens(k, tokens)
    ensures k > 0 ==> Last(tokens, 'H') == None
    ensures k > 1 ==> Last(tokens, 'M') == None
    ensures k > 2 ==> Last(tokens, 'S') == None
    decreases |tokens|
  {
    hide Numeric, ValueOf;
    if tokens != [] {
      LaterLetters(Rank(tokens[0].letter) + 1, tokens[1..]);
    }
  }

  /** What the time scanner accepts is such a sentence. */
  lemma {:induction false} TimeAcceptsOnlySentences(k: nat, number: string, rest: string, d: TimeDuration, sign: int)
    requires k <= 3 && NumberText(number)
    requires ScanTime(rest, TIME_DESIGNATORS[k..], Dotted(number), d, sign).Ok?
    ensures var (tokens, tail, end) := Tokens(number, rest);
            TimeTokens(k, tokens) && NumberText(tail) && end == "" && number + rest == Render(tokens) + tail
    decreases |rest|
  {
    hide ParseDecimal, Consume, SetTime;
    if rest == "" {
      assert number + rest == "" + number;
      return;
    }
    assert rest == [rest[0]] + rest[1..];
    if IsLetter(rest[0]) {
      ConsumeTime(k, rest[0]);
      DottedStep(number, ',');
      var t := Token(number, rest[0]);
      var value := ParseDecimal(Dotted(number)).value;
      TimeAcceptsOnlySentences(Rank(rest[0]) + 1, "", rest[1..],
                               SetTime(d, TIME_DESIGNATORS[Rank(rest[0])].1, value.Times(sign)), sign);
      var (tokens, tail, end) := Tokens("", rest[1..]);
      assert "" + rest[1..] == rest[1..];
      assert ([t] + tokens)[1..] == tokens;
      RenderHead(t, tokens, tail);
    } else {
      DottedStep(number, rest[0]);
      TimeAcceptsOnlySentences(k, number + [rest[0]], rest[1..], d, sign);
      assert number + [rest[0]] + rest[1..] == number + rest;
    }
  }

  predicate IsTimeSentence(s: string, tokens: seq<Token>, tail: string) {
    TimeTokens(0, tokens) && NumberText(tail) && s == Render(tokens) + tail
  }

  /** The language of the time scanner: number-letter tokens whose letters are a strictly increasing
      selection of H, M, S, and then number characters that are read but ignored. */
  lemma TimeLanguage(s: string, sign: int)
    ensures TimeOf(s, sign).Ok? <==> exists tokens, tail :: IsTimeSentence(s, tokens, tail)
  {
    hide ScanTime, Render, TimeTokens, Tokens;
    if TimeOf(s, sign).Ok? {
      assert TIME_DESIGNATORS[0..] == TIME_DESIGNATORS;
      DottedStep("", ',');
      TimeAcceptsOnlySentences(0, "", s, NO_TIME, sign);
      assert "" + s == s;
      assert IsTimeSentence(s, Tokens("", s).0, Tokens("", s).1);
    }
    forall tokens, tail | IsTimeSentence(s, tokens, tail)
      ensures TimeOf(s, sign).Ok?
    {
      TimeMeaning(tokens, tail, sign);
    }
  }

  /** What the time scanner reads from a sentence. */
  lemma TimeMeaning(tokens: seq<Token>, tail: string, sign: int)
    requires TimeTokens(0, tokens) && NumberText(tail)
    ensures TimeOf(Render(tokens) + tail, sign) == Ok(ReadTime(tokens, sign, NO_TIME))
  {
    hide Render, TimeTokens, ReadTime;
    assert TIME_DESIGNATORS[0..] == TIME_DESIGNATORS;
    TimeReadsTokens(0, tokens, tail, NO_TIME, sign);
    TimeReadsNumber(tail, "", TIME_DESIGNATORS[NextPlace(0, tokens)..], "", ReadTime(tokens, sign, NO_TIME), sign);
    assert tail + "" == tail;
  }

  /** Which error ends the reading of a time, at the first character that cannot go on a sentence: one that
      is no letter, a letter the table does not have any more, or a letter after something that is no
      number. Otherwise the reading goes on with one token more. */
  lemma TimeErrors(tokens: seq<Token>, number: string, ch: char, rest: string, sign: int)
    requires TimeTokens(0, tokens) && NumberText(number) && !IsNumber(ch)
    ensures TimeOf(Render(tokens) + (number + ([ch] + rest)), sign) ==
            if !IsLetter(ch) then Err(UnknownToken)
            else if !(NextPlace(0, tokens) <= Rank(ch) < 3) then Err(IncorrectDesignator)
            else if !Numeric(Token(number, ch)) then Err(UnparseableValue)
            else ScanTime(rest, TIME_DESIGNATORS[Rank(ch) + 1..], "",
                          SetTime(ReadTime(tokens, sign, NO_TIME), TIME_DESIGNATORS[Rank(ch)].1,
                                  ValueOf(Token(number, ch)).Times(sign)), sign)
  {
    hide Render, TimeTokens, ReadTime, ParseDecimal, Consume;
    assert TIME_DESIGNATORS[0..] == TIME_DESIGNATORS;
    var place := NextPlace(0, tokens);
    var d := ReadTime(tokens, sign, NO_TIME);
    TimeReadsTokens(0, tokens, number + ([ch] + rest), NO_TIME, sign);
    TimeReadsNumber(number, [ch] + rest, TIME_DESIGNATORS[place..], "", d, sign);
    DottedStep(number, ',');
    assert ([ch] + rest)[1..] == rest;
    ConsumeTime(place, ch);
  }

  // ---------------------------------------------------------------------------------------------
  // The date scanner

  lemma ConsumeDate(letter: char)
    ensures Consume(DATE_DESIGNATORS, letter).1 ==
            match letter
            case 'Y' => Some(Years)
            case 'M' => Some(Months)
            case 'D' => Some(Days)
            case 'W' => Some(Weeks)
            case _ => None
  {
    ConsumeHead('Y', Years, [('M', Months), ('D', Days), ('W', Weeks)], letter);
    ConsumeHead('M', Months, [('D', Days), ('W', Weeks)], letter);
    ConsumeHead('D', Days, [('W', Weeks)], letter);
    ConsumeHead('W', Weeks, [], letter);
  }

  lemma ConsumeHead(key: char, field: Field, rest: Designators, letter: char)
    ensures Consume([(key, field)] + rest, letter)
            == if key == letter then (rest, Some(field)) else Consume(rest, letter)
  {
    assert ([(key, field)] + rest)[1..] == rest;
  }

  function FieldOf(letter: char): Field {
    match letter
    case 'Y' => Years
    case 'M' => Months
    case 'D' => Days
    case _ => Weeks
  }

  /** The table is rebuilt for every letter, so a token is read in any position. */
  lemma DateReadsToken(done: string, t: Token, after: string, d: DateDuration, sign: int,
                       arrow: string -> Option<Stamp>)
    requires Numeric(t) && t.letter in {'Y', 'M', 'D', 'W'}
    ensures ScanDate(done, t.number + ([t.letter] + after), "", d, sign, arrow)
            == ScanDate(done + (t.number + [t.letter]), after, "",
                        SetDate(d, FieldOf(t.letter), ValueOf(t).Times(sign)), sign, arrow)
  {
    hide ParseDecimal, Consume, AfterT;
    DateReadsNumber(done, t.number, [t.letter] + after, "", d, sign, arrow);
    DottedStep(t.number, ',');
    assert ([t.letter] + after)[1..] == after;
    assert done + t.number + [t.letter] == done + (t.number + [t.letter]);
    ConsumeDate(t.letter);
  }

  /** Reading tokens and loose number characters brings the scanner to the end of the text or its "T". */
  lemma {:induction false} DateReadsTokens(done: string, tokens: seq<Token>, tail: string, end: string,
                                           d: DateDuration, sign: int,
                                           arrow: string -> Option<Stamp>)
    requires DateTokens(tokens) && NumberText(tail)
    ensures ScanDate(done, Render(tokens) + (tail + end), "", d, sign, arrow)
            == ScanDate(done + (Render(tokens) + tail), end, Dotted(tail), ReadDate(tokens, sign, d), sign, arrow)
    decreases |tokens|
  {
    hide ParseDecimal, Consume, AfterT, ScanDate;
    if tokens == [] {
      DateReadsNumber(done, tail, end, "", d, sign, arrow);
      DottedStep(tail, ',');
      assert Render(tokens) + (tail + end) == tail + end && Render(tokens) + tail == tail;
    } else {
      var t := tokens[0];
      var rest := tokens[1..];
      assert tokens == [t] + rest;
      RenderHead(t, rest, tail + end);
      RenderHead(t, rest, tail);
      DateReadsToken(done, t, Render(rest) + (tail + end), d, sign, arrow);
      var next := SetDate(d, FieldOf(t.letter), ValueOf(t).Times(sign));
      DateReadsTokens(done + (t.number + [t.letter]), rest, tail, end, next, sign, arrow);
      assert done + (t.number + [t.letter]) + (Render(rest) + tail) == done + (Render(tokens) + tail);
    }
  }

  /** What the date scanner accepts begins with such tokens, and ends there or goes on with a "T". */
  lemma {:induction false} DateAcceptsOnlySentences(done: string, number: string, rest: string, d: DateDuration,
                                                    sign: int,
                                                    arrow: string -> Option<Stamp>)
    requires NumberText(number)
    requires ScanDate(done, rest, Dotted(number), d, sign, arrow).Ok?
    ensures var (tokens, tail, end) := Tokens(number, rest);
            && DateTokens(tokens) && NumberText(tail) && (end == "" || end[0] == 'T')
            && number + rest == Render(tokens) + (tail + end)
    decreases |rest|
  {
    hide ParseDecimal, Consume, SetDate, AfterT;
    if rest == "" || rest[0] == 'T' {
      assert number + rest == "" + (number + rest);
      return;
    }
    assert rest == [rest[0]] + rest[1..];
    if IsLetter(rest[0]) {
      ConsumeDate(rest[0]);
      DottedStep(number, ',');
      var t := Token(number, rest[0]);
      var value := ParseDecimal(Dotted(number)).value;
      var next := SetDate(d, FieldOf(rest[0]), value.Times(sign));
      DateAcceptsOnlySentences(done + [rest[0]], "", rest[1..], next, sign, arrow);
      var (tokens, tail, end) := Tokens("", rest[1..]);
      assert "" + rest[1..] == rest[1..];
      assert ([t] + tokens)[1..] == tokens;
      RenderHead(t, tokens, tail + end);
    } else {
      DottedStep(number, rest[0]);
      DateAcceptsOnlySentences(done + [rest[0]], number + [rest[0]], rest[1..], d, sign, arrow);
      assert number + [rest[0]] + rest[1..] == number + rest;
    }
  }

  predicate IsDateSentence(s: string, tokens: seq<Token>, tail: string, end: string) {
    DateTokens(tokens) && NumberText(tail) && (end == "" || end[0] == 'T') && s == Render(tokens) + (tail + end)
  }

  /** A "T" after a single number without a comma, and nothing else, announces a date-time. */
  predicate IsDateTime(tokens: seq<Token>, tail: string, end: string) {
    end != "" && tokens == [] && tail != "" && Dotted(tail) == tail
  }

  /** What the date scanner reads from a sentence: a fold over the tokens in which the last value of
      each designator wins; loose number characters do not matter unless they make a date-time. */
  lemma DateMeaning(s: string, tokens: seq<Token>, tail: string, end: string, sign: int, arrow: string -> Option<Stamp>)
    requires IsDateSentence(s, tokens, tail, end)
    ensures DateOf(s, sign, arrow) ==
            if end == "" then Ok(Duration(ReadDate(tokens, sign, NO_DATE), NO_TIME))
            else if IsDateTime(tokens, tail, end) then StampOf(s, sign, arrow)
            else if end == "T" then Err(NoTime)
            else match TimeOf(end[1..], sign)
                 case Ok(t) => Ok(Duration(ReadDate(tokens, sign, NO_DATE), t))
                 case Err(error) => Err(error)
  {
    hide DateTokens, ReadDate, StampOf, TimeOf;
    DateReadsTokens("", tokens, tail, end, NO_DATE, sign, arrow);
    var done := Render(tokens) + tail;
    assert "" + done == done;
    if end != "" {
      assert Dotted(tail) == done <==> tokens == [] && Dotted(tail) == tail by {
        if tokens == [] { assert done == tail; }
      }
      assert end == "T" + end[1..];
      assert done + "T" + end[1..] == s;
    }
  }

  predicate EndsWell(s: string, tokens: seq<Token>, tail: string, end: string, sign: int,
                     arrow: string -> Option<Stamp>) {
    if end == "" then true
    else if IsDateTime(tokens, tail, end) then arrow(s).Some?
    else end != "T" && TimeOf(end[1..], sign).Ok?
  }

  /** The language of the date scanner. */
  lemma DateLanguage(s: string, sign: int, arrow: string -> Option<Stamp>)
    ensures DateOf(s, sign, arrow).Ok? <==>
            exists tokens, tail, end :: IsDateSentence(s, tokens, tail, end)
                && EndsWell(s, tokens, tail, end, sign, arrow)
  {
    hide ScanDate, Render, DateTokens, TimeOf, ReadDate, Tokens;
    if DateOf(s, sign, arrow).Ok? {
      DottedStep("", ',');
      DateAcceptsOnlySentences("", "", s, NO_DATE, sign, arrow);
      assert "" + s == s;
      var (tokens, tail, end) := Tokens("", s);
      DateMeaning(s, tokens, tail, end, sign, arrow);
      assert IsDateSentence(s, tokens, tail, end) && EndsWell(s, tokens, tail, end, sign, arrow);
    }
    forall tokens, tail, end | IsDateSentence(s, tokens, tail, end) && EndsWell(s, tokens, tail, end, sign, arrow)
      ensures DateOf(s, sign, arrow).Ok?
    {
      DateMeaning(s, tokens, tail, end, sign, arrow);
    }
  }

  /** Which error ends the reading of a date, at the first character that cannot go on a sentence. */
  lemma DateErrors(tokens: seq<Token>, number: string, ch: char, rest: string, sign: int,
                   arrow: string -> Option<Stamp>)
    requires DateTokens(tokens) && NumberText(number) && !IsNumber(ch) && ch != 'T'
    requires !IsLetter(ch) || ch !in {'Y', 'M', 'D', 'W'} || !Numeric(Token(number, ch))
    ensures DateOf(Render(tokens) + (number + ([ch] + rest)), sign, arrow) ==
            if !IsLetter(ch) then Err(UnknownToken)
            else if ch !in {'Y', 'M', 'D', 'W'} then Err(IncorrectDesignator)
            else Err(UnparseableValue)
  {
    hide Render, DateTokens, ReadDate, ParseDecimal, Consume, AfterT;
    DateReadsTokens("", tokens, number, [ch] + rest, NO_DATE, sign, arrow);
    ConsumeDate(ch);
  }
}
