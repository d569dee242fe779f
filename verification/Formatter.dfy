/** isoduration/formatter: writing a duration, with one leading sign when nothing in it is positive. */
module Formatter {
  import opened Decimals
  import opened Durations
  import opened Grammar

  // ---------------------------------------------------------------------------------------------
  // checking.py

  function CheckGlobalSign(d: Duration): int {
    var isDateZero := d.date.years.coef == 0 && d.date.months.coef == 0 && d.date.days.coef == 0
        && d.date.weeks.coef == 0;
    var isTimeZero := d.time.hours.coef == 0 && d.time.minutes.coef == 0 && d.time.seconds.coef == 0;
    var isDateNegative := d.date.years.coef <= 0 && d.date.months.coef <= 0 && d.date.days.coef <= 0
        && d.date.weeks.coef <= 0;
    var isTimeNegative := d.time.hours.coef <= 0 && d.time.minutes.coef <= 0 && d.time.seconds.coef <= 0;
    if !isDateZero && !isTimeZero then (if isDateNegative && isTimeNegative then -1 else 1)
    else if !isDateZero then (if isDateNegative then -1 else 1)
    else if !isTimeZero then (if isTimeNegative then -1 else 1)
    else 1
  }

  /** The sign is taken out exactly when some component is negative and none is positive. */
  lemma GlobalSign(d: Duration)
    ensures CheckGlobalSign(d) == -1 <==>
            && (exists i :: 0 <= i < 7 && d.Components()[i].coef < 0)
            && (forall i :: 0 <= i < 7 ==> d.Components()[i].coef <= 0)
    ensures CheckGlobalSign(d) in {-1, 1}
  {
    var c := d.Components();
    if forall i :: 0 <= i < 7 ==> c[i].coef <= 0 {
      assert c[0].coef <= 0 && c[1].coef <= 0 && c[2].coef <= 0 && c[3].coef <= 0;
      assert c[4].coef <= 0 && c[5].coef <= 0 && c[6].coef <= 0;
      if CheckGlobalSign(d) == -1 {
        assert exists i :: 0 <= i < 7 && c[i].coef < 0 by {
          assert c[0].coef < 0 || c[1].coef < 0 || c[2].coef < 0 || c[3].coef < 0
                 || c[4].coef < 0 || c[5].coef < 0 || c[6].coef < 0;
        }
      }
    } else {
      var i :| 0 <= i < 7 && c[i].coef > 0;
      assert i == 0 || i == 1 || i == 2 || i == 3 || i == 4 || i == 5 || i == 6;
    }
  }

  predicate MixesWeeks(d: DateDuration) {
    d.weeks.coef != 0 && (d.years.coef != 0 || d.months.coef != 0 || d.days.coef != 0)
  }

  // ---------------------------------------------------------------------------------------------
  // The tokens a duration is written as: its non-zero components, weeks first

  function Piece(value: Dec, sign: int, letter: char): seq<Token> {
    if value.coef == 0 then [] else [Token(FormatG(value.Times(sign)), letter)]
  }

  function DatePieces(d: DateDuration, sign: int): seq<Token> {
    Piece(d.weeks, sign, 'W') + Piece(d.years, sign, 'Y') + Piece(d.months, sign, 'M') + Piece(d.days, sign, 'D')
  }

  function TimePieces(d: TimeDuration, sign: int): seq<Token> {
    Piece(d.hours, sign, 'H') + Piece(d.minutes, sign, 'M') + Piece(d.seconds, sign, 'S')
  }

  function TimeText(d: TimeDuration, sign: int): string {
    if TimePieces(d, sign) == [] then "" else "T" + Render(TimePieces(d, sign))
  }

  function Format(d: Duration): Result<string> {
    var sign := CheckGlobalSign(d);
    if MixesWeeks(d.date) then Err(WeeksMixed)
    else
      var body := "P" + Render(DatePieces(d.date, sign)) + TimeText(d.time, sign);
      if body == "P" then Ok("P0D") else Ok((if sign < 0 then "-" else "") + body)
  }

  lemma {:induction false} RenderAppend(a: seq<Token>, b: seq<Token>)
    ensures Render(a + b) == Render(a) + Render(b)
    decreases |a|
  {
    if a == [] {
      assert a + b == b;
    } else {
      assert (a + b)[1..] == a[1..] + b;
      RenderAppend(a[1..], b);
    }
  }

  lemma RenderPiece(value: Dec, sign: int, letter: char)
    ensures Render(Piece(value, sign, letter)) == if value.coef == 0 then "" else FormatG(value.Times(sign)) + [letter]
  {
  }

  /** Weeks stand alone: exactly the dates that mix them with another component are refused. */
  lemma WeeksAlone(d: Duration)
    ensures Format(d) == Err(WeeksMixed) <==>
            d.date.weeks.coef != 0 && (d.date.years.coef != 0 || d.date.months.coef != 0 || d.date.days.coef != 0)
    ensures Format(d).Err? ==> Format(d) == Err(WeeksMixed)
  {
    hide CheckGlobalSign, DatePieces, TimeText;
  }

  /** How one component is written under the common sign; a zero is not written. */
  function Written(value: Dec, sign: int, letter: string): string {
    if value.coef == 0 then "" else FormatG(value.Times(sign)) + letter
  }

  /** What is written: a minus sign exactly if some component is negative and none is positive, then P, weeks,
      years, months and days, and, if there is a time, T, hours, minutes and seconds; and P0D for zero. */
  lemma FormatMeaning(d: Duration)
    requires !MixesWeeks(d.date)
    ensures var negative := (exists i :: 0 <= i < 7 && d.Components()[i].coef < 0)
                            && (forall i :: 0 <= i < 7 ==> d.Components()[i].coef <= 0);
            var sign := if negative then -1 else 1;
            var date := Written(d.date.weeks, sign, "W") + Written(d.date.years, sign, "Y")
                        + Written(d.date.months, sign, "M") + Written(d.date.days, sign, "D");
            var time := Written(d.time.hours, sign, "H") + Written(d.time.minutes, sign, "M")
                        + Written(d.time.seconds, sign, "S");
            Format(d) == Ok(if date + time == "" then "P0D"
                            else (if negative then "-P" else "P") + date + (if time == "" then "" else "T" + time))
  {
    hide CheckGlobalSign, Render, Written, FormatG, Piece;
    GlobalSign(d);
    var sign := CheckGlobalSign(d);
    DateRendered(d.date, sign);
    TimeRendered(d.time, sign);
    var date := Written(d.date.weeks, sign, "W") + Written(d.date.years, sign, "Y")
                + Written(d.date.months, sign, "M") + Written(d.date.days, sign, "D");
    var time := Written(d.time.hours, sign, "H") + Written(d.time.minutes, sign, "M")
                + Written(d.time.seconds, sign, "S");
    assert "P" + date + "" == "P" + date;
    assert "-" + ("P" + date + TimeText(d.time, sign)) == "-P" + date + TimeText(d.time, sign);
    assert "" + ("P" + date + TimeText(d.time, sign)) == "P" + date + TimeText(d.time, sign);
    assert |"P" + date + TimeText(d.time, sign)| == 1 + |date| + |TimeText(d.time, sign)|;
  }

  lemma WrittenPiece(value: Dec, sign: int, letter: char)
    ensures Render(Piece(value, sign, letter)) == Written(value, sign, [letter])
  {
    hide FormatG;
    RenderPiece(value, sign, letter);
  }

  lemma DateRendered(d: DateDuration, sign: int)
    ensures Render(DatePieces(d, sign)) ==
            Written(d.weeks, sign, "W") + Written(d.years, sign, "Y") + Written(d.months, sign, "M")
            + Written(d.days, sign, "D")
  {
    hide Piece, Render, Written;
    var (w, y) := (Piece(d.weeks, sign, 'W'), Piece(d.years, sign, 'Y'));
    var (m, n) := (Piece(d.months, sign, 'M'), Piece(d.days, sign, 'D'));
    RenderAppend(w + y + m, n);
    RenderAppend(w + y, m);
    RenderAppend(w, y);
    WrittenPiece(d.weeks, sign, 'W');
    WrittenPiece(d.years, sign, 'Y');
    WrittenPiece(d.months, sign, 'M');
    WrittenPiece(d.days, sign, 'D');
  }

  lemma TimeRendered(d: TimeDuration, sign: int)
    ensures var time := Written(d.hours, sign, "H") + Written(d.minutes, sign, "M") + Written(d.seconds, sign, "S");
            TimeText(d, sign) == if time == "" then "" else "T" + time
  {
    hide Piece, Render, Written;
    var (h, m, s) := (Piece(d.hours, sign, 'H'), Piece(d.minutes, sign, 'M'), Piece(d.seconds, sign, 'S'));
    RenderAppend(h + m, s);
    RenderAppend(h, m);
    WrittenPiece(d.hours, sign, 'H');
    WrittenPiece(d.minutes, sign, 'M');
    WrittenPiece(d.seconds, sign, 'S');
    RenderEmpty(TimePieces(d, sign));
  }

  lemma RenderEmpty(tokens: seq<Token>)
    ensures Render(tokens) == "" <==> tokens == []
  {
  }

  // ---------------------------------------------------------------------------------------------
  // formatting.py and formatter/__init__.py

  method FormatDate(d: DateDuration, globalSign: int) returns (r: Result<string>)
    ensures r == if MixesWeeks(d) then Err(WeeksMixed) else Ok("P" + Render(DatePieces(d, globalSign)))
  {
    hide FormatG;
    if MixesWeeks(d) {
      return Err(WeeksMixed);
    }
    var text := "P";
    if d.weeks.coef != 0 {
      text := text + FormatG(d.weeks.Times(globalSign)) + "W";
    }
    RenderPiece(d.weeks, globalSign, 'W');
    ghost var pieces := Piece(d.weeks, globalSign, 'W');
    assert text == "P" + Render(pieces);
    text := AppendPiece(text, pieces, d.years, globalSign, 'Y');
    pieces := pieces + Piece(d.years, globalSign, 'Y');
    text := AppendPiece(text, pieces, d.months, globalSign, 'M');
    pieces := pieces + Piece(d.months, globalSign, 'M');
    text := AppendPiece(text, pieces, d.days, globalSign, 'D');
    return Ok(text);
  }

  /** One conditional `+=`. */
  method AppendPiece(text: string, ghost pieces: seq<Token>, value: Dec, sign: int, letter: char) returns (r: string)
    requires text != "" && text == [text[0]] + Render(pieces)
    ensures r == [text[0]] + Render(pieces + Piece(value, sign, letter))
  {
    hide FormatG;
    r := text;
    if value.coef != 0 {
      r := r + (FormatG(value.Times(sign)) + [letter]);
    }
    RenderPiece(value, sign, letter);
    RenderAppend(pieces, Piece(value, sign, letter));
  }

  method FormatTime(d: TimeDuration, globalSign: int) returns (text: string)
    ensures text == TimeText(d, globalSign)
  {
    text := "T";
    text := AppendPiece(text, [], d.hours, globalSign, 'H');
    ghost var pieces := [] + Piece(d.hours, globalSign, 'H');
    assert pieces == Piece(d.hours, globalSign, 'H');
    text := AppendPiece(text, pieces, d.minutes, globalSign, 'M');
    pieces := pieces + Piece(d.minutes, globalSign, 'M');
    text := AppendPiece(text, pieces, d.seconds, globalSign, 'S');
    if text == "T" {
      return "";
    }
  }

  method FormatDuration(d: Duration) returns (r: Result<string>)
    ensures r == Format(d)
  {
    var globalSign := CheckGlobalSign(d);
    var date := FormatDate(d.date, globalSign);
    if date.Err? {
      return date;
    }
    var time := FormatTime(d.time, globalSign);
    var durationStr := date.value + time;
    var signStr := if globalSign < 0 then "-" else "";
    if durationStr == "P" {
      return Ok("P0D");
    }
    return Ok(signStr + durationStr);
  }
}
