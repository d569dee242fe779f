/** isoduration/parser: the two character scanners, the designator tables and the entry point. */
module Parser {
  import opened Decimals
  import opened Wrappers
  import opened Durations

  // ---------------------------------------------------------------------------------------------
  // util.py

  predicate IsNumber(ch: char) {
    IsDigit(ch) || ch == '+' || ch == '-' || ch == '.' || ch == ',' || ch == 'e' || ch == 'E'
  }

  predicate IsLetter(ch: char) {
    (('a' <= ch <= 'z') || ('A' <= ch <= 'Z')) && ch != 'e' && ch != 'E'
  }

  datatype Field = Years | Months | Days | Weeks | Hours | Minutes | Seconds

  type Designators = seq<(char, Field)>

  const DATE_DESIGNATORS: Designators := [('Y', Years), ('M', Months), ('D', Days), ('W', Weeks)]
  const TIME_DESIGNATORS: Designators := [('H', Hours), ('M', Minutes), ('S', Seconds)]

  /** The designators left, and the field found, once everything up to `target` is used up. */
  function Consume(designators: Designators, target: char): (Designators, Option<Field>) {
    if designators == [] then ([], None)
    else if designators[0].0 == target then (designators[1..], Some(designators[0].1))
    else Consume(designators[1..], target)
  }

  /** The ordered dictionary that parse_designator empties from the front. */
  class DesignatorTable {
    var entries: Designators

    constructor (entries: Designators)
      ensures this.entries == entries
    {
      this.entries := entries;
    }

    method ParseDesignator(target: char) returns (field: Option<Field>)
      modifies this
      ensures (entries, field) == Consume(old(entries), target)
    {
      while true
        invariant Consume(entries, target) == Consume(old(entries), target)
        decreases |entries|
      {
        if entries == [] {
          return None;
        }
        var (key, value) := entries[0];
        entries := entries[1..];
        if key == target {
          return Some(value);
        }
      }
    }
  }

  // ---------------------------------------------------------------------------------------------
  // The scanners as functions of what is left to read

  function PointForComma(ch: char): char {
    if ch == ',' then '.' else ch
  }

  function SetTime(d: TimeDuration, field: Field, value: Dec): TimeDuration {
    match field
    case Hours => d.(hours := value)
    case Minutes => d.(minutes := value)
    case Seconds => d.(seconds := value)
    case _ => d
  }

  function SetDate(d: DateDuration, field: Field, value: Dec): DateDuration {
    match field
    case Years => d.(years := value)
    case Months => d.(months := value)
    case Days => d.(days := value)
    case Weeks => d.(weeks := value)
    case _ => d
  }

  function ScanTime(rest: string, table: Designators, number: string, duration: TimeDuration,
                    sign: int): Result<TimeDuration>
    decreases |rest|
  {
    if rest == "" then Ok(duration)
    else if IsLetter(rest[0]) then
      var (left, field) := Consume(table, rest[0]);
      if field.None? then Err(IncorrectDesignator)
      else
        match ParseDecimal(number)
        case None => Err(UnparseableValue)
        case Some(d) => ScanTime(rest[1..], left, "", SetTime(duration, field.value, d.Times(sign)), sign)
    else if IsNumber(rest[0]) then
      ScanTime(rest[1..], table, number + [PointForComma(rest[0])], duration, sign)
    else Err(UnknownToken)
  }

  function TimeOf(s: string, sign: int): Result<TimeDuration> {
    ScanTime(s, TIME_DESIGNATORS, "", NO_TIME, sign)
  }

  /** What the external date-time parser makes of a string, if anything. */
  datatype Stamp = Stamp(year: int, month: int, day: int, hour: int, minute: int, second: int)

  function StampOf(s: string, sign: int, arrow: string -> Option<Stamp>): Result<Duration> {
    match arrow(s)
    case None => Err(UnparseableValue)
    case Some(t) =>
      Ok(Duration(DateDuration(Dec(t.year, 0).Times(sign), Dec(t.month, 0).Times(sign), Dec(t.day, 0).Times(sign),
                               ZERO),
                  TimeDuration(Dec(t.hour, 0).Times(sign), Dec(t.minute, 0).Times(sign), Dec(t.second, 0).Times(sign))))
  }

  /** What follows a "T": a date-time if all there was before it is one number, else a time. */
  function AfterT(done: string, number: string, time: string, date: DateDuration, sign: int,
                  arrow: string -> Option<Stamp>)
    : Result<Duration>
  {
    if number != "" && number == done then StampOf(done + "T" + time, sign, arrow)
    else if time == "" then Err(NoTime)
    else
      match TimeOf(time, sign)
      case Ok(t) => Ok(Duration(date, t))
      case Err(error) => Err(error)
  }

  function ScanDate(done: string, rest: string, number: string, duration: DateDuration, sign: int,
                    arrow: string -> Option<Stamp>)
    : Result<Duration>
    decreases |rest|
  {
    if rest == "" then Ok(Duration(duration, NO_TIME))
    else
      var ch := rest[0];
      if ch == 'T' then AfterT(done, number, rest[1..], duration, sign, arrow)
      else if IsLetter(ch) then
        var (_, field) := Consume(DATE_DESIGNATORS, ch);
        if field.None? then Err(IncorrectDesignator)
        else
          match ParseDecimal(number)
          case None => Err(UnparseableValue)
          case Some(d) =>
            ScanDate(done + [ch], rest[1..], "", SetDate(duration, field.value, d.Times(sign)), sign, arrow)
      else if IsNumber(ch) then
        ScanDate(done + [ch], rest[1..], number + [PointForComma(ch)], duration, sign, arrow)
      else Err(UnknownToken)
  }

  function DateOf(s: string, sign: int, arrow: string -> Option<Stamp>): Result<Duration> {
    ScanDate("", s, "", NO_DATE, sign, arrow)
  }

  /** A fractional component is the lowest one that is not zero. */
  ghost predicate FractionalOk(d: Duration) {
    forall i, j :: 0 <= i < j < 7 && !d.Components()[j].IsZero() ==> d.Components()[i].IsInteger()
  }

  ghost function Validated(r: Result<Duration>): Result<Duration> {
    if r.Ok? && !FractionalOk(r.value) then Err(InvalidFractional) else r
  }

  ghost function Parse(s: string, arrow: string -> Option<Stamp>): Result<Duration> {
    if |s| < 2 then Err(EmptyDuration)
    else
      var (sign, body) := SplitSign(s);
      if body[0] != 'P' then Err(EmptyDuration)
      else Validated(DateOf(body[1..], sign, arrow))
  }

  // ---------------------------------------------------------------------------------------------
  // parsing.py, validation.py and parser/__init__.py

  method ParseTimeDuration(timeStr: string, sign: int) returns (r: Result<TimeDuration>)
    ensures r == TimeOf(timeStr, sign)
  {
    var designators := new DesignatorTable(TIME_DESIGNATORS);
    var duration := NO_TIME;
    var tmpValue := "";
    for i := 0 to |timeStr|
      invariant ScanTime(timeStr[i..], designators.entries, tmpValue, duration, sign) == TimeOf(timeStr, sign)
    {
      var ch := timeStr[i];
      assert timeStr[i..][1..] == timeStr[i + 1..];
      if IsLetter(ch) {
        var key := designators.ParseDesignator(ch);
        if key.None? {
          return Err(IncorrectDesignator);
        }
        var value := ParseDecimal(tmpValue);
        if value.None? {
          return Err(UnparseableValue);
        }
        duration := SetTime(duration, key.value, value.value.Times(sign));
        tmpValue := "";
      } else if IsNumber(ch) {
        tmpValue := tmpValue + [PointForComma(ch)];
      } else {
        return Err(UnknownToken);
      }
    }
    return Ok(duration);
  }

  method ParseDateDuration(dateStr: string, sign: int, arrow: string -> Option<Stamp>) returns (r: Result<Duration>)
    ensures r == DateOf(dateStr, sign, arrow)
  {
    var duration := NO_DATE;
    var tmpValue := "";
    for idx := 0 to |dateStr|
      invariant ScanDate(dateStr[..idx], dateStr[idx..], tmpValue, duration, sign, arrow)
                == DateOf(dateStr, sign, arrow)
    {
      var ch := dateStr[idx];
      assert dateStr[idx..][1..] == dateStr[idx + 1..];
      assert dateStr[..idx] + [ch] == dateStr[..idx + 1];
      if ch == 'T' {
        assert dateStr[..idx] + "T" + dateStr[idx + 1..] == dateStr;
        if tmpValue != "" && tmpValue == dateStr[..idx] {
          return StampOf(dateStr, sign, arrow);
        }
        var timeStr := dateStr[idx + 1..];
        if timeStr == "" {
          return Err(NoTime);
        }
        var time := ParseTimeDuration(timeStr, sign);
        if time.Err? {
          return Err(time.error);
        }
        return Ok(Duration(duration, time.value));
      } else if IsLetter(ch) {
        var designators := new DesignatorTable(DATE_DESIGNATORS);
        var key := designators.ParseDesignator(ch);
        if key.None? {
          return Err(IncorrectDesignator);
        }
        var value := ParseDecimal(tmpValue);
        if value.None? {
          return Err(UnparseableValue);
        }
        duration := SetDate(duration, key.value, value.value.Times(sign));
        tmpValue := "";
      } else if IsNumber(ch) {
        tmpValue := tmpValue + [PointForComma(ch)];
      } else {
        return Err(UnknownToken);
      }
    }
    return Ok(Duration(duration, NO_TIME));
  }

  /** The loop over the components from the lowest up accepts exactly the durations whose components
      above the lowest non-zero one are integers. */
  method ValidateFractional(d: Duration) returns (valid: bool)
    ensures valid <==> FractionalOk(d)
  {
    var components := d.Components();
    var fractionalAllowed := true;
    var i := 7;
    while i > 0
      invariant 0 <= i <= 7
      invariant fractionalAllowed <==> forall j :: i <= j < 7 ==> components[j].IsZero()
      invariant forall k, j :: i <= k < j < 7 && !components[j].IsZero() ==> components[k].IsInteger()
    {
      i := i - 1;
      if fractionalAllowed {
        if !components[i].IsZero() {
          fractionalAllowed := false;
        }
      } else if !components[i].IsInteger() {
        return false;
      }
    }
    return true;
  }

  method ParseDuration(durationStr: string, arrow: string -> Option<Stamp>) returns (r: Result<Duration>)
    ensures r == Parse(durationStr, arrow)
  {
    if |durationStr| < 2 {
      return Err(EmptyDuration);
    }
    var beginning := 1;
    var first := durationStr[beginning - 1];
    var sign := 1;
    if first == '+' {
      beginning := beginning + 1;
    }
    if first == '-' {
      sign := -1;
      beginning := beginning + 1;
    }
    var prefix := durationStr[beginning - 1];
    var duration := durationStr[beginning..];
    assert SplitSign(durationStr) == (sign, durationStr[beginning - 1..]);
    assert durationStr[beginning - 1..][1..] == duration;
    if prefix != 'P' {
      return Err(EmptyDuration);
    }
    r := ParseDateDuration(duration, sign, arrow);
    if r.Ok? {
      var valid := ValidateFractional(r.value);
      if !valid {
        r := Err(InvalidFractional);
      }
    }
  }
}
