/** operations/__init__.py: adding a duration of whole components to a date and time. */
module Addition {
  import opened Calendar

  const DAY: int := 86_400_000_000

  datatype DateTime = DateTime(year: int, month: int, day: int, hour: int, minute: int, second: int, microsecond: int)
  {
    function DateOf(): Date {
      Date(year, month, day)
    }

    predicate Valid() {
      && ValidDate(DateOf())
      && 0 <= hour < 24 && 0 <= minute < 60 && 0 <= second < 60 && 0 <= microsecond < 1_000_000
    }

    /** Microseconds since midnight. */
    function Clock(): int {
      ((hour * 60 + minute) * 60 + second) * 1_000_000 + microsecond
    }

    /** Microseconds on one unbroken axis. */
    function Instant(): int
      requires 1 <= month <= 12
    {
      DayNumber(DateOf()) * DAY + Clock()
    }
  }

  /** A duration with whole components; the seconds are counted in whole microseconds. */
  datatype Span = Span(years: int, months: int, weeks: int, days: int, hours: int, minutes: int, micros: int)
  {
    function Negate(): Span {
      Span(-years, -months, -weeks, -days, -hours, -minutes, -micros)
    }

    function MonthCount(): int {
      12 * years + months
    }

    /** Everything but the years and months, in microseconds. */
    function Elapsed(): int {
      (days + 7 * weeks) * DAY + (hours * 60 + minutes) * 60_000_000 + micros
    }
  }

  // ---------------------------------------------------------------------------------------------
  // The sum, on the reference calendar: shift by months and clamp the day, then move by the elapsed
  // microseconds in one division.

  function Distance(index: int, day: int): nat {
    if day < 1 then 1 - day
    else if day > MonthLength(index) then day
    else 0
  }

  /** The date that lies `day` days into month `index`, counting on across months either way. */
  function Normalize(index: int, day: int): (date: Date)
    ensures ValidDate(date)
    decreases Distance(index, day)
  {
    if day < 1 then Normalize(index - 1, day + MonthLength(index - 1))
    else if day > MonthLength(index) then Normalize(index + 1, day - MonthLength(index))
    else Date(index / 12, index % 12 + 1, day)
  }

  /** The position on the day axis never moves, and the month only ever moves in one direction. */
  lemma {:induction false} NormalizePosition(index: int, day: int)
    ensures var date := Normalize(index, day);
            && DayNumber(date) == MonthStart(index) + day
            && (day < 1 ==> MonthIndex(date.year, date.month) < index)
            && (1 <= day <= MonthLength(index) ==> MonthIndex(date.year, date.month) == index && date.day == day)
            && (day > MonthLength(index) ==> MonthIndex(date.year, date.month) > index)
    decreases Distance(index, day)
  {
    hide MonthStart, MonthLength, DaysBefore, DaysIn;
    if day < 1 {
      MonthStartStep(index - 1);
      NormalizePosition(index - 1, day + MonthLength(index - 1));
    } else if day > MonthLength(index) {
      MonthStartStep(index);
      NormalizePosition(index + 1, day - MonthLength(index));
    } else {
      MonthIndexInverse(index / 12, index % 12 + 1);
    }
  }

  function Min(a: int, b: int): int {
    if a < b then a else b
  }

  /** Moves a date by whole months; a day the target month does not have becomes its last day. */
  function Shift(date: Date, months: int): (shifted: Date)
    requires ValidDate(date)
    ensures ValidDate(shifted)
    ensures MonthIndex(shifted.year, shifted.month) == MonthIndex(date.year, date.month) + months
    ensures shifted.day == Min(date.day, DaysIn(shifted.year, shifted.month))
  {
    hide DaysIn;
    var index := MonthIndex(date.year, date.month) + months;
    Date(index / 12, index % 12 + 1, Min(date.day, MonthLength(index)))
  }

  function AtClock(date: Date, clock: int): (t: DateTime)
    requires ValidDate(date) && 0 <= clock < DAY
    ensures t.Valid() && t.DateOf() == date && t.Clock() == clock
  {
    var seconds := clock / 1_000_000;
    var minutes := seconds / 60;
    DateTime(date.year, date.month, date.day, minutes / 60, minutes % 60, seconds % 60, clock % 1_000_000)
  }

  function Sum(start: DateTime, span: Span): (t: DateTime)
    requires start.Valid()
    ensures t.Valid()
    ensures t.Instant() == AtClock(Shift(start.DateOf(), span.MonthCount()), start.Clock()).Instant() + span.Elapsed()
  {
    hide DaysIn, DaysBefore;
    var shifted := Shift(start.DateOf(), span.MonthCount());
    var clock := start.Clock() + (span.hours * 60 + span.minutes) * 60_000_000 + span.micros;
    var index := MonthIndex(shifted.year, shifted.month);
    MonthIndexInverse(shifted.year, shifted.month);
    NormalizePosition(index, shifted.day + span.days + 7 * span.weeks + clock / DAY);
    AtClock(Normalize(index, shifted.day + span.days + 7 * span.weeks + clock / DAY), clock % DAY)
  }

  // ---------------------------------------------------------------------------------------------
  // The algorithm

  function TowardZero(n: int, d: int): int
    requires d > 0
  {
    if n >= 0 then n / d else -(-n / d)
  }

  /** What is left has the sign of the dividend. */
  lemma CutsTowardZero(n: int, d: int)
    requires d > 0
    ensures var left := n - TowardZero(n, d) * d; -d < left < d && (n >= 0 ==> left >= 0) && (n <= 0 ==> left <= 0)
  {
    if n < 0 {
      assert -n == d * (-n / d) + -n % d;
    } else {
      assert n == d * (n / d) + n % d;
    }
  }

  /** The day-carry loop: it ends for every whole day count, of either sign and any size. */
  method CarryDays(year: int, month: int, day: int) returns (endYear: int, endMonth: int, endDay: int)
    requires 1 <= month <= 12
    ensures Date(endYear, endMonth, endDay) == Normalize(MonthIndex(year, month), day)
  {
    hide MaxDayInMonth, Mod3, Quot3, MonthLength, MonthStart, DayNumber;
    endYear, endMonth, endDay := year, month, day;
    while true
      invariant 1 <= endMonth <= 12
      invariant Normalize(MonthIndex(endYear, endMonth), endDay) == Normalize(MonthIndex(year, month), day)
      decreases Distance(MonthIndex(endYear, endMonth), endDay)
    {
      var carry;
      if endDay < 1 {
        MaxDayIsMonthLength(endYear, endMonth - 1);
        endDay := endDay + MaxDayInMonth(endYear, endMonth - 1);
        carry := -1;
      } else {
        MaxDayIsMonthLength(endYear, endMonth);
        if endDay > MaxDayInMonth(endYear, endMonth) {
          endDay := endDay - MaxDayInMonth(endYear, endMonth);
          carry := 1;
        } else {
          break;
        }
      }
      var temp := endMonth + carry;
      MonthSplit(endYear, temp);
      endMonth := Mod3(temp, 1, 13);
      endYear := endYear + Quot3(temp, 1, 13);
    }
    MonthIndexInverse(endYear, endMonth);
    NormalizePosition(MonthIndex(endYear, endMonth), endDay);
    ghost var date := Normalize(MonthIndex(year, month), day);
    MonthIndexInverse(date.year, date.month);
  }

  /** The four-link carry chain and the day-carry loop compute the sum. */
  method Add(start: DateTime, duration: Span) returns (end: DateTime)
    requires start.Valid()
    ensures end == Sum(start, duration)
  {
    hide Mod2, Quot2, Mod3, Quot3, MaxDayInMonth, DayNumber, TowardZero, Shift, Sum, AtClock, DaysIn, Normalize;
    // Months and years.
    var temp := start.month + duration.months;
    var endMonth := Mod3(temp, 1, 13);
    var carry := Quot3(temp, 1, 13);
    var endYear := start.year + duration.years + carry;

    // Microseconds: the whole seconds are split off toward zero first.
    var seconds := TowardZero(duration.micros, 1_000_000);
    var microseconds := duration.micros - seconds * 1_000_000;
    temp := start.microsecond + microseconds;
    var endMicrosecond := Mod2(temp, 1_000_000);
    carry := Quot2(temp, 1_000_000);
    Split2(temp, 1_000_000);

    // Seconds, minutes, hours.
    temp := start.second + seconds + carry;
    var endSecond := Mod2(temp, 60);
    carry := Quot2(temp, 60);
    Split2(temp, 60);
    temp := start.minute + duration.minutes + carry;
    var endMinute := Mod2(temp, 60);
    carry := Quot2(temp, 60);
    Split2(temp, 60);
    temp := start.hour + duration.hours + carry;
    var endHour := Mod2(temp, 24);
    carry := Quot2(temp, 24);
    Split2(temp, 24);

    // Days.
    var maxDay := MaxDayInMonth(endYear, endMonth);
    if start.day > maxDay {
      temp := maxDay;
    } else {
      temp := start.day;
    }
    ShiftedMonth(start.DateOf(), duration.years, duration.months);
    var endDay := temp + duration.days + 7 * duration.weeks + carry;
    SumFromParts(start, duration, endYear, endMonth, temp, carry, endHour, endMinute, endSecond, endMicrosecond);
    endYear, endMonth, endDay := CarryDays(endYear, endMonth, endDay);
    end := DateTime(endYear, endMonth, endDay, endHour, endMinute, endSecond, endMicrosecond);
  }

  lemma ShiftedMonth(date: Date, years: int, months: int)
    requires ValidDate(date)
    ensures var temp := date.month + months;
            var (year, month) := (date.year + years + Quot3(temp, 1, 13), Mod3(temp, 1, 13));
            && 1 <= month <= 12
            && Shift(date, 12 * years + months) == Date(year, month, Min(date.day, MaxDayInMonth(year, month)))
  {
    hide MaxDayInMonth, DaysIn, Mod3, Quot3, Shift, MonthLength;
    var (year, month) := (date.year + years + Quot3(date.month + months, 1, 13), Mod3(date.month + months, 1, 13));
    MonthSplit(date.year + years, date.month + months);
    MaxDayIsMonthLength(year, month);
    MonthIndexInverse(year, month);
    var shifted := Shift(date, 12 * years + months);
    MonthIndexInverse(shifted.year, shifted.month);
  }

  /** What the straight-line part of `add` has established once it reaches the day-carry loop. */
  lemma SumFromParts(start: DateTime, span: Span, year: int, month: int, day: int,
                     carry: int, hour: int, minute: int, second: int, microsecond: int)
    requires start.Valid()
    requires 0 <= hour < 24 && 0 <= minute < 60 && 0 <= second < 60 && 0 <= microsecond < 1_000_000
    requires start.Clock() + (span.hours * 60 + span.minutes) * 60_000_000 + span.micros ==
             (((carry * 24 + hour) * 60 + minute) * 60 + second) * 1_000_000 + microsecond
    requires 1 <= month <= 12 && Shift(start.DateOf(), span.MonthCount()) == Date(year, month, day)
    ensures var date := Normalize(MonthIndex(year, month), day + span.days + 7 * span.weeks + carry);
            Sum(start, span) == DateTime(date.year, date.month, date.day, hour, minute, second, microsecond)
  {
    hide DaysIn, Shift, DayNumber, AtClock, MonthIndex, Normalize;
    var clock := start.Clock() + (span.hours * 60 + span.minutes) * 60_000_000 + span.micros;
    DivModUnique(clock, DAY, carry, ((hour * 60 + minute) * 60 + second) * 1_000_000 + microsecond);
    var date := Normalize(MonthIndex(year, month), day + span.days + 7 * span.weeks + carry);
    var end := DateTime(date.year, date.month, date.day, hour, minute, second, microsecond);
    ClockInjective(AtClock(date, clock % DAY), end);
  }

  lemma ClockInjective(a: DateTime, b: DateTime)
    requires a.Valid() && b.Valid() && a.DateOf() == b.DateOf() && a.Clock() == b.Clock()
    ensures a == b
  {
    DivModUnique(a.Clock(), 1_000_000, (a.hour * 60 + a.minute) * 60 + a.second, a.microsecond);
    DivModUnique(b.Clock(), 1_000_000, (b.hour * 60 + b.minute) * 60 + b.second, b.microsecond);
  }
}
