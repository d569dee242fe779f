/** operations/__init__.py: adding a duration whose components, but for the years, may have fractions. */
module FractionalAddition {
  import opened Calendar
  import opened Addition
  import opened DayCarry
  import opened Wrappers

  /** A duration with whole years. */
  datatype RealSpan = RealSpan(years: int, months: real, weeks: real, days: real, hours: real, minutes: real,
                               seconds: real)
  {
    function MonthCount(): int {
      12 * years + months.Floor
    }

    /** Everything but the years and months, in microseconds. */
    function Elapsed(): real {
      (days + 7.0 * weeks) * DAY as real + (hours * 60.0 + minutes) * 60_000_000.0 + seconds * 1_000_000.0
    }
  }

  // ---------------------------------------------------------------------------------------------
  // util.py on numbers that may have fractions

  function Quot(dividend: real, divisor: int): int
    requires divisor > 0
  {
    (dividend / divisor as real).Floor
  }

  function Mod(dividend: real, divisor: int): real
    requires divisor > 0
  {
    dividend - Quot(dividend, divisor) as real * divisor as real
  }

  lemma Split(x: real, n: int)
    requires n == 12 || n == 24 || n == 60 || n == 1_000_000
    ensures x == Quot(x, n) as real * n as real + Mod(x, n)
    ensures 0.0 <= Mod(x, n) < n as real
  {
    var q := x / n as real;
    assert q.Floor as real <= q < q.Floor as real + 1.0;
    assert q * n as real == x;
  }

  /** quot3 and mod3 with bounds 1 and 13 */
  function MonthQuot(month: real): int {
    Quot(month - 1.0, 12)
  }

  function MonthMod(month: real): real {
    Mod(month - 1.0, 12) + 1.0
  }

  lemma MonthSplits(year: int, month: real)
    ensures 1.0 <= MonthMod(month) < 13.0 && Fraction(MonthMod(month)) == Fraction(month)
    ensures MonthIndex(year + MonthQuot(month), MonthMod(month).Floor) == MonthIndex(year, month.Floor)
  {
    Split(month - 1.0, 12);
    FloorShift(month, -12 * MonthQuot(month));
  }

  /** max_day_in_month looks at the whole part of the month. */
  function MaxDay(year: int, month: real): int {
    MaxDayInMonth(year + MonthQuot(month), MonthMod(month).Floor)
  }

  lemma MaxDayOfFloor(year: int, month: real)
    ensures MaxDay(year, month) == MonthLength(MonthIndex(year, month.Floor))
  {
    hide MaxDayInMonth, MonthLength, MonthMod, MonthQuot, MonthIndex;
    MonthSplits(year, month);
    MaxDayIsMonthLength(year + MonthQuot(month), MonthMod(month).Floor);
  }

  /** to_integral_value with ROUND_DOWN */
  function RoundDown(x: real): int {
    if x >= 0.0 then x.Floor else -((-x).Floor)
  }

  /** What is left has the sign of the number. */
  lemma RoundsDown(x: real)
    ensures var left := x - RoundDown(x) as real;
            -1.0 < left < 1.0 && (x >= 0.0 ==> left >= 0.0) && (x <= 0.0 ==> left <= 0.0)
  {
  }

  // ---------------------------------------------------------------------------------------------
  // The sum, before it is rounded

  /** What the straight-line part leaves: the fraction of the month, the clock, and where the day-carry loop
      begins. */
  datatype Parts = Parts(monthFraction: real, hour: real, minute: real, second: int, microsecond: real, start: Cursor)

  function PartsOf(start: DateTime, span: RealSpan): Parts
    requires start.Valid()
  {
    var shifted := Shift(start.DateOf(), span.MonthCount());
    var seconds := RoundDown(span.seconds);
    var microsecond := start.microsecond as real + (span.seconds - seconds as real) * 1_000_000.0;
    var second := start.second + seconds + Quot(microsecond, 1_000_000);
    var minute := start.minute as real + span.minutes + Quot2(second, 60) as real;
    var hour := start.hour as real + span.hours + Quot(minute, 60) as real;
    var day := shifted.day as real + span.days + 7.0 * span.weeks + Quot(hour, 24) as real;
    Parts(Fraction(span.months), Mod(hour, 24), Mod(minute, 60), Mod2(second, 60), Mod(microsecond, 1_000_000),
          Cursor(MonthIndex(shifted.year, shifted.month), day))
  }

  function ClockOf(p: Parts): real {
    ((p.hour * 60.0 + p.minute) * 60.0 + p.second as real) * 1_000_000.0 + p.microsecond
  }

  /** The carry chain loses nothing, fractions included: the day count and the clock together have moved by
      the elapsed time, and the clock is within its fields. */
  lemma ChainIsExact(start: DateTime, span: RealSpan)
    requires start.Valid()
    ensures var p := PartsOf(start, span);
            var shifted := Shift(start.DateOf(), span.MonthCount());
            && p.start.day * DAY as real + ClockOf(p)
               == shifted.day as real * DAY as real + start.Clock() as real + span.Elapsed()
            && 0.0 <= p.hour < 24.0 && 0.0 <= p.minute < 60.0 && 0 <= p.second < 60
            && 0.0 <= p.microsecond < 1_000_000.0
  {
    hide Quot, Mod, Quot2, Mod2, Shift, RoundDown;
    var seconds := RoundDown(span.seconds);
    var microsecond := start.microsecond as real + (span.seconds - seconds as real) * 1_000_000.0;
    var second := start.second + seconds + Quot(microsecond, 1_000_000);
    var minute := start.minute as real + span.minutes + Quot2(second, 60) as real;
    var hour := start.hour as real + span.hours + Quot(minute, 60) as real;
    Split(microsecond, 1_000_000);
    Split2(second, 60);
    Split(minute, 60);
    Split(hour, 24);
  }

  /** Fractions stay in their unit: what is carried into the minutes, hours and days is whole, and what is carried
      out of the microseconds is whole seconds. With the ranges of the fields this fixes every part. */
  lemma FractionsStay(start: DateTime, span: RealSpan)
    requires start.Valid()
    ensures var p := PartsOf(start, span);
            var shifted := Shift(start.DateOf(), span.MonthCount());
            && IsWhole(p.minute - start.minute as real - span.minutes)
            && IsWhole(p.hour - start.hour as real - span.hours)
            && IsWhole(p.start.day - shifted.day as real - span.days - 7.0 * span.weeks)
            && IsWhole((p.microsecond - start.microsecond as real - span.seconds * 1_000_000.0) / 1_000_000.0)
            && p.start.index == MonthIndex(shifted.year, shifted.month) && p.monthFraction == Fraction(span.months)
  {
    hide Quot, Mod, Quot2, Mod2, Shift, RoundDown, IsWhole, Fraction;
    var seconds := RoundDown(span.seconds);
    var microsecond := start.microsecond as real + (span.seconds - seconds as real) * 1_000_000.0;
    var second := start.second + seconds + Quot(microsecond, 1_000_000);
    var minute := start.minute as real + span.minutes + Quot2(second, 60) as real;
    var hour := start.hour as real + span.hours + Quot(minute, 60) as real;
    Split(microsecond, 1_000_000);
    Split(minute, 60);
    Split(hour, 24);
    var p := PartsOf(start, span);
    Whole(p.minute - start.minute as real - span.minutes, Quot2(second, 60) - 60 * Quot(minute, 60));
    Whole(p.hour - start.hour as real - span.hours, Quot(minute, 60) - 24 * Quot(hour, 24));
    var shifted := Shift(start.DateOf(), span.MonthCount());
    Whole(p.start.day - shifted.day as real - span.days - 7.0 * span.weeks, Quot(hour, 24));
    Whole((p.microsecond - start.microsecond as real - span.seconds * 1_000_000.0) / 1_000_000.0,
          -seconds - Quot(microsecond, 1_000_000));
  }

  lemma Whole(x: real, k: int)
    requires x == k as real
    ensures IsWhole(x)
  {
  }

  // ---------------------------------------------------------------------------------------------
  // Rounding to a datetime

  /** Every field is rounded on its own; `datetime` refuses a field that is out of its range. */
  function Rounded(p: Parts, final: Cursor): DateTime {
    DateTime(final.index / 12, RoundHalfUp((final.index % 12 + 1) as real + p.monthFraction), RoundHalfUp(final.day),
             RoundHalfUp(p.hour), RoundHalfUp(p.minute), p.second, RoundHalfUp(p.microsecond))
  }

  predicate Accepted(t: DateTime) {
    t.Valid() && 1 <= t.year <= 9999
  }

  lemma RoundedWithin(x: real, n: int)
    requires 0.0 <= x < n as real
    ensures 0 <= RoundHalfUp(x) <= n
    ensures RoundHalfUp(x) < n <==> x < n as real - 0.5
  {
  }

  /** The month that is reached does not change when it is rounded, or the next one is in the same year and
      has the day. */
  predicate MonthStands(fraction: real, target: Date, day: int) {
    fraction < 0.5 || (target.month < 12 && day <= DaysIn(target.year, target.month + 1))
  }

  function RoundedUp(fraction: real): int {
    if fraction >= 0.5 then 1 else 0
  }

  lemma MonthRounds(month: int, fraction: real)
    requires 0.0 <= fraction < 1.0
    ensures RoundHalfUp(month as real + fraction) == month + RoundedUp(fraction)
  {
    FloorShift(fraction + 0.5, month);
  }

  lemma RoundedFields(p: Parts, final: Cursor, target: Date)
    requires 1 <= target.month <= 12 && final.index == MonthIndex(target.year, target.month)
    requires 0.0 <= p.monthFraction < 1.0
    ensures Rounded(p, final) ==
            DateTime(target.year, target.month + RoundedUp(p.monthFraction), RoundHalfUp(final.day),
                     RoundHalfUp(p.hour), RoundHalfUp(p.minute), p.second, RoundHalfUp(p.microsecond))
  {
    hide MonthIndex, RoundedUp, RoundHalfUp;
    MonthIndexInverse(target.year, target.month);
    MonthRounds(target.month, p.monthFraction);
  }

  lemma MonthFits(fraction: real, target: Date, day: int)
    requires ValidDate(Date(target.year, target.month, day))
    ensures ValidDate(Date(target.year, target.month + RoundedUp(fraction), day)) <==>
            MonthStands(fraction, target, day)
  {
    hide DaysIn;
  }

  lemma ClockFits(p: Parts)
    requires 0.0 <= p.hour < 24.0 && 0.0 <= p.minute < 60.0 && 0.0 <= p.microsecond < 1_000_000.0
    ensures 0 <= RoundHalfUp(p.hour) < 24 && 0 <= RoundHalfUp(p.minute) < 60
            && 0 <= RoundHalfUp(p.microsecond) < 1_000_000
            <==> p.hour < 23.5 && p.minute < 59.5 && p.microsecond < 999_999.5
  {
    hide RoundHalfUp;
    RoundedWithin(p.hour, 24);
    RoundedWithin(p.minute, 60);
    RoundedWithin(p.microsecond, 1_000_000);
  }

  lemma AcceptedParts(t: DateTime)
    ensures Accepted(t) <==>
            ValidDate(Date(t.year, t.month, t.day)) && 1 <= t.year <= 9999 && 0 <= t.second < 60
            && 0 <= t.hour < 24 && 0 <= t.minute < 60 && 0 <= t.microsecond < 1_000_000
  {
    hide ValidDate;
  }

  lemma MonthPart(start: DateTime, span: RealSpan)
    requires start.Valid()
    ensures PartsOf(start, span).monthFraction == Fraction(span.months)
  {
    hide Shift, Fraction, RoundDown;
  }

  lemma FractionRange(x: real)
    ensures 0.0 <= Fraction(x) < 1.0
  {
  }

  /** When the loop ends, exactly when there is a result: the year is one that `datetime` has; none of the hour,
      minute and microsecond is rounded up to the next of the unit above; and if the month is rounded up, the
      next month is in the same year and has the day. The day itself is never rounded out of its month. */
  lemma AcceptedDomain(start: DateTime, span: RealSpan, passes: nat)
    requires start.Valid() && EndsWithin(PartsOf(start, span).start, passes)
    ensures var p := PartsOf(start, span);
            var target := WholeTarget(p.start);
            var day := target.day + RoundedUp(Fraction(p.start.day));
            Accepted(Rounded(p, Final(p.start, passes))) <==>
              1 <= target.year <= 9999 && MonthStands(Fraction(span.months), target, day)
              && p.hour < 23.5 && p.minute < 59.5 && p.microsecond < 999_999.5
  {
    hide PartsOf, Rounded, Accepted, WholeTarget, EndsWithin, Final, Fraction, RoundHalfUp, ValidDate, MonthStands,
         MonthIndex, RoundedUp;
    var p := PartsOf(start, span);
    var target := WholeTarget(p.start);
    var final := Final(p.start, passes);
    ChainIsExact(start, span);
    MonthPart(start, span);
    FractionRange(span.months);
    EndsAtTarget(p.start, passes);
    UpOrNot(Fraction(p.start.day));
    TargetMonth(p.start);
    RoundedFields(p, final, target);
    AcceptedParts(Rounded(p, final));
    MonthFits(p.monthFraction, target, RoundHalfUp(final.day));
    ClockFits(p);
  }

  lemma UpOrNot(fraction: real)
    ensures RoundedUp(fraction) == if fraction >= 0.5 then 1 else 0
  {
  }

  lemma TargetMonth(c: Cursor)
    ensures 1 <= WholeTarget(c).month <= 12
  {
  }

  /** Adding minutes to a time on the minute, without a carry into the hours. */
  lemma OnlyMinutes(start: DateTime, minutes: real)
    requires start.Valid() && start.second == 0 && start.microsecond == 0
    requires 0.0 <= start.minute as real + minutes < 60.0
    ensures var p := PartsOf(start, RealSpan(0, 0.0, 0.0, 0.0, 0.0, minutes, 0.0));
            p.minute == start.minute as real + minutes && IsWhole(p.start.day)
  {
    hide Shift, Mod2, IsWhole;
    assert RoundDown(0.0) == 0 && Quot(0.0, 1_000_000) == 0 && Quot2(0, 60) == 0;
    var minute := start.minute as real + minutes;
    assert 0.0 <= minute / 60.0 < 1.0;
    assert Quot(minute, 60) == 0;
    WholeSplit(start.hour, 24);
    var p := PartsOf(start, RealSpan(0, 0.0, 0.0, 0.0, 0.0, minutes, 0.0));
    WholeIsWhole(Shift(start.DateOf(), 0).day + Quot2(start.hour, 24));
  }

  lemma WholeIsWhole(k: int)
    ensures IsWhole(k as real)
  {
  }

  // ---------------------------------------------------------------------------------------------
  // Without fractions

  function AsReal(span: Span): RealSpan {
    RealSpan(span.years, span.months as real, span.weeks as real, span.days as real, span.hours as real,
             span.minutes as real, span.micros as real / 1_000_000.0)
  }

  lemma WholeSplit(k: int, n: int)
    requires n == 24 || n == 60 || n == 1_000_000
    ensures Quot(k as real, n) == Quot2(k, n) && Mod(k as real, n) == Mod2(k, n) as real
  {
    Split2(k, n);
    var q := k as real / n as real;
    assert q * n as real == k as real;
    assert q == Quot2(k, n) as real + Mod2(k, n) as real / n as real;
  }

  /** Whole components leave whole parts. */
  lemma WholeParts(start: DateTime, span: Span)
    returns (hour: int, minute: int, second: int, microsecond: int, carry: int)
    requires start.Valid()
    ensures var shifted := Shift(start.DateOf(), span.MonthCount());
            PartsOf(start, AsReal(span)) ==
            Parts(0.0, hour as real, minute as real, second, microsecond as real,
                  Cursor(MonthIndex(shifted.year, shifted.month),
                         (shifted.day + span.days + 7 * span.weeks + carry) as real))
    ensures 0 <= hour < 24 && 0 <= minute < 60 && 0 <= second < 60 && 0 <= microsecond < 1_000_000
    ensures start.Clock() + (span.hours * 60 + span.minutes) * 60_000_000 + span.micros ==
            (((carry * 24 + hour) * 60 + minute) * 60 + second) * 1_000_000 + microsecond
  {
    hide Quot, Mod, Quot2, Mod2, Shift, MonthIndex;
    var r := AsReal(span);
    var shifted := Shift(start.DateOf(), span.MonthCount());
    var seconds := RoundDown(r.seconds);
    hide RoundDown;
    var micros := start.microsecond + span.micros - seconds * 1_000_000;
    WholeSplit(micros, 1_000_000);
    Split2(micros, 1_000_000);
    assert (r.seconds - seconds as real) * 1_000_000.0 == (span.micros - seconds * 1_000_000) as real;
    var allSeconds := start.second + seconds + Quot2(micros, 1_000_000);
    Split2(allSeconds, 60);
    var minutes := start.minute + span.minutes + Quot2(allSeconds, 60);
    WholeSplit(minutes, 60);
    Split2(minutes, 60);
    var hours := start.hour + span.hours + Quot2(minutes, 60);
    WholeSplit(hours, 24);
    Split2(hours, 24);
    hour, minute, second := Mod2(hours, 24), Mod2(minutes, 60), Mod2(allSeconds, 60);
    microsecond, carry := Mod2(micros, 1_000_000), Quot2(hours, 24);
  }

  lemma RoundsToItself(k: int)
    ensures RoundHalfUp(k as real) == k && Fraction(k as real) == 0.0 && (k as real).Floor == k
  {
  }

  /** For whole components, with the seconds in whole microseconds, the rounded sum is the sum. */
  lemma WholeAgrees(start: DateTime, span: Span, passes: nat)
    requires start.Valid() && EndsWithin(PartsOf(start, AsReal(span)).start, passes)
    ensures var p := PartsOf(start, AsReal(span)); Rounded(p, Final(p.start, passes)) == Sum(start, span)
  {
    hide PartsOf, Sum, Shift, Normalize, DaysIn, EndsWithin, Final, MonthLength, RoundHalfUp, Fraction, DateTime.Clock,
         MonthIndex;
    var p := PartsOf(start, AsReal(span));
    var shifted := Shift(start.DateOf(), span.MonthCount());
    var hour, minute, second, microsecond, carry := WholeParts(start, span);
    EndsAtTarget(p.start, passes);
    RoundsToItself(hour);
    RoundsToItself(minute);
    RoundsToItself(microsecond);
    RoundsToItself(shifted.day + span.days + 7 * span.weeks + carry);
    SumFromParts(start, span, shifted.year, shifted.month, shifted.day, carry, hour, minute, second, microsecond);
    var target := WholeTarget(p.start);
    MonthIndexInverse(target.year, target.month);
    RoundsToItself(target.month);
  }

  // ---------------------------------------------------------------------------------------------
  // The algorithm

  /** Where the day-carry loop stops, if it does. */
  function Landing(c: Cursor): Cursor {
    Cursor(MonthIndex(WholeTarget(c).year, WholeTarget(c).month), WholeTarget(c).day as real + Fraction(c.day))
  }

  lemma LandsThere(c: Cursor, passes: nat)
    requires EndsWithin(c, passes)
    ensures Final(c, passes) == Landing(c)
  {
    hide *;
    EndsAtTarget(c, passes);
    LandingIs(c);
  }

  lemma LandingIs(c: Cursor)
    ensures Landing(c).index == MonthIndex(WholeTarget(c).year, WholeTarget(c).month)
    ensures Landing(c).day == WholeTarget(c).day as real + Fraction(c.day)
  {
  }

  lemma StaysOutside(c: Cursor)
    requires !InGap(c) && LoopBody(c).Continue?
    ensures var next := LoopBody(c).next;
            && !InGap(next) && Landing(next) == Landing(c)
            && Distance(next.index, next.day.Floor) < Distance(c.index, c.day.Floor)
  {
    hide DaysIn, MonthLength, MonthIndex;
    PassKeepsTarget(c);
    PassKeepsFraction(c);
    NotLastDay(c);
    if c.day < 1.0 {
      FloorShift(c.day, MonthLength(c.index - 1));
    } else {
      FloorShift(c.day, -MonthLength(c.index));
    }
  }

  lemma BreaksThere(c: Cursor)
    requires LoopBody(c).Break?
    ensures c == Landing(c)
  {
    hide *;
    StopsAtOnce(c);
    LandsThere(c, 0);
  }

  lemma StopsAtOnce(c: Cursor)
    requires LoopBody(c).Break?
    ensures EndsWithin(c, 0) && Final(c, 0) == c
  {
  }

  /** The day-carry loop on a month and a day count that may have fractions, where it ends. */
  method CarryFractionalDays(year: int, month: real, day: real) returns (endYear: int, endMonth: real, endDay: real)
    requires 1.0 <= month < 13.0 && !InGap(Cursor(MonthIndex(year, month.Floor), day))
    ensures 1.0 <= endMonth < 13.0 && Fraction(endMonth) == Fraction(month)
    ensures Cursor(MonthIndex(endYear, endMonth.Floor), endDay) == Landing(Cursor(MonthIndex(year, month.Floor), day))
  {
    hide MaxDay, MonthMod, MonthQuot, MonthLength, InGap, Landing, Distance, MonthIndex, Fraction;
    endYear, endMonth, endDay := year, month, day;
    while true
      invariant 1.0 <= endMonth < 13.0 && Fraction(endMonth) == Fraction(month)
      invariant !InGap(Cursor(MonthIndex(endYear, endMonth.Floor), endDay))
      invariant Landing(Cursor(MonthIndex(endYear, endMonth.Floor), endDay))
                == Landing(Cursor(MonthIndex(year, month.Floor), day))
      decreases Distance(MonthIndex(endYear, endMonth.Floor), endDay.Floor)
    {
      ghost var c := Cursor(MonthIndex(endYear, endMonth.Floor), endDay);
      MaxDayOfFloor(endYear, endMonth);
      MaxDayOfFloor(endYear, endMonth - 1.0);
      Neighbours(endYear, endMonth);
      var carry;
      if endDay < 1.0 {
        endDay := endDay + MaxDay(endYear, endMonth - 1.0) as real;
        carry := -1.0;
      } else if endDay > MaxDay(endYear, endMonth) as real {
        endDay := endDay - MaxDay(endYear, endMonth) as real;
        carry := 1.0;
      } else {
        BreaksThere(c);
        break;
      }
      StaysOutside(c);
      var temp := endMonth + carry;
      MonthSplits(endYear, temp);
      endMonth := MonthMod(temp);
      endYear := endYear + MonthQuot(temp);
      assert LoopBody(c).next == Cursor(MonthIndex(endYear, endMonth.Floor), endDay);
    }
  }

  lemma Neighbours(year: int, month: real)
    ensures MonthIndex(year, (month - 1.0).Floor) == MonthIndex(year, month.Floor) - 1
    ensures MonthIndex(year, (month + 1.0).Floor) == MonthIndex(year, month.Floor) + 1
    ensures Fraction(month - 1.0) == Fraction(month) == Fraction(month + 1.0)
  {
    FloorShift(month, -1);
    FloorShift(month, 1);
  }

  /** The result, where the loop ends: every field rounded, or the exception of `datetime`. */
  function RoundedSum(start: DateTime, span: RealSpan): Option<DateTime>
    requires start.Valid()
  {
    var p := PartsOf(start, span);
    var t := Rounded(p, Landing(p.start));
    if Accepted(t) then Some(t) else None
  }

  method AddFractional(start: DateTime, duration: RealSpan) returns (end: Option<DateTime>)
    requires start.Valid() && Ends(PartsOf(start, duration).start)
    ensures end == RoundedSum(start, duration)
  {
    hide Mod2, Quot2, MonthMod, MonthQuot, Mod, Quot, MaxDay, Shift, DaysIn, InGap, Landing, Ends, RoundDown,
         RoundHalfUp, Accepted, MonthIndex, Fraction;
    NotInGap(PartsOf(start, duration).start);

    // Months and years.
    var temp := start.month as real + duration.months;
    var endMonth := MonthMod(temp);
    var endYear := start.year + duration.years + MonthQuot(temp);
    ShiftedParts(start, duration);

    // Microseconds, seconds, minutes, hours.
    var seconds := RoundDown(duration.seconds);
    var microseconds := start.microsecond as real + (duration.seconds - seconds as real) * 1_000_000.0;
    var endMicrosecond := Mod(microseconds, 1_000_000);
    var second := start.second + seconds + Quot(microseconds, 1_000_000);
    var endSecond := Mod2(second, 60);
    var minute := start.minute as real + duration.minutes + Quot2(second, 60) as real;
    var endMinute := Mod(minute, 60);
    var hour := start.hour as real + duration.hours + Quot(minute, 60) as real;
    var endHour := Mod(hour, 24);

    // Days.
    var maxDay := MaxDay(endYear, endMonth);
    var day := if start.day > maxDay then maxDay else start.day;
    var endDay := day as real + duration.days + 7.0 * duration.weeks + Quot(hour, 24) as real;
    endYear, endMonth, endDay := CarryFractionalDays(endYear, endMonth, endDay);
    IndexParts(endYear, endMonth);
    var t := DateTime(endYear, RoundHalfUp(endMonth), RoundHalfUp(endDay), RoundHalfUp(endHour), RoundHalfUp(endMinute),
                      endSecond, RoundHalfUp(endMicrosecond));
    return if Accepted(t) then Some(t) else None;
  }

  /** The month and year computed first, and the clamped day. */
  lemma ShiftedParts(start: DateTime, span: RealSpan)
    requires start.Valid()
    ensures var temp := start.month as real + span.months;
            var (month, year) := (MonthMod(temp), start.year + span.years + MonthQuot(temp));
            && 1.0 <= month < 13.0 && Fraction(month) == Fraction(span.months)
            && Shift(start.DateOf(), span.MonthCount()) == Date(year, month.Floor, Min(start.day, MaxDay(year, month)))
  {
    var temp := start.month as real + span.months;
    var (month, year) := (MonthMod(temp), start.year + span.years + MonthQuot(temp));
    FloorShift(span.months, start.month);
    assert Fraction(temp) == Fraction(span.months);
    assert MonthIndex(start.year + span.years, temp.Floor) == MonthIndex(start.year, start.month) + span.MonthCount();
    hide MonthMod, MonthQuot, MaxDay, Shift, DaysIn, MonthLength, Fraction, MonthIndex;
    MonthSplits(start.year + span.years, temp);
    MaxDayOfFloor(year, month);
    var shifted := Shift(start.DateOf(), span.MonthCount());
    SameMonth(year, month.Floor, shifted.year, shifted.month);
  }

  lemma SameMonth(year: int, month: int, otherYear: int, otherMonth: int)
    requires 1 <= month <= 12 && 1 <= otherMonth <= 12 && MonthIndex(year, month) == MonthIndex(otherYear, otherMonth)
    ensures year == otherYear && month == otherMonth && MonthLength(MonthIndex(year, month)) == DaysIn(year, month)
  {
    hide MonthIndex, MonthLength, DaysIn;
    MonthIndexInverse(year, month);
    MonthIndexInverse(otherYear, otherMonth);
  }

  lemma IndexParts(year: int, month: real)
    requires 1.0 <= month < 13.0
    ensures MonthIndex(year, month.Floor) / 12 == year
    ensures (MonthIndex(year, month.Floor) % 12 + 1) as real + Fraction(month) == month
  {
    hide MonthIndex;
    MonthIndexInverse(year, month.Floor);
  }

  lemma NotInGap(c: Cursor)
    requires Ends(c)
    ensures !InGap(c)
  {
    hide WholeTarget, DaysIn;
    TerminationDomain(c);
  }

  /** Exactly when there is a result, once the loop ends. */
  lemma ResultDomain(start: DateTime, span: RealSpan)
    requires start.Valid() && Ends(PartsOf(start, span).start)
    ensures var p := PartsOf(start, span);
            var target := WholeTarget(p.start);
            var day := target.day + RoundedUp(Fraction(p.start.day));
            RoundedSum(start, span).Some? <==>
              1 <= target.year <= 9999 && MonthStands(Fraction(span.months), target, day)
              && p.hour < 23.5 && p.minute < 59.5 && p.microsecond < 999_999.5
  {
    hide PartsOf, Rounded, Landing, Final, EndsWithin, WholeTarget, Accepted, MonthStands;
    var passes: nat :| EndsWithin(PartsOf(start, span).start, passes);
    LandsThere(PartsOf(start, span).start, passes);
    AcceptedDomain(start, span, passes);
  }

  /** For whole components, with the seconds in whole microseconds, the loop ends and the result is the sum on
      the reference calendar, unless its year is none that `datetime` has. */
  lemma WholeSum(start: DateTime, span: Span)
    requires start.Valid()
    ensures Ends(PartsOf(start, AsReal(span)).start)
    ensures var t := Sum(start, span);
            RoundedSum(start, AsReal(span)) == if 1 <= t.year <= 9999 then Some(t) else None
  {
    hide PartsOf, Rounded, Landing, Final, EndsWithin, WholeTarget, Sum, IsWhole;
    var c := PartsOf(start, AsReal(span)).start;
    WholeDay(start, span);
    TerminationDomain(c);
    var passes: nat :| EndsWithin(c, passes);
    LandsThere(c, passes);
    WholeAgrees(start, span, passes);
  }

  lemma WholeDay(start: DateTime, span: Span)
    requires start.Valid()
    ensures IsWhole(PartsOf(start, AsReal(span)).start.day)
  {
    hide PartsOf, Shift;
    var _, _, _, _, carry := WholeParts(start, span);
    WholeIsWhole(Shift(start.DateOf(), span.MonthCount()).day + span.days + 7 * span.weeks + carry);
  }

  /** The result, field by field: the date the loop leads to, each of the four fields with a fraction rounded
      half up on its own, and the seconds as they are. */
  lemma ResultFields(start: DateTime, span: RealSpan)
    requires start.Valid() && Ends(PartsOf(start, span).start) && RoundedSum(start, span).Some?
    ensures var (p, t) := (PartsOf(start, span), RoundedSum(start, span).value);
            var target := WholeTarget(p.start);
            && t.year == target.year
            && t.month == target.month + (if Fraction(span.months) >= 0.5 then 1 else 0)
            && t.day == target.day + (if Fraction(p.start.day) >= 0.5 then 1 else 0)
            && t.hour == (p.hour + 0.5).Floor && t.minute == (p.minute + 0.5).Floor
            && t.second == p.second && t.microsecond == (p.microsecond + 0.5).Floor
  {
    hide PartsOf, Final, EndsWithin, WholeTarget, Accepted, MonthIndex, Fraction;
    var p := PartsOf(start, span);
    var passes: nat :| EndsWithin(p.start, passes);
    LandsThere(p.start, passes);
    EndsAtTarget(p.start, passes);
    MonthPart(start, span);
    FractionRange(span.months);
    TargetMonth(p.start);
    RoundedFields(p, Landing(p.start), WholeTarget(p.start));
  }

  const TEN := DateTime(2023, 1, 1, 10, 0, 0, 0)

  lemma TenIsTen()
    ensures TEN.Valid() && TEN.DateOf() == Date(2023, 1, 1) && TEN.hour == 10
    ensures TEN.minute == 0 && TEN.second == 0 && TEN.microsecond == 0
  {
  }

  /** One and a half hours after ten is twelve: the half hour stays in the hours and is rounded up there. */
  lemma HalfAnHour()
    ensures TEN.Valid()
    ensures RoundedSum(TEN, RealSpan(0, 0.0, 0.0, 0.0, 1.5, 0.0, 0.0)) == Some(DateTime(2023, 1, 1, 12, 0, 0, 0))
  {
    hide *;
    TenIsTen();
    var span := RealSpan(0, 0.0, 0.0, 0.0, 1.5, 0.0, 0.0);
    OnlyHours(TEN, 1.5);
    TerminationDomain(PartsOf(TEN, span).start);
    NoFraction();
    SmallFractions(PartsOf(TEN, span).start);
    ResultDomain(TEN, span);
    UpOrNot(0.0);
    StandsWithout(WholeTarget(PartsOf(TEN, span).start), WholeTarget(PartsOf(TEN, span).start).day);
    ResultFields(TEN, span);
  }

  lemma NoFraction()
    ensures Fraction(0.0) == 0.0
  {
  }

  lemma SmallFractions(c: Cursor)
    requires IsWhole(c.day)
    ensures Fraction(c.day) == 0.0
  {
  }

  lemma StandsWithout(target: Date, day: int)
    ensures MonthStands(0.0, target, day)
  {
  }

  lemma HourParts(start: DateTime, hours: real)
    requires start.Valid() && start.minute == 0 && start.second == 0 && start.microsecond == 0
    requires 0.0 <= start.hour as real + hours < 24.0
    ensures var p := PartsOf(start, RealSpan(0, 0.0, 0.0, 0.0, hours, 0.0, 0.0));
            var shifted := Shift(start.DateOf(), 0);
            && p.hour == start.hour as real + hours && p.minute == 0.0 && p.second == 0 && p.microsecond == 0.0
            && p.start == Cursor(MonthIndex(shifted.year, shifted.month), shifted.day as real)
  {
    hide Shift, MonthIndex, Quot, Quot2, RoundDown, Mod, Mod2, Fraction;
    NoSeconds();
    NoCarry(0.0, 1_000_000);
    NoCarry(0.0, 60);
    NoCarry(start.hour as real + hours, 24);
  }

  lemma NoCarry(x: real, n: int)
    requires (n == 24 || n == 60 || n == 1_000_000) && 0.0 <= x < n as real
    ensures Quot(x, n) == 0 && Mod(x, n) == x
  {
    Split(x, n);
    var q := x / n as real;
    assert q * n as real == x;
    assert 0.0 <= q < 1.0;
  }

  lemma NoSeconds()
    ensures RoundDown(0.0) == 0 && Quot2(0, 60) == 0 && Mod2(0, 60) == 0
  {
  }

  /** Adding hours to a time on the hour, without a carry into the days. */
  lemma OnlyHours(start: DateTime, hours: real)
    requires start.Valid() && start.minute == 0 && start.second == 0 && start.microsecond == 0
    requires 0.0 <= start.hour as real + hours < 24.0
    ensures var p := PartsOf(start, RealSpan(0, 0.0, 0.0, 0.0, hours, 0.0, 0.0));
            && p.hour == start.hour as real + hours && p.minute == 0.0 && p.second == 0 && p.microsecond == 0.0
            && IsWhole(p.start.day) && WholeTarget(p.start) == start.DateOf()
  {
    hide PartsOf, Shift, MonthIndex, Normalize, DaysIn;
    HourParts(start, hours);
    SameDate(start.DateOf());
    NormalizePosition(MonthIndex(start.year, start.month), start.day);
    MonthIndexInverse(start.year, start.month);
    var target := Normalize(MonthIndex(start.year, start.month), start.day);
    MonthIndexInverse(target.year, target.month);
  }

  // ---------------------------------------------------------------------------------------------
  // Two sums that are refused

  const MINUTE_59 := DateTime(2023, 1, 1, 0, 59, 0, 0)

  const JANUARY_31 := DateTime(2023, 1, 31, 0, 0, 0, 0)

  lemma ValidExamples()
    ensures MINUTE_59.Valid() && MINUTE_59.minute == 59 && MINUTE_59.second == 0 && MINUTE_59.microsecond == 0
    ensures JANUARY_31.Valid() && JANUARY_31.DateOf() == Date(2023, 1, 31) && JANUARY_31.Clock() == 0
    ensures DaysIn(2023, 2) == 28
  {
  }

  /** Half a minute after the minute 59 is the minute 60. */
  lemma HalfAMinuteRefused()
    ensures MINUTE_59.Valid()
    ensures var span := RealSpan(0, 0.0, 0.0, 0.0, 0.0, 0.5, 0.0);
            Ends(PartsOf(MINUTE_59, span).start) && RoundedSum(MINUTE_59, span) == None
  {
    hide *;
    ValidExamples();
    var span := RealSpan(0, 0.0, 0.0, 0.0, 0.0, 0.5, 0.0);
    OnlyMinutes(MINUTE_59, 0.5);
    TerminationDomain(PartsOf(MINUTE_59, span).start);
    ResultDomain(MINUTE_59, span);
  }

  /** Adding months to a midnight. */
  lemma OnlyMonths(start: DateTime, months: real)
    requires start.Valid() && start.Clock() == 0
    ensures var p := PartsOf(start, RealSpan(0, months, 0.0, 0.0, 0.0, 0.0, 0.0));
            var shifted := Shift(start.DateOf(), months.Floor);
            p.start == Cursor(MonthIndex(shifted.year, shifted.month), shifted.day as real) && IsWhole(p.start.day)
            && WholeTarget(p.start) == shifted
  {
    hide Shift, Mod2, MonthIndex, Normalize, DaysIn;
    assert start.hour == 0 && start.minute == 0 && start.second == 0 && start.microsecond == 0;
    assert RoundDown(0.0) == 0 && Quot2(0, 60) == 0;
    assert Quot(0.0, 1_000_000) == 0 && Quot(0.0, 60) == 0 && Quot(0.0, 24) == 0;
    hide Quot, Quot2, RoundDown;
    var shifted := Shift(start.DateOf(), months.Floor);
    MonthIndexInverse(shifted.year, shifted.month);
    NormalizePosition(MonthIndex(shifted.year, shifted.month), shifted.day);
    var target := Normalize(MonthIndex(shifted.year, shifted.month), shifted.day);
    MonthIndexInverse(target.year, target.month);
  }

  /** Half a month after January 31 is February 31. */
  lemma HalfAMonthRefused()
    ensures JANUARY_31.Valid()
    ensures var span := RealSpan(0, 0.5, 0.0, 0.0, 0.0, 0.0, 0.0);
            Ends(PartsOf(JANUARY_31, span).start) && RoundedSum(JANUARY_31, span) == None
  {
    hide DaysIn, PartsOf, Ends, RoundedSum, DateTime.Valid, DateTime.Clock, MonthIndex, Shift, WholeTarget;
    ValidExamples();
    var span := RealSpan(0, 0.5, 0.0, 0.0, 0.0, 0.0, 0.0);
    assert (0.5).Floor == 0;
    SameDate(JANUARY_31.DateOf());
    OnlyMonths(JANUARY_31, 0.5);
    TerminationDomain(PartsOf(JANUARY_31, span).start);
    ResultDomain(JANUARY_31, span);
  }

  lemma SameDate(date: Date)
    requires ValidDate(date)
    ensures Shift(date, 0) == date
  {
    hide DaysIn;
    MonthIndexInverse(date.year, date.month);
  }
}
