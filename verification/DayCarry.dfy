/** The day-carry loop of `add` when the day count is not whole, and exactly when it ends. */
module DayCarry {
  import opened Calendar
  import opened Addition

  /** The loop's variables: the month by number, and an end_day that may have a fraction. */
  datatype Cursor = Cursor(index: int, day: real)

  datatype Pass = Break | Continue(next: Cursor)

  /** One pass through the loop. */
  function LoopBody(c: Cursor): Pass {
    if c.day < 1.0 then
      Continue(Cursor(c.index - 1, c.day + MonthLength(c.index - 1) as real))
    else if c.day > MonthLength(c.index) as real then
      Continue(Cursor(c.index + 1, c.day - MonthLength(c.index) as real))
    else
      Break
  }

  /** The loop, started at `c`, breaks within `passes` further passes. */
  predicate EndsWithin(c: Cursor, passes: nat)
    decreases passes
  {
    match LoopBody(c)
    case Break => true
    case Continue(next) => passes > 0 && EndsWithin(next, passes - 1)
  }

  ghost predicate Ends(c: Cursor) {
    exists passes: nat :: EndsWithin(c, passes)
  }

  /** The date the loop would reach if the fraction were dropped first. */
  function WholeTarget(c: Cursor): Date {
    Normalize(c.index, c.day.Floor)
  }

  predicate IsWhole(x: real) {
    x == x.Floor as real
  }

  /** A fraction beyond the last day of a month belongs to no month: the loop's two branches undo each other. */
  predicate InGap(c: Cursor) {
    !IsWhole(c.day) && WholeTarget(c).day == DaysIn(WholeTarget(c).year, WholeTarget(c).month)
  }

  lemma FloorShift(x: real, n: int)
    ensures (x + n as real).Floor == x.Floor + n
    ensures IsWhole(x + n as real) <==> IsWhole(x)
  {
  }

  lemma NormalizeDown(index: int)
    ensures Normalize(index, 0) == Normalize(index - 1, MonthLength(index - 1))
  {
  }

  lemma PassKeepsTarget(c: Cursor)
    requires LoopBody(c).Continue?
    ensures WholeTarget(LoopBody(c).next) == WholeTarget(c)
    ensures IsWhole(LoopBody(c).next.day) <==> IsWhole(c.day)
  {
    hide MonthLength;
    if c.day < 1.0 {
      FloorShift(c.day, MonthLength(c.index - 1));
    } else {
      FloorShift(c.day, -MonthLength(c.index));
      NormalizeDown(c.index + 1);
    }
  }

  /** In a gap no pass ever breaks. */
  lemma {:induction false} GapNeverEnds(c: Cursor, passes: nat)
    requires InGap(c)
    ensures !EndsWithin(c, passes)
    decreases passes
  {
    hide DaysIn, MonthLength;
    if LoopBody(c).Break? {
      NormalizePosition(c.index, c.day.Floor);
      MonthIndexInverse(WholeTarget(c).year, WholeTarget(c).month);
      assert false;
    }
    PassKeepsTarget(c);
    if passes > 0 {
      GapNeverEnds(LoopBody(c).next, passes - 1);
    }
  }

  /** Elsewhere the whole-day measure of the loop decreases with every pass. */
  lemma {:induction false} OutsideGapsEnds(c: Cursor)
    requires !InGap(c)
    ensures EndsWithin(c, Distance(c.index, c.day.Floor))
    decreases Distance(c.index, c.day.Floor)
  {
    hide DaysIn, MonthLength;
    if LoopBody(c).Continue? {
      PassKeepsTarget(c);
      var next := LoopBody(c).next;
      NotLastDay(c);
      if c.day < 1.0 {
        FloorShift(c.day, MonthLength(c.index - 1));
      } else {
        FloorShift(c.day, -MonthLength(c.index));
      }
      OutsideGapsEnds(next);
      LongerIsFine(next, Distance(next.index, next.day.Floor), Distance(c.index, c.day.Floor) - 1);
    }
  }

  lemma NotLastDay(c: Cursor)
    requires !InGap(c) && LoopBody(c).Continue?
    ensures c.day.Floor < 1 || c.day.Floor > MonthLength(c.index)
    ensures c.day < 1.0 && !IsWhole(c.day) ==> c.day.Floor < 0
  {
    hide DaysIn, MonthLength, DayNumber, MonthStart, Normalize;
    NormalizePosition(c.index, c.day.Floor);
    MonthIndexInverse(WholeTarget(c).year, WholeTarget(c).month);
    NormalizeDown(c.index);
    NormalizePosition(c.index - 1, MonthLength(c.index - 1));
  }

  lemma {:induction false} LongerIsFine(c: Cursor, few: nat, many: nat)
    requires few <= many && EndsWithin(c, few)
    ensures EndsWithin(c, many)
    decreases few
  {
    if LoopBody(c).Continue? {
      LongerIsFine(LoopBody(c).next, few - 1, many - 1);
    }
  }

  /** The termination domain of the loop: every whole day count, and a fractional one exactly when,
      without its fraction, it does not lead to the last day of a month. */
  lemma TerminationDomain(c: Cursor)
    ensures Ends(c) <==>
            IsWhole(c.day) || WholeTarget(c).day != DaysIn(WholeTarget(c).year, WholeTarget(c).month)
  {
    if InGap(c) {
      forall passes: nat
        ensures !EndsWithin(c, passes)
      {
        GapNeverEnds(c, passes);
      }
    } else {
      OutsideGapsEnds(c);
    }
  }

  /** Such a start exists: January 31 and half a day. */
  lemma HalfADayNeverEnds()
    ensures !Ends(Cursor(MonthIndex(2023, 1), 31.5))
  {
    var c := Cursor(MonthIndex(2023, 1), 31.5);
    assert c.day.Floor == 31;
    TerminationDomain(c);
  }

  // ---------------------------------------------------------------------------------------------
  // Where the loop ends

  function Final(c: Cursor, passes: nat): Cursor
    requires EndsWithin(c, passes)
    decreases passes
  {
    match LoopBody(c)
    case Break => c
    case Continue(next) => Final(next, passes - 1)
  }

  function Fraction(x: real): real {
    x - x.Floor as real
  }

  lemma {:induction false} FinalPosition(c: Cursor, passes: nat)
    requires EndsWithin(c, passes)
    ensures var final := Final(c, passes);
            && LoopBody(final).Break? && WholeTarget(final) == WholeTarget(c) && Fraction(final.day) == Fraction(c.day)
    decreases passes
  {
    hide DaysIn, MonthLength, WholeTarget;
    if LoopBody(c).Continue? {
      PassKeepsTarget(c);
      PassKeepsFraction(c);
      FinalPosition(LoopBody(c).next, passes - 1);
    }
  }

  lemma PassKeepsFraction(c: Cursor)
    requires LoopBody(c).Continue?
    ensures Fraction(LoopBody(c).next.day) == Fraction(c.day)
  {
    hide MonthLength;
    FloorShift(c.day, MonthLength(c.index - 1));
    FloorShift(c.day, -MonthLength(c.index));
  }

  /** Decimal.to_integral_value with ROUND_HALF_UP, for a number that is not negative. */
  function RoundHalfUp(x: real): int {
    (x + 0.5).Floor
  }

  /** When the loop ends, it is in the month and on the day it would reach without the fraction, with the
      fraction still there; and the day it is rounded to is a day of that month: half a day or more counts
      as a day, and never leads out of the month. */
  lemma EndsAtTarget(c: Cursor, passes: nat)
    requires EndsWithin(c, passes)
    ensures var (final, target) := (Final(c, passes), WholeTarget(c));
            && final.index == MonthIndex(target.year, target.month)
            && final.day == target.day as real + Fraction(c.day)
            && RoundHalfUp(final.day) == target.day + (if Fraction(c.day) >= 0.5 then 1 else 0)
            && ValidDate(Date(target.year, target.month, RoundHalfUp(final.day)))
  {
    hide DaysIn, MonthLength, Normalize;
    var final := Final(c, passes);
    FinalPosition(c, passes);
    NormalizePosition(final.index, final.day.Floor);
    MonthIndexInverse(WholeTarget(c).year, WholeTarget(c).month);
    FloorShift(Fraction(c.day) + 0.5, final.day.Floor);
  }
}
