/** What adding durations to date-times promises its callers: inverses, composition, order. */
module AdditionLaws {
  import opened Calendar
  import opened Addition

  lemma InstantOrder(t: DateTime, u: DateTime)
    requires t.Valid() && u.Valid()
    ensures t.Instant() <= u.Instant() <==>
            DayNumber(t.DateOf()) < DayNumber(u.DateOf())
            || (DayNumber(t.DateOf()) == DayNumber(u.DateOf()) && t.Clock() <= u.Clock())
  {
    hide DayNumber, ValidDate;
  }

  /** The absolute count identifies a valid date-time. */
  lemma InstantInjective(t: DateTime, u: DateTime)
    requires t.Valid() && u.Valid() && t.Instant() == u.Instant()
    ensures t == u
  {
    hide DayNumber, ValidDate;
    InstantOrder(t, u);
    InstantOrder(u, t);
    DayNumberOrder(t.DateOf(), u.DateOf());
    ClockInjective(t, u);
  }

  lemma NoShift(t: DateTime)
    requires t.Valid()
    ensures Shift(t.DateOf(), 0) == t.DateOf() && AtClock(t.DateOf(), t.Clock()) == t
  {
    hide AtClock;
    MonthIndexInverse(t.year, t.month);
    ClockInjective(AtClock(t.DateOf(), t.Clock()), t);
  }

  function Plus(a: Span, b: Span): Span {
    Span(a.years + b.years, a.months + b.months, a.weeks + b.weeks, a.days + b.days,
         a.hours + b.hours, a.minutes + b.minutes, a.micros + b.micros)
  }

  /** Adding a duration without months after any other is one addition of their componentwise sum. */
  lemma AddThenElapse(t: DateTime, a: Span, b: Span)
    requires t.Valid() && b.MonthCount() == 0
    ensures Sum(Sum(t, a), b) == Sum(t, Plus(a, b))
  {
    hide Sum, Shift, AtClock, DayNumber, ValidDate;
    NoShift(Sum(t, a));
    assert Plus(a, b).MonthCount() == a.MonthCount();
    assert Plus(a, b).Elapsed() == a.Elapsed() + b.Elapsed();
    InstantInjective(Sum(Sum(t, a), b), Sum(t, Plus(a, b)));
  }

  /** `datetime - duration` is `-duration + datetime`; without months it undoes addition, both ways round. */
  lemma InverseLaw(t: DateTime, d: Span)
    requires t.Valid() && d.MonthCount() == 0
    ensures Sum(Sum(t, d), d.Negate()) == t
    ensures Sum(Sum(t, d.Negate()), d) == t
  {
    hide Sum, Shift, AtClock, DayNumber, ValidDate;
    NoShift(t);
    NoShift(Sum(t, d));
    NoShift(Sum(t, d.Negate()));
    assert d.Negate().Elapsed() == -d.Elapsed() && d.Negate().MonthCount() == 0;
    InstantInjective(Sum(Sum(t, d), d.Negate()), t);
    InstantInjective(Sum(Sum(t, d.Negate()), d), t);
  }

  /** Years and months matter only through 12 * years + months. */
  lemma YearsAreTwelveMonths(t: DateTime, d: Span, e: Span)
    requires t.Valid() && d.MonthCount() == e.MonthCount() && d.Elapsed() == e.Elapsed()
    ensures Sum(t, d) == Sum(t, e)
  {
    hide Sum, Shift, AtClock, DayNumber, ValidDate;
    InstantInjective(Sum(t, d), Sum(t, e));
  }

  function Months(n: int): Span {
    Span(0, n, 0, 0, 0, 0, 0)
  }

  lemma SumOfMonths(t: DateTime, n: int)
    requires t.Valid()
    ensures Sum(t, Months(n)) == AtClock(Shift(t.DateOf(), n), t.Clock())
  {
    hide Sum, Shift, AtClock, DayNumber, ValidDate;
    InstantInjective(Sum(t, Months(n)), AtClock(Shift(t.DateOf(), n), t.Clock()));
  }

  function LengthAfter(date: Date, months: int): int {
    MonthLength(MonthIndex(date.year, date.month) + months)
  }

  lemma ShiftLength(date: Date, months: int)
    requires ValidDate(date)
    ensures var s := Shift(date, months);
            && DaysIn(s.year, s.month) == LengthAfter(date, months)
            && s.day == Min(date.day, LengthAfter(date, months))
  {
    hide Shift, DaysIn, MonthLength;
    var s := Shift(date, months);
    MonthIndexInverse(s.year, s.month);
  }

  lemma ShiftCompose(date: Date, a: int, b: int)
    requires ValidDate(date)
    ensures Shift(Shift(date, a), b) == Shift(date, a + b)
            <==> date.day <= LengthAfter(date, a) || LengthAfter(date, a + b) <= LengthAfter(date, a)
  {
    hide Shift, DaysIn, MonthLength;
    var (once, both) := (Shift(Shift(date, a), b), Shift(date, a + b));
    ShiftLength(date, a);
    ShiftLength(Shift(date, a), b);
    ShiftLength(date, a + b);
    MonthIndexInverse(once.year, once.month);
    MonthIndexInverse(both.year, both.month);
  }

  /** Month additions compose exactly when the first one does not clamp the day below what the
      final month could hold. */
  lemma MonthsCompose(t: DateTime, a: int, b: int)
    requires t.Valid()
    ensures Sum(Sum(t, Months(a)), Months(b)) == Sum(t, Months(a + b))
            <==> t.day <= LengthAfter(t.DateOf(), a) || LengthAfter(t.DateOf(), a + b) <= LengthAfter(t.DateOf(), a)
    ensures t.day <= 28 ==> Sum(Sum(t, Months(a)), Months(b)) == Sum(t, Months(a + b))
  {
    hide Sum, Shift, AtClock, DayNumber, ValidDate;
    SumOfMonths(t, a);
    SumOfMonths(t, a + b);
    SumOfMonths(Sum(t, Months(a)), b);
    ShiftCompose(t.DateOf(), a, b);
  }

  /** Subtracting months undoes adding them exactly when the addition did not clamp the day. */
  lemma MonthsUndo(t: DateTime, n: int)
    requires t.Valid()
    ensures Sum(Sum(t, Months(n)), Months(n).Negate()) == t <==> t.day <= LengthAfter(t.DateOf(), n)
  {
    hide *;
    ZeroMonths(t);
    NegateMonths(n);
    MonthsCompose(t, n, -n);
  }

  lemma NegateMonths(n: int)
    ensures Months(n).Negate() == Months(-n)
  {
  }

  lemma ZeroMonths(t: DateTime)
    requires t.Valid()
    ensures Sum(t, Months(0)) == t
    ensures t.day <= LengthAfter(t.DateOf(), 0)
  {
    hide Sum, Shift, AtClock, DayNumber, ValidDate, MonthLength, MonthIndex;
    SumOfMonths(t, 0);
    NoShift(t);
    ShiftLength(t.DateOf(), 0);
  }

  lemma ShiftKeepsOrder(a: Date, b: Date, months: int)
    requires ValidDate(a) && ValidDate(b) && DayNumber(a) <= DayNumber(b)
    ensures DayNumber(Shift(a, months)) <= DayNumber(Shift(b, months))
  {
    hide DayNumber, ValidDate, Shift, MonthLength;
    DayNumberOrder(b, a);
    DayNumberOrder(a, b);
    ShiftLength(a, months);
    ShiftLength(b, months);
    DayNumberOrder(Shift(b, months), Shift(a, months));
  }

  /** Adding one duration to two ordered starts keeps their order, except in exactly one case: both
      are clamped onto the same day and the earlier start has the later time of day. */
  lemma OrderKept(t: DateTime, u: DateTime, d: Span)
    requires t.Valid() && u.Valid() && t.Instant() <= u.Instant()
    ensures Sum(t, d).Instant() <= Sum(u, d).Instant()
            <==> Shift(t.DateOf(), d.MonthCount()) != Shift(u.DateOf(), d.MonthCount()) || t.Clock() <= u.Clock()
  {
    hide Sum, Shift, AtClock, DayNumber, DaysIn;
    InstantOrder(t, u);
    var (a, b) := (Shift(t.DateOf(), d.MonthCount()), Shift(u.DateOf(), d.MonthCount()));
    ShiftKeepsOrder(t.DateOf(), u.DateOf(), d.MonthCount());
    InstantOrder(AtClock(a, t.Clock()), AtClock(b, u.Clock()));
    if DayNumber(a) == DayNumber(b) {
      DayNumberOrder(a, b);
    }
  }

  /** The exceptional case is real: a month after Jan 30 23:00 and Jan 31 01:00 of a common year. */
  lemma OrderLost()
    ensures var (t, u) := (DateTime(2023, 1, 30, 23, 0, 0, 0), DateTime(2023, 1, 31, 1, 0, 0, 0));
            && t.Valid() && u.Valid() && t.Instant() < u.Instant()
            && Sum(t, Months(1)).Instant() > Sum(u, Months(1)).Instant()
  {
    var (t, u) := (DateTime(2023, 1, 30, 23, 0, 0, 0), DateTime(2023, 1, 31, 1, 0, 0, 0));
    hide Sum, AtClock, DaysIn, Shift, MonthStart, LengthAfter;
    Lengths2023();
    assert DayNumber(t.DateOf()) + 1 == DayNumber(u.DateOf());
    ShiftLength(t.DateOf(), 1);
    ShiftLength(u.DateOf(), 1);
    var (a, b) := (Shift(t.DateOf(), 1), Shift(u.DateOf(), 1));
    MonthIndexInverse(a.year, a.month);
    MonthIndexInverse(b.year, b.month);
    OrderKept(t, u, Months(1));
  }

  lemma Lengths2023()
    ensures DaysIn(2023, 1) == 31
    ensures forall day :: LengthAfter(Date(2023, 1, day), 1) == 28
  {
    assert MonthIndex(2023, 1) + 1 == MonthIndex(2023, 2);
    MonthIndexInverse(2023, 2);
  }
}
