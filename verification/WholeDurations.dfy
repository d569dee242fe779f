/** Durations of decimal components as the whole-numbered durations that are added to date-times. */
module WholeDurations {
  import opened Decimals
  import opened Wrappers
  import opened Durations
  import opened Addition
  import AdditionLaws
  import Numbers
  import Parser
  import Formatter
  import RoundTrip

  /** The value of an integer, if it is one. */
  function Whole(d: Dec): Option<int> {
    if d.exp >= 0 then Some(d.coef * Pow10(d.exp))
    else if Abs(d.coef) % Pow10(-d.exp) == 0 then
      var q := Abs(d.coef) / Pow10(-d.exp);
      Some(if d.coef < 0 then -q else q)
    else None
  }

  function Micros(seconds: Dec): Option<int> {
    Whole(Dec(seconds.coef, seconds.exp + 6))
  }

  /** A duration whose components are whole, down to whole microseconds. */
  function SpanOf(d: Duration): Option<Span> {
    var (y, m, w, n) := (Whole(d.date.years), Whole(d.date.months), Whole(d.date.weeks), Whole(d.date.days));
    var (h, mi, us) := (Whole(d.time.hours), Whole(d.time.minutes), Micros(d.time.seconds));
    if y.Some? && m.Some? && w.Some? && n.Some? && h.Some? && mi.Some? && us.Some?
    then Some(Span(y.value, m.value, w.value, n.value, h.value, mi.value, us.value))
    else None
  }

  /** The whole value of a number is the integer it equals. */
  lemma WholeMeaning(d: Dec, k: int)
    ensures Whole(d) == Some(k) <==> d.Equals(Dec(k, 0))
  {
    assert Pow10(0) == 1;
    if d.exp < 0 {
      var p := Pow10(-d.exp);
      assert d.Equals(Dec(k, 0)) <==> d.coef == k * p;
      hide Pow10;
      var q := Abs(d.coef) / p;
      if Abs(d.coef) % p == 0 {
        assert Abs(d.coef) == q * p;
        Numbers.SignedMultiple(d.coef, q, p);
        Numbers.CancelFactor(if d.coef < 0 then -q else q, k, p);
      } else if d.coef == k * p {
        Numbers.MultipleRemainder(d.coef, k, p);
        assert false;
      }
    }
  }

  /** And the microseconds are those it equals as millionths. */
  lemma MicrosMeaning(seconds: Dec, k: int)
    ensures Micros(seconds) == Some(k) <==> seconds.Equals(Dec(k, -6))
  {
    WholeMeaning(Dec(seconds.coef, seconds.exp + 6), k);
  }

  /** What is added for a decimal duration: each component's own value, the seconds in microseconds. */
  lemma SpanMeaning(d: Duration, span: Span)
    ensures SpanOf(d) == Some(span) <==>
            && d.date.years.Equals(Dec(span.years, 0)) && d.date.months.Equals(Dec(span.months, 0))
            && d.date.weeks.Equals(Dec(span.weeks, 0)) && d.date.days.Equals(Dec(span.days, 0))
            && d.time.hours.Equals(Dec(span.hours, 0)) && d.time.minutes.Equals(Dec(span.minutes, 0))
            && d.time.seconds.Equals(Dec(span.micros, -6))
  {
    hide Whole, Micros, Dec.Equals;
    WholeMeaning(d.date.years, span.years);
    WholeMeaning(d.date.months, span.months);
    WholeMeaning(d.date.weeks, span.weeks);
    WholeMeaning(d.date.days, span.days);
    WholeMeaning(d.time.hours, span.hours);
    WholeMeaning(d.time.minutes, span.minutes);
    MicrosMeaning(d.time.seconds, span.micros);
  }

  lemma WholeNegates(d: Dec)
    ensures Whole(d.Times(-1)).Some? <==> Whole(d).Some?
    ensures Whole(d).Some? ==> Whole(d.Times(-1)) == Some(-Whole(d).value)
  {
    hide Pow10;
    if d.exp >= 0 {
      var p := Pow10(d.exp);
      assert (d.coef * -1) * p == -(d.coef * p);
    } else {
      ZeroQuotient(Pow10(-d.exp));
    }
  }

  lemma ZeroQuotient(p: nat)
    requires p > 0
    ensures 0 / p == 0 && 0 % p == 0
  {
  }

  lemma WholeCanon(d: Dec)
    ensures Whole(RoundTrip.CanonDec(d)) == Whole(d)
    ensures Micros(RoundTrip.CanonDec(d)) == Micros(d)
  {
    hide Pow10;
    if d.IsZero() {
      ZeroWhole(d);
      ZeroWhole(ZERO);
      ZeroWhole(Dec(0, d.exp + 6));
      ZeroWhole(Dec(0, 6));
    }
  }

  lemma ZeroWhole(d: Dec)
    requires d.coef == 0
    ensures Whole(d) == Some(0)
  {
    hide Pow10;
    if d.exp < 0 {
      ZeroQuotient(Pow10(-d.exp));
    }
  }

  /** Negating a duration negates what it adds. */
  lemma SpanNegates(d: Duration)
    ensures SpanOf(d.Negate()).Some? <==> SpanOf(d).Some?
    ensures SpanOf(d).Some? ==> SpanOf(d.Negate()) == Some(SpanOf(d).value.Negate())
  {
    hide Whole;
    WholeNegates(d.date.years);
    WholeNegates(d.date.months);
    WholeNegates(d.date.weeks);
    WholeNegates(d.date.days);
    WholeNegates(d.time.hours);
    WholeNegates(d.time.minutes);
    WholeNegates(Dec(d.time.seconds.coef, d.time.seconds.exp + 6));
  }

  /** `(t + d) - d` and `(t - d) + d` are `t` for every whole duration without months. */
  lemma SubtractUndoesAdd(t: DateTime, d: Duration)
    requires t.Valid() && SpanOf(d).Some? && SpanOf(d).value.MonthCount() == 0
    ensures SpanOf(d.Negate()).Some?
    ensures Sum(Sum(t, SpanOf(d).value), SpanOf(d.Negate()).value) == t
    ensures Sum(Sum(t, SpanOf(d.Negate()).value), SpanOf(d).value) == t
  {
    hide SpanOf, Sum;
    SpanNegates(d);
    AdditionLaws.InverseLaw(t, SpanOf(d).value);
  }

  /** A whole duration written out and read in again still adds the same. */
  lemma WrittenAddsTheSame(d: Duration, arrow: string -> Option<Parser.Stamp>)
    requires Formatter.Format(d).Ok? && Parser.FractionalOk(d)
    ensures var back := Parser.Parse(Formatter.Format(d).value, arrow);
            back.Ok? && SpanOf(back.value) == SpanOf(d)
  {
    hide Whole, Micros, RoundTrip.CanonDec, Parser.Parse, Formatter.Format, Parser.FractionalOk;
    RoundTrip.FormatParse(d, arrow);
    WholeCanon(d.date.years);
    WholeCanon(d.date.months);
    WholeCanon(d.date.weeks);
    WholeCanon(d.date.days);
    WholeCanon(d.time.hours);
    WholeCanon(d.time.minutes);
    WholeCanon(d.time.seconds);
  }
}
