/** types.py: durations of decimal components. */
module Durations {
  import opened Decimals

  datatype DateDuration = DateDuration(years: Dec, months: Dec, days: Dec, weeks: Dec)
  {
    function Negate(): DateDuration {
      DateDuration(years.Times(-1), months.Times(-1), days.Times(-1), weeks.Times(-1))
    }
  }

  datatype TimeDuration = TimeDuration(hours: Dec, minutes: Dec, seconds: Dec)
  {
    function Negate(): TimeDuration {
      TimeDuration(hours.Times(-1), minutes.Times(-1), seconds.Times(-1))
    }
  }

  const NO_DATE := DateDuration(ZERO, ZERO, ZERO, ZERO)
  const NO_TIME := TimeDuration(ZERO, ZERO, ZERO)

  datatype Duration = Duration(date: DateDuration, time: TimeDuration)
  {
    function Negate(): Duration {
      Duration(date.Negate(), time.Negate())
    }

    /** The order of `__iter__`; `__reversed__` lists the same components backwards. */
    function Components(): (components: seq<Dec>)
      ensures |components| == 7
    {
      [date.years, date.months, date.days, date.weeks, time.hours, time.minutes, time.seconds]
    }

    /** Equality of values, component by component. */
    predicate Equals(other: Duration) {
      forall i :: 0 <= i < 7 ==> Components()[i].Equals(other.Components()[i])
    }
  }

  datatype Error =
    | EmptyDuration | IncorrectDesignator | NoTime | UnknownToken | UnparseableValue | InvalidFractional
    | WeeksMixed

  datatype Result<+T> = Ok(value: T) | Err(error: Error)
}
