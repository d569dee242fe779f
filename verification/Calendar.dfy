/** The proleptic Gregorian calendar: an independent day count, and the floor arithmetic of
    operations/util.py measured against it. */
module Calendar {

  // ---------------------------------------------------------------------------------------------
  // The reference calendar. Months are also numbered through, month 0 being January of year 0.

  datatype Date = Date(year: int, month: int, day: int)

  predicate IsLeap(year: int) {
    year % 4 == 0 && (year % 100 != 0 || year % 400 == 0)
  }

  function DaysIn(year: int, month: int): (days: int)
    ensures 28 <= days <= 31
  {
    if month == 2 then (if IsLeap(year) then 29 else 28)
    else if month == 4 || month == 6 || month == 9 || month == 11 then 30
    else 31
  }

  predicate ValidDate(date: Date) {
    1 <= date.month <= 12 && 1 <= date.day <= DaysIn(date.year, date.month)
  }

  function DaysBeforeYear(year: int): int {
    365 * (year - 1) + (year - 1) / 4 - (year - 1) / 100 + (year - 1) / 400
  }

  const DAYS_BEFORE_MONTH: seq<int> := [0, 31, 59, 90, 120, 151, 181, 212, 243, 273, 304, 334]

  /** The number of days before a month, in closed form. */
  function DaysBefore(year: int, month: int): int
    requires 1 <= month <= 12
  {
    DaysBeforeYear(year) + DAYS_BEFORE_MONTH[month - 1] + (if month > 2 && IsLeap(year) then 1 else 0)
  }

  /** 0001-01-01 is day 1. */
  function DayNumber(date: Date): int
    requires 1 <= date.month <= 12
  {
    DaysBefore(date.year, date.month) + date.day
  }

  function MonthIndex(year: int, month: int): int {
    12 * year + month - 1
  }

  function MonthLength(index: int): (days: int)
    ensures 28 <= days <= 31
  {
    DaysIn(index / 12, index % 12 + 1)
  }

  function MonthStart(index: int): int {
    DaysBefore(index / 12, index % 12 + 1)
  }

  lemma DivModUnique(n: int, d: int, q: int, r: int)
    requires d > 0 && n == q * d + r && 0 <= r < d
    ensures n / d == q && n % d == r
  {
    var k := n / d - q;
    assert k * d == r - n % d by {
      assert n == d * (n / d) + n % d;
      assert d * (n / d) - q * d == k * d;
    }
    if k >= 1 {
      MulAtLeast(k, d);
      assert false;
    } else if k <= -1 {
      MulAtLeast(-k, d);
      assert false;
    }
  }

  lemma MulAtLeast(k: int, d: int)
    requires k >= 1 && d > 0
    ensures k * d >= d
  {
  }

  lemma MonthIndexInverse(year: int, month: int)
    requires 1 <= month <= 12
    ensures MonthIndex(year, month) / 12 == year && MonthIndex(year, month) % 12 + 1 == month
    ensures MonthLength(MonthIndex(year, month)) == DaysIn(year, month)
    ensures MonthStart(MonthIndex(year, month)) == DaysBefore(year, month)
  {
    DivModUnique(MonthIndex(year, month), 12, year, month - 1);
  }

  lemma QuotientStep(n: int, d: int)
    requires d > 1
    ensures n / d == (n - 1) / d + (if n % d == 0 then 1 else 0)
  {
    if n % d == 0 {
      assert n - 1 == (n / d - 1) * d + (d - 1);
      DivModUnique(n - 1, d, n / d - 1, d - 1);
    } else {
      DivModUnique(n - 1, d, n / d, n % d - 1);
    }
  }

  lemma LeapCycle(year: int)
    ensures year % 400 == 0 ==> year % 100 == 0
    ensures year % 100 == 0 ==> year % 4 == 0
  {
    if year % 400 == 0 {
      DivModUnique(year, 100, 4 * (year / 400), 0);
    }
    if year % 100 == 0 {
      DivModUnique(year, 4, 25 * (year / 100), 0);
    }
  }

  lemma YearLength(year: int)
    ensures DaysBeforeYear(year + 1) == DaysBeforeYear(year) + (if IsLeap(year) then 366 else 365)
  {
    QuotientStep(year, 4);
    QuotientStep(year, 100);
    QuotientStep(year, 400);
    LeapCycle(year);
  }

  lemma DaysBeforeStep(year: int, month: int)
    requires 1 <= month <= 12
    ensures DaysBefore(year, month) + DaysIn(year, month) ==
            if month < 12 then DaysBefore(year, month + 1) else DaysBefore(year + 1, 1)
  {
    if month == 12 {
      YearLength(year);
    }
  }

  /** The closed form is right: a month starts where the one before it ends. */
  lemma MonthStartStep(index: int)
    ensures MonthStart(index + 1) == MonthStart(index) + MonthLength(index)
  {
    hide DaysIn, DaysBefore;
    var (year, month) := (index / 12, index % 12 + 1);
    if month < 12 {
      DivModUnique(index + 1, 12, year, month);
    } else {
      DivModUnique(index + 1, 12, year + 1, 0);
    }
    DaysBeforeStep(year, month);
  }

  lemma {:induction false} MonthStartMonotone(i: int, j: int)
    requires i < j
    ensures MonthStart(i) + MonthLength(i) <= MonthStart(j)
    decreases j - i
  {
    hide *;
    MonthStartStep(i);
    if i + 1 < j {
      MonthStartMonotone(i + 1, j);
    }
  }

  /** Day numbers order valid dates exactly as the calendar does, so they identify them. */
  lemma DayNumberOrder(a: Date, b: Date)
    requires ValidDate(a) && ValidDate(b)
    ensures DayNumber(a) < DayNumber(b) <==>
              MonthIndex(a.year, a.month) < MonthIndex(b.year, b.month)
              || (MonthIndex(a.year, a.month) == MonthIndex(b.year, b.month) && a.day < b.day)
    ensures DayNumber(a) == DayNumber(b) ==> a == b
  {
    hide DaysIn, DaysBefore, MonthLength, MonthStart;
    var (i, j) := (MonthIndex(a.year, a.month), MonthIndex(b.year, b.month));
    MonthIndexInverse(a.year, a.month);
    MonthIndexInverse(b.year, b.month);
    if i < j {
      MonthStartMonotone(i, j);
    } else if j < i {
      MonthStartMonotone(j, i);
    }
  }

  // ---------------------------------------------------------------------------------------------
  // operations/util.py

  function Quot2(dividend: int, divisor: int): int
    requires divisor > 0
  {
    dividend / divisor
  }

  function Mod2(dividend: int, divisor: int): int
    requires divisor > 0
  {
    dividend - Quot2(dividend, divisor) * divisor
  }

  function Quot3(value: int, low: int, high: int): int
    requires low < high
  {
    Quot2(value - low, high - low)
  }

  function Mod3(value: int, low: int, high: int): int
    requires low < high
  {
    Mod2(value - low, high - low) + low
  }

  /** Any whole `month` is accepted: 0 is December of the year before, 13 January of the year after. */
  function MaxDayInMonth(year: int, month: int): int {
    var normMonth := Mod3(month, 1, 13);
    var normYear := year + Quot3(month, 1, 13);
    if normMonth in {1, 3, 5, 7, 8, 10, 12} then 31
    else if normMonth in {4, 6, 9, 11} then 30
    else
      var isLeapYear := Mod2(normYear, 400) == 0 || (Mod2(normYear, 100) != 0 && Mod2(normYear, 4) == 0);
      if normMonth == 2 && isLeapYear then 29 else 28
  }

  lemma Split2(n: int, d: int)
    requires d > 0
    ensures n == Quot2(n, d) * d + Mod2(n, d) && 0 <= Mod2(n, d) < d
    ensures Quot2(n, d) == n / d && Mod2(n, d) == n % d
  {
  }

  /** mod3/quot3 with bounds 1 and 13 split a month number into a year carry and a calendar month. */
  lemma MonthSplit(year: int, month: int)
    ensures 1 <= Mod3(month, 1, 13) <= 12
    ensures MonthIndex(year + Quot3(month, 1, 13), Mod3(month, 1, 13)) == MonthIndex(year, month)
  {
    hide Mod2, Quot2;
    Split2(month - 1, 12);
  }

  lemma LeapAgrees(year: int)
    ensures IsLeap(year) <==> Mod2(year, 400) == 0 || (Mod2(year, 100) != 0 && Mod2(year, 4) == 0)
  {
    hide Mod2;
    Split2(year, 400);
    Split2(year, 100);
    Split2(year, 4);
    LeapCycle(year);
  }

  /** max_day_in_month computes the Gregorian month length, for a month number of any size and sign. */
  lemma MaxDayIsMonthLength(year: int, month: int)
    ensures MaxDayInMonth(year, month) == MonthLength(MonthIndex(year, month))
  {
    hide Mod3, Quot3, Mod2, IsLeap, MonthIndex, MonthLength;
    var (normYear, normMonth) := (year + Quot3(month, 1, 13), Mod3(month, 1, 13));
    MonthSplit(year, month);
    MonthIndexInverse(normYear, normMonth);
    LeapAgrees(normYear);
  }
}
