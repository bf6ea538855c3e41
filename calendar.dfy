/**
 * The proleptic Gregorian calendar over whole days, as .NET's DateTime uses it.
 *
 * A date is a day number: the count of days since 1970-01-01 (the Unix epoch),
 * negative before it. A month index `t = 12 * year + (month - 1)` numbers the
 * months consecutively; `MonthStart(t)` is the day number of the first day of
 * month `t`. Converting a day number back to a civil date searches one
 * 400-year era (4800 months, 146097 days) for the month that contains it.
 */
module Calendar {
  import opened Wrappers

  type Date = int

  /** `DateTimeOffset.UnixEpoch`, 1970-01-01. */
  const UnixEpoch: Date := 0

  /** `default(DateTimeOffset)`, 0001-01-01 (= `DateTimeOffset.MinValue`). */
  const DefaultDate: Date := -719162


  datatype Civil = Civil(year: int, month: int, day: int)

  function Min(a: int, b: int): int { if a <= b then a else b }

  predicate IsLeapYear(y: int) {
    y % 4 == 0 && (y % 100 != 0 || y % 400 == 0)
  }

  function DaysInMonth(y: int, m: int): (n: int)
    requires 1 <= m <= 12
    ensures 28 <= n <= 31
  {
    if m == 2 then (if IsLeapYear(y) then 29 else 28)
    else if m == 4 || m == 6 || m == 9 || m == 11 then 30
    else 31
  }

  predicate ValidCivil(c: Civil) {
    1 <= c.month <= 12 && 1 <= c.day <= DaysInMonth(c.year, c.month)
  }

  function DaysInYear(y: int): int { if IsLeapYear(y) then 366 else 365 }

  /** Day number of January 1 of year `y`, counted year by year from 1970. */
  function YearStart(y: int): int
    decreases if y < 1970 then 1970 - y else y - 1970
  {
    if y == 1970 then 0
    else if y > 1970 then YearStart(y - 1) + DaysInYear(y - 1)
    else YearStart(y + 1) - DaysInYear(y)
  }

  /** Days of year `y` that come before the first of month `m`. */
  function DaysBeforeMonth(y: int, m: int): int
    requires 1 <= m <= 12
  {
    var common :=
      if m == 1 then 0 else if m == 2 then 31 else if m == 3 then 59
      else if m == 4 then 90 else if m == 5 then 120 else if m == 6 then 151
      else if m == 7 then 181 else if m == 8 then 212 else if m == 9 then 243
      else if m == 10 then 273 else if m == 11 then 304 else 334;
    common + (if m > 2 && IsLeapYear(y) then 1 else 0)
  }

  /** The number of days of month index `t`. */
  function MonthDays(t: int): (n: int)
    ensures 28 <= n <= 31
  {
    DaysInMonth(t / 12, t % 12 + 1)
  }

  /** Day number of the first day of month index `t`, counted month by month from January 1970. */
  function MonthStart(t: int): int
    decreases if t < 23640 then 23640 - t else t - 23640
  {
    if t == 23640 then 0
    else if t > 23640 then MonthStart(t - 1) + MonthDays(t - 1)
    else MonthStart(t + 1) - MonthDays(t)
  }

  function MonthIndex(c: Civil): int { 12 * c.year + c.month - 1 }

  function FromCivil(c: Civil): Date
    requires 1 <= c.month <= 12
  {
    MonthStart(MonthIndex(c)) + c.day - 1
  }

  lemma Div4(y: int)
    ensures (y + 4) / 4 - (y + 3) / 4 == (if y % 4 == 0 then 1 else 0)
  {}
  lemma Div100(y: int)
    ensures (y + 100) / 100 - (y + 99) / 100 == (if y % 100 == 0 then 1 else 0)
  {}
  lemma Div400(y: int)
    ensures (y + 400) / 400 - (y + 399) / 400 == (if y % 400 == 0 then 1 else 0)
  {}

  lemma ModChain(y: int)
    ensures y % 400 == 0 ==> y % 100 == 0
    ensures y % 100 == 0 ==> y % 4 == 0
  {
    if y % 400 == 0 {
      assert y == 400 * (y / 400);
    }
    if y % 100 == 0 {
      assert y == 100 * (y / 100);
    }
  }

  /** The closed form of the year start: 365 days a year plus the leap days before it. */
  function LeapFormula(y: int): int {
    365 * y + (y + 3) / 4 - (y + 99) / 100 + (y + 399) / 400 - 719528
  }

  lemma FormulaStep(y: int)
    ensures LeapFormula(y + 1) == LeapFormula(y) + DaysInYear(y)
  {
    Div4(y);
    Div100(y);
    Div400(y);
    ModChain(y);
  }

  lemma {:induction false} YearStartClosed(y: int)
    ensures YearStart(y) == LeapFormula(y)
    decreases if y < 1970 then 1970 - y else y - 1970
  {
    if y > 1970 {
      YearStartClosed(y - 1);
      FormulaStep(y - 1);
    } else if y < 1970 {
      YearStartClosed(y + 1);
      FormulaStep(y);
    }
  }

  /** Shifting a year by 400 keeps its leap status and shifts its start by 146097 days. */
  lemma YearShift(y: int)
    ensures YearStart(y + 400) == YearStart(y) + 146097
    ensures IsLeapYear(y + 400) == IsLeapYear(y)
  {
    YearStartClosed(y);
    YearStartClosed(y + 400);
    assert (y + 400 + 3) / 4 == (y + 3) / 4 + 100;
    assert (y + 400 + 99) / 100 == (y + 99) / 100 + 4;
    assert (y + 400 + 399) / 400 == (y + 399) / 400 + 1;
    assert (y + 400) % 4 == y % 4 && (y + 400) % 100 == y % 100 && (y + 400) % 400 == y % 400;
  }

  /** Consecutive month starts are one month length apart. */
  lemma MonthLength(t: int)
    ensures MonthStart(t + 1) == MonthStart(t) + MonthDays(t)
  {
  }

  lemma MonthDaysAt(y: int, k: int)
    requires 0 <= k < 12
    ensures MonthDays(12 * y + k) == DaysInMonth(y, k + 1)
  {
    assert (12 * y + k) / 12 == y && (12 * y + k) % 12 == k;
  }

  /** The first of month `m` of year `y` falls `DaysBeforeMonth(y, m)` days into the year. */
  lemma {:induction false} MonthStartInYear(y: int, k: int)
    requires 0 <= k < 12
    ensures MonthStart(12 * y + k) == MonthStart(12 * y) + DaysBeforeMonth(y, k + 1)
    decreases k
  {
    if k > 0 {
      MonthStartInYear(y, k - 1);
      MonthLength(12 * y + k - 1);
      MonthDaysAt(y, k - 1);
    }
  }

  /** Twelve months make a year. */
  lemma YearOfMonths(y: int)
    ensures MonthStart(12 * y + 12) == MonthStart(12 * y) + DaysInYear(y)
  {
    MonthStartInYear(y, 11);
    MonthLength(12 * y + 11);
    MonthDaysAt(y, 11);
  }

  /** January of year `y` starts on the year's first day. */
  lemma {:induction false} MonthStartOfYear(y: int)
    ensures MonthStart(12 * y) == YearStart(y)
    decreases if y < 1970 then 1970 - y else y - 1970
  {
    if y > 1970 {
      MonthStartOfYear(y - 1);
      YearOfMonths(y - 1);
    } else if y < 1970 {
      MonthStartOfYear(y + 1);
      YearOfMonths(y);
    }
  }

  /** The closed form of a month start. */
  lemma MonthStartClosed(t: int)
    ensures MonthStart(t) == YearStart(t / 12) + DaysBeforeMonth(t / 12, t % 12 + 1)
  {
    MonthStartInYear(t / 12, t % 12);
    MonthStartOfYear(t / 12);
  }

  /** The calendar repeats every 400 years. */
  lemma EraLength(t: int)
    ensures MonthStart(t + 4800) == MonthStart(t) + 146097
  {
    MonthStartClosed(t);
    MonthStartClosed(t + 4800);
    assert (t + 4800) / 12 == t / 12 + 400 && (t + 4800) % 12 == t % 12;
    YearShift(t / 12);
  }

  lemma {:induction false} EraShift(t: int, q: int)
    ensures MonthStart(t + 4800 * q) == MonthStart(t) + 146097 * q
    decreases if q < 0 then -q else q
  {
    if q > 0 {
      EraShift(t, q - 1);
      EraLength(t + 4800 * (q - 1));
    } else if q < 0 {
      EraShift(t, q + 1);
      EraLength(t + 4800 * q);
    }
  }

  /** Month starts increase with the month index. */
  lemma {:induction false} MonthStartMonotone(t1: int, t2: int)
    requires t1 <= t2
    ensures MonthStart(t1) + 28 * (t2 - t1) <= MonthStart(t2)
    decreases t2 - t1
  {
    if t1 < t2 {
      MonthStartMonotone(t1, t2 - 1);
      MonthLength(t2 - 1);
    }
  }

  /**
   * The month index in `[t, lo + 4800)` whose month contains day `d`, for a
   * day `d` in the 400-year era that starts with month index `lo`.
   */
  function FindMonth(d: Date, lo: int, t: int): (u: int)
    requires lo <= t < lo + 4800 && MonthStart(t) <= d < MonthStart(lo + 4800)
    ensures t <= u < lo + 4800 && MonthStart(u) <= d < MonthStart(u + 1)
    decreases lo + 4800 - t
  {
    if d < MonthStart(t + 1) then t else FindMonth(d, lo, t + 1)
  }

  /** The month index of the month that contains day `d`. */
  function MonthIndexOf(d: Date): (t: int)
    ensures MonthStart(t) <= d < MonthStart(t + 1)
  {
    var q := d / 146097;
    var lo := 23640 + 4800 * q;
    EraShift(23640, q);
    EraLength(lo);
    FindMonth(d, lo, lo)
  }

  /** Only one month contains a given day. */
  lemma MonthIndexUnique(d: Date, t: int)
    requires MonthStart(t) <= d < MonthStart(t + 1)
    ensures MonthIndexOf(d) == t
  {
    var u := MonthIndexOf(d);
    if u < t {
      MonthStartMonotone(u + 1, t);
    } else if t < u {
      MonthStartMonotone(t + 1, u);
    }
  }

  function ToCivil(d: Date): (c: Civil)
    ensures ValidCivil(c) && FromCivil(c) == d
    ensures MonthIndex(c) == MonthIndexOf(d)
  {
    var t := MonthIndexOf(d);
    MonthLength(t);
    assert MonthDays(t) == DaysInMonth(t / 12, t % 12 + 1);
    Civil(t / 12, t % 12 + 1, d - MonthStart(t) + 1)
  }

  function Year(d: Date): int { ToCivil(d).year }
  function Month(d: Date): int { ToCivil(d).month }
  function Day(d: Date): int { ToCivil(d).day }

  /** Converting a valid civil date to a day number and back gives it back. */
  lemma CivilRoundTrip(c: Civil)
    requires ValidCivil(c)
    ensures ToCivil(FromCivil(c)) == c
  {
    var t := MonthIndex(c);
    assert t / 12 == c.year && t % 12 + 1 == c.month;
    MonthLength(t);
    MonthIndexUnique(FromCivil(c), t);
  }

  /** `DateTimeOffset.AddDays` on a whole-day date. */
  function AddDays(d: Date, n: int): Date { d + n }

  /** The civil date `n` months after `c`, its day clamped to the target month's length. */
  function ShiftMonths(c: Civil, n: int): (r: Civil)
    requires ValidCivil(c)
    ensures ValidCivil(r) && MonthIndex(r) == MonthIndex(c) + n
  {
    var t := MonthIndex(c) + n;
    var y, m := t / 12, t % 12 + 1;
    Civil(y, m, Min(c.day, DaysInMonth(y, m)))
  }

  /** The civil date `n` years after `c`; February 29 becomes February 28 in a common year. */
  function ShiftYears(c: Civil, n: int): Civil
    requires ValidCivil(c)
  {
    Civil(c.year + n, c.month, Min(c.day, DaysInMonth(c.year + n, c.month)))
  }

  lemma ShiftYearsIsShiftMonths(c: Civil, n: int)
    requires ValidCivil(c)
    ensures ShiftYears(c, n) == ShiftMonths(c, 12 * n)
  {
    var t := MonthIndex(c) + 12 * n;
    assert t == 12 * (c.year + n) + (c.month - 1);
    assert t / 12 == c.year + n && t % 12 + 1 == c.month;
  }

  /** `DateTime.AddMonths`: move the month by `n` and clamp the day to the target month. */
  function AddMonths(d: Date, n: int): (r: Date)
    ensures MonthIndexOf(r) == MonthIndexOf(d) + n
  {
    var target := ShiftMonths(ToCivil(d), n);
    CivilRoundTrip(target);
    FromCivil(target)
  }

  /** The day of the month survives a month shift unless the target month is shorter. */
  lemma AddMonthsDay(d: Date, n: int)
    ensures var r := AddMonths(d, n);
      Day(r) == Min(Day(d), DaysInMonth(Year(r), Month(r)))
  {
    CivilRoundTrip(ShiftMonths(ToCivil(d), n));
  }

  /** `DateTime.AddYears`: move the year by `n`, clamping February 29. */
  function AddYears(d: Date, n: int): Date {
    FromCivil(ShiftYears(ToCivil(d), n))
  }

  /** Adding years is adding twelve times as many months. */
  lemma AddYearsIsTwelveMonths(d: Date, n: int)
    ensures AddYears(d, n) == AddMonths(d, 12 * n)
  {
    ShiftYearsIsShiftMonths(ToCivil(d), n);
  }

  /** A day in a later month comes after a day in an earlier month. */
  lemma LaterMonthLaterDay(d1: Date, d2: Date)
    requires MonthIndexOf(d1) < MonthIndexOf(d2)
    ensures d1 < d2
  {
    MonthStartMonotone(MonthIndexOf(d1) + 1, MonthIndexOf(d2));
  }

  /** Adding a positive number of months moves strictly forward, a negative one strictly back. */
  lemma AddMonthsDirection(d: Date, n: int)
    ensures n > 0 ==> AddMonths(d, n) > d
    ensures n == 0 ==> AddMonths(d, n) == d
    ensures n < 0 ==> AddMonths(d, n) < d
  {
    var r := AddMonths(d, n);
    if n > 0 {
      LaterMonthLaterDay(d, r);
    } else if n < 0 {
      LaterMonthLaterDay(r, d);
    } else {
      CivilRoundTrip(ToCivil(d));
    }
  }

  /** `DateTimeOffset.CompareTo`: -1, 0 or 1 as `a` is before, equal to or after `b`. */
  function CompareDates(a: Date, b: Date): (c: int)
    ensures c == -1 <==> a < b
    ensures c == 0 <==> a == b
    ensures c == 1 <==> a > b
  {
    if a < b then -1 else if a == b then 0 else 1
  }

  /** `DateTime`'s range: years 1 through 9999. */
  predicate InDateTimeRange(c: Civil) { 1 <= c.year <= 9999 }

  /**
   * `DateTimeOffset.AddMonths` with its range check: a result before year 1
   * or after year 9999 throws `ArgumentOutOfRangeException` for `months`.
   */
  function CheckedAddMonths(d: Date, n: int): (r: Result<Date>)
    ensures r.Success? <==> InDateTimeRange(ShiftMonths(ToCivil(d), n))
    ensures r.Success? ==> r.value == AddMonths(d, n)
    ensures r.Failure? ==> r.error == ArgumentOutOfRangeException("months")
  {
    var target := ShiftMonths(ToCivil(d), n);
    if InDateTimeRange(target) then Success(AddMonths(d, n))
    else Failure(ArgumentOutOfRangeException("months"))
  }

  /** `default(DateTimeOffset)` is January 1 of year 1. */
  lemma DefaultDateIsYearOne()
    ensures ToCivil(DefaultDate) == Civil(1, 1, 1)
  {
    MonthStartOfYear(1);
    YearStartClosed(1);
    assert FromCivil(Civil(1, 1, 1)) == DefaultDate;
    CivilRoundTrip(Civil(1, 1, 1));
  }

  /** The first day after month index 23640 (January 1970) comes after the epoch. */
  lemma AfterEpoch(d: Date)
    requires MonthIndexOf(d) > 23640
    ensures d > UnixEpoch
  {
    MonthStartMonotone(23640, MonthIndexOf(d));
  }

  /** A day in a later year comes after a day in an earlier year. */
  lemma LaterYearLaterDay(d1: Date, d2: Date)
    requires Year(d1) < Year(d2)
    ensures d1 < d2
  {
    LaterMonthLaterDay(d1, d2);
  }

  /** Moving within a month changes only the day of the month. */
  lemma SameMonthOffset(d: Date, k: int)
    requires 1 <= Day(d) + k <= DaysInMonth(Year(d), Month(d))
    ensures ToCivil(d + k) == Civil(Year(d), Month(d), Day(d) + k)
  {
    DayShift(d, ToCivil(d), k);
  }

  /** The day `k` days after day `d`, whose civil date is `c`, within `c`'s month. */
  lemma DayShift(d: Date, c: Civil, k: int)
    requires ValidCivil(c) && FromCivil(c) == d && 1 <= c.day + k <= DaysInMonth(c.year, c.month)
    ensures ToCivil(d + k) == c.(day := c.day + k)
  {
    var t := MonthIndex(c);
    assert t / 12 == c.year && t % 12 + 1 == c.month;
    MonthLength(t);
    assert MonthStart(t) <= d + k < MonthStart(t + 1);
    MonthIndexUnique(d + k, t);
  }

  /** Two days of the same month lie as far apart as their days of the month. */
  lemma SameMonthDistance(d1: Date, d2: Date)
    requires MonthIndexOf(d1) == MonthIndexOf(d2)
    ensures d2 - d1 == Day(d2) - Day(d1)
  {
  }

  /** The month index of a day determines its year and month. */
  lemma CivilOfMonthIndex(d: Date, y: int, m: int)
    requires 1 <= m <= 12 && MonthIndexOf(d) == 12 * y + m - 1
    ensures Year(d) == y && Month(d) == m
  {
    var c := ToCivil(d);
    assert 12 * c.year + c.month == 12 * y + m;
  }
}
