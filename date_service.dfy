/**
 * `DateService`: shifting a date by one period, jumping a schedule's anchor
 * close to a reference date, and finding the next due date of a schedule.
 * Dates are whole days (see `Calendar`).
 */
module DateService {
  import opened Calendar
  import opened Periodicities

  /** `Math.Ceiling(a / (double) b)` on whole numbers, for a divisor of either sign. */
  function CeilDiv(a: int, b: int): (q: int)
    requires b != 0
    ensures b > 0 ==> q * b >= a && (q - 1) * b < a
    ensures b < 0 ==> q * b <= a && (q - 1) * b > a
  {
    if b > 0 then -((-a) / b) else -(a / (-b))
  }

  /**
   * `ShiftDateToPeriodicity`: add the code in days below `EachMonth`, the
   * code modulo 100 in months below `EachYear`, and the code modulo 1000 in
   * years from there up.
   */
  function ShiftDateToPeriodicity(p: Periodicity, d: Date): (r: Date)
    ensures IsDayTier(p) ==> r == d + p as int
    ensures IsMonthTier(p) ==> MonthIndexOf(r) == MonthIndexOf(d) + p as int % 100
    ensures IsYearTier(p) ==> r == AddMonths(d, 12 * (p as int % 1000))
    ensures r > d <==> Advances(p)
    ensures p == Periodicity.None ==> r == d
  {
    if p < Periodicity.EachMonth then
      AddDays(d, p as int)
    else if p < Periodicity.EachYear then
      AddMonthsDirection(d, p as int % 100);
      AddMonths(d, p as int % 100)
    else
      AddYearsIsTwelveMonths(d, p as int % 1000);
      AddMonthsDirection(d, 12 * (p as int % 1000));
      AddYears(d, p as int % 1000)
  }

  /**
   * `ShiftPlantStartToFromDate`: a first guess at the schedule's first
   * occurrence at or after `start`. The month tier adds twelve months per
   * year of difference only (its month terms cancel), and the year tier adds
   * one year per year of difference whatever the code's magnitude.
   */
  function ShiftPlantStartToFromDate(p: Periodicity, start: Date, plantStart: Date): (r: Date)
    ensures start <= plantStart || p == Periodicity.None ==> r == plantStart
  {
    if start <= plantStart || p == Periodicity.None then plantStart
    else if p < Periodicity.EachMonth then DayTierJump(p as int, start, plantStart)
    else if p < Periodicity.EachYear then
      AddMonths(plantStart, (Year(start) - Year(plantStart)) * 12 + Month(start) - Month(start))
    else
      AddYears(plantStart, Year(start) - Year(plantStart))
  }

  /** The day-tier branch of `ShiftPlantStartToFromDate`, for a period of `n` days. */
  function DayTierJump(n: int, start: Date, plantStart: Date): Date
    requires n != 0
  {
    var days := start - plantStart;
    var plantActionStart := CeilDiv(days, n);
    if plantActionStart == 0 then start
    else if days < n then AddDays(start, n - days)
    else AddDays(plantStart, plantActionStart * n)
  }

  /** The first of `d`, `Shift(d)`, `Shift(Shift(d))`, ... that is at or after `start`. */
  function AdvanceToStart(p: Periodicity, d: Date, start: Date): (r: Date)
    requires Advances(p)
    ensures r >= start && r >= d
    ensures d >= start ==> r == d
    decreases start - d
  {
    if d >= start then d else AdvanceToStart(p, ShiftDateToPeriodicity(p, d), start)
  }

  /** The schedule is switched off or a date is unset: `GetNextDate` returns the epoch. */
  predicate Inactive(p: Periodicity, start: Date, plantStart: Date) {
    p == Periodicity.None || start == DefaultDate || plantStart == DefaultDate
    || start == UnixEpoch || plantStart == UnixEpoch
  }

  /** What `GetNextDate` computes, for use in functions and lemmas. */
  function NextDate(p: Periodicity, start: Date, plantStart: Date): Date
    requires p == Periodicity.None || Advances(p)
  {
    if Inactive(p, start, plantStart) then UnixEpoch
    else
      var seed := if plantStart < start then ShiftPlantStartToFromDate(p, start, plantStart) else plantStart;
      AdvanceToStart(p, seed, start)
  }

  /**
   * `GetNextDate`: the epoch for an inactive schedule; otherwise the anchor
   * jumped towards `start` and then shifted one period at a time until it is
   * no longer before `start`. The source loops forever on a code that does
   * not move a date forward; such codes are excluded.
   */
  method GetNextDate(p: Periodicity, start: Date, plantStart: Date) returns (r: Date)
    requires p == Periodicity.None || Advances(p)
    ensures r == NextDate(p, start, plantStart)
  {
    if p == Periodicity.None || start == DefaultDate || plantStart == DefaultDate
       || start == UnixEpoch || plantStart == UnixEpoch {
      return UnixEpoch;
    }
    var nextDate := plantStart;
    if nextDate < start {
      nextDate := ShiftPlantStartToFromDate(p, start, nextDate);
    }
    ghost var seed := nextDate;
    while nextDate < start
      invariant AdvanceToStart(p, nextDate, start) == AdvanceToStart(p, seed, start)
      decreases start - nextDate
    {
      nextDate := ShiftDateToPeriodicity(p, nextDate);
    }
    return nextDate;
  }

  /** An inactive schedule gives the epoch sentinel. */
  lemma NextDateInactive(p: Periodicity, start: Date, plantStart: Date)
    requires p == Periodicity.None || Advances(p)
    requires Inactive(p, start, plantStart)
    ensures NextDate(p, start, plantStart) == UnixEpoch
  {
  }

  /** An active schedule's next date is never before `start`, and is the anchor itself when that is not before `start`. */
  lemma NextDateAtOrAfterStart(p: Periodicity, start: Date, plantStart: Date)
    requires p == Periodicity.None || Advances(p)
    requires !Inactive(p, start, plantStart)
    ensures NextDate(p, start, plantStart) >= start
    ensures plantStart >= start ==> NextDate(p, start, plantStart) == plantStart
  {
  }

  /**
   * Day tier: the jump from an anchor before `start` lands on the first
   * anchor-plus-a-multiple-of-the-period at or after `start`; the
   * `days < period` branch gives the same value as the general one.
   */
  lemma DayTierShortcut(p: Periodicity, start: Date, plantStart: Date)
    requires 0 < p < Periodicity.EachMonth && plantStart < start
    ensures var k := CeilDiv(start - plantStart, p as int);
      k >= 1 && ShiftPlantStartToFromDate(p, start, plantStart) == plantStart + k * p as int
    ensures start <= ShiftPlantStartToFromDate(p, start, plantStart) < start + p as int
  {
    var days, n := start - plantStart, p as int;
    var k := CeilDiv(days, n);
    assert k * n >= days > 0 && (k - 1) * n < days;
    FactorBound(k, n, 0);
    assert (k - 1) * n == k * n - n;
    if days < n {
      FactorBound(k - 1, n, 0);
      assert k == 1;
    }
    assert ShiftPlantStartToFromDate(p, start, plantStart) == DayTierJump(n, start, plantStart);
  }

  /** A multiple of a positive `n` that exceeds `m * n` has a factor above `m`. */
  lemma FactorBound(a: int, n: int, m: int)
    requires n > 0
    ensures a * n > m * n ==> a > m
    ensures a * n < n * (m + 1) ==> a <= m
  {
    if a <= m {
      assert a * n <= m * n;
    } else {
      assert a * n >= (m + 1) * n;
    }
  }

  /** Day tier: `GetNextDate` is the least anchor-plus-a-multiple-of-the-period at or after `start`. */
  lemma NextDateDayTier(p: Periodicity, start: Date, plantStart: Date)
    requires 0 < p < Periodicity.EachMonth && !Inactive(p, start, plantStart)
    ensures var k := if plantStart >= start then 0 else CeilDiv(start - plantStart, p as int);
      var r := NextDate(p, start, plantStart);
      k >= 0 && r == plantStart + k * p as int && r >= start && (k == 0 || r - p as int < start)
  {
    if plantStart < start {
      DayTierShortcut(p, start, plantStart);
    }
  }

  /** Month tier: the jump adds exactly twelve months per year of difference. */
  lemma MonthTierShortcut(p: Periodicity, start: Date, plantStart: Date)
    requires IsMonthTier(p) && plantStart < start
    ensures ShiftPlantStartToFromDate(p, start, plantStart)
      == AddMonths(plantStart, 12 * (Year(start) - Year(plantStart)))
  {
    var dy, m := Year(start) - Year(plantStart), Month(start);
    assert ShiftPlantStartToFromDate(p, start, plantStart) == AddMonths(plantStart, dy * 12 + m - m);
    assert dy * 12 + m - m == 12 * dy;
  }

  /** Year tier: the jump adds the year difference, whatever the code's magnitude. */
  lemma YearTierShortcut(p: Periodicity, start: Date, plantStart: Date)
    requires IsYearTier(p) && plantStart < start
    ensures ShiftPlantStartToFromDate(p, start, plantStart)
      == AddMonths(plantStart, 12 * (Year(start) - Year(plantStart)))
  {
    var dy := Year(start) - Year(plantStart);
    assert ShiftPlantStartToFromDate(p, start, plantStart) == AddYears(plantStart, dy);
    AddYearsIsTwelveMonths(plantStart, dy);
  }

  /**
   * The library's example (in the year 2020): ten-day schedule anchored on
   * December 1, reference date December 16; the jump lands on December 21.
   */
  lemma TenDaysExample(y: int, start: Date, plantStart: Date)
    requires ToCivil(plantStart) == Civil(y, 12, 1) && ToCivil(start) == Civil(y, 12, 16)
    ensures ToCivil(ShiftPlantStartToFromDate(Periodicity.TenDays, start, plantStart)) == Civil(y, 12, 21)
  {
    SameMonthApart(y, 12, 1, 16, plantStart, start);
    TenDaysJump(start, plantStart);
    SameMonthLater(y, 12, 1, 20, plantStart);
  }

  lemma SameMonthLater(y: int, m: int, a: int, k: int, d: Date)
    requires 1 <= m <= 12 && 1 <= a + k <= DaysInMonth(y, m)
    requires ToCivil(d) == Civil(y, m, a)
    ensures ToCivil(d + k) == Civil(y, m, a + k)
  {
    SameMonthOffset(d, k);
  }

  lemma SameMonthApart(y: int, m: int, a: int, b: int, d1: Date, d2: Date)
    requires 1 <= m <= 12
    requires ToCivil(d1) == Civil(y, m, a) && ToCivil(d2) == Civil(y, m, b)
    ensures d2 == d1 + (b - a)
  {
    SameMonthDistance(d1, d2);
  }

  /** Fifteen days after a ten-day anchor, the jump lands twenty days after it. */
  lemma TenDaysJump(start: Date, plantStart: Date)
    requires start == plantStart + 15
    ensures ShiftPlantStartToFromDate(Periodicity.TenDays, start, plantStart) == plantStart + 20
  {
    assert CeilDiv(15, 10) == 2;
  }

  /**
   * The month-tier jump ignores the months of the difference: a monthly
   * schedule anchored on November 15 and a reference date of January 10 of
   * the next year give November 15 of that next year, although shifting the
   * anchor month by month already reaches January 15, a date at or after the
   * reference date and before the result.
   */
  lemma MonthlyJumpOvershoots(y: int, start: Date, plantStart: Date)
    requires y >= 1970
    requires ToCivil(plantStart) == Civil(y, 11, 15) && ToCivil(start) == Civil(y + 1, 1, 10)
    ensures ToCivil(NextDate(Periodicity.EachMonth, start, plantStart)) == Civil(y + 1, 11, 15)
    ensures var twice := ShiftDateToPeriodicity(Periodicity.EachMonth,
                           ShiftDateToPeriodicity(Periodicity.EachMonth, plantStart));
      ToCivil(twice) == Civil(y + 1, 1, 15) && start <= twice < NextDate(Periodicity.EachMonth, start, plantStart)
  {
    var jump := MonthlyJump(y, start, plantStart);
    var twice := MonthlyTwice(y, start, plantStart);
    LaterMonthLaterDay(twice, jump);
  }

  /** The next date in `MonthlyJumpOvershoots`: twelve months after the anchor. */
  lemma MonthlyJump(y: int, start: Date, plantStart: Date) returns (jump: Date)
    requires y >= 1970
    requires ToCivil(plantStart) == Civil(y, 11, 15) && ToCivil(start) == Civil(y + 1, 1, 10)
    ensures jump == NextDate(Periodicity.EachMonth, start, plantStart)
    ensures ToCivil(jump) == Civil(y + 1, 11, 15)
    ensures MonthIndexOf(jump) == MonthIndexOf(start) + 10
  {
    AfterEpoch(plantStart);
    AfterEpoch(start);
    MonthlyJumpTarget(y, start, plantStart);
    MonthlyJumpCivil(y, plantStart);
    jump := AddMonths(plantStart, 12);
    LaterMonthLaterDay(start, jump);
  }

  lemma MonthlyJumpTarget(y: int, start: Date, plantStart: Date)
    requires ToCivil(plantStart) == Civil(y, 11, 15) && ToCivil(start) == Civil(y + 1, 1, 10)
    ensures ShiftPlantStartToFromDate(Periodicity.EachMonth, start, plantStart) == AddMonths(plantStart, 12)
  {
    LaterMonthLaterDay(plantStart, start);
    MonthTierShortcut(Periodicity.EachMonth, start, plantStart);
    assert 12 * (Year(start) - Year(plantStart)) == 12;
  }

  lemma MonthlyJumpCivil(y: int, plantStart: Date)
    requires ToCivil(plantStart) == Civil(y, 11, 15)
    ensures ToCivil(AddMonths(plantStart, 12)) == Civil(y + 1, 11, 15)
  {
    var r := AddMonths(plantStart, 12);
    assert MonthIndexOf(plantStart) == 12 * y + 10;
    CivilOfMonthIndex(r, y + 1, 11);
    assert Day(r) == 15;
  }

  /** Two monthly shifts of the anchor in `MonthlyJumpOvershoots`: January 15. */
  lemma MonthlyTwice(y: int, start: Date, plantStart: Date) returns (twice: Date)
    requires ToCivil(plantStart) == Civil(y, 11, 15) && ToCivil(start) == Civil(y + 1, 1, 10)
    ensures twice == ShiftDateToPeriodicity(Periodicity.EachMonth,
                       ShiftDateToPeriodicity(Periodicity.EachMonth, plantStart))
    ensures ToCivil(twice) == Civil(y + 1, 1, 15) && twice == start + 5
  {
    var p := Periodicity.EachMonth;
    var once := ShiftDateToPeriodicity(p, plantStart);
    MonthlyStep(plantStart);
    twice := ShiftDateToPeriodicity(p, once);
    MonthlyStep(once);
    assert MonthIndexOf(twice) == MonthIndexOf(start);
    CivilOfMonthIndex(twice, y + 1, 1);
    SameMonthDistance(start, twice);
  }

  /** A monthly shift of a day no later than the 28th keeps the day of the month. */
  lemma MonthlyStep(d: Date)
    requires Day(d) <= 28
    ensures var r := ShiftDateToPeriodicity(Periodicity.EachMonth, d);
      MonthIndexOf(r) == MonthIndexOf(d) + 1 && Day(r) == Day(d)
  {
    var p := Periodicity.EachMonth;
    var k := p as int % 100;
    assert k == 1;
    MonthTierShift(p, d);
    var r := AddMonths(d, k);
    assert DaysInMonth(Year(r), Month(r)) >= 28;
  }

  lemma MonthTierShift(p: Periodicity, d: Date)
    requires IsMonthTier(p)
    ensures ShiftDateToPeriodicity(p, d) == AddMonths(d, p as int % 100)
  {
  }
}
