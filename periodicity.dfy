/**
 * The `Periodicity` enumeration of the plant domain. One integer encodes the
 * tier and the magnitude: codes below 101 count days, codes from 101 to 1000
 * count months (the code modulo 100) and codes from 1001 up count years (the
 * code modulo 1000). A C# enum is an open integer type, so any integer is a
 * `Periodicity`; only fifteen of them have names.
 */
module Periodicities {

  newtype Periodicity = int {
    static const None: Periodicity := 0
    static const EachDay: Periodicity := 1
    static const TwoDays: Periodicity := 2
    static const ThreeDays: Periodicity := 3
    static const FourDays: Periodicity := 4
    static const FiveDays: Periodicity := 5
    static const SixDays: Periodicity := 6
    static const EachWeek: Periodicity := 7
    static const TenDays: Periodicity := 10
    static const TwoWeeks: Periodicity := 14
    static const ThreeWeeks: Periodicity := 21
    static const EachMonth: Periodicity := 101
    static const SixMonths: Periodicity := 106
    static const EachYear: Periodicity := 1001
    static const TwoYears: Periodicity := 1002
  }

  /** The fifteen named members of the enumeration. */
  const NamedValues: set<Periodicity> :=
    {0, 1, 2, 3, 4, 5, 6, 7, 10, 14, 21, 101, 106, 1001, 1002}

  predicate IsNamed(p: Periodicity) { p in NamedValues }

  /** The code is in the day tier: below `EachMonth`. */
  predicate IsDayTier(p: Periodicity) { p < Periodicity.EachMonth }

  /** The code is in the month tier: from `EachMonth` up to below `EachYear`. */
  predicate IsMonthTier(p: Periodicity) { Periodicity.EachMonth <= p < Periodicity.EachYear }

  /** The code is in the year tier: `EachYear` and above. */
  predicate IsYearTier(p: Periodicity) { Periodicity.EachYear <= p }

  /**
   * Shifting by one period moves a date strictly forward: a positive day
   * count, or a month or year tier code whose magnitude is not zero.
   */
  predicate Advances(p: Periodicity) {
    if IsDayTier(p) then p > 0
    else if IsMonthTier(p) then p % 100 != 0
    else p % 1000 != 0
  }

  /** Every named periodicity except `None` moves a date forward. */
  lemma NamedAdvances(p: Periodicity)
    requires IsNamed(p)
    ensures Advances(p) <==> p != Periodicity.None
  {
  }
}
