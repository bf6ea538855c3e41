/** `PlantHelper`: the dates of a schedule that fall in a half-open range. */
module PlantHelper {
  import opened Calendar
  import opened Periodicities
  import opened DateService

  /** `start`, `Shift(start)`, ... while before `end`; nothing for `None`. */
  function DateRange(p: Periodicity, start: Date, end: Date): (r: seq<Date>)
    requires p == Periodicity.None || Advances(p)
    ensures p == Periodicity.None || end <= start ==> r == []
    ensures p != Periodicity.None && start < end ==> |r| > 0 && r[0] == start
    decreases if p == Periodicity.None then 0 else end - start
  {
    if p == Periodicity.None || end <= start then []
    else [start] + DateRange(p, ShiftDateToPeriodicity(p, start), end)
  }

  /**
   * `CalculateDateRange`: collects the range by shifting `start` one period
   * at a time until it reaches `end`.
   */
  method CalculateDateRange(start: Date, end: Date, p: Periodicity) returns (dates: seq<Date>)
    requires p == Periodicity.None || Advances(p)
    ensures dates == DateRange(p, start, end)
  {
    if p == Periodicity.None {
      return [];
    }
    dates := [];
    var current := start;
    ghost var whole := DateRange(p, start, end);
    assert [] + whole == whole;
    while current < end
      invariant dates + DateRange(p, current, end) == whole
      decreases end - current
    {
      var next := ShiftDateToPeriodicity(p, current);
      DateRangeStep(p, current, end, dates);
      dates := dates + [current];
      current := next;
    }
    assert dates + [] == dates;
  }

  /** One iteration of `CalculateDateRange`: moving `current` to the output keeps the whole range. */
  lemma DateRangeStep(p: Periodicity, current: Date, end: Date, dates: seq<Date>)
    requires Advances(p) && current < end
    ensures var next := ShiftDateToPeriodicity(p, current);
      next > current && (dates + [current]) + DateRange(p, next, end) == dates + DateRange(p, current, end)
  {
    var next := ShiftDateToPeriodicity(p, current);
    assert DateRange(p, current, end) == [current] + DateRange(p, next, end);
  }

  /** Every date of the range lies in `[start, end)`. */
  lemma {:induction false} DateRangeBounds(p: Periodicity, start: Date, end: Date)
    requires p == Periodicity.None || Advances(p)
    ensures forall i :: 0 <= i < |DateRange(p, start, end)| ==> start <= DateRange(p, start, end)[i] < end
    decreases if p == Periodicity.None then 0 else end - start
  {
    if p != Periodicity.None && start < end {
      DateRangeBounds(p, ShiftDateToPeriodicity(p, start), end);
    }
  }

  /**
   * Each date of the range is the previous one shifted by one period, so
   * the range is strictly increasing, and shifting its last date reaches
   * `end` or beyond.
   */
  lemma {:induction false} DateRangeSteps(p: Periodicity, start: Date, end: Date)
    requires p == Periodicity.None || Advances(p)
    ensures var r := DateRange(p, start, end);
      forall i :: 0 < i < |r| ==> r[i] == ShiftDateToPeriodicity(p, r[i - 1]) && r[i - 1] < r[i]
    ensures var r := DateRange(p, start, end);
      |r| > 0 ==> ShiftDateToPeriodicity(p, r[|r| - 1]) >= end
    decreases if p == Periodicity.None then 0 else end - start
  {
    if p != Periodicity.None && start < end {
      var next := ShiftDateToPeriodicity(p, start);
      DateRangeSteps(p, next, end);
      var r, tail := DateRange(p, start, end), DateRange(p, next, end);
      assert r == [start] + tail;
      forall i | 0 < i < |r|
        ensures r[i] == ShiftDateToPeriodicity(p, r[i - 1]) && r[i - 1] < r[i]
      {
        if i == 1 {
          assert r[1] == tail[0] == next;
        } else {
          assert r[i] == tail[i - 1] && r[i - 1] == tail[i - 2];
        }
      }
    }
  }

  /** The last date of the range is its latest. */
  lemma DateRangeLatest(p: Periodicity, start: Date, end: Date, i: int)
    requires p == Periodicity.None || Advances(p)
    requires 0 <= i < |DateRange(p, start, end)|
    ensures DateRange(p, start, end)[i] <= DateRange(p, start, end)[|DateRange(p, start, end)| - 1]
  {
    var r := DateRange(p, start, end);
    assert forall k :: 0 < k < |r| ==> r[k - 1] < r[k] by {
      DateRangeSteps(p, start, end);
    }
    IncreasingLatest(r, i);
  }

  /** No date of the range comes before `start` or after its last. */
  lemma DateRangeLast(p: Periodicity, start: Date, end: Date)
    requires p == Periodicity.None || Advances(p)
    ensures var r := DateRange(p, start, end); forall i :: 0 <= i < |r| ==> start <= r[i] <= r[|r| - 1]
  {
    DateRangeBounds(p, start, end);
    forall i | 0 <= i < |DateRange(p, start, end)| {
      DateRangeLatest(p, start, end, i);
    }
  }

  /** A daily range that is not empty ends the day before `end`. */
  lemma DailyRangeLast(start: Date, end: Date)
    requires start < end
    ensures var r := DateRange(Periodicity.EachDay, start, end); |r| == end - start && r[|r| - 1] == end - 1
  {
    DateRangeDays(Periodicity.EachDay, start, end);
    assert CeilDiv(end - start, 1) == end - start;
  }

  /** In a list that increases step by step, no element exceeds the last. */
  lemma {:induction false} IncreasingLatest(r: seq<Date>, i: int)
    requires forall k :: 0 < k < |r| ==> r[k - 1] < r[k]
    requires 0 <= i < |r|
    ensures r[i] <= r[|r| - 1]
    decreases |r| - i
  {
    if i < |r| - 1 {
      IncreasingLatest(r, i + 1);
      assert r[i] < r[i + 1];
    }
  }

  /**
   * Day tier: the range is `start`, `start + p`, ... — exactly the dates in
   * `[start, end)` that lie a whole number of periods after `start`, and
   * `ceil((end - start) / p)` of them.
   */
  lemma {:induction false} DateRangeDays(p: Periodicity, start: Date, end: Date)
    requires 0 < p < Periodicity.EachMonth
    ensures var r := DateRange(p, start, end);
      |r| == (if start < end then CeilDiv(end - start, p as int) else 0)
      && forall i :: 0 <= i < |r| ==> r[i] == start + i * p as int
    decreases end - start
  {
    var n := p as int;
    if start < end {
      var next := start + n;
      DateRangeDays(p, next, end);
      var r, tail := DateRange(p, start, end), DateRange(p, next, end);
      assert r == [start] + tail;
      forall i | 0 <= i < |r|
        ensures r[i] == start + i * n
      {
        if i > 0 {
          assert r[i] == tail[i - 1] == next + (i - 1) * n;
        }
      }
      CeilDivStep(end - start, n);
    }
  }

  /** `ceil(a / n)` is one more than `ceil((a - n) / n)`, and 1 when `0 < a <= n`. */
  lemma CeilDivStep(a: int, n: int)
    requires 0 < n && 0 < a
    ensures CeilDiv(a, n) == 1 + (if a - n > 0 then CeilDiv(a - n, n) else 0)
  {
    var q := CeilDiv(a, n);
    FactorBound(q, n, 0);
    if a - n > 0 {
      var q2 := CeilDiv(a - n, n);
      assert (q2 + 1) * n >= a && q2 * n < a;
      FactorBound(q, n, q2);
      FactorBound(q2 + 1, n, q - 1);
    } else {
      FactorBound(q - 1, n, 0);
    }
  }

  /** Day tier: a date is in the range exactly when it is in `[start, end)` a whole number of periods after `start`. */
  lemma DateRangeDaysMember(p: Periodicity, start: Date, end: Date, d: Date)
    requires 0 < p < Periodicity.EachMonth
    ensures d in DateRange(p, start, end) <==> start <= d < end && (d - start) % p as int == 0
  {
    if start <= d < end && (d - start) % p as int == 0 {
      DateRangeDaysHas(p, start, end, d);
    }
    if d in DateRange(p, start, end) {
      DateRangeDaysOnGrid(p, start, end, d);
    }
  }

  /** Day tier: every date of `[start, end)` on the grid of `start` is in the range. */
  lemma DateRangeDaysHas(p: Periodicity, start: Date, end: Date, d: Date)
    requires 0 < p < Periodicity.EachMonth
    requires start <= d < end && (d - start) % p as int == 0
    ensures d in DateRange(p, start, end)
  {
    var n := p as int;
    var i := (d - start) / n;
    assert d == start + i * n;
    assert i * n < end - start;
    var c := CeilDiv(end - start, n);
    assert c * n >= end - start;
    FactorBound(i, n, c - 1);
    DateRangeDays(p, start, end);
    assert DateRange(p, start, end)[i] == d;
  }

  /** Day tier: every date of the range is in `[start, end)` on the grid of `start`. */
  lemma DateRangeDaysOnGrid(p: Periodicity, start: Date, end: Date, d: Date)
    requires 0 < p < Periodicity.EachMonth
    requires d in DateRange(p, start, end)
    ensures start <= d < end && (d - start) % p as int == 0
  {
    var n := p as int;
    var r := DateRange(p, start, end);
    var i :| 0 <= i < |r| && r[i] == d;
    DateRangeBounds(p, start, end);
    DateRangeDays(p, start, end);
    assert d - start == i * n;
    ModOfMultiple(i, n);
  }

  /** Euclidean division leaves remainder 0 on a multiple. */
  lemma ModOfMultiple(i: int, n: int)
    requires n > 0
    ensures (i * n) % n == 0
  {
    var a := i * n;
    var q, r := a / n, a % n;
    assert (i - q) * n == r;
    FactorBound(i - q, n, 0);
    FactorBound(i - q, n, -1);
  }
}
