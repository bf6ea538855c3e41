/**
 * `DateTimeExtensions`: the user's local date and time, as UTC-kind values.
 * `ToOffsetUtcTime` reads an instant's clock in a time zone and
 * `ToOffsetUtcDate` truncates that clock to midnight; both return the
 * reading with a zero offset.
 */
module DateTimeExtensions {
  import opened Wrappers

  /** A `DateTime`, as its tick count (100 ns) since 0001-01-01. */
  type DateTime = int

  const TicksPerSecond: int := 10_000_000
  const TicksPerDay: int := 864_000_000_000
  /** 1970-01-01T00:00:00 in ticks. */
  const UnixEpochTicks: DateTime := 621_355_968_000_000_000

  /** A `DateTimeOffset`: the clock reading and the offset from UTC, in ticks. */
  datatype DateTimeOffset = DateTimeOffset(clock: DateTime, offset: int) {
    /** `UtcTicks`: the instant, independent of the offset. */
    function UtcTicks(): int { clock - offset }
  }

  const TicksPerMinute: int := 60 * TicksPerSecond
  /** The widest offset a `DateTimeOffset` accepts: 14 hours either way. */
  const MaxOffset: int := 14 * 60 * TicksPerMinute

  /** An offset that `DateTimeOffset` accepts: whole minutes, within 14 hours of UTC. */
  predicate ValidOffset(offset: int) {
    offset % TicksPerMinute == 0 && -MaxOffset <= offset <= MaxOffset
  }

  /**
   * `ToOffset(offset)`: the same instant, read with another offset. The
   * offset is checked first for whole minutes (`ArgumentException` for
   * `offset`), then for its range (`ArgumentOutOfRangeException`).
   */
  function ToOffset(d: DateTimeOffset, offset: int): (r: Result<DateTimeOffset>)
    ensures r.Success? <==> ValidOffset(offset)
    ensures r.Success? ==> r.value.UtcTicks() == d.UtcTicks() && r.value.offset == offset
    ensures offset % TicksPerMinute != 0 ==> r == Failure(ArgumentException(None, Some("offset")))
    ensures offset % TicksPerMinute == 0 && !ValidOffset(offset) ==> r == Failure(ArgumentOutOfRangeException("offset"))
  {
    if offset % TicksPerMinute != 0 then Failure(ArgumentException(None, Some("offset")))
    else if offset < -MaxOffset || MaxOffset < offset then Failure(ArgumentOutOfRangeException("offset"))
    else Success(DateTimeOffset(d.UtcTicks() + offset, offset))
  }

  /** `DateTime.Date`: the clock reading truncated to midnight. */
  function DateOf(t: DateTime): DateTime {
    t - t % TicksPerDay
  }

  /** `new DateTimeOffset(DateTime.SpecifyKind(date.ToOffset(offset).Date, DateTimeKind.Utc))`. */
  function ToOffsetUtcDate(date: DateTimeOffset, offset: int): (r: Result<DateTimeOffset>)
    ensures r.Failure? ==> r == ToOffset(date, offset)
    ensures r.Success? ==> ValidOffset(offset) && r.value.offset == 0 && r.value.clock % TicksPerDay == 0
  {
    match ToOffset(date, offset)
    case Failure(e) => Failure(e)
    case Success(local) => Success(DateTimeOffset(DateOf(local.clock), 0))
  }

  /** `new DateTimeOffset(DateTime.SpecifyKind(date.ToOffset(offset).DateTime, DateTimeKind.Utc))`. */
  function ToOffsetUtcTime(date: DateTimeOffset, offset: int): (r: Result<DateTimeOffset>)
    ensures r.Failure? ==> r == ToOffset(date, offset)
    ensures r.Success? ==> ValidOffset(offset) && r.value.offset == 0 && r.value.clock == date.UtcTicks() + offset
  {
    match ToOffset(date, offset)
    case Failure(e) => Failure(e)
    case Success(local) => Success(DateTimeOffset(local.clock, 0))
  }

  /** A time zone of a whole day, as `TimeSpan.TryParse("1.00:00:00")` yields, is out of range. */
  lemma WholeDayOffsetThrows(date: DateTimeOffset)
    ensures ToOffsetUtcDate(date, TicksPerDay) == Failure(ArgumentOutOfRangeException("offset"))
    ensures ToOffsetUtcTime(date, TicksPerDay) == Failure(ArgumentOutOfRangeException("offset"))
  {
  }

  /** An offset with seconds in it, such as 00:00:30, is not whole minutes. */
  lemma SecondsOffsetThrows(date: DateTimeOffset)
    ensures ToOffsetUtcDate(date, 30 * TicksPerSecond) == Failure(ArgumentException(None, Some("offset")))
    ensures ToOffsetUtcTime(date, 30 * TicksPerSecond) == Failure(ArgumentException(None, Some("offset")))
  {
  }

  /** The extremes, +14:00 and -14:00, are accepted, and so is a half-hour zone such as +05:30. */
  lemma EdgeOffsetsAccepted(date: DateTimeOffset)
    ensures ToOffsetUtcDate(date, MaxOffset).Success? && ToOffsetUtcDate(date, -MaxOffset).Success?
    ensures ToOffsetUtcTime(date, 330 * TicksPerMinute).Success?
  {
  }

  /** The local date is the midnight that starts the local time's day; both fail alike. */
  lemma DateStartsTime(date: DateTimeOffset, offset: int)
    ensures var d, t := ToOffsetUtcDate(date, offset), ToOffsetUtcTime(date, offset);
      (d.Success? <==> t.Success?)
      && (d.Failure? ==> d == t)
      && (d.Success? ==>
            d.value.clock <= t.value.clock < d.value.clock + TicksPerDay
            && d.value.clock == t.value.clock - t.value.clock % TicksPerDay)
  {
  }

  /** Neither function depends on the offset the instant was given with. */
  lemma OffsetIrrelevant(date: DateTimeOffset, other: int, offset: int)
    ensures var moved := ToOffset(date, other);
      moved.Success? ==>
        ToOffsetUtcTime(moved.value, offset) == ToOffsetUtcTime(date, offset)
        && ToOffsetUtcDate(moved.value, offset) == ToOffsetUtcDate(date, offset)
  {
  }

  /** A local date read again in UTC is itself. */
  lemma UtcDateIdempotent(date: DateTimeOffset, offset: int)
    ensures var d := ToOffsetUtcDate(date, offset);
      d.Success? ==> ToOffsetUtcDate(d.value, 0) == d
  {
  }

  /** The day number since the Unix epoch of a midnight. */
  function DayNumber(d: DateTimeOffset): int {
    (d.clock - UnixEpochTicks) / TicksPerDay
  }

  /** The local date and the local time fall on the same day number, and that midnight starts it. */
  lemma SameDay(date: DateTimeOffset, offset: int)
    ensures var d, t := ToOffsetUtcDate(date, offset), ToOffsetUtcTime(date, offset);
      d.Success? ==>
        DayNumber(d.value) == DayNumber(t.value)
        && d.value.clock == UnixEpochTicks + DayNumber(d.value) * TicksPerDay
  {
    var d, t := ToOffsetUtcDate(date, offset), ToOffsetUtcTime(date, offset);
    DateStartsTime(date, offset);
    if d.Success? {
      var n := (t.value.clock - UnixEpochTicks) / TicksPerDay;
      assert UnixEpochTicks % TicksPerDay == 0;
      assert d.value.clock - UnixEpochTicks == n * TicksPerDay;
    }
  }
}
