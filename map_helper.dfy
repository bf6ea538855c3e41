/**
 * `MapHelper`: the two guards the wire mapping applies to incoming values,
 * a required string and an optional timestamp.
 */
module MapHelper {
  import opened Wrappers
  import opened Strings
  import opened Timestamps
  import opened DateTimeExtensions

  /** `GetOrThrowIfEmpty`: the string itself, or `ArgumentException(value)` for null or "". */
  function GetOrThrowIfEmpty(value: Option<string>): (r: Result<string>)
    ensures r.Failure? <==> IsNullOrEmpty(value)
    ensures r.Success? ==> value == Some(r.value)
  {
    if IsNullOrEmpty(value) then Failure(ArgumentException(value, None)) else Success(value.value)
  }

  /** Only an absent or empty string is refused: a string of white space comes back as it is. */
  lemma GetOrThrowIfEmptyKeeps(s: string)
    ensures GetOrThrowIfEmpty(Some(s)) == (if s == "" then Failure(ArgumentException(Some(""), None)) else Success(s))
  {
  }

  /** 0001-01-01T00:00:00Z and 9999-12-31T23:59:59Z in seconds since the Unix epoch. */
  const MinValidSeconds: int := -62_135_596_800
  const MaxValidSeconds: int := 253_402_300_799

  /** A timestamp in `Timestamp`'s documented range, with nanos in `[0, 10^9)`. */
  predicate Normalized(t: Timestamp) {
    MinValidSeconds <= t.seconds as int <= MaxValidSeconds && 0 <= t.nanos as int < 1_000_000_000
  }

  /**
   * `Timestamp.ToDateTime()` of the protobuf library: the instant to tick
   * precision, or `InvalidOperationException` when not normalized.
   */
  function ToDateTime(t: Timestamp): (r: Result<DateTime>)
    ensures r.Failure? <==> !Normalized(t)
    ensures r.Success? ==> 0 <= r.value < UnixEpochTicks + (MaxValidSeconds + 1) * TicksPerSecond
  {
    if Normalized(t) then Success(UnixEpochTicks + t.seconds as int * TicksPerSecond + t.nanos as int / 100)
    else Failure(InvalidOperationException)
  }

  /** The all-zero timestamp, `new Timestamp()`. */
  const DefaultTimestamp: Timestamp := Timestamp(0, 0)

  /** `GetOrNullIfDefault`: null for a null or all-zero timestamp, else its `DateTime`. */
  function GetOrNullIfDefault(t: Option<Timestamp>): Result<Option<DateTime>> {
    if t.None? || t.value == DefaultTimestamp then Success(None)
    else match ToDateTime(t.value)
      case Success(d) => Success(Some(d))
      case Failure(e) => Failure(e)
  }

  /**
   * Null and the all-zero timestamp give null; any other normalized
   * timestamp gives its date; a timestamp that is not normalized throws.
   */
  lemma GetOrNullIfDefaultSpec(t: Option<Timestamp>)
    ensures t.None? || t == Some(DefaultTimestamp) ==> GetOrNullIfDefault(t) == Success(None)
    ensures t.Some? && t.value != DefaultTimestamp && Normalized(t.value) ==>
      GetOrNullIfDefault(t) == Success(Some(ToDateTime(t.value).value))
    ensures t.Some? && !Normalized(t.value) ==> GetOrNullIfDefault(t) == Failure(InvalidOperationException)
  {
  }

  /** Distinct normalized timestamps a tick or more apart give distinct dates, later ones later. */
  lemma ToDateTimeMonotone(a: Timestamp, b: Timestamp)
    requires Normalized(a) && Normalized(b)
    requires a.seconds < b.seconds || (a.seconds == b.seconds && a.nanos as int / 100 < b.nanos as int / 100)
    ensures ToDateTime(a).value < ToDateTime(b).value
  {
  }
}
