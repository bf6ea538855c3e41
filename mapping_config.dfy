/**
 * `MappingConfig`: the switches between the wire (protobuf) enumerations
 * and the domain enumerations, for care action types and periodicities.
 * Every value without a case throws `ArgumentOutOfRangeException`.
 */
module MappingConfig {
  import opened Wrappers
  import opened HistoryDomain
  import opened Periodicities

  /** The wire `HistoryType`: its four action names, and any other value it carries. */
  datatype WireHistoryType = Watering | Feeding | Misting | Repotting | OtherHistoryType(value: int)

  /** The wire `Periodicity`: its fifteen names, and any other value it carries. */
  datatype WirePeriodicity =
    | None | EachDay | TwoDays | ThreeDays | FourDays | FiveDays | SixDays | EachWeek
    | TenDays | TwoWeeks | ThreeWeeks | EachMonth | SixMonths | EachYear | TwoYears
    | OtherPeriodicity(value: int)

  /** `HistoryTypeToHistoryTypeDb`. */
  function HistoryTypeToHistoryTypeDb(t: WireHistoryType): (r: Result<HistoryType>)
    ensures r.Failure? ==> r.error == ArgumentOutOfRangeException("type")
  {
    match t
    case Watering => Success(HistoryType.Watering)
    case Feeding => Success(HistoryType.Feeding)
    case Misting => Success(HistoryType.Misting)
    case Repotting => Success(HistoryType.Repotting)
    case OtherHistoryType(_) => Failure(ArgumentOutOfRangeException("type"))
  }

  /** `HistoryTypeDbToHistoryType`. */
  function HistoryTypeDbToHistoryType(t: HistoryType): (r: Result<WireHistoryType>)
    ensures r.Failure? ==> r.error == ArgumentOutOfRangeException("type")
  {
    if t == HistoryType.Watering then Success(Watering)
    else if t == HistoryType.Feeding then Success(Feeding)
    else if t == HistoryType.Misting then Success(Misting)
    else if t == HistoryType.Repotting then Success(Repotting)
    else Failure(ArgumentOutOfRangeException("type"))
  }

  /**
   * The two switches are inverse on the four actions: a wire name maps to
   * a care action and back, a care action maps to a wire name and back, and
   * exactly the other values throw (the domain's `None` among them).
   */
  lemma HistoryTypeRoundTrip(w: WireHistoryType, t: HistoryType)
    ensures HistoryTypeToHistoryTypeDb(w).Success? <==> !w.OtherHistoryType?
    ensures HistoryTypeToHistoryTypeDb(w).Success? ==>
      IsAction(HistoryTypeToHistoryTypeDb(w).value)
      && HistoryTypeDbToHistoryType(HistoryTypeToHistoryTypeDb(w).value) == Success(w)
    ensures HistoryTypeDbToHistoryType(t).Success? <==> IsAction(t)
    ensures HistoryTypeDbToHistoryType(t).Success? ==>
      HistoryTypeToHistoryTypeDb(HistoryTypeDbToHistoryType(t).value) == Success(t)
  {
  }

  /** `MapPeriodicity` from the domain to the wire. */
  function PeriodicityToWire(p: Periodicity): (r: Result<WirePeriodicity>)
    ensures r.Failure? ==> r.error == ArgumentOutOfRangeException("periodicity")
  {
    if p == Periodicity.None then Success(WirePeriodicity.None)
    else if p == Periodicity.EachDay then Success(EachDay)
    else if p == Periodicity.TwoDays then Success(TwoDays)
    else if p == Periodicity.ThreeDays then Success(ThreeDays)
    else if p == Periodicity.FourDays then Success(FourDays)
    else if p == Periodicity.FiveDays then Success(FiveDays)
    else if p == Periodicity.SixDays then Success(SixDays)
    else if p == Periodicity.EachWeek then Success(EachWeek)
    else if p == Periodicity.TenDays then Success(TenDays)
    else if p == Periodicity.TwoWeeks then Success(TwoWeeks)
    else if p == Periodicity.ThreeWeeks then Success(ThreeWeeks)
    else if p == Periodicity.EachMonth then Success(EachMonth)
    else if p == Periodicity.SixMonths then Success(SixMonths)
    else if p == Periodicity.EachYear then Success(EachYear)
    else if p == Periodicity.TwoYears then Success(TwoYears)
    else Failure(ArgumentOutOfRangeException("periodicity"))
  }

  /** `MapPeriodicity` from the wire to the domain. */
  function PeriodicityFromWire(w: WirePeriodicity): (r: Result<Periodicity>)
    ensures r.Failure? ==> r.error == ArgumentOutOfRangeException("periodicity")
  {
    match w
    case None => Success(Periodicity.None)
    case EachDay => Success(Periodicity.EachDay)
    case TwoDays => Success(Periodicity.TwoDays)
    case ThreeDays => Success(Periodicity.ThreeDays)
    case FourDays => Success(Periodicity.FourDays)
    case FiveDays => Success(Periodicity.FiveDays)
    case SixDays => Success(Periodicity.SixDays)
    case EachWeek => Success(Periodicity.EachWeek)
    case TenDays => Success(Periodicity.TenDays)
    case TwoWeeks => Success(Periodicity.TwoWeeks)
    case ThreeWeeks => Success(Periodicity.ThreeWeeks)
    case EachMonth => Success(Periodicity.EachMonth)
    case SixMonths => Success(Periodicity.SixMonths)
    case EachYear => Success(Periodicity.EachYear)
    case TwoYears => Success(Periodicity.TwoYears)
    case OtherPeriodicity(_) => Failure(ArgumentOutOfRangeException("periodicity"))
  }

  /**
   * The two `MapPeriodicity` switches are inverse on the fifteen names,
   * `None` included, and exactly the unnamed values throw.
   */
  lemma PeriodicityRoundTrip(w: WirePeriodicity, p: Periodicity)
    ensures PeriodicityFromWire(w).Success? <==> !w.OtherPeriodicity?
    ensures PeriodicityFromWire(w).Success? ==>
      IsNamed(PeriodicityFromWire(w).value) && PeriodicityToWire(PeriodicityFromWire(w).value) == Success(w)
    ensures PeriodicityToWire(p).Success? <==> IsNamed(p)
    ensures PeriodicityToWire(p).Success? ==> PeriodicityFromWire(PeriodicityToWire(p).value) == Success(p)
  {
  }
}
