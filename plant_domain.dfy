/**
 * `PlantDomain`: a plant with four care schedules (watering, misting,
 * feeding, repotting), its recent history and its old history. The History
 * property keeps only entries from the last month before the plant's
 * `TodayUserDate` and reads them latest first; OldHistory keeps the earlier
 * ones.
 */
module PlantDomain {
  import opened Wrappers
  import opened Calendar
  import opened Periodicities
  import opened DateService
  import opened Strings
  import opened HistoryDomain
  import opened Sorting

  /** The `ushort` periodicity parameters of the constructor. */
  newtype UShort = x: int | 0 <= x < 0x1_0000

  /** One care action's schedule: its anchor date and its periodicity. */
  datatype Schedule = Schedule(start: Date, periodicity: Periodicity)

  /** A schedule whose periodicity can be stepped through: `None`, or a code that moves a date forward. */
  predicate Steppable(s: Schedule) {
    s.periodicity == Periodicity.None || Advances(s.periodicity)
  }

  /** `TodayUserDate.AddMonths(-1)`: entries before this day are old. */
  function Cutoff(today: Date): Date { AddMonths(today, -1) }

  /** An entry dated on or after the cutoff. */
  predicate IsRecent(h: History, cutoff: Date) { h.date >= cutoff }

  /** `GetRecentHistory` given the cutoff: the entries dated on or after it, in order. */
  function Recent(hs: seq<History>, cutoff: Date): (r: seq<History>)
  {
    if |hs| == 0 then []
    else (if IsRecent(hs[0], cutoff) then [hs[0]] else []) + Recent(hs[1..], cutoff)
  }

  /** `GetOldHistory` given the cutoff: the entries dated before it, in order. */
  function Old(hs: seq<History>, cutoff: Date): (r: seq<History>)
  {
    if |hs| == 0 then []
    else (if !IsRecent(hs[0], cutoff) then [hs[0]] else []) + Old(hs[1..], cutoff)
  }

  /** The recent filter keeps exactly the recent entries and the old filter exactly the others. */
  lemma {:induction false} FiltersMembership(hs: seq<History>, cutoff: Date)
    ensures forall h :: h in Recent(hs, cutoff) <==> h in hs && IsRecent(h, cutoff)
    ensures forall h :: h in Old(hs, cutoff) <==> h in hs && !IsRecent(h, cutoff)
  {
    if |hs| > 0 {
      FiltersMembership(hs[1..], cutoff);
      assert hs == [hs[0]] + hs[1..];
    }
  }

  /**
   * The history split of the constructor for a given TodayUserDate: no
   * entries need no cutoff; otherwise the cutoff `AddMonths(-1)` is
   * computed and may throw.
   */
  function SplitHistory(hs: seq<History>, today: Date): (r: Result<(seq<History>, seq<History>)>)
    ensures |hs| == 0 ==> r == Success(([], []))
    ensures r.Failure? <==> |hs| > 0 && CheckedAddMonths(today, -1).Failure?
    ensures r.Success? && |hs| > 0 ==> r.value == (Recent(hs, Cutoff(today)), Old(hs, Cutoff(today)))
  {
    if |hs| == 0 then Success(([], []))
    else match CheckedAddMonths(today, -1)
      case Failure(e) => Failure(e)
      case Success(cutoff) => Success((Recent(hs, cutoff), Old(hs, cutoff)))
  }

  datatype Plant = Plant(
    id: string,
    name: string,
    notes: string,
    iconRef: string,
    watering: Schedule,
    misting: Schedule,
    feeding: Schedule,
    repotting: Schedule,
    recent: seq<History>,
    oldHistory: seq<History>,
    todayUserDate: Date)
  {
    /** History holds no old entry and OldHistory no recent one. */
    predicate Valid() {
      (forall h :: h in recent ==> IsRecent(h, Cutoff(todayUserDate)))
      && (forall h :: h in oldHistory ==> !IsRecent(h, Cutoff(todayUserDate)))
    }

    /** Every schedule of the plant can be stepped through. */
    predicate SchedulesSteppable() {
      Steppable(watering) && Steppable(misting) && Steppable(feeding) && Steppable(repotting)
    }

    /** The schedule of one care action. */
    function ScheduleOf(t: HistoryType): Schedule
      requires IsAction(t)
    {
      if t == HistoryType.Watering then watering
      else if t == HistoryType.Misting then misting
      else if t == HistoryType.Feeding then feeding
      else repotting
    }

    /** The `History` getter: the recent entries, latest first. */
    function SortedHistory(): (r: seq<History>)
      ensures SortedBy(r, DescKey)
      ensures multiset(r) == multiset(recent)
      ensures forall h :: h in r <==> h in recent
    {
      var r := SortBy(recent, DescKey);
      SortBySpec(recent, DescKey);
      assert forall h :: h in r <==> h in multiset(recent);
      r
    }

    /** The `History` init accessor: keeps the recent entries of `hs` only. */
    function WithHistory(hs: seq<History>): (r: Plant)
      ensures forall h :: h in r.SortedHistory() <==> h in hs && IsRecent(h, Cutoff(todayUserDate))
      ensures Valid() ==> r.Valid()
      ensures r.(recent := recent) == this
    {
      var c := Cutoff(todayUserDate);
      FiltersMembership(hs, c);
      this.(recent := Recent(hs, c))
    }

    /** The `OldHistory` init accessor: keeps the old entries of `hs` only. */
    function WithOldHistory(hs: seq<History>): (r: Plant)
      ensures forall h :: h in r.oldHistory <==> h in hs && !IsRecent(h, Cutoff(todayUserDate))
      ensures Valid() ==> r.Valid()
      ensures r.(oldHistory := oldHistory) == this
    {
      var c := Cutoff(todayUserDate);
      FiltersMembership(hs, c);
      this.(oldHistory := Old(hs, c))
    }

    /** The `Id` init accessor: stores the value trimmed. */
    function WithId(v: string): (r: Plant)
      ensures r.id == Trim(v) && Trimmed(r.id)
      ensures r.(id := id) == this
    {
      this.(id := Trim(v))
    }

    /** The `Name` init accessor: stores the value trimmed. */
    function WithName(v: string): (r: Plant)
      ensures r.name == Trim(v) && Trimmed(r.name)
      ensures r.(name := name) == this
    {
      this.(name := Trim(v))
    }

    /** The `Notes` init accessor: stores the value trimmed. */
    function WithNotes(v: string): (r: Plant)
      ensures r.notes == Trim(v) && Trimmed(r.notes)
      ensures r.(notes := notes) == this
    {
      this.(notes := Trim(v))
    }

    /** The `IconRef` init accessor: stores the value trimmed. */
    function WithIconRef(v: string): (r: Plant)
      ensures r.iconRef == Trim(v) && Trimmed(r.iconRef)
      ensures r.(iconRef := iconRef) == this
    {
      this.(iconRef := Trim(v))
    }

    /**
     * `WateringNext`, `MistingNext`, `FeedingNext`, `RepottingNext`: the
     * action's next due date seen from the plant's `TodayUserDate`.
     */
    function Next(t: HistoryType): Date
      requires IsAction(t) && Steppable(ScheduleOf(t))
    {
      NextDate(ScheduleOf(t).periodicity, todayUserDate, ScheduleOf(t).start)
    }
  }

  /** The History getter and the OldHistory field split a list exactly: nothing lost, nothing in both. */
  lemma {:induction false} RecentOldPartition(hs: seq<History>, cutoff: Date)
    ensures multiset(Recent(hs, cutoff)) + multiset(Old(hs, cutoff)) == multiset(hs)
    ensures forall h :: !(h in Recent(hs, cutoff) && h in Old(hs, cutoff))
  {
    FiltersMembership(hs, cutoff);
    RecentOldCounts(hs, cutoff);
  }

  /** Every entry goes to exactly one of the two filters, as often as it occurs. */
  lemma {:induction false} RecentOldCounts(hs: seq<History>, cutoff: Date)
    ensures multiset(Recent(hs, cutoff)) + multiset(Old(hs, cutoff)) == multiset(hs)
  {
    if |hs| > 0 {
      var x, t := hs[0], hs[1..];
      assert hs == [x] + t;
      RecentOldCounts(t, cutoff);
      FiltersCons(x, t, cutoff);
    }
  }

  /** Filtering again changes nothing, and the two filters discard each other's output entirely. */
  lemma {:induction false} FiltersSettle(hs: seq<History>, cutoff: Date)
    ensures Recent(Recent(hs, cutoff), cutoff) == Recent(hs, cutoff)
    ensures Old(Old(hs, cutoff), cutoff) == Old(hs, cutoff)
    ensures Old(Recent(hs, cutoff), cutoff) == [] && Recent(Old(hs, cutoff), cutoff) == []
  {
    if |hs| > 0 {
      FiltersSettle(hs[1..], cutoff);
      if IsRecent(hs[0], cutoff) {
        assert Recent(hs, cutoff) == [hs[0]] + Recent(hs[1..], cutoff);
        assert ([hs[0]] + Recent(hs[1..], cutoff))[1..] == Recent(hs[1..], cutoff);
        assert Old(hs, cutoff) == Old(hs[1..], cutoff);
      } else {
        assert Old(hs, cutoff) == [hs[0]] + Old(hs[1..], cutoff);
        assert ([hs[0]] + Old(hs[1..], cutoff))[1..] == Old(hs[1..], cutoff);
        assert Recent(hs, cutoff) == Recent(hs[1..], cutoff);
      }
    }
  }

  /** The filters on a list with a first element. */
  lemma FiltersCons(x: History, t: seq<History>, cutoff: Date)
    ensures Recent([x] + t, cutoff) == (if IsRecent(x, cutoff) then [x] else []) + Recent(t, cutoff)
    ensures Old([x] + t, cutoff) == (if !IsRecent(x, cutoff) then [x] else []) + Old(t, cutoff)
  {
    assert ([x] + t)[0] == x && ([x] + t)[1..] == t;
  }

  /** Both filters distribute over concatenation. */
  lemma FiltersAppend(a: seq<History>, b: seq<History>, cutoff: Date)
    ensures Recent(a + b, cutoff) == Recent(a, cutoff) + Recent(b, cutoff)
    ensures Old(a + b, cutoff) == Old(a, cutoff) + Old(b, cutoff)
  {
    RecentAppend(a, b, cutoff);
    OldAppend(a, b, cutoff);
  }

  lemma {:induction false} RecentAppend(a: seq<History>, b: seq<History>, cutoff: Date)
    ensures Recent(a + b, cutoff) == Recent(a, cutoff) + Recent(b, cutoff)
  {
    if |a| == 0 {
      assert a + b == b;
    } else {
      var x, t := a[0], a[1..];
      assert a == [x] + t && a + b == [x] + (t + b);
      RecentAppend(t, b, cutoff);
      FiltersCons(x, t, cutoff);
      FiltersCons(x, t + b, cutoff);
      var hr, rt, rb := if IsRecent(x, cutoff) then [x] else [], Recent(t, cutoff), Recent(b, cutoff);
      assert (hr + rt) + rb == hr + (rt + rb);
    }
  }

  lemma {:induction false} OldAppend(a: seq<History>, b: seq<History>, cutoff: Date)
    ensures Old(a + b, cutoff) == Old(a, cutoff) + Old(b, cutoff)
  {
    if |a| == 0 {
      assert a + b == b;
    } else {
      var x, t := a[0], a[1..];
      assert a == [x] + t && a + b == [x] + (t + b);
      OldAppend(t, b, cutoff);
      FiltersCons(x, t, cutoff);
      FiltersCons(x, t + b, cutoff);
      var ho, ot, ob := if !IsRecent(x, cutoff) then [x] else [], Old(t, cutoff), Old(b, cutoff);
      assert (ho + ot) + ob == ho + (ot + ob);
    }
  }

  /** A list of recent entries passes the recent filter whole. */
  lemma {:induction false} RecentKeepsAll(hs: seq<History>, cutoff: Date)
    requires forall h :: h in hs ==> IsRecent(h, cutoff)
    ensures Recent(hs, cutoff) == hs
  {
    if |hs| > 0 {
      assert forall h :: h in hs[1..] ==> h in hs;
      RecentKeepsAll(hs[1..], cutoff);
      assert hs == [hs[0]] + hs[1..];
    }
  }

  /**
   * `with { History = History.AddRange(hs) }` on a valid plant: the recent
   * entries gain exactly the recent ones of `hs`, and nothing else changes.
   */
  lemma HistoryAddRange(p: Plant, hs: seq<History>)
    requires p.Valid()
    ensures var r := p.WithHistory(p.SortedHistory() + hs);
      multiset(r.recent) == multiset(p.recent) + multiset(Recent(hs, Cutoff(p.todayUserDate)))
      && r.Valid() && r.(recent := p.recent) == p
  {
    var c := Cutoff(p.todayUserDate);
    FiltersAppend(p.SortedHistory(), hs, c);
    RecentKeepsAll(p.SortedHistory(), c);
  }

  /** `with { OldHistory = OldHistory.AddRange(hs) }`: the old entries gain exactly the old ones of `hs`, in order. */
  lemma OldHistoryAddRange(p: Plant, hs: seq<History>)
    requires p.Valid()
    ensures var r := p.WithOldHistory(p.oldHistory + hs);
      r.oldHistory == p.oldHistory + Old(hs, Cutoff(p.todayUserDate))
      && r.Valid() && r.(oldHistory := p.oldHistory) == p
  {
    var c := Cutoff(p.todayUserDate);
    FiltersAppend(p.oldHistory, hs, c);
    FiltersSettle(p.oldHistory, c);
    assert forall h :: h in p.oldHistory ==> !IsRecent(h, c);
    OldKeepsAll(p.oldHistory, c);
  }

  /** A list of old entries passes the old filter whole. */
  lemma {:induction false} OldKeepsAll(hs: seq<History>, cutoff: Date)
    requires forall h :: h in hs ==> !IsRecent(h, cutoff)
    ensures Old(hs, cutoff) == hs
  {
    if |hs| > 0 {
      assert forall h :: h in hs[1..] ==> h in hs;
      OldKeepsAll(hs[1..], cutoff);
      assert hs == [hs[0]] + hs[1..];
    }
  }

  /** An entry dated on or after the plant's today is recent. */
  lemma TodayIsRecent(h: History, today: Date)
    requires h.date >= today
    ensures IsRecent(h, Cutoff(today))
  {
    AddMonthsDirection(today, -1);
  }

  /** Each `*Next` property is the epoch for an inactive schedule, and otherwise never before the plant's today. */
  lemma NextDue(p: Plant, t: HistoryType)
    requires IsAction(t) && Steppable(p.ScheduleOf(t))
    ensures var s := p.ScheduleOf(t);
      if Inactive(s.periodicity, p.todayUserDate, s.start) then p.Next(t) == UnixEpoch
      else p.Next(t) >= p.todayUserDate && (s.start >= p.todayUserDate ==> p.Next(t) == s.start)
  {
    var s := p.ScheduleOf(t);
    if !Inactive(s.periodicity, p.todayUserDate, s.start) {
      NextDateAtOrAfterStart(s.periodicity, p.todayUserDate, s.start);
    }
  }

  /** `SequenceEqual` on two histories: pairwise `Equals`. */
  predicate HistoriesEqual(s: seq<History>, t: seq<History>) {
    |s| == |t| && forall i :: 0 <= i < |s| ==> HistoryEquals(s[i], t[i])
  }

  /**
   * `Equals`: the texts, the four schedules and the History getter's lists;
   * OldHistory and TodayUserDate are not compared.
   */
  predicate PlantEquals(a: Plant, b: Plant) {
    a.id == b.id && a.name == b.name && a.notes == b.notes && a.iconRef == b.iconRef
    && a.watering == b.watering && a.misting == b.misting
    && a.feeding == b.feeding && a.repotting == b.repotting
    && HistoriesEqual(a.SortedHistory(), b.SortedHistory())
  }

  /** Plant equality is an equivalence relation. */
  lemma PlantEqualsEquivalence(a: Plant, b: Plant, c: Plant)
    ensures PlantEquals(a, a)
    ensures PlantEquals(a, b) ==> PlantEquals(b, a)
    ensures PlantEquals(a, b) && PlantEquals(b, c) ==> PlantEquals(a, c)
  {
  }

  /** Changing the old history or the plant's today keeps a plant equal to itself. */
  lemma PlantEqualsIgnores(p: Plant, oldHistory: seq<History>, today: Date)
    ensures PlantEquals(p, p.(oldHistory := oldHistory, todayUserDate := today))
  {
  }

  /** `MapIntToPeriodicity`: the fourteen named codes other than `None` map to themselves, everything else to `ThreeWeeks`. */
  function MapIntToPeriodicity(n: int): (r: Periodicity)
    ensures n != 0 && n as Periodicity in NamedValues ==> r == n as Periodicity
    ensures !(n != 0 && n as Periodicity in NamedValues) ==> r == Periodicity.ThreeWeeks
    ensures IsNamed(r) && Advances(r)
  {
    if n == 1 then Periodicity.EachDay
    else if n == 2 then Periodicity.TwoDays
    else if n == 3 then Periodicity.ThreeDays
    else if n == 4 then Periodicity.FourDays
    else if n == 5 then Periodicity.FiveDays
    else if n == 6 then Periodicity.SixDays
    else if n == 7 then Periodicity.EachWeek
    else if n == 10 then Periodicity.TenDays
    else if n == 14 then Periodicity.TwoWeeks
    else if n == 21 then Periodicity.ThreeWeeks
    else if n == 101 then Periodicity.EachMonth
    else if n == 106 then Periodicity.SixMonths
    else if n == 1001 then Periodicity.EachYear
    else if n == 1002 then Periodicity.TwoYears
    else Periodicity.ThreeWeeks
  }

  /** `todayUserDate == default ? UtcNow.Date : todayUserDate`, with the current UTC day as a parameter. */
  function ResolveToday(todayUserDate: Date, utcToday: Date): (r: Date)
    ensures todayUserDate != DefaultDate ==> r == todayUserDate
    ensures todayUserDate == DefaultDate ==> r == utcToday
  {
    if todayUserDate == DefaultDate then utcToday else todayUserDate
  }

  /** A schedule from the constructor's arguments: Unix seconds as a whole day, the `ushort` cast to the enumeration. */
  function ScheduleOfSeconds(startSeconds: int, periodicity: UShort): (s: Schedule)
    ensures s.start * SecondsPerDay <= startSeconds < (s.start + 1) * SecondsPerDay
    ensures s.periodicity as int == periodicity as int
  {
    Schedule(DayOfSeconds(startSeconds), periodicity as int as Periodicity)
  }

  /** The schedules and texts the constructor sets, with empty histories and the given today. */
  function BasePlant(id: Option<string>, name: Option<string>, notes: Option<string>, iconRef: Option<string>,
                     wateringStartSeconds: int, wateringPeriodicity: UShort,
                     mistingStartSeconds: int, mistingPeriodicity: UShort,
                     feedingStartSeconds: int, feedingPeriodicity: UShort,
                     repottingStartSeconds: int, repottingPeriodicity: UShort, today: Date): (r: Plant)
    ensures r.id == OrEmpty(id) && r.name == OrEmpty(name) && r.notes == OrEmpty(notes) && r.iconRef == OrEmpty(iconRef)
    ensures r.watering == ScheduleOfSeconds(wateringStartSeconds, wateringPeriodicity)
    ensures r.misting == ScheduleOfSeconds(mistingStartSeconds, mistingPeriodicity)
    ensures r.feeding == ScheduleOfSeconds(feedingStartSeconds, feedingPeriodicity)
    ensures r.repotting == ScheduleOfSeconds(repottingStartSeconds, repottingPeriodicity)
    ensures r.recent == [] && r.oldHistory == [] && r.todayUserDate == today
  {
    Plant(OrEmpty(id), OrEmpty(name), OrEmpty(notes), OrEmpty(iconRef),
          ScheduleOfSeconds(wateringStartSeconds, wateringPeriodicity),
          ScheduleOfSeconds(mistingStartSeconds, mistingPeriodicity),
          ScheduleOfSeconds(feedingStartSeconds, feedingPeriodicity),
          ScheduleOfSeconds(repottingStartSeconds, repottingPeriodicity),
          [], [], today)
  }

  /**
   * The constructor with TodayUserDate resolved before the history is split,
   * so the split uses the plant's own today. Null strings become "" without
   * trimming; a null or empty history gives two empty lists.
   */
  function NewPlant(id: Option<string>, name: Option<string>, notes: Option<string>, iconRef: Option<string>,
                    wateringStartSeconds: int, wateringPeriodicity: UShort,
                    mistingStartSeconds: int, mistingPeriodicity: UShort,
                    feedingStartSeconds: int, feedingPeriodicity: UShort,
                    repottingStartSeconds: int, repottingPeriodicity: UShort,
                    history: Option<seq<History>>, todayUserDate: Date, utcToday: Date): (r: Result<Plant>)
    ensures var today := ResolveToday(todayUserDate, utcToday);
      r.Failure? <==> history.Some? && |history.value| > 0 && CheckedAddMonths(today, -1).Failure?
    ensures r.Success? ==> r.value.Valid()
    ensures r.Success? ==> r.value.todayUserDate == ResolveToday(todayUserDate, utcToday)
    ensures r.Success? ==> multiset(r.value.recent) + multiset(r.value.oldHistory) == multiset(history.GetOr([]))
    ensures r.Success? ==>
      r.value.(recent := [], oldHistory := []) == BasePlant(id, name, notes, iconRef, wateringStartSeconds, wateringPeriodicity,
                   mistingStartSeconds, mistingPeriodicity, feedingStartSeconds, feedingPeriodicity,
                   repottingStartSeconds, repottingPeriodicity, ResolveToday(todayUserDate, utcToday))
  {
    var today := ResolveToday(todayUserDate, utcToday);
    var hs := history.GetOr([]);
    var base := BasePlant(id, name, notes, iconRef, wateringStartSeconds, wateringPeriodicity,
                          mistingStartSeconds, mistingPeriodicity, feedingStartSeconds, feedingPeriodicity,
                          repottingStartSeconds, repottingPeriodicity, today);
    RecentOldPartition(hs, Cutoff(today));
    FiltersMembership(hs, Cutoff(today));
    match SplitHistory(hs, today)
    case Failure(e) => Failure(e)
    case Success(split) => Success(base.(recent := split.0, oldHistory := split.1))
  }

  /** After year 1, the corrected constructor never throws. */
  lemma NewPlantSucceeds(id: Option<string>, name: Option<string>, notes: Option<string>, iconRef: Option<string>,
                         wateringStartSeconds: int, wateringPeriodicity: UShort,
                         mistingStartSeconds: int, mistingPeriodicity: UShort,
                         feedingStartSeconds: int, feedingPeriodicity: UShort,
                         repottingStartSeconds: int, repottingPeriodicity: UShort,
                         history: Option<seq<History>>, todayUserDate: Date, utcToday: Date)
    requires 2 <= Year(ResolveToday(todayUserDate, utcToday)) <= 9999
    ensures NewPlant(id, name, notes, iconRef, wateringStartSeconds, wateringPeriodicity,
                     mistingStartSeconds, mistingPeriodicity, feedingStartSeconds, feedingPeriodicity,
                     repottingStartSeconds, repottingPeriodicity, history, todayUserDate, utcToday).Success?
  {
    var today := ResolveToday(todayUserDate, utcToday);
    var c := ToCivil(today);
    assert ShiftMonths(c, -1).year >= c.year - 1;
  }

  /**
   * The constructor as written: the history is split while TodayUserDate
   * still holds its default, January 1 of year 1, so the first entry's
   * cutoff `AddMonths(-1)` throws. Without entries the filter never runs.
   */
  function NewPlantAsWritten(id: Option<string>, name: Option<string>, notes: Option<string>, iconRef: Option<string>,
                             wateringStartSeconds: int, wateringPeriodicity: UShort,
                             mistingStartSeconds: int, mistingPeriodicity: UShort,
                             feedingStartSeconds: int, feedingPeriodicity: UShort,
                             repottingStartSeconds: int, repottingPeriodicity: UShort,
                             history: Option<seq<History>>, todayUserDate: Date, utcToday: Date): (r: Result<Plant>)
    ensures r.Success? ==> r.value.todayUserDate == ResolveToday(todayUserDate, utcToday)
  {
    var hs := history.GetOr([]);
    var partial := BasePlant(id, name, notes, iconRef, wateringStartSeconds, wateringPeriodicity,
                             mistingStartSeconds, mistingPeriodicity, feedingStartSeconds, feedingPeriodicity,
                             repottingStartSeconds, repottingPeriodicity, DefaultDate);
    match SplitHistory(hs, partial.todayUserDate)
    case Failure(e) => Failure(e)
    case Success(split) =>
      Success(partial.(recent := split.0, oldHistory := split.1, todayUserDate := ResolveToday(todayUserDate, utcToday)))
  }

  /** As written, any non-empty history makes the constructor throw `ArgumentOutOfRangeException` for `months`. */
  lemma NewPlantAsWrittenThrows(id: Option<string>, name: Option<string>, notes: Option<string>, iconRef: Option<string>,
                                wateringStartSeconds: int, wateringPeriodicity: UShort,
                                mistingStartSeconds: int, mistingPeriodicity: UShort,
                                feedingStartSeconds: int, feedingPeriodicity: UShort,
                                repottingStartSeconds: int, repottingPeriodicity: UShort,
                                history: Option<seq<History>>, todayUserDate: Date, utcToday: Date)
    requires history.Some? && |history.value| > 0
    ensures NewPlantAsWritten(id, name, notes, iconRef, wateringStartSeconds, wateringPeriodicity,
                              mistingStartSeconds, mistingPeriodicity, feedingStartSeconds, feedingPeriodicity,
                              repottingStartSeconds, repottingPeriodicity, history, todayUserDate, utcToday)
            == Failure(ArgumentOutOfRangeException("months"))
  {
    var hs := history.GetOr([]);
    assert hs == history.value;
    var partial := BasePlant(id, name, notes, iconRef, wateringStartSeconds, wateringPeriodicity,
                             mistingStartSeconds, mistingPeriodicity, feedingStartSeconds, feedingPeriodicity,
                             repottingStartSeconds, repottingPeriodicity, DefaultDate);
    var d := partial.todayUserDate;
    assert d == DefaultDate;
    SplitAtDefaultThrows(hs);
  }

  /** Splitting a non-empty history with the default date as today throws. */
  lemma SplitAtDefaultThrows(hs: seq<History>)
    requires |hs| > 0
    ensures SplitHistory(hs, DefaultDate) == Failure(ArgumentOutOfRangeException("months"))
  {
    DefaultYearOneCannotGoBack();
  }

  /** January of year 1 has no month before it inside `DateTime`'s range. */
  lemma DefaultYearOneCannotGoBack()
    ensures CheckedAddMonths(DefaultDate, -1) == Failure(ArgumentOutOfRangeException("months"))
  {
    DefaultDateIsYearOne();
    JanuaryCannotGoBack(DefaultDate);
  }

  /** From January of year 1 or earlier, a month back leaves `DateTime`'s range. */
  lemma JanuaryCannotGoBack(d: Date)
    requires ToCivil(d).month == 1 && ToCivil(d).year <= 1
    ensures CheckedAddMonths(d, -1) == Failure(ArgumentOutOfRangeException("months"))
  {
    var c := ToCivil(d);
    var t := MonthIndex(c) - 1;
    assert t == 12 * c.year - 1;
    assert ShiftMonths(c, -1).year == t / 12 == c.year - 1;
  }

  /** As written, the constructor agrees with the corrected one exactly when it is given no entries. */
  lemma NewPlantAsWrittenWithoutHistory(id: Option<string>, name: Option<string>, notes: Option<string>, iconRef: Option<string>,
                                        wateringStartSeconds: int, wateringPeriodicity: UShort,
                                        mistingStartSeconds: int, mistingPeriodicity: UShort,
                                        feedingStartSeconds: int, feedingPeriodicity: UShort,
                                        repottingStartSeconds: int, repottingPeriodicity: UShort,
                                        history: Option<seq<History>>, todayUserDate: Date, utcToday: Date)
    requires history.None? || history.value == []
    ensures NewPlantAsWritten(id, name, notes, iconRef, wateringStartSeconds, wateringPeriodicity,
                              mistingStartSeconds, mistingPeriodicity, feedingStartSeconds, feedingPeriodicity,
                              repottingStartSeconds, repottingPeriodicity, history, todayUserDate, utcToday)
            == NewPlant(id, name, notes, iconRef, wateringStartSeconds, wateringPeriodicity,
                        mistingStartSeconds, mistingPeriodicity, feedingStartSeconds, feedingPeriodicity,
                        repottingStartSeconds, repottingPeriodicity, history, todayUserDate, utcToday)
  {
    var hs := history.GetOr([]);
    assert |hs| == 0;
    var today := ResolveToday(todayUserDate, utcToday);
    var partial := BasePlant(id, name, notes, iconRef, wateringStartSeconds, wateringPeriodicity,
                             mistingStartSeconds, mistingPeriodicity, feedingStartSeconds, feedingPeriodicity,
                             repottingStartSeconds, repottingPeriodicity, DefaultDate);
    var base := BasePlant(id, name, notes, iconRef, wateringStartSeconds, wateringPeriodicity,
                          mistingStartSeconds, mistingPeriodicity, feedingStartSeconds, feedingPeriodicity,
                          repottingStartSeconds, repottingPeriodicity, today);
    assert partial.(todayUserDate := today) == base;
    assert SplitHistory(hs, partial.todayUserDate) == Success(([], []));
    assert SplitHistory(hs, today) == Success(([], []));
  }
}
