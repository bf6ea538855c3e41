/**
 * `HistoryDomain`: one care action of a plant on one day, either recorded
 * (it has an id and may be done) or projected into the agenda.
 */
module HistoryDomain {
  import opened Wrappers
  import opened Calendar
  import opened Strings

  /** Seconds in a day: the constructor's Unix seconds are read as whole days. */
  const SecondsPerDay: int := 86400

  /** The `HistoryType` enumeration; as a C# enum it admits every integer. */
  newtype HistoryType = int {
    static const None: HistoryType := -1
    static const Watering: HistoryType := 1
    static const Misting: HistoryType := 2
    static const Feeding: HistoryType := 3
    static const Repotting: HistoryType := 4
  }

  /** One of the four care actions. */
  predicate IsAction(t: HistoryType) {
    t == HistoryType.Watering || t == HistoryType.Misting
    || t == HistoryType.Feeding || t == HistoryType.Repotting
  }

  datatype History = History(
    id: string,
    userId: string,
    date: Date,
    isDone: bool,
    historyType: HistoryType,
    plantIconRef: string,
    plantName: string,
    plantId: string)
  {
    /** The `Id` init accessor: stores the value trimmed. */
    function WithId(v: string): (r: History)
      ensures r.id == Trim(v) && Trimmed(r.id)
      ensures r.(id := id) == this
    {
      this.(id := Trim(v))
    }

    /** The `UserId` init accessor: stores the value trimmed. */
    function WithUserId(v: string): (r: History)
      ensures r.userId == Trim(v) && Trimmed(r.userId)
      ensures r.(userId := userId) == this
    {
      this.(userId := Trim(v))
    }

    /** The `PlantIconRef` init accessor: stores the value trimmed. */
    function WithPlantIconRef(v: string): (r: History)
      ensures r.plantIconRef == Trim(v) && Trimmed(r.plantIconRef)
      ensures r.(plantIconRef := plantIconRef) == this
    {
      this.(plantIconRef := Trim(v))
    }

    /** The `PlantName` init accessor: stores the value trimmed. */
    function WithPlantName(v: string): (r: History)
      ensures r.plantName == Trim(v) && Trimmed(r.plantName)
      ensures r.(plantName := plantName) == this
    {
      this.(plantName := Trim(v))
    }

    /** The `PlantId` init accessor: stores the value trimmed. */
    function WithPlantId(v: string): (r: History)
      ensures r.plantId == Trim(v) && Trimmed(r.plantId)
      ensures r.(plantId := plantId) == this
    {
      this.(plantId := Trim(v))
    }

    /** `with { PlantIconRef = .., PlantId = .., PlantName = .. }`: the entry re-tagged with a plant. */
    function Tagged(iconRef: string, plantId: string, name: string): (r: History)
      ensures r.plantIconRef == Trim(iconRef) && r.plantId == Trim(plantId) && r.plantName == Trim(name)
      ensures r.(plantIconRef := plantIconRef, plantId := this.plantId, plantName := plantName) == this
    {
      this.(plantIconRef := Trim(iconRef), plantId := Trim(plantId), plantName := Trim(name))
    }

    /** Re-tagging is setting the three init accessors one after the other. */
    lemma TaggedBuilt(iconRef: string, plantId: string, name: string)
      ensures Tagged(iconRef, plantId, name) == WithPlantIconRef(iconRef).WithPlantId(plantId).WithPlantName(name)
    {
    }
  }

  /** `new HistoryDomain()`: empty strings, the epoch, not done, type `None`. */
  const Blank: History := History("", "", UnixEpoch, false, HistoryType.None, "", "", "")

  /** The day containing an instant given in Unix seconds. */
  function DayOfSeconds(seconds: int): (d: Date)
    ensures d * SecondsPerDay <= seconds < (d + 1) * SecondsPerDay
  {
    seconds / SecondsPerDay
  }

  /**
   * The constructor: null strings become "" without trimming, and the date is
   * `FromUnixTimeMilliseconds(dateSeconds * 1000)` taken as a whole day.
   */
  function NewHistory(id: Option<string>, dateSeconds: int, isDone: bool, historyType: HistoryType,
                      plantIconRef: Option<string>, plantName: Option<string>,
                      plantId: Option<string>, userId: Option<string>): (r: History)
    ensures r.date * SecondsPerDay <= dateSeconds < (r.date + 1) * SecondsPerDay
    ensures r.isDone == isDone && r.historyType == historyType
    ensures id.None? ==> r.id == "" 
    ensures id.Some? ==> r.id == id.value
    ensures plantIconRef.None? ==> r.plantIconRef == ""
    ensures plantName.None? ==> r.plantName == ""
    ensures plantId.None? ==> r.plantId == ""
    ensures userId.None? ==> r.userId == ""
  {
    History(OrEmpty(id), OrEmpty(userId), DayOfSeconds(dateSeconds), isDone, historyType,
            OrEmpty(plantIconRef), OrEmpty(plantName), OrEmpty(plantId))
  }

  /** A day given as its midnight in Unix seconds is that day again. */
  lemma NewHistoryWholeDay(id: Option<string>, d: Date, isDone: bool, historyType: HistoryType,
                           plantIconRef: Option<string>, plantName: Option<string>,
                           plantId: Option<string>, userId: Option<string>)
    ensures NewHistory(id, d * SecondsPerDay, isDone, historyType, plantIconRef, plantName, plantId, userId).date == d
  {
  }

  /** `Equals`: the same id, date, done flag and type; user and plant metadata are not compared. */
  predicate HistoryEquals(a: History, b: History) {
    a.id == b.id && a.date == b.date && a.isDone == b.isDone && a.historyType == b.historyType
  }

  /** `Equals` is an equivalence relation. */
  lemma HistoryEqualsEquivalence(a: History, b: History, c: History)
    ensures HistoryEquals(a, a)
    ensures HistoryEquals(a, b) ==> HistoryEquals(b, a)
    ensures HistoryEquals(a, b) && HistoryEquals(b, c) ==> HistoryEquals(a, c)
  {
  }

  /** Changing the user or the plant metadata leaves an entry equal to itself. */
  lemma HistoryEqualsIgnoresMetadata(h: History, userId: string, iconRef: string, name: string, plantId: string)
    ensures HistoryEquals(h, h.(userId := userId, plantIconRef := iconRef, plantName := name, plantId := plantId))
    ensures HistoryEquals(h, h.Tagged(iconRef, plantId, name))
  {
  }

  /** The entries of one type, in their order. */
  function OfType(hs: seq<History>, t: HistoryType): (r: seq<History>)
    ensures |r| <= |hs|
    ensures forall h :: h in r <==> h in hs && h.historyType == t
    ensures forall i :: 0 <= i < |r| ==> r[i].historyType == t
  {
    if |hs| == 0 then []
    else (if hs[0].historyType == t then [hs[0]] else []) + OfType(hs[1..], t)
  }

  /**
   * `DateSortDescComparer`: the same reference (here: two nulls) compares
   * equal, a null sorts after everything, and otherwise the later date comes
   * first.
   */
  function DateSortDescCompare(x: Option<History>, y: Option<History>): (c: int)
    ensures -1 <= c <= 1
  {
    if x.None? && y.None? then 0
    else if x.None? then 1
    else if y.None? then -1
    else CompareDates(y.value.date, x.value.date)
  }

  /** The sort key that orders entries as `DateSortDescComparer` does: later dates first. */
  function DescKey(h: History): int { -h.date }

  /** The comparer orders two entries exactly as their descending keys do, and later dates come first. */
  lemma DescCompareIsDescKey(a: History, b: History)
    ensures DateSortDescCompare(Some(a), Some(b)) <= 0 <==> DescKey(a) <= DescKey(b)
    ensures DateSortDescCompare(Some(a), Some(b)) < 0 <==> a.date > b.date
    ensures DateSortDescCompare(Some(a), Some(b)) == 0 <==> a.date == b.date
  {
  }

  /** Nulls go last, two nulls compare equal, and an entry compares equal to itself. */
  lemma DescCompareNullsLast(h: History)
    ensures DateSortDescCompare(None, Some(h)) == 1
    ensures DateSortDescCompare(Some(h), None) == -1
    ensures DateSortDescCompare(None, None) == 0
    ensures DateSortDescCompare(Some(h), Some(h)) == 0
  {
  }

  /** The comparer is antisymmetric and transitive: a consistent order for sorting. */
  lemma DescCompareOrder(x: Option<History>, y: Option<History>, z: Option<History>)
    ensures DateSortDescCompare(x, y) == -DateSortDescCompare(y, x)
    ensures DateSortDescCompare(x, y) <= 0 && DateSortDescCompare(y, z) <= 0 ==> DateSortDescCompare(x, z) <= 0
  {
  }
}
