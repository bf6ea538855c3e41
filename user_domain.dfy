/**
 * `UserDomain`: a user with their plants. The record's operations add,
 * edit and remove plants, mark history entries done, back-fill the entries
 * a schedule should have produced up to the user's today, collect old
 * history and build the agenda. The user's today (`TodayUserDate`, the
 * current UTC instant moved to the user's time zone and cut to its day) is
 * a parameter of every operation that reads it, and the fresh ObjectIds the
 * code generates come from a supply `ids` read from a counter on.
 */
module UserDomain {
  import opened Wrappers
  import opened Calendar
  import opened Periodicities
  import opened Strings
  import opened Sorting
  import opened ImmutableLists
  import opened PlantHelper
  import opened HistoryDomain
  import opened PlantDomain
  import opened HistoryGroupDomain

  /**
   * The text of a generated ObjectId: 24 hexadecimal digits, so it neither
   * starts nor ends with white space and the trimming `Id` setters keep it.
   */
  type ObjectIdText = s: string | Trimmed(s) witness ""

  /** A `TimeSpan`, as its tick count. */
  type TimeSpan = int

  /** `default(DateTimeOffset)` as Unix seconds: midnight of January 1 of year 1. */
  const DefaultInstant: int := DefaultDate * SecondsPerDay

  datatype User = User(
    id: string,
    email: string,
    plants: seq<Plant>,
    dateFormat: string,
    firebaseRef: string,
    timezone: TimeSpan,
    notificationTime: TimeSpan,
    language: string,
    lastNotificationTime: int,
    firebaseRegistrationTokens: seq<string>)

  /** `s?.Trim() ?? ""`. */
  function TrimOrEmpty(s: Option<string>): (r: string)
    ensures s.None? ==> r == ""
    ensures s.Some? ==> r == Trim(s.value)
    ensures Trimmed(r)
  {
    match s
    case None => ""
    case Some(v) => Trim(v)
  }

  /**
   * The constructor: texts trimmed (null as ""), null lists empty, and the
   * time zone and notification time the outcome of `TimeSpan.TryParse` on
   * the trimmed text (`None` when it fails), zero by default.
   */
  function NewUser(id: Option<string>, email: Option<string>, plants: Option<seq<Plant>>,
                   dateFormat: Option<string>, firebaseRef: Option<string>,
                   timezone: Option<TimeSpan>, notificationTime: Option<TimeSpan>,
                   language: Option<string>, lastNotificationTime: Option<int>,
                   firebaseRegistrationTokens: Option<seq<string>>): (u: User)
    ensures u.id == TrimOrEmpty(id) && u.email == TrimOrEmpty(email)
    ensures u.dateFormat == TrimOrEmpty(dateFormat) && u.firebaseRef == TrimOrEmpty(firebaseRef)
    ensures u.language == TrimOrEmpty(language)
    ensures u.plants == plants.GetOr([]) && u.firebaseRegistrationTokens == firebaseRegistrationTokens.GetOr([])
    ensures u.timezone == timezone.GetOr(0) && u.notificationTime == notificationTime.GetOr(0)
    ensures u.lastNotificationTime == lastNotificationTime.GetOr(DefaultInstant)
  {
    User(TrimOrEmpty(id), TrimOrEmpty(email), plants.GetOr([]), TrimOrEmpty(dateFormat),
         TrimOrEmpty(firebaseRef), timezone.GetOr(0), notificationTime.GetOr(0),
         TrimOrEmpty(language), lastNotificationTime.GetOr(DefaultInstant),
         firebaseRegistrationTokens.GetOr([]))
  }

  /** Constructing a user from the fields of a constructed user gives it back: the stored texts are already trimmed. */
  lemma NewUserRoundTrip(u: User)
    requires Trimmed(u.id) && Trimmed(u.email) && Trimmed(u.dateFormat)
    requires Trimmed(u.firebaseRef) && Trimmed(u.language)
    ensures NewUser(Some(u.id), Some(u.email), Some(u.plants), Some(u.dateFormat), Some(u.firebaseRef),
                    Some(u.timezone), Some(u.notificationTime), Some(u.language),
                    Some(u.lastNotificationTime), Some(u.firebaseRegistrationTokens)) == u
  {
    TrimTrimmed(u.id);
    TrimTrimmed(u.email);
    TrimTrimmed(u.dateFormat);
    TrimTrimmed(u.firebaseRef);
    TrimTrimmed(u.language);
  }

  // ----- RemovePlant -----

  /** `RemovePlant`: drops every plant with the given id and keeps the rest in order. */
  function RemovePlant(u: User, plantId: string): (r: User)
    ensures r.(plants := u.plants) == u
    ensures forall p :: p in r.plants <==> p in u.plants && p.id != plantId
  {
    u.(plants := RemoveAll(u.plants, (p: Plant) => p.id == plantId))
  }

  /** Removing an id no plant has changes nothing, and removing an id twice is removing it once. */
  lemma RemovePlantSettles(u: User, plantId: string)
    ensures (forall i :: 0 <= i < |u.plants| ==> u.plants[i].id != plantId) ==> RemovePlant(u, plantId) == u
    ensures RemovePlant(RemovePlant(u, plantId), plantId) == RemovePlant(u, plantId)
  {
    var p := (p: Plant) => p.id == plantId;
    RemoveAllIdempotent(u.plants, p);
    if forall i :: 0 <= i < |u.plants| ==> u.plants[i].id != plantId {
      RemoveAllNone(u.plants, p);
    }
  }

  // ----- Entries added for today -----

  /** `new HistoryDomain { Id = id, Type = t, Date = today, IsDone = false }`. */
  function TodayEntry(t: HistoryType, today: Date, id: ObjectIdText): (h: History)
    ensures h.id == id && h.historyType == t && h.date == today && !h.isDone
    ensures h.userId == "" && h.plantIconRef == "" && h.plantName == "" && h.plantId == ""
  {
    History(id, "", today, false, t, "", "", "")
  }

  /** The entry is what the initializer builds through the trimming `Id` setter. */
  lemma TodayEntryBuilt(t: HistoryType, today: Date, id: ObjectIdText)
    ensures TodayEntry(t, today, id) == Blank.WithId(id).(historyType := t, date := today, isDone := false)
  {
    TrimTrimmed(id);
  }

  /** `with { History = History.Add(h) }`. */
  function AddEntry(p: Plant, h: History): Plant {
    p.WithHistory(p.SortedHistory() + [h])
  }

  /** On a valid plant, adding a recent entry adds exactly that entry and keeps the plant valid. */
  lemma AddEntryKeeps(p: Plant, h: History)
    requires p.Valid() && IsRecent(h, Cutoff(p.todayUserDate))
    ensures multiset(AddEntry(p, h).recent) == multiset(p.recent) + multiset{h}
    ensures AddEntry(p, h).Valid() && AddEntry(p, h).(recent := p.recent) == p
  {
    HistoryAddRange(p, [h]);
    FiltersCons(h, [], Cutoff(p.todayUserDate));
    assert [h] + [] == [h];
  }

  /** One entry per action of `ts`, dated `today`, with ids read from `k` on. */
  function NewEntries(ts: seq<HistoryType>, today: Date, ids: nat -> ObjectIdText, k: nat): (hs: seq<History>)
  {
    if |ts| == 0 then []
    else NewEntries(ts[..|ts| - 1], today, ids, k) + [TodayEntry(ts[|ts| - 1], today, ids(k + |ts| - 1))]
  }

  /** The entry for one more action takes the next id. */
  lemma NewEntriesSnoc(ts: seq<HistoryType>, t: HistoryType, today: Date, ids: nat -> ObjectIdText, k: nat, j: nat)
    requires j == k + |ts|
    ensures NewEntries(ts + [t], today, ids, k) == NewEntries(ts, today, ids, k) + [TodayEntry(t, today, ids(j))]
  {
    assert (ts + [t])[..|ts|] == ts;
  }

  /** `[t]` when `due`, else nothing. */
  function Include(due: bool, t: HistoryType): seq<HistoryType> {
    if due then [t] else []
  }

  /** The actions, in the order the code checks them, whose schedule starts on `today`. */
  function StartingOn(p: Plant, today: Date): seq<HistoryType> {
    Include(p.watering.start == today, HistoryType.Watering)
    + Include(p.misting.start == today, HistoryType.Misting)
    + Include(p.feeding.start == today, HistoryType.Feeding)
    + Include(p.repotting.start == today, HistoryType.Repotting)
  }

  /** An action is listed exactly when its schedule starts on `today`. */
  lemma StartingOnMembers(p: Plant, today: Date, t: HistoryType)
    ensures t in StartingOn(p, today) <==> IsAction(t) && p.ScheduleOf(t).start == today
  {
  }

  /** The entries `hs` added one after the other. */
  function AddEntries(p: Plant, hs: seq<History>): Plant
    decreases |hs|
  {
    if |hs| == 0 then p else AddEntry(AddEntries(p, hs[..|hs| - 1]), hs[|hs| - 1])
  }

  lemma AddEntriesSnoc(p: Plant, hs: seq<History>, h: History)
    ensures AddEntries(p, hs + [h]) == AddEntry(AddEntries(p, hs), h)
  {
    assert (hs + [h])[..|hs|] == hs;
  }

  /** Adding entries changes only the recent history. */
  lemma {:induction false} AddEntriesFields(p: Plant, hs: seq<History>, rs: seq<History>)
    ensures AddEntries(p, hs).(recent := rs) == p.(recent := rs)
    decreases |hs|
  {
    if |hs| > 0 {
      var q := AddEntries(p, hs[..|hs| - 1]);
      AddEntriesFields(p, hs[..|hs| - 1], rs);
      assert AddEntry(q, hs[|hs| - 1]).(recent := q.recent) == q;
    }
  }

  /**
   * On a valid plant, adding entries dated on or after its cutoff adds
   * exactly those entries, whatever the order, and keeps the plant valid.
   */
  lemma {:induction false} AddEntriesCounts(p: Plant, hs: seq<History>)
    requires p.Valid()
    requires forall i :: 0 <= i < |hs| ==> IsRecent(hs[i], Cutoff(p.todayUserDate))
    ensures AddEntries(p, hs).Valid()
    ensures multiset(AddEntries(p, hs).recent) == multiset(p.recent) + multiset(hs)
    decreases |hs|
  {
    if |hs| > 0 {
      var init, h := hs[..|hs| - 1], hs[|hs| - 1];
      assert hs == init + [h];
      forall i | 0 <= i < |init| ensures IsRecent(init[i], Cutoff(p.todayUserDate)) {
        assert init[i] == hs[i];
      }
      AddEntriesCounts(p, init);
      var q := AddEntries(p, init);
      AddEntriesFields(p, init, p.recent);
      AddEntriesCountsStep(p, q, init, h);
    }
  }

  /** The inductive step of `AddEntriesCounts`: one more recent entry on a plant that already holds `init`. */
  lemma AddEntriesCountsStep(p: Plant, q: Plant, init: seq<History>, h: History)
    requires q.Valid() && q.(recent := p.recent) == p && IsRecent(h, Cutoff(p.todayUserDate))
    requires multiset(q.recent) == multiset(p.recent) + multiset(init)
    ensures AddEntry(q, h).Valid() && multiset(AddEntry(q, h).recent) == multiset(p.recent) + multiset(init + [h])
  {
    assert q.todayUserDate == p.todayUserDate;
    AddEntryKeeps(q, h);
    assert multiset(init + [h]) == multiset(init) + multiset{h};
  }

  /** Every entry made for today is dated today. */
  lemma NewEntriesDated(ts: seq<HistoryType>, today: Date, ids: nat -> ObjectIdText, k: nat)
    ensures |NewEntries(ts, today, ids, k)| == |ts|
    ensures forall i :: 0 <= i < |ts| ==> NewEntries(ts, today, ids, k)[i].date == today
  {
    if |ts| > 0 {
      NewEntriesDated(ts[..|ts| - 1], today, ids, k);
    }
  }

  /**
   * One `if (…) { History = History.Add(new entry) }` block: when `due`, the
   * next id goes to a not-done entry of type `t` dated today.
   */
  method AddEntryIf(ghost p: Plant, np: Plant, ghost ts: seq<HistoryType>, due: bool, t: HistoryType, today: Date,
                    ids: nat -> ObjectIdText, ghost first: nat, next: nat)
    returns (np': Plant, next': nat, ghost ts': seq<HistoryType>)
    requires np == AddEntries(p, NewEntries(ts, today, ids, first)) && next == first + |ts|
    ensures ts' == ts + Include(due, t)
    ensures np' == AddEntries(p, NewEntries(ts', today, ids, first)) && next' == first + |ts'|
  {
    np', next', ts' := np, next, ts;
    if due {
      var h := TodayEntry(t, today, ids(next));
      NewEntriesSnoc(ts, t, today, ids, first, next);
      AddEntriesSnoc(p, NewEntries(ts, today, ids, first), h);
      np' := AddEntry(np, h);
      next', ts' := next + 1, ts + [t];
    }
  }

  /**
   * `AddNewPlant`: gives the plant a fresh id and, for each action whose
   * schedule starts on the user's today, a not-done entry dated today,
   * then appends it to the user's plants.
   */
  method AddNewPlant(u: User, plant: Plant, today: Date, ids: nat -> ObjectIdText, k: nat) returns (r: User, next: nat)
    ensures r.(plants := u.plants) == u
    ensures |r.plants| == |u.plants| + 1 && r.plants[..|u.plants|] == u.plants
    ensures r.plants[|u.plants|] == AddEntries(plant.(id := ids(k)), NewEntries(StartingOn(plant, today), today, ids, k + 1))
    ensures next == k + 1 + |StartingOn(plant, today)|
  {
    var newPlant := plant.WithId(ids(k));
    assert newPlant == plant.(id := ids(k)) by { TrimTrimmed(ids(k)); }
    newPlant, next := AddStartingEntries(newPlant, today, ids, k + 1);
    r := u.(plants := u.plants + [newPlant]);
  }

  /** The four action blocks of `AddNewPlant`, on the plant that already has its id. */
  method AddStartingEntries(p: Plant, today: Date, ids: nat -> ObjectIdText, k: nat) returns (np: Plant, next: nat)
    ensures np == AddEntries(p, NewEntries(StartingOn(p, today), today, ids, k))
    ensures next == k + |StartingOn(p, today)|
  {
    np, next := p, k;
    ghost var ts: seq<HistoryType> := [];
    np, next, ts := AddEntryIf(p, np, ts, p.watering.start == today, HistoryType.Watering, today, ids, k, next);
    np, next, ts := AddEntryIf(p, np, ts, p.misting.start == today, HistoryType.Misting, today, ids, k, next);
    np, next, ts := AddEntryIf(p, np, ts, p.feeding.start == today, HistoryType.Feeding, today, ids, k, next);
    np, next, ts := AddEntryIf(p, np, ts, p.repotting.start == today, HistoryType.Repotting, today, ids, k, next);
    assert [] + Include(p.watering.start == today, HistoryType.Watering) == Include(p.watering.start == today, HistoryType.Watering);
  }

  /**
   * What `AddNewPlant` stores for a plant whose history is split at its
   * cutoff, when today does not precede the cutoff: a valid plant whose
   * recent history is the old one plus one entry per action starting today,
   * each dated today and not done.
   */
  lemma AddNewPlantCounts(plant: Plant, today: Date, ids: nat -> ObjectIdText, k: nat)
    requires plant.Valid() && today >= Cutoff(plant.todayUserDate)
    ensures var np := AddEntries(plant.(id := ids(k)), NewEntries(StartingOn(plant, today), today, ids, k + 1));
      np.Valid() && multiset(np.recent) == multiset(plant.recent) + multiset(NewEntries(StartingOn(plant, today), today, ids, k + 1))
  {
    var p0, hs := plant.(id := ids(k)), NewEntries(StartingOn(plant, today), today, ids, k + 1);
    NewEntriesDated(StartingOn(plant, today), today, ids, k + 1);
    AddEntriesCounts(p0, hs);
  }

  // ----- UpdatePlant -----

  /**
   * The `oldPlant with { … }` of `UpdatePlant`: the stored plant keeps its
   * id, its histories and its today, and takes the edited plant's texts
   * (through the trimming setters) and its four schedules.
   */
  function Edited(stored: Plant, plant: Plant): (e: Plant)
    ensures e.id == stored.id && e.recent == stored.recent && e.oldHistory == stored.oldHistory
    ensures e.todayUserDate == stored.todayUserDate
    ensures e.name == Trim(plant.name) && e.notes == Trim(plant.notes) && e.iconRef == Trim(plant.iconRef)
    ensures e.watering == plant.watering && e.misting == plant.misting
    ensures e.feeding == plant.feeding && e.repotting == plant.repotting
  {
    stored.WithName(plant.name).WithNotes(plant.notes).WithIconRef(plant.iconRef)
      .(watering := plant.watering, misting := plant.misting, feeding := plant.feeding, repotting := plant.repotting)
  }

  /** `!hs.Any(h => h.Date == today && h.Type == t)`. */
  predicate NoEntryOn(hs: seq<History>, today: Date, t: HistoryType) {
    forall i :: 0 <= i < |hs| ==> !(hs[i].date == today && hs[i].historyType == t)
  }

  /** An action whose schedule starts today and that has no entry of its type dated today. */
  predicate DueToday(p: Plant, t: HistoryType, today: Date)
    requires IsAction(t)
  {
    p.ScheduleOf(t).start == today && NoEntryOn(p.SortedHistory(), today, t)
  }

  /** The actions, in the order the code checks them, `UpdatePlant` adds an entry for. */
  function MissingToday(p: Plant, today: Date): seq<HistoryType> {
    Include(DueToday(p, HistoryType.Watering, today), HistoryType.Watering)
    + Include(DueToday(p, HistoryType.Misting, today), HistoryType.Misting)
    + Include(DueToday(p, HistoryType.Feeding, today), HistoryType.Feeding)
    + Include(DueToday(p, HistoryType.Repotting, today), HistoryType.Repotting)
  }

  /** An action is listed exactly when it starts today and has no entry of its type dated today. */
  lemma MissingTodayMembers(p: Plant, today: Date, t: HistoryType)
    ensures t in MissingToday(p, today) <==>
      IsAction(t) && p.ScheduleOf(t).start == today
      && forall h :: h in p.recent ==> !(h.date == today && h.historyType == t)
  {
    if IsAction(t) {
      var hs := p.SortedHistory();
      if NoEntryOn(hs, today, t) {
        forall h | h in p.recent ensures !(h.date == today && h.historyType == t) {
          var i :| 0 <= i < |hs| && hs[i] == h;
        }
      }
    }
  }

  /** The entries for the actions `ts` have the types of `ts`. */
  lemma NewEntriesTypes(ts: seq<HistoryType>, today: Date, ids: nat -> ObjectIdText, k: nat)
    ensures |NewEntries(ts, today, ids, k)| == |ts|
    ensures forall i :: 0 <= i < |ts| ==> NewEntries(ts, today, ids, k)[i].historyType == ts[i]
  {
    if |ts| > 0 {
      NewEntriesTypes(ts[..|ts| - 1], today, ids, k);
    }
  }

  /** On a valid plant, after adding entries dated on or after its cutoff the history holds the old entries and the added ones. */
  lemma AddEntriesMembers(e: Plant, hs: seq<History>)
    requires e.Valid()
    requires forall i :: 0 <= i < |hs| ==> IsRecent(hs[i], Cutoff(e.todayUserDate))
    ensures forall h :: h in AddEntries(e, hs).SortedHistory() <==> h in e.SortedHistory() || h in hs
  {
    AddEntriesCounts(e, hs);
    var m := multiset(AddEntries(e, hs).recent);
    forall h ensures h in AddEntries(e, hs).recent <==> h in e.recent || h in hs {
      assert h in AddEntries(e, hs).recent <==> h in m;
      assert h in m <==> h in multiset(e.recent) || h in multiset(hs);
    }
  }

  /** Whether an entry of type `t` is dated today does not change by adding entries of other types. */
  lemma NoEntryOnSame(a: seq<History>, b: seq<History>, hs: seq<History>, ts: seq<HistoryType>, t: HistoryType, today: Date)
    requires forall h :: h in a <==> h in b || h in hs
    requires |hs| == |ts| && (forall i :: 0 <= i < |ts| ==> hs[i].historyType == ts[i]) && t !in ts
    ensures NoEntryOn(a, today, t) == NoEntryOn(b, today, t)
  {
    if NoEntryOn(b, today, t) {
      forall i | 0 <= i < |a| ensures !(a[i].date == today && a[i].historyType == t) {
        if a[i] in hs {
          var j :| 0 <= j < |hs| && hs[j] == a[i];
          assert ts[j] in ts;
        } else {
          var j :| 0 <= j < |b| && b[j] == a[i];
        }
      }
    }
    if NoEntryOn(a, today, t) {
      forall i | 0 <= i < |b| ensures !(b[i].date == today && b[i].historyType == t) {
        assert b[i] in a;
        var j :| 0 <= j < |a| && a[j] == b[i];
      }
    }
  }

  /**
   * Adding entries of other types to a valid plant, dated today when today
   * does not precede its cutoff, does not change whether an entry of type
   * `t` is dated today.
   */
  lemma NoEntryOnAdded(e: Plant, ts: seq<HistoryType>, t: HistoryType, today: Date, ids: nat -> ObjectIdText, k: nat)
    requires e.Valid() && today >= Cutoff(e.todayUserDate) && t !in ts
    ensures NoEntryOn(AddEntries(e, NewEntries(ts, today, ids, k)).SortedHistory(), today, t)
        == NoEntryOn(e.SortedHistory(), today, t)
  {
    var hs := NewEntries(ts, today, ids, k);
    NewEntriesTypes(ts, today, ids, k);
    NewEntriesDated(ts, today, ids, k);
    AddEntriesMembers(e, hs);
    NoEntryOnSame(AddEntries(e, hs).SortedHistory(), e.SortedHistory(), hs, ts, t, today);
  }

  /**
   * What the block for `t` tests on the plant built so far is what it would
   * test on the edited plant, when only entries for earlier actions were
   * added and the plant is valid with today not before its cutoff.
   */
  lemma DueUnchanged(e: Plant, ts: seq<HistoryType>, t: HistoryType, today: Date, ids: nat -> ObjectIdText, k: nat)
    requires IsAction(t) && t !in ts
    ensures var np := AddEntries(e, NewEntries(ts, today, ids, k));
      e.Valid() && today >= Cutoff(e.todayUserDate) ==>
        (np.ScheduleOf(t).start == today && NoEntryOn(np.SortedHistory(), today, t)) == DueToday(e, t, today)
  {
    AddEntriesFields(e, NewEntries(ts, today, ids, k), e.recent);
    if e.Valid() && today >= Cutoff(e.todayUserDate) {
      NoEntryOnAdded(e, ts, t, today, ids, k);
    }
  }

  lemma IncludeBelow(ts: seq<HistoryType>, due: bool, t: HistoryType)
    requires forall i :: 0 <= i < |ts| ==> ts[i] < t
    ensures forall i :: 0 <= i < |ts + Include(due, t)| ==> (ts + Include(due, t))[i] <= t
  {
  }

  /**
   * One `if (newPlant.XStart == today && !newPlant.History.Any(…))` block of
   * `UpdatePlant`, on the plant built so far from `e`.
   */
  method AddEntryIfMissing(ghost e: Plant, np: Plant, ghost ts: seq<HistoryType>, t: HistoryType, today: Date,
                           ids: nat -> ObjectIdText, ghost first: nat, next: nat)
    returns (np': Plant, next': nat, ghost ts': seq<HistoryType>)
    requires IsAction(t) && forall i :: 0 <= i < |ts| ==> ts[i] < t
    requires np == AddEntries(e, NewEntries(ts, today, ids, first)) && next == first + |ts|
    ensures np' == AddEntries(e, NewEntries(ts', today, ids, first)) && next' == first + |ts'|
    ensures forall i :: 0 <= i < |ts'| ==> ts'[i] <= t
    ensures e.Valid() && today >= Cutoff(e.todayUserDate) ==> ts' == ts + Include(DueToday(e, t, today), t)
  {
    assert forall x :: x in ts ==> x < t by {
      forall x | x in ts ensures x < t { var i :| 0 <= i < |ts| && ts[i] == x; }
    }
    DueUnchanged(e, ts, t, today, ids, first);
    var due := np.ScheduleOf(t).start == today && NoEntryOn(np.SortedHistory(), today, t);
    np', next', ts' := AddEntryIf(e, np, ts, due, t, today, ids, first, next);
    IncludeBelow(ts, due, t);
  }

  /**
   * The `newPlant` of `UpdatePlant`: the edited copy of the stored plant,
   * with a not-done entry dated today for each action that starts today
   * and has no entry of its type today yet.
   */
  method EditPlant(stored: Plant, plant: Plant, today: Date, ids: nat -> ObjectIdText, k: nat) returns (np: Plant, next: nat)
    ensures np.(recent := stored.recent) == Edited(stored, plant)
    ensures var e := Edited(stored, plant);
      e.Valid() && today >= Cutoff(e.todayUserDate) ==>
        np == AddEntries(e, NewEntries(MissingToday(e, today), today, ids, k)) && next == k + |MissingToday(e, today)|
  {
    np := Edited(stored, plant);
    ghost var e := np;
    next := k;
    ghost var ts: seq<HistoryType> := [];
    np, next, ts := AddEntryIfMissing(e, np, ts, HistoryType.Watering, today, ids, k, next);
    np, next, ts := AddEntryIfMissing(e, np, ts, HistoryType.Misting, today, ids, k, next);
    np, next, ts := AddEntryIfMissing(e, np, ts, HistoryType.Feeding, today, ids, k, next);
    np, next, ts := AddEntryIfMissing(e, np, ts, HistoryType.Repotting, today, ids, k, next);
    AddEntriesFields(e, NewEntries(ts, today, ids, k), e.recent);
    if e.Valid() && today >= Cutoff(e.todayUserDate) {
      assert [] + Include(DueToday(e, HistoryType.Watering, today), HistoryType.Watering)
          == Include(DueToday(e, HistoryType.Watering, today), HistoryType.Watering);
    }
  }

  /** An action due today on the edited plant is among the actions `UpdatePlant` adds an entry for. */
  lemma DueIsMissing(e: Plant, t: HistoryType, today: Date)
    requires IsAction(t) && DueToday(e, t, today)
    ensures t in MissingToday(e, today)
  {
  }

  /** A history holding `b` and `hs` has an entry of type `t` today when `b` has one or one of `hs` is for `t`. */
  lemma CoveredBy(a: seq<History>, b: seq<History>, hs: seq<History>, ts: seq<HistoryType>, t: HistoryType, today: Date)
    requires forall h :: h in a <==> h in b || h in hs
    requires |hs| == |ts| && forall i :: 0 <= i < |ts| ==> hs[i].historyType == ts[i] && hs[i].date == today
    requires NoEntryOn(b, today, t) ==> t in ts
    ensures !NoEntryOn(a, today, t)
  {
    var h: History;
    if NoEntryOn(b, today, t) {
      var i :| 0 <= i < |ts| && ts[i] == t;
      h := hs[i];
    } else {
      var i :| 0 <= i < |b| && b[i].date == today && b[i].historyType == t;
      h := b[i];
    }
    assert h in a;
    var j :| 0 <= j < |a| && a[j] == h;
  }

  /**
   * After `EditPlant`, every action that starts today has an entry of its
   * type dated today: the one it already had or the one just added.
   */
  lemma CoveredAction(e: Plant, t: HistoryType, today: Date, ids: nat -> ObjectIdText, k: nat)
    requires IsAction(t) && e.Valid() && today >= Cutoff(e.todayUserDate)
    ensures !DueToday(AddEntries(e, NewEntries(MissingToday(e, today), today, ids, k)), t, today)
  {
    var ts := MissingToday(e, today);
    var hs := NewEntries(ts, today, ids, k);
    NewEntriesTypes(ts, today, ids, k);
    NewEntriesDated(ts, today, ids, k);
    AddEntriesFields(e, hs, e.recent);
    if e.ScheduleOf(t).start == today {
      if NoEntryOn(e.SortedHistory(), today, t) {
        DueIsMissing(e, t, today);
      }
      AddEntriesMembers(e, hs);
      CoveredBy(AddEntries(e, hs).SortedHistory(), e.SortedHistory(), hs, ts, t, today);
    }
  }

  /** Editing a plant that already carries the edit changes nothing. */
  lemma EditedAgain(stored: Plant, plant: Plant, hs: seq<History>)
    ensures var np := AddEntries(Edited(stored, plant), hs); Edited(np, plant) == np
  {
    var e := Edited(stored, plant);
    AddEntriesFields(e, hs, e.recent);
    TrimIdempotent(plant.name);
    TrimIdempotent(plant.notes);
    TrimIdempotent(plant.iconRef);
  }

  /**
   * Editing twice with the same today adds nothing the second time: the
   * copy `EditPlant` leaves is still valid (and is its own edit, by
   * `EditedAgain`), and no action is missing an entry on it.
   */
  lemma EditPlantSettles(e: Plant, today: Date, ids: nat -> ObjectIdText, k: nat)
    requires e.Valid() && today >= Cutoff(e.todayUserDate)
    ensures var np := AddEntries(e, NewEntries(MissingToday(e, today), today, ids, k));
      np.Valid() && np.todayUserDate == e.todayUserDate && MissingToday(np, today) == []
  {
    var hs := NewEntries(MissingToday(e, today), today, ids, k);
    AddEntriesFields(e, hs, e.recent);
    NewEntriesDated(MissingToday(e, today), today, ids, k);
    AddEntriesCounts(e, hs);
    CoveredAction(e, HistoryType.Watering, today, ids, k);
    CoveredAction(e, HistoryType.Misting, today, ids, k);
    CoveredAction(e, HistoryType.Feeding, today, ids, k);
    CoveredAction(e, HistoryType.Repotting, today, ids, k);
  }

  /**
   * `UpdatePlant`: an unknown plant id leaves the user unchanged; otherwise
   * the first plant with that id is replaced by `EditPlant`'s copy of it and
   * nothing else changes.
   */
  method UpdatePlant(u: User, plant: Plant, today: Date, ids: nat -> ObjectIdText, k: nat) returns (r: User, next: nat)
    ensures (forall i :: 0 <= i < |u.plants| ==> u.plants[i].id != plant.id) ==> r == u && next == k
    ensures |r.plants| == |u.plants|
    ensures forall j :: 0 <= j < |u.plants| && u.plants[j].id == plant.id
                        && (forall i :: 0 <= i < j ==> u.plants[i].id != plant.id) ==>
      var e := Edited(u.plants[j], plant);
      r == u.(plants := u.plants[j := r.plants[j]])
      && r.plants[j].(recent := e.recent) == e
      && (e.Valid() && today >= Cutoff(e.todayUserDate) ==>
            r.plants[j] == AddEntries(e, NewEntries(MissingToday(e, today), today, ids, k))
            && next == k + |MissingToday(e, today)|)
  {
    var found := Find(u.plants, (p: Plant) => p.id == plant.id);
    if found.None? {
      return u, k;
    }
    var j := found.value;
    var oldPlant := u.plants[j];
    var newPlant;
    newPlant, next := EditPlant(oldPlant, plant, today, ids, k);
    PlantEqualsEquivalence(oldPlant, oldPlant, oldPlant);
    ReplaceAt(u.plants, j, oldPlant, newPlant, PlantEquals);
    var replaced := Replace(u.plants, oldPlant, newPlant, PlantEquals);
    r := u.(plants := replaced.value);
    assert r.plants == u.plants[j := newPlant];
    assert forall j' :: (0 <= j' < |u.plants| && u.plants[j'].id == plant.id
                         && forall i :: 0 <= i < j' ==> u.plants[i].id != plant.id) ==> j' == j;
  }

  // ----- UpdateHistory -----

  /** The position of the first entry of `hs` with the given id. */
  function IndexOfId(hs: seq<History>, id: string): (r: Option<nat>)
    ensures r.Some? ==> r.value < |hs| && hs[r.value].id == id && forall j :: 0 <= j < r.value ==> hs[j].id != id
    ensures r.None? ==> forall j :: 0 <= j < |hs| ==> hs[j].id != id
  {
    if |hs| == 0 then None
    else if hs[0].id == id then Some(0)
    else match IndexOfId(hs[1..], id)
      case None => None
      case Some(i) => Some(i + 1)
  }

  /** The inner `foreach … if (history.Id == id) { … break; }`: the first entry with the id. */
  method FindEntry(hs: seq<History>, id: string) returns (found: Option<nat>)
    ensures found == IndexOfId(hs, id)
  {
    var j := 0;
    while j < |hs|
      invariant 0 <= j <= |hs|
      invariant forall i :: 0 <= i < j ==> hs[i].id != id
    {
      if hs[j].id == id {
        return Some(j);
      }
      j := j + 1;
    }
    found := None;
  }

  /**
   * `plant with { History = History.Replace(h, h with { IsDone = isDone }) }`
   * for the entry at position `j` of the plant's dated history.
   */
  function Marked(p: Plant, j: nat, isDone: bool): Plant
    requires j < |p.SortedHistory()|
  {
    var hs := p.SortedHistory();
    HistoryEqualsEquivalence(hs[j], hs[j], hs[j]);
    p.WithHistory(Replace(hs, hs[j], hs[j].(isDone := isDone), HistoryEquals).value)
  }

  /** The position of the last of the first `n` elements that satisfies `f`. */
  function LastWhere<T>(s: seq<T>, f: T -> bool, n: nat): (r: Option<nat>)
    requires n <= |s|
    ensures r.Some? ==> r.value < n && f(s[r.value])
  {
    if n == 0 then None
    else if f(s[n - 1]) then Some(n - 1)
    else LastWhere(s, f, n - 1)
  }

  /** No element after the last one satisfying `f` satisfies it, and when there is none no element does. */
  lemma {:induction false} LastWhereIsLast<T>(s: seq<T>, f: T -> bool, n: nat, i: nat)
    requires i < n <= |s|
    requires LastWhere(s, f, n).None? || LastWhere(s, f, n).value < i
    ensures !f(s[i])
  {
    if i < n - 1 {
      LastWhereIsLast(s, f, n - 1, i);
    }
  }

  /** The plant's dated history holds an entry with the id. */
  predicate HoldsId(p: Plant, id: string) {
    IndexOfId(p.SortedHistory(), id).Some?
  }

  /** The last plant among the first `n` whose history holds an entry with the id. */
  function LastHolder(ps: seq<Plant>, id: string, n: nat): (r: Option<nat>)
    requires n <= |ps|
    ensures r.Some? ==> r.value < n && HoldsId(ps[r.value], id)
  {
    LastWhere(ps, (p: Plant) => HoldsId(p, id), n)
  }

  /** No plant after the last holder holds the id, and when there is no holder no plant does. */
  lemma LastHolderIsLast(ps: seq<Plant>, id: string, n: nat, i: nat)
    requires i < n <= |ps|
    requires LastHolder(ps, id, n).None? || LastHolder(ps, id, n).value < i
    ensures !HoldsId(ps[i], id)
  {
    LastWhereIsLast(ps, (p: Plant) => HoldsId(p, id), n, i);
  }

  /**
   * What `UpdateHistory` leaves after its loop reached plant `n`: the user
   * as it came when no plant so far holds the id, else the user's plants
   * with the last holder marked; every replacement starts from the
   * original plant list, so an earlier holder's change is lost.
   */
  function UpdatedUpTo(u: User, id: string, isDone: bool, n: nat): User
    requires n <= |u.plants|
  {
    match LastHolder(u.plants, id, n)
    case None => u
    case Some(i) =>
      var p := u.plants[i];
      var m := Marked(p, IndexOfId(p.SortedHistory(), id).value, isDone);
      PlantEqualsEquivalence(p, p, p);
      u.(plants := Replace(u.plants, p, m, PlantEquals).value)
  }

  /** One more plant in `UpdateHistory`'s loop, when it holds the id: its copy replaces the result. */
  lemma UpdatedStepFound(u: User, id: string, isDone: bool, i: nat, j: nat)
    requires i < |u.plants| && IndexOfId(u.plants[i].SortedHistory(), id) == Some(j)
    ensures UpdatedUpTo(u, id, isDone, i + 1)
      == u.(plants := Replace(u.plants, u.plants[i], Marked(u.plants[i], j, isDone), PlantEquals).value)
  {
  }

  /** One more plant in `UpdateHistory`'s loop, when it does not hold the id: the result stays. */
  lemma UpdatedStepSkipped(u: User, id: string, isDone: bool, i: nat)
    requires i < |u.plants| && IndexOfId(u.plants[i].SortedHistory(), id).None?
    ensures UpdatedUpTo(u, id, isDone, i + 1) == UpdatedUpTo(u, id, isDone, i)
  {
  }

  /** The loop body: the entry at `j` of plant `i` marked, in a copy of the original plant list. */
  method MarkIn(u: User, i: nat, j: nat, isDone: bool) returns (r: User)
    requires i < |u.plants| && j < |u.plants[i].SortedHistory()|
    ensures r == u.(plants := Replace(u.plants, u.plants[i], Marked(u.plants[i], j, isDone), PlantEquals).value)
  {
    var plant := u.plants[i];
    var history := plant.SortedHistory();
    HistoryEqualsEquivalence(history[j], history[j], history[j]);
    var marked := Replace(history, history[j], history[j].(isDone := isDone), HistoryEquals);
    var newPlant := plant.WithHistory(marked.value);
    PlantEqualsEquivalence(plant, plant, plant);
    var replaced := Replace(u.plants, plant, newPlant, PlantEquals);
    r := u.(plants := replaced.value);
  }

  /** One pass of `UpdateHistory`'s loop: the result after plant `i`. */
  method VisitPlant(u: User, r: User, id: string, isDone: bool, i: nat) returns (r': User)
    requires i < |u.plants| && r == UpdatedUpTo(u, id, isDone, i)
    ensures r' == UpdatedUpTo(u, id, isDone, i + 1)
  {
    var found := FindEntry(u.plants[i].SortedHistory(), id);
    if found.Some? {
      r' := MarkIn(u, i, found.value, isDone);
      UpdatedStepFound(u, id, isDone, i, found.value);
    } else {
      r' := r;
      UpdatedStepSkipped(u, id, isDone, i);
    }
  }

  /**
   * `UpdateHistory`: for every plant holding an entry with the id, marks
   * the first such entry done or not done in a copy of the original plant
   * list; the last copy made is the result.
   */
  method UpdateHistory(u: User, id: string, isDone: bool) returns (r: User)
    ensures r == UpdatedUpTo(u, id, isDone, |u.plants|)
  {
    r := u;
    var i := 0;
    while i < |u.plants|
      invariant 0 <= i <= |u.plants|
      invariant r == UpdatedUpTo(u, id, isDone, i)
    {
      r := VisitPlant(u, r, id, isDone, i);
      i := i + 1;
    }
  }

  /** When no plant's history holds the id, `UpdateHistory` changes nothing. */
  lemma UpdateHistoryUnknown(u: User, id: string, isDone: bool)
    requires forall i, h :: 0 <= i < |u.plants| && h in u.plants[i].recent ==> h.id != id
    ensures UpdatedUpTo(u, id, isDone, |u.plants|) == u
  {
  }

  /**
   * On a valid plant, marking the entry at `j`, the first with its id,
   * changes its `IsDone` and nothing else: the recent history becomes the
   * dated history with that one entry updated.
   */
  lemma MarkedOnlyIsDone(p: Plant, j: nat, isDone: bool)
    requires p.Valid() && j < |p.SortedHistory()|
    requires forall i :: 0 <= i < j ==> p.SortedHistory()[i].id != p.SortedHistory()[j].id
    ensures var hs := p.SortedHistory();
      Marked(p, j, isDone) == p.(recent := hs[j := hs[j].(isDone := isDone)])
  {
    var hs := p.SortedHistory();
    var hs' := hs[j := hs[j].(isDone := isDone)];
    assert forall h :: h in hs' ==> h == hs'[j] || h in hs by {
      forall h | h in hs' ensures h == hs'[j] || h in hs {
        var i :| 0 <= i < |hs'| && hs'[i] == h;
        if i != j { assert hs[i] == h; }
      }
    }
    assert hs[j] in p.recent;
    ReplaceAt(hs, j, hs[j], hs'[j], HistoryEquals);
    RecentKeepsAll(hs', Cutoff(p.todayUserDate));
  }

  /** With distinct plant ids, a plant is the first one `Equals` to itself. */
  lemma FirstEqualPlant(ps: seq<Plant>, i: nat)
    requires i < |ps| && forall a, b :: 0 <= a < b < |ps| ==> ps[a].id != ps[b].id
    ensures forall a :: 0 <= a < i ==> !PlantEquals(ps[a], ps[i])
    ensures PlantEquals(ps[i], ps[i])
  {
    PlantEqualsEquivalence(ps[i], ps[i], ps[i]);
  }

  /**
   * With distinct plant ids, `UpdateHistory` replaces exactly one plant,
   * the last one whose history holds the id, by its marked copy; every
   * other plant, including an earlier holder, is left as it was.
   */
  lemma UpdateHistoryReplacesLastHolder(u: User, id: string, isDone: bool, i: nat)
    requires forall a, b :: 0 <= a < b < |u.plants| ==> u.plants[a].id != u.plants[b].id
    requires LastHolder(u.plants, id, |u.plants|) == Some(i)
    ensures var p := u.plants[i];
      UpdatedUpTo(u, id, isDone, |u.plants|)
        == u.(plants := u.plants[i := Marked(p, IndexOfId(p.SortedHistory(), id).value, isDone)])
  {
    var p := u.plants[i];
    FirstEqualPlant(u.plants, i);
    ReplaceAt(u.plants, i, p, Marked(p, IndexOfId(p.SortedHistory(), id).value, isDone), PlantEquals);
  }

  // ----- TryGetOldHistory -----

  /** `history with { PlantIconRef = …, PlantId = …, PlantName = …, UserId = … }`: an old entry tagged with its plant and user. */
  function Stamped(h: History, p: Plant, userId: string): History {
    h.(userId := Trim(userId), plantIconRef := Trim(p.iconRef), plantName := Trim(p.name), plantId := Trim(p.id))
  }

  /** The tagged copy is what the init accessors of the four tags build. */
  lemma StampedBuilt(h: History, p: Plant, userId: string)
    ensures Stamped(h, p, userId) == h.Tagged(p.iconRef, p.id, p.name).WithUserId(userId)
  {
  }

  /** A tagged entry keeps what `Equals` compares and carries the plant's and the user's tags. */
  lemma StampedKeeps(h: History, p: Plant, userId: string)
    ensures HistoryEquals(Stamped(h, p, userId), h)
    ensures Stamped(h, p, userId).plantId == Trim(p.id) && Stamped(h, p, userId).plantName == Trim(p.name)
    ensures Stamped(h, p, userId).plantIconRef == Trim(p.iconRef) && Stamped(h, p, userId).userId == Trim(userId)
  {
  }

  /** The old entries `hs` of plant `p`, tagged, in their order. */
  function StampAll(hs: seq<History>, p: Plant, userId: string): seq<History> {
    if |hs| == 0 then []
    else StampAll(hs[..|hs| - 1], p, userId) + [Stamped(hs[|hs| - 1], p, userId)]
  }

  /** Tagging keeps the entries one for one. */
  lemma {:induction false} StampAllAt(hs: seq<History>, p: Plant, userId: string)
    ensures |StampAll(hs, p, userId)| == |hs|
    ensures forall i :: 0 <= i < |hs| ==> StampAll(hs, p, userId)[i] == Stamped(hs[i], p, userId)
  {
    if |hs| > 0 {
      StampAllAt(hs[..|hs| - 1], p, userId);
    }
  }

  /** Tagging one more entry appends its tagged copy. */
  lemma StampAllSnoc(hs: seq<History>, k: nat, p: Plant, userId: string)
    requires k < |hs|
    ensures StampAll(hs[..k + 1], p, userId) == StampAll(hs[..k], p, userId) + [Stamped(hs[k], p, userId)]
  {
    assert hs[..k + 1][..k] == hs[..k];
  }

  /** The tagged old entries of the first `n` plants, plant by plant. */
  function OldOfPlants(ps: seq<Plant>, userId: string, n: nat): seq<History>
    requires n <= |ps|
  {
    if n == 0 then [] else OldOfPlants(ps, userId, n - 1) + StampAll(ps[n - 1].oldHistory, ps[n - 1], userId)
  }

  /** The collected list is empty exactly when none of the first `n` plants has old history. */
  lemma {:induction false} OldOfPlantsEmpty(ps: seq<Plant>, userId: string, n: nat)
    requires n <= |ps|
    ensures |OldOfPlants(ps, userId, n)| == 0 <==> forall i :: 0 <= i < n ==> |ps[i].oldHistory| == 0
  {
    if n > 0 {
      OldOfPlantsEmpty(ps, userId, n - 1);
      StampAllAt(ps[n - 1].oldHistory, ps[n - 1], userId);
    }
  }

  /** Every collected entry is an old entry of one of the plants, tagged with it. */
  lemma {:induction false} OldOfPlantsFrom(ps: seq<Plant>, userId: string, n: nat)
    requires n <= |ps|
    ensures forall h :: h in OldOfPlants(ps, userId, n) ==>
      exists i, k :: 0 <= i < n && 0 <= k < |ps[i].oldHistory| && h == Stamped(ps[i].oldHistory[k], ps[i], userId)
  {
    if n > 0 {
      OldOfPlantsFrom(ps, userId, n - 1);
      var p := ps[n - 1];
      StampAllAt(p.oldHistory, p, userId);
      forall h | h in StampAll(p.oldHistory, p, userId)
        ensures exists i, k :: 0 <= i < n && 0 <= k < |ps[i].oldHistory| && h == Stamped(ps[i].oldHistory[k], ps[i], userId)
      {
        var k :| 0 <= k < |p.oldHistory| && StampAll(p.oldHistory, p, userId)[k] == h;
        assert h == Stamped(ps[n - 1].oldHistory[k], ps[n - 1], userId);
      }
    }
  }

  /** The inner loop: appends the plant's old entries, tagged, and reports whether there were any. */
  method AppendOld(acc: seq<History>, found: bool, p: Plant, userId: string) returns (r: seq<History>, found': bool)
    ensures r == acc + StampAll(p.oldHistory, p, userId)
    ensures found' == (found || |p.oldHistory| > 0)
    ensures |r| == |acc| + |p.oldHistory|
  {
    r, found' := acc, found;
    var hs := p.oldHistory;
    var k := 0;
    while k < |hs|
      invariant 0 <= k <= |hs|
      invariant r == acc + StampAll(hs[..k], p, userId)
      invariant found' == (found || k > 0)
      invariant |r| == |acc| + k
    {
      var e := Stamped(hs[k], p, userId);
      StampAllSnoc(hs, k, p, userId);
      assert r + [e] == acc + (StampAll(hs[..k], p, userId) + [e]);
      r := r + [e];
      found' := true;
      k := k + 1;
    }
    assert hs[..k] == hs;
  }

  /**
   * `TryGetOldHistory`: every plant's old entries, plant by plant, tagged
   * with the plant and the user; true exactly when some plant has old
   * history.
   */
  method TryGetOldHistory(u: User) returns (found: bool, oldHistory: seq<History>)
    ensures oldHistory == OldOfPlants(u.plants, u.id, |u.plants|)
    ensures found <==> exists i :: 0 <= i < |u.plants| && |u.plants[i].oldHistory| > 0
  {
    oldHistory, found := [], false;
    var i := 0;
    while i < |u.plants|
      invariant 0 <= i <= |u.plants|
      invariant oldHistory == OldOfPlants(u.plants, u.id, i)
      invariant found == (|oldHistory| > 0)
    {
      oldHistory, found := AppendOld(oldHistory, found, u.plants[i], u.id);
      i := i + 1;
    }
    OldOfPlantsEmpty(u.plants, u.id, |u.plants|);
  }
}
