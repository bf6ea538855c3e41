/**
 * `UserDomain.AddMissingHistory` and `IsTodayAnyHistory`: for every plant
 * and care action, the not-done entries its schedule should have produced
 * from the day after its latest recorded entry up to the user's today are
 * added to the plant, which then replaces its old value in the user's list.
 */
module UserBackfill {
  import opened Wrappers
  import opened Calendar
  import opened Periodicities
  import opened PlantHelper
  import opened ImmutableLists
  import opened HistoryDomain
  import opened PlantDomain
  import opened HistoryGroupDomain
  import opened UserDomain

  /** The latest date of a non-empty list of entries. */
  function LatestDate(hs: seq<History>): Date
    requires |hs| > 0
  {
    if |hs| == 1 then hs[0].date
    else
      var m := LatestDate(hs[1..]);
      if hs[0].date >= m then hs[0].date else m
  }

  /** The latest date is the date of an entry, and no entry is dated after it. */
  lemma {:induction false} LatestDateBounds(hs: seq<History>)
    requires |hs| > 0
    ensures exists h :: h in hs && h.date == LatestDate(hs)
    ensures forall h :: h in hs ==> h.date <= LatestDate(hs)
  {
    assert hs[0] in hs;
    if |hs| > 1 {
      LatestDateBounds(hs[1..]);
      assert forall h :: h in hs ==> h == hs[0] || h in hs[1..];
      var w :| w in hs[1..] && w.date == LatestDate(hs[1..]);
      assert w in hs;
    }
  }

  /** An entry no other entry is dated after carries the latest date. */
  lemma {:induction false} LatestDateOf(hs: seq<History>, x: History)
    requires x in hs && forall h :: h in hs ==> h.date <= x.date
    ensures LatestDate(hs) == x.date
  {
    if |hs| > 1 {
      var tail := hs[1..];
      LatestDateBounds(tail);
      assert forall h :: h in tail ==> h in hs;
      assert hs[0] in hs && LatestDate(hs) == if hs[0].date >= LatestDate(tail) then hs[0].date else LatestDate(tail);
      if x != hs[0] {
        assert x in tail;
        LatestDateOf(tail, x);
      }
    }
  }

  /**
   * `History.Where(Type == t).OrderByDescending(Date).FirstOrDefault()?.Date.AddDays(1)
   * ?? <action>Start`: the day after the latest entry of type `t`, or the
   * schedule's start when there is none.
   */
  function LastStart(p: Plant, t: HistoryType): Date
    requires IsAction(t)
  {
    var hs := OfType(p.SortedHistory(), t);
    if |hs| == 0 then p.ScheduleOf(t).start else LatestDate(hs) + 1
  }

  /** The guard of each action block: the start is neither the epoch, nor `default`, nor tomorrow. */
  predicate Due(last: Date, today: Date) {
    last != UnixEpoch && last != DefaultDate && last != today + 1
  }

  /** The `Select` of each action block: one new entry per date, with ids read from `k` on. */
  function MissingEntries(ds: seq<Date>, t: HistoryType, p: Plant, userId: string,
                          ids: nat -> ObjectIdText, k: nat): seq<History>
  {
    seq(|ds|, i requires 0 <= i < |ds| =>
      NewHistory(Some(ids(k + i)), ds[i] * SecondsPerDay, false, t,
                 Some(p.iconRef), Some(p.name), Some(p.id), Some(userId)))
  }

  /**
   * The entries one action block makes: none when the block is skipped, else
   * one per date of `CalculateDateRange(last, today + 1, periodicity)`.
   */
  function Missing(s: Pass, t: HistoryType, last: Date, today: Date, ids: nat -> ObjectIdText): seq<History>
    requires IsAction(t) && Steppable(s.plant.ScheduleOf(t))
  {
    if Due(last, today) then
      MissingEntries(DateRange(s.plant.ScheduleOf(t).periodicity, last, today + 1), t, s.plant, s.user.id, ids, s.next)
    else []
  }

  /**
   * Each entry made from a list of dates is not done, has type `t`, the
   * next id, the plant's id, name and icon and the user's id, and its date
   * from the list.
   */
  lemma MissingEntriesSpec(ds: seq<Date>, t: HistoryType, p: Plant, userId: string, ids: nat -> ObjectIdText, k: nat)
    ensures var ms := MissingEntries(ds, t, p, userId, ids, k);
      |ms| == |ds|
      && forall i :: 0 <= i < |ms| ==>
           ms[i].id == ids(k + i) && ms[i].date == ds[i] && !ms[i].isDone && ms[i].historyType == t
           && ms[i].plantId == p.id && ms[i].plantName == p.name
           && ms[i].plantIconRef == p.iconRef && ms[i].userId == userId
  {
    forall i | 0 <= i < |ds| ensures (ds[i] * SecondsPerDay) / SecondsPerDay == ds[i] {
      NewHistoryWholeDay(None, ds[i], false, t, None, None, None, None);
    }
  }

  /**
   * A skipped block makes no entry; otherwise its entries are made from the
   * range, in its order, so each is dated from `last` on and before tomorrow.
   */
  lemma MissingSpec(s: Pass, t: HistoryType, last: Date, today: Date, ids: nat -> ObjectIdText)
    requires IsAction(t) && Steppable(s.plant.ScheduleOf(t))
    ensures var ms := Missing(s, t, last, today, ids);
      var ds := DateRange(s.plant.ScheduleOf(t).periodicity, last, today + 1);
      (!Due(last, today) ==> ms == [])
      && (Due(last, today) ==> ms == MissingEntries(ds, t, s.plant, s.user.id, ids, s.next))
      && forall i :: 0 <= i < |ms| ==> last <= ms[i].date <= today
  {
    var p := s.plant.ScheduleOf(t).periodicity;
    var ds := DateRange(p, last, today + 1);
    if Due(last, today) {
      DateRangeBounds(p, last, today + 1);
      MissingEntriesSpec(ds, t, s.plant, s.user.id, ids, s.next);
    }
  }

  /**
   * `plant with { History = History.AddRange(ms), OldHistory = OldHistory.AddRange(ms) }`:
   * both init accessors filter by the plant's cutoff.
   */
  function Backfilled(p: Plant, ms: seq<History>): Plant {
    var c := Cutoff(p.todayUserDate);
    p.(recent := Recent(p.SortedHistory() + ms, c), oldHistory := Old(p.oldHistory + ms, c))
  }

  /** The update is the two init accessors applied in turn. */
  lemma BackfilledBuilt(p: Plant, ms: seq<History>)
    ensures Backfilled(p, ms) == p.WithHistory(p.SortedHistory() + ms).WithOldHistory(p.oldHistory + ms)
  {
  }

  /** Two plants that differ in their histories at most. */
  predicate SameButHistories(a: Plant, b: Plant) {
    a.(recent := b.recent, oldHistory := b.oldHistory) == b
  }

  /**
   * On a valid plant, the update keeps every entry and files each new one
   * by the plant's cutoff: the recent ones join the History list, the old
   * ones are appended to OldHistory, and the plant stays valid.
   */
  lemma BackfilledAppends(p: Plant, ms: seq<History>)
    requires p.Valid()
    ensures var q := Backfilled(p, ms); var c := Cutoff(p.todayUserDate);
      q.Valid() && SameButHistories(q, p)
      && multiset(q.recent) == multiset(p.recent) + multiset(Recent(ms, c))
      && q.oldHistory == p.oldHistory + Old(ms, c)
  {
    var c := Cutoff(p.todayUserDate);
    BackfilledBuilt(p, ms);
    HistoryAddRange(p, ms);
    var q := p.WithHistory(p.SortedHistory() + ms);
    assert q.oldHistory == p.oldHistory && q.todayUserDate == p.todayUserDate;
    OldHistoryAddRange(q, ms);
  }

  /** The state `AddMissingHistory` threads through its blocks: the user so far, the plant so far, the next id. */
  datatype Pass = Pass(user: User, plant: Plant, next: nat)

  /**
   * One action block with its entries `ms`: with entries to add, the
   * updated plant takes the place of the first plant equal to the current
   * one; `Replace` throws when there is none.
   */
  function FillAction(s: Pass, ms: seq<History>): (r: Result<Pass>)
    ensures r.Success? ==> r.value.user.(plants := s.user.plants) == s.user
    ensures r.Success? ==> |r.value.user.plants| == |s.user.plants| && SameButHistories(r.value.plant, s.plant)
    ensures r.Success? ==> r.value.next == s.next + |ms|
  {
    if |ms| == 0 then Success(s)
    else
      var q := Backfilled(s.plant, ms);
      match Replace(s.user.plants, s.plant, q, PlantEquals)
      case Failure(e) => Failure(e)
      case Success(ps) => Success(Pass(s.user.(plants := ps), q, s.next + |ms|))
  }

  /** A block has nothing to add when it is skipped, when its start lies after today, or for `None`. */
  lemma MissingIdle(s: Pass, t: HistoryType, last: Date, today: Date, ids: nat -> ObjectIdText)
    requires IsAction(t) && Steppable(s.plant.ScheduleOf(t))
    requires !Due(last, today) || last > today || s.plant.ScheduleOf(t).periodicity == Periodicity.None
    ensures Missing(s, t, last, today, ids) == [] && FillAction(s, []) == Success(s)
  {
    MissingSpec(s, t, last, today, ids);
  }

  /**
   * A block on a valid plant keeps it valid, adds the block's entries to it
   * (recent ones to History, old ones at the end of OldHistory) and keeps
   * everything else of the plant.
   */
  lemma FillActionAppends(s: Pass, ms: seq<History>)
    requires s.plant.Valid() && FillAction(s, ms).Success?
    ensures var q := FillAction(s, ms).value.plant; var c := Cutoff(s.plant.todayUserDate);
      q.Valid() && SameButHistories(q, s.plant)
      && multiset(q.recent) == multiset(s.plant.recent) + multiset(Recent(ms, c))
      && q.oldHistory == s.plant.oldHistory + Old(ms, c)
  {
    if |ms| > 0 {
      BackfilledAppends(s.plant, ms);
    }
  }

  /**
   * Entries of one block: there is at least one, all of type `t`, dated
   * from `from` on, and none after the last.
   */
  predicate BlockEntries(ms: seq<History>, t: HistoryType, from: Date) {
    |ms| > 0 && forall i :: 0 <= i < |ms| ==> from <= ms[i].date <= ms[|ms| - 1].date && ms[i].historyType == t
  }

  /** Entries dated by a non-empty list of dates from `from` on, none after its last, are block entries. */
  lemma BlockEntriesOn(ms: seq<History>, ds: seq<Date>, t: HistoryType, from: Date)
    requires |ms| == |ds| > 0 && forall i :: 0 <= i < |ms| ==> ms[i].date == ds[i] && ms[i].historyType == t
    requires forall i :: 0 <= i < |ds| ==> from <= ds[i] <= ds[|ds| - 1]
    ensures BlockEntries(ms, t, from)
  {
    forall i | 0 <= i < |ms| ensures from <= ms[i].date <= ms[|ms| - 1].date {
      assert ms[i].date == ds[i];
    }
  }

  /** Entries dated by a non-empty range, in its order, are block entries from its start. */
  lemma BlockEntriesOnRange(ms: seq<History>, p: Periodicity, start: Date, end: Date, t: HistoryType)
    requires p == Periodicity.None || Advances(p)
    requires |ms| == |DateRange(p, start, end)| > 0
    requires forall i :: 0 <= i < |ms| ==> ms[i].date == DateRange(p, start, end)[i] && ms[i].historyType == t
    ensures BlockEntries(ms, t, start)
  {
    DateRangeLast(p, start, end);
    BlockEntriesOn(ms, DateRange(p, start, end), t, start);
  }

  /** A block that adds entries is due, starts on or before today, and makes block entries from its start. */
  lemma MissingLatest(s: Pass, t: HistoryType, last: Date, today: Date, ids: nat -> ObjectIdText)
    requires IsAction(t) && Steppable(s.plant.ScheduleOf(t)) && |Missing(s, t, last, today, ids)| > 0
    ensures Due(last, today) && last <= today && BlockEntries(Missing(s, t, last, today, ids), t, last)
  {
    var p := s.plant.ScheduleOf(t).periodicity;
    var ds := DateRange(p, last, today + 1);
    assert Due(last, today);
    var ms := MissingEntries(ds, t, s.plant, s.user.id, ids, s.next);
    assert Missing(s, t, last, today, ids) == ms;
    MissingEntriesSpec(ds, t, s.plant, s.user.id, ids, s.next);
    BlockEntriesOnRange(ms, p, last, today + 1, t);
  }

  /** Every recorded entry of type `t` is dated before the start point of its block. */
  lemma EarlierEntries(p: Plant, t: HistoryType, h: History)
    requires IsAction(t) && h in p.recent && h.historyType == t
    ensures h.date < LastStart(p, t)
  {
    var hs := OfType(p.SortedHistory(), t);
    assert h in hs;
    LatestDateBounds(hs);
  }

  /** When `x` is the latest recorded entry of type `t`, the block starts the day after it. */
  lemma LatestStart(p: Plant, t: HistoryType, x: History)
    requires IsAction(t) && x in p.recent && x.historyType == t
    requires forall h :: h in p.recent && h.historyType == t ==> h.date <= x.date
    ensures LastStart(p, t) == x.date + 1
  {
    var hs := OfType(p.SortedHistory(), t);
    assert x in hs;
    forall h | h in hs ensures h.date <= x.date {
      assert h in p.recent;
    }
    LatestDateOf(hs, x);
  }

  /**
   * On a valid plant whose block adds entries up to a recent last one, the
   * block's start point seen from the updated plant is the day after that
   * last entry: it is one day, not one period, later.
   */
  lemma RefillStartsAfterLatest(s: Pass, t: HistoryType, today: Date, ids: nat -> ObjectIdText)
    requires IsAction(t) && Steppable(s.plant.ScheduleOf(t)) && s.plant.Valid()
    requires var ms := Missing(s, t, LastStart(s.plant, t), today, ids);
      |ms| > 0 && IsRecent(ms[|ms| - 1], Cutoff(s.plant.todayUserDate)) && FillAction(s, ms).Success?
    ensures var ms := Missing(s, t, LastStart(s.plant, t), today, ids);
      LastStart(FillAction(s, ms).value.plant, t) == ms[|ms| - 1].date + 1
  {
    var last := LastStart(s.plant, t);
    var ms := Missing(s, t, last, today, ids);
    MissingLatest(s, t, last, today, ids);
    RefillLatest(s, t, ms, last);
  }

  /**
   * Appending block entries from the block's start point, the last of them
   * recent, makes that last entry the latest of its type.
   */
  lemma RefillLatest(s: Pass, t: HistoryType, ms: seq<History>, last: Date)
    requires IsAction(t) && s.plant.Valid() && last == LastStart(s.plant, t) && BlockEntries(ms, t, last)
    requires IsRecent(ms[|ms| - 1], Cutoff(s.plant.todayUserDate)) && FillAction(s, ms).Success?
    ensures LastStart(FillAction(s, ms).value.plant, t) == ms[|ms| - 1].date + 1
  {
    var c := Cutoff(s.plant.todayUserDate);
    var x := ms[|ms| - 1];
    FillActionAppends(s, ms);
    var q := FillAction(s, ms).value.plant;
    FiltersMembership(ms, c);
    assert x in Recent(ms, c);
    assert x in multiset(q.recent);
    forall h | h in q.recent && h.historyType == t ensures h.date <= x.date {
      assert h in multiset(q.recent);
      if h in multiset(s.plant.recent) {
        EarlierEntries(s.plant, t, h);
      } else {
        assert h in Recent(ms, c);
        var i :| 0 <= i < |ms| && ms[i] == h;
      }
    }
    LatestStart(q, t, x);
  }

  /**
   * For a daily schedule on a valid plant, when today is recent for it, a
   * block run again from the plant it updated adds nothing: the first run
   * filled every day up to today.
   */
  lemma DailyRefillAddsNothing(s: Pass, t: HistoryType, today: Date, ids: nat -> ObjectIdText)
    requires IsAction(t) && s.plant.ScheduleOf(t).periodicity == Periodicity.EachDay && s.plant.Valid()
    requires today >= Cutoff(s.plant.todayUserDate)
    requires FillAction(s, Missing(s, t, LastStart(s.plant, t), today, ids)).Success?
    ensures var s' := FillAction(s, Missing(s, t, LastStart(s.plant, t), today, ids)).value;
      Missing(s', t, LastStart(s'.plant, t), today, ids) == []
  {
    var last := LastStart(s.plant, t);
    var ms := Missing(s, t, last, today, ids);
    var s' := FillAction(s, ms).value;
    if |ms| > 0 {
      MissingLatest(s, t, last, today, ids);
      DailyLatest(s, t, last, today, ids);
      RefillStartsAfterLatest(s, t, today, ids);
      assert !Due(LastStart(s'.plant, t), today);
    }
  }

  /** A daily block that adds entries ends with an entry dated today. */
  lemma DailyLatest(s: Pass, t: HistoryType, last: Date, today: Date, ids: nat -> ObjectIdText)
    requires IsAction(t) && s.plant.ScheduleOf(t).periodicity == Periodicity.EachDay
    requires |Missing(s, t, last, today, ids)| > 0
    ensures var ms := Missing(s, t, last, today, ids); ms[|ms| - 1].date == today
  {
    var ds := DateRange(Periodicity.EachDay, last, today + 1);
    assert Due(last, today) && last <= today;
    var ms := MissingEntries(ds, t, s.plant, s.user.id, ids, s.next);
    assert Missing(s, t, last, today, ids) == ms;
    DailyRangeLast(last, today + 1);
    MissingEntriesSpec(ds, t, s.plant, s.user.id, ids, s.next);
  }

  /**
   * For any schedule, when a block's last entry is recent, before today and
   * the day after it is a due start, the block run again from the plant it
   * updated adds more entries, the first dated the day after that last one.
   */
  lemma PeriodicRefillAddsMore(s: Pass, t: HistoryType, today: Date, ids: nat -> ObjectIdText)
    requires IsAction(t) && Steppable(s.plant.ScheduleOf(t)) && s.plant.Valid()
    requires var ms := Missing(s, t, LastStart(s.plant, t), today, ids);
      |ms| > 0 && IsRecent(ms[|ms| - 1], Cutoff(s.plant.todayUserDate)) && FillAction(s, ms).Success?
      && ms[|ms| - 1].date < today && Due(ms[|ms| - 1].date + 1, today)
    ensures var ms := Missing(s, t, LastStart(s.plant, t), today, ids);
      var s' := FillAction(s, ms).value;
      var again := Missing(s', t, LastStart(s'.plant, t), today, ids);
      |again| > 0 && again[0].date == ms[|ms| - 1].date + 1
  {
    var ms := Missing(s, t, LastStart(s.plant, t), today, ids);
    var s' := FillAction(s, ms).value;
    var start := ms[|ms| - 1].date + 1;
    RefillStartsAfterLatest(s, t, today, ids);
    assert LastStart(s'.plant, t) == start;
    var p := s'.plant.ScheduleOf(t).periodicity;
    MissingSpec(s', t, start, today, ids);
    MissingEntriesSpec(DateRange(p, start, today + 1), t, s'.plant, s'.user.id, ids, s'.next);
  }

  /**
   * All four blocks for one plant. The four start points are read from the
   * plant as it was before its first block.
   */
  function FillPlant(user: User, next: nat, p: Plant, today: Date, ids: nat -> ObjectIdText): (r: Result<(User, nat)>)
    requires p.SchedulesSteppable()
    ensures r.Success? ==> r.value.0.(plants := user.plants) == user && |r.value.0.plants| == |user.plants|
  {
    var lw, lm := LastStart(p, HistoryType.Watering), LastStart(p, HistoryType.Misting);
    var lf, lr := LastStart(p, HistoryType.Feeding), LastStart(p, HistoryType.Repotting);
    var s0 := Pass(user, p, next);
    match FillAction(s0, Missing(s0, HistoryType.Watering, lw, today, ids))
    case Failure(e) => Failure(e)
    case Success(s1) =>
      match FillAction(s1, Missing(s1, HistoryType.Misting, lm, today, ids))
      case Failure(e) => Failure(e)
      case Success(s2) =>
        match FillAction(s2, Missing(s2, HistoryType.Feeding, lf, today, ids))
        case Failure(e) => Failure(e)
        case Success(s3) =>
          match FillAction(s3, Missing(s3, HistoryType.Repotting, lr, today, ids))
          case Failure(e) => Failure(e)
          case Success(s4) => Success((s4.user, s4.next))
  }

  /** `AddMissingHistory` after its loop has visited the first `n` plants. */
  function FillUpTo(u: User, today: Date, ids: nat -> ObjectIdText, k: nat, n: nat): (r: Result<(User, nat)>)
    requires n <= |u.plants| && AllSteppable(u.plants)
    ensures r.Success? ==> r.value.0.(plants := u.plants) == u && |r.value.0.plants| == |u.plants|
  {
    if n == 0 then Success((u, k))
    else
      match FillUpTo(u, today, ids, k, n - 1)
      case Failure(e) => Failure(e)
      case Success(dn) => FillPlant(dn.0, dn.1, u.plants[n - 1], today, ids)
  }

  /**
   * One action block as the code runs it. The current plant sits at a
   * position `j` not after the visited one, so `Replace` finds an equal
   * plant there or earlier and never throws, and no position after the
   * visited one changes.
   */
  method BackfillAction(s: Pass, t: HistoryType, last: Date, today: Date, ids: nat -> ObjectIdText,
                        ghost i: nat, ghost j: nat)
    returns (s': Pass, ghost j': nat)
    requires IsAction(t) && Steppable(s.plant.ScheduleOf(t))
    requires j <= i < |s.user.plants| && s.user.plants[j] == s.plant
    ensures FillAction(s, Missing(s, t, last, today, ids)) == Success(s')
    ensures |s'.user.plants| == |s.user.plants| && j' <= i && s'.user.plants[j'] == s'.plant
    ensures s'.user.plants[i + 1..] == s.user.plants[i + 1..]
  {
    s', j' := s, j;
    if last != UnixEpoch && last != DefaultDate && last != today + 1 {
      var dates := CalculateDateRange(last, today + 1, s.plant.ScheduleOf(t).periodicity);
      var missing := MissingEntries(dates, t, s.plant, s.user.id, ids, s.next);
      assert missing == Missing(s, t, last, today, ids);
      if |missing| > 0 {
        var updated := Backfilled(s.plant, missing);
        ghost var at := ReplaceCurrent(s.user.plants, j, s.plant, updated);
        var replaced := Replace(s.user.plants, s.plant, updated, PlantEquals);
        FillActionReplaced(s, missing, replaced.value);
        s' := Pass(s.user.(plants := replaced.value), updated, s.next + |missing|);
        j' := at;
      }
    }
  }

  /**
   * With the current plant at position `j`, `Replace` finds a first equal
   * plant at some position `at` not after `j` and updates exactly that one.
   */
  lemma ReplaceCurrent(ps: seq<Plant>, j: nat, c: Plant, q: Plant) returns (at: nat)
    requires j < |ps| && ps[j] == c
    ensures at <= j && Replace(ps, c, q, PlantEquals) == Success(ps[at := q])
  {
    PlantEqualsEquivalence(c, c, c);
    var found := IndexOf(ps, c, PlantEquals);
    at := found.value;
    ReplaceAt(ps, at, c, q, PlantEquals);
  }

  /** A block with entries to add stores the list `Replace` returns. */
  lemma FillActionReplaced(s: Pass, ms: seq<History>, ps: seq<Plant>)
    requires |ms| > 0 && Replace(s.user.plants, s.plant, Backfilled(s.plant, ms), PlantEquals) == Success(ps)
    ensures FillAction(s, ms) == Success(Pass(s.user.(plants := ps), Backfilled(s.plant, ms), s.next + |ms|))
  {
  }

  /** The loop body of `AddMissingHistory` for plant `i`: its four blocks in turn. */
  method BackfillPlant(r: User, next: nat, p: Plant, today: Date, ids: nat -> ObjectIdText, ghost i: nat)
    returns (r': User, next': nat)
    requires p.SchedulesSteppable() && i < |r.plants| && r.plants[i] == p
    ensures FillPlant(r, next, p, today, ids) == Success((r', next'))
    ensures |r'.plants| == |r.plants| && r'.plants[i + 1..] == r.plants[i + 1..]
  {
    var lastWatering := LastStart(p, HistoryType.Watering);
    var lastMisting := LastStart(p, HistoryType.Misting);
    var lastFeeding := LastStart(p, HistoryType.Feeding);
    var lastRepotting := LastStart(p, HistoryType.Repotting);
    var s := Pass(r, p, next);
    ghost var j := i;
    s, j := BackfillAction(s, HistoryType.Watering, lastWatering, today, ids, i, j);
    s, j := BackfillAction(s, HistoryType.Misting, lastMisting, today, ids, i, j);
    s, j := BackfillAction(s, HistoryType.Feeding, lastFeeding, today, ids, i, j);
    s, j := BackfillAction(s, HistoryType.Repotting, lastRepotting, today, ids, i, j);
    r', next' := s.user, s.next;
  }

  /**
   * `AddMissingHistory`: every plant of the user's list in turn, each
   * replaced by its updated value. `Replace` never throws on the way.
   */
  method AddMissingHistory(u: User, today: Date, ids: nat -> ObjectIdText, k: nat) returns (r: User, next: nat)
    requires AllSteppable(u.plants)
    ensures FillUpTo(u, today, ids, k, |u.plants|) == Success((r, next))
  {
    r, next := u, k;
    for i := 0 to |u.plants|
      invariant FilledTo(u, today, ids, k, i, r, next)
    {
      r, next := BackfillNext(u, today, ids, k, i, r, next);
    }
  }

  /**
   * The state of `AddMissingHistory`'s loop after `i` plants: the fill so
   * far, with the plants not yet visited still as they were.
   */
  predicate FilledTo(u: User, today: Date, ids: nat -> ObjectIdText, k: nat, i: nat, r: User, next: nat) {
    AllSteppable(u.plants) && i <= |u.plants|
    && FillUpTo(u, today, ids, k, i) == Success((r, next))
    && |r.plants| == |u.plants| && r.plants[i..] == u.plants[i..]
  }

  /** The loop body of `AddMissingHistory`: plant `i` in its current state. */
  method BackfillNext(u: User, today: Date, ids: nat -> ObjectIdText, k: nat, i: nat, r: User, next: nat)
    returns (r': User, next': nat)
    requires i < |u.plants| && FilledTo(u, today, ids, k, i, r, next)
    ensures FilledTo(u, today, ids, k, i + 1, r', next')
  {
    SuffixHead(r.plants, u.plants, i);
    FillUpToStep(u, today, ids, k, i, r, next);
    r', next' := BackfillPlant(r, next, u.plants[i], today, ids, i);
    SuffixStep(r.plants, r'.plants, u.plants, i);
  }

  /** Two lists that agree from position `i` on agree at `i`. */
  lemma SuffixHead(a: seq<Plant>, c: seq<Plant>, i: nat)
    requires |a| == |c| && i < |a| && a[i..] == c[i..]
    ensures a[i] == c[i]
  {
    assert a[i] == a[i..][0];
  }

  /** Agreeing from `i` on, and changed at `i` at most, still agree from `i + 1` on. */
  lemma SuffixStep(a: seq<Plant>, b: seq<Plant>, c: seq<Plant>, i: nat)
    requires |a| == |b| == |c| && i < |a| && a[i..] == c[i..] && b[i + 1..] == a[i + 1..]
    ensures b[i + 1..] == c[i + 1..]
  {
    assert a[i + 1..] == a[i..][1..];
    assert c[i + 1..] == c[i..][1..];
  }

  /** One more plant in `AddMissingHistory`'s loop. */
  lemma FillUpToStep(u: User, today: Date, ids: nat -> ObjectIdText, k: nat, i: nat, r: User, next: nat)
    requires i < |u.plants| && AllSteppable(u.plants) && FillUpTo(u, today, ids, k, i) == Success((r, next))
    ensures u.plants[i].SchedulesSteppable()
    ensures FillUpTo(u, today, ids, k, i + 1) == FillPlant(r, next, u.plants[i], today, ids)
  {
  }

  /** `IsTodayAnyHistory`: after reconciliation, some plant has an entry dated today. */
  method IsTodayAnyHistory(u: User, today: Date, ids: nat -> ObjectIdText, k: nat) returns (b: bool)
    requires AllSteppable(u.plants)
    ensures FillUpTo(u, today, ids, k, |u.plants|).Success?
    ensures b <==> !NoPlantOn(FillUpTo(u, today, ids, k, |u.plants|).value.0.plants, today)
  {
    var filled, next := AddMissingHistory(u, today, ids, k);
    var g := GetHistoryGroupForUserToday(filled.plants, today);
    TodayGroupNone(filled.plants, today);
    b := g.Some?;
  }
}
