/**
 * `UserDomain.NowAndBeyond`: the user's agenda. It is today's group of
 * recorded entries, when there is one, then the groups projected from the
 * plants' schedules for tomorrow up to, but not including, the fourteenth
 * day from today, sorted by ascending date.
 */
module UserAgenda {
  import opened Wrappers
  import opened Calendar
  import opened Sorting
  import opened HistoryDomain
  import opened PlantDomain
  import opened HistoryGroupDomain

  /** `GetHistoryGroups(Plants, today + 1, today + 14)`, listed. */
  function Future(plants: seq<Plant>, today: Date): seq<HistoryGroup>
    requires AllSteppable(plants)
  {
    InDateOrder(GroupsOf(plants, today + 1, today + 14), today + 1, today + 14)
  }

  /**
   * The agenda: today's group put in front of the future groups when there
   * is one, and the list sorted by the date comparer.
   */
  function Agenda(plants: seq<Plant>, today: Date): seq<HistoryGroup>
    requires AllSteppable(plants)
  {
    var future := Future(plants, today);
    match TodayGroup(plants, today)
    case Some(g) => SortBy([g] + future, GroupKey)
    case None => SortBy(future, GroupKey)
  }

  /** `NowAndBeyond` for a user's plants and today's date in the user's time zone. */
  method NowAndBeyond(plants: seq<Plant>, today: Date) returns (agenda: seq<HistoryGroup>)
    requires AllSteppable(plants)
    ensures agenda == Agenda(plants, today)
  {
    var start := today + 1;
    var end := today + 14;
    var groups := GetHistoryGroups(plants, start, end);
    var futureHistory := InDateOrder(groups, start, end);
    var todayHistory := GetHistoryGroupForUserToday(plants, today);
    if todayHistory.Some? {
      return SortBy([todayHistory.value] + futureHistory, GroupKey);
    }
    return SortBy(futureHistory, GroupKey);
  }

  /** The agenda is in ascending date order and holds exactly today's group, if any, and the future groups. */
  lemma AgendaSorted(plants: seq<Plant>, today: Date)
    requires AllSteppable(plants)
    ensures SortedBy(Agenda(plants, today), GroupKey)
    ensures var today' := match TodayGroup(plants, today) case Some(g) => [g] case None => [];
      multiset(Agenda(plants, today)) == multiset(today' + Future(plants, today))
  {
    var future := Future(plants, today);
    match TodayGroup(plants, today)
    case Some(g) => SortBySpec([g] + future, GroupKey);
    case None => SortBySpec(future, GroupKey);
  }

  /** Every group of the list is dated in `[lo, hi)`. */
  predicate DatedIn(gs: seq<HistoryGroup>, lo: Date, hi: Date) {
    forall g :: g in gs ==> lo <= g.date < hi
  }

  /** The future groups strictly increase in date and lie in `[today + 1, today + 14)`. */
  lemma FutureFacts(plants: seq<Plant>, today: Date)
    requires AllSteppable(plants) && DefaultDate <= today
    ensures Ascending(Future(plants, today)) && DatedIn(Future(plants, today), today + 1, today + 14)
  {
    ListedFacts(plants, today + 1, today + 14);
  }

  /** The groups of `[lo, hi)`, listed, strictly increase in date and lie in `[lo, hi)`. */
  lemma ListedFacts(plants: seq<Plant>, lo: Date, hi: Date)
    requires AllSteppable(plants) && DefaultDate < lo
    ensures Ascending(InDateOrder(GroupsOf(plants, lo, hi), lo, hi))
    ensures DatedIn(InDateOrder(GroupsOf(plants, lo, hi), lo, hi), lo, hi)
  {
    var m := GroupsOf(plants, lo, hi);
    GroupsOfDates(plants, lo, hi);
    assert FiledByDate(m);
    InDateOrderAscending(m, lo, hi);
    InDateOrderBounds(m, lo, hi);
  }

  /** Groups whose dates strictly increase are already in the comparer's order. */
  lemma AscendingSorted(gs: seq<HistoryGroup>)
    requires Ascending(gs)
    ensures SortedBy(gs, GroupKey)
  {
    forall i, j | 0 <= i < j < |gs| ensures GroupKey(gs[i]) <= GroupKey(gs[j]) {
      assert gs[i].date < gs[j].date;
    }
  }

  /**
   * The sort changes nothing: the agenda is today's group, when there is
   * one, followed by the future groups in ascending date order.
   */
  lemma AgendaShape(plants: seq<Plant>, today: Date)
    requires AllSteppable(plants) && DefaultDate <= today
    ensures Agenda(plants, today) == match TodayGroup(plants, today)
      case Some(g) => [g] + Future(plants, today)
      case None => Future(plants, today)
  {
    var f := Future(plants, today);
    FutureFacts(plants, today);
    match TodayGroup(plants, today)
    case None =>
      AscendingSorted(f);
      SortBySorted(f, GroupKey);
    case Some(g) =>
      PrependAscending(g, f, today + 1, today + 14);
      AscendingSorted([g] + f);
      SortBySorted([g] + f, GroupKey);
  }

  /** A group dated before every group of an ascending list keeps the list ascending when put in front. */
  lemma PrependAscending(g: HistoryGroup, f: seq<HistoryGroup>, lo: Date, hi: Date)
    requires Ascending(f) && DatedIn(f, lo, hi) && g.date < lo
    ensures Ascending([g] + f)
  {
    var s := [g] + f;
    forall i, j | 0 <= i < j < |s| ensures s[i].date < s[j].date {
      assert s[j] == f[j - 1] && s[j] in f;
      if i > 0 {
        assert s[i] == f[i - 1];
      }
    }
  }

  /**
   * The agenda starts with a group dated today exactly when some plant has
   * a recent entry dated today, and that group is today's group; every
   * other group is dated from tomorrow on and before the fourteenth day.
   */
  lemma AgendaToday(plants: seq<Plant>, today: Date)
    requires AllSteppable(plants) && DefaultDate <= today
    ensures var a := Agenda(plants, today);
      (|a| > 0 && a[0].date == today <==> !NoPlantOn(plants, today))
      && (!NoPlantOn(plants, today) ==> |a| > 0 && TodayGroup(plants, today) == Some(a[0]))
      && forall i :: 0 < i < |a| ==> today + 1 <= a[i].date < today + 14
  {
    var a := Agenda(plants, today);
    var f := Future(plants, today);
    AgendaShape(plants, today);
    FutureFacts(plants, today);
    TodayGroupNone(plants, today);
    if NoPlantOn(plants, today) {
      assert a == f;
      assert |a| > 0 ==> a[0] in f;
    } else {
      assert a == [TodayGroup(plants, today).value] + f;
      forall i | 0 < i < |a| ensures today + 1 <= a[i].date < today + 14 {
        assert a[i] == f[i - 1] && a[i] in f;
      }
    }
  }

  /** Every group the set holds for a day in `[today + 1, today + 14)` is on the agenda. */
  lemma AgendaComplete(plants: seq<Plant>, today: Date, k: Date)
    requires AllSteppable(plants) && DefaultDate <= today
    requires today + 1 <= k < today + 14 && k in GroupsOf(plants, today + 1, today + 14)
    ensures GroupsOf(plants, today + 1, today + 14)[k] in Agenda(plants, today)
  {
    var g := GroupsOf(plants, today + 1, today + 14)[k];
    assert g in Future(plants, today);
    AgendaShape(plants, today);
  }
}
