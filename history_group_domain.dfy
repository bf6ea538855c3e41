/**
 * `HistoryGroupDomain`: the agenda groups one day's care actions, one list
 * per action type. Projected groups for a range of days are collected in a
 * set keyed by date; today's group is built from the recorded entries.
 */
module HistoryGroupDomain {
  import opened Wrappers
  import opened Calendar
  import opened Periodicities
  import opened DateService
  import opened PlantHelper
  import opened HistoryDomain
  import opened PlantDomain

  datatype HistoryGroup = HistoryGroup(
    date: Date,
    watering: seq<History>,
    misting: seq<History>,
    feeding: seq<History>,
    repotting: seq<History>)
  {
    /** The list for one action type. */
    function ListOf(t: HistoryType): seq<History>
      requires IsAction(t)
    {
      if t == HistoryType.Watering then watering
      else if t == HistoryType.Misting then misting
      else if t == HistoryType.Feeding then feeding
      else repotting
    }

    /** `with { <Type>History = <Type>History.Add(h) }`: appends to one list and keeps the others. */
    function WithAppended(t: HistoryType, h: History): (r: HistoryGroup)
      requires IsAction(t)
      ensures r.ListOf(t) == ListOf(t) + [h]
      ensures forall u :: IsAction(u) && u != t ==> r.ListOf(u) == ListOf(u)
      ensures r.date == date
    {
      if t == HistoryType.Watering then this.(watering := watering + [h])
      else if t == HistoryType.Misting then this.(misting := misting + [h])
      else if t == HistoryType.Feeding then this.(feeding := feeding + [h])
      else this.(repotting := repotting + [h])
    }
  }

  /** The constructor: a default date becomes the epoch, a null list an empty one. */
  function NewHistoryGroup(date: Date, watering: Option<seq<History>>, misting: Option<seq<History>>,
                           feeding: Option<seq<History>>, repotting: Option<seq<History>>): (g: HistoryGroup)
    ensures date != DefaultDate ==> g.date == date
    ensures date == DefaultDate ==> g.date == UnixEpoch
    ensures g.watering == watering.GetOr([]) && g.misting == misting.GetOr([])
    ensures g.feeding == feeding.GetOr([]) && g.repotting == repotting.GetOr([])
  {
    HistoryGroup(if date == DefaultDate then UnixEpoch else date,
                 watering.GetOr([]), misting.GetOr([]), feeding.GetOr([]), repotting.GetOr([]))
  }

  /** A group of one date holding a single entry in the list of type `t`. */
  function SingleGroup(d: Date, t: HistoryType, h: History): (g: HistoryGroup)
    requires IsAction(t)
    ensures g.date == d && g.ListOf(t) == [h]
    ensures forall u :: IsAction(u) && u != t ==> g.ListOf(u) == []
  {
    HistoryGroup(d, [], [], [], []).WithAppended(t, h)
  }

  /**
   * The projected entry for one occurrence: not done, no id or user, the
   * occurrence's date and type, and the plant's id, name and icon (trimmed by
   * the init accessors).
   */
  function Occurrence(plant: Plant, t: HistoryType, d: Date): (h: History)
    ensures h.date == d && !h.isDone && h.historyType == t && h.id == "" && h.userId == ""
    ensures h.plantId == Strings.Trim(plant.id) && h.plantName == Strings.Trim(plant.name)
    ensures h.plantIconRef == Strings.Trim(plant.iconRef)
  {
    History("", "", d, false, t, Strings.Trim(plant.iconRef), Strings.Trim(plant.name), Strings.Trim(plant.id))
  }

  /** The entry is what the object initializer on a blank entry builds. */
  lemma OccurrenceBuilt(plant: Plant, t: HistoryType, d: Date)
    ensures Occurrence(plant, t, d) == Blank.(date := d, isDone := false).WithPlantIconRef(plant.iconRef)
      .WithPlantId(plant.id).WithPlantName(plant.name).(historyType := t)
  {
  }

  /** The result set, keyed by date: `DateEqualityComparer` makes the date the identity of a group. */
  type Groups = map<Date, HistoryGroup>

  /**
   * One step of the emission loop: the set is probed with
   * `new HistoryGroupDomain(date: d)`, whose date is the epoch when `d` is the
   * default date. A hit replaces the found group by itself with the entry
   * appended; a miss adds a new group dated `d`, which does nothing when a
   * group of that date is already present.
   */
  function AddOccurrence(m: Groups, t: HistoryType, d: Date, h: History): (r: Groups)
    requires IsAction(t)
    ensures var probe := NewHistoryGroup(d, None, None, None, None).date;
      if probe in m then r == m[probe := m[probe].WithAppended(t, h)]
      else if d in m then r == m
      else r == m[d := SingleGroup(d, t, h)]
  {
    var probe := NewHistoryGroup(d, None, None, None, None).date;
    if probe in m then m[probe := m[probe].WithAppended(t, h)]
    else if d in m then m
    else m[d := SingleGroup(d, t, h)]
  }

  /** The occurrences of one plant action, in order. */
  function AddAll(m: Groups, plant: Plant, t: HistoryType, ds: seq<Date>): Groups
    requires IsAction(t)
    decreases |ds|
  {
    if |ds| == 0 then m else AddAll(AddOccurrence(m, t, ds[0], Occurrence(plant, t, ds[0])), plant, t, ds[1..])
  }

  /**
   * The dates a schedule projects into `[start, end)`: none when its start is
   * the epoch or its periodicity `None`; otherwise from the anchor jumped
   * and stepped to `start`, one period at a time, while before `end`.
   */
  function Occurrences(s: Schedule, start: Date, end: Date): (ds: seq<Date>)
    requires Steppable(s)
  {
    if s.start == UnixEpoch || s.periodicity == Periodicity.None then []
    else
      var p := s.periodicity;
      DateRange(p, AdvanceToStart(p, ShiftPlantStartToFromDate(p, start, s.start), start), end)
  }

  /** What one action block of `GetHistoryGroups` does to the set. */
  function ActionGroups(m: Groups, plant: Plant, t: HistoryType, start: Date, end: Date): Groups
    requires IsAction(t) && Steppable(plant.ScheduleOf(t))
  {
    AddAll(m, plant, t, Occurrences(plant.ScheduleOf(t), start, end))
  }

  /** What one plant does to the set: watering, misting, feeding, then repotting. */
  function PlantGroups(m: Groups, plant: Plant, start: Date, end: Date): Groups
    requires plant.SchedulesSteppable()
  {
    var m1 := ActionGroups(m, plant, HistoryType.Watering, start, end);
    var m2 := ActionGroups(m1, plant, HistoryType.Misting, start, end);
    var m3 := ActionGroups(m2, plant, HistoryType.Feeding, start, end);
    ActionGroups(m3, plant, HistoryType.Repotting, start, end)
  }

  predicate AllSteppable(plants: seq<Plant>) {
    forall i :: 0 <= i < |plants| ==> plants[i].SchedulesSteppable()
  }

  /** The set `GetHistoryGroups` builds from the plants, in their order. */
  function GroupsOf(plants: seq<Plant>, start: Date, end: Date): Groups
    requires AllSteppable(plants)
  {
    if |plants| == 0 then map[]
    else PlantGroups(GroupsOf(plants[..|plants| - 1], start, end), plants[|plants| - 1], start, end)
  }

  /** One action block: jump the anchor, step it to `start`, then add an entry per occurrence before `end`. */
  method EmitAction(m: Groups, plant: Plant, t: HistoryType, start: Date, end: Date) returns (r: Groups)
    requires IsAction(t) && Steppable(plant.ScheduleOf(t))
    ensures r == ActionGroups(m, plant, t, start, end)
  {
    r := m;
    var s := plant.ScheduleOf(t);
    if s.start != UnixEpoch && s.periodicity != Periodicity.None {
      var p := s.periodicity;
      var plantStart := ShiftPlantStartToFromDate(p, start, s.start);
      ghost var seed := plantStart;
      while plantStart < start
        invariant AdvanceToStart(p, plantStart, start) == AdvanceToStart(p, seed, start)
        decreases start - plantStart
      {
        plantStart := ShiftDateToPeriodicity(p, plantStart);
      }
      ghost var first := plantStart;
      while plantStart < end
        invariant AddAll(r, plant, t, DateRange(p, plantStart, end)) == AddAll(m, plant, t, DateRange(p, first, end))
        decreases end - plantStart
      {
        var next := ShiftDateToPeriodicity(p, plantStart);
        assert DateRange(p, plantStart, end) == [plantStart] + DateRange(p, next, end);
        r := AddOccurrence(r, t, plantStart, Occurrence(plant, t, plantStart));
        plantStart := next;
      }
    }
  }

  /**
   * `GetHistoryGroups`: the set of groups for `[start, end)`, each plant's
   * four actions in turn. The set's conversion to a list is `InDateOrder`.
   */
  method GetHistoryGroups(plants: seq<Plant>, start: Date, end: Date) returns (result: Groups)
    requires AllSteppable(plants)
    ensures result == GroupsOf(plants, start, end)
  {
    result := map[];
    for i := 0 to |plants|
      invariant result == GroupsOf(plants[..i], start, end)
    {
      var plant := plants[i];
      assert plants[..i + 1][..i] == plants[..i];
      result := EmitAction(result, plant, HistoryType.Watering, start, end);
      result := EmitAction(result, plant, HistoryType.Misting, start, end);
      result := EmitAction(result, plant, HistoryType.Feeding, start, end);
      result := EmitAction(result, plant, HistoryType.Repotting, start, end);
    }
    assert plants[..|plants|] == plants;
  }

  /** The entry lists of `g2` extend those of `g`, on the same date. */
  predicate Extends(g: HistoryGroup, g2: HistoryGroup) {
    g.date == g2.date && g.watering <= g2.watering && g.misting <= g2.misting
    && g.feeding <= g2.feeding && g.repotting <= g2.repotting
  }

  /** No group disappears and no entry is dropped from `m` to `r`. */
  predicate Grows(m: Groups, r: Groups) {
    forall k :: k in m ==> k in r && Extends(m[k], r[k])
  }

  lemma ExtendsKeeps(g: HistoryGroup, g2: HistoryGroup, t: HistoryType, h: History)
    requires IsAction(t) && Extends(g, g2) && h in g.ListOf(t)
    ensures h in g2.ListOf(t)
  {
    var a, b := g.ListOf(t), g2.ListOf(t);
    var i :| 0 <= i < |a| && a[i] == h;
    assert b[i] == h;
  }

  lemma AddOccurrenceGrows(m: Groups, t: HistoryType, d: Date, h: History)
    requires IsAction(t)
    ensures Grows(m, AddOccurrence(m, t, d, h))
  {
  }

  /** Adding an occurrence on a date other than the default one leaves its entry in that date's group. */
  lemma AddOccurrenceHolds(m: Groups, t: HistoryType, d: Date, h: History)
    requires IsAction(t) && d != DefaultDate
    ensures var r := AddOccurrence(m, t, d, h);
      d in r && h in r[d].ListOf(t)
  {
  }

  lemma {:induction false} AddAllGrows(m: Groups, plant: Plant, t: HistoryType, ds: seq<Date>)
    requires IsAction(t)
    ensures Grows(m, AddAll(m, plant, t, ds))
    decreases |ds|
  {
    if |ds| > 0 {
      var m1 := AddOccurrence(m, t, ds[0], Occurrence(plant, t, ds[0]));
      AddOccurrenceGrows(m, t, ds[0], Occurrence(plant, t, ds[0]));
      AddAllGrows(m1, plant, t, ds[1..]);
    }
  }

  /** Every date of the list ends up with the plant's entry in its group. */
  lemma {:induction false} AddAllHolds(m: Groups, plant: Plant, t: HistoryType, ds: seq<Date>, d: Date)
    requires IsAction(t) && d in ds && d != DefaultDate
    ensures var r := AddAll(m, plant, t, ds);
      d in r && Occurrence(plant, t, d) in r[d].ListOf(t)
    decreases |ds|
  {
    var m1 := AddOccurrence(m, t, ds[0], Occurrence(plant, t, ds[0]));
    if ds[0] == d {
      AddOccurrenceHolds(m, t, d, Occurrence(plant, t, d));
      AddAllGrows(m1, plant, t, ds[1..]);
      ExtendsKeeps(m1[d], AddAll(m1, plant, t, ds[1..])[d], t, Occurrence(plant, t, d));
    } else {
      AddAllHolds(m1, plant, t, ds[1..], d);
    }
  }

  /** The plant metadata an entry carries: icon, name and id. */
  type Tag = (string, string, string)

  function EntryTag(h: History): Tag {
    (h.plantIconRef, h.plantName, h.plantId)
  }

  /** The metadata a plant's projected entries carry: its icon, name and id, trimmed. */
  function TagOf(p: Plant): Tag {
    (Strings.Trim(p.iconRef), Strings.Trim(p.name), Strings.Trim(p.id))
  }

  /** The metadata of a list of plants. */
  function TagsOf(plants: seq<Plant>): (tags: set<Tag>)
    ensures forall i :: 0 <= i < |plants| ==> TagOf(plants[i]) in tags
  {
    set i | 0 <= i < |plants| :: TagOf(plants[i])
  }

  /** A projected entry for action `u` on day `k`, tagged with the metadata of one of the plants behind `tags`. */
  predicate EntryOf(h: History, tags: set<Tag>, u: HistoryType, k: Date) {
    h.date == k && !h.isDone && h.historyType == u && h.id == "" && h.userId == "" && EntryTag(h) in tags
  }

  predicate ListFrom(hs: seq<History>, tags: set<Tag>, u: HistoryType, k: Date) {
    forall i :: 0 <= i < |hs| ==> EntryOf(hs[i], tags, u, k)
  }

  /** A group dated `k` whose every list holds `k`'s projected entries of its own type. */
  predicate GroupFrom(g: HistoryGroup, tags: set<Tag>, k: Date) {
    g.date == k
    && ListFrom(g.watering, tags, HistoryType.Watering, k)
    && ListFrom(g.misting, tags, HistoryType.Misting, k)
    && ListFrom(g.feeding, tags, HistoryType.Feeding, k)
    && ListFrom(g.repotting, tags, HistoryType.Repotting, k)
  }

  /**
   * The set holds groups for days in `[start, end)` only, each filed under
   * its own date, each holding only entries projected for that day and the
   * list's type, tagged with the metadata of one of the plants.
   */
  predicate WellFormed(m: Groups, tags: set<Tag>, start: Date, end: Date) {
    forall k :: k in m ==> start <= k < end && GroupFrom(m[k], tags, k)
  }

  lemma ListAppend(hs: seq<History>, tags: set<Tag>, u: HistoryType, k: Date, h: History)
    requires ListFrom(hs, tags, u, k) && EntryOf(h, tags, u, k)
    ensures ListFrom(hs + [h], tags, u, k)
  {
    forall i | 0 <= i < |hs| + 1 ensures EntryOf((hs + [h])[i], tags, u, k) {
      if i < |hs| {
        assert (hs + [h])[i] == hs[i];
      }
    }
  }

  /** Appending a projected entry of the group's own day and type keeps the group well-formed. */
  lemma AppendedFrom(g: HistoryGroup, tags: set<Tag>, k: Date, t: HistoryType, h: History)
    requires IsAction(t) && GroupFrom(g, tags, k) && EntryOf(h, tags, t, k)
    ensures GroupFrom(g.WithAppended(t, h), tags, k)
  {
    ListAppend(g.ListOf(t), tags, t, k, h);
  }

  /** A plant's projected entry is an entry of the plant's day and type, carrying the plant's tag. */
  lemma OccurrenceEntry(p: Plant, tags: set<Tag>, t: HistoryType, d: Date)
    requires TagOf(p) in tags
    ensures EntryOf(Occurrence(p, t, d), tags, t, d)
  {
    var h := Occurrence(p, t, d);
    assert EntryTag(h) == TagOf(p);
  }

  /** Each group of the set is filed under its own date. */
  predicate FiledByDate(m: Groups) {
    forall k :: k in m ==> m[k].date == k
  }

  /** The set files each group under its own date. */
  lemma GroupsOfDates(plants: seq<Plant>, start: Date, end: Date)
    requires AllSteppable(plants) && DefaultDate < start
    ensures FiledByDate(GroupsOf(plants, start, end))
  {
    GroupsOfWellFormed(plants, TagsOf(plants), start, end);
    WellFormedDates(GroupsOf(plants, start, end), TagsOf(plants), start, end);
  }

  /** A well-formed set files each group under its own date, a day of `[start, end)`. */
  lemma WellFormedDates(m: Groups, tags: set<Tag>, start: Date, end: Date)
    requires WellFormed(m, tags, start, end)
    ensures forall k :: k in m ==> start <= k < end && m[k].date == k
  {
  }

  /** Filing a well-formed group under its own date in range keeps the set well-formed. */
  lemma WellFormedUpdate(m: Groups, tags: set<Tag>, start: Date, end: Date, k: Date, g: HistoryGroup)
    requires WellFormed(m, tags, start, end) && start <= k < end && GroupFrom(g, tags, k)
    ensures WellFormed(m[k := g], tags, start, end)
  {
  }

  lemma AddOccurrenceWellFormed(m: Groups, tags: set<Tag>, start: Date, end: Date, p: Plant, t: HistoryType, d: Date)
    requires IsAction(t) && TagOf(p) in tags && DefaultDate < start <= d < end
    requires WellFormed(m, tags, start, end)
    ensures WellFormed(AddOccurrence(m, t, d, Occurrence(p, t, d)), tags, start, end)
  {
    var h := Occurrence(p, t, d);
    OccurrenceEntry(p, tags, t, d);
    if d in m {
      AppendedFrom(m[d], tags, d, t, h);
      WellFormedUpdate(m, tags, start, end, d, m[d].WithAppended(t, h));
    } else {
      AppendedFrom(HistoryGroup(d, [], [], [], []), tags, d, t, h);
      WellFormedUpdate(m, tags, start, end, d, SingleGroup(d, t, h));
    }
  }

  lemma {:induction false} AddAllWellFormed(m: Groups, tags: set<Tag>, start: Date, end: Date, p: Plant, t: HistoryType, ds: seq<Date>)
    requires IsAction(t) && TagOf(p) in tags && DefaultDate < start
    requires forall i :: 0 <= i < |ds| ==> start <= ds[i] < end
    requires WellFormed(m, tags, start, end)
    ensures WellFormed(AddAll(m, p, t, ds), tags, start, end)
    decreases |ds|
  {
    if |ds| > 0 {
      AddOccurrenceWellFormed(m, tags, start, end, p, t, ds[0]);
      AddAllWellFormed(AddOccurrence(m, t, ds[0], Occurrence(p, t, ds[0])), tags, start, end, p, t, ds[1..]);
    }
  }

  /** A schedule's projected dates lie in `[start, end)`. */
  lemma OccurrencesBounds(s: Schedule, start: Date, end: Date)
    requires Steppable(s)
    ensures var ds := Occurrences(s, start, end);
      forall i :: 0 <= i < |ds| ==> start <= ds[i] < end
  {
    if s.start != UnixEpoch && s.periodicity != Periodicity.None {
      var p := s.periodicity;
      DateRangeBounds(p, AdvanceToStart(p, ShiftPlantStartToFromDate(p, start, s.start), start), end);
    }
  }

  /**
   * An action contributes only when its start is not the epoch and its
   * periodicity not `None`; then its dates are the schedule's range from
   * the next due date seen from `start`.
   */
  lemma OccurrencesFromNextDate(s: Schedule, start: Date, end: Date)
    requires Steppable(s)
    ensures s.start == UnixEpoch || s.periodicity == Periodicity.None ==> Occurrences(s, start, end) == []
    ensures !Inactive(s.periodicity, start, s.start) ==>
      Occurrences(s, start, end) == DateRange(s.periodicity, NextDate(s.periodicity, start, s.start), end)
  {
  }

  lemma ActionGroupsWellFormed(m: Groups, tags: set<Tag>, start: Date, end: Date, p: Plant, t: HistoryType)
    requires IsAction(t) && TagOf(p) in tags && Steppable(p.ScheduleOf(t)) && DefaultDate < start
    requires WellFormed(m, tags, start, end)
    ensures WellFormed(ActionGroups(m, p, t, start, end), tags, start, end)
  {
    OccurrencesBounds(p.ScheduleOf(t), start, end);
    AddAllWellFormed(m, tags, start, end, p, t, Occurrences(p.ScheduleOf(t), start, end));
  }

  /** Every group `GetHistoryGroups` returns is dated in `[start, end)`, under its own date, with only projected entries of its plants. */
  lemma {:induction false} GroupsOfWellFormed(plants: seq<Plant>, tags: set<Tag>, start: Date, end: Date)
    requires AllSteppable(plants) && DefaultDate < start
    requires forall i :: 0 <= i < |plants| ==> TagOf(plants[i]) in tags
    ensures WellFormed(GroupsOf(plants, start, end), tags, start, end)
  {
    if |plants| > 0 {
      var init, p := plants[..|plants| - 1], plants[|plants| - 1];
      forall i | 0 <= i < |init| ensures init[i].SchedulesSteppable() && TagOf(init[i]) in tags {
        assert init[i] == plants[i];
      }
      GroupsOfWellFormed(init, tags, start, end);
      var m0 := GroupsOf(init, start, end);
      ActionGroupsWellFormed(m0, tags, start, end, p, HistoryType.Watering);
      var m1 := ActionGroups(m0, p, HistoryType.Watering, start, end);
      ActionGroupsWellFormed(m1, tags, start, end, p, HistoryType.Misting);
      var m2 := ActionGroups(m1, p, HistoryType.Misting, start, end);
      ActionGroupsWellFormed(m2, tags, start, end, p, HistoryType.Feeding);
      var m3 := ActionGroups(m2, p, HistoryType.Feeding, start, end);
      ActionGroupsWellFormed(m3, tags, start, end, p, HistoryType.Repotting);
    }
  }

  lemma GrowsTransitive(a: Groups, b: Groups, c: Groups)
    requires Grows(a, b) && Grows(b, c)
    ensures Grows(a, c)
  {
    forall k | k in a ensures k in c && Extends(a[k], c[k]) {
      assert Extends(a[k], b[k]) && Extends(b[k], c[k]);
    }
  }

  lemma PlantGroupsGrows(m: Groups, p: Plant, start: Date, end: Date)
    requires p.SchedulesSteppable()
    ensures Grows(m, PlantGroups(m, p, start, end))
  {
    var m1 := ActionGroups(m, p, HistoryType.Watering, start, end);
    var m2 := ActionGroups(m1, p, HistoryType.Misting, start, end);
    var m3 := ActionGroups(m2, p, HistoryType.Feeding, start, end);
    var m4 := ActionGroups(m3, p, HistoryType.Repotting, start, end);
    AddAllGrows(m, p, HistoryType.Watering, Occurrences(p.watering, start, end));
    AddAllGrows(m1, p, HistoryType.Misting, Occurrences(p.misting, start, end));
    AddAllGrows(m2, p, HistoryType.Feeding, Occurrences(p.feeding, start, end));
    AddAllGrows(m3, p, HistoryType.Repotting, Occurrences(p.repotting, start, end));
    GrowsTransitive(m, m1, m2);
    GrowsTransitive(m, m2, m3);
    GrowsTransitive(m, m3, m4);
  }

  /** What one action block adds is still there after the plant's remaining blocks. */
  lemma PlantGroupsHolds(m: Groups, p: Plant, t: HistoryType, start: Date, end: Date, d: Date)
    requires p.SchedulesSteppable() && IsAction(t) && DefaultDate < start
    requires d in Occurrences(p.ScheduleOf(t), start, end)
    ensures var r := PlantGroups(m, p, start, end);
      d in r && Occurrence(p, t, d) in r[d].ListOf(t)
  {
    var h := Occurrence(p, t, d);
    OccurrencesBounds(p.ScheduleOf(t), start, end);
    var m1 := ActionGroups(m, p, HistoryType.Watering, start, end);
    var m2 := ActionGroups(m1, p, HistoryType.Misting, start, end);
    var m3 := ActionGroups(m2, p, HistoryType.Feeding, start, end);
    var m4 := ActionGroups(m3, p, HistoryType.Repotting, start, end);
    AddAllGrows(m1, p, HistoryType.Misting, Occurrences(p.misting, start, end));
    AddAllGrows(m2, p, HistoryType.Feeding, Occurrences(p.feeding, start, end));
    AddAllGrows(m3, p, HistoryType.Repotting, Occurrences(p.repotting, start, end));
    if t == HistoryType.Watering {
      AddAllHolds(m, p, t, Occurrences(p.watering, start, end), d);
      ExtendsKeeps(m1[d], m2[d], t, h);
      ExtendsKeeps(m2[d], m3[d], t, h);
      ExtendsKeeps(m3[d], m4[d], t, h);
    } else if t == HistoryType.Misting {
      AddAllHolds(m1, p, t, Occurrences(p.misting, start, end), d);
      ExtendsKeeps(m2[d], m3[d], t, h);
      ExtendsKeeps(m3[d], m4[d], t, h);
    } else if t == HistoryType.Feeding {
      AddAllHolds(m2, p, t, Occurrences(p.feeding, start, end), d);
      ExtendsKeeps(m3[d], m4[d], t, h);
    } else {
      AddAllHolds(m3, p, t, Occurrences(p.repotting, start, end), d);
    }
  }

  /**
   * Every occurrence of every plant action in `[start, end)` is in the
   * result: the group of its date holds the plant's entry in the list of
   * the action's type.
   */
  lemma GroupsOfComplete(plants: seq<Plant>, i: int, p: Plant, t: HistoryType, start: Date, end: Date, d: Date)
    requires AllSteppable(plants) && DefaultDate < start && IsAction(t) && 0 <= i < |plants| && plants[i] == p
    requires d in Occurrences(p.ScheduleOf(t), start, end)
    ensures var m := GroupsOf(plants, start, end);
      d in m && Occurrence(p, t, d) in m[d].ListOf(t)
  {
    var upTo := plants[..i + 1];
    assert |upTo| - 1 == i && upTo[|upTo| - 1] == p;
    GroupsOfPrefixGrows(plants, i + 1, start, end);
    GroupsOfLastHolds(upTo, p, t, start, end, d);
    GrowsKeeps(GroupsOf(upTo, start, end), GroupsOf(plants, start, end), t, d, Occurrence(p, t, d));
  }

  lemma GrowsKeeps(m: Groups, r: Groups, t: HistoryType, d: Date, h: History)
    requires IsAction(t) && Grows(m, r) && d in m && h in m[d].ListOf(t)
    ensures d in r && h in r[d].ListOf(t)
  {
    ExtendsKeeps(m[d], r[d], t, h);
  }

  /** The plants after the first `k` only add to the set of those `k`. */
  lemma {:induction false} GroupsOfPrefixGrows(plants: seq<Plant>, k: nat, start: Date, end: Date)
    requires AllSteppable(plants) && k <= |plants|
    ensures AllSteppable(plants[..k])
    ensures Grows(GroupsOf(plants[..k], start, end), GroupsOf(plants, start, end))
    decreases |plants|
  {
    AllSteppablePrefix(plants, k);
    if k < |plants| {
      var init := plants[..|plants| - 1];
      AllSteppableInit(plants);
      assert init[..k] == plants[..k];
      GroupsOfPrefixGrows(init, k, start, end);
      GroupsOfLastGrows(plants, start, end);
      GrowsTransitive(GroupsOf(plants[..k], start, end), GroupsOf(init, start, end), GroupsOf(plants, start, end));
    } else {
      assert plants[..k] == plants;
    }
  }

  lemma AllSteppablePrefix(plants: seq<Plant>, k: nat)
    requires AllSteppable(plants) && k <= |plants|
    ensures AllSteppable(plants[..k])
  {
    var init := plants[..k];
    forall j | 0 <= j < |init| ensures init[j].SchedulesSteppable() {
      assert init[j] == plants[j];
    }
  }

  lemma AllSteppableInit(plants: seq<Plant>)
    requires AllSteppable(plants) && |plants| > 0
    ensures AllSteppable(plants[..|plants| - 1])
  {
    var init := plants[..|plants| - 1];
    forall j | 0 <= j < |init| ensures init[j].SchedulesSteppable() {
      assert init[j] == plants[j];
    }
  }

  /** The last plant's occurrences are in the set. */
  lemma GroupsOfLastHolds(plants: seq<Plant>, p: Plant, t: HistoryType, start: Date, end: Date, d: Date)
    requires AllSteppable(plants) && DefaultDate < start && IsAction(t) && |plants| > 0 && plants[|plants| - 1] == p
    requires d in Occurrences(p.ScheduleOf(t), start, end)
    ensures var m := GroupsOf(plants, start, end);
      d in m && Occurrence(p, t, d) in m[d].ListOf(t)
  {
    AllSteppableInit(plants);
    PlantGroupsHolds(GroupsOf(plants[..|plants| - 1], start, end), p, t, start, end, d);
  }

  /** The last plant only adds to the set of the plants before it. */
  lemma GroupsOfLastGrows(plants: seq<Plant>, start: Date, end: Date)
    requires AllSteppable(plants) && |plants| > 0
    ensures AllSteppable(plants[..|plants| - 1])
    ensures Grows(GroupsOf(plants[..|plants| - 1], start, end), GroupsOf(plants, start, end))
  {
    AllSteppableInit(plants);
    PlantGroupsGrows(GroupsOf(plants[..|plants| - 1], start, end), plants[|plants| - 1], start, end);
  }

  /**
   * `ToImmutableList()` of the set: the hash set's order is unspecified,
   * and the model lists the groups by ascending day over `[lo, hi)`.
   */
  function InDateOrder(m: Groups, lo: Date, hi: Date): (gs: seq<HistoryGroup>)
    ensures forall k :: lo <= k < hi && k in m ==> m[k] in gs
    decreases hi - lo
  {
    if lo >= hi then []
    else (if lo in m then [m[lo]] else []) + InDateOrder(m, lo + 1, hi)
  }

  /** Listed from a set that files each group under its own date, every listed group is dated in `[lo, hi)`. */
  lemma {:induction false} InDateOrderBounds(m: Groups, lo: Date, hi: Date)
    requires forall k :: k in m ==> m[k].date == k
    ensures forall g :: g in InDateOrder(m, lo, hi) ==> lo <= g.date < hi
    decreases hi - lo
  {
    if lo < hi {
      InDateOrderBounds(m, lo + 1, hi);
    }
  }

  /** The groups' dates strictly increase along the list. */
  predicate Ascending(gs: seq<HistoryGroup>) {
    forall i, j :: 0 <= i < j < |gs| ==> gs[i].date < gs[j].date
  }

  /** Listed from a set that files each group under its own date, the dates strictly increase. */
  lemma {:induction false} InDateOrderAscending(m: Groups, lo: Date, hi: Date)
    requires forall k :: k in m ==> m[k].date == k
    ensures Ascending(InDateOrder(m, lo, hi))
    decreases hi - lo
  {
    if lo < hi {
      InDateOrderAscending(m, lo + 1, hi);
      InDateOrderBounds(m, lo + 1, hi);
      var gs, tail := InDateOrder(m, lo, hi), InDateOrder(m, lo + 1, hi);
      if lo in m {
        assert gs == [m[lo]] + tail;
        forall i, j | 0 <= i < j < |gs| ensures gs[i].date < gs[j].date {
          assert gs[j] == tail[j - 1] && gs[j] in tail;
          if i > 0 {
            assert gs[i] == tail[i - 1];
          } else {
            assert gs[0] == m[lo] && gs[0].date == lo;
          }
        }
      } else {
        assert gs == tail;
      }
    }
  }

  /** No entry of `hs` is dated `date`. */
  predicate NoneOn(hs: seq<History>, date: Date) {
    forall h :: h in hs ==> h.date != date
  }

  /** No plant has a recent entry dated `date`. */
  predicate NoPlantOn(plants: seq<Plant>, date: Date) {
    forall i :: 0 <= i < |plants| ==> NoneOn(plants[i].recent, date)
  }

  /**
   * One plant's entries dated `date`, in the order of `hs`, each re-tagged
   * with the plant's icon, id and name.
   */
  function Matching(p: Plant, hs: seq<History>, date: Date): (r: seq<History>)
    ensures |r| <= |hs|
    ensures forall i :: 0 <= i < |r| ==> r[i].date == date && EntryTag(r[i]) == TagOf(p)
  {
    if |hs| == 0 then []
    else
      var h := hs[|hs| - 1];
      var r0 := Matching(p, hs[..|hs| - 1], date);
      if h.date == date then r0 + [h.Tagged(p.iconRef, p.id, p.name)] else r0
  }

  /** Nothing matches exactly when no entry is dated `date`. */
  lemma {:induction false} MatchingEmpty(p: Plant, hs: seq<History>, date: Date)
    ensures |Matching(p, hs, date)| == 0 <==> NoneOn(hs, date)
  {
    if |hs| > 0 {
      var init, h := hs[..|hs| - 1], hs[|hs| - 1];
      assert hs == init + [h];
      MatchingEmpty(p, init, date);
    }
  }

  /** Every entry of `hs` dated `date` is listed, re-tagged. */
  lemma {:induction false} MatchingComplete(p: Plant, hs: seq<History>, date: Date, x: History)
    requires x in hs && x.date == date
    ensures x.Tagged(p.iconRef, p.id, p.name) in Matching(p, hs, date)
  {
    var init, h := hs[..|hs| - 1], hs[|hs| - 1];
    assert hs == init + [h];
    if x != h {
      assert x in init;
      MatchingComplete(p, init, date, x);
    }
  }

  /** The re-tagged entries dated `date` of every plant's `History`, plant after plant. */
  function TodayEntries(plants: seq<Plant>, date: Date): (r: seq<History>)
    ensures forall i :: 0 <= i < |r| ==> r[i].date == date
  {
    if |plants| == 0 then []
    else
      var p := plants[|plants| - 1];
      TodayEntries(plants[..|plants| - 1], date) + Matching(p, p.SortedHistory(), date)
  }

  /** Today's entries carry the tag of one of the plants. */
  lemma {:induction false} TodayEntriesTagged(plants: seq<Plant>, date: Date)
    ensures forall h :: h in TodayEntries(plants, date) ==> EntryTag(h) in TagsOf(plants)
  {
    if |plants| > 0 {
      var init, p := plants[..|plants| - 1], plants[|plants| - 1];
      TodayEntriesTagged(init, date);
      forall i | 0 <= i < |init| ensures TagOf(init[i]) in TagsOf(plants) {
        assert init[i] == plants[i];
      }
      var r1 := Matching(p, p.SortedHistory(), date);
      forall h | h in r1 ensures EntryTag(h) == TagOf(p) {
        var j :| 0 <= j < |r1| && r1[j] == h;
      }
    }
  }

  /** There are no entries for `date` exactly when no plant has a recent entry dated `date`. */
  lemma {:induction false} TodayEntriesEmpty(plants: seq<Plant>, date: Date)
    ensures |TodayEntries(plants, date)| == 0 <==> NoPlantOn(plants, date)
  {
    if |plants| > 0 {
      var init, p := plants[..|plants| - 1], plants[|plants| - 1];
      NoPlantOnSnoc(plants, date);
      TodayEntriesEmpty(init, date);
      MatchingEmpty(p, p.SortedHistory(), date);
      assert NoneOn(p.SortedHistory(), date) <==> NoneOn(p.recent, date);
    }
  }

  /** No plant of a non-empty list has an entry on `date` exactly when neither the last one nor any before it has. */
  lemma NoPlantOnSnoc(plants: seq<Plant>, date: Date)
    requires |plants| > 0
    ensures NoPlantOn(plants, date)
      <==> NoPlantOn(plants[..|plants| - 1], date) && NoneOn(plants[|plants| - 1].recent, date)
  {
    var init := plants[..|plants| - 1];
    assert forall i :: 0 <= i < |init| ==> init[i] == plants[i];
  }

  /** Every recent entry of every plant dated `date` is among today's entries, re-tagged with its plant. */
  lemma {:induction false} TodayEntriesComplete(plants: seq<Plant>, i: int, date: Date, x: History)
    requires 0 <= i < |plants| && x in plants[i].recent && x.date == date
    ensures x.Tagged(plants[i].iconRef, plants[i].id, plants[i].name) in TodayEntries(plants, date)
  {
    var init, p := plants[..|plants| - 1], plants[|plants| - 1];
    if i == |plants| - 1 {
      MatchingComplete(p, p.SortedHistory(), date, x);
    } else {
      assert init[i] == plants[i];
      TodayEntriesComplete(init, i, date, x);
    }
  }

  /** `GetHistoryGroupForUserToday`'s result: null with no entries, else the entries split by type. */
  function TodayGroup(plants: seq<Plant>, date: Date): (g: Option<HistoryGroup>)
  {
    var hs := TodayEntries(plants, date);
    if |hs| == 0 then None
    else Some(HistoryGroup(date, OfType(hs, HistoryType.Watering), OfType(hs, HistoryType.Misting),
                           OfType(hs, HistoryType.Feeding), OfType(hs, HistoryType.Repotting)))
  }

  /** There is no group for `date` exactly when no plant has a recent entry dated `date`. */
  lemma TodayGroupNone(plants: seq<Plant>, date: Date)
    ensures TodayGroup(plants, date).None? <==> NoPlantOn(plants, date)
  {
    TodayEntriesEmpty(plants, date);
  }

  /**
   * When there is a group, it is dated `date`; the list of each action type
   * holds exactly today's entries of that type, each dated `date` and tagged
   * with one of the plants; and every plant's recent entry of that type and
   * day is in it, re-tagged with its plant.
   */
  lemma TodayGroupContents(plants: seq<Plant>, date: Date, t: HistoryType)
    requires IsAction(t) && TodayGroup(plants, date).Some?
    ensures var g := TodayGroup(plants, date).value;
      g.date == date
      && (forall h :: h in g.ListOf(t) <==> h in TodayEntries(plants, date) && h.historyType == t)
      && (forall h :: h in g.ListOf(t) ==> h.date == date && EntryTag(h) in TagsOf(plants))
  {
    TodayEntriesTagged(plants, date);
  }

  lemma TodayGroupComplete(plants: seq<Plant>, date: Date, i: int, x: History)
    requires 0 <= i < |plants| && x in plants[i].recent && x.date == date && IsAction(x.historyType)
    ensures TodayGroup(plants, date).Some?
    ensures x.Tagged(plants[i].iconRef, plants[i].id, plants[i].name) in TodayGroup(plants, date).value.ListOf(x.historyType)
  {
    TodayEntriesComplete(plants, i, date, x);
  }

  /** The inner loop of `GetHistoryGroupForUserToday`: appends one plant's matching entries. */
  method AppendMatching(histories: seq<History>, p: Plant, hs: seq<History>, date: Date) returns (r: seq<History>)
    ensures r == histories + Matching(p, hs, date)
  {
    r := histories;
    for j := 0 to |hs|
      invariant r == histories + Matching(p, hs[..j], date)
    {
      assert hs[..j + 1][..j] == hs[..j];
      if hs[j].date == date {
        r := r + [hs[j].Tagged(p.iconRef, p.id, p.name)];
      }
    }
    assert hs[..|hs|] == hs;
  }

  /**
   * `GetHistoryGroupForUserToday`: collects the matching entries of every
   * plant's sorted history, then files them by type.
   */
  method GetHistoryGroupForUserToday(plants: seq<Plant>, date: Date) returns (g: Option<HistoryGroup>)
    ensures g == TodayGroup(plants, date)
  {
    var histories: seq<History> := [];
    for i := 0 to |plants|
      invariant histories == TodayEntries(plants[..i], date)
    {
      var p := plants[i];
      assert plants[..i + 1][..i] == plants[..i];
      histories := AppendMatching(histories, p, p.SortedHistory(), date);
    }
    assert plants[..|plants|] == plants;
    if |histories| == 0 {
      return None;
    }
    g := Some(HistoryGroup(date, OfType(histories, HistoryType.Watering), OfType(histories, HistoryType.Misting),
                           OfType(histories, HistoryType.Feeding), OfType(histories, HistoryType.Repotting)));
  }

  /**
   * `DateEqualityComparer.Equals` on nullable groups: the same reference (two
   * nulls) is equal, one null is not, otherwise the dates decide.
   */
  function DateEquals(x: Option<HistoryGroup>, y: Option<HistoryGroup>): (b: bool)
    ensures x.Some? && y.Some? ==> (b <==> x.value.date == y.value.date)
    ensures x.None? || y.None? ==> (b <==> x == y)
  {
    if x == y then true
    else if x.None? || y.None? then false
    else x.value.date == y.value.date
  }

  /** Equality by date is an equivalence. */
  lemma DateEqualsEquivalence(x: Option<HistoryGroup>, y: Option<HistoryGroup>, z: Option<HistoryGroup>)
    ensures DateEquals(x, x)
    ensures DateEquals(x, y) ==> DateEquals(y, x)
    ensures DateEquals(x, y) && DateEquals(y, z) ==> DateEquals(x, z)
  {
  }

  /**
   * `DateComparer.Compare`: 0 when equal by date, -1 when `x`'s date is
   * earlier (a lifted comparison, false when either is null), else 1.
   */
  function DateCompare(x: Option<HistoryGroup>, y: Option<HistoryGroup>): (c: int)
    ensures c in {-1, 0, 1}
  {
    if DateEquals(x, y) then 0
    else if x.Some? && y.Some? && x.value.date < y.value.date then -1
    else 1
  }

  /** The key the comparer orders groups by. */
  function GroupKey(g: HistoryGroup): int {
    g.date
  }

  /** On groups the comparer is the date order: 0 for the same date, -1 for an earlier, 1 for a later one. */
  lemma DateCompareOrder(x: HistoryGroup, y: HistoryGroup)
    ensures DateCompare(Some(x), Some(y)) == CompareDates(GroupKey(x), GroupKey(y))
    ensures DateCompare(Some(x), Some(y)) == -DateCompare(Some(y), Some(x))
  {
  }

  /** A null compares greater than a group and a group greater than a null: the comparer is not antisymmetric on nulls. */
  lemma DateCompareNulls(g: HistoryGroup)
    ensures DateCompare(None, Some(g)) == 1 && DateCompare(Some(g), None) == 1
    ensures DateCompare(None, None) == 0
  {
  }
}
