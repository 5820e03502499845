/**
 * The plan editor's state and handlers as they run: the plan record held by
 * the page's state cell, and the per-day `events` arrays that the handlers
 * change in place.
 *
 * Every event handler copies the itinerary shallowly (`[...plan.itinerary]`), so the
 * day records and their `events` arrays are shared between the old and the new
 * plan, and the reconciler carries the very same arrays forward into the days
 * it rebuilds. `EventList` is such an array, and a `Day<EventList>` holds a
 * reference to one. What each operation does to the contents is stated through
 * `Snapshot` in terms of the functions of module Itinerary.
 */
module Editor {
  import opened Wrappers
  import opened Itinerary

  /** A day's `events` array: shared by reference, changed in place. */
  class EventList {
    var items: seq<Event>

    /** `[]`: a new, empty array. */
    constructor ()
      ensures items == []
    {
      items := [];
    }

    /** `events.push(e)` */
    method Push(e: Event)
      modifies this
      ensures items == old(items) + [e]
    {
      items := items + [e];
    }

    /** `events.splice(k, 1)` */
    method Splice(k: nat)
      modifies this
      ensures items == Spliced(old(items), k)
    {
      if k < |items| {
        items := items[..k] + items[k + 1..];
      }
    }

    /** `events[k][name] = value` */
    method SetField(k: nat, name: string, value: string)
      requires k < |items|
      modifies this
      ensures items == WithField(old(items), k, name, value)
    {
      items := items[k := items[k][name := value]];
    }
  }

  /** The arrays an itinerary refers to. */
  ghost function Lists(days: seq<Day<EventList>>): set<EventList> {
    set i | 0 <= i < |days| :: days[i].events
  }

  /** What the itinerary holds in the current heap: every day with the present
      contents of its `events` array. */
  ghost function Snapshot(days: seq<Day<EventList>>): (r: Days)
    reads Lists(days)
    ensures |r| == |days|
    ensures forall i :: 0 <= i < |days| ==> r[i] == Day(days[i].date, days[i].events.items)
  {
    seq(|days|, i requires 0 <= i < |days| reads Lists(days) => Day(days[i].date, days[i].events.items))
  }

  /** Looking a date up and then taking the array's contents is looking it up in
      the snapshot. */
  lemma LookupSnapshot(days: seq<Day<EventList>>, date: int)
    ensures Lookup(Snapshot(days), date) ==
      match Lookup(days, date) case Some(l) => Some(l.items) case None => None
  {
    var s := Snapshot(days);
    match Lookup(days, date)
    case None =>
    case Some(l) =>
      var i :| 0 <= i < |days| && days[i].date == date && days[i].events == l &&
        forall j :: 0 <= j < i ==> days[j].date != date;
      assert s[i].date == date;
      LookupFirst(s, i);
  }

  /** `itinerary.find(day => day has this date)`: the first day with the date,
      scanned from the front. */
  method FindDay<E>(days: seq<Day<E>>, date: int) returns (found: Option<E>)
    ensures found == Lookup(days, date)
  {
    var j := 0;
    while j < |days|
      invariant 0 <= j <= |days|
      invariant forall k :: 0 <= k < j ==> days[k].date != date
    {
      if days[j].date == date {
        LookupFirst(days, j);
        return Some(days[j].events);
      }
      j := j + 1;
    }
    return None;
  }

  /** Appending the day for the next date, with an array no earlier day has,
      keeps an itinerary gap-free and free of shared arrays. */
  lemma AppendDay<E>(days: seq<Day<E>>, start: int, day: Day<E>)
    requires Consecutive(days, start) && DistinctEvents(days)
    requires day.date == start + |days|
    requires forall k :: 0 <= k < |days| ==> days[k].events != day.events
    ensures Consecutive(days + [day], start) && DistinctEvents(days + [day])
    ensures forall k :: 0 <= k < |days| ==> (days + [day])[k] == days[k]
  {
  }

  /** The loop of the reconciling effect: one day per date from `start` to
      `end`, each with the array of the first day of `prev` that has its date,
      or a new, empty array when none has. */
  method BuildDays(prev: seq<Day<EventList>>, start: int, end: int) returns (days: seq<Day<EventList>>)
    requires DistinctEvents(prev) && start <= end
    ensures |days| == end - start + 1 && Consecutive(days, start)
    ensures forall i :: 0 <= i < |days| ==>
      var found := Lookup(prev, days[i].date);
      if found.Some? then days[i].events == found.value
      else fresh(days[i].events) && days[i].events.items == []
    ensures DistinctEvents(days)
  {
    days := [];
    for i := 0 to end - start + 1
      invariant |days| == i && Consecutive(days, start)
      invariant forall k :: 0 <= k < i ==>
        var found := Lookup(prev, days[k].date);
        if found.Some? then days[k].events == found.value
        else fresh(days[k].events) && days[k].events.items == []
      invariant DistinctEvents(days)
    {
      var currentDate := start + i;
      var existingDay := FindDay(prev, currentDate);
      var events: EventList;
      if existingDay.Some? {
        events := existingDay.value;
        forall k | 0 <= k < i
          ensures days[k].events != events
        {
          if Lookup(prev, days[k].date).Some? {
            LookupInjective(prev, days[k].date, currentDate);
          }
        }
      } else {
        events := new EventList();
      }
      AppendDay(days, start, Day(currentDate, events));
      days := days + [Day(currentDate, events)];
    }
  }

  /** A day holding the array of the first previous day with its date, or an
      empty array when there is none, reads in the heap as the reconciler's day
      for that date. */
  lemma SnapshotOfBuiltDay(prev: seq<Day<EventList>>, day: Day<EventList>)
    requires var found := Lookup(prev, day.date);
      if found.Some? then day.events == found.value else day.events.items == []
    ensures day.events.items == Lookup(Snapshot(prev), day.date).GetOr([])
  {
    LookupSnapshot(prev, day.date);
  }

  /** Days built as `BuildDays` promises read, in the heap, as the reconciled
      contents of the previous itinerary. */
  lemma SnapshotOfBuilt(prev: seq<Day<EventList>>, days: seq<Day<EventList>>, start: int, end: int)
    requires start <= end && |days| == end - start + 1 && Consecutive(days, start)
    requires forall i :: 0 <= i < |days| ==>
      var found := Lookup(prev, days[i].date);
      if found.Some? then days[i].events == found.value else days[i].events.items == []
    ensures Snapshot(days) == Reconciled(Snapshot(prev), Some(start), Some(end))
  {
    var before := Snapshot(prev);
    var built := Snapshot(days);
    var r := Reconciled(before, Some(start), Some(end));
    forall i | 0 <= i < |days|
      ensures built[i] == r[i]
    {
      ReconciledAt(before, Some(start), Some(end), i);
      assert days[i].date == start + i;
      SnapshotOfBuiltDay(prev, days[i]);
    }
  }

  /** The two text inputs whose change handler writes a top-level plan field. */
  datatype BasicField = Title | Region

  /** The plan record the editor keeps in its state cell. */
  datatype Plan = Plan(title: string, region: string, startDate: Option<int>, endDate: Option<int>,
                       itinerary: seq<Day<EventList>>)
  {
    /** The state update of `handleBasicInfoChange`: the field named by the
        input gets the typed value; nothing else of the plan changes. */
    function WithBasicInfo(field: BasicField, value: string): (p: Plan)
      ensures p.startDate == startDate && p.endDate == endDate && p.itinerary == itinerary
      ensures p.title == (if field == Title then value else title)
      ensures p.region == (if field == Region then value else region)
    {
      match field
      case Title => this.(title := value)
      case Region => this.(region := value)
    }

    /** The state update of `handleDateChange([start, end])`: both dates are
        stored as given, a missing one included; nothing else changes. */
    function WithDates(start: Option<int>, end: Option<int>): (p: Plan)
      ensures p.startDate == start && p.endDate == end
      ensures p.title == title && p.region == region && p.itinerary == itinerary
    {
      this.(startDate := start, endDate := end)
    }
  }

  /** The editor page: its state cell `plan`, the change handlers, and the
      effect that reconciles the itinerary with the date range. */
  class PlanEditor {
    var plan: Plan

    /** No two days share an `events` array, so an in-place change to one day's
        array shows in that day only. */
    ghost predicate Valid()
      reads this
    {
      DistinctEvents(plan.itinerary)
    }

    /** The initial state: empty title and region, both dates today, no days. */
    constructor (today: int)
      ensures Valid()
      ensures plan == Plan("", "", Some(today), Some(today), [])
    {
      plan := Plan("", "", Some(today), Some(today), []);
    }

    /** `handleBasicInfoChange` */
    method HandleBasicInfoChange(field: BasicField, value: string)
      requires Valid()
      modifies this
      ensures Valid()
      ensures plan == old(plan).WithBasicInfo(field, value)
    {
      plan := plan.WithBasicInfo(field, value);
    }

    /** `handleDateChange` */
    method HandleDateChange(start: Option<int>, end: Option<int>)
      requires Valid()
      modifies this
      ensures Valid()
      ensures plan == old(plan).WithDates(start, end)
    {
      plan := plan.WithDates(start, end);
    }

    /** The effect that runs when the date range changes: rebuilds the itinerary
        as `Reconciled` says, carrying forward the very arrays of the first
        previous day with each date and giving every other day a new, empty
        array. Only the itinerary changes, and no array is changed. */
    method ReconcileItinerary()
      requires Valid()
      modifies this
      ensures Valid()
      ensures plan == old(plan).(itinerary := plan.itinerary)
      ensures Snapshot(plan.itinerary) == Reconciled(old(Snapshot(plan.itinerary)), plan.startDate, plan.endDate)
      ensures forall i :: 0 <= i < |plan.itinerary| ==>
        var found := Lookup(old(plan.itinerary), plan.itinerary[i].date);
        if found.Some? then plan.itinerary[i].events == found.value else fresh(plan.itinerary[i].events)
    {
      var prev := plan.itinerary;
      ghost var before := Snapshot(prev);
      var newItinerary: seq<Day<EventList>> := [];
      if plan.startDate.Some? && plan.endDate.Some? && plan.startDate.value <= plan.endDate.value {
        var start, end := plan.startDate.value, plan.endDate.value;
        newItinerary := BuildDays(prev, start, end);
        assert Snapshot(prev) == before;
        SnapshotOfBuilt(prev, newItinerary, start, end);
      } else {
        assert Reconciled(before, plan.startDate, plan.endDate) == [];
      }
      ghost var after := Snapshot(newItinerary);
      assert after == Reconciled(before, plan.startDate, plan.endDate);
      plan := plan.(itinerary := newItinerary);
      assert Snapshot(plan.itinerary) == after;
    }

    /** A change of the date range: `handleDateChange` followed by the
        reconciling effect it triggers. */
    method ChangeDates(start: Option<int>, end: Option<int>)
      requires Valid()
      modifies this
      ensures Valid()
      ensures plan == old(plan).(startDate := start, endDate := end, itinerary := plan.itinerary)
      ensures Snapshot(plan.itinerary) == Reconciled(old(Snapshot(plan.itinerary)), start, end)
      ensures forall i :: 0 <= i < |plan.itinerary| ==>
        var found := Lookup(old(plan.itinerary), plan.itinerary[i].date);
        if found.Some? then plan.itinerary[i].events == found.value else fresh(plan.itinerary[i].events)
    {
      ghost var before := Snapshot(plan.itinerary);
      HandleDateChange(start, end);
      assert Snapshot(plan.itinerary) == before;
      ReconcileItinerary();
    }

    /** A range picked in two clicks: the first reports `[start, null]`, the
        second `[start, end]`. Every day of the result then has a new, empty
        array: no event of the earlier itinerary is carried forward. */
    method PickRange(start: int, end: int)
      requires Valid()
      modifies this
      ensures Valid()
      ensures plan.title == old(plan.title) && plan.region == old(plan.region)
      ensures plan.startDate == Some(start) && plan.endDate == Some(end)
      ensures Snapshot(plan.itinerary) == Reconciled([], Some(start), Some(end))
      ensures forall i :: 0 <= i < |plan.itinerary| ==>
        fresh(plan.itinerary[i].events) && plan.itinerary[i].events.items == []
    {
      ChangeDates(Some(start), None);
      assert plan.itinerary == [];
      assert Snapshot(plan.itinerary) == [];
      ChangeDates(Some(start), Some(end));
      forall i | 0 <= i < |plan.itinerary|
        ensures plan.itinerary[i].events.items == []
      {
        ReconciledAt([], Some(start), Some(end), i);
      }
    }

    /** `handleItineraryItemChange(d, k, e)`: writes `value` under `name` in
        event `k` of day `d`, in that day's shared array. */
    method HandleItineraryItemChange(dayIndex: nat, eventIndex: nat, name: string, value: string)
      requires Valid()
      requires dayIndex < |plan.itinerary| && eventIndex < |plan.itinerary[dayIndex].events.items|
      modifies this, plan.itinerary[dayIndex].events
      ensures Valid() && plan == old(plan)
      ensures Snapshot(plan.itinerary) == ChangedItem(old(Snapshot(plan.itinerary)), dayIndex, eventIndex, name, value)
    {
      ghost var before := Snapshot(plan.itinerary);
      var newItinerary := plan.itinerary;
      newItinerary[dayIndex].events.SetField(eventIndex, name, value);
      plan := plan.(itinerary := newItinerary);
    }

    /** `addItineraryItem(d, kind)`: pushes the blank record for `kind` onto
        day `d`'s shared array. */
    method AddItineraryItem(dayIndex: nat, kind: string)
      requires Valid()
      requires dayIndex < |plan.itinerary|
      modifies this, plan.itinerary[dayIndex].events
      ensures Valid() && plan == old(plan)
      ensures Snapshot(plan.itinerary) == AddedItem(old(Snapshot(plan.itinerary)), dayIndex, kind)
    {
      ghost var before := Snapshot(plan.itinerary);
      var newItem := BlankEvent(kind);
      var newItinerary := plan.itinerary;
      newItinerary[dayIndex].events.Push(newItem);
      plan := plan.(itinerary := newItinerary);
    }

    /** `removeItineraryItem(d, k)`: splices event `k` out of day `d`'s shared
        array. */
    method RemoveItineraryItem(dayIndex: nat, eventIndex: nat)
      requires Valid()
      requires dayIndex < |plan.itinerary|
      modifies this, plan.itinerary[dayIndex].events
      ensures Valid() && plan == old(plan)
      ensures Snapshot(plan.itinerary) == RemovedItem(old(Snapshot(plan.itinerary)), dayIndex, eventIndex)
    {
      ghost var before := Snapshot(plan.itinerary);
      var newItinerary := plan.itinerary;
      newItinerary[dayIndex].events.Splice(eventIndex);
      plan := plan.(itinerary := newItinerary);
    }
  }
}
