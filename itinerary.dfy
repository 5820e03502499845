/**
 * The plan editor's itinerary as plain values: one `Day` per calendar date,
 * each holding that day's events.
 *
 * Calendar dates are integer day numbers, so `differenceInDays(end, start)` is
 * `end - start`, `addDays(start, i)` is `start + i` and two dates with the same
 * `toDateString()` are equal integers. A date the editor may lack (the
 * `startDate` / `endDate` of the plan) is an `Option<int>`.
 *
 * This module states what the editor's operations do to the itinerary's
 * contents; module Editor carries out the same operations on shared,
 * mutable event arrays and proves it agrees with the functions here.
 */
module Itinerary {
  import opened Wrappers

  /** One itinerary event: an object whose keys are field names
      ("type", "place", "address", "stayTime", "transport", ...) and whose
      values are the strings typed into the editor. */
  type Event = map<string, string>

  /** A day of the itinerary; `E` is what the day's `events` holds (a list of
      events here, a reference to a shared list in module Editor). */
  datatype Day<E> = Day(date: int, events: E)

  /** The contents of an itinerary, with every day's events as a value. */
  type Days = seq<Day<seq<Event>>>

  // ---------------------------------------------------------------------------
  // Looking up a day by date (`itinerary.find(day => same date)`)
  // ---------------------------------------------------------------------------

  /** The events of the FIRST day dated `date`, or None when no day has it. */
  function Lookup<E>(days: seq<Day<E>>, date: int): (r: Option<E>)
    ensures r.None? <==> forall i :: 0 <= i < |days| ==> days[i].date != date
    ensures r.Some? ==>
      exists i :: 0 <= i < |days| && days[i].date == date && days[i].events == r.value &&
        forall j :: 0 <= j < i ==> days[j].date != date
  {
    if days == [] then None
    else if days[0].date == date then Some(days[0].events)
    else Lookup(days[1..], date)
  }

  /** A day that is the first one with its date is what a lookup of that date finds. */
  lemma {:induction false} LookupFirst<E>(days: seq<Day<E>>, i: nat)
    requires i < |days|
    requires forall j :: 0 <= j < i ==> days[j].date != days[i].date
    ensures Lookup(days, days[i].date) == Some(days[i].events)
  {
    if i > 0 {
      assert days[0].date != days[i].date;
      assert days[1..][i - 1] == days[i];
      LookupFirst(days[1..], i - 1);
    }
  }

  /** No two days of the itinerary share one `events` value. For references
      (module Editor) this says that no two days alias one array. */
  ghost predicate DistinctEvents<E>(days: seq<Day<E>>) {
    forall i, j :: 0 <= i < j < |days| ==> days[i].events != days[j].events
  }

  /** Lookups of two different dates never find the same `events`, as long as
      no two days share one. */
  lemma LookupInjective<E>(days: seq<Day<E>>, d1: int, d2: int)
    requires DistinctEvents(days)
    requires d1 != d2 && Lookup(days, d1).Some? && Lookup(days, d2).Some?
    ensures Lookup(days, d1).value != Lookup(days, d2).value
  {
    var i1 :| 0 <= i1 < |days| && days[i1].date == d1 && days[i1].events == Lookup(days, d1).value;
    var i2 :| 0 <= i2 < |days| && days[i2].date == d2 && days[i2].events == Lookup(days, d2).value;
    assert i1 != i2;
    if i1 < i2 {
      assert days[i1].events != days[i2].events;
    } else {
      assert days[i2].events != days[i1].events;
    }
  }

  // ---------------------------------------------------------------------------
  // The reconciler (the effect that runs whenever the date range changes)
  // ---------------------------------------------------------------------------

  /** True when the range is present and not inverted, i.e. when the
      reconciler builds any days at all. */
  predicate RangeSet(start: Option<int>, end: Option<int>) {
    start.Some? && end.Some? && start.value <= end.value
  }

  /** The itinerary the reconciler builds from the previous one: a day for every
      date from `start` to `end` inclusive, each keeping the events of the first
      previous day with that date, or none; empty when a date is missing or the
      range is inverted. */
  function Reconciled(prev: Days, start: Option<int>, end: Option<int>): (r: Days)
    ensures |r| == if RangeSet(start, end) then end.value - start.value + 1 else 0
  {
    if RangeSet(start, end) then
      seq(end.value - start.value + 1, i => Day(start.value + i, Lookup(prev, start.value + i).GetOr([])))
    else
      []
  }

  /** Day `i` of a reconciled itinerary, spelled out. */
  lemma ReconciledAt(prev: Days, start: Option<int>, end: Option<int>, i: int)
    requires RangeSet(start, end) && 0 <= i <= end.value - start.value
    ensures |Reconciled(prev, start, end)| == end.value - start.value + 1
    ensures Reconciled(prev, start, end)[i] == Day(start.value + i, Lookup(prev, start.value + i).GetOr([]))
  {
  }

  /** Days of an itinerary dated `start`, `start + 1`, ... with no gap. */
  ghost predicate Consecutive<E>(days: seq<Day<E>>, start: int) {
    forall i :: 0 <= i < |days| ==> days[i].date == start + i
  }

  /** In an itinerary without gaps, a lookup of the date of day `i` finds day `i`. */
  lemma LookupAligned<E>(days: seq<Day<E>>, start: int, i: int)
    requires Consecutive(days, start) && 0 <= i < |days|
    ensures Lookup(days, start + i) == Some(days[i].events)
  {
    LookupFirst(days, i);
  }

  /** The reconciled itinerary is empty exactly when a date is missing or the
      range is inverted; otherwise it holds one day per date of the range, in
      strictly ascending order, and a date appears in it exactly when it lies in
      the range (so days outside the new range are dropped). */
  lemma ReconciledDates(prev: Days, start: Option<int>, end: Option<int>)
    ensures Reconciled(prev, start, end) == [] <==> !RangeSet(start, end)
    ensures RangeSet(start, end) ==>
      |Reconciled(prev, start, end)| == end.value - start.value + 1 &&
      Consecutive(Reconciled(prev, start, end), start.value)
    ensures forall i, j :: 0 <= i < j < |Reconciled(prev, start, end)| ==>
      Reconciled(prev, start, end)[i].date < Reconciled(prev, start, end)[j].date
    ensures forall d :: HasDate(Reconciled(prev, start, end), d) <==> (RangeSet(start, end) && start.value <= d <= end.value)
  {
    var r := Reconciled(prev, start, end);
    if RangeSet(start, end) {
      forall i | 0 <= i < |r|
        ensures r[i].date == start.value + i
      {
        ReconciledAt(prev, start, end, i);
      }
      forall d
        ensures HasDate(r, d) <==> start.value <= d <= end.value
      {
        if start.value <= d <= end.value {
          assert r[d - start.value].date == d;
        }
      }
    }
  }

  /** Some day of `days` is dated `d`. */
  ghost predicate HasDate<E>(days: seq<Day<E>>, d: int) {
    exists i :: 0 <= i < |days| && days[i].date == d
  }

  /** A previous day that is the first with its date and lies in the range keeps
      its events, at the position of its date. */
  lemma ReconciledCarries(prev: Days, start: int, end: int, j: nat)
    requires j < |prev| && start <= prev[j].date <= end
    requires forall k :: 0 <= k < j ==> prev[k].date != prev[j].date
    ensures Reconciled(prev, Some(start), Some(end))[prev[j].date - start] == prev[j]
  {
    ReconciledAt(prev, Some(start), Some(end), prev[j].date - start);
    LookupFirst(prev, j);
  }

  /** A reconciled day whose date no previous day has starts with no events; a
      day that has events is a previous day, date and events alike. (That the
      first previous day with a date in range is carried is `ReconciledCarries`.) */
  lemma ReconciledEventsOrigin(prev: Days, start: Option<int>, end: Option<int>, i: nat)
    requires i < |Reconciled(prev, start, end)|
    ensures !HasDate(prev, Reconciled(prev, start, end)[i].date) ==> Reconciled(prev, start, end)[i].events == []
    ensures Reconciled(prev, start, end)[i].events != [] ==>
      exists j :: 0 <= j < |prev| && prev[j] == Reconciled(prev, start, end)[i]
  {
    var r := Reconciled(prev, start, end);
    ReconciledAt(prev, start, end, i);
    var found := Lookup(prev, r[i].date);
    if found.Some? {
      var j :| 0 <= j < |prev| && prev[j].date == r[i].date && prev[j].events == found.value;
      assert prev[j] == r[i];
    }
  }

  /** An itinerary that already has exactly the days of the range, in order,
      is left as it is by the reconciler. */
  lemma {:induction false} ReconciledKeepsAligned(days: Days, start: int, end: int)
    requires |days| == end - start + 1 && Consecutive(days, start)
    ensures Reconciled(days, Some(start), Some(end)) == days
  {
    var r := Reconciled(days, Some(start), Some(end));
    forall i | 0 <= i < |days|
      ensures r[i] == days[i]
    {
      ReconciledAt(days, Some(start), Some(end), i);
      LookupAligned(days, start, i);
    }
  }

  /** Reconciling is a fixed point: running it again on its own result with the
      same range changes nothing. */
  lemma ReconciledIdempotent(prev: Days, start: Option<int>, end: Option<int>)
    ensures Reconciled(Reconciled(prev, start, end), start, end) == Reconciled(prev, start, end)
  {
    if RangeSet(start, end) {
      ReconciledKeepsAligned(Reconciled(prev, start, end), start.value, end.value);
    }
  }

  /** Widening the range of a reconciled itinerary keeps every one of its days,
      with the same events, at the position of its date, in the same order. */
  lemma ReconciledWidening(prev: Days, start: int, end: int, start': int, end': int)
    requires start <= end && start' <= start && end <= end'
    ensures
      var r := Reconciled(prev, Some(start), Some(end));
      var r' := Reconciled(r, Some(start'), Some(end'));
      |r'| == end' - start' + 1 && r'[start - start'..end - start' + 1] == r
  {
    var r := Reconciled(prev, Some(start), Some(end));
    ReconciledDates(prev, Some(start), Some(end));
    WidenedAligned(r, start, start', end');
  }

  /** Reconciling a gap-free itinerary over a wider range finds each of its
      days at the position of its date. */
  lemma WidenedAligned(days: Days, start: int, start': int, end': int)
    requires Consecutive(days, start) && start' <= start && start + |days| - 1 <= end'
    ensures
      var r' := Reconciled(days, Some(start'), Some(end'));
      |r'| == end' - start' + 1 && r'[start - start'..start - start' + |days|] == days
  {
    var r' := Reconciled(days, Some(start'), Some(end'));
    forall i | 0 <= i < |days|
      ensures r'[start - start' + i] == days[i]
    {
      ReconciledAt(days, Some(start'), Some(end'), start - start' + i);
      LookupAligned(days, start, i);
    }
  }

  /** A range picker reports its first click as `[start, null]`: that empties
      the itinerary, so when the second click completes the range nothing is
      carried forward and every day starts with no events, whatever the
      itinerary held before. */
  lemma RangePickerDropsEvents(prev: Days, start: int, end: Option<int>)
    ensures Reconciled(prev, Some(start), None) == []
    ensures
      var r := Reconciled(Reconciled(prev, Some(start), None), Some(start), end);
      r == Reconciled([], Some(start), end) &&
      forall i :: 0 <= i < |r| ==> r[i].events == []
  {
    var r := Reconciled([], Some(start), end);
    forall i | 0 <= i < |r|
      ensures r[i].events == []
    {
      ReconciledAt([], Some(start), end, i);
    }
  }

  // ---------------------------------------------------------------------------
  // Edits of one day's events
  // ---------------------------------------------------------------------------

  /** The record `addItineraryItem` appends: a blank visit when `kind` is
      "visit", a blank move for any other kind. */
  function BlankEvent(kind: string): (e: Event)
    ensures e.Keys == if kind == "visit" then {"type", "place", "address", "stayTime"}
                      else {"type", "transport", "start", "end", "duration"}
    ensures e["type"] == (if kind == "visit" then "visit" else "move")
    ensures forall f :: f in e && f != "type" ==> e[f] == ""
  {
    if kind == "visit" then
      map["type" := "visit", "place" := "", "address" := "", "stayTime" := ""]
    else
      map["type" := "move", "transport" := "", "start" := "", "end" := "", "duration" := ""]
  }

  /** `events.splice(k, 1)`: the event at `k` is removed and the others keep
      their order; an index past the end removes nothing. */
  function Spliced(events: seq<Event>, k: nat): (r: seq<Event>)
    ensures k < |events| ==> |r| == |events| - 1
    ensures k >= |events| ==> r == events
    ensures forall i :: 0 <= i < |r| ==> r[i] == if i < k then events[i] else events[i + 1]
    ensures k < |events| ==> multiset(r) + multiset{events[k]} == multiset(events)
  {
    if k < |events| then
      assert events == events[..k] + [events[k]] + events[k + 1..];
      events[..k] + events[k + 1..]
    else
      events
  }

  /** `events[k][name] = value`: event `k` gets `value` under `name` (added if
      it was not there); no other key of it and no other event changes. */
  function WithField(events: seq<Event>, k: nat, name: string, value: string): (r: seq<Event>)
    requires k < |events|
    ensures |r| == |events|
    ensures forall i :: 0 <= i < |r| && i != k ==> r[i] == events[i]
    ensures r[k].Keys == events[k].Keys + {name} && r[k][name] == value
    ensures forall f :: f in events[k] && f != name ==> r[k][f] == events[k][f]
  {
    events[k := events[k][name := value]]
  }

  /** `addItineraryItem(d, kind)`: day `d` gets one more event, the blank record
      for `kind`, after all its earlier ones; no other day and no date changes. */
  function AddedItem(days: Days, d: nat, kind: string): (r: Days)
    requires d < |days|
    ensures |r| == |days|
    ensures forall j :: 0 <= j < |r| ==> r[j].date == days[j].date
    ensures forall j :: 0 <= j < |r| && j != d ==> r[j] == days[j]
    ensures |r[d].events| == |days[d].events| + 1
    ensures r[d].events[..|days[d].events|] == days[d].events
    ensures r[d].events[|days[d].events|] == BlankEvent(kind)
  {
    days[d := Day(days[d].date, days[d].events + [BlankEvent(kind)])]
  }

  /** `removeItineraryItem(d, k)`: day `d` loses the event at `k` as `Spliced`
      says; no other day and no date changes. */
  function RemovedItem(days: Days, d: nat, k: nat): (r: Days)
    requires d < |days|
    ensures |r| == |days|
    ensures forall j :: 0 <= j < |r| ==> r[j].date == days[j].date
    ensures forall j :: 0 <= j < |r| && j != d ==> r[j] == days[j]
    ensures k < |days[d].events| ==> |r[d].events| == |days[d].events| - 1
    ensures k >= |days[d].events| ==> r == days
    ensures forall i :: 0 <= i < |r[d].events| ==>
      r[d].events[i] == if i < k then days[d].events[i] else days[d].events[i + 1]
  {
    days[d := Day(days[d].date, Spliced(days[d].events, k))]
  }

  /** `handleItineraryItemChange(d, k, name, value)`: field `name` of event `k`
      on day `d` becomes `value`; no other field, event, day or date changes. */
  function ChangedItem(days: Days, d: nat, k: nat, name: string, value: string): (r: Days)
    requires d < |days| && k < |days[d].events|
    ensures |r| == |days|
    ensures forall j :: 0 <= j < |r| ==> r[j].date == days[j].date
    ensures forall j :: 0 <= j < |r| && j != d ==> r[j] == days[j]
    ensures |r[d].events| == |days[d].events|
    ensures forall i :: 0 <= i < |r[d].events| && i != k ==> r[d].events[i] == days[d].events[i]
    ensures r[d].events[k].Keys == days[d].events[k].Keys + {name} && r[d].events[k][name] == value
    ensures forall f :: f in days[d].events[k] && f != name ==> r[d].events[k][f] == days[d].events[k][f]
  {
    days[d := Day(days[d].date, WithField(days[d].events, k, name, value))]
  }

  /** Removing the event just added restores the itinerary. */
  lemma RemoveUndoesAdd(days: Days, d: nat, kind: string)
    requires d < |days|
    ensures RemovedItem(AddedItem(days, d, kind), d, |days[d].events|) == days
  {
    var added := AddedItem(days, d, kind);
    var r := RemovedItem(added, d, |days[d].events|);
    assert r[d].events == days[d].events;
    assert r[d] == days[d];
  }

  /** Writing a field's previous value back undoes a change of that field. */
  lemma ChangeUndone(days: Days, d: nat, k: nat, name: string, value: string)
    requires d < |days| && k < |days[d].events| && name in days[d].events[k]
    ensures ChangedItem(ChangedItem(days, d, k, name, value), d, k, name, days[d].events[k][name]) == days
  {
    var once := ChangedItem(days, d, k, name, value);
    var r := ChangedItem(once, d, k, name, days[d].events[k][name]);
    assert r[d].events[k] == days[d].events[k];
    assert r[d].events == days[d].events;
    assert r[d] == days[d];
  }

  /** Edits change no date, so the reconciler, if it ran again with the same
      range, would keep an edited itinerary as it is. */
  lemma EditsSurviveReconciling(days: Days, start: int, end: int, d: nat, k: nat, kind: string, name: string, value: string)
    requires |days| == end - start + 1 && Consecutive(days, start) && d < |days|
    ensures Reconciled(AddedItem(days, d, kind), Some(start), Some(end)) == AddedItem(days, d, kind)
    ensures Reconciled(RemovedItem(days, d, k), Some(start), Some(end)) == RemovedItem(days, d, k)
    ensures k < |days[d].events| ==>
      Reconciled(ChangedItem(days, d, k, name, value), Some(start), Some(end)) == ChangedItem(days, d, k, name, value)
  {
    ReconciledKeepsAligned(AddedItem(days, d, kind), start, end);
    ReconciledKeepsAligned(RemovedItem(days, d, k), start, end);
    if k < |days[d].events| {
      ReconciledKeepsAligned(ChangedItem(days, d, k, name, value), start, end);
    }
  }
}
