# Travel plan editor: itinerary bookkeeping

This project models the plan editor page of a travel planner
(`frontend/src/pages/PlanEditorPage.jsx`) and proves what it does. The page
holds one plan record: a title, a region, a start and an end date, and an
itinerary with one day per date of the trip. Each day holds its list of
events. An event is a visit (place, address, stay time) or a move (transport,
start, end, duration).

Modelled parts of the page:

- The effect that rebuilds the itinerary whenever the date range changes.
  - It makes one day per date from the start date to the end date inclusive.
  - Each day keeps the events array of the first previous day with that date, or gets a new empty one.
  - With a missing date or an inverted range, the itinerary becomes empty.
- The change handlers:
  - the title and region inputs;
  - the date range picker;
  - the field inputs of an event;
  - the "add visit" and "add move" buttons;
  - the delete button of an event.
- `formatDate`, which writes the "YYYY.MM.DD" label above each day.

The model has three modules.

- `Itinerary` works on values.
  - A day is `Day(date, events)`. Dates are whole day numbers: `differenceInDays` is subtraction, `addDays` is addition, and two dates with the same `toDateString()` are the same number.
  - An event is a map from field names to strings, since the field handler can write under any name.
  - `Reconciled` is the rebuilt itinerary as a function of the previous one and the two dates.
  - `AddedItem`, `RemovedItem` and `ChangedItem` are the three event edits.
- `Editor` works on the heap, as the page does.
  - Every event handler copies the itinerary shallowly, and the effect carries the same events arrays forward. The title, region and date handlers spread the plan record and keep the itinerary itself.
  - So an events array is an object, `EventList`, changed in place by `Push`, `Splice` and `SetField`.
  - `PlanEditor` is the page's state cell. Its `plan` field holds a `Plan` record whose days refer to those arrays.
  - `Snapshot` reads the arrays' current contents. Each handler is proved to change that snapshot exactly as the matching `Itinerary` function says.
  - `Valid` states that no two days share one array. Every handler keeps it, so an in-place edit of one day never shows in another.
- `DateFormat` is `formatDate`.
  - It works on the three numbers the code reads from a date: `getFullYear()`, `getMonth()` and `getDate()`.
  - Its label is proved to read back, through `ParseDate`, as the date it was made from.

Picking a range with the picker takes two clicks. The first click reports
`[start, null]`, and that empties the itinerary. So once the second click
completes the range, no events of the earlier itinerary remain: every day
starts empty. `PickRange` and `RangePickerDropsEvents` state this.

Other facts about the page that shape the model:

- The plan's two text fields are `title` and `region`.
- Events are untyped records: a visit or a move, with string fields.
- The page saves nothing. There is no validation, no timestamp and no ordering of events.

## Model

| member | source | states |
|---|---|---|
| Itinerary.Lookup | frontend/src/pages/PlanEditorPage.jsx:41-43 | `find` by date: nothing exactly when no day has the date; otherwise the events of a day with that date such that no earlier day has it |
| Itinerary.LookupFirst | frontend/src/pages/PlanEditorPage.jsx:41-43 | a day with no earlier day of the same date is the one the lookup of its date finds |
| Itinerary.LookupInjective | frontend/src/pages/PlanEditorPage.jsx:41-46 | when no two days share an events array, lookups of two different dates never return the same array |
| Itinerary.Reconciled | frontend/src/pages/PlanEditorPage.jsx:34-51 | the rebuilt itinerary as a function of the previous one and the two dates: end - start + 1 days for a set, non-inverted range, none otherwise (its other properties are the lemmas below) |
| Itinerary.ReconciledDates | frontend/src/pages/PlanEditorPage.jsx:35-45 | the rebuilt itinerary is empty exactly when a date is missing or start > end; otherwise it has end - start + 1 days, day i dated start + i, dates strictly ascending; a date appears exactly when it lies in the range, so previous days outside the range are dropped |
| Itinerary.ReconciledCarries | frontend/src/pages/PlanEditorPage.jsx:41-46 | a previous day that is the first with its date and lies in the range appears unchanged (same date and events) at index date - start |
| Itinerary.ReconciledEventsOrigin | frontend/src/pages/PlanEditorPage.jsx:41-46 | a rebuilt day whose date no previous day has gets no events; a rebuilt day with events equals some previous day |
| Itinerary.ReconciledKeepsAligned | frontend/src/pages/PlanEditorPage.jsx:34-51 | an itinerary that already has exactly one day per date of the range, in order, is left unchanged |
| Itinerary.ReconciledIdempotent | frontend/src/pages/PlanEditorPage.jsx:34-51 | rebuilding again with the same range changes nothing (a fixed point) |
| Itinerary.ReconciledWidening | frontend/src/pages/PlanEditorPage.jsx:36-46 | widening the range keeps every day of the narrower itinerary, with its events, at the position of its date |
| Itinerary.RangePickerDropsEvents | frontend/src/pages/PlanEditorPage.jsx:34-51 | `[start, null]` empties the itinerary, and completing the range afterwards gives days that all have no events |
| Itinerary.BlankEvent | frontend/src/pages/PlanEditorPage.jsx:83-85 | the appended record has exactly the keys type, place, address, stayTime for kind "visit" and type, transport, start, end, duration for any other kind; type is "visit" or "move" accordingly, and every other field is empty |
| Itinerary.Spliced | frontend/src/pages/PlanEditorPage.jsx:95 | `splice(k, 1)` removes exactly the event at k, one shorter, others in order (and as a multiset); nothing is removed when k is past the end |
| Itinerary.WithField | frontend/src/pages/PlanEditorPage.jsx:77 | event k gets the value under the name, gains no key but that one, keeps its other fields; other events unchanged |
| Itinerary.AddedItem | frontend/src/pages/PlanEditorPage.jsx:82-90 | day d has one more event, the blank record for the kind, after its unchanged earlier events; no other day and no date changes |
| Itinerary.RemovedItem | frontend/src/pages/PlanEditorPage.jsx:93-97 | day d loses exactly the event at k (one fewer, others in order); an index past the end changes nothing; no other day and no date changes |
| Itinerary.ChangedItem | frontend/src/pages/PlanEditorPage.jsx:74-79 | only field `name` of event k on day d changes, to the value; other fields, events, days and dates unchanged |
| Itinerary.RemoveUndoesAdd | frontend/src/pages/PlanEditorPage.jsx:82-97 | deleting the event just added restores the itinerary |
| Itinerary.ChangeUndone | frontend/src/pages/PlanEditorPage.jsx:74-79 | writing back the previous value of a field undoes the change |
| Itinerary.EditsSurviveReconciling | frontend/src/pages/PlanEditorPage.jsx:34-51 | add, delete and change keep a rebuilt itinerary a fixed point of the rebuild for its range |
| Editor.FindDay | frontend/src/pages/PlanEditorPage.jsx:41-43 | the front-to-back scan returns what `Lookup` specifies |
| Editor.BuildDays | frontend/src/pages/PlanEditorPage.jsx:35-48 | the loop's days: end - start + 1 consecutive dates, each with the very array of the first previous day of its date, or a new empty array; no two days share an array |
| Editor.SnapshotOfBuilt | frontend/src/pages/PlanEditorPage.jsx:41-47 | days built that way hold, in the heap, exactly `Reconciled` of the previous contents |
| Editor.Plan.WithBasicInfo | frontend/src/pages/PlanEditorPage.jsx:55-61 | the named field gets the value; the other field, both dates and the itinerary are unchanged |
| Editor.Plan.WithDates | frontend/src/pages/PlanEditorPage.jsx:64-71 | both dates are stored as given, a missing one included; nothing else changes |
| Editor.EventList.constructor | frontend/src/pages/PlanEditorPage.jsx:46 | a new array is empty |
| Editor.EventList.Push | frontend/src/pages/PlanEditorPage.jsx:88 | the array is its old contents with the event appended |
| Editor.EventList.Splice | frontend/src/pages/PlanEditorPage.jsx:95 | the array's contents become `Spliced` of the old ones |
| Editor.EventList.SetField | frontend/src/pages/PlanEditorPage.jsx:77 | the array's contents become `WithField` of the old ones |
| Editor.PlanEditor.Valid | frontend/src/pages/PlanEditorPage.jsx:44-47 | no two days share one events array: the effect hands each date either the array of a different previous date or a new one, and every handler keeps this |
| Editor.PlanEditor.constructor | frontend/src/pages/PlanEditorPage.jsx:20-26 | the initial plan: empty title and region, both dates today, no days |
| Editor.PlanEditor.HandleBasicInfoChange | frontend/src/pages/PlanEditorPage.jsx:55-61 | the new plan is the old one with the named field set; no array is touched |
| Editor.PlanEditor.HandleDateChange | frontend/src/pages/PlanEditorPage.jsx:64-71 | the new plan is the old one with both dates replaced |
| Editor.PlanEditor.ReconcileItinerary | frontend/src/pages/PlanEditorPage.jsx:34-51 | only the itinerary changes; its contents become `Reconciled` of the old contents; each day holds the very array of the first old day with its date or a new one; no two days share an array |
| Editor.PlanEditor.ChangeDates | frontend/src/pages/PlanEditorPage.jsx:34-71 | setting the dates and running the effect: title and region kept, dates as given, contents `Reconciled` under the new range |
| Editor.PlanEditor.PickRange | frontend/src/pages/PlanEditorPage.jsx:64-71 | after the two picker clicks: title and region kept, the range set, the contents exactly `Reconciled([], start, end)` (one empty day per date), and every day has a new array |
| Editor.PlanEditor.HandleItineraryItemChange | frontend/src/pages/PlanEditorPage.jsx:74-79 | the plan record is unchanged and the contents become `ChangedItem` of the old ones |
| Editor.PlanEditor.AddItineraryItem | frontend/src/pages/PlanEditorPage.jsx:82-90 | the plan record is unchanged and the contents become `AddedItem` of the old ones |
| Editor.PlanEditor.RemoveItineraryItem | frontend/src/pages/PlanEditorPage.jsx:93-97 | the plan record is unchanged and the contents become `RemovedItem` of the old ones |
| DateFormat.NatToString | frontend/src/pages/PlanEditorPage.jsx:109 | `String(n)` of a natural number is at least one character, exactly one when n < 10, and starts with a digit that is '0' only for n = 0 (no leading zero) |
| DateFormat.NatToStringValue | frontend/src/pages/PlanEditorPage.jsx:109 | `String(n)` is all digits and reads back as n |
| DateFormat.IntToString | frontend/src/pages/PlanEditorPage.jsx:109 | `String(year)` is never empty, starts with '-' exactly for a negative year, and has no leading zero (it is "0" when it starts with '0', and no '0' follows the '-') |
| DateFormat.IntToStringValue | frontend/src/pages/PlanEditorPage.jsx:109 | `String(year)` reads back as the year, negative years included |
| DateFormat.PadStart | frontend/src/pages/PlanEditorPage.jsx:109 | `padStart`: length max(width, \|s\|), s at the end, only fill characters before it |
| DateFormat.Pad2 | frontend/src/pages/PlanEditorPage.jsx:109 | `String(n).padStart(2, '0')`: a '0' before a single digit; a number of two or more digits is written unchanged |
| DateFormat.Pad2Value | frontend/src/pages/PlanEditorPage.jsx:109 | a number below 100 padded to two places is exactly two digits that read back as it |
| DateFormat.FormatDate | frontend/src/pages/PlanEditorPage.jsx:107-110 | the label is empty exactly when the date is missing |
| DateFormat.FormatDateLayout | frontend/src/pages/PlanEditorPage.jsx:109 | the label is the written year, a dot, two digits reading as the month plus one, a dot, two digits reading as the day |
| DateFormat.FormatDateRoundTrip | frontend/src/pages/PlanEditorPage.jsx:107-110 | the label reads back as the date it was made from |
| DateFormat.FormatDateInjective | frontend/src/pages/PlanEditorPage.jsx:107-110 | two different dates never get the same label |

## Left out

- `handleSave` logs the plan and shows an alert. It is console and UI output only.
- Rendering is not modelled: the JSX, the `DatePicker` widget, the icons and the layout.
- The router parameter `planId` and the edit-mode flag are left out. The page reads them but never uses them in the modelled logic.
- The backend is not part of this model: the Express server and routes, and the Mongoose schema with its save-time timestamp.
- `MainPage.jsx`, `TravelDetailPage.jsx` and the app bootstrap files are not part of this model.
- The real date types are replaced by whole day numbers. That leaves out:
  - time of day (`differenceInDays` truncates partial days);
  - time zones behind `toDateString`;
  - the conversion from a point in time to year, month and day.
- DateFormat.FormatDate: takes the year, month index and day of month as given. It does not model how a JavaScript `Date` produces them.
- DateFormat.IntToString: does not model the exponent notation `String` uses for numbers of 21 digits or more. No calendar year reaches that.
- The `day.date &&` guard of the lookup is not modelled. Every day the model holds was made by the effect and has a date.
- Editor.EventList.Splice: takes a natural index only. The page passes the index of an event it rendered, never a negative one.
- Editor.PlanEditor.HandleBasicInfoChange: accepts only the two names its inputs carry, `title` and `region`. It does not model writing an arbitrary key into the plan.
- Editor.PlanEditor.HandleItineraryItemChange: requires that the event index is in range. The page only calls it from an event it rendered. In JavaScript an index past the end would throw, and that case is not modelled.
- Editor.PlanEditor.AddItineraryItem: requires that the day index is in range, because the page calls it only for rendered days.
- Editor.PlanEditor.RemoveItineraryItem: requires that the day index is in range, for the same reason.
- React's scheduling is made explicit rather than modelled.
  - A state update and the effect it triggers are two method calls, joined in `ChangeDates`.
  - The effect's first run after mount is `ReconcileItinerary` called after the constructor.
  - Batching, stale closures and re-renders are not modelled.
- The code mutates the old state's arrays in place, which React does not expect. The model captures this sharing, but not its effect on re-rendering.
