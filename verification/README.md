# Camp Commander schedule booking, modelled in Dafny

Camp Commander keeps camp *activities* and *schedule entries*. A schedule
entry books an activity on a calendar day, for a time of day, at a location,
for an age group. The schedule controller may write an entry only when no
other entry on the same day and at the same location overlaps it in time.
This project models that rule and the operations around it:

- the schedule entry record and its `dayOfWeek` virtual (`schedule.dfy`);
- calendar days, weekdays and the Monday-to-Friday week window (`calendar.dfy`);
- `HH:MM` time strings and their string order (`clock_text.dfy`);
- the three-clause conflict filter and half-open overlap (`interval.dfy`);
- the conflict query and the no-double-booking invariant (`conflict.dfy`);
- create, update and delete as pure functions from a store to a reply and
  the new store (`booking.dfy`), and what they preserve
  (`booking_invariants.dfy`);
- the week view, the day view grouped by age group, and the day count
  (`views.dfy`, `day_view.dfy`);
- the materials list (`materials.dfy`);
- worked examples: a small booking scenario and a two-booking materials
  list (`scenarios.dfy`).

Representation choices:

- **Store.** The store is a `seq<Entry>` in iteration order.
- **Times.** Times are minutes since midnight. The source stores them as
  strings and the store compares them as strings. `ClockText` proves that
  for zero-padded `HH:MM` strings, string order is time order.
  `Interval.ThreeClauseTextIsMinuteFilter` proves that the string-level
  filter is the minute-level one.
- **Dates.** Dates are day numbers counted from 1970-01-01, a Thursday. The
  query from start of day to 23:59:59.999 becomes day equality.
- **Parameters for outside values.** The clock (`now`, `today`, `ref`), the
  id the store assigns to a new entry (`newId`), the caller (`user`) and
  the activity collection (`catalogue`/`activities`) are parameters.

Points where the code's behaviour is easy to misread, modelled as the code does it:

- **Update order.** Update runs the conflict check before it looks for the
  entry to write. With no slot field supplied, a missing id is 404. With
  some but not all of date, start, end and location supplied, a missing id
  makes the handler read a field of nothing, which it answers with 400. With
  all four supplied, the conflict check runs first and then the write
  answers 404.
- **Validation on create.** Create validates the new entry against the
  schema when saving it. So a create with an empty age group, location or
  coach fails with 400 after the conflict check. No such validation runs on
  update.
- **Day view weekday.** The day view's `dayOfWeek` is the raw weekday
  (Sunday = 0), not the entry virtual (Sunday = 7).
- **Week length.** The week window ends four days after its Monday.

The main result: `Conflict.NotBlockingMeansNotDoubleBooked` and
`Interval.OverlapImpliesThreeClause` show that the three-clause filter
catches every half-open overlap, whatever the shape of the intervals. So a
store with no double booking keeps none after any successful create
(`BookingInvariants.CreateKeepsNoDoubleBooking`). A store with unique ids and
no double booking keeps both after any update or delete
(`BookingInvariants.UpdateKeepsConsistent`,
`BookingInvariants.DeleteKeepsConsistent`). For update this carries over to
the program only when every supplied slot value is truthy; see the
`Booking.Update` line under "## Left out". The converse needs both intervals
well-formed (start before end). `Interval.InvertedCandidateFlagged` shows an
inverted candidate that is rejected although it overlaps nothing.

## Model

| member | source | states |
|---|---|---|
| `Calendar.JsWeekday` | controllers/scheduleController.js:12 | the weekday of a day lies in 0..6 (Sunday = 0), and 1970-01-01 is a Thursday |
| `Calendar.IsoWeekday` | models/Schedule.js:49-53 | the `dayOfWeek` renumbering lands in 1..7, and reducing it modulo 7 gives the weekday back |
| `Calendar.IsoWeekdayBijective` | models/Schedule.js:52 | every value 1..7 comes from exactly one weekday 0..6, so the renumbering is a bijection |
| `Calendar.WeekStart` | controllers/scheduleController.js:11-15 | the window starts on a Monday 0 to 6 days before the reference day; a Sunday maps to the Monday six days earlier |
| `Calendar.WeekEnd` | controllers/scheduleController.js:17-20 | the window ends on a Friday, four days after its Monday |
| `Calendar.WeekStartUnique` | controllers/scheduleController.js:11-15 | the window's Monday is the only Monday at most six days before the reference day |
| `Calendar.WindowDaysAreWeekdays` | controllers/scheduleController.js:11-20 | every day in the window has `dayOfWeek` 1..5, counting from its Monday |
| `Schedule.DayOfWeek` | models/Schedule.js:49-53 | an entry's `dayOfWeek` lies in 1..7, is 7 exactly on Sundays and agrees with the weekday modulo 7 |
| `Schedule.WindowEntryDayOfWeek` | models/Schedule.js:49-53 | an entry dated inside the Monday-to-Friday window shows `dayOfWeek` 1..5 |
| `ClockText.ToMinutes` | models/Schedule.js:13-20 | a zero-padded `HH:MM` string is a minute of the day in 0..1439 |
| `ClockText.FromMinutes` | models/Schedule.js:13-20 | every minute of the day has a zero-padded `HH:MM` string that reads back as that minute |
| `ClockText.FromToMinutes` | models/Schedule.js:13-20 | a clock string is the formatting of its own minutes (the other round trip) |
| `ClockText.ClockEqualIffMinutesEqual` | models/Schedule.js:13-20 | two clock strings are equal exactly when their minutes are |
| `ClockText.LexOrderIsTimeOrder` | controllers/scheduleController.js:133-146 | for clock strings, string order (`$lt`, modelled by `ClockText.LexLess` as character-code order) is earlier-time order |
| `ClockText.LexOrderEqIsTimeOrder` | controllers/scheduleController.js:133-146 | for clock strings, `$lte` order is not-later-time order |
| `Interval.OverlapSymmetric` | controllers/scheduleController.js:133-146 | half-open overlap does not depend on which interval is named first |
| `Interval.OverlapImpliesThreeClause` | controllers/scheduleController.js:133-146 | every half-open overlap is caught by one of the three clauses, for any intervals |
| `Interval.ThreeClauseIsOverlap` | controllers/scheduleController.js:133-146 | for well-formed intervals the three-clause filter is exactly half-open overlap |
| `Interval.ThreeClauseSymmetric` | controllers/scheduleController.js:133-146 | for well-formed intervals it does not matter which side is the stored entry |
| `Interval.SelfOverlap` | controllers/scheduleController.js:133-146 | a well-formed interval collides with itself, which is why the update excludes its own entry |
| `Interval.OverlapIsSharedMinute` | controllers/scheduleController.js:133-146 | two intervals overlap and are both non-empty exactly when some minute lies in both |
| `Interval.BoundaryCases` | controllers/scheduleController.js:133-146 | touching endpoints do not collide in either order; partial overlap and containment in both directions do |
| `Interval.InvertedCandidateFlagged` | controllers/scheduleController.js:133-146 | an inverted candidate can match the filter without overlapping the stored entry |
| `Interval.ThreeClauseTextIsMinuteFilter` | controllers/scheduleController.js:133-146 | on `HH:MM` strings the store's string filter equals the minute filter |
| `Conflict.FindConflict` | controllers/scheduleController.js:127-147 | the query returns a stored entry that blocks the candidate, or nothing only when no stored entry blocks it; an entry blocks (`Conflict.Blocks`) when it is not the excluded id, is on the same day and at the same location, and matches one of the three `$or` clauses (`Interval.ThreeClause`) |
| `Conflict.SameDayAndPlace` | controllers/scheduleController.js:127-132 | keeps exactly the stored entries on the candidate's day and at its location |
| `Conflict.OnlySameDayAndPlaceMatter` | controllers/scheduleController.js:126-132 | removing every entry on another day or at another location changes neither the verdict nor the witness |
| `Conflict.ConflictIffOverlap` | controllers/scheduleController.js:127-154 | with well-formed intervals, a conflict is reported exactly when another same-day, same-location entry overlaps |
| `Conflict.NotBlockingMeansNotDoubleBooked` | controllers/scheduleController.js:127-154 | an entry the query does not match is not double-booked with the candidate, in either order |
| `Booking.Create` | controllers/scheduleController.js:105-176 | unknown activity gives 404 whatever the store holds; with the activity present, a blocking entry always gives 409 with a blocking entry's id; with nothing blocking, missing required fields always give `ValidationFailed` (the schema's `required` validators, models/Schedule.js:3-46, as `Schedule.SatisfiesSchema`); success holds exactly when none of these apply, and then exactly one entry is appended, built from the request, with `createdBy` the username or "system"; every error leaves the store unchanged |
| `Booking.FindIndex` | controllers/scheduleController.js:225 | finds the first entry with the id, or reports that no entry has it |
| `Booking.WithoutProtected` | controllers/scheduleController.js:184-187 | the patch loses its activity reference and creation metadata, every other field is kept as supplied, and whether it touches the slot is unchanged |
| `Booking.ApplyPatch` | controllers/scheduleController.js:225 | the store's update keeps the id and, for a patch without protected fields, overwrites exactly the supplied fields (`Booking.Patched`) |
| `Booking.CandidateIsMergedSlot` | controllers/scheduleController.js:190-213 | the slot the update checks (`Booking.CandidateSlot` of the stripped patch over the current entry) is each slot field from the patch when supplied, else the entry's own |
| `Booking.Update` | controllers/scheduleController.js:179-235 | protected fields never change and every other field takes the patch value when supplied (`Booking.Patched`); a successful slot change leaves no other entry blocking the new slot; a 409 happens only when a slot field (`Booking.TouchesSlot`) is supplied and names another entry; without slot fields there is no conflict outcome and a missing id is 404; errors leave the store unchanged |
| `Booking.UpdateOutcome` | controllers/scheduleController.js:189-231 | when the entry exists, an update without slot fields always succeeds (a notes-only edit is written); with slot fields it succeeds exactly when no other entry blocks the merged slot, and answers 409 otherwise |
| `Booking.UpdateMissingId` | controllers/scheduleController.js:190-229 | for an id no entry has, with all four slot fields supplied, the answer is 409 when another entry blocks the patch's slot and 404 otherwise, with the store unchanged |
| `Booking.UpdateConflictWitness` | controllers/scheduleController.js:190-220 | when an existing entry is edited and the answer is 409, the named entry is a different entry whose slot collides with the merged slot (patch slot fields over the entry's own, looked up by the first entry with the id) |
| `Booking.Delete` | controllers/scheduleController.js:238-252 | removes exactly the entry with the id, or answers 404 when there is none |
| `BookingInvariants.CreateKeepsNoDoubleBooking` | controllers/scheduleController.js:127-172 | a store with no double booking has none after any create |
| `BookingInvariants.CreateKeepsUniqueIds` | controllers/scheduleController.js:157-170 | create keeps ids unique when the new id is unused |
| `BookingInvariants.UpdateKeepsConsistent` | controllers/scheduleController.js:189-229 | update keeps ids unique and the store free of double bookings |
| `BookingInvariants.DeleteKeepsConsistent` | controllers/scheduleController.js:238-252 | delete keeps ids unique and the store free of double bookings |
| `BookingInvariants.ResubmittingOwnSlotSucceeds` | controllers/scheduleController.js:189-222 | in a consistent store of well-formed entries, resubmitting an entry's own slot succeeds |
| `Views.InRange` | controllers/scheduleController.js:22-28 | the date query keeps exactly the entries dated within the bounds |
| `Views.Populate` | controllers/scheduleController.js:28-37 | the join succeeds exactly when every activity exists, pairs each entry with its activity, and otherwise names an entry whose activity is missing |
| `Views.WeeklySchedule` | controllers/scheduleController.js:6-54 | the week view spans Monday to Friday around the reference day; row `i` shows entry `i` of the window in store order, with its activity's name and description, its `dayOfWeek` and the entry's times, age group, location, coach, notes and materials copied unchanged; every window entry is shown and every row falls on a weekday 1..5; it fails exactly when a window entry's activity is missing |
| `DayView.Insert` | controllers/scheduleController.js:72 | inserting into a start-ordered list keeps it ordered and adds exactly the new entry |
| `DayView.SortByStart` | controllers/scheduleController.js:72 | the sort returns a start-ordered permutation of its input |
| `DayView.DayEntries` | controllers/scheduleController.js:67-72 | the day query returns exactly the day's entries, ordered by start time |
| `DayView.GroupByAgeGroup` | controllers/scheduleController.js:75-92 | every input entry's age group becomes a key, and no key holds an empty list |
| `DayView.GroupByAgeGroupIsFilter` | controllers/scheduleController.js:75-92 | grouping lists under each age group exactly that group's rows, in input order, and creates no empty group |
| `DayView.RowsOfFacts` | controllers/scheduleController.js:75-92 | each listed row comes from an input entry of that age group, and the group keeps the input's start-time order |
| `DayView.RowsOfListsGroup` | controllers/scheduleController.js:75-92 | the rows grouped under `g` list, row by row, the input entries of age group `g` with every field the source copies |
| `DayView.DailySchedule` | controllers/scheduleController.js:57-102 | the keys are exactly the day's age groups; under each, row `i` lists the `i`-th entry of that group among the day's entries in start order (activity name, id, times, location, coach, materials, notes); every entry of the day is listed and every row comes from the day; its `dayOfWeek` is the raw weekday; it fails exactly when a day entry's activity is missing |
| `DayView.CountForDay` | controllers/scheduleController.js:255-275 | the count is the number of entries the day query returns |
| `Materials.AddLine` | controllers/scheduleController.js:313-318 | despite the reset-to-0 of a falsy key, an entry-level line adds its quantity to the item's total and touches no other item |
| `Materials.AddDefault` | controllers/scheduleController.js:323-329 | despite the set-to-1 of a falsy key, each default material adds 1 to its total |
| `Materials.AddLines` | controllers/scheduleController.js:312-319 | the entry's lines add their summed quantity per item and create keys only for the items named |
| `Materials.AddDefaults` | controllers/scheduleController.js:322-330 | the activity's defaults add their occurrence count per name |
| `Materials.AddJoined` | controllers/scheduleController.js:310-331 | one entry adds its own quantities plus its defaults' occurrences |
| `Materials.AddAll` | controllers/scheduleController.js:308-331 | over the period, each item's total is the reference demand, and exactly the named items have keys |
| `Materials.MaterialsRange` | controllers/scheduleController.js:280-297 | no bounds give the Monday-to-Friday window of today; a missing start alone gives today; a missing end gives start plus four days |
| `Materials.Rows` | controllers/scheduleController.js:334-339 | one row per key, with its total and threshold 5 |
| `Materials.MaterialsNeeded` | controllers/scheduleController.js:278-345 | each material named in the period appears exactly once, with total = entry quantities + default occurrences and threshold 5 |
| `Scenarios.FieldAScenario` | controllers/scheduleController.js:119-172 | with X at Field A 10:00-11:00, a 10:30-11:30 booking there gets 409 with X's id, 11:00-12:00 there and 10:30-11:30 at Field B are accepted, and no caller means `createdBy` "system" |
| `Scenarios.TwoConesScenario` | controllers/scheduleController.js:308-339 | two bookings of an activity with default materials ["Cones"] need two cones |

## Left out

- Browser scripts (`public/js/main.js`), the server bootstrap and sessions
  (`server.js`), the route wiring (`routes/`) and the activity CRUD
  controller. These are presentation or plumbing with no invariant.
  `models/Activity.js` is not part of this model: an activity has exactly
  the fields the schedule controller reads, and its id is its key in the
  catalogue.
- Authentication: the middleware always sets the same mock user. The caller
  is an `Option<User>` parameter, and role checks are not modelled.
- The document store itself: read and write failures, cast errors for
  malformed ids or dates, and concurrent requests are not modelled. The
  source answers such errors with 400 in create and update and with 500 in
  delete, the week and day views, the day count and the materials list.
  The model is sequential, so the check-then-write race between two
  simultaneous creates is not represented.
- `Conflict.FindConflict`: does not pin which blocking entry is reported,
  because the store's `findOne` order is unspecified.
- Dates: no timezones, no daylight saving, and no UTC shift when formatting
  with `toISOString`. The time-of-day part of a stored date is ignored.
  Response dates are day numbers, not `YYYY-MM-DD` strings.
- Time strings that are not zero-padded `HH:MM`. Their string order differs
  from time order, and the minute model does not cover them.
- `Booking.Update`: a patch field counts as supplied whenever it is
  present. In the source, a present but falsy slot value, such as an empty
  location, is treated as absent by the `||` tests that decide whether to
  check for conflicts and which slot to check. The write then stores that
  value anyway, with no conflict check and no validators. So the source can
  reach a double booking that the model refuses. For example, entries at
  "Field A" and "Field B" at the same time can each be updated to location
  "", and the model answers the second of those updates with 409. A patch
  carrying `_id` is not modelled.
- `Booking.Update`: a missing id with only some slot fields supplied is a
  `BadRequest` reply with the store unchanged. No further contract is
  stated, because the source reaches it only by reading a field of a
  missing document.
- `Booking.Create`: validation is reported as a single `ValidationFailed`,
  without the failing field names. Missing date or time fields cannot
  occur, because they are plain integers here.
- `DayView.GroupByAgeGroup`: the source groups into a plain object, so an
  age group named after an inherited object member (`constructor`,
  `toString`, `__proto__`) reads as an existing group and the push throws,
  giving 500. The model creates an ordinary group for every name.
- `DayView.SortByStart`: the store's sort promises no order among entries
  with equal start times. The model's insertion sort is stable and keeps
  them in store order.
- `DayView.DailySchedule`: its contract (through `DayView.GroupsFollowDay`)
  lists entries with equal start times in store order. That is more than
  the source promises, since its `sort('startTime')` may return ties in
  any order.
- `Materials.MaterialsNeeded`: key order follows first insertion. In
  JavaScript, integer-like names come first instead. Names inherited from
  the object prototype (such as `constructor`) are not modelled, and
  quantities are integers (no `NaN` from a missing quantity).
- The seed script is not modelled.
