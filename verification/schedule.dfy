/** The schedule entry record (`ScheduleSchema`) and the activity fields the
    schedule controller reads. */
module Schedule {
  import opened Wrappers
  import opened Calendar

  /** A document id (an ObjectId in the store). */
  type Id = string

  /** One `materialsRequired` line of an entry. */
  datatype MaterialLine = MaterialLine(item: string, quantity: int)

  /** The activity fields the controller reads after joining an entry with
      its activity: name and description for the views, the default
      material names for the materials list. */
  datatype Activity = Activity(name: string, description: string, materials: seq<string>)

  /** Where and when an entry takes place: the fields the conflict check reads. */
  datatype Slot = Slot(date: Day, location: string, startTime: int, endTime: int)

  /** A schedule entry. Times are minutes since midnight (the store keeps
      them as `HH:MM` strings, see `ClockText`), the date is a day number. */
  datatype Entry = Entry(
    id: Id,
    activity: Id,
    date: Day,
    startTime: int,
    endTime: int,
    ageGroup: string,
    location: string,
    assignedCoach: string,
    notes: Option<string>,
    materialsRequired: seq<MaterialLine>,
    createdAt: int,
    createdBy: string)
  {
    function SlotOf(): Slot
    {
      Slot(date, location, startTime, endTime)
    }
  }

  /** The `dayOfWeek` virtual: Monday = 1 .. Sunday = 7. */
  function DayOfWeek(e: Entry): (k: int)
    ensures 1 <= k <= 7
    ensures k % 7 == JsWeekday(e.date)
    ensures k == 7 <==> JsWeekday(e.date) == 0
  {
    IsoWeekday(JsWeekday(e.date))
  }

  /** The schema's `required` validators, which reject a missing or empty
      string: activity, ageGroup, location, assignedCoach and createdBy must
      be non-empty. Date and times are always present in this model;
      `notes` and `materialsRequired` are optional. */
  predicate SatisfiesSchema(e: Entry)
  {
    && e.activity != ""
    && e.ageGroup != ""
    && e.location != ""
    && e.assignedCoach != ""
    && e.createdBy != ""
  }

  /** An entry of the window shows a weekday number 1..5. */
  lemma WindowEntryDayOfWeek(e: Entry, ref: Day)
    requires InWeekWindow(e.date, ref)
    ensures 1 <= DayOfWeek(e) <= 5
  {
    WindowDaysAreWeekdays(e.date, ref);
  }
}
