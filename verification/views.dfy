/** The read-only views of the schedule: the Monday-to-Friday week
    (`getWeeklySchedule`), one day grouped by age group
    (`getDailySchedule`) and the number of entries on a day
    (`getCountForDay`). */
module Views {
  import opened Wrappers
  import opened Calendar
  import opened Schedule
  import opened Conflict

  /** A view fails when an entry's activity no longer exists: the joined
      activity is null and reading its name fails. */
  datatype ViewError = DanglingActivity(scheduleId: Id)

  /** An entry joined with its activity (`populate('activity')`). */
  datatype Joined = Joined(entry: Entry, activity: Activity)

  /** Entries dated `lo` to `hi` inclusive, in store order: the query
      from start-of-day `lo` to 23:59:59.999 of `hi`. */
  function InRange(store: Store, lo: Day, hi: Day): (r: Store)
    ensures forall e :: e in r <==> e in store && lo <= e.date <= hi
    ensures |r| <= |store|
  {
    if |store| == 0 then []
    else if lo <= store[0].date <= hi then [store[0]] + InRange(store[1..], lo, hi)
    else InRange(store[1..], lo, hi)
  }

  /** Joins every entry with its activity, or names an entry whose activity is missing. */
  function Populate(entries: seq<Entry>, catalogue: map<Id, Activity>): (r: Result<seq<Joined>, Id>)
    ensures r.Success? <==> forall e :: e in entries ==> e.activity in catalogue
    ensures r.Success? ==> |r.value| == |entries|
    ensures r.Success? ==> forall i :: 0 <= i < |entries| ==>
      r.value[i].entry == entries[i] && r.value[i].activity == catalogue[entries[i].activity]
    ensures r.Failure? ==> exists e :: e in entries && e.id == r.error && e.activity !in catalogue
  {
    if |entries| == 0 then Success([])
    else if entries[0].activity !in catalogue then Failure(entries[0].id)
    else match Populate(entries[1..], catalogue)
      case Failure(id) => Failure(id)
      case Success(rest) => Success([Joined(entries[0], catalogue[entries[0].activity])] + rest)
  }

  /** One entry of the week view. */
  datatype WeekRow = WeekRow(
    id: Id, name: string, description: string, date: Day, dayOfWeek: int,
    startTime: int, endTime: int, ageGroup: string, location: string,
    assignedCoach: string, notes: Option<string>, materialsRequired: seq<MaterialLine>)

  datatype WeekView = WeekView(startDate: Day, endDate: Day, activities: seq<WeekRow>)

  function WeekRowOf(j: Joined): WeekRow
  {
    var e := j.entry;
    WeekRow(e.id, j.activity.name, j.activity.description, e.date, DayOfWeek(e),
            e.startTime, e.endTime, e.ageGroup, e.location, e.assignedCoach, e.notes, e.materialsRequired)
  }

  function WeekRows(js: seq<Joined>): (rows: seq<WeekRow>)
    ensures |rows| == |js|
    ensures forall i :: 0 <= i < |js| ==> rows[i] == WeekRowOf(js[i])
  {
    seq(|js|, i requires 0 <= i < |js| => WeekRowOf(js[i]))
  }

  /** Row `w` shows stored entry `e`: its activity's name and description,
      its `dayOfWeek` virtual, and the entry's own fields copied unchanged. */
  predicate ShowsEntry(w: WeekRow, e: Entry, catalogue: map<Id, Activity>)
  {
    && e.activity in catalogue
    && w.name == catalogue[e.activity].name
    && w.description == catalogue[e.activity].description
    && w.id == e.id && w.date == e.date && w.dayOfWeek == DayOfWeek(e)
    && w.startTime == e.startTime && w.endTime == e.endTime
    && w.ageGroup == e.ageGroup && w.location == e.location
    && w.assignedCoach == e.assignedCoach && w.notes == e.notes
    && w.materialsRequired == e.materialsRequired
  }

  /** Row `i` of the week shows entry `i` of the window. */
  lemma WeekRowsShow(entries: seq<Entry>, catalogue: map<Id, Activity>, js: seq<Joined>)
    requires Populate(entries, catalogue) == Success(js)
    ensures |WeekRows(js)| == |entries|
    ensures forall i :: 0 <= i < |entries| ==> ShowsEntry(WeekRows(js)[i], entries[i], catalogue)
  {
    forall i | 0 <= i < |entries| ensures ShowsEntry(WeekRows(js)[i], entries[i], catalogue) {
      assert js[i] == Joined(entries[i], catalogue[entries[i].activity]);
    }
  }

  /** View `v` lists the week of `ref`: one row per entry of the window, in
      store order, each showing its entry; every row falls on a weekday of
      the window and every window entry is shown. */
  predicate ShowsWeek(store: Store, catalogue: map<Id, Activity>, ref: Day, v: WeekView)
  {
    && |v.activities| == |InRange(store, WeekStart(ref), WeekEnd(ref))|
    && (forall i :: 0 <= i < |v.activities| ==>
          ShowsEntry(v.activities[i], InRange(store, WeekStart(ref), WeekEnd(ref))[i], catalogue))
    && (forall w :: w in v.activities ==> WeekStart(ref) <= w.date <= WeekEnd(ref) && 1 <= w.dayOfWeek <= 5)
    && (forall w :: w in v.activities ==> exists e :: e in store && ShowsEntry(w, e, catalogue))
    && (forall e :: e in store && InWeekWindow(e.date, ref) ==> exists w :: w in v.activities && ShowsEntry(w, e, catalogue))
  }

  lemma WeekRowsFacts(store: Store, catalogue: map<Id, Activity>, ref: Day, js: seq<Joined>, v: WeekView)
    requires Populate(InRange(store, WeekStart(ref), WeekEnd(ref)), catalogue) == Success(js)
    requires v == WeekView(WeekStart(ref), WeekEnd(ref), WeekRows(js))
    ensures ShowsWeek(store, catalogue, ref, v)
  {
    var entries := InRange(store, WeekStart(ref), WeekEnd(ref));
    var rows := v.activities;
    WeekRowsShow(entries, catalogue, js);
    forall w | w in rows
      ensures WeekStart(ref) <= w.date <= WeekEnd(ref) && 1 <= w.dayOfWeek <= 5
      ensures exists e :: e in store && ShowsEntry(w, e, catalogue)
    {
      var i :| 0 <= i < |rows| && rows[i] == w;
      assert entries[i] in entries;
      WindowEntryDayOfWeek(entries[i], ref);
    }
    forall e | e in store && InWeekWindow(e.date, ref)
      ensures exists w :: w in rows && ShowsEntry(w, e, catalogue)
    {
      var i :| 0 <= i < |entries| && entries[i] == e;
      assert rows[i] in rows;
    }
  }

  /** The week of `ref` (today, when the request names no date): its Monday
      and Friday, and every entry dated between them with its activity's
      name and description. */
  function WeeklySchedule(store: Store, catalogue: map<Id, Activity>, ref: Day): (r: Result<WeekView, ViewError>)
    ensures r.Success? <==> forall e :: e in store && InWeekWindow(e.date, ref) ==> e.activity in catalogue
    ensures r.Success? ==>
      && r.value.startDate == WeekStart(ref) && r.value.endDate == WeekEnd(ref)
      && JsWeekday(r.value.startDate) == 1 && r.value.startDate <= ref <= r.value.startDate + 6
      && JsWeekday(r.value.endDate) == 5 && r.value.endDate == r.value.startDate + 4
    ensures r.Success? ==> ShowsWeek(store, catalogue, ref, r.value)
  {
    var lo := WeekStart(ref);
    var hi := WeekEnd(ref);
    match Populate(InRange(store, lo, hi), catalogue)
    case Failure(id) => Failure(DanglingActivity(id))
    case Success(js) =>
      var v := WeekView(lo, hi, WeekRows(js));
      WeekRowsFacts(store, catalogue, ref, js, v);
      Success(v)
  }
}
