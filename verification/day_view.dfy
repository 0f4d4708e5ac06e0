/** The day view (`getDailySchedule`): the day's entries ordered by start
    time and grouped by age group, and the day count (`getCountForDay`). */
module DayView {
  import opened Wrappers
  import opened Calendar
  import opened Schedule
  import opened Conflict
  import opened Views

  predicate SortedByStart(s: seq<Entry>)
  {
    forall i, j :: 0 <= i < j < |s| ==> s[i].startTime <= s[j].startTime
  }

  lemma ConsSorted(x: Entry, s: seq<Entry>)
    requires SortedByStart(s)
    requires forall y :: y in s ==> x.startTime <= y.startTime
    ensures SortedByStart([x] + s)
  {
    var r := [x] + s;
    forall i, j | 0 <= i < j < |r| ensures r[i].startTime <= r[j].startTime {
      if i == 0 {
        assert r[j] in s;
      } else {
        assert r[i] == s[i - 1] && r[j] == s[j - 1];
      }
    }
  }

  /** In a start-ordered list, the head starts no later than any element. */
  lemma HeadIsEarliest(s: seq<Entry>)
    requires SortedByStart(s) && |s| > 0
    ensures forall y :: y in s ==> s[0].startTime <= y.startTime
  {
    forall y | y in s ensures s[0].startTime <= y.startTime {
      var k :| 0 <= k < |s| && s[k] == y;
      assert k == 0 || s[0].startTime <= s[k].startTime;
    }
  }

  function Insert(e: Entry, s: seq<Entry>): (r: seq<Entry>)
    requires SortedByStart(s)
    ensures SortedByStart(r)
    ensures multiset(r) == multiset(s) + multiset{e}
    ensures forall x :: x in r <==> x == e || x in s
  {
    if |s| == 0 then [e]
    else if e.startTime <= s[0].startTime then
      HeadIsEarliest(s);
      ConsSorted(e, s);
      [e] + s
    else
      var tail := s[1..];
      assert s == [s[0]] + tail;
      var rest := Insert(e, tail);
      HeadIsEarliest(s);
      ConsSorted(s[0], rest);
      [s[0]] + rest
  }

  /** The store's `sort('startTime')`: the same entries, ordered by start
      time. How ties are ordered is not promised. */
  function SortByStart(s: seq<Entry>): (r: seq<Entry>)
    ensures SortedByStart(r)
    ensures multiset(r) == multiset(s)
    ensures forall x :: x in r <==> x in s
  {
    if |s| == 0 then []
    else
      assert s == [s[0]] + s[1..];
      Insert(s[0], SortByStart(s[1..]))
  }

  /** One entry of the day view, listed under its age group. */
  datatype DayRow = DayRow(
    id: Id, name: string, startTime: int, endTime: int, location: string,
    assignedCoach: string, materialsRequired: seq<MaterialLine>, notes: Option<string>)

  function DayRowOf(j: Joined): DayRow
  {
    DayRow(j.entry.id, j.activity.name, j.entry.startTime, j.entry.endTime, j.entry.location,
           j.entry.assignedCoach, j.entry.materialsRequired, j.entry.notes)
  }

  /** The `forEach` that pushes each row onto its age group's list. */
  function GroupByAgeGroup(js: seq<Joined>): (m: map<string, seq<DayRow>>)
    ensures forall j :: j in js ==> j.entry.ageGroup in m
    ensures forall g :: g in m ==> |m[g]| > 0
  {
    if |js| == 0 then map[]
    else
      var m := GroupByAgeGroup(js[..|js| - 1]);
      var j := js[|js| - 1];
      var g := j.entry.ageGroup;
      m[g := (if g in m then m[g] else []) + [DayRowOf(j)]]
  }

  /** Reference: the rows of age group `g`, in input order. */
  function RowsOf(js: seq<Joined>, g: string): seq<DayRow>
  {
    if |js| == 0 then []
    else (if js[0].entry.ageGroup == g then [DayRowOf(js[0])] else []) + RowsOf(js[1..], g)
  }

  lemma {:induction false} RowsOfSnoc(js: seq<Joined>, j: Joined, g: string)
    ensures RowsOf(js + [j], g) == RowsOf(js, g) + (if j.entry.ageGroup == g then [DayRowOf(j)] else [])
  {
    if |js| == 0 {
      assert js + [j] == [j];
    } else {
      assert (js + [j])[1..] == js[1..] + [j];
      RowsOfSnoc(js[1..], j, g);
    }
  }

  /** Grouping puts each age group's rows, in input order, under that age
      group, and nothing under an age group no entry has. */
  lemma {:induction false} GroupByAgeGroupIsFilter(js: seq<Joined>, g: string)
    ensures g in GroupByAgeGroup(js) <==> exists j :: j in js && j.entry.ageGroup == g
    ensures g in GroupByAgeGroup(js) ==> GroupByAgeGroup(js)[g] == RowsOf(js, g)
    ensures g !in GroupByAgeGroup(js) ==> RowsOf(js, g) == []
  {
    if |js| > 0 {
      var init := js[..|js| - 1];
      var j := js[|js| - 1];
      assert js == init + [j];
      GroupByAgeGroupIsFilter(init, g);
      RowsOfSnoc(init, j, g);
      if j.entry.ageGroup != g && g !in GroupByAgeGroup(js) {
        forall x | x in js ensures x.entry.ageGroup != g {
          if x != j { assert x in init; }
        }
      }
    }
  }

  /** Every row listed under `g` is some input entry of age group `g`, and
      rows keep the input's order by start time. */
  lemma {:induction false} RowsOfFacts(js: seq<Joined>, g: string)
    requires forall a, b :: 0 <= a < b < |js| ==> js[a].entry.startTime <= js[b].entry.startTime
    ensures forall r :: r in RowsOf(js, g) ==> exists j :: j in js && j.entry.ageGroup == g && r == DayRowOf(j)
    ensures forall a, b :: 0 <= a < b < |RowsOf(js, g)| ==> RowsOf(js, g)[a].startTime <= RowsOf(js, g)[b].startTime
  {
    if |js| > 0 {
      RowsOfFacts(js[1..], g);
      var rest := RowsOf(js[1..], g);
      forall r | r in rest ensures js[0].entry.startTime <= r.startTime {
        var j :| j in js[1..] && r == DayRowOf(j);
        var b :| 0 <= b < |js[1..]| && js[1..][b] == j;
        assert js[b + 1] == j;
      }
    }
  }

  /** Row `row` lists stored entry `e`: its activity's name and the
      entry's own fields copied unchanged. */
  predicate ListsEntry(row: DayRow, e: Entry, catalogue: map<Id, Activity>)
  {
    && e.activity in catalogue && row.name == catalogue[e.activity].name
    && row.id == e.id && row.startTime == e.startTime && row.endTime == e.endTime
    && row.location == e.location && row.assignedCoach == e.assignedCoach
    && row.materialsRequired == e.materialsRequired && row.notes == e.notes
  }

  /** The entries of age group `g`, in their order in `s`. */
  function OfAgeGroup(s: seq<Entry>, g: string): (r: seq<Entry>)
    ensures forall e :: e in r <==> e in s && e.ageGroup == g
  {
    if |s| == 0 then []
    else (if s[0].ageGroup == g then [s[0]] else []) + OfAgeGroup(s[1..], g)
  }

  /** Grouping lists, under `g`, row by row the entries of age group `g`. */
  lemma {:induction false} RowsOfListsGroup(entries: seq<Entry>, catalogue: map<Id, Activity>, js: seq<Joined>, g: string)
    requires |js| == |entries|
    requires forall i :: 0 <= i < |entries| ==>
      entries[i].activity in catalogue && js[i] == Joined(entries[i], catalogue[entries[i].activity])
    ensures ListsInOrder(RowsOf(js, g), OfAgeGroup(entries, g), catalogue)
  {
    if |entries| > 0 {
      assert forall i :: 0 <= i < |entries[1..]| ==> entries[1..][i] == entries[i + 1] && js[1..][i] == js[i + 1];
      RowsOfListsGroup(entries[1..], catalogue, js[1..], g);
    }
  }

  /** Row `i` lists entry `i`, and there are as many rows as entries. */
  predicate ListsInOrder(rows: seq<DayRow>, es: seq<Entry>, catalogue: map<Id, Activity>)
  {
    |rows| == |es| && forall i :: 0 <= i < |rows| ==> ListsEntry(rows[i], es[i], catalogue)
  }

  /** Every entry of day `d` is listed under its age group. */
  ghost predicate ListsEveryEntry(store: Store, catalogue: map<Id, Activity>, d: Day, schedules: map<string, seq<DayRow>>)
  {
    forall e :: e in store && e.date == d ==>
      e.ageGroup in schedules && exists row :: row in schedules[e.ageGroup] && ListsEntry(row, e, catalogue)
  }

  /** The keys are exactly the age groups of the day's entries. */
  ghost predicate KeysAreDayGroups(store: Store, d: Day, schedules: map<string, seq<DayRow>>)
  {
    forall g :: g in schedules <==> exists e :: e in store && e.date == d && e.ageGroup == g
  }

  /** Under each age group, row by row the day's entries of that group in
      start-time order. */
  ghost predicate GroupsFollowDay(store: Store, catalogue: map<Id, Activity>, d: Day, schedules: map<string, seq<DayRow>>)
  {
    forall g :: g in schedules ==> ListsInOrder(schedules[g], OfAgeGroup(DayEntries(store, d), g), catalogue)
  }

  /** Every row lists some entry of the day from its own age group. */
  ghost predicate RowsFromDay(store: Store, catalogue: map<Id, Activity>, d: Day, schedules: map<string, seq<DayRow>>)
  {
    forall g, row :: g in schedules && row in schedules[g] ==>
      exists e :: e in store && e.date == d && e.ageGroup == g && ListsEntry(row, e, catalogue)
  }

  /** Each group's rows are ordered by start time. */
  ghost predicate GroupsSortedByStart(schedules: map<string, seq<DayRow>>)
  {
    forall g, a, b :: g in schedules && 0 <= a < b < |schedules[g]| ==>
      schedules[g][a].startTime <= schedules[g][b].startTime
  }

  /** Map `schedules` is the day view of `d`. */
  ghost predicate ListsDay(store: Store, catalogue: map<Id, Activity>, d: Day, schedules: map<string, seq<DayRow>>)
  {
    && ListsEveryEntry(store, catalogue, d, schedules)
    && KeysAreDayGroups(store, d, schedules)
    && GroupsFollowDay(store, catalogue, d, schedules)
    && RowsFromDay(store, catalogue, d, schedules)
    && GroupsSortedByStart(schedules)
  }

  datatype DayScheduleView = DayScheduleView(date: Day, dayOfWeek: int, schedules: map<string, seq<DayRow>>)

  /** The day view of `d`: `dayOfWeek` here is the raw weekday (Sunday = 0),
      not the record's virtual; under every age group of the day, that
      group's entries of the day in start-time order. */
  function DailySchedule(store: Store, catalogue: map<Id, Activity>, d: Day): (r: Result<DayScheduleView, ViewError>)
    ensures r.Success? <==> forall e :: e in store && e.date == d ==> e.activity in catalogue
    ensures r.Success? ==> r.value.date == d && 0 <= r.value.dayOfWeek < 7 && r.value.dayOfWeek == JsWeekday(d)
    ensures r.Success? ==> ListsDay(store, catalogue, d, r.value.schedules)
  {
    var entries := DayEntries(store, d);
    DayPopulates(store, catalogue, d);
    match Populate(entries, catalogue)
    case Failure(id) =>
      Failure(DanglingActivity(id))
    case Success(js) =>
      DailyFacts(store, catalogue, d, js);
      Success(DayScheduleView(d, JsWeekday(d), GroupByAgeGroup(js)))
  }

  lemma DayPopulates(store: Store, catalogue: map<Id, Activity>, d: Day)
    ensures Populate(DayEntries(store, d), catalogue).Success? <==>
      forall e :: e in store && e.date == d ==> e.activity in catalogue
  {
  }

  /** The day's entries as the store returns them, ordered by start time. */
  function DayEntries(store: Store, d: Day): (r: seq<Entry>)
    ensures SortedByStart(r)
    ensures forall e :: e in r <==> e in store && e.date == d
  {
    SortByStart(InRange(store, d, d))
  }

  lemma DailyFacts(store: Store, catalogue: map<Id, Activity>, d: Day, js: seq<Joined>)
    requires Populate(DayEntries(store, d), catalogue) == Success(js)
    ensures ListsDay(store, catalogue, d, GroupByAgeGroup(js))
  {
    DailyKeys(store, catalogue, d, js);
    DailyGroupsFollowDay(store, catalogue, d, js);
    DailyRowsFromDay(store, catalogue, d, js);
    EveryEntryListed(store, catalogue, d, GroupByAgeGroup(js));
  }

  lemma DailyKeys(store: Store, catalogue: map<Id, Activity>, d: Day, js: seq<Joined>)
    requires Populate(DayEntries(store, d), catalogue) == Success(js)
    ensures KeysAreDayGroups(store, d, GroupByAgeGroup(js))
  {
    var entries := DayEntries(store, d);
    forall g: string
      ensures g in GroupByAgeGroup(js) <==> exists e :: e in store && e.date == d && e.ageGroup == g
    {
      GroupByAgeGroupIsFilter(js, g);
      DailyGroupKeys(store, catalogue, d, entries, js, g);
    }
  }

  lemma DailyGroupsFollowDay(store: Store, catalogue: map<Id, Activity>, d: Day, js: seq<Joined>)
    requires Populate(DayEntries(store, d), catalogue) == Success(js)
    ensures GroupsFollowDay(store, catalogue, d, GroupByAgeGroup(js))
  {
    forall g | g in GroupByAgeGroup(js)
      ensures ListsInOrder(GroupByAgeGroup(js)[g], OfAgeGroup(DayEntries(store, d), g), catalogue)
    {
      GroupByAgeGroupIsFilter(js, g);
      RowsOfListsGroup(DayEntries(store, d), catalogue, js, g);
    }
  }

  lemma DailyRowsFromDay(store: Store, catalogue: map<Id, Activity>, d: Day, js: seq<Joined>)
    requires Populate(DayEntries(store, d), catalogue) == Success(js)
    ensures RowsFromDay(store, catalogue, d, GroupByAgeGroup(js))
    ensures GroupsSortedByStart(GroupByAgeGroup(js))
  {
    var m: map<string, seq<DayRow>> := GroupByAgeGroup(js);
    var entries := DayEntries(store, d);
    forall g, row | g in m && row in m[g]
      ensures exists e :: e in store && e.date == d && e.ageGroup == g && ListsEntry(row, e, catalogue)
    {
      GroupByAgeGroupIsFilter(js, g);
      DailyGroupRows(store, catalogue, d, entries, js, g);
    }
    forall g: string, a: int, b: int | g in m && 0 <= a < b < |m[g]|
      ensures m[g][a].startTime <= m[g][b].startTime
    {
      GroupByAgeGroupIsFilter(js, g);
      DailyGroupRows(store, catalogue, d, entries, js, g);
    }
  }

  /** A view whose keys are the day's age groups and whose groups follow
      the day's entries lists every entry of the day. */
  lemma EveryEntryListed(store: Store, catalogue: map<Id, Activity>, d: Day, m: map<string, seq<DayRow>>)
    requires KeysAreDayGroups(store, d, m)
    requires GroupsFollowDay(store, catalogue, d, m)
    ensures ListsEveryEntry(store, catalogue, d, m)
  {
    forall e | e in store && e.date == d
      ensures e.ageGroup in m && exists row :: row in m[e.ageGroup] && ListsEntry(row, e, catalogue)
    {
      var g := e.ageGroup;
      assert g in m;
      var group := OfAgeGroup(DayEntries(store, d), g);
      assert e in group;
      var i :| 0 <= i < |group| && group[i] == e;
      assert ListsInOrder(m[g], group, catalogue);
      assert m[g][i] in m[g];
    }
  }

  lemma DailyGroupKeys(store: Store, catalogue: map<Id, Activity>, d: Day, entries: seq<Entry>, js: seq<Joined>, g: string)
    requires forall e :: e in entries <==> e in store && e.date == d
    requires Populate(entries, catalogue) == Success(js)
    ensures (exists j :: j in js && j.entry.ageGroup == g) <==> exists e :: e in store && e.date == d && e.ageGroup == g
  {
    if exists e :: e in store && e.date == d && e.ageGroup == g {
      var e :| e in store && e.date == d && e.ageGroup == g;
      var i :| 0 <= i < |entries| && entries[i] == e;
      assert js[i] in js;
    }
    if exists j :: j in js && j.entry.ageGroup == g {
      var j :| j in js && j.entry.ageGroup == g;
      var i :| 0 <= i < |js| && js[i] == j;
      assert entries[i] in entries;
    }
  }

  lemma DailyGroupRows(store: Store, catalogue: map<Id, Activity>, d: Day, entries: seq<Entry>, js: seq<Joined>, g: string)
    requires SortedByStart(entries)
    requires forall e :: e in entries <==> e in store && e.date == d
    requires Populate(entries, catalogue) == Success(js)
    ensures forall row :: row in RowsOf(js, g) ==>
      exists e :: e in store && e.date == d && e.ageGroup == g && ListsEntry(row, e, catalogue)
    ensures forall a, b :: 0 <= a < b < |RowsOf(js, g)| ==> RowsOf(js, g)[a].startTime <= RowsOf(js, g)[b].startTime
  {
    assert forall a, b :: 0 <= a < b < |js| ==> js[a].entry.startTime <= js[b].entry.startTime;
    RowsOfFacts(js, g);
    forall row | row in RowsOf(js, g)
      ensures exists e :: e in store && e.date == d && e.ageGroup == g && ListsEntry(row, e, catalogue)
    {
      var j :| j in js && j.entry.ageGroup == g && row == DayRowOf(j);
      var i :| 0 <= i < |js| && js[i] == j;
      assert entries[i] in entries;
    }
  }

  /** `countDocuments` for one day. */
  function CountForDay(store: Store, d: Day): (n: nat)
    ensures n == |InRange(store, d, d)|
    ensures n <= |store|
  {
    if |store| == 0 then 0
    else (if store[0].date == d then 1 else 0) + CountForDay(store[1..], d)
  }
}
