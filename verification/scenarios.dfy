/** Concrete requests against a one-entry store on Monday 2025-04-21, and a
    materials list over a week with two bookings of the same activity. */
module Scenarios {
  import opened Wrappers
  import opened Calendar
  import opened ClockText
  import opened Schedule
  import opened Conflict
  import opened Booking
  import opened Views
  import opened Materials

  /** 2025-04-21 as a day number. */
  const April21: Day := 20199

  const Soccer: Activity := Activity("Soccer Practice", "Skills and mini-games", ["Cones"])

  const Catalogue: map<Id, Activity> := map["a1" := Soccer]

  const Director: Option<User> := Some(User("camp_director", "director"))

  /** Booking X: Field A, 10:00 to 11:00. */
  const X: Entry := Entry("x", "a1", April21, 600, 660, "7-9", "Field A", "Coach Sam", None, [], 0, "camp_director")

  function Request(location: string, startTime: int, endTime: int): CreateRequest
  {
    CreateRequest("a1", April21, startTime, endTime, "7-9", location, "Coach Lee", None, [])
  }

  /** 10:30 to 11:30 at Field A conflicts with X; 11:00 to 12:00 touches it
      and is accepted; 10:30 to 11:30 at Field B is elsewhere and accepted. */
  lemma FieldAScenario()
    ensures JsWeekday(April21) == 1
    ensures ToMinutes("10:30") == 630 && FromMinutes(660) == "11:00"
    ensures Create([X], Catalogue, Request("Field A", 630, 690), Director, "y", 1).result == Failure(Conflicting("x"))
    ensures Create([X], Catalogue, Request("Field A", 660, 720), Director, "z", 1).result.Success?
    ensures Create([X], Catalogue, Request("Field B", 630, 690), Director, "w", 1).result.Success?
    ensures Create([X], Catalogue, Request("Field A", 660, 720), None, "z", 1).result.value.createdBy == "system"
  {
    assert FromMinutes(660) == ['1', '1', ':', '0', '0'];
  }

  const SecondBooking: Entry := X.(id := "x2", startTime := 780, endTime := 840)

  lemma TwoBookingsPeriod()
    ensures Period([X, SecondBooking], Catalogue, None, None, April21)
      == Success([Joined(X, Soccer), Joined(SecondBooking, Soccer)])
  {
    var store := [X, SecondBooking];
    assert WeekStart(April21) == April21;
    assert MaterialsRange(None, None, April21) == (April21, April21 + 4);
    assert InRange(store, April21, April21 + 4) == store;
    assert store[1..] == [SecondBooking] && store[1..][1..] == [];
    assert SecondBooking.activity == "a1" && X.activity == "a1" && Catalogue["a1"] == Soccer;
    assert Populate([], Catalogue) == Success([]);
    assert [SecondBooking][1..] == [];
    assert [Joined(SecondBooking, Soccer)] + [] == [Joined(SecondBooking, Soccer)];
    assert Populate([SecondBooking], Catalogue) == Success([Joined(SecondBooking, Soccer)]);
    assert [Joined(X, Soccer)] + [Joined(SecondBooking, Soccer)] == [Joined(X, Soccer), Joined(SecondBooking, Soccer)];
  }

  lemma TwoBookingsTally()
    ensures AddAll(Empty, [Joined(X, Soccer), Joined(SecondBooking, Soccer)]) == Tally(["Cones"], map["Cones" := 2])
  {
    var js := [Joined(X, Soccer), Joined(SecondBooking, Soccer)];
    var t1 := Tally(["Cones"], map["Cones" := 1]);
    var t2 := Tally(["Cones"], map["Cones" := 2]);
    assert Soccer.materials == ["Cones"] && ["Cones"][1..] == [];
    assert X.materialsRequired == [] && SecondBooking.materialsRequired == [];
    assert [] + ["Cones"] == ["Cones"];
    assert AddDefault(Empty, "Cones") == t1;
    assert AddDefaults(Empty, ["Cones"]) == AddDefaults(t1, []) == t1;
    assert AddJoined(Empty, js[0]) == t1;
    assert AddDefault(t1, "Cones") == t2;
    assert AddDefaults(t1, ["Cones"]) == AddDefaults(t2, []) == t2;
    assert AddJoined(t1, js[1]) == t2;
    assert js[1..] == [js[1]] && js[1..][1..] == [];
    assert AddAll(Empty, js) == AddAll(t1, js[1..]);
    assert AddAll(t1, js[1..]) == AddAll(t2, []);
  }

  /** Two bookings of an activity whose default materials are ["Cones"], with
      no entry-level materials, need two cones. */
  lemma TwoConesScenario()
    ensures MaterialsNeeded([X, SecondBooking], Catalogue, None, None, April21) == Success([MaterialRow("Cones", 2, 5)])
  {
    TwoBookingsPeriod();
    TwoBookingsTally();
    assert Rows(Tally(["Cones"], map["Cones" := 2])) == [MaterialRow("Cones", 2, 5)];
  }
}
