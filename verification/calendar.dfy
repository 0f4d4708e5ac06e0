/** Calendar days and weekdays.

    A calendar date is a day number counted from 1970-01-01, which was a
    Thursday. The JavaScript `Date.getDay()` convention numbers weekdays
    Sunday = 0 .. Saturday = 6; the schedule record's `dayOfWeek` virtual
    renumbers them Monday = 1 .. Sunday = 7. */
module Calendar {

  /** Days since 1970-01-01 (negative before it). */
  type Day = int

  /** `getDay()` of 1970-01-01, a Thursday. */
  const EpochWeekday: int := 4

  /** `Date.getDay()`: Sunday = 0, Monday = 1, ..., Saturday = 6. */
  function JsWeekday(d: Day): (w: int)
    ensures 0 <= w < 7
    ensures d == 0 ==> w == EpochWeekday
  {
    (d + EpochWeekday) % 7
  }

  /** Each day's weekday follows the previous day's, wrapping Saturday to Sunday. */
  lemma NextDayWeekday(d: Day)
    ensures JsWeekday(d + 1) == (JsWeekday(d) + 1) % 7
  {
    var q := (d + EpochWeekday) / 7;
    var w := JsWeekday(d);
    assert d + EpochWeekday == 7 * q + w;
    if w == 6 {
      assert d + 1 + EpochWeekday == 7 * (q + 1);
    } else {
      assert d + 1 + EpochWeekday == 7 * q + (w + 1);
    }
  }

  /** The `dayOfWeek` virtual's renumbering: Sunday (0) becomes 7, Monday to
      Saturday keep their number. Reducing the result modulo 7 gives the
      input back, so the renumbering is one-to-one. */
  function IsoWeekday(w: int): (k: int)
    requires 0 <= w < 7
    ensures 1 <= k <= 7
    ensures k % 7 == w
  {
    if w == 0 then 7 else w
  }

  /** The renumbering is a bijection from 0..6 onto 1..7: every number in
      1..7 is hit by exactly one weekday. */
  lemma IsoWeekdayBijective(k: int)
    requires 1 <= k <= 7
    ensures exists w :: 0 <= w < 7 && IsoWeekday(w) == k
    ensures forall w :: 0 <= w < 7 && IsoWeekday(w) == k ==> w == k % 7
  {
    assert IsoWeekday(k % 7) == k;
  }

  /** First day of the Monday-to-Friday window of `ref`'s week
      (`getWeeklySchedule`): a Sunday belongs to the week that started six
      days before it. */
  function WeekStart(ref: Day): (monday: Day)
    ensures JsWeekday(monday) == 1
    ensures monday <= ref <= monday + 6
    ensures JsWeekday(ref) == 0 ==> monday == ref - 6
    ensures JsWeekday(ref) != 0 ==> ref - monday == JsWeekday(ref) - 1
  {
    var day := JsWeekday(ref);
    var monday := ref - day + (if day == 0 then -6 else 1);
    MondayArithmetic(ref, day, monday);
    monday
  }

  lemma MondayArithmetic(ref: Day, day: int, monday: Day)
    requires day == JsWeekday(ref)
    requires monday == ref - day + (if day == 0 then -6 else 1)
    ensures JsWeekday(monday) == 1
  {
    var q := (ref + EpochWeekday) / 7;
    assert ref + EpochWeekday == 7 * q + day;
    if day == 0 {
      assert monday + EpochWeekday == 7 * (q - 1) + 1;
    } else {
      assert monday + EpochWeekday == 7 * q + 1;
    }
  }

  /** Last day of the window: the Friday four days after its Monday. */
  function WeekEnd(ref: Day): (friday: Day)
    ensures JsWeekday(friday) == 5
    ensures friday == WeekStart(ref) + 4
  {
    var m := WeekStart(ref);
    NextDayWeekday(m);
    NextDayWeekday(m + 1);
    NextDayWeekday(m + 2);
    NextDayWeekday(m + 3);
    m + 4
  }

  /** The window query `$gte` start-of-Monday, `$lte` Friday 23:59:59.999,
      on day numbers. */
  predicate InWeekWindow(d: Day, ref: Day)
  {
    WeekStart(ref) <= d <= WeekEnd(ref)
  }

  /** The Monday of the window is the only Monday at most six days before
      the reference day. */
  lemma WeekStartUnique(ref: Day, m: Day)
    requires JsWeekday(m) == 1
    requires m <= ref <= m + 6
    ensures m == WeekStart(ref)
  {
    var w := WeekStart(ref);
    var qm := (m + EpochWeekday) / 7;
    var qw := (w + EpochWeekday) / 7;
    assert m + EpochWeekday == 7 * qm + 1;
    assert w + EpochWeekday == 7 * qw + 1;
    assert m - w == 7 * (qm - qw);
  }

  /** Every day of the window is a weekday: its `dayOfWeek` lies in 1..5. */
  lemma WindowDaysAreWeekdays(d: Day, ref: Day)
    requires InWeekWindow(d, ref)
    ensures 1 <= IsoWeekday(JsWeekday(d)) <= 5
    ensures IsoWeekday(JsWeekday(d)) == d - WeekStart(ref) + 1
  {
    var m := WeekStart(ref);
    var q := (m + EpochWeekday) / 7;
    assert m + EpochWeekday == 7 * q + 1;
    assert d + EpochWeekday == 7 * q + (d - m + 1);
  }
}
