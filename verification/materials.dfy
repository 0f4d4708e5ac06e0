/** The materials list (`getMaterialsNeeded`): for every material named by
    an entry of the period, the entry-level quantities plus one per
    occurrence in the entry's activity's default materials. */
module Materials {
  import opened Wrappers
  import opened Calendar
  import opened Schedule
  import opened Conflict
  import opened Views

  /** The fixed low-stock threshold reported with every material. */
  const LowThreshold: int := 5

  datatype MaterialRow = MaterialRow(name: string, quantity: int, lowThreshold: int)

  /** The `materialsMap` object: its keys in the order they were first set,
      and their values. */
  datatype Tally = Tally(names: seq<string>, counts: map<string, int>)

  ghost predicate ValidTally(t: Tally)
  {
    && (forall n :: n in t.counts <==> n in t.names)
    && (forall i, j :: 0 <= i < |t.names| && 0 <= j < |t.names| && i != j ==> t.names[i] != t.names[j])
  }

  /** The value of a key, reading an unset key as 0. */
  function Get(t: Tally, n: string): int
  {
    if n in t.counts then t.counts[n] else 0
  }

  const Empty: Tally := Tally([], map[])

  function Put(t: Tally, n: string, v: int): (u: Tally)
    requires ValidTally(t)
    ensures ValidTally(u)
    ensures Get(u, n) == v
    ensures forall m :: m != n ==> Get(u, m) == Get(t, m)
    ensures forall m :: m in u.counts <==> m in t.counts || m == n
  {
    if n in t.counts then Tally(t.names, t.counts[n := v])
    else Tally(t.names + [n], t.counts[n := v])
  }

  /** One entry-level line: a key whose value is unset or 0 is first set to
      0, then the quantity is added. Resetting a 0 to 0 changes nothing, so
      the line adds its quantity to the running total. */
  function AddLine(t: Tally, line: MaterialLine): (u: Tally)
    requires ValidTally(t)
    ensures ValidTally(u)
    ensures Get(u, line.item) == Get(t, line.item) + line.quantity
    ensures forall m :: m != line.item ==> Get(u, m) == Get(t, m)
    ensures forall m :: m in u.counts <==> m in t.counts || m == line.item
  {
    var current := if line.item in t.counts && t.counts[line.item] != 0 then t.counts[line.item] else 0;
    Put(t, line.item, current + line.quantity)
  }

  /** One default material of the activity: a key whose value is unset or 0
      becomes 1, any other value grows by 1; either way the total grows by 1. */
  function AddDefault(t: Tally, m: string): (u: Tally)
    requires ValidTally(t)
    ensures ValidTally(u)
    ensures Get(u, m) == Get(t, m) + 1
    ensures forall x :: x != m ==> Get(u, x) == Get(t, x)
    ensures forall x :: x in u.counts <==> x in t.counts || x == m
  {
    if m !in t.counts || t.counts[m] == 0 then Put(t, m, 1) else Put(t, m, t.counts[m] + 1)
  }

  /** Reference: the entry-level quantity of material `n` in `lines`. */
  function LineTotal(lines: seq<MaterialLine>, n: string): int
  {
    if |lines| == 0 then 0
    else (if lines[0].item == n then lines[0].quantity else 0) + LineTotal(lines[1..], n)
  }

  /** Reference: how often `n` occurs in a list of material names. */
  function Occurrences(ms: seq<string>, n: string): nat
  {
    if |ms| == 0 then 0
    else (if ms[0] == n then 1 else 0) + Occurrences(ms[1..], n)
  }

  function AddLines(t: Tally, lines: seq<MaterialLine>): (u: Tally)
    requires ValidTally(t)
    ensures ValidTally(u)
    ensures forall n :: Get(u, n) == Get(t, n) + LineTotal(lines, n)
    ensures forall n :: n in u.counts <==> n in t.counts || exists l :: l in lines && l.item == n
    decreases |lines|
  {
    if |lines| == 0 then t
    else
      var u := AddLines(AddLine(t, lines[0]), lines[1..]);
      assert forall l :: l in lines <==> l == lines[0] || l in lines[1..] by {
        assert lines == [lines[0]] + lines[1..];
      }
      u
  }

  function AddDefaults(t: Tally, ms: seq<string>): (u: Tally)
    requires ValidTally(t)
    ensures ValidTally(u)
    ensures forall n :: Get(u, n) == Get(t, n) + Occurrences(ms, n)
    ensures forall n :: n in u.counts <==> n in t.counts || n in ms
    decreases |ms|
  {
    if |ms| == 0 then t
    else
      var u := AddDefaults(AddDefault(t, ms[0]), ms[1..]);
      assert forall x :: x in ms <==> x == ms[0] || x in ms[1..] by {
        assert ms == [ms[0]] + ms[1..];
      }
      u
  }

  /** Reference: the material `n` is named by entry `j`, in its own lines or
      in its activity's defaults. */
  predicate Names(j: Joined, n: string)
  {
    (exists l :: l in j.entry.materialsRequired && l.item == n) || n in j.activity.materials
  }

  /** Reference: some entry of `js` names material `n`. */
  predicate NamedIn(js: seq<Joined>, n: string)
  {
    exists j :: j in js && Names(j, n)
  }

  /** Some row of the list is about material `n`. */
  predicate Listed(rows: seq<MaterialRow>, n: string)
  {
    exists i :: 0 <= i < |rows| && rows[i].name == n
  }

  /** Reference: the total demand for `n` over the joined entries. */
  function Demand(js: seq<Joined>, n: string): int
  {
    if |js| == 0 then 0
    else LineTotal(js[0].entry.materialsRequired, n) + Occurrences(js[0].activity.materials, n) + Demand(js[1..], n)
  }

  /** One entry of the period: its own lines first, then its activity's defaults. */
  function AddJoined(t: Tally, j: Joined): (u: Tally)
    requires ValidTally(t)
    ensures ValidTally(u)
    ensures forall n :: Get(u, n) == Get(t, n) + LineTotal(j.entry.materialsRequired, n) + Occurrences(j.activity.materials, n)
    ensures forall n :: n in u.counts <==> n in t.counts || Names(j, n)
  {
    AddDefaults(AddLines(t, j.entry.materialsRequired), j.activity.materials)
  }

  lemma NamedInCons(js: seq<Joined>, n: string)
    requires |js| > 0
    ensures NamedIn(js, n) <==> Names(js[0], n) || NamedIn(js[1..], n)
  {
    assert js == [js[0]] + js[1..];
    if NamedIn(js, n) {
      var j :| j in js && Names(j, n);
      assert j == js[0] || j in js[1..];
    }
  }

  /** The `forEach` over the period's entries. */
  function AddAll(t: Tally, js: seq<Joined>): (u: Tally)
    requires ValidTally(t)
    ensures ValidTally(u)
    ensures forall n :: Get(u, n) == Get(t, n) + Demand(js, n)
    ensures forall n :: n in u.counts <==> n in t.counts || NamedIn(js, n)
    decreases |js|
  {
    if |js| == 0 then t
    else
      var u := AddAll(AddJoined(t, js[0]), js[1..]);
      assert forall n :: NamedIn(js, n) <==> Names(js[0], n) || NamedIn(js[1..], n) by {
        forall n ensures NamedIn(js, n) <==> Names(js[0], n) || NamedIn(js[1..], n) {
          NamedInCons(js, n);
        }
      }
      u
  }

  /** The period of the request: both bounds absent means the
      Monday-to-Friday window of today; an absent start alone means today;
      an absent end means four days after the start. */
  function MaterialsRange(startQ: Option<Day>, endQ: Option<Day>, today: Day): (r: (Day, Day))
    ensures startQ.None? && endQ.None? ==> r == (WeekStart(today), WeekEnd(today))
    ensures startQ.Some? ==> r.0 == startQ.value
    ensures startQ.None? && endQ.Some? ==> r.0 == today
    ensures endQ.Some? ==> r.1 == endQ.value
    ensures endQ.None? ==> r.1 == r.0 + 4
  {
    var lo := match startQ
      case Some(s) => s
      case None => if endQ.None? then WeekStart(today) else today;
    var hi := match endQ
      case Some(e) => e
      case None => lo + 4;
    (lo, hi)
  }

  predicate InPeriod(d: Day, startQ: Option<Day>, endQ: Option<Day>, today: Day)
  {
    MaterialsRange(startQ, endQ, today).0 <= d <= MaterialsRange(startQ, endQ, today).1
  }

  function Rows(t: Tally): (rows: seq<MaterialRow>)
    requires ValidTally(t)
    ensures |rows| == |t.names|
    ensures forall i :: 0 <= i < |rows| ==>
      rows[i].name == t.names[i] && rows[i].quantity == Get(t, t.names[i]) && rows[i].lowThreshold == LowThreshold
  {
    seq(|t.names|, i requires 0 <= i < |t.names| => MaterialRow(t.names[i], t.counts[t.names[i]], LowThreshold))
  }

  /** The entries of the request's period joined with their activities,
      when every activity exists. */
  function Period(store: Store, catalogue: map<Id, Activity>,
                  startQ: Option<Day>, endQ: Option<Day>, today: Day): Result<seq<Joined>, Id>
  {
    var (lo, hi) := MaterialsRange(startQ, endQ, today);
    Populate(InRange(store, lo, hi), catalogue)
  }

  lemma RowsListed(t: Tally)
    requires ValidTally(t)
    ensures forall n :: Listed(Rows(t), n) <==> n in t.counts
    ensures forall i, j :: 0 <= i < |Rows(t)| && 0 <= j < |Rows(t)| && i != j ==> Rows(t)[i].name != Rows(t)[j].name
  {
    var rows := Rows(t);
    forall n ensures Listed(rows, n) <==> n in t.counts {
      if n in t.names {
        var i :| 0 <= i < |t.names| && t.names[i] == n;
        assert rows[i].name == n;
      }
    }
  }

  /** The materials list of a period: one row per material named in the
      period, each with its total demand and the fixed threshold. */
  function MaterialsNeeded(store: Store, catalogue: map<Id, Activity>,
                           startQ: Option<Day>, endQ: Option<Day>, today: Day): (r: Result<seq<MaterialRow>, ViewError>)
    ensures r.Success? <==> (forall e :: e in store && InPeriod(e.date, startQ, endQ, today) ==> e.activity in catalogue)
    ensures r.Success? ==> forall i :: 0 <= i < |r.value| ==> r.value[i].lowThreshold == LowThreshold
    ensures r.Success? ==> forall i, j :: 0 <= i < |r.value| && 0 <= j < |r.value| && i != j ==>
      r.value[i].name != r.value[j].name
    ensures r.Success? ==> forall i :: 0 <= i < |r.value| ==>
      r.value[i].quantity == Demand(Period(store, catalogue, startQ, endQ, today).value, r.value[i].name)
    ensures r.Success? ==> forall n ::
      Listed(r.value, n) <==> NamedIn(Period(store, catalogue, startQ, endQ, today).value, n)
  {
    match Period(store, catalogue, startQ, endQ, today)
    case Failure(id) => Failure(DanglingActivity(id))
    case Success(js) =>
      var t := AddAll(Empty, js);
      RowsListed(t);
      Success(Rows(t))
  }
}
