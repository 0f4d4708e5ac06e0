/** The conflict detector: which stored entries block a candidate slot, and
    the store invariant it exists to protect. */
module Conflict {
  import opened Wrappers
  import opened Interval
  import opened Schedule

  /** The schedule collection, in the order the store iterates it. */
  type Store = seq<Entry>

  /** The conflict query for one stored entry: not the excluded id, same
      calendar day, same location, and the three-clause time filter. */
  predicate Blocks(e: Entry, cand: Slot, exclude: Option<Id>)
  {
    && (exclude.None? || e.id != exclude.value)
    && e.date == cand.date
    && e.location == cand.location
    && ThreeClause(e.startTime, e.endTime, cand.startTime, cand.endTime)
  }

  /** `findOne` with the conflict query: some blocking entry, or none if no
      entry blocks. Which blocking entry is returned is not promised. */
  function FindConflict(store: Store, cand: Slot, exclude: Option<Id>): (r: Option<Entry>)
    ensures r.Some? ==> r.value in store && Blocks(r.value, cand, exclude)
    ensures r.None? ==> forall e :: e in store ==> !Blocks(e, cand, exclude)
  {
    if |store| == 0 then None
    else if Blocks(store[0], cand, exclude) then Some(store[0])
    else FindConflict(store[1..], cand, exclude)
  }

  /** A stored entry and a slot on the same day at the same place with
      overlapping times. */
  predicate Collides(e: Entry, cand: Slot)
  {
    && e.date == cand.date
    && e.location == cand.location
    && Overlap(e.startTime, e.endTime, cand.startTime, cand.endTime)
  }

  /** Two entries booked on the same day at the same place with overlapping times. */
  predicate DoubleBooked(a: Entry, b: Entry)
  {
    Collides(a, b.SlotOf())
  }

  /** The invariant: no two distinct entries are double-booked. */
  predicate NoDoubleBooking(store: Store)
  {
    forall i, j :: 0 <= i < |store| && 0 <= j < |store| && i != j ==> !DoubleBooked(store[i], store[j])
  }

  /** Document ids are unique in the store. */
  predicate UniqueIds(store: Store)
  {
    forall i, j :: 0 <= i < |store| && 0 <= j < |store| && i != j ==> store[i].id != store[j].id
  }

  /** Every stored interval is well-formed. */
  predicate AllWellFormed(store: Store)
  {
    forall i :: 0 <= i < |store| ==> WellFormed(store[i].startTime, store[i].endTime)
  }

  /** Entries on the candidate's day at the candidate's location, in store order. */
  function SameDayAndPlace(store: Store, cand: Slot): (r: Store)
    ensures forall e :: e in r <==> e in store && e.date == cand.date && e.location == cand.location
    ensures |r| <= |store|
  {
    if |store| == 0 then []
    else if store[0].date == cand.date && store[0].location == cand.location
    then [store[0]] + SameDayAndPlace(store[1..], cand)
    else SameDayAndPlace(store[1..], cand)
  }

  /** Only entries on the same day and at the same location can block: the
      detector answers the same, witness included, when every other entry
      is removed from the store. */
  lemma {:induction false} OnlySameDayAndPlaceMatter(store: Store, cand: Slot, exclude: Option<Id>)
    ensures FindConflict(store, cand, exclude) == FindConflict(SameDayAndPlace(store, cand), cand, exclude)
  {
    if |store| > 0 {
      OnlySameDayAndPlaceMatter(store[1..], cand, exclude);
      if store[0].date == cand.date && store[0].location == cand.location {
        assert ([store[0]] + SameDayAndPlace(store[1..], cand))[1..] == SameDayAndPlace(store[1..], cand);
      }
    }
  }

  /** With every interval well-formed, the detector reports a conflict exactly
      when some other entry on the same day and at the same location
      overlaps the candidate. */
  lemma ConflictIffOverlap(store: Store, cand: Slot, exclude: Option<Id>)
    requires AllWellFormed(store)
    requires WellFormed(cand.startTime, cand.endTime)
    ensures FindConflict(store, cand, exclude).Some? <==>
      exists i :: 0 <= i < |store| && (exclude.None? || store[i].id != exclude.value) && Collides(store[i], cand)
  {
    var r := FindConflict(store, cand, exclude);
    if r.Some? {
      var i :| 0 <= i < |store| && store[i] == r.value;
      ThreeClauseIsOverlap(store[i].startTime, store[i].endTime, cand.startTime, cand.endTime);
    } else {
      forall i | 0 <= i < |store| && (exclude.None? || store[i].id != exclude.value)
        ensures !Collides(store[i], cand)
      {
        assert !Blocks(store[i], cand, exclude);
        if Overlap(store[i].startTime, store[i].endTime, cand.startTime, cand.endTime) {
          OverlapImpliesThreeClause(store[i].startTime, store[i].endTime, cand.startTime, cand.endTime);
        }
      }
    }
  }

  /** An entry the conflict query does not match is double-booked with no
      entry placed in the candidate slot. This needs no well-formedness:
      the filter catches every overlap. */
  lemma NotBlockingMeansNotDoubleBooked(s: Entry, e: Entry, exclude: Option<Id>)
    requires !Blocks(s, e.SlotOf(), exclude)
    requires exclude.None? || s.id != exclude.value
    ensures !DoubleBooked(s, e) && !DoubleBooked(e, s)
  {
    if Overlap(s.startTime, s.endTime, e.startTime, e.endTime) {
      OverlapImpliesThreeClause(s.startTime, s.endTime, e.startTime, e.endTime);
    }
  }
}
