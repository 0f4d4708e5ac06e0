/** What create, update and delete do to the store as a whole: each keeps a
    store free of double bookings, and ids unique. */
module BookingInvariants {
  import opened Wrappers
  import opened Interval
  import opened Schedule
  import opened Conflict
  import opened Booking

  /** A store the service can be trusted with: unique ids, no double booking. */
  predicate Consistent(store: Store)
  {
    UniqueIds(store) && NoDoubleBooking(store)
  }

  /** A successful create adds an entry that is double-booked with no stored
      entry, so a store without double bookings stays without them. */
  lemma CreateKeepsNoDoubleBooking(store: Store, activities: map<Id, Activity>, req: CreateRequest,
                                   user: Option<User>, newId: Id, now: int)
    requires NoDoubleBooking(store)
    ensures NoDoubleBooking(Create(store, activities, req, user, newId, now).store)
  {
    var r := Create(store, activities, req, user, newId, now);
    if r.result.Success? {
      var e := r.result.value;
      var s' := r.store;
      assert s' == store + [e];
      forall i, j | 0 <= i < |s'| && 0 <= j < |s'| && i != j
        ensures !DoubleBooked(s'[i], s'[j])
      {
        if i == |store| {
          assert store[j] in store;
          NotBlockingMeansNotDoubleBooked(store[j], e, None);
        } else if j == |store| {
          assert store[i] in store;
          NotBlockingMeansNotDoubleBooked(store[i], e, None);
        } else {
          assert s'[i] == store[i] && s'[j] == store[j];
        }
      }
    }
  }

  /** Create keeps ids unique when the store assigns an unused id. */
  lemma CreateKeepsUniqueIds(store: Store, activities: map<Id, Activity>, req: CreateRequest,
                             user: Option<User>, newId: Id, now: int)
    requires UniqueIds(store)
    requires forall e :: e in store ==> e.id != newId
    ensures UniqueIds(Create(store, activities, req, user, newId, now).store)
  {
    var r := Create(store, activities, req, user, newId, now);
    if r.result.Success? {
      var s' := r.store;
      forall i, j | 0 <= i < |s'| && 0 <= j < |s'| && i != j
        ensures s'[i].id != s'[j].id
      {
        if i < |store| { assert s'[i] == store[i] && store[i] in store; }
        if j < |store| { assert s'[j] == store[j] && store[j] in store; }
      }
    }
  }

  /** A successful update moves one entry to a slot no other entry overlaps:
      either the conflict check ran against every other entry, or the slot
      did not change. */
  lemma UpdateKeepsConsistent(store: Store, id: Id, patch: Patch)
    requires Consistent(store)
    ensures Consistent(Update(store, id, patch).store)
  {
    var r := Update(store, id, patch);
    if r.result.Success? {
      var e := r.result.value;
      var k :| 0 <= k < |store| && store[k].id == id
        && r.store == store[k := e] && Patched(store[k], patch, e);
      var s' := r.store;
      forall j | 0 <= j < |store| && j != k
        ensures !DoubleBooked(e, store[j]) && !DoubleBooked(store[j], e)
      {
        assert store[j].id != id;
        if TouchesSlot(patch) {
          assert store[j] in store;
          NotBlockingMeansNotDoubleBooked(store[j], e, Some(id));
        } else {
          assert e.SlotOf() == store[k].SlotOf();
        }
      }
      forall i, j | 0 <= i < |s'| && 0 <= j < |s'| && i != j
        ensures !DoubleBooked(s'[i], s'[j]) && s'[i].id != s'[j].id
      {
      }
    }
  }

  /** Deleting an entry keeps the store consistent. */
  lemma DeleteKeepsConsistent(store: Store, id: Id)
    requires Consistent(store)
    ensures Consistent(Delete(store, id).store)
  {
    var r := Delete(store, id);
    if r.result.Success? {
      var k :| 0 <= k < |store| && store[k] == r.result.value && r.store == store[..k] + store[k + 1..];
      var s' := r.store;
      forall i, j | 0 <= i < |s'| && 0 <= j < |s'| && i != j
        ensures !DoubleBooked(s'[i], s'[j]) && s'[i].id != s'[j].id
      {
        RemovedIndex(store, k, i);
        RemovedIndex(store, k, j);
      }
    }
  }

  /** Position `i` after removing position `k` holds what stood at `i` or `i + 1`. */
  lemma RemovedIndex(store: Store, k: nat, i: nat)
    requires k < |store| && i < |store| - 1
    ensures (store[..k] + store[k + 1..])[i] == store[if i < k then i else i + 1]
  {
    if i < k {
      assert (store[..k] + store[k + 1..])[i] == store[..k][i];
    } else {
      assert (store[..k] + store[k + 1..])[i] == store[k + 1..][i - k];
    }
  }

  /** A patch whose slot fields are absent or equal to the entry's current
      values. */
  predicate KeepsSlot(p: Patch, e: Entry)
  {
    && (p.date.None? || p.date.value == e.date)
    && (p.startTime.None? || p.startTime.value == e.startTime)
    && (p.endTime.None? || p.endTime.value == e.endTime)
    && (p.location.None? || p.location.value == e.location)
  }

  /** Resubmitting an entry's own slot succeeds: the entry does not conflict
      with itself, and in a consistent store of well-formed intervals no
      other entry overlaps it. */
  lemma ResubmittingOwnSlotSucceeds(store: Store, k: int, patch: Patch)
    requires Consistent(store) && AllWellFormed(store)
    requires 0 <= k < |store|
    requires KeepsSlot(patch, store[k])
    ensures Update(store, store[k].id, patch).result.Success?
  {
    var id := store[k].id;
    var p := WithoutProtected(patch);
    assert store[k] in store;
    assert FindIndex(store, id) == Some(k);
    if TouchesSlot(p) {
      var cand := store[k].SlotOf();
      assert CandidateSlot(p, Some(store[k])) == Some(cand);
      var c := FindConflict(store, cand, Some(id));
      if c.Some? {
        var j :| 0 <= j < |store| && store[j] == c.value;
        ThreeClauseIsOverlap(store[j].startTime, store[j].endTime, cand.startTime, cand.endTime);
        assert DoubleBooked(store[j], store[k]);
        assert false;
      }
    }
  }
}
