/** The booking service: `createScheduledActivity`,
    `updateScheduledActivity` and `deleteScheduledActivity` as pure
    functions from a store to a reply and the new store. */
module Booking {
  import opened Wrappers
  import opened Calendar
  import opened Schedule
  import opened Conflict

  /** The error replies: 404 for a missing activity or entry, 409 with the
      conflicting entry's id, 400 for a schema validation failure and for
      the dereference of a missing current entry during an update. */
  datatype Error =
    | ActivityNotFound
    | ScheduleNotFound
    | Conflicting(conflictingSchedule: Id)
    | ValidationFailed
    | BadRequest

  /** The reply together with the store after the request. */
  datatype Reply = Reply(result: Result<Entry, Error>, store: Store)

  /** The authenticated caller, when there is one. */
  datatype User = User(username: string, role: string)

  /** The body of a create request. */
  datatype CreateRequest = CreateRequest(
    activityId: Id,
    date: Day,
    startTime: int,
    endTime: int,
    ageGroup: string,
    location: string,
    assignedCoach: string,
    notes: Option<string>,
    materialsRequired: seq<MaterialLine>)
  {
    function SlotOf(): Slot
    {
      Slot(date, location, startTime, endTime)
    }
  }

  /** The creator recorded on a new entry: the caller's username, or "system". */
  function CreatedBy(user: Option<User>): string
  {
    match user
    case Some(u) => u.username
    case None => "system"
  }

  /** The request fields the schema requires, all non-empty. */
  predicate HasRequiredFields(req: CreateRequest, user: Option<User>)
  {
    req.activityId != "" && req.ageGroup != "" && req.location != ""
    && req.assignedCoach != "" && CreatedBy(user) != ""
  }

  function NewEntry(req: CreateRequest, newId: Id, user: Option<User>, now: int): Entry
  {
    Entry(newId, req.activityId, req.date, req.startTime, req.endTime, req.ageGroup,
          req.location, req.assignedCoach, req.notes, req.materialsRequired, now, CreatedBy(user))
  }

  /** Create: the activity must exist (checked first, before any conflict
      query), then no stored entry may block the slot, then the new entry
      must pass the schema's validation on save. `newId` is the id the store
      assigns and `now` the creation time. */
  function Create(store: Store, activities: map<Id, Activity>, req: CreateRequest,
                  user: Option<User>, newId: Id, now: int): (r: Reply)
    ensures r.result.Failure? ==> r.store == store
    ensures req.activityId !in activities ==> r == Reply(Failure(ActivityNotFound), store)
    ensures r.result.Failure? && r.result.error.Conflicting? ==>
      exists e :: e in store && e.id == r.result.error.conflictingSchedule && Blocks(e, req.SlotOf(), None)
    ensures r.result.Failure? ==> !r.result.error.ScheduleNotFound? && !r.result.error.BadRequest?
    ensures req.activityId in activities && (exists e :: e in store && Blocks(e, req.SlotOf(), None)) ==>
      r.result.Failure? && r.result.error.Conflicting?
    ensures && req.activityId in activities
            && (forall e :: e in store ==> !Blocks(e, req.SlotOf(), None))
            && !HasRequiredFields(req, user)
            ==> r == Reply(Failure(ValidationFailed), store)
    ensures r.result.Success? <==>
      && req.activityId in activities
      && (forall e :: e in store ==> !Blocks(e, req.SlotOf(), None))
      && HasRequiredFields(req, user)
    ensures r.result.Success? ==>
      var e := r.result.value;
      && r.store == store + [e]
      && e.id == newId && e.activity == req.activityId && e.SlotOf() == req.SlotOf()
      && e.ageGroup == req.ageGroup && e.assignedCoach == req.assignedCoach
      && e.notes == req.notes && e.materialsRequired == req.materialsRequired
      && e.createdAt == now && e.createdBy == CreatedBy(user)
      && SatisfiesSchema(e)
  {
    if req.activityId !in activities then Reply(Failure(ActivityNotFound), store)
    else match FindConflict(store, req.SlotOf(), None)
      case Some(c) => Reply(Failure(Conflicting(c.id)), store)
      case None =>
        var e := NewEntry(req, newId, user, now);
        if !SatisfiesSchema(e) then Reply(Failure(ValidationFailed), store)
        else Reply(Success(e), store + [e])
  }

  /** The body of an update request: every field may be absent. */
  datatype Patch = Patch(
    activity: Option<Id>,
    date: Option<Day>,
    startTime: Option<int>,
    endTime: Option<int>,
    ageGroup: Option<string>,
    location: Option<string>,
    assignedCoach: Option<string>,
    notes: Option<string>,
    materialsRequired: Option<seq<MaterialLine>>,
    createdAt: Option<int>,
    createdBy: Option<string>)

  /** The patch with the activity reference and the creation metadata
      deleted; whether it touches the slot is unchanged. */
  function WithoutProtected(p: Patch): (q: Patch)
    ensures q.activity.None? && q.createdAt.None? && q.createdBy.None?
    ensures TouchesSlot(q) <==> TouchesSlot(p)
    ensures q.(activity := p.activity, createdAt := p.createdAt, createdBy := p.createdBy) == p
  {
    p.(activity := None, createdAt := None, createdBy := None)
  }

  /** The patch names a field the conflict check depends on. */
  predicate TouchesSlot(p: Patch)
  {
    p.date.Some? || p.startTime.Some? || p.endTime.Some? || p.location.Some?
  }

  /** The store's update: every field present in the patch is overwritten. */
  function ApplyPatch(e: Entry, p: Patch): (r: Entry)
    ensures r.id == e.id
    ensures p.activity.None? && p.createdAt.None? && p.createdBy.None? ==> Patched(e, p, r)
  {
    e.(activity := p.activity.GetOr(e.activity),
       date := p.date.GetOr(e.date),
       startTime := p.startTime.GetOr(e.startTime),
       endTime := p.endTime.GetOr(e.endTime),
       ageGroup := p.ageGroup.GetOr(e.ageGroup),
       location := p.location.GetOr(e.location),
       assignedCoach := p.assignedCoach.GetOr(e.assignedCoach),
       notes := if p.notes.Some? then p.notes else e.notes,
       materialsRequired := p.materialsRequired.GetOr(e.materialsRequired),
       createdAt := p.createdAt.GetOr(e.createdAt),
       createdBy := p.createdBy.GetOr(e.createdBy))
  }

  /** `after` is `before` with the editable fields of the patch applied and
      the id, activity reference and creation metadata kept. */
  predicate Patched(before: Entry, p: Patch, after: Entry)
  {
    && after.id == before.id
    && after.activity == before.activity
    && after.createdAt == before.createdAt
    && after.createdBy == before.createdBy
    && (if p.date.Some? then after.date == p.date.value else after.date == before.date)
    && (if p.startTime.Some? then after.startTime == p.startTime.value else after.startTime == before.startTime)
    && (if p.endTime.Some? then after.endTime == p.endTime.value else after.endTime == before.endTime)
    && (if p.ageGroup.Some? then after.ageGroup == p.ageGroup.value else after.ageGroup == before.ageGroup)
    && (if p.location.Some? then after.location == p.location.value else after.location == before.location)
    && (if p.assignedCoach.Some? then after.assignedCoach == p.assignedCoach.value
        else after.assignedCoach == before.assignedCoach)
    && (if p.notes.Some? then after.notes == p.notes else after.notes == before.notes)
    && (if p.materialsRequired.Some? then after.materialsRequired == p.materialsRequired.value
        else after.materialsRequired == before.materialsRequired)
  }

  /** The slot an entry would have after the patch: each slot field from
      the patch when supplied, else the entry's own. */
  function MergedSlot(before: Entry, p: Patch): Slot
  {
    Slot(if p.date.Some? then p.date.value else before.date,
         if p.location.Some? then p.location.value else before.location,
         if p.startTime.Some? then p.startTime.value else before.startTime,
         if p.endTime.Some? then p.endTime.value else before.endTime)
  }

  /** `findById`: the position of the entry with the given id. */
  function FindIndex(store: Store, id: Id): (r: Option<nat>)
    ensures r.Some? ==> r.value < |store| && store[r.value].id == id
    ensures r.Some? ==> forall j :: 0 <= j < r.value ==> store[j].id != id
    ensures r.None? <==> forall e :: e in store ==> e.id != id
  {
    if |store| == 0 then None
    else if store[0].id == id then Some(0)
    else match FindIndex(store[1..], id)
      case Some(k) => Some(k + 1)
      case None => None
  }

  /** The slot the update would move the entry to: patch fields over the
      current entry's. Without a current entry the handler can only read
      the slot from the patch; a missing field there is a dereference of
      nothing, reported as `None`. */
  function CandidateSlot(p: Patch, current: Option<Entry>): Option<Slot>
  {
    match current
    case Some(c) => Some(ApplyPatch(c, p).SlotOf())
    case None =>
      if p.date.Some? && p.startTime.Some? && p.endTime.Some? && p.location.Some?
      then Some(Slot(p.date.value, p.location.value, p.startTime.value, p.endTime.value))
      else None
  }

  /** `findByIdAndUpdate` with no validators: 404 when the id is missing. */
  function Write(store: Store, id: Id, p: Patch): Reply
  {
    match FindIndex(store, id)
    case None => Reply(Failure(ScheduleNotFound), store)
    case Some(k) =>
      var e := ApplyPatch(store[k], p);
      Reply(Success(e), store[k := e])
  }

  /** Update: strip the protected fields; when a slot field is supplied,
      look for a blocking entry other than the entry itself at the merged
      slot; then write. */
  function Update(store: Store, id: Id, patch: Patch): (r: Reply)
    ensures r.result.Failure? ==> r.store == store
    ensures r.result.Success? ==>
      exists k :: 0 <= k < |store| && store[k].id == id
        && r.store == store[k := r.result.value]
        && Patched(store[k], patch, r.result.value)
    ensures r.result.Success? && TouchesSlot(patch) ==>
      forall e :: e in store && e.id != id ==> !Blocks(e, r.result.value.SlotOf(), Some(id))
    ensures r.result.Failure? && r.result.error.Conflicting? ==>
      TouchesSlot(patch)
      && exists e :: e in store && e.id == r.result.error.conflictingSchedule && e.id != id
    ensures !TouchesSlot(patch) ==> r.result.Success? || r.result == Failure(ScheduleNotFound)
    ensures !TouchesSlot(patch) && (forall e :: e in store ==> e.id != id) ==>
      r.result == Failure(ScheduleNotFound)
    ensures r.result.Failure? ==> !r.result.error.ActivityNotFound? && !r.result.error.ValidationFailed?
  {
    var p := WithoutProtected(patch);
    if !TouchesSlot(p) then Write(store, id, p)
    else
      var current := match FindIndex(store, id) case Some(k) => Some(store[k]) case None => None;
      match CandidateSlot(p, current)
      case None => Reply(Failure(BadRequest), store)
      case Some(cand) =>
        match FindConflict(store, cand, Some(id))
        case Some(c) => Reply(Failure(Conflicting(c.id)), store)
        case None => Write(store, id, p)
  }

  /** The slot the handler checks is the merged slot: the protected fields
      it strips are not slot fields. */
  lemma CandidateIsMergedSlot(c: Entry, patch: Patch)
    ensures ApplyPatch(c, WithoutProtected(patch)).SlotOf() == MergedSlot(c, patch)
  {
  }

  /** A 409 from an update of an existing entry names an entry, other than
      the one being edited, whose slot collides with the merged slot. */
  lemma UpdateConflictWitness(store: Store, id: Id, patch: Patch, k: nat)
    requires k < |store| && store[k].id == id
    requires forall j :: 0 <= j < k ==> store[j].id != id
    requires Update(store, id, patch).result.Failure?
    requires Update(store, id, patch).result.error.Conflicting?
    ensures exists e :: e in store
                         && e.id == Update(store, id, patch).result.error.conflictingSchedule
                         && Blocks(e, MergedSlot(store[k], patch), Some(id))
  {
    var p := WithoutProtected(patch);
    assert TouchesSlot(p);
    assert FindIndex(store, id) == Some(k);
    CandidateIsMergedSlot(store[k], patch);
    assert CandidateSlot(p, Some(store[k])) == Some(MergedSlot(store[k], patch));
  }

  /** Whenever the entry exists, an update either writes or answers 409:
      without slot fields it always writes (a notes-only edit succeeds);
      with slot fields it writes exactly when no other entry blocks the
      merged slot. */
  lemma UpdateOutcome(store: Store, id: Id, patch: Patch, k: nat)
    requires k < |store| && store[k].id == id
    requires forall j :: 0 <= j < k ==> store[j].id != id
    ensures !TouchesSlot(patch) ==> Update(store, id, patch).result.Success?
    ensures TouchesSlot(patch) && (forall e :: e in store ==> !Blocks(e, MergedSlot(store[k], patch), Some(id))) ==>
      Update(store, id, patch).result.Success?
    ensures TouchesSlot(patch) && (exists e :: e in store && Blocks(e, MergedSlot(store[k], patch), Some(id))) ==>
      Update(store, id, patch).result.Failure? && Update(store, id, patch).result.error.Conflicting?
  {
    var p := WithoutProtected(patch);
    assert FindIndex(store, id) == Some(k);
    CandidateIsMergedSlot(store[k], patch);
    if TouchesSlot(patch) {
      assert CandidateSlot(p, Some(store[k])) == Some(MergedSlot(store[k], patch));
    }
  }

  /** The patch supplies all four slot fields. */
  predicate AllSlotFields(p: Patch)
  {
    p.date.Some? && p.startTime.Some? && p.endTime.Some? && p.location.Some?
  }

  /** The slot read from a patch that supplies all four slot fields. */
  function PatchSlot(p: Patch): Slot
    requires AllSlotFields(p)
  {
    Slot(p.date.value, p.location.value, p.startTime.value, p.endTime.value)
  }

  /** Updating a missing id with all four slot fields supplied never reads
      the missing entry: the conflict query runs on the patch's slot and
      answers 409 when another entry blocks it; otherwise the write finds
      nothing and answers 404. */
  lemma UpdateMissingId(store: Store, id: Id, patch: Patch)
    requires forall e :: e in store ==> e.id != id
    requires AllSlotFields(patch)
    ensures (exists e :: e in store && Blocks(e, PatchSlot(patch), Some(id))) ==>
      Update(store, id, patch).result.Failure? && Update(store, id, patch).result.error.Conflicting?
    ensures (forall e :: e in store ==> !Blocks(e, PatchSlot(patch), Some(id))) ==>
      Update(store, id, patch) == Reply(Failure(ScheduleNotFound), store)
  {
    assert FindIndex(store, id) == None;
    assert CandidateSlot(WithoutProtected(patch), None) == Some(PatchSlot(patch));
  }

  /** `findByIdAndDelete`: removes the entry with the id, or answers 404. */
  function Delete(store: Store, id: Id): (r: Reply)
    ensures r.result.Failure? <==> forall e :: e in store ==> e.id != id
    ensures r.result.Failure? ==> r == Reply(Failure(ScheduleNotFound), store)
    ensures r.result.Success? ==>
      exists k :: 0 <= k < |store| && store[k] == r.result.value && r.result.value.id == id
        && r.store == store[..k] + store[k + 1..]
  {
    match FindIndex(store, id)
    case None => Reply(Failure(ScheduleNotFound), store)
    case Some(k) => Reply(Success(store[k]), store[..k] + store[k + 1..])
  }
}
