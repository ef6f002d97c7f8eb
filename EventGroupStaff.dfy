/** The `event_group_staff` pivot table and its three endpoints: attach a
    staff member to a group of an event, detach them, and fill the group's
    unassigned row. The clock is a parameter, and the contents of the events,
    groups and staff tables are given as the sets of their ids. */
module EventGroupStaff {
  import opened Wrappers

  const Ok := 200
  const CreatedStatus := 201
  const NoContent := 204
  const NotFound := 404
  const Unprocessable := 422
  const ServerError := 500

  /** A pivot row; `staffId` is nullable, `deletedAt` is the soft-delete marker. */
  datatype PivotRow = PivotRow(
    id: int,
    eventId: int,
    groupId: int,
    staffId: Option<int>,
    createdAt: int,
    updatedAt: int,
    deletedAt: Option<int>)

  /** The three ids of a request; None when the field is missing. */
  datatype PivotRequest = PivotRequest(eventId: Option<int>, groupId: Option<int>, staffId: Option<int>)

  /** The ids present in the events, groups and staff tables (`exists:` looks
      at every row, soft-deleted or not). */
  datatype KnownIds = KnownIds(events: set<int>, groups: set<int>, staff: set<int>)

  datatype Triple = Triple(eventId: int, groupId: int, staffId: int)

  /** `required|exists:…` on all three fields. */
  function Validated(req: PivotRequest, known: KnownIds): (t: Option<Triple>)
    ensures t.Some? <==>
      && req.eventId.Some? && req.eventId.value in known.events
      && req.groupId.Some? && req.groupId.value in known.groups
      && req.staffId.Some? && req.staffId.value in known.staff
    ensures t.Some? ==> t.value == Triple(req.eventId.value, req.groupId.value, req.staffId.value)
  {
    if && req.eventId.Some? && req.eventId.value in known.events
       && req.groupId.Some? && req.groupId.value in known.groups
       && req.staffId.Some? && req.staffId.value in known.staff
    then Some(Triple(req.eventId.value, req.groupId.value, req.staffId.value))
    else None
  }

  predicate HasTriple(r: PivotRow, t: Triple) {
    r.eventId == t.eventId && r.groupId == t.groupId && r.staffId == Some(t.staffId)
  }

  /** The unique index on (event_id, group_id, staff_id): it covers
      soft-deleted rows too, and rows with a null staff never collide. */
  ghost predicate UniqueTriples(rows: seq<PivotRow>) {
    forall i, j :: 0 <= i < j < |rows| && rows[i].staffId.Some? ==>
      !HasTriple(rows[j], Triple(rows[i].eventId, rows[i].groupId, rows[i].staffId.value))
  }

  predicate TriplePresent(rows: seq<PivotRow>, t: Triple) {
    exists i :: 0 <= i < |rows| && HasTriple(rows[i], t)
  }

  /** Exactly one row, live or not, carries the triple. */
  ghost predicate ExactlyOne(rows: seq<PivotRow>, t: Triple) {
    exists k :: 0 <= k < |rows| && HasTriple(rows[k], t) &&
      forall j :: 0 <= j < |rows| && j != k ==> !HasTriple(rows[j], t)
  }

  lemma UniquePresentIsExactlyOne(rows: seq<PivotRow>, t: Triple)
    requires UniqueTriples(rows) && TriplePresent(rows, t)
    ensures ExactlyOne(rows, t)
  {
    var k :| 0 <= k < |rows| && HasTriple(rows[k], t);
    assert rows[k].staffId.Some? && Triple(rows[k].eventId, rows[k].groupId, rows[k].staffId.value) == t;
  }

  /** `withTrashed()->updateOrCreate(triple, ['deleted_at' => null])`. An
      existing row, even a soft-deleted one, is left as it is, because
      `deleted_at` is not mass-assignable; otherwise one live row is added. */
  function Attached(rows: seq<PivotRow>, t: Triple, id: int, now: int): (r: seq<PivotRow>)
    ensures TriplePresent(rows, t) ==> r == rows
    ensures !TriplePresent(rows, t) ==> r == rows + [PivotRow(id, t.eventId, t.groupId, Some(t.staffId), now, now, None)]
  {
    if TriplePresent(rows, t) then rows
    else rows + [PivotRow(id, t.eventId, t.groupId, Some(t.staffId), now, now, None)]
  }

  /** Attaching keeps the index unique and leaves exactly one row for the triple. */
  lemma {:induction false} AttachedKeepsUnique(rows: seq<PivotRow>, t: Triple, id: int, now: int)
    requires UniqueTriples(rows)
    ensures UniqueTriples(Attached(rows, t, id, now))
    ensures ExactlyOne(Attached(rows, t, id, now), t)
  {
    var r := Attached(rows, t, id, now);
    if !TriplePresent(rows, t) {
      forall i, j | 0 <= i < j < |r| && r[i].staffId.Some?
        ensures !HasTriple(r[j], Triple(r[i].eventId, r[i].groupId, r[i].staffId.value))
      {
        if j == |rows| {
          assert !HasTriple(rows[i], t);
        }
      }
      assert HasTriple(r[|rows|], t);
    }
    UniquePresentIsExactlyOne(r, t);
  }

  /** Attaching twice leaves the same rows as attaching once. */
  lemma AttachedIdempotent(rows: seq<PivotRow>, t: Triple, id: int, id2: int, now: int, later: int)
    ensures Attached(Attached(rows, t, id, now), t, id2, later) == Attached(rows, t, id, now)
  {
    if !TriplePresent(rows, t) {
      var r := Attached(rows, t, id, now);
      assert HasTriple(r[|rows|], t);
    }
  }

  /** The query-builder `delete()` on the live rows with the exact triple:
      each is soft-deleted (`deleted_at` and `updated_at` set to now). */
  function Detached(rows: seq<PivotRow>, t: Triple, now: int): (r: seq<PivotRow>)
    ensures |r| == |rows|
    ensures forall i :: 0 <= i < |r| ==>
      r[i] == if HasTriple(rows[i], t) && rows[i].deletedAt.None?
              then rows[i].(deletedAt := Some(now), updatedAt := now) else rows[i]
  {
    seq(|rows|, i requires 0 <= i < |rows| =>
      if HasTriple(rows[i], t) && rows[i].deletedAt.None?
      then rows[i].(deletedAt := Some(now), updatedAt := now) else rows[i])
  }

  /** After a detach no live row carries the triple, the index still holds,
      and the keys of all rows are unchanged. */
  lemma DetachedProperties(rows: seq<PivotRow>, t: Triple, now: int)
    requires UniqueTriples(rows)
    ensures forall i :: 0 <= i < |rows| && HasTriple(Detached(rows, t, now)[i], t) ==>
      Detached(rows, t, now)[i].deletedAt.Some?
    ensures UniqueTriples(Detached(rows, t, now))
    ensures forall i :: 0 <= i < |rows| ==>
      && Detached(rows, t, now)[i].id == rows[i].id
      && HasTriple(Detached(rows, t, now)[i], t) == HasTriple(rows[i], t)
  {
    var r := Detached(rows, t, now);
    forall i, j | 0 <= i < j < |r| && r[i].staffId.Some?
      ensures !HasTriple(r[j], Triple(r[i].eventId, r[i].groupId, r[i].staffId.value))
    {
      assert !HasTriple(rows[j], Triple(rows[i].eventId, rows[i].groupId, rows[i].staffId.value));
    }
  }

  /** The first live row of the pair (event, group) whose staff is null. */
  function FirstUnassigned(rows: seq<PivotRow>, eventId: int, groupId: int): (k: Option<nat>)
    ensures k.Some? ==> k.value < |rows| && IsUnassigned(rows[k.value], eventId, groupId)
    ensures k.Some? ==> forall i :: 0 <= i < k.value ==> !IsUnassigned(rows[i], eventId, groupId)
    ensures k.None? ==> forall i :: 0 <= i < |rows| ==> !IsUnassigned(rows[i], eventId, groupId)
  {
    if rows == [] then None
    else if IsUnassigned(rows[0], eventId, groupId) then Some(0)
    else
      match FirstUnassigned(rows[1..], eventId, groupId)
      case None => None
      case Some(k) => Some(k + 1)
  }

  predicate IsUnassigned(r: PivotRow, eventId: int, groupId: int) {
    r.eventId == eventId && r.groupId == groupId && r.staffId.None? && r.deletedAt.None?
  }

  /** Filling the unassigned row `k` with the staff keeps the index unique
      when no row carries the triple yet. */
  lemma {:induction false} AssignKeepsUnique(rows: seq<PivotRow>, k: int, t: Triple, now: int)
    requires UniqueTriples(rows) && 0 <= k < |rows| && rows[k].staffId.None?
    requires rows[k].eventId == t.eventId && rows[k].groupId == t.groupId
    requires !TriplePresent(rows, t)
    ensures UniqueTriples(rows[k := rows[k].(staffId := Some(t.staffId), updatedAt := now)])
    ensures ExactlyOne(rows[k := rows[k].(staffId := Some(t.staffId), updatedAt := now)], t)
  {
    var r := rows[k := rows[k].(staffId := Some(t.staffId), updatedAt := now)];
    forall i, j | 0 <= i < j < |r| && r[i].staffId.Some?
      ensures !HasTriple(r[j], Triple(r[i].eventId, r[i].groupId, r[i].staffId.value))
    {
      if i == k {
        assert !HasTriple(rows[j], t);
      } else if j == k {
        assert !HasTriple(rows[i], t);
      }
    }
    assert HasTriple(r[k], t);
    UniquePresentIsExactlyOne(r, t);
  }

  /** The pivot table with its auto-increment counter. */
  class PivotTable {
    var rows: seq<PivotRow>
    var nextId: int

    ghost predicate Valid()
      reads this
    {
      && UniqueTriples(rows)
      && (forall i :: 0 <= i < |rows| ==> rows[i].id < nextId)
    }

    constructor ()
      ensures Valid() && rows == [] && nextId == 1
    {
      rows, nextId := [], 1;
    }

    /** `POST /api/event-group-staff`. The validation runs inside the
        `try`, so a rejected request is answered 500; otherwise the triple is
        attached and the answer is 201. */
    method Store(req: PivotRequest, known: KnownIds, now: int) returns (status: int)
      requires Valid()
      modifies this
      ensures Valid()
      ensures Validated(req, known).None? ==> status == ServerError && rows == old(rows) && nextId == old(nextId)
      ensures Validated(req, known).Some? ==>
        && status == CreatedStatus
        && rows == Attached(old(rows), Validated(req, known).value, old(nextId), now)
        && ExactlyOne(rows, Validated(req, known).value)
    {
      var t := Validated(req, known);
      if t.None? {
        return ServerError;
      }
      AttachedKeepsUnique(rows, t.value, nextId, now);
      if !TriplePresent(rows, t.value) {
        rows := rows + [PivotRow(nextId, t.value.eventId, t.value.groupId, Some(t.value.staffId), now, now, None)];
        nextId := nextId + 1;
      }
      return CreatedStatus;
    }

    /** `DELETE /api/event-group-staff`: 422 on a rejected request; otherwise
        the live rows with the triple are soft-deleted, and the answer is 204
        whether or not any row matched. */
    method Destroy(req: PivotRequest, known: KnownIds, now: int) returns (status: int)
      requires Valid()
      modifies this
      ensures Valid() && nextId == old(nextId)
      ensures Validated(req, known).None? ==> status == Unprocessable && rows == old(rows)
      ensures Validated(req, known).Some? ==>
        status == NoContent && rows == Detached(old(rows), Validated(req, known).value, now)
    {
      var t := Validated(req, known);
      if t.None? {
        return Unprocessable;
      }
      DetachedProperties(rows, t.value, now);
      rows := Detached(rows, t.value, now);
      return NoContent;
    }

    /** `POST /api/event-group-staff/assign`: 422 on a rejected request; 404
        when the pair has no live unassigned row; when the triple already has
        a row the unique index refuses the save (500, nothing changes);
        otherwise the first unassigned row takes the staff and the answer is 200. */
    method Assign(req: PivotRequest, known: KnownIds, now: int) returns (status: int)
      requires Valid()
      modifies this
      ensures Valid() && nextId == old(nextId) && |rows| == |old(rows)|
      ensures Validated(req, known).None? ==> status == Unprocessable && rows == old(rows)
      ensures Validated(req, known).Some? ==>
        var t := Validated(req, known).value;
        var k := FirstUnassigned(old(rows), t.eventId, t.groupId);
        && (k.None? ==> status == NotFound && rows == old(rows))
        && (k.Some? && TriplePresent(old(rows), t) ==> status == ServerError && rows == old(rows))
        && (k.Some? && !TriplePresent(old(rows), t) ==>
              && status == Ok
              && rows == old(rows)[k.value := old(rows)[k.value].(staffId := Some(t.staffId), updatedAt := now)]
              && ExactlyOne(rows, t))
    {
      var t := Validated(req, known);
      if t.None? {
        return Unprocessable;
      }
      var k := FirstUnassigned(rows, t.value.eventId, t.value.groupId);
      if k.None? {
        return NotFound;
      }
      if TriplePresent(rows, t.value) {
        return ServerError;
      }
      AssignKeepsUnique(rows, k.value, t.value, now);
      rows := rows[k.value := rows[k.value].(staffId := Some(t.value.staffId), updatedAt := now)];
      return Ok;
    }
  }
}
