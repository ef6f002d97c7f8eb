/** The groups API over the `groups` table: the open and closed listings, and
    the transactional create, update and soft delete. The table is a sequence
    of rows; the clock is a parameter; a database failure inside a
    transaction is a boolean parameter. */
module GroupController {
  import opened Wrappers
  import opened SeqUtil
  import opened Entities
  import Js

  const Ok := 200
  const CreatedStatus := 201
  const NoContent := 204
  const NotFound := 404
  const ServerError := 500

  /** Not soft-deleted: the rows every query of the model sees. */
  predicate Live(g: Group) { g.deletedAt.None? }

  /** The optional `event_id` filter: a missing or 0 value filters nothing. */
  predicate InScope(g: Group, eventId: Option<int>) {
    Live(g) && (!Js.Truthy(eventId) || g.attrs.eventId == eventId.value)
  }

  /** `ORDER BY created_at ASC`, NULLs first. */
  predicate NullsFirstLe(x: Option<int>, y: Option<int>) {
    x.None? || (y.Some? && x.value <= y.value)
  }

  /** `ORDER BY is_waiting DESC, created_at ASC`. */
  predicate IndexLe(a: Group, b: Group) {
    || (a.attrs.isWaiting && !b.attrs.isWaiting)
    || (a.attrs.isWaiting == b.attrs.isWaiting && NullsFirstLe(a.createdAt, b.createdAt))
  }

  /** `ORDER BY created_at DESC`, NULLs last. */
  predicate ClosedLe(a: Group, b: Group) {
    NullsFirstLe(b.createdAt, a.createdAt)
  }

  lemma IndexLeTotal()
    ensures TotalPreorder(IndexLe)
  {
  }

  lemma ClosedLeTotal()
    ensures TotalPreorder(ClosedLe)
  {
  }

  predicate IndexRow(eventId: Option<int>, g: Group) { InScope(g, eventId) && !g.attrs.isClosed }

  predicate ClosedRow(eventId: Option<int>, g: Group) { InScope(g, eventId) && g.attrs.isClosed }

  lemma SortedMembers(rows: seq<Group>, p: Group -> bool, r: seq<Group>)
    requires multiset(r) == multiset(Filter(rows, p))
    ensures forall i :: 0 <= i < |r| ==> r[i] in rows && p(r[i])
    ensures forall i :: 0 <= i < |rows| && p(rows[i]) ==> rows[i] in r
  {
    forall x ensures x in r <==> x in rows && p(x) {
      FilterMember(rows, p, x);
      assert x in r <==> x in multiset(r);
      assert x in Filter(rows, p) <==> x in multiset(Filter(rows, p));
    }
  }

  /** `GET /api/groups`: the open groups (of the event, when one is given),
      waiting ones first, each part from the oldest. */
  function Index(rows: seq<Group>, eventId: Option<int>): (r: seq<Group>)
    ensures multiset(r) == multiset(Filter(rows, g => IndexRow(eventId, g)))
    ensures forall i :: 0 <= i < |r| ==>
      r[i] in rows && Live(r[i]) && !r[i].attrs.isClosed
      && (Js.Truthy(eventId) ==> r[i].attrs.eventId == eventId.value)
    ensures forall i :: 0 <= i < |rows| && IndexRow(eventId, rows[i]) ==> rows[i] in r
    ensures forall i, j :: 0 <= i < j < |r| && r[j].attrs.isWaiting ==> r[i].attrs.isWaiting
    ensures forall i, j :: 0 <= i < j < |r| && r[i].attrs.isWaiting == r[j].attrs.isWaiting ==>
      NullsFirstLe(r[i].createdAt, r[j].createdAt)
  {
    var kept := Filter(rows, g => IndexRow(eventId, g));
    IndexLeTotal();
    SortBySorted(kept, IndexLe);
    var r := SortBy(kept, IndexLe);
    SortedMembers(rows, g => IndexRow(eventId, g), r);
    r
  }

  /** `GET /api/groups/closed`: the closed groups (of the event, when one is
      given), from the newest. */
  function Closed(rows: seq<Group>, eventId: Option<int>): (r: seq<Group>)
    ensures multiset(r) == multiset(Filter(rows, g => ClosedRow(eventId, g)))
    ensures forall i :: 0 <= i < |r| ==>
      r[i] in rows && Live(r[i]) && r[i].attrs.isClosed
      && (Js.Truthy(eventId) ==> r[i].attrs.eventId == eventId.value)
    ensures forall i :: 0 <= i < |rows| && ClosedRow(eventId, rows[i]) ==> rows[i] in r
    ensures forall i, j :: 0 <= i < j < |r| ==> NullsFirstLe(r[j].createdAt, r[i].createdAt)
  {
    var kept := Filter(rows, g => ClosedRow(eventId, g));
    ClosedLeTotal();
    SortBySorted(kept, ClosedLe);
    var r := SortBy(kept, ClosedLe);
    SortedMembers(rows, g => ClosedRow(eventId, g), r);
    r
  }

  /** A group is never listed both as open and as closed. */
  lemma IndexClosedDisjoint(rows: seq<Group>, eventId: Option<int>, g: Group)
    ensures !(g in Index(rows, eventId) && g in Closed(rows, eventId))
  {
    if g in Index(rows, eventId) {
      var i :| 0 <= i < |Index(rows, eventId)| && Index(rows, eventId)[i] == g;
    }
  }

  /** The fillable columns an update sets; None leaves a column as it is. */
  datatype GroupPatch = GroupPatch(
    name: Option<string>,
    people: Option<int>,
    isWaiting: Option<bool>,
    isClosed: Option<bool>,
    description: Option<Option<string>>,
    eventId: Option<int>,
    staffId: Option<Option<int>>,
    date: Option<int>,
    duration: Option<Option<int>>,
    isFriend: Option<bool>,
    isKid: Option<bool>)

  function Pick<T>(p: Option<T>, current: T): (r: T)
    ensures p.Some? ==> r == p.value
    ensures p.None? ==> r == current
  {
    if p.Some? then p.value else current
  }

  /** `fill($data)`: every column the patch names takes its value. */
  function ApplyPatch(a: GroupAttrs, p: GroupPatch): (r: GroupAttrs)
    ensures p == GroupPatch(None, None, None, None, None, None, None, None, None, None, None) ==> r == a
    ensures (p.name.Some? ==> r.name == p.name.value) && (p.name.None? ==> r.name == a.name)
    ensures (p.people.Some? ==> r.people == p.people.value) && (p.people.None? ==> r.people == a.people)
    ensures (p.isWaiting.Some? ==> r.isWaiting == p.isWaiting.value) && (p.isWaiting.None? ==> r.isWaiting == a.isWaiting)
    ensures (p.isClosed.Some? ==> r.isClosed == p.isClosed.value) && (p.isClosed.None? ==> r.isClosed == a.isClosed)
    ensures (p.description.Some? ==> r.description == p.description.value) && (p.description.None? ==> r.description == a.description)
    ensures (p.eventId.Some? ==> r.eventId == p.eventId.value) && (p.eventId.None? ==> r.eventId == a.eventId)
    ensures (p.staffId.Some? ==> r.staffId == p.staffId.value) && (p.staffId.None? ==> r.staffId == a.staffId)
    ensures (p.date.Some? ==> r.date == p.date.value) && (p.date.None? ==> r.date == a.date)
    ensures (p.duration.Some? ==> r.duration == p.duration.value) && (p.duration.None? ==> r.duration == a.duration)
    ensures (p.isFriend.Some? ==> r.isFriend == p.isFriend.value) && (p.isFriend.None? ==> r.isFriend == a.isFriend)
    ensures (p.isKid.Some? ==> r.isKid == p.isKid.value) && (p.isKid.None? ==> r.isKid == a.isKid)
  {
    GroupAttrs(
      Pick(p.name, a.name), Pick(p.people, a.people), Pick(p.isWaiting, a.isWaiting),
      Pick(p.isClosed, a.isClosed), Pick(p.description, a.description), Pick(p.eventId, a.eventId),
      Pick(p.staffId, a.staffId), Pick(p.date, a.date), Pick(p.duration, a.duration),
      Pick(p.isFriend, a.isFriend), Pick(p.isKid, a.isKid))
  }

  /** Sending the same update again changes nothing further. */
  lemma ApplyPatchIdempotent(a: GroupAttrs, p: GroupPatch)
    ensures ApplyPatch(ApplyPatch(a, p), p) == ApplyPatch(a, p)
  {
  }

  /** `update()` on a model: the attributes are filled, and `updated_at` is
      touched only when some attribute actually changed. */
  function Updated(g: Group, p: GroupPatch, now: int): (r: Group)
    ensures r.id == g.id && r.createdAt == g.createdAt && r.deletedAt == g.deletedAt
    ensures r.attrs == ApplyPatch(g.attrs, p)
    ensures r.updatedAt == if ApplyPatch(g.attrs, p) == g.attrs then g.updatedAt else Some(now)
  {
    var attrs := ApplyPatch(g.attrs, p);
    if attrs == g.attrs then g else g.(attrs := attrs, updatedAt := Some(now))
  }

  /** Re-sending an update that is already applied leaves the row as it is. */
  lemma UpdateAgainIsNoop(g: Group, p: GroupPatch, now: int, later: int)
    ensures Updated(Updated(g, p, now), p, later) == Updated(g, p, now)
  {
    ApplyPatchIdempotent(g.attrs, p);
  }

  /** `delete()` under SoftDeletes: the row stays with `deleted_at` (and
      `updated_at`) set to now. */
  function SoftDeleted(g: Group, now: int): (r: Group)
    ensures !Live(r) && r.id == g.id && r.attrs == g.attrs && r.createdAt == g.createdAt
    ensures r.deletedAt == Some(now) && r.updatedAt == Some(now)
  {
    g.(deletedAt := Some(now), updatedAt := Some(now))
  }

  /** The row the route binds for `{id}`: the live row with that id. */
  function Bound(rows: seq<Group>, id: int): (k: Option<nat>)
    ensures k.Some? ==> k.value < |rows| && rows[k.value].id == id && Live(rows[k.value])
    ensures k.Some? ==> forall i :: 0 <= i < k.value ==> !(rows[i].id == id && Live(rows[i]))
    ensures k.None? ==> forall i :: 0 <= i < |rows| ==> !(rows[i].id == id && Live(rows[i]))
  {
    if rows == [] then None
    else if rows[0].id == id && Live(rows[0]) then Some(0)
    else
      match Bound(rows[1..], id)
      case None => None
      case Some(k) => Some(k + 1)
  }

  /** After a delete the group is in neither listing, for any event filter,
      while its row is kept. */
  lemma {:induction false} SoftDeleteHides(rows: seq<Group>, k: int, now: int, eventId: Option<int>)
    requires 0 <= k < |rows|
    requires forall i, j :: 0 <= i < j < |rows| ==> rows[i].id != rows[j].id
    ensures var after := rows[k := SoftDeleted(rows[k], now)];
      && |after| == |rows| && after[k].id == rows[k].id
      && (forall i :: 0 <= i < |Index(after, eventId)| ==> Index(after, eventId)[i].id != rows[k].id)
      && (forall i :: 0 <= i < |Closed(after, eventId)| ==> Closed(after, eventId)[i].id != rows[k].id)
  {
    var after := rows[k := SoftDeleted(rows[k], now)];
    forall i | 0 <= i < |Index(after, eventId)| ensures Index(after, eventId)[i].id != rows[k].id {
      var g := Index(after, eventId)[i];
      var j :| 0 <= j < |after| && after[j] == g;
    }
    forall i | 0 <= i < |Closed(after, eventId)| ensures Closed(after, eventId)[i].id != rows[k].id {
      var g := Closed(after, eventId)[i];
      var j :| 0 <= j < |after| && after[j] == g;
    }
  }

  /** The `groups` table: its rows and the next auto-increment id. */
  class GroupTable {
    var rows: seq<Group>
    var nextId: int

    /** Ids are unique and below the next one to be handed out. */
    ghost predicate Valid()
      reads this
    {
      && nextId >= 1
      && (forall i :: 0 <= i < |rows| ==> 1 <= rows[i].id < nextId)
      && (forall i, j :: 0 <= i < j < |rows| ==> rows[i].id != rows[j].id)
    }

    constructor ()
      ensures Valid() && rows == [] && nextId == 1
    {
      rows, nextId := [], 1;
    }

    /** `POST /api/groups`: inside a transaction; a failure rolls back and
        answers 500, success adds exactly the new row and answers 201. On a
        failure the next id is kept, as for a failure before the insert; an
        InnoDB insert that is rolled back still uses up its id, so the ids
        the database hands out can skip values where the model's do not. */
    method Store(data: GroupAttrs, now: int, fails: bool) returns (status: int, created: Option<Group>)
      requires Valid()
      modifies this
      ensures Valid()
      ensures fails ==> status == ServerError && created.None? && rows == old(rows) && nextId == old(nextId)
      ensures !fails ==>
        && status == CreatedStatus
        && created == Some(Group(old(nextId), data, Some(now), Some(now), None))
        && rows == old(rows) + [created.value] && nextId == old(nextId) + 1
    {
      if fails {
        return ServerError, None;
      }
      var g := Group(nextId, data, Some(now), Some(now), None);
      rows := rows + [g];
      nextId := nextId + 1;
      return CreatedStatus, Some(g);
    }

    /** `PUT /api/groups/{id}`: 404 when no live row has the id; a failure
        rolls back and answers 500; otherwise only the bound row is updated. */
    method Update(id: int, patch: GroupPatch, now: int, fails: bool) returns (status: int, updated: Option<Group>)
      requires Valid()
      modifies this
      ensures Valid() && nextId == old(nextId)
      ensures Bound(old(rows), id).None? ==> status == NotFound && updated.None? && rows == old(rows)
      ensures Bound(old(rows), id).Some? && fails ==> status == ServerError && updated.None? && rows == old(rows)
      ensures Bound(old(rows), id).Some? && !fails ==>
        var k := Bound(old(rows), id).value;
        && status == Ok
        && updated == Some(Updated(old(rows)[k], patch, now))
        && rows == old(rows)[k := updated.value]
    {
      var k := Bound(rows, id);
      if k.None? {
        return NotFound, None;
      }
      if fails {
        return ServerError, None;
      }
      var g := Updated(rows[k.value], patch, now);
      rows := rows[k.value := g];
      return Ok, Some(g);
    }

    /** `DELETE /api/groups/{id}`: 404 when no live row has the id; otherwise
        the row is soft-deleted and the answer is 204. */
    method Destroy(id: int, now: int) returns (status: int)
      requires Valid()
      modifies this
      ensures Valid() && nextId == old(nextId) && |rows| == |old(rows)|
      ensures Bound(old(rows), id).None? ==> status == NotFound && rows == old(rows)
      ensures Bound(old(rows), id).Some? ==>
        var k := Bound(old(rows), id).value;
        status == NoContent && rows == old(rows)[k := SoftDeleted(old(rows)[k], now)]
    {
      var k := Bound(rows, id);
      if k.None? {
        return NotFound;
      }
      rows := rows[k.value := SoftDeleted(rows[k.value], now)];
      return NoContent;
    }
  }
}
