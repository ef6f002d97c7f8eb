/** The group record as stored in the `groups` table and as the pages receive
    it in JSON. Timestamps are integer milliseconds; `date` is a day number. */
module Entities {
  import opened Wrappers

  /** The mass-assignable columns of a group. `duration` is in minutes; it is
      null for a "friend" group, whose activity has no fixed length. */
  datatype GroupAttrs = GroupAttrs(
    name: string,
    people: int,
    isWaiting: bool,
    isClosed: bool,
    description: Option<string>,
    eventId: int,
    staffId: Option<int>,
    date: int,
    duration: Option<int>,
    isFriend: bool,
    isKid: bool)

  /** A row: its key, its attributes, and the columns the framework manages
      (`created_at`, `updated_at` and the soft-delete marker `deleted_at`). */
  datatype Group = Group(
    id: int,
    attrs: GroupAttrs,
    createdAt: Option<int>,
    updatedAt: Option<int>,
    deletedAt: Option<int>)

  /** Not archived. */
  predicate IsOpen(g: Group) { !g.attrs.isClosed }

  predicate IsWaitingFlag(g: Group) { g.attrs.isWaiting }

  predicate IsNotWaitingFlag(g: Group) { !g.attrs.isWaiting }

  /** Queued: waiting and not closed. */
  predicate IsQueued(g: Group) { g.attrs.isWaiting && !g.attrs.isClosed }

  /** In progress: neither waiting nor closed. */
  predicate IsRunning(g: Group) { !g.attrs.isWaiting && !g.attrs.isClosed }
}
