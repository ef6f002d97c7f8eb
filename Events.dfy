/** The events page: which staff of an event count as currently assigned, how
    a staff period is badged, the filtered and sorted event list, the list
    update after an edit and the gate on the edit button. Timestamps are
    integer milliseconds. */
module Events {
  import opened Wrappers
  import opened SeqUtil
  import Js

  /** One period of a staff member on an event; `removed_at` ends it and
      `deleted_at` withdraws it. */
  datatype Period = Period(addedAt: int, removedAt: Option<int>, deletedAt: Option<int>)

  /** A staff member as the event payload lists it; missing `periods` are []. */
  datatype Staff = Staff(id: int, fullName: string, periods: seq<Period>)

  /** An event; `end` is None when the end date does not parse, and
      `location` is None when the nullable column is null. */
  datatype Event = Event(
    id: int,
    name: string,
    description: string,
    start: int,
    end: Option<int>,
    location: Option<string>,
    staff: Option<seq<Staff>>)

  // ---------------------------------------------------------------------------
  // Current staff

  predicate IsCurrent(p: Period) {
    p.removedAt.None? && p.deletedAt.None?
  }

  /** Some period is neither ended nor withdrawn. */
  predicate HasCurrentPeriod(s: Staff) {
    exists i :: 0 <= i < |s.periods| && IsCurrent(s.periods[i])
  }

  /** The ids of the staff with a current period, in list order. */
  function CurrentStaffIds(staff: seq<Staff>): (ids: seq<int>)
    ensures |ids| <= |staff|
    ensures forall id :: id in ids <==>
      exists i :: 0 <= i < |staff| && staff[i].id == id && HasCurrentPeriod(staff[i])
  {
    if staff == [] then []
    else
      var rest := CurrentStaffIds(staff[1..]);
      assert forall i :: 0 < i < |staff| ==> staff[i] == staff[1..][i - 1];
      if HasCurrentPeriod(staff[0]) then [staff[0].id] + rest else rest
  }

  /** The staff preselected in the edit form: from the fresh staff list when
      the page has one, otherwise from the event; none when neither is known. */
  function PreselectedStaffIds(staffOverride: Option<seq<Staff>>, e: Event): (ids: seq<int>)
    ensures staffOverride.Some? ==> ids == CurrentStaffIds(staffOverride.value)
    ensures staffOverride.None? && e.staff.None? ==> ids == []
    ensures staffOverride.None? && e.staff.Some? ==> ids == CurrentStaffIds(e.staff.value)
  {
    match staffOverride
    case Some(s) => CurrentStaffIds(s)
    case None => CurrentStaffIds(e.staff.GetOr([]))
  }

  /** How a period is drawn: greyed out when inactive, and its end reads
      'presente' when it has not been ended. */
  datatype PeriodBadge = PeriodBadge(inactive: bool, endsPresent: bool)

  function BadgeOf(p: Period): (b: PeriodBadge)
    ensures b.inactive <==> p.removedAt.Some? || p.deletedAt.Some?
    ensures b.endsPresent <==> p.removedAt.None?
  {
    PeriodBadge(p.removedAt.Some? || p.deletedAt.Some?, p.removedAt.None?)
  }

  /** The preselection and the badges agree: a staff member is preselected
      exactly when one of their badges is drawn active; an active badge always
      reads 'presente'. */
  lemma PreselectedIffActiveBadge(staff: seq<Staff>, k: int)
    requires 0 <= k < |staff|
    requires forall i, j :: 0 <= i < j < |staff| ==> staff[i].id != staff[j].id
    ensures staff[k].id in CurrentStaffIds(staff) <==>
      exists i :: 0 <= i < |staff[k].periods| && !BadgeOf(staff[k].periods[i]).inactive
    ensures forall i :: 0 <= i < |staff[k].periods| && !BadgeOf(staff[k].periods[i]).inactive ==>
      BadgeOf(staff[k].periods[i]).endsPresent
  {
    if staff[k].id in CurrentStaffIds(staff) {
      var i :| 0 <= i < |staff| && staff[i].id == staff[k].id && HasCurrentPeriod(staff[i]);
      assert i == k;
      var j :| 0 <= j < |staff[k].periods| && IsCurrent(staff[k].periods[j]);
      assert !BadgeOf(staff[k].periods[j]).inactive;
    }
    if exists i :: 0 <= i < |staff[k].periods| && !BadgeOf(staff[k].periods[i]).inactive {
      var j :| 0 <= j < |staff[k].periods| && !BadgeOf(staff[k].periods[j]).inactive;
      assert IsCurrent(staff[k].periods[j]);
    }
  }

  // ---------------------------------------------------------------------------
  // Filter and sort

  datatype SortKey = ByDate | ByName | ByLocation

  /** What the page gets from the filter and sort: the list under the search
      box, or the TypeError thrown while it renders. */
  datatype Listing = Listed(events: seq<Event>) | TypeError

  /** `e.location ?? ''`: a null location read as the empty text. */
  function LocationText(e: Event): string {
    e.location.GetOr("")
  }

  /** The name contains the filter, both lowered with `fold`. */
  predicate NameMatches(e: Event, filter: string, fold: char -> char) {
    Js.Includes(Js.Lower(e.name, fold), Js.Lower(filter, fold))
  }

  /** Name or location contains the filter; a null location reads as ''. */
  predicate Matches(e: Event, filter: string, fold: char -> char) {
    || NameMatches(e, filter, fold)
    || Js.Includes(Js.Lower(LocationText(e), fold), Js.Lower(filter, fold))
  }

  /** The events the search keeps, in list order. */
  function Kept(events: seq<Event>, filter: string, fold: char -> char): seq<Event> {
    Filter(events, e => Matches(e, filter, fold))
  }

  /** "a sorts no later than b". `collate(x, y)` stands for
      `x.localeCompare(y) <= 0`. */
  function Comparator(key: SortKey, collate: (string, string) -> bool): (Event, Event) -> bool {
    match key
    case ByDate => (a: Event, b: Event) => a.start <= b.start
    case ByName => (a: Event, b: Event) => collate(a.name, b.name)
    case ByLocation => (a: Event, b: Event) => collate(LocationText(a), LocationText(b))
  }

  /** Ordering by a key is a total preorder whenever the collation is. */
  lemma ComparatorTotal(key: SortKey, collate: (string, string) -> bool)
    requires key == ByDate || TotalPreorder(collate)
    ensures TotalPreorder(Comparator(key, collate))
  {
    var le := Comparator(key, collate);
    match key {
      case ByDate =>
      case ByName =>
        forall a: Event, b: Event, c: Event | le(a, b) && le(b, c) ensures le(a, c) {
          assert collate(a.name, b.name) && collate(b.name, c.name);
        }
        forall a: Event, b: Event ensures le(a, b) || le(b, a) {
          assert collate(a.name, b.name) || collate(b.name, a.name);
        }
      case ByLocation =>
        forall a: Event, b: Event, c: Event | le(a, b) && le(b, c) ensures le(a, c) {
          assert collate(LocationText(a), LocationText(b)) && collate(LocationText(b), LocationText(c));
        }
        forall a: Event, b: Event ensures le(a, b) || le(b, a) {
          assert collate(LocationText(a), LocationText(b)) || collate(LocationText(b), LocationText(a));
        }
    }
  }

  /** The filter reads `e.location.toLowerCase()` for every event whose name
      does not match: a null location there throws. */
  predicate FilterThrows(events: seq<Event>, filter: string, fold: char -> char) {
    exists i :: 0 <= i < |events| && !NameMatches(events[i], filter, fold) && events[i].location.None?
  }

  /** Sorting by location calls `a.location.localeCompare(b.location)` on the
      kept events; with two or more of them and a null location among them the
      sort is taken to throw. */
  predicate SortThrows(kept: seq<Event>, key: SortKey) {
    key == ByLocation && |kept| >= 2 && exists i :: 0 <= i < |kept| && kept[i].location.None?
  }

  /** The list under the search box as the page computes it: a TypeError when
      a null location is read, otherwise the corrected list, which it then
      equals. */
  function FilteredEvents(events: seq<Event>, filter: string, key: SortKey,
                          fold: char -> char, collate: (string, string) -> bool): (r: Listing)
    ensures r.TypeError? <==> FilterThrows(events, filter, fold) || SortThrows(Kept(events, filter, fold), key)
    ensures r.Listed? ==> r.events == IntendedFilteredEvents(events, filter, key, fold, collate)
    ensures (forall i :: 0 <= i < |events| ==> events[i].location.Some?) ==>
      r == Listed(IntendedFilteredEvents(events, filter, key, fold, collate))
  {
    if FilterThrows(events, filter, fold) || SortThrows(Kept(events, filter, fold), key) then TypeError
    else Listed(IntendedFilteredEvents(events, filter, key, fold, collate))
  }

  /** The list with a null location read as '': a permutation of the matching
      events, sorted by the key. */
  function IntendedFilteredEvents(events: seq<Event>, filter: string, key: SortKey,
                                  fold: char -> char, collate: (string, string) -> bool): (r: seq<Event>)
    ensures multiset(r) == multiset(Kept(events, filter, fold))
    ensures forall i :: 0 <= i < |r| ==> r[i] in events && Matches(r[i], filter, fold)
    ensures forall i :: 0 <= i < |events| && Matches(events[i], filter, fold) ==> events[i] in r
    ensures key == ByDate ==> forall i, j :: 0 <= i < j < |r| ==> r[i].start <= r[j].start
    ensures TotalPreorder(collate) ==> SortedBy(r, Comparator(key, collate))
  {
    var kept := Kept(events, filter, fold);
    var r := SortBy(kept, Comparator(key, collate));
    SortedFilterMembers(events, filter, fold, kept, r);
    ComparatorTotalIfDate(key, collate, r, kept);
    r
  }

  lemma SortedFilterMembers(events: seq<Event>, filter: string, fold: char -> char, kept: seq<Event>, r: seq<Event>)
    requires kept == Kept(events, filter, fold)
    requires multiset(r) == multiset(kept)
    ensures forall i :: 0 <= i < |r| ==> r[i] in events && Matches(r[i], filter, fold)
    ensures forall i :: 0 <= i < |events| && Matches(events[i], filter, fold) ==> events[i] in r
  {
    forall x ensures x in r <==> x in events && Matches(x, filter, fold) {
      FilterMember(events, e => Matches(e, filter, fold), x);
      assert x in r <==> x in multiset(r);
      assert x in kept <==> x in multiset(kept);
    }
  }

  lemma ComparatorTotalIfDate(key: SortKey, collate: (string, string) -> bool, r: seq<Event>, kept: seq<Event>)
    requires r == SortBy(kept, Comparator(key, collate))
    ensures key == ByDate ==> forall i, j :: 0 <= i < j < |r| ==> r[i].start <= r[j].start
    ensures TotalPreorder(collate) ==> SortedBy(r, Comparator(key, collate))
  {
    if key == ByDate || TotalPreorder(collate) {
      ComparatorTotal(key, collate);
      SortBySorted(kept, Comparator(key, collate));
    }
  }

  /** `Array.prototype.sort` is stable: events of equal key stay in the order
      the search kept them. */
  lemma FilteredEventsStable(events: seq<Event>, filter: string, key: SortKey,
                             fold: char -> char, collate: (string, string) -> bool, p: Event -> bool)
    requires forall a, b :: p(a) && p(b) ==> Comparator(key, collate)(a, b)
    ensures Filter(IntendedFilteredEvents(events, filter, key, fold, collate), p) == Filter(Kept(events, filter, fold), p)
  {
    SortByStable(Kept(events, filter, fold), Comparator(key, collate), p);
  }

  /** An empty search keeps every event and never reaches the location test,
      since every name contains ''. */
  lemma {:induction false} EmptyFilterKeepsAll(events: seq<Event>, key: SortKey,
                                               fold: char -> char, collate: (string, string) -> bool)
    ensures !FilterThrows(events, "", fold)
    ensures multiset(IntendedFilteredEvents(events, "", key, fold, collate)) == multiset(events)
  {
    assert Js.Lower("", fold) == "";
    forall i | 0 <= i < |events| ensures NameMatches(events[i], "", fold) {
      Js.IncludesEmpty(Js.Lower(events[i].name, fold));
    }
    FilterKeepsAll(events, e => Matches(e, "", fold));
  }

  /** An event with a null location and a search text its name does not
      contain: the page throws, where the corrected list is empty. */
  lemma NullLocationThrows()
    ensures FilteredEvents([Event(1, "Fiera", "", 0, None, None, None)], "x", ByDate, c => c, (a, b) => a <= b) == TypeError
    ensures IntendedFilteredEvents([Event(1, "Fiera", "", 0, None, None, None)], "x", ByDate, c => c, (a, b) => a <= b) == []
  {
    var ev := Event(1, "Fiera", "", 0, None, None, None);
    var fold := (c: char) => c;
    assert Js.Lower("x", fold) == "x";
    assert Js.Lower("Fiera", fold) == "Fiera";
    assert Js.Lower("", fold) == "";
    forall k | 0 <= k <= 4 ensures !("x" <= "Fiera"[k..]) {
      assert "Fiera"[k..][0] == "Fiera"[k];
    }
    assert !NameMatches(ev, "x", fold);
    assert !Matches(ev, "x", fold);
    assert [ev][0] == ev;
    assert !NameMatches([ev][0], "x", fold) && [ev][0].location.None?;
    assert FilterThrows([ev], "x", fold);
    assert Kept([ev], "x", fold) == [];
  }

  // ---------------------------------------------------------------------------
  // Edit

  /** `events.map(e => e.id === ev.id ? ev : e)`. */
  function ReplaceById(events: seq<Event>, ev: Event): (r: seq<Event>)
    ensures |r| == |events|
    ensures forall i :: 0 <= i < |r| ==> r[i].id == events[i].id
    ensures forall i :: 0 <= i < |r| ==> r[i] == if events[i].id == ev.id then ev else events[i]
  {
    seq(|events|, i requires 0 <= i < |events| => if events[i].id == ev.id then ev else events[i])
  }

  /** With unique ids, the edit replaces exactly the edited event in place. */
  lemma ReplaceByIdIsUpdate(events: seq<Event>, ev: Event, k: int)
    requires forall i, j :: 0 <= i < j < |events| ==> events[i].id != events[j].id
    requires 0 <= k < |events| && events[k].id == ev.id
    ensures ReplaceById(events, ev) == events[k := ev]
  {
  }

  /** An event that is not in the list leaves the list as it was. */
  lemma ReplaceByIdAbsent(events: seq<Event>, ev: Event)
    requires forall i :: 0 <= i < |events| ==> events[i].id != ev.id
    ensures ReplaceById(events, ev) == events
  {
  }

  /** Saving the same edit twice changes nothing more. */
  lemma ReplaceByIdIdempotent(events: seq<Event>, ev: Event)
    ensures ReplaceById(ReplaceById(events, ev), ev) == ReplaceById(events, ev)
  {
  }

  /** The edit button is shown while the end date is still ahead. */
  predicate CanEdit(e: Event, now: int) {
    e.end.Some? && e.end.value > now
  }

  /** Once the end has passed, the button never comes back. */
  lemma CanEditStaysClosed(e: Event, now: int, later: int)
    requires !CanEdit(e, now) && now <= later
    ensures !CanEdit(e, later)
  {
  }

  /** The events list and the open dialog. */
  class EventListPage {
    var events: seq<Event>
    var selectedEvent: Option<Event>
    var editMode: bool

    constructor (events: seq<Event>)
      ensures this.events == events && selectedEvent.None? && !editMode
    {
      this.events := events;
      selectedEvent := None;
      editMode := false;
    }

    /** The edit dialog saved `ev`: it replaces its event in the list, becomes
        the selected event, and the dialog leaves edit mode. */
    method OnEdited(ev: Event)
      modifies this
      ensures events == ReplaceById(old(events), ev)
      ensures selectedEvent == Some(ev) && !editMode
    {
      events := ReplaceById(events, ev);
      selectedEvent := Some(ev);
      editMode := false;
    }
  }
}
