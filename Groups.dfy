/** The staff page of one event: the group timers, the event-day labels, the
    creation form and its gates, the per-group toggles and the border colour
    that marks a group's state. Timestamps are integer milliseconds, dates are
    integer day numbers (already normalised to midnight). */
module Groups {
  import opened Wrappers
  import opened SeqUtil
  import opened Entities
  import Js

  const MsPerSecond := 1000
  const MsPerMinute := 60000
  /** A waiting group turns orange after half an hour. */
  const LongWaitMs := 30 * 60 * 1000
  /** The duration, in minutes, a new non-friend group starts with. */
  const DefaultDuration := 5

  function Max(a: int, b: int): int { if a >= b then a else b }

  // ---------------------------------------------------------------------------
  // Timers

  /** A `min:ss` display. */
  datatype Clock = Clock(minutes: int, seconds: int)

  function ClockMs(c: Clock): int {
    c.minutes * MsPerMinute + c.seconds * MsPerSecond
  }

  /** `Math.floor(ms / 60000)` and `Math.floor((ms % 60000) / 1000)`, with the
      truncating JavaScript `%`. */
  function ClockOf(ms: int): (c: Clock)
    ensures ms >= 0 ==> 0 <= c.minutes && 0 <= c.seconds < 60
    ensures ms >= 0 ==> ClockMs(c) <= ms < ClockMs(c) + MsPerSecond
  {
    var r := Js.Rem(ms, MsPerMinute);
    var c := Clock(ms / MsPerMinute, r / MsPerSecond);
    assert ms >= 0 ==> ms == c.minutes * MsPerMinute + r;
    assert ms >= 0 ==> r == c.seconds * MsPerSecond + r % MsPerSecond;
    c
  }

  lemma DivModUnique(q: int, r: int, d: int)
    requires d > 0 && 0 <= r < d
    ensures (q * d + r) / d == q && (q * d + r) % d == r
  {
    var n := q * d + r;
    var q' := n / d;
    var r' := n % d;
    assert n == q' * d + r';
    if q' > q {
      assert q' * d >= (q + 1) * d by { MulMonotoneBy(q + 1, q', d); }
    } else if q' < q {
      assert q * d >= (q' + 1) * d by { MulMonotoneBy(q' + 1, q, d); }
    }
  }

  lemma MulMonotoneBy(x: int, y: int, d: int)
    requires x <= y && d >= 0
    ensures x * d <= y * d
  {
    assert y * d - x * d == (y - x) * d;
  }

  /** The display is exact: any instant within a second of `m:ss` shows `m:ss`. */
  lemma {:induction false} ClockOfExact(m: nat, s: int, extra: int)
    requires 0 <= s < 60 && 0 <= extra < MsPerSecond
    ensures ClockOf(m * MsPerMinute + s * MsPerSecond + extra) == Clock(m, s)
  {
    var inMinute := s * MsPerSecond + extra;
    DivModUnique(m, inMinute, MsPerMinute);
    DivModUnique(s, extra, MsPerSecond);
  }

  /** What `GroupTimer` renders. */
  datatype TimerView = NoTimer | WaitingFor(waited: Clock) | Remaining(left: Clock) | ToCall

  /** Milliseconds left of an activity of `duration` minutes started `elapsed` ago. */
  function RemainingMs(duration: int, elapsed: int): (r: int)
    ensures r >= 0
    ensures elapsed >= 0 ==> r <= Max(0, duration * MsPerMinute)
    ensures r == 0 <==> elapsed >= duration * MsPerMinute
  {
    Max(0, duration * MsPerMinute - elapsed)
  }

  /** A waiting group counts up from `created_at` (a null one reads as 0); any
      other group counts down its duration from `updated_at`, and is shown no
      timer when the duration is 0 or null or `updated_at` is missing. */
  function GroupTimer(g: Group, now: int): (t: TimerView)
    ensures t.WaitingFor? <==> g.attrs.isWaiting
    ensures t.WaitingFor? ==> t == WaitingFor(ClockOf(now - g.createdAt.GetOr(0)))
    ensures t.NoTimer? <==> !g.attrs.isWaiting && (!Js.Truthy(g.attrs.duration) || g.updatedAt.None?)
    ensures t.ToCall? <==>
      && !g.attrs.isWaiting && Js.Truthy(g.attrs.duration) && g.updatedAt.Some?
      && now - g.updatedAt.value > g.attrs.duration.value * MsPerMinute
    ensures t.Remaining? ==>
      && g.updatedAt.Some? && g.attrs.duration.Some?
      && t.left == ClockOf(RemainingMs(g.attrs.duration.value, now - g.updatedAt.value))
  {
    if g.attrs.isWaiting then
      WaitingFor(ClockOf(now - g.createdAt.GetOr(0)))
    else if !Js.Truthy(g.attrs.duration) || g.updatedAt.None? then
      NoTimer
    else
      var durationMs := g.attrs.duration.value * MsPerMinute;
      var elapsed := now - g.updatedAt.value;
      if elapsed > durationMs then ToCall
      else Remaining(ClockOf(RemainingMs(g.attrs.duration.value, elapsed)))
  }

  /** The card shows the timer only under `showTimer`: not a friend group,
      a truthy duration and a `created_at`. A shown timer of a running group
      is blank only when `updated_at` is missing. */
  function ShownTimer(g: Group, now: int): (t: Option<TimerView>)
    ensures t.None? <==> g.attrs.isFriend || !Js.Truthy(g.attrs.duration) || g.createdAt.None?
    ensures t.Some? ==> t.value == GroupTimer(g, now)
    ensures t.Some? && t.value.NoTimer? ==> g.updatedAt.None?
  {
    if !g.attrs.isFriend && Js.Truthy(g.attrs.duration) && g.createdAt.Some? then Some(GroupTimer(g, now))
    else None
  }

  /** A running countdown never shows more than the whole duration, and shows
      the time actually left to the second. */
  lemma {:induction false} CountdownBounds(g: Group, now: int)
    requires GroupTimer(g, now).Remaining? && now >= g.updatedAt.value
    ensures ClockMs(GroupTimer(g, now).left) <= g.attrs.duration.value * MsPerMinute
    ensures var left := RemainingMs(g.attrs.duration.value, now - g.updatedAt.value);
      ClockMs(GroupTimer(g, now).left) <= left < ClockMs(GroupTimer(g, now).left) + MsPerSecond
  {
    var left := RemainingMs(g.attrs.duration.value, now - g.updatedAt.value);
    assert left <= Max(0, g.attrs.duration.value * MsPerMinute);
    assert g.attrs.duration.value * MsPerMinute >= now - g.updatedAt.value >= 0;
  }

  // ---------------------------------------------------------------------------
  // Event days

  /** Where a day falls relative to the event: before it, after it, or on day
      `day` of `totalDays`. */
  datatype DayPosition = BeforeEvent | AfterEvent | EventDay(day: int, totalDays: int)

  /** The day label of the page header (`today`) and of each group card (the
      group's date). A missing end date means a one-day event. */
  function DayOfEvent(day: int, startDay: int, endDay: Option<int>): (p: DayPosition)
    ensures p.BeforeEvent? <==> day < startDay
    ensures p.AfterEvent? <==> startDay <= day && endDay.GetOr(startDay) < day
    ensures p.EventDay? ==>
      && p.day == day - startDay + 1
      && p.totalDays == endDay.GetOr(startDay) - startDay + 1
      && 1 <= p.day <= p.totalDays
  {
    var diff := day - startDay;
    var totalDays := endDay.GetOr(startDay) - startDay + 1;
    if diff < 0 then BeforeEvent
    else if diff >= totalDays then AfterEvent
    else EventDay(Max(1, diff + 1), totalDays)
  }

  /** Every day from the start to the end is numbered, the first being day 1. */
  lemma {:induction false} DayOfEventInside(day: int, startDay: int, endDay: int)
    requires startDay <= day <= endDay
    ensures DayOfEvent(day, startDay, Some(endDay)) == EventDay(day - startDay + 1, endDay - startDay + 1)
  {
  }

  /** The gate on creation: the event has ended when both dates are known and
      today lies past the end. */
  function EventClosed(today: int, startDay: Option<int>, endDay: Option<int>): (closed: bool)
    ensures closed <==> startDay.Some? && endDay.Some? && today > endDay.value
  {
    if startDay.Some? && endDay.Some? then
      var diff := today - startDay.value;
      var totalDays := endDay.value - startDay.value + 1;
      diff >= totalDays
    else false
  }

  /** For a well-formed event the creation gate and the header agree: creation
      is refused exactly on the days the header reads "Evento terminato". */
  lemma EventClosedIsAfterEvent(today: int, startDay: int, endDay: int)
    requires startDay <= endDay
    ensures EventClosed(today, Some(startDay), Some(endDay)) <==> DayOfEvent(today, startDay, Some(endDay)).AfterEvent?
  {
  }

  // ---------------------------------------------------------------------------
  // Lists

  function WaitingGroups(groups: seq<Group>): (r: seq<Group>)
    ensures forall i :: 0 <= i < |r| ==> r[i].attrs.isWaiting && !r[i].attrs.isClosed
  {
    Filter(groups, IsQueued)
  }

  function ActiveGroups(groups: seq<Group>): (r: seq<Group>)
    ensures forall i :: 0 <= i < |r| ==> !r[i].attrs.isWaiting && !r[i].attrs.isClosed
  {
    Filter(groups, IsRunning)
  }

  /** The two lists share no group and together hold every open group. */
  lemma PartitionOfOpenGroups(groups: seq<Group>)
    ensures multiset(WaitingGroups(groups)) + multiset(ActiveGroups(groups)) == multiset(Filter(groups, IsOpen))
    ensures forall g :: g in WaitingGroups(groups) ==> g !in ActiveGroups(groups)
    ensures forall g :: g in groups && !g.attrs.isClosed ==> g in WaitingGroups(groups) || g in ActiveGroups(groups)
  {
    FilterSplit(groups, IsOpen, IsWaitingFlag, IsQueued, IsRunning);
    forall g | g in groups && !g.attrs.isClosed
      ensures g in WaitingGroups(groups) || g in ActiveGroups(groups)
    {
      FilterMember(groups, IsQueued, g);
      FilterMember(groups, IsRunning, g);
    }
  }

  // ---------------------------------------------------------------------------
  // Toggles

  /** The body of the PUT a toggle sends. */
  datatype TogglePatch = WaitingPatch(isWaiting: bool) | ClosedPatch(isClosed: bool, eventId: int)

  /** The waiting toggle: a waiting group without staff (null or 0) is not
      activated and nothing is sent; otherwise `is_waiting` is sent negated. */
  function WaitingToggle(g: Group): (r: Option<TogglePatch>)
    ensures r.None? <==> g.attrs.isWaiting && !Js.Truthy(g.attrs.staffId)
    ensures r.Some? ==> r.value == WaitingPatch(!g.attrs.isWaiting)
  {
    if g.attrs.isWaiting && !Js.Truthy(g.attrs.staffId) then None
    else Some(WaitingPatch(!g.attrs.isWaiting))
  }

  /** No request ever activates a group that has no staff. */
  lemma ActivationNeedsStaff(g: Group)
    requires WaitingToggle(g) == Some(WaitingPatch(false))
    ensures g.attrs.isWaiting && Js.Truthy(g.attrs.staffId)
  {
  }

  /** The close toggle always sends `is_closed` negated, with the page's event. */
  function CloseToggle(g: Group, eventId: int): (r: TogglePatch)
    ensures r.ClosedPatch? && r.isClosed != g.attrs.isClosed && r.eventId == eventId
  {
    ClosedPatch(!g.attrs.isClosed, eventId)
  }

  // ---------------------------------------------------------------------------
  // Border colour

  datatype Border = RedBorder | OrangeBorder | WhiteBorder | YellowBorder

  /** "Da chiamare" as the border reads it: not a friend group, a non-zero
      duration, an `updated_at`, and more than the duration elapsed since it.
      There is no test of `is_waiting` here. */
  predicate IsExpired(g: Group, now: int) {
    && !g.attrs.isFriend && Js.Truthy(g.attrs.duration) && g.updatedAt.Some?
    && now - g.updatedAt.value > g.attrs.duration.value * MsPerMinute
  }

  /** Waiting, with a `created_at`, for at least half an hour. */
  predicate IsLongWaiting(g: Group, now: int) {
    g.attrs.isWaiting && g.createdAt.Some? && now - g.createdAt.value >= LongWaitMs
  }

  /** The if-chain on the border class, as written. */
  function BorderClass(g: Group, now: int): (b: Border)
    ensures b == RedBorder <==> IsExpired(g, now)
    ensures b == OrangeBorder <==> !IsExpired(g, now) && IsLongWaiting(g, now)
    ensures b == WhiteBorder <==> !IsExpired(g, now) && !IsLongWaiting(g, now) && g.attrs.isWaiting
    ensures b == YellowBorder <==> !IsExpired(g, now) && !g.attrs.isWaiting
  {
    if IsExpired(g, now) then RedBorder
    else if IsLongWaiting(g, now) then OrangeBorder
    else if g.attrs.isWaiting then WhiteBorder
    else YellowBorder
  }

  /** A group waiting in the queue turns red once its activity duration has
      passed since `updated_at`, while its timer still counts its waiting time. */
  lemma WaitingGroupTurnsRed()
    ensures var g := Group(7, GroupAttrs("Rossi", 4, true, false, None, 1, None, 0, Some(5), false, false),
                           Some(0), Some(0), None);
      && BorderClass(g, 6 * MsPerMinute) == RedBorder
      && GroupTimer(g, 6 * MsPerMinute) == WaitingFor(Clock(6, 0))
  {
    var g := Group(7, GroupAttrs("Rossi", 4, true, false, None, 1, None, 0, Some(5), false, false),
                   Some(0), Some(0), None);
    ClockOfExact(6, 0, 0);
  }

  /** Consequently a freshly created non-friend waiting group whose duration is
      under half an hour is red before it can be orange: the orange border is
      never shown for it. */
  lemma {:induction false} OrangeUnreachable(g: Group, now: int)
    requires g.attrs.isWaiting && !g.attrs.isFriend
    requires g.attrs.duration.Some? && 0 < g.attrs.duration.value < 30
    requires g.createdAt.Some? && g.updatedAt == g.createdAt
    ensures BorderClass(g, now) != OrangeBorder
  {
    if IsLongWaiting(g, now) {
      MulMonotoneBy(g.attrs.duration.value, 29, MsPerMinute);
    }
  }

  /** The border with the expiry restricted to running groups, matching the
      timer, which only counts down for a group that is not waiting. */
  function IntendedBorderClass(g: Group, now: int): (b: Border)
    ensures b == RedBorder <==> !g.attrs.isFriend && GroupTimer(g, now).ToCall?
    ensures b == OrangeBorder <==> IsLongWaiting(g, now)
    ensures b == WhiteBorder <==> g.attrs.isWaiting && !IsLongWaiting(g, now)
    ensures b == YellowBorder <==> !g.attrs.isWaiting && !IsExpired(g, now)
  {
    if !g.attrs.isWaiting && IsExpired(g, now) then RedBorder
    else if IsLongWaiting(g, now) then OrangeBorder
    else if g.attrs.isWaiting then WhiteBorder
    else YellowBorder
  }

  /** With the waiting test in place, a waiting group that has waited half an
      hour is orange whatever its duration. */
  lemma IntendedOrangeReachable(g: Group, now: int)
    requires g.attrs.isWaiting && g.createdAt.Some? && now - g.createdAt.value >= LongWaitMs
    ensures IntendedBorderClass(g, now) == OrangeBorder
  {
  }

  // ---------------------------------------------------------------------------
  // Forms

  /** The creation (and edit) form. `duration` is None for `undefined` or a
      `null` set by the friend checkbox. */
  datatype GroupForm = GroupForm(
    name: string,
    people: int,
    description: string,
    date: int,
    duration: Option<int>,
    isFriend: bool,
    isKid: bool,
    staffId: Option<int>)

  /** The JSON body sent for a group; `eventId` is only sent on creation. */
  datatype GroupPayload = GroupPayload(
    name: string,
    people: int,
    description: string,
    date: int,
    duration: Option<int>,
    isFriend: bool,
    isKid: bool,
    staffId: Option<int>,
    eventId: Option<int>)

  /** The form as sent: a friend group is sent with a null duration. */
  function Submitted(f: GroupForm, eventId: Option<int>): (p: GroupPayload)
    ensures p.isFriend ==> p.duration.None?
    ensures !p.isFriend ==> p.duration == f.duration
    ensures p.isFriend == f.isFriend && p.eventId == eventId
    ensures (p.name, p.people, p.description, p.date, p.isKid, p.staffId)
         == (f.name, f.people, f.description, f.date, f.isKid, f.staffId)
  {
    GroupPayload(f.name, f.people, f.description, f.date,
                 if f.isFriend then None else f.duration,
                 f.isFriend, f.isKid, f.staffId, eventId)
  }

  /** Once a duration is set, the sent duration is null exactly for a friend group. */
  lemma SubmittedDurationNullIffFriend(f: GroupForm, eventId: Option<int>)
    requires f.duration.Some?
    ensures Submitted(f, eventId).duration.None? <==> f.isFriend
  {
  }

  /** The friend checkbox: ticking it clears the duration, unticking it puts
      back the default. */
  function WithFriend(f: GroupForm, checked: bool): (r: GroupForm)
    ensures r.isFriend == checked
    ensures r.duration == if checked then None else Some(DefaultDuration)
    ensures r.(isFriend := f.isFriend, duration := f.duration) == f
  {
    f.(isFriend := checked, duration := if checked then None else Some(DefaultDuration))
  }

  /** After the checkbox, the form sends a null duration exactly when it is a friend group. */
  lemma WithFriendSendsNullIffFriend(f: GroupForm, checked: bool, eventId: Option<int>)
    ensures Submitted(WithFriend(f, checked), eventId).duration.None? <==> checked
  {
  }

  /** The blank form; `duration` None is the initial `undefined`. */
  function EmptyForm(date: int, duration: Option<int>): (f: GroupForm)
    ensures f.people == 1 && !f.isFriend && !f.isKid && f.staffId.None? && f.date == date
    ensures f.name == "" && f.description == "" && f.duration == duration
  {
    GroupForm("", 1, "", date, duration, false, false, None)
  }

  /** `messages.join(', ') || fallback` on an error response: the joined
      messages unless they join to the empty string. */
  function ErrorText(messages: Option<seq<string>>, fallback: string): (s: string)
    ensures messages.None? ==> s == fallback
    ensures messages.Some? && Join(messages.value) != "" ==> s == Join(messages.value)
    ensures messages.Some? && |messages.value| >= 2 ==> s == Join(messages.value)
    ensures s != fallback ==> messages.Some? && s == Join(messages.value)
    ensures fallback != "" ==> s != ""
  {
    if messages.Some? && Join(messages.value) != "" then Join(messages.value) else fallback
  }

  /** The summed length of the messages. */
  function TotalLength(ms: seq<string>): nat {
    if ms == [] then 0 else |ms[0]| + TotalLength(ms[1..])
  }

  /** `Array.prototype.join(', ')`: the messages in order, one ", " between
      each two. */
  function Join(ms: seq<string>): (s: string)
    ensures ms == [] ==> s == ""
    ensures |ms| == 1 ==> s == ms[0]
    ensures |ms| >= 1 ==> ms[0] <= s
    ensures |ms| >= 1 ==> |s| == TotalLength(ms) + 2 * (|ms| - 1)
  {
    if ms == [] then ""
    else if |ms| == 1 then ms[0]
    else ms[0] + ", " + Join(ms[1..])
  }

  /** Every message's text is part of the total length. */
  lemma {:induction false} TotalLengthCovers(ms: seq<string>, i: nat)
    requires i < |ms|
    ensures |ms[i]| <= TotalLength(ms)
  {
    if i > 0 {
      TotalLengthCovers(ms[1..], i - 1);
      assert ms[1..][i - 1] == ms[i];
    }
  }

  /** The joined text is empty exactly when no message was sent or the single
      message is empty; two or more messages (even empty ones) join to a
      non-empty text, since ", " separates them. */
  lemma {:induction false} JoinEmptyIff(ms: seq<string>)
    ensures Join(ms) == "" <==> ms == [] || ms == [""]
    ensures (exists i :: 0 <= i < |ms| && ms[i] != "") ==> Join(ms) != ""
  {
    if i :| 0 <= i < |ms| && ms[i] != "" {
      TotalLengthCovers(ms, i);
    }
  }

  /** The error shown for a reply carrying `messages`: the fallback only when
      the reply had no message text at all. */
  lemma ErrorTextFallsBack(ms: seq<string>, fallback: string)
    ensures ErrorText(Some(ms), fallback) == if ms == [] || ms == [""] then fallback else Join(ms)
  {
    JoinEmptyIff(ms);
  }

  const ClosedEventError := "Impossibile creare un gruppo: l'evento è chiuso/terminato."
  const CreateError := "Errore nella creazione"
  const SaveError := "Errore nel salvataggio"

  /** How a request ended: accepted, or rejected with the server's messages if any. */
  datatype Outcome = Accepted | Rejected(messages: Option<seq<string>>)

  /** The group manager's form state for one event. */
  class GroupManager {
    var form: GroupForm
    var showForm: bool
    var error: Option<string>
    var eventClosed: bool
    var loading: bool
    const eventId: int
    const defaultDate: int

    constructor (eventId: int, today: int)
      ensures this.eventId == eventId && defaultDate == today
      ensures form == EmptyForm(today, None)
      ensures !showForm && error.None? && !eventClosed && !loading
    {
      this.eventId := eventId;
      defaultDate := today;
      form := EmptyForm(today, None);
      showForm, error, eventClosed, loading := false, None, false, false;
    }

    method HandleIsFriendChange(checked: bool)
      modifies this
      ensures form == WithFriend(old(form), checked)
      ensures (showForm, error, eventClosed, loading) == old((showForm, error, eventClosed, loading))
    {
      form := WithFriend(form, checked);
    }

    method HandleDurationChange(minutes: int)
      modifies this
      ensures form == old(form).(duration := Some(minutes))
      ensures (showForm, error, eventClosed, loading) == old((showForm, error, eventClosed, loading))
    {
      form := form.(duration := Some(minutes));
    }

    /** The configuration arrived: a duration not set yet (undefined or null)
        becomes `Number(durata_media_gruppo) || 5`. */
    method OnConfigLoaded(rawAvg: Option<int>)
      modifies this
      ensures old(form).duration.Some? ==> form == old(form)
      ensures old(form).duration.None? ==> form == old(form).(duration := Some(Js.NumberOr(rawAvg, DefaultDuration)))
      ensures (showForm, error, eventClosed, loading) == old((showForm, error, eventClosed, loading))
    {
      if form.duration.None? {
        form := form.(duration := Some(Js.NumberOr(rawAvg, DefaultDuration)));
      }
    }

    /** The event arrived: recompute the creation gate. */
    method OnEventLoaded(today: int, startDay: Option<int>, endDay: Option<int>)
      modifies this
      ensures eventClosed == EventClosed(today, startDay, endDay)
      ensures (form, showForm, error, loading) == old((form, showForm, error, loading))
    {
      eventClosed := EventClosed(today, startDay, endDay);
    }

    /** Submitting the form: refused with an error while the event is closed;
        otherwise the form is sent and, when accepted, hidden and reset. */
    method HandleSubmit(outcome: Outcome) returns (sent: Option<GroupPayload>)
      modifies this
      ensures old(eventClosed) ==> sent.None? && error == Some(ClosedEventError)
      ensures old(eventClosed) ==> form == old(form) && showForm == old(showForm) && loading == old(loading)
      ensures !old(eventClosed) ==> sent == Some(Submitted(old(form), Some(eventId))) && !loading
      ensures !old(eventClosed) && outcome.Accepted? ==>
        !showForm && error.None? && form == EmptyForm(defaultDate, Some(DefaultDuration))
      ensures !old(eventClosed) && outcome.Rejected? ==>
        showForm == old(showForm) && form == old(form) && error == Some(ErrorText(outcome.messages, CreateError))
      ensures eventClosed == old(eventClosed)
    {
      error := None;
      if eventClosed {
        error := Some(ClosedEventError);
        return None;
      }
      loading := true;
      sent := Some(Submitted(form, Some(eventId)));
      match outcome {
        case Accepted =>
          showForm := false;
          form := EmptyForm(defaultDate, Some(DefaultDuration));
        case Rejected(messages) =>
          error := Some(ErrorText(messages, CreateError));
      }
      loading := false;
    }
  }

  /** The edit form of a group starts from its row; a missing or 0 duration shows 5. */
  function EditFormFor(g: Group): (f: GroupForm)
    ensures f.duration == Some(if Js.Truthy(g.attrs.duration) then g.attrs.duration.value else DefaultDuration)
    ensures f.description == g.attrs.description.GetOr("")
    ensures (f.name, f.people, f.date, f.isFriend, f.isKid, f.staffId)
         == (g.attrs.name, g.attrs.people, g.attrs.date, g.attrs.isFriend, g.attrs.isKid, g.attrs.staffId)
  {
    GroupForm(g.attrs.name, g.attrs.people, g.attrs.description.GetOr(""), g.attrs.date,
              Some(Js.NumberOr(g.attrs.duration, DefaultDuration)),
              g.attrs.isFriend, g.attrs.isKid, g.attrs.staffId)
  }

  /** The edit state of one group card. */
  class GroupEditor {
    const group: Group
    var editMode: bool
    var editForm: GroupForm
    var editLoading: bool
    var editError: Option<string>

    constructor (g: Group)
      ensures group == g && editForm == EditFormFor(g)
      ensures !editMode && !editLoading && editError.None?
    {
      group := g;
      editForm := EditFormFor(g);
      editMode, editLoading, editError := false, false, None;
    }

    method HandleEditIsFriendChange(checked: bool)
      modifies this
      ensures editForm == WithFriend(old(editForm), checked)
      ensures (editMode, editLoading, editError) == old((editMode, editLoading, editError))
    {
      editForm := WithFriend(editForm, checked);
    }

    /** Saving the edit: the form is sent without an event id; accepted, the
        card leaves edit mode; rejected, it shows the error. */
    method HandleEditSubmit(outcome: Outcome) returns (sent: GroupPayload)
      modifies this
      ensures sent == Submitted(old(editForm), None)
      ensures !editLoading && editForm == old(editForm)
      ensures outcome.Accepted? ==> !editMode && editError.None?
      ensures outcome.Rejected? ==> editMode == old(editMode) && editError == Some(ErrorText(outcome.messages, SaveError))
    {
      editLoading := true;
      editError := None;
      sent := Submitted(editForm, None);
      match outcome {
        case Accepted =>
          editMode := false;
        case Rejected(messages) =>
          editError := Some(ErrorText(messages, SaveError));
      }
      editLoading := false;
    }
  }
}
