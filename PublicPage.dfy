/** The public queue page: which groups are shown as in progress and which as
    waiting, the order they are shown in, and the wait estimate of each
    waiting group, from the configured concurrency and average duration. */
module PublicPage {
  import opened Wrappers
  import opened SeqUtil
  import opened Entities
  import Js

  // ---------------------------------------------------------------------------
  // Configuration

  const DefaultConcurrent := 3
  const DefaultAvgDuration := 10

  /** `gruppi_contemporanei_possibili` and `durata_media_gruppo` as used. */
  datatype PublicConfig = PublicConfig(concurrent: int, avgDuration: int)

  /** Raw values are None when the key is missing or the text is not a number;
      a zero or unparseable value falls back to 3 groups and 10 minutes. */
  function LoadConfig(rawConcurrent: Option<int>, rawAvg: Option<int>): (c: PublicConfig)
    ensures c.concurrent != 0 && c.avgDuration != 0
    ensures Js.Truthy(rawConcurrent) ==> c.concurrent == rawConcurrent.value
    ensures !Js.Truthy(rawConcurrent) ==> c.concurrent == DefaultConcurrent
    ensures Js.Truthy(rawAvg) ==> c.avgDuration == rawAvg.value
    ensures !Js.Truthy(rawAvg) ==> c.avgDuration == DefaultAvgDuration
  {
    PublicConfig(Js.NumberOr(rawConcurrent, DefaultConcurrent), Js.NumberOr(rawAvg, DefaultAvgDuration))
  }

  // ---------------------------------------------------------------------------
  // Wait estimate

  datatype WaitLabel = Poco | NellaMedia | Tanto | Molto

  datatype Estimate = Estimate(minutes: int, level: WaitLabel)

  /** `Math.max(1, concurrent)`: at least one group is served at a time. */
  function Slots(concurrent: int): (s: int)
    ensures s >= 1
    ensures concurrent >= 1 ==> s == concurrent
  {
    if concurrent > 1 then concurrent else 1
  }

  /** How many full batches of `Slots(concurrent)` groups are served before
      the group at `index`. */
  function Turns(index: nat, concurrent: int): nat {
    index / Slots(concurrent)
  }

  function QueueWaitEstimate(index: nat, concurrent: int, avg: int): (e: Estimate)
    ensures avg >= 0 ==> e.minutes >= avg
    ensures avg >= 0 ==> e.minutes >= 0
  {
    var slots := Slots(concurrent);
    var turns := index / slots;
    var minutes := (turns + 1) * avg;
    var level :=
      if minutes <= avg * 2 then Poco
      else if minutes <= avg * 3 then NellaMedia
      else if minutes <= avg * 6 then Tanto
      else Molto;
    assert avg >= 0 ==> minutes >= avg by {
      if avg >= 0 { MulMonotone(1, turns + 1, avg); }
    }
    Estimate(minutes, level)
  }

  /** The label reading of a number of turns, for a positive average. */
  function LabelForTurns(turns: nat): WaitLabel {
    if turns <= 1 then Poco
    else if turns == 2 then NellaMedia
    else if turns <= 5 then Tanto
    else Molto
  }

  lemma MulMonotone(x: int, y: int, d: int)
    requires x <= y && d >= 0
    ensures x * d <= y * d
  {
    assert y * d - x * d == (y - x) * d;
  }

  lemma MulLeIff(x: int, y: int, d: int)
    requires d > 0
    ensures x * d <= y * d <==> x <= y
  {
    if x <= y {
      MulMonotone(x, y, d);
    } else {
      MulMonotone(y + 1, x, d);
      assert (y + 1) * d == y * d + d;
    }
  }

  lemma DivMonotone(i: nat, j: nat, s: int)
    requires i <= j && s >= 1
    ensures i / s <= j / s
  {
    if i / s > j / s {
      assert s * (i / s) >= s * (j / s + 1) by {
        MulMonotone(j / s + 1, i / s, s);
      }
    }
  }

  /** The first `Slots(concurrent)` positions are served in the first batch:
      they wait one average duration, which reads 'Poco'. */
  lemma {:induction false} FirstBatchIsPoco(index: nat, concurrent: int, avg: int)
    requires index < Slots(concurrent) && avg >= 0
    ensures QueueWaitEstimate(index, concurrent, avg) == Estimate(avg, Poco)
  {
    assert index / Slots(concurrent) == 0;
  }

  /** Positions in the same batch share their estimate. */
  lemma SameBatchSameEstimate(i: nat, j: nat, concurrent: int, avg: int)
    requires Turns(i, concurrent) == Turns(j, concurrent)
    ensures QueueWaitEstimate(i, concurrent, avg) == QueueWaitEstimate(j, concurrent, avg)
  {
  }

  /** A later place in the queue never waits less. */
  lemma {:induction false} EstimateMonotone(i: nat, j: nat, concurrent: int, avg: int)
    requires i <= j && avg >= 0
    ensures QueueWaitEstimate(i, concurrent, avg).minutes <= QueueWaitEstimate(j, concurrent, avg).minutes
  {
    DivMonotone(i, j, Slots(concurrent));
    MulMonotone(i / Slots(concurrent) + 1, j / Slots(concurrent) + 1, avg);
  }

  /** For a positive average the label depends on the number of turns only:
      'Poco' up to 1, 'Nella media' at 2, 'Tanto' from 3 to 5, then 'Molto'. */
  lemma {:induction false} LabelByTurns(index: nat, concurrent: int, avg: int)
    requires avg > 0
    ensures QueueWaitEstimate(index, concurrent, avg).level == LabelForTurns(Turns(index, concurrent))
  {
    var t := Turns(index, concurrent);
    assert avg * 2 == 2 * avg && avg * 3 == 3 * avg && avg * 6 == 6 * avg;
    MulLeIff(t + 1, 2, avg);
    MulLeIff(t + 1, 3, avg);
    MulLeIff(t + 1, 6, avg);
  }

  /** The estimate shown on each card of the waiting list: its position in the list. */
  function QueueEstimates(waiting: seq<Group>, cfg: PublicConfig): (r: seq<Estimate>)
    ensures |r| == |waiting|
    ensures forall i :: 0 <= i < |r| ==> r[i] == QueueWaitEstimate(i, cfg.concurrent, cfg.avgDuration)
  {
    seq(|waiting|, i requires 0 <= i < |waiting| => QueueWaitEstimate(i, cfg.concurrent, cfg.avgDuration))
  }

  /** Down the waiting list the estimates never decrease. */
  lemma QueueEstimatesNonDecreasing(waiting: seq<Group>, cfg: PublicConfig)
    requires cfg.avgDuration >= 0
    ensures forall i, j :: 0 <= i <= j < |waiting| ==>
      QueueEstimates(waiting, cfg)[i].minutes <= QueueEstimates(waiting, cfg)[j].minutes
  {
    forall i, j | 0 <= i <= j < |waiting|
      ensures QueueEstimates(waiting, cfg)[i].minutes <= QueueEstimates(waiting, cfg)[j].minutes
    {
      EstimateMonotone(i, j, cfg.concurrent, cfg.avgDuration);
    }
  }

  // ---------------------------------------------------------------------------
  // The two lists

  /** `new Date(created_at).getTime()`; a null `created_at` reads as 0. */
  function Stamp(g: Group): int {
    g.createdAt.GetOr(0)
  }

  ghost predicate SortedByStamp(s: seq<Group>) {
    forall i, j :: 0 <= i < j < |s| ==> Stamp(s[i]) <= Stamp(s[j])
  }

  /** `Array.prototype.sort` with `a.created_at - b.created_at`, in place. */
  method SortByCreatedAt(a: array<Group>)
    modifies a
    ensures SortedByStamp(a[..])
    ensures multiset(a[..]) == multiset(old(a[..]))
  {
    var i := 0;
    while i < a.Length
      invariant 0 <= i <= a.Length
      invariant forall k, l :: 0 <= k < l < i ==> Stamp(a[k]) <= Stamp(a[l])
      invariant multiset(a[..]) == multiset(old(a[..]))
    {
      var j := i;
      while j > 0 && Stamp(a[j - 1]) > Stamp(a[j])
        invariant 0 <= j <= i
        invariant forall k, l :: 0 <= k < l <= i && l != j ==> Stamp(a[k]) <= Stamp(a[l])
        invariant multiset(a[..]) == multiset(old(a[..]))
      {
        a[j - 1], a[j] := a[j], a[j - 1];
        j := j - 1;
      }
      i := i + 1;
    }
  }

  /** Copies `s` into a fresh array, sorts it there and reads it back. */
  method SortedCopy(s: seq<Group>) returns (r: seq<Group>)
    ensures SortedByStamp(r)
    ensures multiset(r) == multiset(s)
  {
    var a := new Group[|s|](k requires 0 <= k < |s| => s[k]);
    assert a[..] == s;
    SortByCreatedAt(a);
    r := a[..];
  }

  /** The render-time lists: groups not closed, split on `is_waiting`, each
      sorted from the oldest to the newest. */
  method VisibleLists(groups: seq<Group>) returns (inProgress: seq<Group>, waiting: seq<Group>)
    ensures SortedByStamp(inProgress) && SortedByStamp(waiting)
    ensures multiset(inProgress) == multiset(Filter(groups, IsRunning))
    ensures multiset(waiting) == multiset(Filter(groups, IsQueued))
    ensures multiset(inProgress) + multiset(waiting) == multiset(Filter(groups, IsOpen))
  {
    var visible := Filter(groups, IsOpen);
    FilterFilter(groups, IsOpen, IsNotWaitingFlag, IsRunning);
    FilterFilter(groups, IsOpen, IsWaitingFlag, IsQueued);
    FilterSplit(groups, IsOpen, IsNotWaitingFlag, IsRunning, IsQueued);
    inProgress := SortedCopy(Filter(visible, IsNotWaitingFlag));
    waiting := SortedCopy(Filter(visible, IsWaitingFlag));
  }

  /** Every group the page lists comes from the fetched groups, is open, and
      sits in the list its `is_waiting` flag names. */
  lemma VisibleListsMembers(groups: seq<Group>, inProgress: seq<Group>, waiting: seq<Group>, g: Group)
    requires multiset(inProgress) == multiset(Filter(groups, IsRunning))
    requires multiset(waiting) == multiset(Filter(groups, IsQueued))
    ensures g in inProgress <==> g in groups && !g.attrs.isClosed && !g.attrs.isWaiting
    ensures g in waiting <==> g in groups && !g.attrs.isClosed && g.attrs.isWaiting
  {
    FilterMember(groups, IsRunning, g);
    FilterMember(groups, IsQueued, g);
    assert g in inProgress <==> g in multiset(inProgress);
    assert g in waiting <==> g in multiset(waiting);
  }

  /** On the waiting list as `VisibleLists` builds it, every card is a queued
      group that was fetched, and a group created earlier than another one
      stands before it and is never shown a longer wait. */
  lemma {:induction false} QueueOrderFollowsCreation(groups: seq<Group>, waiting: seq<Group>, cfg: PublicConfig)
    requires SortedByStamp(waiting)
    requires multiset(waiting) == multiset(Filter(groups, IsQueued))
    requires cfg.avgDuration >= 0
    ensures forall i :: 0 <= i < |waiting| ==> waiting[i] in groups && IsQueued(waiting[i])
    ensures forall i, j :: 0 <= i < |waiting| && 0 <= j < |waiting| && Stamp(waiting[i]) < Stamp(waiting[j]) ==>
      i < j && QueueEstimates(waiting, cfg)[i].minutes <= QueueEstimates(waiting, cfg)[j].minutes
  {
    forall i | 0 <= i < |waiting|
      ensures waiting[i] in groups && IsQueued(waiting[i])
    {
      assert waiting[i] in multiset(waiting);
      FilterMember(groups, IsQueued, waiting[i]);
    }
    forall i, j | 0 <= i < |waiting| && 0 <= j < |waiting| && Stamp(waiting[i]) < Stamp(waiting[j])
      ensures i < j && QueueEstimates(waiting, cfg)[i].minutes <= QueueEstimates(waiting, cfg)[j].minutes
    {
      EstimateMonotone(i, j, cfg.concurrent, cfg.avgDuration);
    }
  }

  // ---------------------------------------------------------------------------
  // Page state

  /** The page's state: the polled groups, the loading flag, the selected
      event and the polling effect's `firstLoad` flag. */
  class PublicGroupsPage {
    var groups: seq<Group>
    var loading: bool
    var selectedEvent: Option<int>
    var firstLoad: bool

    constructor ()
      ensures groups == [] && loading && selectedEvent.None? && firstLoad
    {
      groups, loading, selectedEvent, firstLoad := [], true, None, true;
    }

    /** One fetch; `response` is None when the request fails. */
    method FetchGroups(response: Option<seq<Group>>)
      modifies this
      ensures selectedEvent == old(selectedEvent)
      ensures old(selectedEvent).None? ==> groups == [] && !loading && firstLoad == old(firstLoad)
      ensures old(selectedEvent).Some? ==>
        && groups == (if response.Some? then response.value else old(groups))
        && loading == (if old(firstLoad) then false else old(loading))
        && !firstLoad
    {
      if selectedEvent.None? {
        groups := [];
        loading := false;
        return;
      }
      if firstLoad {
        loading := true;
      }
      if response.Some? {
        groups := response.value;
      }
      if firstLoad {
        loading := false;
        firstLoad := false;
      }
    }

    /** Choosing an event restarts the polling effect with a fresh `firstLoad`.
        React runs the effect only when the event changes; choosing the same
        event again is modelled as a restart too, which the page cannot tell
        apart from the next poll. */
    method SelectEvent(event: Option<int>, response: Option<seq<Group>>)
      modifies this
      ensures selectedEvent == event
      ensures event.None? ==> groups == [] && !loading
      ensures event.Some? ==> !loading && !firstLoad
      ensures event.Some? ==> groups == (if response.Some? then response.value else old(groups))
    {
      selectedEvent := event;
      firstLoad := true;
      FetchGroups(response);
    }

    /** The 7-second interval callback. */
    method Tick(response: Option<seq<Group>>)
      modifies this
      ensures selectedEvent == old(selectedEvent) && !firstLoad
      ensures loading == (if old(selectedEvent).None? then false else old(loading))
      ensures groups == if old(selectedEvent).None? then []
                        else if response.Some? then response.value else old(groups)
    {
      firstLoad := false;
      FetchGroups(response);
    }
  }
}
