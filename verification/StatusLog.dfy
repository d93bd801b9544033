/**
 From a task's event log to its status observations (crates/ajax-cli/src/agent_status_cache.rs):
 grouping by run, folding each run, and the wrapper's exit.
 */
module StatusLog {
  import opened Options
  import opened CanonicalEvents
  import opened AgentStatus
  import Text
  import opened Sequences

  const PRIMARY_RUN_ID: string := "primary"
  const WRAPPER_TERMINAL_FRESH_FOR: int := 120 * 1000
  const U64_LIMIT: nat := 0x1_0000_0000_0000_0000

  function RunOf(e: ParsedEnvelope): string {
    if e.runId.Some? && Text.Trim(e.runId.value) != [] then e.runId.value else PRIMARY_RUN_ID
  }

  function ParentOf(e: ParsedEnvelope): Option<string> {
    if RunOf(e) == PRIMARY_RUN_ID then None
    else if e.parentRunId.Some? && Text.Trim(e.parentRunId.value) != [] then e.parentRunId
    else Some(PRIMARY_RUN_ID)
  }

  datatype RunGroup = RunGroup(runId: string, parent: Option<string>, envelopes: seq<ParsedEnvelope>)

  /** The first group of the run, |groups| if there is none. */
  function FindRun(groups: seq<RunGroup>, runId: string): (k: nat)
    ensures k <= |groups|
    ensures k < |groups| ==> groups[k].runId == runId
    ensures forall j :: 0 <= j < k ==> groups[j].runId != runId
  {
    if groups == [] || groups[0].runId == runId then 0 else 1 + FindRun(groups[1..], runId)
  }

  function AddToGroups(groups: seq<RunGroup>, e: ParsedEnvelope): seq<RunGroup> {
    var k := FindRun(groups, RunOf(e));
    if k < |groups| then groups[k := groups[k].(envelopes := groups[k].envelopes + [e])]
    else groups + [RunGroup(RunOf(e), ParentOf(e), [e])]
  }

  function Groups(log: seq<ParsedEnvelope>): seq<RunGroup> {
    if log == [] then [] else AddToGroups(Groups(log[..|log| - 1]), log[|log| - 1])
  }

  lemma {:induction false} GroupsNext(log: seq<ParsedEnvelope>, i: nat)
    requires i < |log|
    ensures Groups(log[..i + 1]) == AddToGroups(Groups(log[..i]), log[i])
  {
    assert log[..i + 1][..i] == log[..i];
  }

  /** Files one event under its run, starting a group for a run not seen before. */
  method PushEnvelope(groups: seq<RunGroup>, e: ParsedEnvelope) returns (runs: seq<RunGroup>)
    ensures runs == AddToGroups(groups, e)
  {
    var k := 0;
    while k < |groups| && groups[k].runId != RunOf(e)
      invariant k <= |groups|
      invariant forall j :: 0 <= j < k ==> groups[j].runId != RunOf(e)
    {
      k := k + 1;
    }
    assert k == FindRun(groups, RunOf(e));
    if k < |groups| {
      runs := groups[k := groups[k].(envelopes := groups[k].envelopes + [e])];
    } else {
      runs := groups + [RunGroup(RunOf(e), ParentOf(e), [e])];
    }
  }

  method GroupEnvelopesByRun(log: seq<ParsedEnvelope>) returns (runs: seq<RunGroup>)
    ensures runs == Groups(log)
  {
    runs := [];
    for i := 0 to |log|
      invariant runs == Groups(log[..i])
    {
      GroupsNext(log, i);
      runs := PushEnvelope(runs, log[i]);
    }
    assert log[..|log|] == log;
  }

  function MillisToSystemTime(millis: nat): Option<int> {
    if millis < U64_LIMIT then Some(millis) else None
  }

  function LatestReceived(envelopes: seq<ParsedEnvelope>): nat
    requires envelopes != []
  {
    if |envelopes| == 1 then envelopes[0].receivedAtUnixMillis
    else Max(LatestReceived(envelopes[..|envelopes| - 1]), envelopes[|envelopes| - 1].receivedAtUnixMillis)
  }

  /** When a run was last heard of; the current time stands in for an instant that does not fit 64 bits. */
  function ObservedAt(envelopes: seq<ParsedEnvelope>, now: int): int {
    if envelopes == [] then now
    else
      var at := MillisToSystemTime(LatestReceived(envelopes));
      if at.Some? then at.value else now
  }

  function GroupObservation(g: RunGroup, now: int): Option<StatusObservation> {
    ObservationOf(Fold(g.envelopes), ObservedAt(g.envelopes, now), g.runId, g.parent)
  }

  function GroupObservations(groups: seq<RunGroup>, now: int): seq<StatusObservation> {
    if groups == [] then []
    else
      var o := GroupObservation(groups[|groups| - 1], now);
      GroupObservations(groups[..|groups| - 1], now) + if o.Some? then [o.value] else []
  }

  function Observations(log: seq<ParsedEnvelope>, now: int): seq<StatusObservation> {
    GroupObservations(Groups(log), now)
  }

  lemma {:induction false} GroupObservationsNext(groups: seq<RunGroup>, i: nat, now: int)
    requires i < |groups|
    ensures
      var o := GroupObservation(groups[i], now);
      GroupObservations(groups[..i + 1], now)
      == GroupObservations(groups[..i], now) + if o.Some? then [o.value] else []
  {
    assert groups[..i + 1][..i] == groups[..i];
  }

  method ObservationsFromJsonl(log: seq<ParsedEnvelope>, now: int) returns (observations: seq<StatusObservation>)
    ensures observations == Observations(log, now)
  {
    var runs := GroupEnvelopesByRun(log);
    observations := [];
    for i := 0 to |runs|
      invariant observations == GroupObservations(runs[..i], now)
    {
      GroupObservationsNext(runs, i, now);
      var snapshot := FoldEnvelopes(runs[i].envelopes);
      var o := ObservationOf(snapshot, ObservedAt(runs[i].envelopes, now), runs[i].runId, runs[i].parent);
      if o.Some? {
        observations := observations + [o.value];
      }
    }
    assert runs[..|runs|] == runs;
  }

  datatype AgentRuntimeState = Starting | RuntimeRunning | ExitedSuccess | ExitedFailure

  datatype AgentRuntimeSnapshot = AgentRuntimeSnapshot(state: AgentRuntimeState, observedAtUnixMillis: nat)

  function WrapperExitObservation(snapshot: AgentRuntimeSnapshot): Option<StatusObservation> {
    var at := MillisToSystemTime(snapshot.observedAtUnixMillis);
    if snapshot.state.Starting? || snapshot.state.RuntimeRunning? || at.None? then None
    else
      Some(StatusObservation(
        ProcessExit, at.value, at.value + WRAPPER_TERMINAL_FRESH_FOR, High, PRIMARY_RUN_ID, None,
        if snapshot.state.ExitedSuccess? then Done else AgentStatus.Failed))
  }

  function LivenessOf(snapshot: AgentRuntimeSnapshot): Option<ProcessLiveness> {
    var at := MillisToSystemTime(snapshot.observedAtUnixMillis);
    if snapshot.state.ExitedSuccess? || snapshot.state.ExitedFailure? || at.None? then None
    else Some(ProcessLiveness(true, at.value))
  }

  /** All the observations of a task: those of its log, then the wrapper's exit. */
  function TaskObservations(
    log: seq<ParsedEnvelope>, wrapper: Option<AgentRuntimeSnapshot>, now: int): seq<StatusObservation>
  {
    var exit := if wrapper.Some? then WrapperExitObservation(wrapper.value) else None;
    Observations(log, now) + if exit.Some? then [exit.value] else []
  }

  /** From log to projection. */
  ghost function TaskStatus(
    log: seq<ParsedEnvelope>, wrapper: Option<AgentRuntimeSnapshot>, now: int): StatusProjection
  {
    ReduceAgentStatus(
      now, PRIMARY_RUN_ID, if wrapper.Some? then LivenessOf(wrapper.value) else None,
      TaskObservations(log, wrapper, now))
  }

  // Grouping is filtering by run.

  function RunEvents(log: seq<ParsedEnvelope>, runId: string): seq<ParsedEnvelope> {
    if log == [] then []
    else
      RunEvents(log[..|log| - 1], runId) + if RunOf(log[|log| - 1]) == runId then [log[|log| - 1]] else []
  }

  /** The group the events of one run make. */
  function GroupOfRun(log: seq<ParsedEnvelope>, runId: string): RunGroup
    requires RunEvents(log, runId) != []
  {
    RunGroup(runId, ParentOf(RunEvents(log, runId)[0]), RunEvents(log, runId))
  }

  ghost predicate IsGroupOf(g: RunGroup, log: seq<ParsedEnvelope>) {
    RunEvents(log, g.runId) != [] && g == GroupOfRun(log, g.runId)
  }

  ghost predicate Holds(groups: seq<RunGroup>, runId: string) {
    exists i :: 0 <= i < |groups| && groups[i].runId == runId
  }

  ghost predicate DistinctRuns(groups: seq<RunGroup>) {
    forall i, j :: 0 <= i < j < |groups| ==> groups[i].runId != groups[j].runId
  }

  ghost predicate IsGrouping(groups: seq<RunGroup>, log: seq<ParsedEnvelope>) {
    && DistinctRuns(groups)
    && (forall i :: 0 <= i < |groups| ==> IsGroupOf(groups[i], log))
    && (forall runId :: RunEvents(log, runId) != [] ==> Holds(groups, runId))
  }

  lemma {:induction false} RunEventsNext(log: seq<ParsedEnvelope>, e: ParsedEnvelope, runId: string)
    ensures RunEvents(log + [e], runId) == RunEvents(log, runId) + if RunOf(e) == runId then [e] else []
  {
    assert (log + [e])[..|log|] == log;
  }

  lemma {:induction false} GroupNext(
    g: RunGroup, log: seq<ParsedEnvelope>, e: ParsedEnvelope, longer: seq<ParsedEnvelope>)
    requires IsGroupOf(g, log) && longer == log + [e]
    ensures IsGroupOf(if RunOf(e) == g.runId then g.(envelopes := g.envelopes + [e]) else g, longer)
  {
    RunEventsNext(log, e, g.runId);
  }

  lemma {:induction false} NewGroup(log: seq<ParsedEnvelope>, e: ParsedEnvelope, longer: seq<ParsedEnvelope>)
    requires RunEvents(log, RunOf(e)) == [] && longer == log + [e]
    ensures IsGroupOf(RunGroup(RunOf(e), ParentOf(e), [e]), longer)
  {
    RunEventsNext(log, e, RunOf(e));
  }

  lemma {:induction false} GroupsAfter(
    groups: seq<RunGroup>, log: seq<ParsedEnvelope>, e: ParsedEnvelope, longer: seq<ParsedEnvelope>, i: nat)
    requires IsGrouping(groups, log) && longer == log + [e]
    requires i < |AddToGroups(groups, e)|
    ensures IsGroupOf(AddToGroups(groups, e)[i], longer)
  {
    if i < |groups| {
      GroupNext(groups[i], log, e, longer);
    } else {
      NewGroup(log, e, longer);
    }
  }

  lemma {:induction false} HoldsAfter(
    groups: seq<RunGroup>, log: seq<ParsedEnvelope>, e: ParsedEnvelope, longer: seq<ParsedEnvelope>, runId: string)
    requires IsGrouping(groups, log) && longer == log + [e]
    requires RunEvents(longer, runId) != []
    ensures Holds(AddToGroups(groups, e), runId)
  {
    var after, k := AddToGroups(groups, e), FindRun(groups, RunOf(e));
    RunEventsNext(log, e, runId);
    if RunOf(e) == runId {
      assert after[k].runId == runId;
    } else {
      assert Holds(groups, runId);
      var i :| 0 <= i < |groups| && groups[i].runId == runId;
      assert after[i].runId == runId;
    }
  }

  lemma {:induction false} AddToGroupsDistinct(groups: seq<RunGroup>, e: ParsedEnvelope)
    requires DistinctRuns(groups)
    ensures DistinctRuns(AddToGroups(groups, e))
  {
  }

  lemma {:induction false} AddToGroupsKeeps(
    groups: seq<RunGroup>, log: seq<ParsedEnvelope>, e: ParsedEnvelope, longer: seq<ParsedEnvelope>)
    requires IsGrouping(groups, log) && longer == log + [e]
    ensures IsGrouping(AddToGroups(groups, e), longer)
  {
    AddToGroupsDistinct(groups, e);
    forall i | 0 <= i < |AddToGroups(groups, e)|
      ensures IsGroupOf(AddToGroups(groups, e)[i], longer)
    {
      GroupsAfter(groups, log, e, longer, i);
    }
    forall runId | RunEvents(longer, runId) != []
      ensures Holds(AddToGroups(groups, e), runId)
    {
      HoldsAfter(groups, log, e, longer, runId);
    }
  }

  /** Every group is the log filtered by its run, in log order, with the parent its first event names. */
  lemma {:induction false} GroupingIsFiltering(log: seq<ParsedEnvelope>)
    ensures IsGrouping(Groups(log), log)
  {
    if log == [] {
      NothingGrouped();
    } else {
      GroupingIsFiltering(log[..|log| - 1]);
      LastGrouped(Groups(log[..|log| - 1]), log);
    }
  }

  lemma {:induction false} LastGrouped(groups: seq<RunGroup>, log: seq<ParsedEnvelope>)
    requires log != [] && IsGrouping(groups, log[..|log| - 1])
    ensures IsGrouping(AddToGroups(groups, log[|log| - 1]), log)
  {
    InitAndLast(log);
    AddToGroupsKeeps(groups, log[..|log| - 1], log[|log| - 1], log);
  }

  lemma {:induction false} NothingGrouped()
    ensures IsGrouping(Groups([]), [])
  {
  }

  lemma {:induction false} InGroupObservations(groups: seq<RunGroup>, now: int, o: StatusObservation)
    ensures o in GroupObservations(groups, now)
       <==> exists i :: 0 <= i < |groups| && GroupObservation(groups[i], now) == Some(o)
  {
    if groups != [] {
      var init := groups[..|groups| - 1];
      InGroupObservations(init, now, o);
      if i :| 0 <= i < |init| && GroupObservation(init[i], now) == Some(o) {
        assert GroupObservation(groups[i], now) == Some(o);
      }
      if i :| 0 <= i < |groups| && GroupObservation(groups[i], now) == Some(o) {
        assert i < |init| ==> groups[i] == init[i];
      }
    }
  }

  /** The log's observations are one per run at most, each computed from that run's own events. */
  lemma {:induction false} ObservationsByRun(log: seq<ParsedEnvelope>, now: int, o: StatusObservation)
    ensures o in Observations(log, now)
       <==> RunEvents(log, o.runId) != [] && GroupObservation(GroupOfRun(log, o.runId), now) == Some(o)
  {
    var groups := Groups(log);
    GroupingIsFiltering(log);
    InGroupObservations(groups, now, o);
    if i :| 0 <= i < |groups| && GroupObservation(groups[i], now) == Some(o) {
      assert IsGroupOf(groups[i], log);
    }
    if RunEvents(log, o.runId) != [] {
      assert Holds(groups, o.runId);
      var i :| 0 <= i < |groups| && groups[i].runId == o.runId;
      assert IsGroupOf(groups[i], log);
    }
  }

  /** The two logs interleave the same runs. */
  ghost predicate SameRuns(a: seq<ParsedEnvelope>, b: seq<ParsedEnvelope>) {
    forall runId :: RunEvents(a, runId) == RunEvents(b, runId)
  }

  lemma {:induction false} SameRunsSameObservations(
    a: seq<ParsedEnvelope>, b: seq<ParsedEnvelope>, wrapper: Option<AgentRuntimeSnapshot>, now: int)
    requires SameRuns(a, b)
    ensures forall o :: o in TaskObservations(a, wrapper, now) <==> o in TaskObservations(b, wrapper, now)
  {
    forall o
      ensures o in Observations(a, now) <==> o in Observations(b, now)
    {
      ObservationsByRun(a, now, o);
      ObservationsByRun(b, now, o);
    }
  }

  lemma {:induction false} NoTiesInPrimary(log: seq<ParsedEnvelope>, wrapper: Option<AgentRuntimeSnapshot>, now: int)
    ensures NoKindTie(Unexpired(TaskObservations(log, wrapper, now), now), PRIMARY_RUN_ID)
  {
    forall o, p | o in TaskObservations(log, wrapper, now) && p in TaskObservations(log, wrapper, now)
               && o.runId == PRIMARY_RUN_ID && p.runId == PRIMARY_RUN_ID && o.source == p.source
      ensures o.kind == p.kind
    {
      ObservationsByRun(log, now, o);
      ObservationsByRun(log, now, p);
    }
  }

  /**
   Interleaving independence: two logs whose per-run subsequences agree give the same projection,
   whatever the wrapper reported and whatever the time.
   */
  lemma {:induction false} InterleavingIndependence(
    a: seq<ParsedEnvelope>, b: seq<ParsedEnvelope>, wrapper: Option<AgentRuntimeSnapshot>, now: int)
    requires SameRuns(a, b)
    ensures TaskStatus(a, wrapper, now) == TaskStatus(b, wrapper, now)
  {
    SameRunsSameObservations(a, b, wrapper, now);
    NoTiesInPrimary(a, wrapper, now);
    var oa, ob := TaskObservations(a, wrapper, now), TaskObservations(b, wrapper, now);
    assert Unexpired(oa, now) == Unexpired(ob, now);
    ReducerIsSetFunction(
      now, PRIMARY_RUN_ID, if wrapper.Some? then LivenessOf(wrapper.value) else None, oa, ob);
  }

  lemma {:induction false} RunEventsSplit(x: seq<ParsedEnvelope>, y: seq<ParsedEnvelope>, runId: string)
    ensures RunEvents(x + y, runId) == RunEvents(x, runId) + RunEvents(y, runId)
    decreases |y|
  {
    if y == [] {
      assert x + y == x && RunEvents(x, runId) + [] == RunEvents(x, runId);
    } else {
      var init, e := y[..|y| - 1], y[|y| - 1];
      var rejoined := init + [e];
      assert rejoined == y;
      RunEventsSplitNext(x, init, e, runId);
    }
  }

  lemma {:induction false} RunEventsSplitNext(
    x: seq<ParsedEnvelope>, init: seq<ParsedEnvelope>, e: ParsedEnvelope, runId: string)
    ensures RunEvents(x + (init + [e]), runId) == RunEvents(x, runId) + RunEvents(init + [e], runId)
    decreases |init| + 1, 0
  {
    RunEventsSplit(x, init, runId);
    RunEventsNext(x + init, e, runId);
    RunEventsNext(init, e, runId);
    Associative(x, init, [e]);
    Associative(RunEvents(x, runId), RunEvents(init, runId), if RunOf(e) == runId then [e] else []);
  }

  /** The events of a delegated run, wherever they land in the log, never move the fold of another run. */
  lemma {:induction false} DelegatedEventsDoNotMove(
    x: seq<ParsedEnvelope>, delegated: seq<ParsedEnvelope>, y: seq<ParsedEnvelope>, runId: string)
    requires forall e :: e in delegated ==> RunOf(e) != runId
    ensures Fold(RunEvents(x + delegated + y, runId)) == Fold(RunEvents(x + y, runId))
  {
    RunEventsSplit(x + delegated, y, runId);
    RunEventsSplit(x, delegated, runId);
    RunEventsSplit(x, y, runId);
    NoneOfRun(delegated, runId);
    assert RunEvents(x, runId) + [] == RunEvents(x, runId);
  }

  lemma {:induction false} NoneOfRun(events: seq<ParsedEnvelope>, runId: string)
    requires forall e :: e in events ==> RunOf(e) != runId
    ensures RunEvents(events, runId) == []
  {
    if events != [] {
      NoneOfRun(events[..|events| - 1], runId);
    }
  }

  // The current time matters only for instants that do not fit 64 bits.

  predicate TimeFits(g: RunGroup) {
    Fold(g.envelopes).phase.Unknown? || (g.envelopes != [] && LatestReceived(g.envelopes) < U64_LIMIT)
  }

  ghost predicate TimesFit(log: seq<ParsedEnvelope>) {
    forall g :: g in Groups(log) ==> TimeFits(g)
  }

  lemma {:induction false} FittingGroups(groups: seq<RunGroup>, now: int, later: int)
    requires forall g :: g in groups ==> TimeFits(g)
    ensures GroupObservations(groups, now) == GroupObservations(groups, later)
  {
    if groups != [] {
      FittingGroups(groups[..|groups| - 1], now, later);
      assert groups[|groups| - 1] in groups;
    }
  }

  /** Observations do not depend on the time they are computed exactly when every reported run's last instant fits. */
  lemma {:induction false} TimeIndependence(log: seq<ParsedEnvelope>)
    ensures TimesFit(log) <==> forall now, later :: Observations(log, now) == Observations(log, later)
  {
    if TimesFit(log) {
      forall now, later
        ensures Observations(log, now) == Observations(log, later)
      {
        FittingGroups(Groups(log), now, later);
      }
    } else {
      var g :| g in Groups(log) && !TimeFits(g);
      GroupingIsFiltering(log);
      var o := GroupObservation(g, 0).value;
      assert o.observedAt == 0;
      var i :| 0 <= i < |Groups(log)| && Groups(log)[i] == g;
      InGroupObservations(Groups(log), 0, o);
      ObservationsByRun(log, 1, o);
      assert o in Observations(log, 0) && o !in Observations(log, 1);
    }
  }

  // The order of the observations.

  /** Run a has an event before any of run b. */
  ghost predicate StartsBefore(log: seq<ParsedEnvelope>, a: string, b: string) {
    exists k :: 0 <= k < |log| && RunOf(log[k]) == a && forall j :: 0 <= j <= k ==> RunOf(log[j]) != b
  }

  ghost predicate InOrder(groups: seq<RunGroup>, log: seq<ParsedEnvelope>) {
    forall i, j :: 0 <= i < j < |groups| ==> StartsBefore(log, groups[i].runId, groups[j].runId)
  }

  lemma {:induction false} StartsBeforeLater(log: seq<ParsedEnvelope>, e: ParsedEnvelope, a: string, b: string)
    requires StartsBefore(log, a, b)
    ensures StartsBefore(log + [e], a, b)
  {
    var k :| 0 <= k < |log| && RunOf(log[k]) == a && forall j :: 0 <= j <= k ==> RunOf(log[j]) != b;
    assert forall j :: 0 <= j <= k ==> (log + [e])[j] == log[j];
  }

  lemma {:induction false} HasEvent(log: seq<ParsedEnvelope>, runId: string)
    ensures RunEvents(log, runId) != [] <==> exists k :: 0 <= k < |log| && RunOf(log[k]) == runId
  {
    if log != [] {
      var init, e := log[..|log| - 1], log[|log| - 1];
      InitAndLast(log);
      HasEvent(init, runId);
      RunEventsNext(init, e, runId);
      HasEventNext(init, e, runId);
    }
  }

  lemma {:induction false} HasEventNext(log: seq<ParsedEnvelope>, e: ParsedEnvelope, runId: string)
    ensures (exists k :: 0 <= k < |log| + 1 && RunOf((log + [e])[k]) == runId)
       <==> RunOf(e) == runId || exists k :: 0 <= k < |log| && RunOf(log[k]) == runId
  {
    var all := log + [e];
    assert all[|log|] == e;
    if k :| 0 <= k < |log| && RunOf(log[k]) == runId {
      assert RunOf(all[k]) == runId;
    }
    if k :| 0 <= k < |all| && RunOf(all[k]) == runId {
      assert k < |log| ==> all[k] == log[k];
    }
  }

  lemma {:induction false} NewRunStartsLast(log: seq<ParsedEnvelope>, e: ParsedEnvelope, runId: string)
    requires RunEvents(log, runId) != [] && RunEvents(log, RunOf(e)) == []
    ensures StartsBefore(log + [e], runId, RunOf(e))
  {
    HasEvent(log, runId);
    HasEvent(log, RunOf(e));
    var k :| 0 <= k < |log| && RunOf(log[k]) == runId;
    assert (log + [e])[k] == log[k] && forall j :: 0 <= j <= k ==> (log + [e])[j] == log[j];
  }

  lemma {:induction false} AddedInOrder(groups: seq<RunGroup>, log: seq<ParsedEnvelope>, e: ParsedEnvelope)
    requires IsGrouping(groups, log) && InOrder(groups, log)
    ensures InOrder(AddToGroups(groups, e), log + [e])
  {
    var after := AddToGroups(groups, e);
    forall i, j | 0 <= i < j < |after|
      ensures StartsBefore(log + [e], after[i].runId, after[j].runId)
    {
      if j < |groups| {
        StartsBeforeLater(log, e, groups[i].runId, groups[j].runId);
      } else {
        assert IsGroupOf(groups[i], log);
        assert FindRun(groups, RunOf(e)) == |groups| && !Holds(groups, RunOf(e));
        NewRunStartsLast(log, e, groups[i].runId);
      }
    }
  }

  lemma {:induction false} GroupsInOrder(log: seq<ParsedEnvelope>)
    ensures InOrder(Groups(log), log)
  {
    if log != [] {
      var init, e := log[..|log| - 1], log[|log| - 1];
      InitAndLast(log);
      GroupsInOrder(init);
      GroupingIsFiltering(init);
      AddedInOrder(Groups(init), init, e);
    }
  }

  lemma {:induction false} ObservedInOrder(
    groups: seq<RunGroup>, log: seq<ParsedEnvelope>, now: int, p: nat, q: nat) returns (i: nat, j: nat)
    requires p < q < |GroupObservations(groups, now)|
    ensures i < j < |groups|
    ensures GroupObservations(groups, now)[p].runId == groups[i].runId
    ensures GroupObservations(groups, now)[q].runId == groups[j].runId
  {
    var init := groups[..|groups| - 1];
    if q < |GroupObservations(init, now)| {
      i, j := ObservedInOrder(init, log, now, p, q);
    } else {
      j := |groups| - 1;
      var o := GroupObservations(init, now)[p];
      InGroupObservations(init, now, o);
      i :| 0 <= i < |init| && GroupObservation(init[i], now) == Some(o);
    }
  }

  /** The observations of a log come in the order in which their runs began. */
  lemma {:induction false} ObservationsInOrder(log: seq<ParsedEnvelope>, now: int, p: nat, q: nat)
    requires p < q < |Observations(log, now)|
    ensures StartsBefore(log, Observations(log, now)[p].runId, Observations(log, now)[q].runId)
  {
    var i, j := ObservedInOrder(Groups(log), log, now, p, q);
    GroupsInOrder(log);
  }
}
