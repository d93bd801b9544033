/**
 The status of a task, told from its event log and its wrapper: which run's events decide, what a wrapper's
 exit overrides, and how long each counts (crates/ajax-cli/src/agent_status_cache.rs:159-257,
 crates/ajax-core/src/canonical_agent_event.rs:134-331, crates/ajax-core/src/agent_status.rs:140-349).
 */
module StatusTold {
  import opened Options
  import opened CanonicalEvents
  import opened StatusLog
  import opened EventPhases
  import opened StatusShown
  import AgentStatus
  import Text
  import opened Sequences

  // Where an event belongs, and when a run was last heard of.

  /** There is an id, and something to be seen of it. */
  predicate IsNamed(id: Option<string>) {
    id.Some? && exists c :: c in id.value && !Text.IsWhitespace(c)
  }

  lemma {:induction false} TrimsToNothing(s: string)
    ensures Text.Trim(s) == [] <==> forall c :: c in s ==> Text.IsWhitespace(c)
  {
    var r := Text.TrimStart(s);
    assert Text.TrimEnd(r) == [] <==> r == [];
    assert |r| > 0 ==> s[|s| - |r|] == r[0] && !Text.IsWhitespace(r[0]);
  }

  lemma {:induction false} NamedExactly(id: Option<string>)
    ensures IsNamed(id) <==> id.Some? && Text.Trim(id.value) != []
  {
    if id.Some? {
      TrimsToNothing(id.value);
    }
  }

  /** An event without a run belongs to the primary one; a run without a parent was started by the primary one. */
  lemma {:induction false} WhereEventsBelong(e: ParsedEnvelope)
    ensures RunOf(e) == if IsNamed(e.runId) then e.runId.value else "primary"
    ensures RunOf(e) == "primary" ==> ParentOf(e) == None
    ensures RunOf(e) != "primary" ==> ParentOf(e) == if IsNamed(e.parentRunId) then e.parentRunId else Some("primary")
  {
    NamedExactly(e.runId);
    NamedExactly(e.parentRunId);
  }

  /** The instant is that of some event, and no event is later. */
  ghost predicate IsLatest(events: Log, at: nat) {
    && (exists e :: e in events && e.receivedAtUnixMillis == at)
    && forall e :: e in events ==> e.receivedAtUnixMillis <= at
  }

  lemma {:induction false} LatestBoundsAll(events: Log)
    requires events != []
    ensures IsLatest(events, LatestReceived(events))
  {
    var init, last := events[..|events| - 1], events[|events| - 1];
    InitAndLast(events);
    assert last in events;
    if init != [] {
      LatestBoundsAll(init);
      var e :| e in init && e.receivedAtUnixMillis == LatestReceived(init);
      assert e in events;
    }
  }

  /** The run was last heard of at the instant, or now if the instant does not fit 64 bits. */
  ghost predicate HeardAt(events: Log, now: int, at: int) {
    forall latest: nat :: IsLatest(events, latest) ==> at == if latest < 0x1_0000_0000_0000_0000 then latest else now
  }

  /** What the run's log reports at the time: the kind its events tell, for as long as it counts. */
  ghost predicate Reports(log: Log, now: int, runId: string, kind: AgentStatus.ActivityKind) {
    var events := RunEvents(log, runId);
    && events != [] && ReportedAs(events, kind)
    && exists at :: HeardAt(events, now, at) && now <= at + if Ends(kind) then 31536000000 else 1800000
  }

  /** A run started by the primary one is at work or waits. */
  ghost predicate DelegatedBusy(log: Log, now: int) {
    exists runId, kind ::
      && runId != "primary" && RunEvents(log, runId) != [] && ParentOf(RunEvents(log, runId)[0]) == Some("primary")
      && Reports(log, now, runId, kind) && !Ends(kind)
  }

  /** The wrapper told of its exit at most two minutes ago. */
  predicate JustExited(wrapper: Option<AgentRuntimeSnapshot>, now: int) {
    && wrapper.Some? && (wrapper.value.state.ExitedSuccess? || wrapper.value.state.ExitedFailure?)
    && wrapper.value.observedAtUnixMillis < 0x1_0000_0000_0000_0000
    && now <= wrapper.value.observedAtUnixMillis + 120000
  }

  /** The wrapper told at most half a minute ago that it starts or runs. */
  predicate JustAlive(wrapper: Option<AgentRuntimeSnapshot>, now: int) {
    && wrapper.Some? && (wrapper.value.state.Starting? || wrapper.value.state.RuntimeRunning?)
    && wrapper.value.observedAtUnixMillis < 0x1_0000_0000_0000_0000
    && now <= wrapper.value.observedAtUnixMillis + 30000
  }

  // The observations of a task.

  /** A run's own observation, unexpired. */
  ghost predicate IsRunObservation(log: Log, now: int, o: AgentStatus.StatusObservation) {
    && RunEvents(log, o.runId) != [] && GroupObservation(GroupOfRun(log, o.runId), now) == Some(o) && o.expiresAt >= now
  }

  lemma {:induction false} RunObservationReports(log: Log, now: int, o: AgentStatus.StatusObservation)
    requires IsRunObservation(log, now, o)
    ensures Reports(log, now, o.runId, o.kind)
    ensures o.source.ProviderLifecycle? && o.parentRunId == ParentOf(RunEvents(log, o.runId)[0])
  {
    var events := RunEvents(log, o.runId);
    LatestBoundsAll(events);
    ReportTold(events, ObservedAt(events, now), o.runId, ParentOf(events[0]));
    assert HeardAt(events, now, ObservedAt(events, now)) by {
      forall latest: nat | IsLatest(events, latest)
        ensures latest == LatestReceived(events)
      {
      }
    }
    EndedMeansEnds(events, o.kind);
  }

  lemma {:induction false} EndedMeansEnds(events: Log, kind: AgentStatus.ActivityKind)
    requires ReportedAs(events, kind)
    ensures Ends(kind) <==> RunSettled(events) || RunFailed(events)
  {
    FailedTold(events);
    SettledTold(events);
    BlockedTold(events);
    ActiveTold(events);
  }

  lemma {:induction false} ReportIsObserved(log: Log, now: int, runId: string, kind: AgentStatus.ActivityKind)
    returns (o: AgentStatus.StatusObservation)
    requires Reports(log, now, runId, kind)
    ensures o.runId == runId && o.kind == kind && IsRunObservation(log, now, o)
  {
    var events := RunEvents(log, runId);
    LatestBoundsAll(events);
    var at := ObservedAt(events, now);
    ReportTold(events, at, runId, ParentOf(events[0]));
    assert GroupObservation(GroupOfRun(log, runId), now) == ObservationOf(Fold(events), at, runId, ParentOf(events[0]));
    PhaseOfReported(events, kind);
    o := ObservationOf(Fold(events), at, runId, ParentOf(events[0])).value;
    OneKindTold(events, o.kind, kind);
    EndedMeansEnds(events, kind);
  }

  lemma {:induction false} PhaseOfReported(events: Log, kind: AgentStatus.ActivityKind)
    requires ReportedAs(events, kind)
    ensures !Fold(events).phase.Unknown?
  {
    FailedTold(events);
    SettledTold(events);
    BlockedTold(events);
    ActiveTold(events);
  }

  lemma {:induction false} TaskObservationsAre(log: Log, wrapper: Option<AgentRuntimeSnapshot>, now: int)
    ensures forall o :: o in TaskObservations(log, wrapper, now) && o.expiresAt >= now <==>
      || IsRunObservation(log, now, o)
      || (JustExited(wrapper, now) && Some(o) == WrapperExitObservation(wrapper.value))
  {
    forall o
      ensures o in StatusLog.Observations(log, now) && o.expiresAt >= now <==> IsRunObservation(log, now, o)
    {
      ObservationsByRun(log, now, o);
    }
  }

  /** An exit is the primary run's and outranks what the log tells of it. */
  lemma {:induction false} ExitObservation(wrapper: AgentRuntimeSnapshot, now: int)
    requires JustExited(Some(wrapper), now)
    ensures WrapperExitObservation(wrapper).Some?
    ensures var o := WrapperExitObservation(wrapper).value;
      && o.source.ProcessExit? && o.runId == "primary" && o.parentRunId == None && o.expiresAt >= now
      && o.observedAt == wrapper.observedAtUnixMillis
      && o.kind == if wrapper.state.ExitedSuccess? then AgentStatus.Done else AgentStatus.Failed
  {
  }

  lemma {:induction false} NeverDisputed(log: Log, wrapper: Option<AgentRuntimeSnapshot>, now: int, runId: string)
    ensures !Disputed(TaskObservations(log, wrapper, now), now, runId)
  {
    TaskObservationsAre(log, wrapper, now);
    forall o | o in TaskObservations(log, wrapper, now) && o.expiresAt >= now
      ensures !o.source.PaneEvidence?
    {
      if IsRunObservation(log, now, o) {
        RunObservationReports(log, now, o);
      }
    }
  }

  /** Two observations of one run's log are the same. */
  lemma {:induction false} OneOfEachRun(
    log: Log, now: int, o: AgentStatus.StatusObservation, p: AgentStatus.StatusObservation)
    requires IsRunObservation(log, now, o) && IsRunObservation(log, now, p) && o.runId == p.runId
    ensures o == p
  {
  }

  lemma {:induction false} SpeakerIsCounted(observations: seq<AgentStatus.StatusObservation>, now: int, runId: string, o: AgentStatus.StatusObservation)
    requires SpokenFor(observations, now, runId, o)
    ensures o in observations && Counts(o, now, runId)
    ensures forall p :: p in observations && Counts(p, now, runId) ==> !Outranks(p, o)
  {
    var i :| 0 <= i < |observations| && observations[i] == o && Speaks(observations, now, runId, i);
    forall p | p in observations && Counts(p, now, runId)
      ensures !Outranks(p, o)
    {
      var j :| 0 <= j < |observations| && observations[j] == p;
      assert j < i ==> Outranks(o, p);
    }
  }

  /** Another run than the primary is spoken for by what its log reports. */
  lemma {:induction false} RunSpokenFor(
    log: Log, wrapper: Option<AgentRuntimeSnapshot>, now: int, runId: string, o: AgentStatus.StatusObservation)
    requires runId == "primary" ==> !JustExited(wrapper, now)
    ensures SpokenFor(TaskObservations(log, wrapper, now), now, runId, o)
       <==> IsRunObservation(log, now, o) && o.runId == runId
  {
    var observations := TaskObservations(log, wrapper, now);
    TaskObservationsAre(log, wrapper, now);
    if JustExited(wrapper, now) {
      ExitObservation(wrapper.value, now);
    }
    if SpokenFor(observations, now, runId, o) {
      SpeakerIsCounted(observations, now, runId, o);
    }
    if IsRunObservation(log, now, o) && o.runId == runId {
      assert o in observations && Counts(o, now, runId);
      SpokenForIfSeen(observations, now, runId);
      var p :| SpokenFor(observations, now, runId, p);
      SpeakerIsCounted(observations, now, runId, p);
      OneOfEachRun(log, now, o, p);
    }
  }

  lemma {:induction false} ExitSpeaks(log: Log, wrapper: AgentRuntimeSnapshot, now: int)
    requires JustExited(Some(wrapper), now)
    ensures SpokenFor(TaskObservations(log, Some(wrapper), now), now, "primary", WrapperExitObservation(wrapper).value)
  {
    var observations, exit := TaskObservations(log, Some(wrapper), now), WrapperExitObservation(wrapper).value;
    ExitObservation(wrapper, now);
    TaskObservationsAre(log, Some(wrapper), now);
    assert exit in observations && Counts(exit, now, "primary");
    SpokenForIfSeen(observations, now, "primary");
    var o :| SpokenFor(observations, now, "primary", o);
    SpeakerIsCounted(observations, now, "primary", o);
    if IsRunObservation(log, now, o) {
      RunObservationReports(log, now, o);
    }
    assert o == exit;
  }

  lemma {:induction false} DelegatingIsBusy(log: Log, wrapper: Option<AgentRuntimeSnapshot>, now: int)
    ensures Delegating(TaskObservations(log, wrapper, now), now, "primary") <==> DelegatedBusy(log, now)
  {
    var observations := TaskObservations(log, wrapper, now);
    TaskObservationsAre(log, wrapper, now);
    if Delegating(observations, now, "primary") {
      var o :| o in observations && o.expiresAt >= now && o.runId != "primary" && o.parentRunId == Some("primary")
               && Occupied(observations, now, o.runId);
      DelegatedReports(log, wrapper, now, o);
    }
    if DelegatedBusy(log, now) {
      var runId, kind :|
        && runId != "primary" && RunEvents(log, runId) != [] && ParentOf(RunEvents(log, runId)[0]) == Some("primary")
        && Reports(log, now, runId, kind) && !Ends(kind);
      var o := ReportIsObserved(log, now, runId, kind);
      RunObservationReports(log, now, o);
      RunSpokenFor(log, wrapper, now, runId, o);
      assert o in observations && Occupied(observations, now, o.runId);
    }
  }

  lemma {:induction false} DelegatedReports(
    log: Log, wrapper: Option<AgentRuntimeSnapshot>, now: int, o: AgentStatus.StatusObservation)
    requires o in TaskObservations(log, wrapper, now) && o.expiresAt >= now
    requires o.runId != "primary" && o.parentRunId == Some("primary")
    requires Occupied(TaskObservations(log, wrapper, now), now, o.runId)
    ensures DelegatedBusy(log, now)
  {
    TaskObservationsAre(log, wrapper, now);
    if JustExited(wrapper, now) {
      ExitObservation(wrapper.value, now);
    }
    assert IsRunObservation(log, now, o);
    RunObservationReports(log, now, o);
    NeverDisputed(log, wrapper, now, o.runId);
    var p :| SpokenFor(TaskObservations(log, wrapper, now), now, o.runId, p) && !Ends(p.kind);
    RunSpokenFor(log, wrapper, now, o.runId, p);
    OneOfEachRun(log, now, o, p);
  }

  lemma {:induction false} PrimarySeen(log: Log, wrapper: Option<AgentRuntimeSnapshot>, now: int)
    requires !JustExited(wrapper, now)
    ensures Seen(TaskObservations(log, wrapper, now), now, "primary") <==> exists kind :: Reports(log, now, "primary", kind)
  {
    TaskObservationsAre(log, wrapper, now);
    if o :| o in TaskObservations(log, wrapper, now) && Counts(o, now, "primary") {
      RunObservationReports(log, now, o);
    }
    if kind :| Reports(log, now, "primary", kind) {
      var o := ReportIsObserved(log, now, "primary", kind);
      assert o in TaskObservations(log, wrapper, now) && Counts(o, now, "primary");
    }
  }

  /**
   Exactly what is shown of a task: its wrapper's exit for two minutes; otherwise what the primary run's
   events tell, for as long as that counts; otherwise only whether delegated runs are at it.
   */
  lemma {:induction false} StatusTold(log: Log, wrapper: Option<AgentRuntimeSnapshot>, now: int)
    ensures
      var p, busy := TaskStatus(log, wrapper, now), DelegatedBusy(log, now);
      && (JustExited(wrapper, now) ==>
            && ReadsAs(p, if wrapper.value.state.ExitedSuccess? then AgentStatus.Done else AgentStatus.Failed, busy)
            && p.selectedSource == Some(AgentStatus.ProcessExit))
      && (!JustExited(wrapper, now) ==> forall kind :: Reports(log, now, "primary", kind) ==>
            ReadsAs(p, kind, busy) && p.selectedSource == Some(AgentStatus.ProviderLifecycle))
      && (!JustExited(wrapper, now) && (forall kind :: !Reports(log, now, "primary", kind)) ==>
            && p.selectedSource == None
            && if busy then Reads(p, AgentStatus.LiveWaitingForInput, "waiting on delegated runs", AgentStatus.WaitingOnDelegated)
               else Reads(p, AgentStatus.LiveUnknown, "unknown agent status", AgentStatus.PhaseUnknown))
      && (p.processAlive <==> JustAlive(wrapper, now))
  {
    var liveness := if wrapper.Some? then LivenessOf(wrapper.value) else None;
    WhatIsShown(now, "primary", liveness, TaskObservations(log, wrapper, now));
    NeverDisputed(log, wrapper, now, "primary");
    DelegatingIsBusy(log, wrapper, now);
    if JustExited(wrapper, now) {
      ExitObservation(wrapper.value, now);
      ExitSpeaks(log, wrapper.value, now);
    } else {
      PrimarySeen(log, wrapper, now);
      forall kind | Reports(log, now, "primary", kind)
        ensures exists o :: SpokenFor(TaskObservations(log, wrapper, now), now, "primary", o)
                            && o.kind == kind && o.source.ProviderLifecycle?
      {
        var o := ReportIsObserved(log, now, "primary", kind);
        RunObservationReports(log, now, o);
        RunSpokenFor(log, wrapper, now, "primary", o);
      }
    }
  }
}
