/**
 The status that is shown, read off the list of observations: which of them speaks for a run, what
 silences it, and what each kind is shown as (crates/ajax-core/src/agent_status.rs:66-75, 140-349).
 */
module StatusShown {
  import opened Options
  import opened AgentStatus
  import opened Sequences

  type Observations = seq<StatusObservation>

  // Kinds.

  predicate Runs(k: ActivityKind) {
    k.Working? || k.CommandRunning? || k.TestsRunning?
  }

  predicate Waits(k: ActivityKind) {
    k.WaitingInput? || k.WaitingApproval?
  }

  predicate Ends(k: ActivityKind) {
    k.Done? || k.Failed?
  }

  /** Running says more than waiting for input, that more than waiting for approval, and that more than an end. */
  predicate SaysMore(a: ActivityKind, b: ActivityKind) {
    || (Runs(a) && !Runs(b))
    || (a.WaitingInput? && (b.WaitingApproval? || Ends(b)))
    || (a.WaitingApproval? && Ends(b))
  }

  // Observations.

  /** The exit of the process outranks the provider, and the provider the pane; of one source the later one does. */
  predicate Outranks(a: StatusObservation, b: StatusObservation) {
    || (a.source.ProcessExit? && !b.source.ProcessExit?)
    || (a.source.ProviderLifecycle? && b.source.PaneEvidence?)
    || (a.source == b.source && a.observedAt > b.observedAt)
    || (a.source == b.source && a.observedAt == b.observedAt && SaysMore(a.kind, b.kind))
  }

  /** At one instant the provider and the pane tell of different classes. */
  predicate Clash(a: StatusObservation, b: StatusObservation) {
    && a.source.ProviderLifecycle? && b.source.PaneEvidence? && a.observedAt == b.observedAt
    && !(Runs(a.kind) && Runs(b.kind)) && !(Waits(a.kind) && Waits(b.kind)) && !(Ends(a.kind) && Ends(b.kind))
  }

  predicate Counts(o: StatusObservation, now: int, runId: string) {
    o.expiresAt >= now && o.runId == runId
  }

  // Runs.

  ghost predicate Seen(observations: Observations, now: int, runId: string) {
    exists o :: o in observations && Counts(o, now, runId)
  }

  ghost predicate Disputed(observations: Observations, now: int, runId: string) {
    exists a, b :: a in observations && b in observations && Counts(a, now, runId) && Counts(b, now, runId) && Clash(a, b)
  }

  /** The i-th observation speaks for the run: it outranks those before it, and none after it outranks it. */
  ghost predicate Speaks(observations: Observations, now: int, runId: string, i: nat)
    requires i < |observations|
  {
    && Counts(observations[i], now, runId)
    && (forall j :: 0 <= j < i && Counts(observations[j], now, runId) ==> Outranks(observations[i], observations[j]))
    && (forall j :: i < j < |observations| && Counts(observations[j], now, runId) ==>
          !Outranks(observations[j], observations[i]))
  }

  ghost predicate SpokenFor(observations: Observations, now: int, runId: string, o: StatusObservation) {
    exists i :: 0 <= i < |observations| && observations[i] == o && Speaks(observations, now, runId, i)
  }

  ghost predicate Occupied(observations: Observations, now: int, runId: string) {
    Disputed(observations, now, runId) || exists o :: SpokenFor(observations, now, runId, o) && !Ends(o.kind)
  }

  /** A run the primary run delegated to is disputed or has not ended. */
  ghost predicate Delegating(observations: Observations, now: int, primary: string) {
    exists o :: o in observations && o.expiresAt >= now && o.runId != primary && o.parentRunId == Some(primary)
             && Occupied(observations, now, o.runId)
  }

  // What is shown.

  predicate Reads(p: StatusProjection, liveKind: LiveKind, summary: string, phase: ParentPhase) {
    p.liveKind == liveKind && p.summary == summary && p.phase == phase
  }

  predicate ReadsAs(p: StatusProjection, kind: ActivityKind, delegating: bool) {
    match kind
    case Working => Reads(p, LiveAgentRunning, "agent running", ActivelyWorking)
    case CommandRunning => Reads(p, LiveCommandRunning, "command running", ActivelyWorking)
    case TestsRunning => Reads(p, LiveTestsRunning, "tests running", ActivelyWorking)
    case WaitingApproval => Reads(p, LiveWaitingForApproval, "waiting for approval", WaitingForUser)
    case WaitingInput => Reads(p, LiveWaitingForInput, "waiting for input", WaitingForUser)
    case Done =>
      if delegating then Reads(p, LiveWaitingForInput, "delegated runs still active", CompletedLocallyChildrenActive)
      else Reads(p, LiveDone, "done", FullyCompleted)
    case Failed =>
      if delegating then Reads(p, LiveWaitingForInput, "delegated runs still active", CompletedLocallyChildrenActive)
      else Reads(p, LiveCommandFailed, "agent failed", FullyCompleted)
  }

  // The reducer agrees.

  lemma {:induction false} BetterOutranks(a: StatusObservation, b: StatusObservation)
    ensures Better(a, b) <==> Outranks(a, b)
  {
  }

  lemma {:induction false} ContradictionClashes(a: StatusObservation, b: StatusObservation)
    ensures Contradict(a, b) <==> Clash(a, b) || Clash(b, a)
  {
  }

  lemma {:induction false} OwnAreCounted(observations: Observations, now: int, runId: string)
    ensures forall o :: o in OfRun(Fresh(observations, now), runId) <==> o in observations && Counts(o, now, runId)
  {
    FreshIsUnexpired(observations, now);
    OfRunIsFilter(Fresh(observations, now), runId);
  }

  lemma {:induction false} OwnNext(observations: Observations, now: int, runId: string)
    requires observations != []
    ensures
      var init, last := observations[..|observations| - 1], observations[|observations| - 1];
      OfRun(Fresh(observations, now), runId)
      == OfRun(Fresh(init, now), runId) + if Counts(last, now, runId) then [last] else []
  {
    var init, last := observations[..|observations| - 1], observations[|observations| - 1];
    if last.expiresAt >= now {
      assert Fresh(observations, now)[..|Fresh(init, now)|] == Fresh(init, now);
    } else {
      assert Fresh(observations, now) == Fresh(init, now);
    }
  }

  lemma {:induction false} OutranksIsAnOrder(a: StatusObservation, b: StatusObservation, c: StatusObservation)
    ensures Outranks(a, b) && !Outranks(c, b) ==> Outranks(a, c)
    ensures Outranks(a, b) && Outranks(b, c) ==> Outranks(a, c)
  {
  }

  lemma {:induction false} LastSpeaks(observations: Observations, now: int, runId: string, i: nat)
    requires i < |observations| - 1
    requires Speaks(observations[..|observations| - 1], now, runId, i)
    requires Counts(observations[|observations| - 1], now, runId)
    requires Outranks(observations[|observations| - 1], observations[i])
    ensures Speaks(observations, now, runId, |observations| - 1)
  {
    var last := observations[|observations| - 1];
    var init := observations[..|observations| - 1];
    forall j | 0 <= j < |init| && Counts(observations[j], now, runId)
      ensures Outranks(last, observations[j])
    {
      assert init[j] == observations[j];
      OutranksIsAnOrder(last, observations[i], observations[j]);
    }
  }

  /** An observation that does not count, or does not outrank, leaves the speaker in place. */
  lemma {:induction false} SpeakerStays(observations: Observations, now: int, runId: string, i: nat)
    requires i < |observations| - 1
    requires Speaks(observations[..|observations| - 1], now, runId, i)
    requires
      var last := observations[|observations| - 1];
      Counts(last, now, runId) ==> !Outranks(last, observations[i])
    ensures Speaks(observations, now, runId, i)
  {
    var init := observations[..|observations| - 1];
    assert forall j :: 0 <= j < |init| ==> init[j] == observations[j];
  }

  lemma {:induction false} FirstSpeaks(observations: Observations, now: int, runId: string)
    requires observations != [] && Counts(observations[|observations| - 1], now, runId)
    requires OfRun(Fresh(observations[..|observations| - 1], now), runId) == []
    ensures Speaks(observations, now, runId, |observations| - 1)
  {
    var init := observations[..|observations| - 1];
    OwnAreCounted(init, now, runId);
    assert forall j :: 0 <= j < |init| ==> init[j] == observations[j] && init[j] in init;
  }

  /** What is chosen once the last observation counts or not. */
  lemma {:induction false} FirstBestNext(
    own: seq<StatusObservation>, before: seq<StatusObservation>, last: StatusObservation, counts: bool)
    requires own == before + (if counts then [last] else []) && own != []
    ensures counts && before == [] ==> FirstBest(own) == last
    ensures before != [] ==>
      FirstBest(own) == if counts && Outranks(last, FirstBest(before)) then last else FirstBest(before)
  {
    if !counts {
      assert own == before;
    } else {
      assert own[..|own| - 1] == before;
      if before != [] {
        BetterOutranks(last, FirstBest(before));
      }
    }
  }

  /** The observation the reducer chooses for a run is the one that speaks for it. */
  lemma {:induction false} ChosenSpeaks(observations: Observations, now: int, runId: string, own: seq<StatusObservation>)
    returns (i: nat)
    requires own == OfRun(Fresh(observations, now), runId) && own != []
    ensures i < |observations| && Speaks(observations, now, runId, i)
    ensures observations[i] == FirstBest(own)
  {
    var n := |observations| - 1;
    var init, last := observations[..n], observations[n];
    var before := OfRun(Fresh(init, now), runId);
    OwnNext(observations, now, runId);
    FirstBestNext(own, before, last, Counts(last, now, runId));
    if before == [] {
      FirstSpeaks(observations, now, runId);
      i := n;
    } else {
      i := ChosenSpeaks(init, now, runId, before);
      if Counts(last, now, runId) && Outranks(last, observations[i]) {
        LastSpeaks(observations, now, runId, i);
        i := n;
      } else {
        SpeakerStays(observations, now, runId, i);
      }
    }
  }

  /** Only one observation speaks for a run. */
  lemma {:induction false} OneSpeaker(observations: Observations, now: int, runId: string, i: nat, k: nat)
    requires i < |observations| && Speaks(observations, now, runId, i)
    requires k < |observations| && Speaks(observations, now, runId, k)
    ensures i == k
  {
  }

  lemma {:induction false} SelectedForRun(observations: Observations, now: int, runId: string)
    ensures var r := SelectRunActivity(Fresh(observations, now), runId);
      && (r.None? <==> !Seen(observations, now, runId))
      && (r == Some(Conflict) <==> Disputed(observations, now, runId))
      && (Seen(observations, now, runId) && !Disputed(observations, now, runId) ==>
            exists o :: SpokenFor(observations, now, runId, o) && r == Some(Activity(o.kind, o.source, o.observedAt)))
      && (forall o :: SpokenFor(observations, now, runId, o) && !Disputed(observations, now, runId) ==>
            r == Some(Activity(o.kind, o.source, o.observedAt)))
  {
    var own := OfRun(Fresh(observations, now), runId);
    OwnAreCounted(observations, now, runId);
    DisputeMeaning(observations, now, runId);
    if own != [] {
      assert own[0] in own;
      var i := ChosenSpeaks(observations, now, runId, OfRun(Fresh(observations, now), runId));
      assert SpokenFor(observations, now, runId, observations[i]);
      forall o | SpokenFor(observations, now, runId, o)
        ensures o == observations[i]
      {
        var k :| 0 <= k < |observations| && observations[k] == o && Speaks(observations, now, runId, k);
        OneSpeaker(observations, now, runId, i, k);
      }
    }
  }

  lemma {:induction false} DisputeMeaning(observations: Observations, now: int, runId: string)
    ensures HasContradiction(OfRun(Fresh(observations, now), runId)) <==> Disputed(observations, now, runId)
  {
    var own := OfRun(Fresh(observations, now), runId);
    OwnAreCounted(observations, now, runId);
    if HasContradiction(own) {
      var a, b :| a in own && b in own && Contradict(a, b);
      ContradictionClashes(a, b);
    }
    if a, b :| a in observations && b in observations && Counts(a, now, runId) && Counts(b, now, runId) && Clash(a, b) {
      ContradictionClashes(a, b);
      assert a in own && b in own;
    }
  }

  lemma {:induction false} OccupiedMeansActive(observations: Observations, now: int, runId: string)
    ensures IsRunActive(SelectRunActivity(Fresh(observations, now), runId)) <==> Occupied(observations, now, runId)
  {
    SelectedForRun(observations, now, runId);
  }

  lemma {:induction false} DelegatingMeansBusy(observations: Observations, now: int, primary: string)
    ensures
      var current := Fresh(observations, now);
      (exists rid :: rid in ChildIds(current, primary) && IsRunActive(SelectRunActivity(current, rid)))
      <==> Delegating(observations, now, primary)
  {
    var current := Fresh(observations, now);
    FreshIsUnexpired(observations, now);
    if rid :| rid in ChildIds(current, primary) && IsRunActive(SelectRunActivity(current, rid)) {
      OccupiedMeansActive(observations, now, rid);
      var o :| o in current && o.runId != primary && o.parentRunId == Some(primary) && o.runId == rid;
      assert o in observations && Occupied(observations, now, o.runId);
    }
    if o :| o in observations && o.expiresAt >= now && o.runId != primary && o.parentRunId == Some(primary)
            && Occupied(observations, now, o.runId) {
      OccupiedMeansActive(observations, now, o.runId);
      assert o in current;
      assert o.runId in ChildIds(current, primary);
    }
  }

  lemma {:induction false} ActivityReads(a: RunActivity, delegating: bool, alive: bool)
    requires a.Activity?
    ensures var p := Projection(Some(a), delegating, alive);
      ReadsAs(p, a.kind, delegating) && p.selectedObservedAt == Some(a.observedAt) && p.selectedSource == Some(a.source)
  {
  }

  lemma {:induction false} SpokenForIfSeen(observations: Observations, now: int, runId: string)
    ensures Seen(observations, now, runId) ==> exists o :: SpokenFor(observations, now, runId, o)
  {
    if Seen(observations, now, runId) {
      OwnAreCounted(observations, now, runId);
      var i := ChosenSpeaks(observations, now, runId, OfRun(Fresh(observations, now), runId));
      assert SpokenFor(observations, now, runId, observations[i]);
    }
  }

  /**
   Exactly what is shown: the observation that speaks for the primary run by its kind, with delegated
   runs standing in for an end; unknown when the run is disputed, or unseen with nothing delegated.
   */
  lemma {:induction false} WhatIsShown(
    now: int, primary: string, liveness: Option<ProcessLiveness>, observations: Observations)
    ensures
      var p := ReduceAgentStatus(now, primary, liveness, observations);
      var delegating := Delegating(observations, now, primary);
      && (Disputed(observations, now, primary) ==> Reads(p, LiveUnknown, "unknown agent status", PhaseUnknown))
      && (!Seen(observations, now, primary) ==>
            if delegating then Reads(p, LiveWaitingForInput, "waiting on delegated runs", WaitingOnDelegated)
            else Reads(p, LiveUnknown, "unknown agent status", PhaseUnknown))
      && (Disputed(observations, now, primary) || !Seen(observations, now, primary) ==>
            p.selectedObservedAt == None && p.selectedSource == None)
      && (forall o :: SpokenFor(observations, now, primary, o) && !Disputed(observations, now, primary) ==>
            && ReadsAs(p, o.kind, delegating)
            && p.selectedObservedAt == Some(o.observedAt) && p.selectedSource == Some(o.source))
      && (Seen(observations, now, primary) ==> exists o :: SpokenFor(observations, now, primary, o))
      && (p.processAlive <==> liveness.Some? && liveness.value.alive && now - liveness.value.observedAt <= 30000)
  {
    SelectedForRun(observations, now, primary);
    DelegatingMeansBusy(observations, now, primary);
    SpokenForIfSeen(observations, now, primary);
    var r := SelectRunActivity(Fresh(observations, now), primary);
    if r.Some? && r.value.Activity? {
      ActivityReads(r.value, Delegating(observations, now, primary), liveness.Some? && IsFreshLiveness(liveness.value, now));
    }
  }
}
