/**
 What a run's log says of it: phase, pending attention, activity and outcome, each told from the events
 that decide it (crates/ajax-core/src/canonical_agent_event.rs:134-295).
 */
module EventPhases {
  import opened Options
  import opened CanonicalEvents
  import opened Sequences
  import AgentStatus

  type Log = seq<ParsedEnvelope>

  /** What an event does, given the events before it. */
  type Effect = (Log, ParsedEnvelope) -> bool

  /** Some event set it, and no later one unset it. */
  ghost predicate Holds(events: Log, sets: Effect, unsets: Effect) {
    exists k :: 0 <= k < |events| && StandsSince(events, sets, unsets, k)
  }

  ghost predicate StandsSince(events: Log, sets: Effect, unsets: Effect, k: nat)
    requires k < |events|
  {
    sets(events[..k], events[k]) && forall j :: k < j < |events| ==> !unsets(events[..j], events[j])
  }

  lemma {:induction false} HoldsNext(events: Log, e: ParsedEnvelope, sets: Effect, unsets: Effect)
    ensures Holds(events + [e], sets, unsets) <==> sets(events, e) || (Holds(events, sets, unsets) && !unsets(events, e))
  {
    var all := events + [e];
    assert all[..|events|] == events && all[|events|] == e;
    forall j | 0 <= j < |events|
      ensures all[..j] == events[..j] && all[j] == events[j]
    {
    }
    if sets(events, e) {
      assert StandsSince(all, sets, unsets, |events|);
    } else if Holds(events, sets, unsets) && !unsets(events, e) {
      var k :| 0 <= k < |events| && StandsSince(events, sets, unsets, k);
      assert StandsSince(all, sets, unsets, k);
    } else if Holds(all, sets, unsets) {
      var k :| 0 <= k < |all| && StandsSince(all, sets, unsets, k);
      assert k != |events|;
      assert StandsSince(events, sets, unsets, k);
    }
  }

  // The events.

  predicate AsksFor(e: ParsedEnvelope, reason: AttentionReason) {
    e.kind.AttentionRequested? && e.detail == Some(Attention(reason))
  }

  predicate Asks(e: ParsedEnvelope) {
    e.kind.AttentionRequested? && e.detail.Some? && e.detail.value.Attention?
  }

  predicate StartsTool(e: ParsedEnvelope) {
    e.kind.ActivityStarted? && e.detail.Some? && e.detail.value.Activity?
  }

  predicate SettlesAs(e: ParsedEnvelope, outcome: TurnOutcome) {
    e.kind.TurnSettled?
    && (if e.detail.Some? && e.detail.value.Outcome? then e.detail.value.outcome == outcome else outcome.OutcomeUnknown?)
  }

  /** The events that make a run active whatever came before. */
  predicate Wakes(e: ParsedEnvelope) {
    e.kind.TurnStarted? || StartsTool(e) || e.kind.SessionOpened? || e.kind.ChildStarted?
  }

  // What the events up to now say.

  ghost predicate NoToolOpen(events: Log) {
    forall id :: !StartedLast(events, id)
  }

  predicate TurnBegun(events: Log) {
    exists e :: e in events && e.kind.TurnStarted?
  }

  predicate TurnOver(events: Log) {
    exists e :: e in events && e.kind.TurnSettled?
  }

  ghost predicate PendingFor(events: Log, reason: AttentionReason) {
    Holds(events, AskingFor(reason), Overtakes)
  }

  function AskingFor(reason: AttentionReason): Effect {
    (before: Log, e: ParsedEnvelope) => AsksFor(e, reason)
  }

  predicate Overtakes(before: Log, e: ParsedEnvelope) {
    Asks(e) || e.kind.TurnStarted? || e.kind.AttentionCleared?
  }

  ghost predicate Pending(events: Log) {
    PendingFor(events, Permission) || PendingFor(events, Question)
  }

  /** A finish after which no tool is open. */
  ghost predicate FinishesLast(before: Log, e: ParsedEnvelope) {
    e.kind.ActivityFinished? && NoToolOpen(before + [e])
  }

  ghost predicate RunFailed(events: Log) {
    Holds(events, Fails, MovesOn)
  }

  predicate Fails(before: Log, e: ParsedEnvelope) {
    SettlesAs(e, TurnFailed)
  }

  /** What takes a run out of failure. */
  ghost predicate MovesOn(before: Log, e: ParsedEnvelope) {
    || Wakes(e) || Asks(e) || e.kind.TurnSettled?
    || (FinishesLast(before, e) && TurnBegun(before) && !Pending(before))
  }

  ghost predicate RunBlocked(events: Log) {
    Holds(events, Blocks, Unblocks)
  }

  /** A request, or a last finish after a settled turn that leaves a request pending. */
  ghost predicate Blocks(before: Log, e: ParsedEnvelope) {
    || Asks(e)
    || (FinishesLast(before, e) && TurnOver(before) && Pending(before) && !RunFailed(before))
  }

  ghost predicate Unblocks(before: Log, e: ParsedEnvelope) {
    || Wakes(e) || e.kind.TurnSettled? || e.kind.SessionClosed?
    || (e.kind.AttentionCleared? && !TurnOver(before))
    || (FinishesLast(before, e) && !Pending(before) && (TurnOver(before) || TurnBegun(before)))
  }

  ghost predicate RunSettled(events: Log) {
    Holds(events, Settles, Unsettles)
  }

  /** A turn that settles without failing and without an open tool, a last finish after one, or the session's end. */
  ghost predicate Settles(before: Log, e: ParsedEnvelope) {
    || (e.kind.TurnSettled? && !SettlesAs(e, TurnFailed) && NoToolOpen(before))
    || (FinishesLast(before, e) && TurnOver(before) && !Pending(before) && !RunFailed(before))
    || (e.kind.SessionClosed? && !RunFailed(before))
  }

  ghost predicate Unsettles(before: Log, e: ParsedEnvelope) {
    || Wakes(e) || Asks(e)
    || (e.kind.TurnSettled? && (SettlesAs(e, TurnFailed) || !NoToolOpen(before)))
    || (FinishesLast(before, e) && (if TurnOver(before) then Pending(before) else TurnBegun(before) && !Pending(before)))
  }

  ghost predicate RunActive(events: Log) {
    Holds(events, Activates, Deactivates)
  }

  /**
   A waking event, a turn that settles while a tool is open, a last finish with nothing pending in a turn
   that goes on or failed, or a request answered before any turn settled.
   */
  ghost predicate Activates(before: Log, e: ParsedEnvelope) {
    || Wakes(e)
    || (e.kind.TurnSettled? && !SettlesAs(e, TurnFailed) && !NoToolOpen(before))
    || (FinishesLast(before, e) && TurnBegun(before) && !Pending(before) && (!TurnOver(before) || RunFailed(before)))
    || (e.kind.AttentionCleared? && !TurnOver(before) && RunBlocked(before))
  }

  ghost predicate Deactivates(before: Log, e: ParsedEnvelope) {
    || Asks(e)
    || (e.kind.TurnSettled? && (SettlesAs(e, TurnFailed) || NoToolOpen(before)))
    || (FinishesLast(before, e) && TurnOver(before))
    || e.kind.SessionClosed?
  }

  /** The run uses a tool: one was started, and since then none was the last to finish and the session went on. */
  ghost predicate UsesTool(events: Log) {
    Holds(events, Uses, EndsUse)
  }

  predicate Uses(before: Log, e: ParsedEnvelope) {
    StartsTool(e)
  }

  ghost predicate EndsUse(before: Log, e: ParsedEnvelope) {
    FinishesLast(before, e) || e.kind.SessionClosed?
  }

  /** The last turn to settle did so with the outcome. */
  ghost predicate LastSettledAs(events: Log, outcome: TurnOutcome) {
    Holds(events, SettlingAs(outcome), SettlesTurn)
  }

  function SettlingAs(outcome: TurnOutcome): Effect {
    (before: Log, e: ParsedEnvelope) => SettlesAs(e, outcome)
  }

  predicate SettlesTurn(before: Log, e: ParsedEnvelope) {
    e.kind.TurnSettled?
  }

  // The fold agrees.

  lemma {:induction false} NothingHolds(sets: Effect, unsets: Effect)
    ensures !Holds([], sets, unsets)
  {
  }

  lemma {:induction false} FoldNext(events: Log, e: ParsedEnvelope)
    ensures Fold(events + [e]) == Step(Fold(events), e)
  {
    assert (events + [e])[..|events|] == events;
  }

  lemma {:induction false} ToolsTold(events: Log)
    ensures Fold(events).activeTools == {} <==> NoToolOpen(events)
  {
    forall id
      ensures id in Fold(events).activeTools <==> StartedLast(events, id)
    {
      OpenTools(events, id);
    }
  }

  lemma {:induction false} TurnsTold(events: Log)
    ensures Fold(events).turnStarted <==> TurnBegun(events)
    ensures Fold(events).turnSettled <==> TurnOver(events)
  {
    FoldIsWellFormed(events);
  }

  /** The attention pending is the reason of the last request not answered or overtaken since. */
  lemma {:induction false} PendingTold(events: Log, reason: AttentionReason)
    ensures Fold(events).pendingAttention == Some(reason) <==> PendingFor(events, reason)
  {
    if events != [] {
      var init, e := events[..|events| - 1], events[|events| - 1];
      InitAndLast(events);
      PendingTold(init, reason);
      FoldNext(init, e);
      HoldsNext(init, e, AskingFor(reason), Overtakes);
      assert PendingFor(events, reason) <==> AsksFor(e, reason) || (PendingFor(init, reason) && !Overtakes(init, e));
    }
  }

  lemma {:induction false} NothingPendingTold(events: Log)
    ensures Fold(events).pendingAttention.Some? <==> Pending(events)
  {
    PendingTold(events, Permission);
    PendingTold(events, Question);
    match Fold(events).pendingAttention
    case None =>
    case Some(Permission) =>
    case Some(Question) =>
  }

  lemma {:induction false} Context(events: Log, e: ParsedEnvelope)
    ensures Fold(events + [e]) == Step(Fold(events), e)
    ensures Fold(events).activeTools == {} <==> NoToolOpen(events)
    ensures Step(Fold(events), e).activeTools == {} <==> NoToolOpen(events + [e])
    ensures Fold(events).turnStarted <==> TurnBegun(events)
    ensures Fold(events).turnSettled <==> TurnOver(events)
    ensures Fold(events).pendingAttention.Some? <==> Pending(events)
  {
    FoldNext(events, e);
    ToolsTold(events);
    ToolsTold(events + [e]);
    TurnsTold(events);
    NothingPendingTold(events);
  }

  predicate EndsTools(s: Folded, e: ParsedEnvelope) {
    e.kind.ActivityFinished? && Step(s, e).activeTools == {}
  }

  lemma {:induction false} FailedStep(s: Folded, e: ParsedEnvelope)
    ensures Step(s, e).phase.Failed? <==>
      SettlesAs(e, TurnFailed)
      || (s.phase.Failed?
          && !(Wakes(e) || Asks(e) || e.kind.TurnSettled?
               || (EndsTools(s, e) && s.turnStarted && s.pendingAttention.None?)))
  {
  }

  lemma {:induction false} FailedNext(events: Log, e: ParsedEnvelope)
    ensures RunFailed(events + [e]) <==> Fails(events, e) || (RunFailed(events) && !MovesOn(events, e))
  {
    HoldsNext(events, e, Fails, MovesOn);
  }

  /** A run has failed exactly when a turn failed and nothing moved the run on since. */
  lemma {:induction false} FailedTold(events: Log)
    ensures Fold(events).phase.Failed? <==> RunFailed(events)
  {
    if events == [] {
      NothingHolds(Fails, MovesOn);
    } else {
      var init, e := events[..|events| - 1], events[|events| - 1];
      InitAndLast(events);
      FailedTold(init);
      Context(init, e);
      FailedStep(Fold(init), e);
      FailedNext(init, e);
    }
  }

  lemma {:induction false} BlockedStep(s: Folded, e: ParsedEnvelope)
    ensures Step(s, e).phase.Blocked? <==>
      Asks(e)
      || (EndsTools(s, e) && s.turnSettled && s.pendingAttention.Some? && !s.phase.Failed?)
      || (s.phase.Blocked?
          && !(Wakes(e) || e.kind.TurnSettled? || e.kind.SessionClosed?
               || (e.kind.AttentionCleared? && !s.turnSettled)
               || (EndsTools(s, e) && s.pendingAttention.None? && (s.turnSettled || s.turnStarted))))
  {
  }

  lemma {:induction false} BlockedNext(events: Log, e: ParsedEnvelope)
    ensures RunBlocked(events + [e]) <==> Blocks(events, e) || (RunBlocked(events) && !Unblocks(events, e))
  {
    HoldsNext(events, e, Blocks, Unblocks);
  }

  lemma {:induction false} BlockedTold(events: Log)
    ensures Fold(events).phase.Blocked? <==> RunBlocked(events)
  {
    if events == [] {
      NothingHolds(Blocks, Unblocks);
    } else {
      var init, e := events[..|events| - 1], events[|events| - 1];
      InitAndLast(events);
      BlockedTold(init);
      FailedTold(init);
      Context(init, e);
      BlockedStep(Fold(init), e);
      BlockedNext(init, e);
    }
  }

  lemma {:induction false} SettledStep(s: Folded, e: ParsedEnvelope)
    ensures Step(s, e).phase.Settled? <==>
      (e.kind.TurnSettled? && !SettlesAs(e, TurnFailed) && s.activeTools == {})
      || (EndsTools(s, e) && s.turnSettled && s.pendingAttention.None? && !s.phase.Failed?)
      || (e.kind.SessionClosed? && !s.phase.Failed?)
      || (s.phase.Settled?
          && !(Wakes(e) || Asks(e) || (e.kind.TurnSettled? && (SettlesAs(e, TurnFailed) || s.activeTools != {}))
               || (EndsTools(s, e)
                   && if s.turnSettled then s.pendingAttention.Some? else s.turnStarted && s.pendingAttention.None?)))
  {
  }

  lemma {:induction false} SettledNext(events: Log, e: ParsedEnvelope)
    ensures RunSettled(events + [e]) <==> Settles(events, e) || (RunSettled(events) && !Unsettles(events, e))
  {
    HoldsNext(events, e, Settles, Unsettles);
  }

  lemma {:induction false} SettledTold(events: Log)
    ensures Fold(events).phase.Settled? <==> RunSettled(events)
  {
    if events == [] {
      NothingHolds(Settles, Unsettles);
    } else {
      var init, e := events[..|events| - 1], events[|events| - 1];
      InitAndLast(events);
      SettledTold(init);
      FailedTold(init);
      Context(init, e);
      SettledStep(Fold(init), e);
      SettledNext(init, e);
    }
  }

  lemma {:induction false} ActiveStep(s: Folded, e: ParsedEnvelope)
    ensures Step(s, e).phase.Active? <==>
      Wakes(e)
      || (e.kind.TurnSettled? && !SettlesAs(e, TurnFailed) && s.activeTools != {})
      || (EndsTools(s, e) && s.turnStarted && s.pendingAttention.None? && (!s.turnSettled || s.phase.Failed?))
      || (e.kind.AttentionCleared? && !s.turnSettled && s.phase.Blocked?)
      || (s.phase.Active?
          && !(Asks(e) || (e.kind.TurnSettled? && (SettlesAs(e, TurnFailed) || s.activeTools == {}))
               || (EndsTools(s, e) && s.turnSettled) || e.kind.SessionClosed?))
  {
  }

  lemma {:induction false} ActiveNext(events: Log, e: ParsedEnvelope)
    ensures RunActive(events + [e]) <==> Activates(events, e) || (RunActive(events) && !Deactivates(events, e))
  {
    HoldsNext(events, e, Activates, Deactivates);
  }

  lemma {:induction false} ActiveTold(events: Log)
    ensures Fold(events).phase.Active? <==> RunActive(events)
  {
    if events == [] {
      NothingHolds(Activates, Deactivates);
    } else {
      var init, e := events[..|events| - 1], events[|events| - 1];
      InitAndLast(events);
      ActiveTold(init);
      FailedTold(init);
      BlockedTold(init);
      Context(init, e);
      ActiveStep(Fold(init), e);
      ActiveNext(init, e);
    }
  }

  lemma {:induction false} ActivityStep(s: Folded, e: ParsedEnvelope)
    ensures Step(s, e).activity == Some(Tool)
       <==> StartsTool(e) || (s.activity == Some(Tool) && !(EndsTools(s, e) || e.kind.SessionClosed?))
  {
  }

  lemma {:induction false} ActivityNext(events: Log, e: ParsedEnvelope)
    ensures UsesTool(events + [e]) <==> Uses(events, e) || (UsesTool(events) && !EndsUse(events, e))
  {
    HoldsNext(events, e, Uses, EndsUse);
  }

  lemma {:induction false} ActivityTold(events: Log)
    ensures Fold(events).activity == Some(Tool) <==> UsesTool(events)
  {
    if events == [] {
      NothingHolds(Uses, EndsUse);
    } else {
      var init, e := events[..|events| - 1], events[|events| - 1];
      InitAndLast(events);
      ActivityTold(init);
      Context(init, e);
      ActivityStep(Fold(init), e);
      ActivityNext(init, e);
    }
  }

  lemma {:induction false} OutcomeNext(events: Log, e: ParsedEnvelope, outcome: TurnOutcome)
    ensures LastSettledAs(events + [e], outcome)
       <==> SettlesAs(e, outcome) || (LastSettledAs(events, outcome) && !e.kind.TurnSettled?)
  {
    HoldsNext(events, e, SettlingAs(outcome), SettlesTurn);
  }

  lemma {:induction false} OutcomeTold(events: Log, outcome: TurnOutcome)
    ensures Fold(events).outcome == Some(outcome) <==> LastSettledAs(events, outcome)
  {
    if events == [] {
      NothingHolds(SettlingAs(outcome), SettlesTurn);
    } else {
      var init, e := events[..|events| - 1], events[|events| - 1];
      InitAndLast(events);
      OutcomeTold(init, outcome);
      FoldNext(init, e);
      OutcomeNext(init, e, outcome);
    }
  }

  // What is reported.

  /** The kind a run is reported with. */
  ghost predicate ReportedAs(events: Log, kind: AgentStatus.ActivityKind) {
    match kind
    case Working => RunActive(events)
    case Done => RunSettled(events)
    case Failed => RunFailed(events)
    case WaitingApproval => RunBlocked(events) && PendingFor(events, Permission)
    case WaitingInput => RunBlocked(events) && !PendingFor(events, Permission)
    case _ => false
  }

  predicate GivesPhase(e: ParsedEnvelope) {
    Wakes(e) || Asks(e) || e.kind.TurnSettled? || e.kind.SessionClosed?
  }

  lemma {:induction false} PhaseGivers(e: ParsedEnvelope)
    ensures SetsPhase(e) <==> GivesPhase(e)
  {
    if e.detail.Some? && e.detail.value.Attention? {
      match e.detail.value.attention
      case Permission =>
      case Question =>
    }
  }

  lemma {:induction false} NeverGivenPhase(events: Log)
    ensures Fold(events).phase.Unknown? <==> forall e :: e in events ==> !GivesPhase(e)
  {
    UnknownIsUntouched(events);
    forall e
      ensures SetsPhase(e) <==> GivesPhase(e)
    {
      PhaseGivers(e);
    }
  }

  /**
   Exactly what is reported of a run: nothing before an event gave it a phase, and then one lifecycle
   observation of the kind its events tell, fresh for half an hour, or for a year once the run ended.
   */
  lemma {:induction false} ReportTold(events: Log, now: int, runId: string, parent: Option<string>)
    ensures var r := ObservationOf(Fold(events), now, runId, parent);
      && (r.None? <==> forall e :: e in events ==> !GivesPhase(e))
      && (r.Some? ==>
            && ReportedAs(events, r.value.kind)
            && r.value.source.ProviderLifecycle? && r.value.confidence.High?
            && r.value.runId == runId && r.value.parentRunId == parent
            && r.value.observedAt == now
            && r.value.expiresAt == now + if RunSettled(events) || RunFailed(events) then 31536000000 else 1800000)
  {
    NeverGivenPhase(events);
    FailedTold(events);
    BlockedTold(events);
    SettledTold(events);
    ActiveTold(events);
    PendingTold(events, Permission);
    FoldIsWellFormed(events);
  }

  /** The kinds exclude each other, so the events tell at most one. */
  lemma {:induction false} OneKindTold(events: Log, a: AgentStatus.ActivityKind, b: AgentStatus.ActivityKind)
    requires ReportedAs(events, a) && ReportedAs(events, b)
    ensures a == b
  {
    FailedTold(events);
    BlockedTold(events);
    SettledTold(events);
    ActiveTold(events);
  }
}
