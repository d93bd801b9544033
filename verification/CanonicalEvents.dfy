/**
 Folding the canonical event log of one agent run into a snapshot
 (crates/ajax-core/src/canonical_agent_event.rs).
 */
module CanonicalEvents {
  import opened Options
  import AgentStatus

  const LIFECYCLE_FRESH_FOR: int := 30 * 60 * 1000
  const LIFECYCLE_TERMINAL_FRESH_FOR: int := 365 * 24 * 3600 * 1000

  datatype EventKind =
    | TurnStarted | ActivityStarted | ActivityFinished | AttentionRequested | AttentionCleared | TurnSettled
    | SessionOpened | SessionClosed | ChildStarted | ChildSettled | Heartbeat

  datatype AttentionReason = Permission | Question

  datatype TurnOutcome = Completed | Interrupted | TurnFailed | OutcomeUnknown

  /** The only activity there is is running a tool. */
  datatype ActivityKind = Tool

  datatype Detail =
    | Activity(activity: ActivityKind, activityId: Option<string>)
    | Attention(attention: AttentionReason)
    | Outcome(outcome: TurnOutcome)

  datatype ParsedEnvelope = ParsedEnvelope(
    kind: EventKind, detail: Option<Detail>, receivedAtUnixMillis: nat,
    runId: Option<string>, parentRunId: Option<string>)

  datatype AgentPhase = Active | Blocked | Settled | Failed | Unknown

  datatype Folded = Folded(
    phase: AgentPhase, activity: Option<ActivityKind>, blocker: Option<AttentionReason>, outcome: Option<TurnOutcome>,
    activeTools: set<string>, pendingAttention: Option<AttentionReason>, turnStarted: bool, turnSettled: bool)

  const Empty := Folded(Unknown, None, None, None, {}, None, false, false)

  predicate IsAnonymous(id: string) {
    "anon-" <= id
  }

  function ActivityOf(e: ParsedEnvelope): Option<Detail> {
    if e.detail.Some? && e.detail.value.Activity? then e.detail else None
  }

  function ClearedAttention(s: Folded): Folded {
    s.(pendingAttention := None, blocker := None,
       phase := if s.phase.Blocked? && !s.turnSettled then Active else s.phase)
  }

  function OutcomeOf(e: ParsedEnvelope): TurnOutcome {
    if e.detail.Some? && e.detail.value.Outcome? then e.detail.value.outcome else OutcomeUnknown
  }

  function AfterTurnSettled(s: Folded, outcome: TurnOutcome): Folded {
    s.(turnSettled := true, outcome := Some(outcome),
       phase := if outcome.TurnFailed? then Failed else if s.activeTools != {} then Active else Settled)
  }

  function ToolsFinished(tools: set<string>, detail: Option<Detail>): set<string> {
    if detail.None? then tools
    else if detail.value.Activity? && detail.value.activityId.Some? then tools - {detail.value.activityId.value}
    else if detail.value.Activity? then set id | id in tools && !IsAnonymous(id)
    else tools
  }

  function AfterFinished(s: Folded, e: ParsedEnvelope): Folded {
    var tools := ToolsFinished(s.activeTools, ActivityOf(e));
    if tools != {} then s.(activeTools := tools)
    else
      s.(activeTools := tools, activity := None,
         phase :=
           if s.turnSettled && !s.phase.Failed? then if s.pendingAttention.Some? then Blocked else Settled
           else if s.pendingAttention.None? && s.turnStarted then Active
           else s.phase)
  }

  function Step(s: Folded, e: ParsedEnvelope): Folded {
    match e.kind
    case TurnStarted => ClearedAttention(s.(turnStarted := true)).(phase := Active)
    case ActivityStarted =>
      if ActivityOf(e).None? then s
      else
        var id := ActivityOf(e).value.activityId;
        s.(activeTools := if id.Some? then s.activeTools + {id.value} else s.activeTools,
           activity := Some(Tool), phase := Active)
    case ActivityFinished => AfterFinished(s, e)
    case AttentionRequested =>
      if e.detail.Some? && e.detail.value.Attention? then
        s.(pendingAttention := Some(e.detail.value.attention), blocker := Some(e.detail.value.attention), phase := Blocked)
      else s
    case AttentionCleared => ClearedAttention(s)
    case TurnSettled => AfterTurnSettled(s, OutcomeOf(e))
    case SessionOpened | ChildStarted => s.(phase := Active)
    case SessionClosed =>
      s.(activeTools := {}, activity := None, phase := if s.phase.Failed? then Failed else Settled)
    case ChildSettled | Heartbeat => s
  }

  function Fold(events: seq<ParsedEnvelope>): Folded {
    if events == [] then Empty else Step(Fold(events[..|events| - 1]), events[|events| - 1])
  }

  /** The mutable fold state of the source. */
  class FoldState {
    var phase: AgentPhase
    var activity: Option<ActivityKind>
    var blocker: Option<AttentionReason>
    var outcome: Option<TurnOutcome>
    var activeTools: set<string>
    var pendingAttention: Option<AttentionReason>
    var turnStarted: bool
    var turnSettled: bool

    function State(): Folded
      reads this
    {
      Folded(phase, activity, blocker, outcome, activeTools, pendingAttention, turnStarted, turnSettled)
    }

    constructor ()
      ensures State() == Empty
    {
      phase, activity, blocker, outcome := Unknown, None, None, None;
      activeTools, pendingAttention, turnStarted, turnSettled := {}, None, false, false;
    }

    method ClearPendingAttention()
      modifies this
      ensures State() == ClearedAttention(old(State()))
    {
      pendingAttention := None;
      blocker := None;
      if phase.Blocked? && !turnSettled {
        phase := Active;
      }
    }

    method ApplyTurnSettled(settled: TurnOutcome)
      modifies this
      ensures State() == AfterTurnSettled(old(State()), settled)
    {
      turnSettled := true;
      outcome := Some(settled);
      if settled.TurnFailed? {
        phase := Failed;
        return;
      }
      phase := if activeTools != {} then Active else Settled;
    }

    method FinishActivity(e: ParsedEnvelope)
      modifies this
      ensures State() == AfterFinished(old(State()), e)
    {
      if e.detail.Some? && e.detail.value.Activity? {
        var id := e.detail.value.activityId;
        if id.Some? {
          activeTools := activeTools - {id.value};
        } else {
          activeTools := set tool | tool in activeTools && !IsAnonymous(tool);
        }
      }
      if activeTools == {} {
        activity := None;
        if turnSettled && !phase.Failed? {
          phase := if pendingAttention.Some? then Blocked else Settled;
        } else if pendingAttention.None? && (turnStarted || activeTools != {}) {
          phase := Active;
        }
      }
    }

    method Apply(e: ParsedEnvelope)
      modifies this
      ensures State() == Step(old(State()), e)
    {
      match e.kind {
        case TurnStarted =>
          turnStarted := true;
          ClearPendingAttention();
          phase := Active;
        case ActivityStarted =>
          if e.detail.Some? && e.detail.value.Activity? {
            if e.detail.value.activityId.Some? {
              activeTools := activeTools + {e.detail.value.activityId.value};
            }
            activity := Some(Tool);
            phase := Active;
          }
        case ActivityFinished =>
          FinishActivity(e);
        case AttentionRequested =>
          if e.detail.Some? && e.detail.value.Attention? {
            pendingAttention := Some(e.detail.value.attention);
            blocker := Some(e.detail.value.attention);
            phase := Blocked;
          }
        case AttentionCleared =>
          ClearPendingAttention();
        case TurnSettled =>
          ApplyTurnSettled(OutcomeOf(e));
        case SessionOpened | ChildStarted =>
          phase := Active;
        case SessionClosed =>
          activeTools := {};
          activity := None;
          if !phase.Failed? {
            phase := Settled;
          }
        case ChildSettled | Heartbeat =>
      }
    }
  }

  method FoldEnvelopes(events: seq<ParsedEnvelope>) returns (snapshot: Folded)
    ensures snapshot == Fold(events)
  {
    var state := new FoldState();
    for i := 0 to |events|
      invariant fresh(state)
      invariant state.State() == Fold(events[..i])
    {
      assert events[..i + 1][..i] == events[..i];
      if !events[i].kind.Heartbeat? {
        state.Apply(events[i]);
      }
    }
    assert events[..|events|] == events;
    snapshot := state.State();
  }

  // Tools.

  predicate Starts(e: ParsedEnvelope, id: string) {
    e.kind.ActivityStarted? && e.detail == Some(Activity(Tool, Some(id)))
  }

  predicate Finishes(e: ParsedEnvelope, id: string) {
    || e.kind.SessionClosed?
    || (e.kind.ActivityFinished? && e.detail == Some(Activity(Tool, Some(id))))
    || (e.kind.ActivityFinished? && e.detail == Some(Activity(Tool, None)) && "anon-" <= id)
  }

  /** Some event starts the tool and nothing after it finishes it. */
  ghost predicate StartedLast(events: seq<ParsedEnvelope>, id: string) {
    exists k :: 0 <= k < |events| && Starts(events[k], id) && forall j :: k < j < |events| ==> !Finishes(events[j], id)
  }

  lemma {:induction false} StartedLastNext(events: seq<ParsedEnvelope>, e: ParsedEnvelope, id: string)
    ensures StartedLast(events + [e], id) <==> Starts(e, id) || (StartedLast(events, id) && !Finishes(e, id))
  {
    var all := events + [e];
    if Starts(e, id) {
      assert Starts(all[|events|], id);
    }
    if StartedLast(events, id) && !Finishes(e, id) {
      var k :| 0 <= k < |events| && Starts(events[k], id) && forall j :: k < j < |events| ==> !Finishes(events[j], id);
      assert Starts(all[k], id);
    }
    if StartedLast(all, id) {
      var k :| 0 <= k < |all| && Starts(all[k], id) && forall j :: k < j < |all| ==> !Finishes(all[j], id);
      if k < |events| {
        assert Starts(events[k], id) && !Finishes(all[|events|], id);
        assert forall j :: k < j < |events| ==> all[j] == events[j];
      }
    }
  }

  lemma {:induction false} StepTools(s: Folded, e: ParsedEnvelope, id: string)
    ensures id in Step(s, e).activeTools <==> Starts(e, id) || (id in s.activeTools && !Finishes(e, id))
  {
    if e.detail.Some? && e.detail.value.Activity? {
      match e.detail.value.activity
      case Tool =>
    }
  }

  lemma {:induction false} EmptyStaysEmpty(e: ParsedEnvelope)
    ensures Step(Empty, e) == Empty <==> Step(Empty, e).phase.Unknown?
    ensures Step(Empty, e).phase.Unknown? <==> !SetsPhase(e)
  {
    assert ToolsFinished({}, ActivityOf(e)) == {};
  }

  /** A tool is open exactly when the last event that concerns it is its start. */
  lemma {:induction false} OpenTools(events: seq<ParsedEnvelope>, id: string)
    ensures id in Fold(events).activeTools <==> StartedLast(events, id)
  {
    if events != [] {
      var init, e := events[..|events| - 1], events[|events| - 1];
      assert events == init + [e];
      OpenTools(init, id);
      StepTools(Fold(init), e, id);
      StartedLastNext(init, e, id);
    }
  }

  // Phases.

  ghost predicate WellFolded(s: Folded, events: seq<ParsedEnvelope>) {
    && (s.phase.Settled? ==> s.activeTools == {})
    && s.blocker == s.pendingAttention
    && (s.turnSettled <==> exists e :: e in events && e.kind.TurnSettled?)
    && (s.turnStarted <==> exists e :: e in events && e.kind.TurnStarted?)
    && (s.phase.Blocked? ==> s.pendingAttention.Some? || s.turnSettled)
    && (s.activity.None? ==> s.activeTools == {})
  }

  /**
   Over every event sequence: a settled run has no open tool, the blocker is the pending attention,
   and a blocked run has pending attention or an earlier settled turn.
   */
  lemma {:induction false} FoldIsWellFormed(events: seq<ParsedEnvelope>)
    ensures WellFolded(Fold(events), events)
  {
    if events != [] {
      var init, e := events[..|events| - 1], events[|events| - 1];
      assert events == init + [e];
      FoldIsWellFormed(init);
      StepIsWellFormed(Fold(init), init, e);
    }
  }

  lemma {:induction false} StepIsWellFormed(s: Folded, events: seq<ParsedEnvelope>, e: ParsedEnvelope)
    requires WellFolded(s, events)
    ensures WellFolded(Step(s, e), events + [e])
  {
    assert forall x :: x in events + [e] <==> x in events || x == e;
    assert Step(s, e).turnSettled == (s.turnSettled || e.kind.TurnSettled?);
    assert Step(s, e).turnStarted == (s.turnStarted || e.kind.TurnStarted?);
  }

  /** The events that give a run a phase. */
  predicate SetsPhase(e: ParsedEnvelope) {
    || e.kind.TurnStarted? || e.kind.TurnSettled? || e.kind.SessionOpened? || e.kind.SessionClosed? || e.kind.ChildStarted?
    || (e.kind.ActivityStarted? && ActivityOf(e).Some?)
    || (e.kind.AttentionRequested? && e.detail.Some? && e.detail.value.Attention?)
  }

  lemma {:induction false} UnknownIsUntouched(events: seq<ParsedEnvelope>)
    ensures Fold(events).phase.Unknown? <==> forall e :: e in events ==> !SetsPhase(e)
    ensures Fold(events).phase.Unknown? ==> Fold(events) == Empty
  {
    if events != [] {
      var init, e := events[..|events| - 1], events[|events| - 1];
      assert events == init + [e];
      UnknownIsUntouched(init);
      EmptyStaysEmpty(e);
      assert forall x :: x in events <==> x in init || x == e;
    }
  }

  /** Once a run has a phase, no further event makes it unknown again. */
  lemma {:induction false} PhaseNeverUnknownAgain(earlier: seq<ParsedEnvelope>, later: seq<ParsedEnvelope>)
    requires !Fold(earlier).phase.Unknown?
    ensures !Fold(earlier + later).phase.Unknown?
  {
    UnknownIsUntouched(earlier);
    UnknownIsUntouched(earlier + later);
    assert forall e :: e in earlier ==> e in earlier + later;
  }

  predicate IsIdle(e: ParsedEnvelope) {
    e.kind.Heartbeat? || e.kind.ChildSettled?
  }

  function WithoutIdle(events: seq<ParsedEnvelope>): seq<ParsedEnvelope> {
    if events == [] then []
    else WithoutIdle(events[..|events| - 1]) + if IsIdle(events[|events| - 1]) then [] else [events[|events| - 1]]
  }

  /** Heartbeats and settled children can be deleted from the log without effect. */
  lemma {:induction false} IdleEventsDoNotCount(events: seq<ParsedEnvelope>)
    ensures Fold(WithoutIdle(events)) == Fold(events)
  {
    if events != [] {
      var init, e := events[..|events| - 1], events[|events| - 1];
      IdleEventsDoNotCount(init);
      if IsIdle(e) {
        assert WithoutIdle(events) == WithoutIdle(init);
      } else {
        assert WithoutIdle(events)[..|WithoutIdle(init)|] == WithoutIdle(init);
      }
    }
  }

  // Observations.

  function KindOf(s: Folded): AgentStatus.ActivityKind
    requires !s.phase.Unknown?
  {
    match s.phase
    case Active => AgentStatus.Working
    case Blocked =>
      if s.pendingAttention == Some(Permission) || s.blocker == Some(Permission) then AgentStatus.WaitingApproval
      else AgentStatus.WaitingInput
    case Settled => AgentStatus.Done
    case Failed => AgentStatus.Failed
  }

  /** At most one lifecycle observation comes out of a run. */
  function ObservationOf(s: Folded, now: int, runId: string, parentRunId: Option<string>)
    : Option<AgentStatus.StatusObservation>
  {
    if s.phase.Unknown? then None
    else
      var kind := KindOf(s);
      var freshFor := if kind.Done? || kind.Failed? then LIFECYCLE_TERMINAL_FRESH_FOR else LIFECYCLE_FRESH_FOR;
      Some(AgentStatus.StatusObservation(
        AgentStatus.ProviderLifecycle, now, now + freshFor, AgentStatus.High, runId, parentRunId, kind))
  }

  /**
   A run is reported as done only when no tool started in it is still open, and as waiting only
   when an attention request is pending or its turn has settled.
   */
  lemma {:induction false} ObservationMeaning(
    events: seq<ParsedEnvelope>, now: int, runId: string, parent: Option<string>, id: string)
    requires ObservationOf(Fold(events), now, runId, parent).Some?
    ensures var o := ObservationOf(Fold(events), now, runId, parent).value;
      && (o.kind.Done? ==> !StartedLast(events, id))
      && (o.kind.WaitingApproval? ==> Fold(events).pendingAttention == Some(Permission))
      && (o.kind.WaitingInput? ==>
            Fold(events).pendingAttention == Some(Question) || exists e :: e in events && e.kind.TurnSettled?)
  {
    OpenTools(events, id);
    FoldIsWellFormed(events);
    match Fold(events).pendingAttention
    case None =>
    case Some(Permission) =>
    case Some(Question) =>
  }
}
