/**
 Applying live observations to a task (crates/ajax-core/src/live_application.rs).

 A task is kept as the fields these functions assign.  Attempt records and the time of last
 activity are not part of this model.
 */
module LiveApplication {
  import opened Options
  import opened Lifecycle
  import opened Live
  import Text

  datatype AgentRuntimeStatus = NotStarted | Running | Waiting | Blocked | Dead | Done | Unknown

  datatype SideFlag =
    | FlagDirty | FlagAgentRunning | FlagAgentDead | FlagNeedsInput | FlagTestsFailed | FlagTmuxMissing
    | FlagWorktreeMissing | FlagTaskWindowMissing | FlagBranchMissing | FlagStale | FlagConflicted | FlagUnpushed
  {
    predicate IsMissingSubstrate() {
      FlagTaskWindowMissing? || FlagTmuxMissing? || FlagWorktreeMissing? || FlagBranchMissing?
    }
  }

  datatype TaskState = TaskState(
    lifecycle: LifecycleStatus,
    agent: AgentRuntimeStatus,
    live: Option<LiveObservation>,
    observedAt: Option<int>,
    flags: set<SideFlag>,
    gitConflicted: bool)

  /** Both summaries and explanations of delegated waiting differ from these only by case. */
  predicate IsDelegatedWaitingSummary(summary: string) {
    var s := Text.AsciiLower(Text.Trim(summary));
    s == "waiting on delegated runs" || s == "delegated runs still active"
  }

  predicate HasMissingSubstrateFlag(flags: set<SideFlag>) {
    exists f :: f in flags && f.IsMissingSubstrate()
  }

  function MissingFlag(kind: LiveStatusKind): SideFlag
    requires kind.IsMissingSubstrate()
  {
    match kind
    case WorktreeMissing => FlagWorktreeMissing
    case TmuxMissing => FlagTmuxMissing
    case TaskWindowMissing => FlagTaskWindowMissing
  }

  predicate RefreshesActivity(kind: LiveStatusKind) {
    !kind.IsMissingSubstrate() && !kind.CiPending? && !kind.Unknown?
  }

  function StatusFor(agent: AgentRuntimeStatus, missing: bool, kind: LiveStatusKind): AgentRuntimeStatus {
    if kind.IsMissingSubstrate() then Dead
    else if kind.IsRunning() then if missing then Dead else Running
    else if kind.IsWaiting() then AgentRuntimeStatus.Waiting
    else if kind.IsFailure() then AgentRuntimeStatus.Blocked
    else if kind.ShellIdle? then
      if agent.Running? || agent.Waiting? || agent.Blocked? then Dead else NotStarted
    else if kind.Done? then AgentRuntimeStatus.Done
    else agent
  }

  function StatusAfter(t: TaskState, kind: LiveStatusKind): AgentRuntimeStatus {
    StatusFor(t.agent, HasMissingSubstrateFlag(t.flags), kind)
  }

  function Recovered(t: TaskState, kind: LiveStatusKind): set<SideFlag> {
    if !kind.MergeConflict? && !t.gitConflicted then t.flags - {FlagConflicted} else t.flags
  }

  function Applied(flags: set<SideFlag>, missing: bool, delegated: bool, kind: LiveStatusKind): set<SideFlag> {
    match kind
    case WorktreeMissing | TmuxMissing | TaskWindowMissing => flags + {MissingFlag(kind)} - {FlagAgentRunning}
    case AgentRunning | CommandRunning | TestsRunning =>
      (if missing then flags - {FlagAgentRunning} else flags + {FlagAgentRunning}) - {FlagNeedsInput} - {FlagAgentDead}
    case WaitingForApproval | WaitingForInput =>
      (if delegated then flags - {FlagNeedsInput} else flags + {FlagNeedsInput})
      - {FlagAgentRunning}
    case AuthRequired | RateLimited | ContextLimit | CommandFailed | Blocked =>
      flags + {FlagNeedsInput} - {FlagAgentRunning}
    case CiFailed => flags + {FlagTestsFailed} - {FlagNeedsInput} - {FlagAgentRunning}
    case CiPending => flags - {FlagTestsFailed}
    case MergeConflict => flags + {FlagConflicted} - {FlagNeedsInput} - {FlagAgentRunning}
    case Done => flags - {FlagAgentRunning} - {FlagNeedsInput}
    case ShellIdle | Unknown => flags - {FlagAgentRunning}
  }

  function FlagsAfter(t: TaskState, o: LiveObservation): set<SideFlag> {
    var delegated := o.kind.IsWaiting() && IsDelegatedWaitingSummary(o.summary);
    var applied := Applied(Recovered(t, o.kind), HasMissingSubstrateFlag(t.flags), delegated, o.kind);
    if RefreshesActivity(o.kind) then applied - {FlagStale} else applied
  }

  function AfterReduced(t: TaskState, o: LiveObservation, at: int): TaskState {
    t.(agent := StatusAfter(t, o.kind),
       flags := FlagsAfter(t, o),
       live := if o.kind.Unknown? then None else Some(o),
       observedAt := if o.kind.Unknown? then None else Some(at))
  }

  predicate RecoveredFromMissingSubstrate(t: TaskState, next: LiveStatusKind) {
    && t.live.Some? && t.live.value.kind.IsMissingSubstrate()
    && !next.IsMissingSubstrate() && !HasMissingSubstrateFlag(t.flags)
  }

  datatype Application =
    | Plain(o: LiveObservation, at: int)
    | Authoritative(o: LiveObservation, at: int)
    | Trusted(o: LiveObservation, at: int)
    | Retract

  /** The observation a plain application ends up applying. */
  function PlainObservation(t: TaskState, o: LiveObservation): LiveObservation {
    if RecoveredFromMissingSubstrate(t, o.kind) then o else ReduceLiveObservation(t.live, o)
  }

  /** The lifecycle an observation asks for, if it is applied as trusted or authoritative. */
  function AskedLifecycle(kind: LiveStatusKind, trusted: bool): Option<LifecycleStatus> {
    if kind.IsRunning() then Some(Active)
    else if trusted && kind.Done? then Some(Reviewable)
    else None
  }

  function WithLifecycle(t: TaskState, asked: Option<LifecycleStatus>): TaskState {
    if asked.None? then t else t.(lifecycle := AfterTransition(t.lifecycle, asked.value, OperationResult))
  }

  function After(t: TaskState, a: Application): TaskState {
    match a
    case Plain(o, at) => AfterReduced(t, PlainObservation(t, o), at)
    case Authoritative(o, at) => WithLifecycle(AfterReduced(t, o, at), AskedLifecycle(o.kind, false))
    case Trusted(o, at) => WithLifecycle(AfterReduced(t, o, at), AskedLifecycle(o.kind, true))
    case Retract =>
      t.(flags := t.flags - {FlagAgentRunning}, agent := if t.agent.Running? then AgentRuntimeStatus.Unknown else t.agent)
  }

  /** A task as the code updates it, field by field. */
  class Task {
    var lifecycle: LifecycleStatus
    var agent: AgentRuntimeStatus
    var live: Option<LiveObservation>
    var observedAt: Option<int>
    var flags: set<SideFlag>
    var gitConflicted: bool

    function State(): TaskState
      reads this
    {
      TaskState(lifecycle, agent, live, observedAt, flags, gitConflicted)
    }

    constructor (state: TaskState)
      ensures State() == state
    {
      lifecycle, agent, live := state.lifecycle, state.agent, state.live;
      observedAt, flags, gitConflicted := state.observedAt, state.flags, state.gitConflicted;
    }

    method MarkResourceMissing(flag: SideFlag)
      modifies this`agent, this`flags
      ensures agent == if flag.IsMissingSubstrate() then Dead else old(agent)
      ensures flags ==
        if flag.IsMissingSubstrate() then old(flags) + {flag} - {FlagAgentRunning} else old(flags) + {flag}
    {
      flags := flags + {flag};
      if flag.IsMissingSubstrate() {
        agent := Dead;
        flags := flags - {FlagAgentRunning};
      }
    }

    method TransitionLifecycle(status: LifecycleStatus, reason: Reason) returns (r: Result<(), TransitionError>)
      modifies this
      ensures r == ValidateLifecycleTransition(old(lifecycle), status, reason)
      ensures State() == old(State()).(lifecycle := if r.Ok? then status else old(lifecycle))
    {
      r := ValidateLifecycleTransition(lifecycle, status, reason);
      if r.Ok? {
        lifecycle := status;
      }
    }

    /** What the kind of observation says of the agent and the flags. */
    method ApplyKind(kind: LiveStatusKind, missing: bool, delegated: bool)
      modifies this`agent, this`flags
      ensures agent == StatusFor(old(agent), missing, kind)
      ensures flags == Applied(old(flags), missing, delegated, kind)
    {
      match kind {
        case WorktreeMissing | TmuxMissing | TaskWindowMissing =>
          MarkResourceMissing(MissingFlag(kind));
        case AgentRunning | CommandRunning | TestsRunning =>
          if missing {
            agent := Dead;
            flags := flags - {FlagAgentRunning};
          } else {
            agent := Running;
            flags := flags + {FlagAgentRunning};
          }
          flags := flags - {FlagNeedsInput} - {FlagAgentDead};
        case WaitingForApproval | WaitingForInput =>
          agent := AgentRuntimeStatus.Waiting;
          if delegated {
            flags := flags - {FlagNeedsInput};
          } else {
            flags := flags + {FlagNeedsInput};
          }
          flags := flags - {FlagAgentRunning};
        case AuthRequired | RateLimited | ContextLimit | CommandFailed | Blocked =>
          agent := AgentRuntimeStatus.Blocked;
          flags := flags + {FlagNeedsInput} - {FlagAgentRunning};
        case CiFailed =>
          agent := AgentRuntimeStatus.Blocked;
          flags := flags + {FlagTestsFailed} - {FlagNeedsInput} - {FlagAgentRunning};
        case CiPending =>
          flags := flags - {FlagTestsFailed};
        case MergeConflict =>
          agent := AgentRuntimeStatus.Blocked;
          flags := flags + {FlagConflicted} - {FlagNeedsInput} - {FlagAgentRunning};
        case ShellIdle =>
          agent := if agent.Running? || agent.Waiting? || agent.Blocked? then Dead else NotStarted;
          flags := flags - {FlagAgentRunning};
        case Done =>
          agent := AgentRuntimeStatus.Done;
          flags := flags - {FlagAgentRunning} - {FlagNeedsInput};
        case Unknown =>
          flags := flags - {FlagAgentRunning};
      }
    }

    method ApplyReducedObservation(o: LiveObservation, at: int)
      modifies this
      ensures State() == AfterReduced(old(State()), o, at)
    {
      var missing := HasMissingSubstrateFlag(flags);
      if !o.kind.MergeConflict? && !gitConflicted {
        flags := flags - {FlagConflicted};
      }
      ApplyKind(o.kind, missing, o.kind.IsWaiting() && IsDelegatedWaitingSummary(o.summary));
      if o.kind.Unknown? {
        live, observedAt := None, None;
        return;
      }
      live, observedAt := Some(o), Some(at);
      if RefreshesActivity(o.kind) {
        flags := flags - {FlagStale};
      }
    }

    method ApplyObservationAt(o: LiveObservation, at: int)
      modifies this
      ensures State() == After(old(State()), Plain(o, at))
    {
      var reduced := PlainObservation(State(), o);
      ApplyReducedObservation(reduced, at);
    }

    method ApplyAuthoritativeObservationAt(o: LiveObservation, at: int)
      modifies this
      ensures State() == After(old(State()), Authoritative(o, at))
    {
      ApplyReducedObservation(o, at);
      if o.kind.IsRunning() {
        var _ := TransitionLifecycle(Active, OperationResult);
      }
    }

    method ApplyTrustedObservationAt(o: LiveObservation, at: int)
      modifies this
      ensures State() == After(old(State()), Trusted(o, at))
    {
      ApplyReducedObservation(o, at);
      var asked := if o.kind.IsRunning() then Some(Active) else if o.kind.Done? then Some(Reviewable) else None;
      if asked.Some? {
        var _ := TransitionLifecycle(asked.value, OperationResult);
      }
    }

    method RetractStaleAgentRunning()
      modifies this
      ensures State() == After(old(State()), Retract)
    {
      if FlagAgentRunning !in flags && !agent.Running? {
        return;
      }
      flags := flags - {FlagAgentRunning};
      if agent.Running? {
        agent := AgentRuntimeStatus.Unknown;
      }
    }
  }

  /** A whole stream of applications. */
  function Run(t: TaskState, stream: seq<Application>): TaskState
    decreases |stream|
  {
    if stream == [] then t else Run(After(t, stream[0]), stream[1..])
  }

  predicate IsFrozen(s: LifecycleStatus) {
    s.Merged? || s.Cleanable? || s.Removing? || s.TeardownIncomplete? || s.Removed? || s.Orphaned?
  }

  lemma {:induction false} RunKeepsLifecycleIn(t: TaskState, stream: seq<Application>)
    ensures
      var reached := Run(t, stream).lifecycle;
      reached == t.lifecycle || (!IsFrozen(t.lifecycle) && (reached.Active? || reached.Reviewable?))
    decreases |stream|
  {
    if stream != [] {
      RunKeepsLifecycleIn(After(t, stream[0]), stream[1..]);
    }
  }

  lemma {:induction false} UnfrozenMoves(t: TaskState) returns (stream: seq<Application>)
    requires !IsFrozen(t.lifecycle)
    ensures Run(t, stream).lifecycle != t.lifecycle
  {
    var kind := if t.lifecycle.Active? then LiveStatusKind.Done else AgentRunning;
    stream := [Trusted(LiveObservation(kind, ""), 0)];
    assert Run(t, stream) == Run(After(t, stream[0]), stream[1..]);
  }

  /** Exactly the six end-of-life states survive every stream of observations. */
  lemma {:induction false} FrozenLifecycles(t: TaskState)
    ensures IsFrozen(t.lifecycle) <==> forall stream :: Run(t, stream).lifecycle == t.lifecycle
  {
    if IsFrozen(t.lifecycle) {
      forall stream
        ensures Run(t, stream).lifecycle == t.lifecycle
      {
        RunKeepsLifecycleIn(t, stream);
      }
    } else {
      var stream := UnfrozenMoves(t);
    }
  }

  /** Plain and retract applications never move the lifecycle. */
  lemma {:induction false} PlainKeepsLifecycle(t: TaskState, stream: seq<Application>)
    requires forall a :: a in stream ==> a.Plain? || a.Retract?
    ensures Run(t, stream).lifecycle == t.lifecycle
    decreases |stream|
  {
    if stream != [] {
      assert stream[0] in stream;
      PlainKeepsLifecycle(After(t, stream[0]), stream[1..]);
    }
  }

  predicate RunningFlagAgrees(t: TaskState) {
    FlagAgentRunning in t.flags ==> t.agent.Running? && FlagNeedsInput !in t.flags
  }

  predicate RunningFlagNeedsSubstrate(t: TaskState) {
    FlagAgentRunning in t.flags ==> !HasMissingSubstrateFlag(t.flags)
  }

  lemma {:induction false} StepKeepsRunningFlag(t: TaskState, o: LiveObservation, at: int)
    requires RunningFlagAgrees(t)
    ensures RunningFlagAgrees(AfterReduced(t, o, at))
  {
    var missing := HasMissingSubstrateFlag(t.flags);
    var delegated := o.kind.IsWaiting() && IsDelegatedWaitingSummary(o.summary);
    AppliedKeepsRunning(Recovered(t, o.kind), t.agent, missing, delegated, o.kind);
  }

  lemma {:induction false} AppliedKeepsRunning(
    flags: set<SideFlag>, agent: AgentRuntimeStatus, missing: bool, delegated: bool, kind: LiveStatusKind)
    requires FlagAgentRunning in flags ==> agent.Running? && FlagNeedsInput !in flags
    ensures FlagAgentRunning in Applied(flags, missing, delegated, kind) ==>
      StatusFor(agent, missing, kind).Running? && FlagNeedsInput !in Applied(flags, missing, delegated, kind)
  {
  }

  lemma {:induction false} StepKeepsSubstrate(t: TaskState, o: LiveObservation, at: int)
    requires RunningFlagNeedsSubstrate(t)
    ensures RunningFlagNeedsSubstrate(AfterReduced(t, o, at))
  {
    var missing := HasMissingSubstrateFlag(t.flags);
    var delegated := o.kind.IsWaiting() && IsDelegatedWaitingSummary(o.summary);
    AppliedKeepsSubstrate(Recovered(t, o.kind), missing, delegated, o.kind);
  }

  lemma {:induction false} AppliedKeepsSubstrate(flags: set<SideFlag>, missing: bool, delegated: bool, kind: LiveStatusKind)
    requires HasMissingSubstrateFlag(flags) ==> missing
    requires FlagAgentRunning in flags ==> !missing
    ensures FlagAgentRunning in Applied(flags, missing, delegated, kind) ==>
      !HasMissingSubstrateFlag(Applied(flags, missing, delegated, kind))
  {
    var after := Applied(flags, missing, delegated, kind);
    if FlagAgentRunning in after {
      assert !kind.IsMissingSubstrate();
      assert forall f :: f in after && f.IsMissingSubstrate() ==> f in flags;
    }
  }

  /**
   Over every stream: the running flag implies a running agent that waits for no input, and never
   stands beside a missing-substrate flag.
   */
  lemma {:induction false} RunningFlagInvariant(t: TaskState, stream: seq<Application>)
    ensures RunningFlagAgrees(t) ==> RunningFlagAgrees(Run(t, stream))
    ensures RunningFlagNeedsSubstrate(t) ==> RunningFlagNeedsSubstrate(Run(t, stream))
    decreases |stream|
  {
    if stream != [] {
      var a := stream[0];
      if !a.Retract? {
        var o := if a.Plain? then PlainObservation(t, a.o) else a.o;
        if RunningFlagAgrees(t) {
          StepKeepsRunningFlag(t, o, a.at);
        }
        if RunningFlagNeedsSubstrate(t) {
          StepKeepsSubstrate(t, o, a.at);
        }
      } else if RunningFlagNeedsSubstrate(t) {
        assert FlagAgentRunning !in After(t, a).flags;
      }
      RunningFlagInvariant(After(t, a), stream[1..]);
    }
  }

  predicate IsPassivePlain(stream: seq<Application>) {
    forall a :: a in stream ==> a.Plain? && a.o.kind.IsPassive()
  }

  /** The live observations no passive plain observation displaces. */
  predicate IsSettled(t: TaskState) {
    && t.live.Some?
    && var kind := t.live.value.kind;
       || kind.Done? || kind.IsWaiting() || kind.IsFailure()
       || (kind.IsMissingSubstrate() && HasMissingSubstrateFlag(t.flags))
  }

  lemma {:induction false} SettledSurvives(t: TaskState, stream: seq<Application>)
    requires IsSettled(t) && IsPassivePlain(stream)
    ensures Run(t, stream).live == t.live
    decreases |stream|
  {
    if stream != [] {
      var a := stream[0];
      assert a in stream;
      var next := After(t, a);
      assert PlainObservation(t, a.o) == t.live.value;
      if t.live.value.kind.IsMissingSubstrate() {
        assert MissingFlag(t.live.value.kind) in next.flags;
      }
      SettledSurvives(next, stream[1..]);
    }
  }

  lemma {:induction false} UnsettledIsDisplaced(t: TaskState) returns (stream: seq<Application>)
    requires !IsSettled(t)
    ensures IsPassivePlain(stream) && Run(t, stream).live != t.live
  {
    var idle := Plain(LiveObservation(ShellIdle, "x"), 0);
    var unknown := Plain(LiveObservation(LiveStatusKind.Unknown, ""), 0);
    stream := [if t.live.None? then idle else unknown];
    assert Run(t, stream) == After(t, stream[0]);
  }

  /**
   A task's live observation stays in place under every run of passive plain observations exactly
   when it is done, waiting, a failure, or a missing substrate that is still flagged as missing.
   */
  lemma {:induction false} PassiveRuns(t: TaskState)
    ensures IsSettled(t) <==> forall stream :: IsPassivePlain(stream) ==> Run(t, stream).live == t.live
  {
    if IsSettled(t) {
      forall stream | IsPassivePlain(stream)
        ensures Run(t, stream).live == t.live
      {
        SettledSurvives(t, stream);
      }
    } else {
      var stream := UnsettledIsDisplaced(t);
    }
  }
}
