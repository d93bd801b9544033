/**
 What an observation does to a task: which of two observations stands, what becomes of every flag, of the
 agent's status and of the lifecycle (crates/ajax-core/src/live.rs:10-100,
 crates/ajax-core/src/live_application.rs:20-260, crates/ajax-core/src/agent_status.rs:10-30).
 */
module LiveEffects {
  import opened Options
  import opened Lifecycle
  import opened Live
  import opened LiveApplication
  import Text

  // Kinds of observations.

  predicate TellsOfRunning(k: LiveStatusKind) {
    k.AgentRunning? || k.CommandRunning? || k.TestsRunning?
  }

  predicate TellsOfWaiting(k: LiveStatusKind) {
    k.WaitingForApproval? || k.WaitingForInput?
  }

  predicate TellsOfMissing(k: LiveStatusKind) {
    k.WorktreeMissing? || k.TmuxMissing? || k.TaskWindowMissing?
  }

  /** The failures that ask the user for something. */
  predicate NeedsUser(k: LiveStatusKind) {
    k.AuthRequired? || k.RateLimited? || k.ContextLimit? || k.CommandFailed? || k.Blocked?
  }

  predicate TellsNothing(k: LiveStatusKind) {
    k.ShellIdle? || k.Unknown?
  }

  /** Waiting for runs the agent delegated to, not for the user. */
  predicate WaitsOnDelegated(o: LiveObservation) {
    && TellsOfWaiting(o.kind)
    && (Text.AsciiLower(Text.Trim(o.summary)) == "waiting on delegated runs"
        || Text.AsciiLower(Text.Trim(o.summary)) == "delegated runs still active")
  }

  predicate SubstrateFlagged(flags: set<SideFlag>) {
    FlagTaskWindowMissing in flags || FlagTmuxMissing in flags || FlagWorktreeMissing in flags || FlagBranchMissing in flags
  }

  lemma {:induction false} FlaggedMeaning(flags: set<SideFlag>)
    ensures HasMissingSubstrateFlag(flags) <==> SubstrateFlagged(flags)
  {
  }

  // Which observation stands.

  /**
   The current observation stands against the new one: a missing substrate that is still flagged, against
   anything but another; an end, a wait or a failure, against what tells nothing; tests, against running.
   */
  predicate Stands(t: TaskState, next: LiveStatusKind) {
    && t.live.Some? && !TellsOfMissing(next)
    && var kind := t.live.value.kind;
       || (TellsOfMissing(kind) && SubstrateFlagged(t.flags))
       || (TellsNothing(next)
           && (kind.Done? || TellsOfWaiting(kind) || NeedsUser(kind) || kind.CiFailed? || kind.MergeConflict?))
       || (kind.TestsRunning? && (next.AgentRunning? || next.CommandRunning?))
  }

  lemma {:induction false} StandsExactly(t: TaskState, o: LiveObservation)
    ensures PlainObservation(t, o) == if Stands(t, o.kind) then t.live.value else o
  {
    FlaggedMeaning(t.flags);
  }

  // What it does.

  /** The flag after the observation o was applied to a task with the given flags. */
  predicate FlagStandsAfter(t: TaskState, o: LiveObservation, f: SideFlag) {
    match f
    case FlagNeedsInput =>
      || (TellsOfWaiting(o.kind) && !WaitsOnDelegated(o))
      || NeedsUser(o.kind)
      || (f in t.flags && (TellsOfMissing(o.kind) || TellsNothing(o.kind) || o.kind.CiPending?))
    case FlagAgentRunning =>
      (TellsOfRunning(o.kind) && !SubstrateFlagged(t.flags)) || (f in t.flags && o.kind.CiPending?)
    case FlagAgentDead => f in t.flags && !TellsOfRunning(o.kind)
    case FlagTestsFailed => o.kind.CiFailed? || (f in t.flags && !o.kind.CiPending?)
    case FlagConflicted => o.kind.MergeConflict? || (f in t.flags && t.gitConflicted)
    case FlagStale => f in t.flags && (TellsOfMissing(o.kind) || o.kind.CiPending? || o.kind.Unknown?)
    case FlagWorktreeMissing => f in t.flags || o.kind.WorktreeMissing?
    case FlagTmuxMissing => f in t.flags || o.kind.TmuxMissing?
    case FlagTaskWindowMissing => f in t.flags || o.kind.TaskWindowMissing?
    case FlagDirty | FlagBranchMissing | FlagUnpushed => f in t.flags
  }

  lemma {:induction false} AppliedFlag(
    flags: set<SideFlag>, missing: bool, delegated: bool, kind: LiveStatusKind, f: SideFlag)
    ensures f in Applied(flags, missing, delegated, kind) <==>
      match f
      case FlagNeedsInput =>
        || (TellsOfWaiting(kind) && !delegated) || NeedsUser(kind)
        || (f in flags && (TellsOfMissing(kind) || TellsNothing(kind) || kind.CiPending?))
      case FlagAgentRunning => (TellsOfRunning(kind) && !missing) || (f in flags && kind.CiPending?)
      case FlagAgentDead => f in flags && !TellsOfRunning(kind)
      case FlagTestsFailed => kind.CiFailed? || (f in flags && !kind.CiPending?)
      case FlagConflicted => f in flags || kind.MergeConflict?
      case FlagWorktreeMissing => f in flags || kind.WorktreeMissing?
      case FlagTmuxMissing => f in flags || kind.TmuxMissing?
      case FlagTaskWindowMissing => f in flags || kind.TaskWindowMissing?
      case _ => f in flags
  {
    match kind
    case WorktreeMissing | TmuxMissing | TaskWindowMissing =>
    case _ =>
  }

  /** Every flag after every observation. */
  lemma {:induction false} FlagsAfterExactly(t: TaskState, o: LiveObservation, at: int, f: SideFlag)
    ensures f in AfterReduced(t, o, at).flags <==> FlagStandsAfter(t, o, f)
  {
    FlaggedMeaning(t.flags);
    AppliedFlag(Recovered(t, o.kind), HasMissingSubstrateFlag(t.flags),
                o.kind.IsWaiting() && IsDelegatedWaitingSummary(o.summary), o.kind, f);
  }

  /** The agent's status after every observation. */
  lemma {:induction false} AgentAfterExactly(t: TaskState, o: LiveObservation, at: int)
    ensures var agent := AfterReduced(t, o, at).agent;
      && (TellsOfMissing(o.kind) ==> agent == Dead)
      && (TellsOfRunning(o.kind) ==> agent == if SubstrateFlagged(t.flags) then Dead else Running)
      && (TellsOfWaiting(o.kind) ==> agent == AgentRuntimeStatus.Waiting)
      && (NeedsUser(o.kind) || o.kind.CiFailed? || o.kind.MergeConflict? ==> agent == AgentRuntimeStatus.Blocked)
      && (o.kind.ShellIdle? ==>
            agent == if t.agent == Running || t.agent == AgentRuntimeStatus.Waiting || t.agent == AgentRuntimeStatus.Blocked
                     then Dead else NotStarted)
      && (o.kind.Done? ==> agent == AgentRuntimeStatus.Done)
      && (o.kind.CiPending? || o.kind.Unknown? ==> agent == t.agent)
  {
    FlaggedMeaning(t.flags);
  }

  lemma {:induction false} LiveAfterExactly(t: TaskState, o: LiveObservation, at: int)
    ensures var after := AfterReduced(t, o, at);
      && (if o.kind.Unknown? then after.live == None && after.observedAt == None
          else after.live == Some(o) && after.observedAt == Some(at))
      && after.lifecycle == t.lifecycle && after.gitConflicted == t.gitConflicted
  {
  }

  /** The lifecycle after an application: only a running task is made active, and a trusted end reviewable. */
  lemma {:induction false} LifecycleAfterExactly(t: TaskState, a: Application)
    ensures After(t, a).lifecycle ==
      if (a.Authoritative? || a.Trusted?) && TellsOfRunning(a.o.kind)
         && (t.lifecycle.Created? || t.lifecycle.Provisioning? || t.lifecycle.Waiting? || t.lifecycle.Reviewable?
             || t.lifecycle.Mergeable? || t.lifecycle.Error?)
      then Active
      else if a.Trusted? && a.o.kind.Done?
              && (t.lifecycle.Created? || t.lifecycle.Active? || t.lifecycle.Waiting? || t.lifecycle.Mergeable?
                  || t.lifecycle.Error?)
      then Reviewable
      else t.lifecycle
  {
  }

  /** A retraction takes back that the agent runs, and nothing else. */
  lemma {:induction false} RetractExactly(t: TaskState, f: SideFlag)
    ensures var after := After(t, Retract);
      && (f in after.flags <==> f in t.flags && f != FlagAgentRunning)
      && after.agent == (if t.agent == Running then AgentRuntimeStatus.Unknown else t.agent)
      && after.live == t.live && after.observedAt == t.observedAt
      && after.lifecycle == t.lifecycle && after.gitConflicted == t.gitConflicted
  {
  }

  // Runs.

  /** The observation an application ends up applying. */
  function Effective(t: TaskState, a: Application): LiveObservation
    requires !a.Retract?
  {
    if a.Plain? then if Stands(t, a.o.kind) then t.live.value else a.o else a.o
  }

  /** Apart from a retraction, an application does to the flags what its effective observation does. */
  lemma {:induction false} ApplicationFlags(t: TaskState, a: Application, f: SideFlag)
    requires !a.Retract?
    ensures f in After(t, a).flags <==> FlagStandsAfter(t, Effective(t, a), f)
  {
    StandsExactly(t, a.o);
    FlagsAfterExactly(t, Effective(t, a), a.at, f);
  }

  /** The state before the k-th application of a stream. */
  function Before(t: TaskState, stream: seq<Application>, k: nat): TaskState
    requires k <= |stream|
  {
    if k == 0 then t else After(Before(t, stream, k - 1), stream[k - 1])
  }

  lemma {:induction false} RunsToEnd(t: TaskState, stream: seq<Application>, k: nat)
    requires k <= |stream|
    ensures Run(t, stream[..k]) == Before(t, stream, k)
  {
    if k == 0 {
      assert stream[..0] == [];
    } else {
      RunsToEnd(t, stream, k - 1);
      RunNext(t, stream[..k - 1], stream[k - 1]);
      assert stream[..k - 1] + [stream[k - 1]] == stream[..k];
    }
  }

  lemma {:induction false} RunNext(t: TaskState, stream: seq<Application>, a: Application)
    ensures Run(t, stream + [a]) == After(Run(t, stream), a)
    decreases |stream|
  {
    if stream == [] {
      assert [] + [a] == [a] && [a][1..] == [];
    } else {
      RunNext(After(t, stream[0]), stream[1..], a);
      assert (stream + [a])[0] == stream[0] && (stream + [a])[1..] == stream[1..] + [a];
    }
  }

  predicate AsksUser(o: LiveObservation) {
    (TellsOfWaiting(o.kind) && !WaitsOnDelegated(o)) || NeedsUser(o.kind)
  }

  /** Neither asks the user nor answers what was asked. */
  predicate LeavesAsking(o: LiveObservation) {
    TellsOfMissing(o.kind) || TellsNothing(o.kind) || o.kind.CiPending?
  }

  /** Application k of the stream asks the user. */
  predicate AsksAt(t: TaskState, stream: seq<Application>, k: nat)
    requires k < |stream|
  {
    !stream[k].Retract? && AsksUser(Effective(Before(t, stream, k), stream[k]))
  }

  predicate LeavesAt(t: TaskState, stream: seq<Application>, k: nat)
    requires k < |stream|
  {
    stream[k].Retract? || LeavesAsking(Effective(Before(t, stream, k), stream[k]))
  }

  function Asking(t: TaskState, stream: seq<Application>): nat -> bool {
    (k: nat) => k < |stream| && AsksAt(t, stream, k)
  }

  function Leaving(t: TaskState, stream: seq<Application>): nat -> bool {
    (k: nat) => k < |stream| && LeavesAt(t, stream, k)
  }

  ghost predicate LeftAlone(leaves: nat -> bool, lo: nat, n: nat) {
    forall j :: lo <= j < n ==> leaves(j)
  }

  /** Something asked, or it was so from the start, and all since left that alone. */
  ghost predicate StandsAt(start: bool, asks: nat -> bool, leaves: nat -> bool, n: nat) {
    (start && LeftAlone(leaves, 0, n)) || exists k :: 0 <= k < n && asks(k) && LeftAlone(leaves, k + 1, n)
  }

  lemma {:induction false} StandsNext(start: bool, asks: nat -> bool, leaves: nat -> bool, n: nat)
    ensures StandsAt(start, asks, leaves, n + 1) <==> asks(n) || (StandsAt(start, asks, leaves, n) && leaves(n))
  {
    var next := n + 1;
    if asks(n) {
      assert LeftAlone(leaves, n + 1, next);
    }
    if k :| 0 <= k < n && asks(k) && LeftAlone(leaves, k + 1, n) && leaves(n) {
      assert LeftAlone(leaves, k + 1, next);
    }
    if k :| 0 <= k < next && asks(k) && LeftAlone(leaves, k + 1, next) {
      assert k < n ==> leaves(n) && LeftAlone(leaves, k + 1, n);
    }
  }

  /** An observation that took effect asked the user, or it was so from the start, and all since left that alone. */
  ghost predicate StillAsked(t: TaskState, stream: seq<Application>, n: nat) {
    StandsAt(FlagNeedsInput in t.flags, Asking(t, stream), Leaving(t, stream), n)
  }

  lemma {:induction false} InputFlagExactly(t: TaskState, o: LiveObservation)
    ensures FlagStandsAfter(t, o, FlagNeedsInput) <==> AsksUser(o) || (FlagNeedsInput in t.flags && LeavesAsking(o))
  {
  }

  lemma {:induction false} InputFlagNext(t: TaskState, stream: seq<Application>, k: nat)
    requires k < |stream|
    ensures FlagNeedsInput in Before(t, stream, k + 1).flags
       <==> AsksAt(t, stream, k) || (FlagNeedsInput in Before(t, stream, k).flags && LeavesAt(t, stream, k))
  {
    var before, a := Before(t, stream, k), stream[k];
    assert Before(t, stream, k + 1) == After(before, a);
    if a.Retract? {
      RetractExactly(before, FlagNeedsInput);
    } else {
      ApplicationFlags(before, a, FlagNeedsInput);
      InputFlagExactly(before, Effective(before, a));
    }
  }

  predicate GoesOn(holds: nat -> bool, asks: nat -> bool, leaves: nat -> bool, k: nat) {
    holds(k + 1) <==> asks(k) || (holds(k) && leaves(k))
  }

  /** What holds next exactly if it is asked for, or holds and is left alone, stands exactly so at every moment. */
  lemma {:induction false} StandsAlways(holds: nat -> bool, asks: nat -> bool, leaves: nat -> bool, n: nat)
    requires forall k: nat :: k < n ==> GoesOn(holds, asks, leaves, k)
    ensures holds(n) <==> StandsAt(holds(0), asks, leaves, n)
  {
    if n > 0 {
      StandsAlways(holds, asks, leaves, n - 1);
      StandsNext(holds(0), asks, leaves, n - 1);
      assert GoesOn(holds, asks, leaves, n - 1);
    }
  }

  function NeedingInput(t: TaskState, stream: seq<Application>): nat -> bool {
    (k: nat) => k <= |stream| && FlagNeedsInput in Before(t, stream, k).flags
  }

  lemma {:induction false} InputGoesOn(t: TaskState, stream: seq<Application>, k: nat)
    requires k < |stream|
    ensures GoesOn(NeedingInput(t, stream), Asking(t, stream), Leaving(t, stream), k)
  {
    InputFlagNext(t, stream, k);
  }

  lemma {:induction false} NeedsInputBefore(t: TaskState, stream: seq<Application>, n: nat)
    requires n <= |stream|
    ensures FlagNeedsInput in Before(t, stream, n).flags <==> StillAsked(t, stream, n)
  {
    var holds, asks, leaves := NeedingInput(t, stream), Asking(t, stream), Leaving(t, stream);
    forall k: nat | k < n
      ensures GoesOn(holds, asks, leaves, k)
    {
      InputGoesOn(t, stream, k);
    }
    StandsAlways(holds, asks, leaves, n);
    assert Before(t, stream, 0) == t;
  }

  /**
   Over every stream: the task needs input exactly if an observation that took effect asked the user and
   all since left that alone, or it was so from the start.
   */
  lemma {:induction false} NeedsInputExactly(t: TaskState, stream: seq<Application>, n: nat)
    requires n <= |stream|
    ensures FlagNeedsInput in Run(t, stream[..n]).flags <==> StillAsked(t, stream, n)
  {
    RunsToEnd(t, stream, n);
    NeedsInputBefore(t, stream, n);
  }
}
