/** The task lifecycle and its two edge tables (crates/ajax-core/src/lifecycle.rs). */
module Lifecycle {
  import opened Options

  datatype LifecycleStatus =
    | Created | Provisioning | Active | Waiting | Reviewable | Mergeable | Merged
    | Cleanable | Removing | TeardownIncomplete | Removed | Orphaned | Error

  datatype Reason = Generic | Recovery | OperationResult | ForceRemove | Restore

  datatype TransitionError = TransitionError(from: LifecycleStatus, to: LifecycleStatus, reason: Reason)

  predicate NamedTransitionAllowed(from: LifecycleStatus, to: LifecycleStatus, reason: Reason) {
    match reason
    case Recovery => from.Error? && (to.Active? || to.Reviewable?)
    case OperationResult =>
      || (from.Error? && (to.Active? || to.Reviewable?))
      || ((from.Reviewable? || from.Mergeable?) && to.Active?)
    case ForceRemove =>
      && !from.Removing? && !from.TeardownIncomplete? && !from.Removed?
      && to.Removed?
    case Restore => from.Removed? && to.Active?
    case Generic => false
  }

  predicate GenericTransitionAllowed(from: LifecycleStatus, to: LifecycleStatus) {
    match from
    case Created => to.Provisioning? || to.Active? || to.Reviewable? || to.Error? || to.Removing?
    case Provisioning => to.Active? || to.Error? || to.Removing?
    case Active => to.Waiting? || to.Reviewable? || to.Merged? || to.Error? || to.Removing?
    case Waiting => to.Active? || to.Reviewable? || to.Error? || to.Removing?
    case Reviewable => to.Mergeable? || to.Merged? || to.Error? || to.Removing?
    case Mergeable => to.Reviewable? || to.Merged? || to.Error? || to.Removing?
    case Merged => to.Removing? || to.Cleanable? || to.Removed? || to.Error?
    case Cleanable => to.Removing? || to.Removed? || to.Error?
    case Removing => to.TeardownIncomplete? || to.Removed?
    case TeardownIncomplete => to.Removing? || to.Removed?
    case Removed => false
    case Orphaned => to.Removing? || to.Error?
    case Error => to.Removing?
  }

  function ValidateLifecycleTransition(from: LifecycleStatus, to: LifecycleStatus, reason: Reason)
    : Result<(), TransitionError>
  {
    if from == to || GenericTransitionAllowed(from, to) || NamedTransitionAllowed(from, to, reason) then Ok(())
    else Err(TransitionError(from, to, reason))
  }

  /** Where each state may be entered from: the first edge table read by its targets. */
  predicate EntersFreely(from: LifecycleStatus, to: LifecycleStatus) {
    match to
    case Created | Orphaned => false
    case Provisioning => from.Created?
    case Active => from.Created? || from.Provisioning? || from.Waiting?
    case Waiting => from.Active?
    case Reviewable => from.Created? || from.Active? || from.Waiting? || from.Mergeable?
    case Mergeable => from.Reviewable?
    case Merged => from.Active? || from.Reviewable? || from.Mergeable?
    case Cleanable => from.Merged?
    case Removing => !from.Removing? && !from.Removed?
    case TeardownIncomplete => from.Removing?
    case Removed => from.Merged? || from.Cleanable? || from.Removing? || from.TeardownIncomplete?
    case Error => !from.Error? && !from.Removing? && !from.TeardownIncomplete? && !from.Removed?
  }

  /** The states a named reason lets a task enter: work again, review, or removal by force. */
  predicate EntersFor(from: LifecycleStatus, to: LifecycleStatus, reason: Reason) {
    match to
    case Active =>
      || (from.Error? && (reason.Recovery? || reason.OperationResult?))
      || ((from.Reviewable? || from.Mergeable?) && reason.OperationResult?)
      || (from.Removed? && reason.Restore?)
    case Reviewable => from.Error? && (reason.Recovery? || reason.OperationResult?)
    case Removed => reason.ForceRemove? && !from.Removing? && !from.TeardownIncomplete? && !from.Removed?
    case _ => false
  }

  lemma {:induction false} FreelyExactly(from: LifecycleStatus, to: LifecycleStatus)
    ensures GenericTransitionAllowed(from, to) <==> EntersFreely(from, to)
  {
  }

  lemma {:induction false} ForReasonExactly(from: LifecycleStatus, to: LifecycleStatus, reason: Reason)
    ensures NamedTransitionAllowed(from, to, reason) <==> EntersFor(from, to, reason)
  {
  }

  /** A transition is allowed exactly if it stays or enters its target from where that may be entered. */
  lemma {:induction false} EnteredExactly(from: LifecycleStatus, to: LifecycleStatus, reason: Reason)
    ensures var v := ValidateLifecycleTransition(from, to, reason);
      && (v.Ok? <==> from == to || EntersFreely(from, to) || EntersFor(from, to, reason))
      && (v.Err? ==> v.error == TransitionError(from, to, reason))
  {
    FreelyExactly(from, to);
    ForReasonExactly(from, to, reason);
  }

  /** The lifecycle a task has after a transition was asked for: the target, or unchanged when it is refused. */
  function AfterTransition(from: LifecycleStatus, to: LifecycleStatus, reason: Reason): LifecycleStatus {
    if ValidateLifecycleTransition(from, to, reason).Ok? then to else from
  }

  /** Every sequence of allowed transitions starting at from. */
  ghost predicate Reachable(from: LifecycleStatus, path: seq<(LifecycleStatus, Reason)>, to: LifecycleStatus)
    decreases |path|
  {
    if path == [] then from == to
    else
      && ValidateLifecycleTransition(from, path[0].0, path[0].1).Ok?
      && Reachable(path[0].0, path[1..], to)
  }

  predicate InTeardown(s: LifecycleStatus) {
    s.Removing? || s.TeardownIncomplete? || s.Removed?
  }

  /**
   Teardown is one-way: once a task is being removed, only a restore of a fully removed task
   brings it out again, so a path without a restore ends in teardown.
   */
  lemma {:induction false} TeardownIsOneWay(
    from: LifecycleStatus, path: seq<(LifecycleStatus, Reason)>, to: LifecycleStatus)
    requires InTeardown(from)
    requires Reachable(from, path, to)
    requires forall step :: step in path ==> !step.1.Restore?
    ensures InTeardown(to)
    decreases |path|
  {
    if path != [] {
      assert path[0] in path;
      TeardownIsOneWay(path[0].0, path[1..], to);
    }
  }

  // Where a task can get to.

  /** How far along a task is. */
  function Stage(s: LifecycleStatus): nat {
    match s
    case Created => 0
    case Provisioning => 1
    case Active | Waiting => 2
    case Reviewable | Mergeable => 3
    case Merged => 4
    case Cleanable => 5
    case Orphaned => 6
    case Error => 7
    case Removing | TeardownIncomplete => 8
    case Removed => 9
  }

  /** No earlier stage, and an orphan only from itself. */
  predicate IsOnward(from: LifecycleStatus, to: LifecycleStatus) {
    from == to || (Stage(from) <= Stage(to) && !to.Orphaned?)
  }

  predicate IsGeneric(path: seq<(LifecycleStatus, Reason)>) {
    forall step :: step in path ==> step.1.Generic?
  }

  lemma {:induction false} GenericGoesOnward(from: LifecycleStatus, path: seq<(LifecycleStatus, Reason)>, to: LifecycleStatus)
    requires Reachable(from, path, to) && IsGeneric(path)
    ensures IsOnward(from, to)
    decreases |path|
  {
    if path != [] {
      assert path[0] in path;
      GenericGoesOnward(path[0].0, path[1..], to);
    }
  }

  /** The next state on the way. */
  function NextHop(from: LifecycleStatus, to: LifecycleStatus): LifecycleStatus {
    if GenericTransitionAllowed(from, to) then to
    else if from.Created? || from.Provisioning? then Active
    else if from.Waiting? then Reviewable
    else if Stage(to) == 3 then Reviewable
    else if Stage(to) == 5 then Merged
    else Removing
  }

  lemma {:induction false} HopIsAllowed(from: LifecycleStatus, to: LifecycleStatus)
    requires IsOnward(from, to) && from != to
    ensures GenericTransitionAllowed(from, NextHop(from, to)) && IsOnward(NextHop(from, to), to)
    ensures NextHop(from, to) == to || Stage(NextHop(from, to)) > Stage(from)
  {
  }

  lemma {:induction false} PathOnward(from: LifecycleStatus, to: LifecycleStatus) returns (path: seq<(LifecycleStatus, Reason)>)
    requires IsOnward(from, to)
    ensures Reachable(from, path, to) && IsGeneric(path)
    decreases 9 - Stage(from), if from == to then 0 else 1
  {
    path := [];
    if from != to {
      HopIsAllowed(from, to);
      var rest := PathOnward(NextHop(from, to), to);
      path := [(NextHop(from, to), Generic)] + rest;
      assert path[1..] == rest;
    }
  }

  /**
   Exactly where generic transitions can lead: on to the same or a later stage, and never to an orphan.
   Going back from review to work, from an error or from removal takes a named reason.
   */
  lemma {:induction false} GenericReachesExactly(from: LifecycleStatus, to: LifecycleStatus)
    ensures (exists path :: Reachable(from, path, to) && IsGeneric(path)) <==> IsOnward(from, to)
  {
    if IsOnward(from, to) {
      var path := PathOnward(from, to);
    }
    if path :| Reachable(from, path, to) && IsGeneric(path) {
      GenericGoesOnward(from, path, to);
    }
  }
}
