/** Live observations of a task and how a new one replaces the current one (crates/ajax-core/src/live.rs). */
module Live {
  import opened Options

  datatype LiveStatusKind =
    | WorktreeMissing | TmuxMissing | TaskWindowMissing | ShellIdle | CommandRunning | TestsRunning
    | AgentRunning | WaitingForApproval | WaitingForInput | Blocked | RateLimited | AuthRequired
    | MergeConflict | CiFailed | CiPending | ContextLimit | CommandFailed | Done | Unknown
  {
    predicate IsMissingSubstrate() {
      WorktreeMissing? || TmuxMissing? || TaskWindowMissing?
    }

    predicate IsRunning() {
      AgentRunning? || CommandRunning? || TestsRunning?
    }

    predicate IsWaiting() {
      WaitingForApproval? || WaitingForInput?
    }

    predicate IsFailure() {
      AuthRequired? || RateLimited? || ContextLimit? || CiFailed? || CommandFailed? || Blocked? || MergeConflict?
    }

    /** An observation that says nothing about the agent. */
    predicate IsPassive() {
      ShellIdle? || Unknown?
    }
  }

  datatype LiveObservation = LiveObservation(kind: LiveStatusKind, summary: string)

  predicate ShouldKeepCurrentStatus(current: LiveStatusKind, next: LiveStatusKind) {
    if current.Done? then next.IsPassive()
    else if current.TestsRunning? then next.AgentRunning? || next.CommandRunning?
    else if current.IsWaiting() then next.IsPassive()
    else if current.IsFailure() then next.IsPassive()
    else false
  }

  function ReduceLiveObservation(current: Option<LiveObservation>, next: LiveObservation): LiveObservation {
    if current.None? || next.kind.IsMissingSubstrate() then next
    else if current.value.kind.IsMissingSubstrate() || ShouldKeepCurrentStatus(current.value.kind, next.kind) then
      current.value
    else next
  }
}
