/**
 What each registry operation does, and what it leaves alone, said of tasks, histories and receipts one by
 one (crates/ajax-core/src/registry.rs:93-340).
 */
module RegistryEffects {
  import opened Options
  import opened Lifecycle
  import opened Registry

  /** The task an operation is about. */
  function Target(op: Operation): TaskId {
    match op
    case CreateTask(task, _) => task.id
    case RecordStepReceipt(receipt) => receipt.identity.taskId
    case _ => op.id
  }

  /** Everything of the other tasks is as it was. */
  ghost predicate OthersAsBefore(r: RegistryState, after: RegistryState, id: TaskId) {
    && (forall other :: other != id ==>
          Lookup(after.tasks, other) == Lookup(r.tasks, other) && EventsOf(after.events, other) == EventsOf(r.events, other))
    && (forall k: ReceiptIdentity :: k.taskId != id ==> Lookup(after.receipts, k) == Lookup(r.receipts, k))
  }

  /** The task has the history and, of each identity, the receipt it had. */
  ghost predicate SameReceipts(r: RegistryState, after: RegistryState) {
    forall k :: Lookup(after.receipts, k) == Lookup(r.receipts, k)
  }

  /** Nothing the task had is kept but what is given. */
  ghost predicate StartsOver(after: RegistryState, id: TaskId, task: Option<Task>, events: seq<RegistryEvent>) {
    && Lookup(after.tasks, id) == task && EventsOf(after.events, id) == events
    && forall k: ReceiptIdentity :: k.taskId == id ==> k !in after.receipts
  }

  ghost predicate Notes(r: RegistryState, after: RegistryState, id: TaskId, kind: EventKind, message: string, now: int) {
    && after.events == r.events + [RegistryEvent(id, kind, message, now)]
    && SameReceipts(r, after)
  }

  /** What an operation on a task that is there does to it. */
  ghost predicate TakesEffect(r: RegistryState, op: Operation, now: int, after: RegistryState)
    requires Target(op) in r.tasks
  {
    var id, task := Target(op), r.tasks[Target(op)];
    match op
    case CreateTask(created, change) =>
      StartsOver(after, id, Some(change(created)), [RegistryEvent(id, TaskCreated, "task created", now)])
    case DeleteTask(_) => StartsOver(after, id, None, [])
    case UpdateLifecycle(_, status, change) =>
      && Lookup(after.tasks, id) == Some(change(task.(lifecycle := status))) && after.tasks[id].lifecycle == status
      && Notes(r, after, id, LifecycleChanged, "lifecycle changed to " + LifecycleName(status), now)
    case UpdateEvidence(_, change, message) =>
      && Lookup(after.tasks, id) == Some(change(task)) && after.tasks[id].lifecycle == task.lifecycle
      && Notes(r, after, id, SubstrateChanged, message, now)
    case ApplyLiveObservation(_, change, reached) =>
      && Lookup(after.tasks, id) == Some(change(task.(lifecycle := reached))) && after.tasks[id].lifecycle == reached
      && if task.lifecycle != reached
         then Notes(r, after, id, LifecycleChanged, "lifecycle changed to " + LifecycleName(reached), now)
         else after.events == r.events && SameReceipts(r, after)
    case RecordEvent(_, kind, message) =>
      Lookup(after.tasks, id) == Some(task) && Notes(r, after, id, kind, message, now)
    case RecordStepReceipt(receipt) =>
      && Lookup(after.tasks, id) == Some(task) && after.events == r.events
      && Lookup(after.receipts, receipt.identity) == Some(receipt)
      && forall k :: k != receipt.identity ==> Lookup(after.receipts, k) == Lookup(r.receipts, k)
  }

  lemma {:induction false} AppendedKeepsOthers(events: seq<RegistryEvent>, e: RegistryEvent, other: TaskId)
    requires other != e.taskId
    ensures EventsOf(events + [e], other) == EventsOf(events, other)
  {
    EventsOfSplit(events, [e], other);
    assert [e][..0] == [];
  }

  /** An operation leaves every other task, its history and its receipts alone. */
  lemma {:induction false} OthersUntouched(r: RegistryState, op: Operation, now: int)
    ensures OthersAsBefore(r, After(r, op, now), Target(op))
  {
    if Refusal(r, op).None? {
      forall other | other != Target(op)
        ensures EventsOf(After(r, op, now).events, other) == EventsOf(r.events, other)
      {
        OtherHistory(r, op, now, other);
      }
      OtherEntries(r, op, now);
    }
  }

  lemma {:induction false} OtherEntries(r: RegistryState, op: Operation, now: int)
    requires Refusal(r, op).None?
    ensures forall other :: other != Target(op) ==> Lookup(After(r, op, now).tasks, other) == Lookup(r.tasks, other)
    ensures forall k: ReceiptIdentity :: k.taskId != Target(op) ==>
      Lookup(After(r, op, now).receipts, k) == Lookup(r.receipts, k)
  {
    match op
    case CreateTask(_, _) =>
    case DeleteTask(_) =>
    case RecordStepReceipt(_) =>
    case _ =>
  }

  lemma {:induction false} CreationKeepsOthers(events: seq<RegistryEvent>, id: TaskId, other: TaskId, now: int)
    requires other != id
    ensures EventsOf(EventsWithout(events, {id}) + [RegistryEvent(id, TaskCreated, "task created", now)], other)
         == EventsOf(events, other)
  {
    EventsOfWithout(events, id, other);
    AppendedKeepsOthers(EventsWithout(events, {id}), RegistryEvent(id, TaskCreated, "task created", now), other);
  }

  /** An operation that neither creates nor deletes adds at most one event, of its own task. */
  lemma {:induction false} AddsOneEvent(r: RegistryState, op: Operation, now: int) returns (more: seq<RegistryEvent>)
    requires Refusal(r, op).None? && !op.CreateTask? && !op.DeleteTask?
    ensures After(r, op, now).events == r.events + more
    ensures |more| <= 1 && forall e :: e in more ==> e.taskId == Target(op)
  {
    match op
    case UpdateLifecycle(id, status, _) => more := [LifecycleEvent(id, status, now)];
    case UpdateEvidence(id, _, message) => more := [RegistryEvent(id, SubstrateChanged, message, now)];
    case ApplyLiveObservation(id, _, reached) =>
      more := if r.tasks[id].lifecycle == reached then [] else [LifecycleEvent(id, reached, now)];
    case RecordEvent(id, kind, message) => more := [RegistryEvent(id, kind, message, now)];
    case RecordStepReceipt(_) => more := [];
  }

  lemma {:induction false} AddedKeepsOthers(events: seq<RegistryEvent>, more: seq<RegistryEvent>, other: TaskId)
    requires |more| <= 1 && forall e :: e in more ==> e.taskId != other
    ensures EventsOf(events + more, other) == EventsOf(events, other)
  {
    if more == [] {
      assert events + more == events;
    } else {
      assert more == [more[0]] && more[0] in more;
      AppendedKeepsOthers(events, more[0], other);
    }
  }

  lemma {:induction false} OtherHistory(r: RegistryState, op: Operation, now: int, other: TaskId)
    requires Refusal(r, op).None? && other != Target(op)
    ensures EventsOf(After(r, op, now).events, other) == EventsOf(r.events, other)
  {
    if op.CreateTask? {
      CreationKeepsOthers(r.events, op.task.id, other, now);
    } else if op.DeleteTask? {
      EventsOfWithout(r.events, op.id, other);
    } else {
      var more := AddsOneEvent(r, op, now);
      AddedKeepsOthers(r.events, more, other);
    }
  }

  lemma {:induction false} CreatedHistory(r: RegistryState, id: TaskId, now: int)
    ensures
      var e := RegistryEvent(id, TaskCreated, "task created", now);
      EventsOf(EventsWithout(r.events, {id}) + [e], id) == [e]
  {
    var e := RegistryEvent(id, TaskCreated, "task created", now);
    EventsOfWithout(r.events, id, id);
    EventsOfSplit(EventsWithout(r.events, {id}), [e], id);
    assert [e][..0] == [];
  }

  lemma {:induction false} CreationStartsOver(r: RegistryState, task: Task, change: FactChange, now: int)
    requires Refusal(r, CreateTask(task, change)).None?
    ensures StartsOver(After(r, CreateTask(task, change), now), task.id, Some(change(task)),
                       [RegistryEvent(task.id, TaskCreated, "task created", now)])
  {
    CreatedHistory(r, task.id, now);
  }

  /** An operation on a task that is not there. */
  lemma {:induction false} WithoutItsTask(r: RegistryState, op: Operation, now: int)
    requires Target(op) !in r.tasks
    ensures
      var id := Target(op);
      if op.CreateTask? then
        && Registry.Outcome(r, op).Ok?
        && StartsOver(After(r, op, now), id, Some(op.change(op.task)), [RegistryEvent(id, TaskCreated, "task created", now)])
      else Registry.Outcome(r, op) == Err(TaskNotFound(id)) && After(r, op, now) == r
  {
    if op.CreateTask? {
      CreationStartsOver(r, op.task, op.change, now);
    }
  }

  /** Why an operation on a task that is there is refused: only a live task's re-creation and a forbidden edge are. */
  function Objection(task: Task, op: Operation): Option<RegistryError> {
    if op.CreateTask? && task.lifecycle != Removed then Some(DuplicateTask(op.task.id))
    else if op.UpdateLifecycle? && ValidateLifecycleTransition(task.lifecycle, op.status, Generic).Err? then
      Some(InvalidLifecycleTransition(TransitionError(task.lifecycle, op.status, Generic)))
    else None
  }

  /** An operation on a task that is there takes its effect, or is refused and changes nothing. */
  lemma {:induction false} OnItsTask(r: RegistryState, op: Operation, now: int)
    requires Target(op) in r.tasks
    ensures
      var objection := Objection(r.tasks[Target(op)], op);
      if objection.Some? then Registry.Outcome(r, op) == Err(objection.value) && After(r, op, now) == r
      else Registry.Outcome(r, op).Ok? && TakesEffect(r, op, now, After(r, op, now))
  {
    if op.CreateTask? {
      if Refusal(r, op).None? {
        CreationStartsOver(r, op.task, op.change, now);
      }
    } else if op.DeleteTask? {
      EventsOfWithout(r.events, op.id, op.id);
    }
  }
}
