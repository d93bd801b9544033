/**
 The in-memory task registry: tasks, their events and their step receipts
 (crates/ajax-core/src/registry.rs).

 A task is its id, its creation time, its lifecycle and a map of its other facts, each as encoded
 text.  The derived facts that the registry refreshes after a change are left to function parameters.
 */
module Registry {
  import opened Options
  import opened Lifecycle
  import opened Sequences

  type TaskId = string

  datatype Task = Task(id: TaskId, createdAt: int, lifecycle: LifecycleStatus, facts: map<string, string>)

  datatype EventKind = TaskCreated | LifecycleChanged | SubstrateChanged | UserNote

  datatype RegistryEvent = RegistryEvent(taskId: TaskId, kind: EventKind, message: string, occurredAt: int)

  datatype OperationKind = Start | Ship | Drop | Repair | Tidy

  datatype ReceiptStatus = Succeeded | Failed | SkippedObserved

  datatype ReceiptIdentity = ReceiptIdentity(taskId: TaskId, operation: OperationKind, stepKey: string, target: string)

  datatype StepReceipt = StepReceipt(identity: ReceiptIdentity, status: ReceiptStatus, receiptJson: string, createdAt: int)

  datatype RegistryState = RegistryState(
    tasks: map<TaskId, Task>, events: seq<RegistryEvent>, receipts: map<ReceiptIdentity, StepReceipt>)

  datatype RegistryError =
    | DuplicateTask(id: TaskId)
    | TaskNotFound(id: TaskId)
    | InvalidLifecycleTransition(error: TransitionError)

  /** A change of a task's facts that leaves id, creation time and lifecycle alone. */
  type FactChange = f: Task -> Task | KeepsIdentity(f) witness (t: Task) => t

  ghost predicate KeepsIdentity(f: Task -> Task) {
    forall t :: f(t).id == t.id && f(t).createdAt == t.createdAt && f(t).lifecycle == t.lifecycle
  }

  /** Each event and step receipt belongs to a present task, and everything is filed under its own key. */
  ghost predicate Integrity(r: RegistryState) {
    && (forall id :: id in r.tasks ==> r.tasks[id].id == id)
    && (forall e :: e in r.events ==> e.taskId in r.tasks)
    && (forall k :: k in r.receipts ==> r.receipts[k].identity == k && k.taskId in r.tasks)
  }

  /** The events whose task is not in the set, in order. */
  function EventsWithout(events: seq<RegistryEvent>, ids: set<TaskId>): seq<RegistryEvent> {
    if events == [] then []
    else
      EventsWithout(events[..|events| - 1], ids)
      + if events[|events| - 1].taskId in ids then [] else [events[|events| - 1]]
  }

  function ReceiptsWithout(receipts: map<ReceiptIdentity, StepReceipt>, ids: set<TaskId>)
    : map<ReceiptIdentity, StepReceipt>
  {
    map k | k in receipts && k.taskId !in ids :: receipts[k]
  }

  function LifecycleName(s: LifecycleStatus): string {
    match s
    case Created => "Created"
    case Provisioning => "Provisioning"
    case Active => "Active"
    case Waiting => "Waiting"
    case Reviewable => "Reviewable"
    case Mergeable => "Mergeable"
    case Merged => "Merged"
    case Cleanable => "Cleanable"
    case Removing => "Removing"
    case TeardownIncomplete => "TeardownIncomplete"
    case Removed => "Removed"
    case Orphaned => "Orphaned"
    case Error => "Error"
  }

  function LifecycleEvent(id: TaskId, s: LifecycleStatus, now: int): RegistryEvent {
    RegistryEvent(id, LifecycleChanged, "lifecycle changed to " + LifecycleName(s), now)
  }

  datatype Operation =
    | CreateTask(task: Task, change: FactChange)
    | DeleteTask(id: TaskId)
    | UpdateLifecycle(id: TaskId, status: LifecycleStatus, change: FactChange)
    | UpdateEvidence(id: TaskId, change: FactChange, message: string)
    | ApplyLiveObservation(id: TaskId, change: FactChange, reached: LifecycleStatus)
    | RecordEvent(id: TaskId, kind: EventKind, message: string)
    | RecordStepReceipt(receipt: StepReceipt)

  /** Why the operation is refused, if it is. */
  function Refusal(r: RegistryState, op: Operation): Option<RegistryError> {
    match op
    case CreateTask(task, _) =>
      if task.id in r.tasks && !r.tasks[task.id].lifecycle.Removed? then Some(DuplicateTask(task.id)) else None
    case UpdateLifecycle(id, status, _) =>
      if id !in r.tasks then Some(TaskNotFound(id))
      else
        var v := ValidateLifecycleTransition(r.tasks[id].lifecycle, status, Generic);
        if v.Err? then Some(InvalidLifecycleTransition(v.error)) else None
    case RecordStepReceipt(receipt) =>
      if receipt.identity.taskId !in r.tasks then Some(TaskNotFound(receipt.identity.taskId)) else None
    case DeleteTask(id) => if id !in r.tasks then Some(TaskNotFound(id)) else None
    case UpdateEvidence(id, _, _) => if id !in r.tasks then Some(TaskNotFound(id)) else None
    case ApplyLiveObservation(id, _, _) => if id !in r.tasks then Some(TaskNotFound(id)) else None
    case RecordEvent(id, _, _) => if id !in r.tasks then Some(TaskNotFound(id)) else None
  }

  /** The registry after an operation that is not refused. */
  function Performed(r: RegistryState, op: Operation, now: int): RegistryState
    requires Refusal(r, op).None?
  {
    match op
    case CreateTask(task, change) =>
      RegistryState(
        r.tasks[task.id := change(task)],
        EventsWithout(r.events, {task.id}) + [RegistryEvent(task.id, TaskCreated, "task created", now)],
        ReceiptsWithout(r.receipts, {task.id}))
    case DeleteTask(id) =>
      RegistryState(r.tasks - {id}, EventsWithout(r.events, {id}), ReceiptsWithout(r.receipts, {id}))
    case UpdateLifecycle(id, status, change) =>
      r.(tasks := r.tasks[id := change(r.tasks[id].(lifecycle := status))],
         events := r.events + [LifecycleEvent(id, status, now)])
    case UpdateEvidence(id, change, message) =>
      r.(tasks := r.tasks[id := change(r.tasks[id])],
         events := r.events + [RegistryEvent(id, SubstrateChanged, message, now)])
    case ApplyLiveObservation(id, change, reached) =>
      r.(tasks := r.tasks[id := change(r.tasks[id].(lifecycle := reached))],
         events := r.events + if r.tasks[id].lifecycle == reached then [] else [LifecycleEvent(id, reached, now)])
    case RecordEvent(id, kind, message) => r.(events := r.events + [RegistryEvent(id, kind, message, now)])
    case RecordStepReceipt(receipt) => r.(receipts := r.receipts[receipt.identity := receipt])
  }

  function After(r: RegistryState, op: Operation, now: int): RegistryState {
    if Refusal(r, op).Some? then r else Performed(r, op, now)
  }

  function Outcome(r: RegistryState, op: Operation): Result<(), RegistryError> {
    if Refusal(r, op).Some? then Err(Refusal(r, op).value) else Ok(())
  }

  class InMemoryRegistry {
    var tasks: map<TaskId, Task>
    var events: seq<RegistryEvent>
    var receipts: map<ReceiptIdentity, StepReceipt>

    function State(): RegistryState
      reads this
    {
      RegistryState(tasks, events, receipts)
    }

    constructor (state: RegistryState)
      ensures State() == state
    {
      tasks, events, receipts := state.tasks, state.events, state.receipts;
    }

    method RetainOthers(id: TaskId)
      modifies this`events, this`receipts
      ensures events == EventsWithout(old(events), {id})
      ensures receipts == ReceiptsWithout(old(receipts), {id})
    {
      var kept: seq<RegistryEvent> := [];
      for i := 0 to |events|
        invariant events == old(events)
        invariant kept == EventsWithout(events[..i], {id})
      {
        assert events[..i + 1][..i] == events[..i];
        if events[i].taskId != id {
          kept := kept + [events[i]];
        }
      }
      assert events[..|events|] == events;
      events := kept;
      receipts := ReceiptsWithout(receipts, {id});
    }

    method Create(task: Task, change: FactChange, now: int) returns (r: Result<(), RegistryError>)
      modifies this
      ensures r == Outcome(old(State()), CreateTask(task, change))
      ensures State() == After(old(State()), CreateTask(task, change), now)
    {
      if task.id in tasks && !tasks[task.id].lifecycle.Removed? {
        return Err(DuplicateTask(task.id));
      }
      tasks := tasks[task.id := change(task)];
      RetainOthers(task.id);
      events := events + [RegistryEvent(task.id, TaskCreated, "task created", now)];
      r := Ok(());
    }

    method Delete(id: TaskId) returns (r: Result<(), RegistryError>)
      modifies this
      ensures r == Outcome(old(State()), DeleteTask(id))
      ensures forall now :: State() == After(old(State()), DeleteTask(id), now)
    {
      if id !in tasks {
        return Err(TaskNotFound(id));
      }
      tasks := tasks - {id};
      RetainOthers(id);
      r := Ok(());
    }

    method ChangeLifecycle(id: TaskId, status: LifecycleStatus, change: FactChange, now: int)
      returns (r: Result<(), RegistryError>)
      modifies this
      ensures r == Outcome(old(State()), UpdateLifecycle(id, status, change))
      ensures State() == After(old(State()), UpdateLifecycle(id, status, change), now)
    {
      if id !in tasks {
        return Err(TaskNotFound(id));
      }
      var v := ValidateLifecycleTransition(tasks[id].lifecycle, status, Generic);
      if v.Err? {
        return Err(InvalidLifecycleTransition(v.error));
      }
      tasks := tasks[id := change(tasks[id].(lifecycle := status))];
      events := events + [LifecycleEvent(id, status, now)];
      r := Ok(());
    }

    method ChangeEvidence(id: TaskId, change: FactChange, message: string, now: int) returns (r: Result<(), RegistryError>)
      modifies this
      ensures r == Outcome(old(State()), UpdateEvidence(id, change, message))
      ensures State() == After(old(State()), UpdateEvidence(id, change, message), now)
    {
      if id !in tasks {
        return Err(TaskNotFound(id));
      }
      tasks := tasks[id := change(tasks[id])];
      events := events + [RegistryEvent(id, SubstrateChanged, message, now)];
      r := Ok(());
    }

    method Observe(id: TaskId, change: FactChange, reached: LifecycleStatus, now: int) returns (r: Result<(), RegistryError>)
      modifies this
      ensures r == Outcome(old(State()), ApplyLiveObservation(id, change, reached))
      ensures State() == After(old(State()), ApplyLiveObservation(id, change, reached), now)
    {
      if id !in tasks {
        return Err(TaskNotFound(id));
      }
      var previous := tasks[id].lifecycle;
      tasks := tasks[id := change(tasks[id].(lifecycle := reached))];
      if tasks[id].lifecycle != previous {
        events := events + [LifecycleEvent(id, reached, now)];
      }
      r := Ok(());
    }

    method Record(id: TaskId, kind: EventKind, message: string, now: int) returns (r: Result<(), RegistryError>)
      modifies this
      ensures r == Outcome(old(State()), RecordEvent(id, kind, message))
      ensures State() == After(old(State()), RecordEvent(id, kind, message), now)
    {
      if id !in tasks {
        return Err(TaskNotFound(id));
      }
      events := events + [RegistryEvent(id, kind, message, now)];
      r := Ok(());
    }

    method RecordReceipt(receipt: StepReceipt) returns (r: Result<(), RegistryError>)
      modifies this
      ensures r == Outcome(old(State()), RecordStepReceipt(receipt))
      ensures forall now :: State() == After(old(State()), RecordStepReceipt(receipt), now)
    {
      if receipt.identity.taskId !in tasks {
        return Err(TaskNotFound(receipt.identity.taskId));
      }
      receipts := receipts[receipt.identity := receipt];
      r := Ok(());
    }

    /** Overwriting a task through get_task_mut. */
    method Put(id: TaskId, task: Task)
      requires id in tasks
      modifies this
      ensures State() == old(State()).(tasks := old(tasks)[id := task])
    {
      tasks := tasks[id := task];
    }
  }

  lemma {:induction false} EventsWithoutIsFilter(events: seq<RegistryEvent>, ids: set<TaskId>)
    ensures forall e :: e in EventsWithout(events, ids) <==> e in events && e.taskId !in ids
  {
    if events != [] {
      EventsWithoutIsFilter(events[..|events| - 1], ids);
      InitAndLast(events);
    }
  }

  lemma {:induction false} OperationKeepsIntegrity(r: RegistryState, op: Operation, now: int)
    requires Integrity(r)
    ensures Integrity(After(r, op, now))
  {
    match op
    case CreateTask(task, _) => EventsWithoutIsFilter(r.events, {task.id});
    case DeleteTask(id) => EventsWithoutIsFilter(r.events, {id});
    case _ =>
  }

  /** A run of operations, each at its own time. */
  function Run(r: RegistryState, ops: seq<(Operation, int)>): RegistryState {
    if ops == [] then r else After(Run(r, ops[..|ops| - 1]), ops[|ops| - 1].0, ops[|ops| - 1].1)
  }

  /** Every run of operations on an empty registry keeps each event and receipt with a present task. */
  lemma {:induction false} IntegrityAlways(ops: seq<(Operation, int)>)
    ensures Integrity(Run(RegistryState(map[], [], map[]), ops))
  {
    if ops != [] {
      IntegrityAlways(ops[..|ops| - 1]);
      OperationKeepsIntegrity(
        Run(RegistryState(map[], [], map[]), ops[..|ops| - 1]), ops[|ops| - 1].0, ops[|ops| - 1].1);
    }
  }

  /** The events of one task, in order. */
  function EventsOf(events: seq<RegistryEvent>, id: TaskId): seq<RegistryEvent> {
    if events == [] then []
    else
      EventsOf(events[..|events| - 1], id) + if events[|events| - 1].taskId == id then [events[|events| - 1]] else []
  }

  /** The operation creates or deletes the task. */
  predicate Replaces(op: Operation, id: TaskId) {
    (op.CreateTask? && op.task.id == id) || (op.DeleteTask? && op.id == id)
  }

  lemma {:induction false} EventsOfSplit(a: seq<RegistryEvent>, b: seq<RegistryEvent>, id: TaskId)
    requires |b| <= 1
    ensures EventsOf(a + b, id) == EventsOf(a, id) + EventsOf(b, id)
  {
    if b == [] {
      assert a + b == a;
    } else {
      assert (a + b)[..|a| + |b| - 1] == a;
      assert b[..0] == [];
    }
  }

  lemma {:induction false} EventsOfWithout(events: seq<RegistryEvent>, other: TaskId, id: TaskId)
    ensures EventsOf(EventsWithout(events, {other}), id) == if id == other then [] else EventsOf(events, id)
  {
    if events != [] {
      var init, e := events[..|events| - 1], events[|events| - 1];
      EventsOfWithout(init, other, id);
      EventsOfSplit(EventsWithout(init, {other}), if e.taskId == other then [] else [e], id);
      assert [e][..0] == [];
    }
  }

  /**
   The history of a task is append-only until the task itself is created anew or deleted, when it
   starts over; no operation touches the history of another task.
   */
  lemma {:induction false} HistoryIsAppendOnly(r: RegistryState, op: Operation, now: int, id: TaskId)
    ensures
      var before, after := EventsOf(r.events, id), EventsOf(After(r, op, now).events, id);
      if !Replaces(op, id) || Refusal(r, op).Some? then before <= after
      else after == if op.CreateTask? then [RegistryEvent(id, TaskCreated, "task created", now)] else []
  {
    if Refusal(r, op).None? {
      match op {
        case CreateTask(task, _) =>
          var e := RegistryEvent(task.id, TaskCreated, "task created", now);
          EventsOfWithout(r.events, task.id, id);
          EventsOfSplit(EventsWithout(r.events, {task.id}), [e], id);
          assert [e][..0] == [];
        case DeleteTask(gone) =>
          EventsOfWithout(r.events, gone, id);
        case UpdateLifecycle(t, status, _) =>
          EventsOfSplit(r.events, [LifecycleEvent(t, status, now)], id);
        case UpdateEvidence(t, _, message) =>
          EventsOfSplit(r.events, [RegistryEvent(t, SubstrateChanged, message, now)], id);
        case ApplyLiveObservation(t, _, reached) =>
          EventsOfSplit(r.events, if r.tasks[t].lifecycle == reached then [] else [LifecycleEvent(t, reached, now)], id);
        case RecordEvent(t, kind, message) =>
          EventsOfSplit(r.events, [RegistryEvent(t, kind, message, now)], id);
        case RecordStepReceipt(_) =>
      }
    }
  }
}
