/**
 The three-way merge of registries: what disk holds now, what this process holds in memory, and the
 baseline memory started from (crates/ajax-cli/src/context.rs:293-388).

 The loop over memory's tasks visits them in the order of their ids, which decides the conflict that is
 named and the order of creation events.  The order of the other loops over tasks does not show, so they
 take any.
 */
module ContextMerge {
  import opened Options
  import opened Lifecycle
  import opened Registry
  import opened TaskFacts
  import opened Sequences
  import opened TaskOrder

  datatype SaveError = StateConflict(id: TaskId) | MergeFailed(id: TaskId)

  /** What becomes of one task: kept as given (None: absent), or the save is refused. */
  datatype TaskOutcome = Keep(task: Option<Task>) | Conflict

  /** Disk moved the lifecycle away from the baseline, memory's is different, and neither is removed. */
  predicate LifecycleDiverged(disk: Option<Task>, memory: Task, baseline: Option<Task>) {
    && disk.Some?
    && disk.value.lifecycle != memory.lifecycle
    && !disk.value.lifecycle.Removed? && !memory.lifecycle.Removed?
    && !(baseline.Some? && baseline.value.lifecycle == disk.value.lifecycle)
  }

  /** The outcome for a task that memory holds. */
  function HeldOutcome(disk: Option<Task>, memory: Task, baseline: Option<Task>, refresh: FactChange): TaskOutcome {
    if LifecycleDiverged(disk, memory, baseline) then Conflict
    else if disk.None? then Keep(if baseline.Some? then None else Some(refresh(memory)))
    else if disk == baseline then Keep(Some(memory))
    else if baseline == Some(memory) || disk == Some(memory) then Keep(disk)
    else if baseline.None? || MergedFacts(disk.value, memory, baseline.value).None? then Conflict
    else Keep(MergedFacts(disk.value, memory, baseline.value))
  }

  /** The outcome for any task: one memory does not hold goes if memory deleted the incarnation disk has. */
  function Outcome(disk: Option<Task>, memory: Option<Task>, baseline: Option<Task>, refresh: FactChange): TaskOutcome {
    if memory.Some? then HeldOutcome(disk, memory.value, baseline, refresh)
    else if disk.Some? && baseline.Some? && disk.value.createdAt == baseline.value.createdAt then Keep(None)
    else Keep(disk)
  }

  function OutcomeAt(
    disk: map<TaskId, Task>, memory: map<TaskId, Task>, baseline: map<TaskId, Task>, refresh: FactChange, id: TaskId)
    : TaskOutcome
  {
    Outcome(Lookup(disk, id), Lookup(memory, id), Lookup(baseline, id), refresh)
  }

  /** Disk, memory and baseline have three different things for the field, and memory has something. */
  predicate DisagreeOn(disk: Task, memory: Task, baseline: Task, f: Field) {
    && FieldOf(memory, f).Some?
    && FieldOf(memory, f) != FieldOf(disk, f)
    && FieldOf(memory, f) != FieldOf(baseline, f)
    && FieldOf(disk, f) != FieldOf(baseline, f)
  }

  /**
   A task is refused when both sides hold it and: there is no baseline and they differ; or disk moved the
   lifecycle elsewhere than memory has it, with neither removed; or all three disagree on a field.
   */
  ghost predicate RefusesTask(disk: Option<Task>, memory: Option<Task>, baseline: Option<Task>) {
    && disk.Some? && memory.Some?
    && if baseline.None? then disk != memory
       else
         || (&& disk.value.lifecycle != baseline.value.lifecycle && disk.value.lifecycle != memory.value.lifecycle
             && disk.value.lifecycle != Removed && memory.value.lifecycle != Removed)
         || exists f :: DisagreeOn(disk.value, memory.value, baseline.value, f)
  }

  ghost predicate RefusedAt(
    disk: map<TaskId, Task>, memory: map<TaskId, Task>, baseline: map<TaskId, Task>, id: TaskId)
  {
    RefusesTask(Lookup(disk, id), Lookup(memory, id), Lookup(baseline, id))
  }

  lemma {:induction false} FactsRefused(disk: Task, memory: Task, baseline: Task)
    ensures MergedFacts(disk, memory, baseline).None? <==> exists f :: DisagreeOn(disk, memory, baseline, f)
  {
    var d, m, b := Encode(disk), Encode(memory), Encode(baseline);
    EncodeDecodes(disk);
    EncodeDecodes(memory);
    RefusedExactly(d, m, b);
    if MergedFields(d, m, b).Some? {
      MergedFieldsDecode(d, m, b);
    }
    forall f
      ensures f in m && AllDiffer(m, d, b, f) <==> DisagreeOn(disk, memory, baseline, f)
    {
      EncodedField(memory, f);
      assert Lookup(d, f) == FieldOf(disk, f) && Lookup(m, f) == FieldOf(memory, f) && Lookup(b, f) == FieldOf(baseline, f);
    }
  }

  /** A merge refuses exactly these tasks. */
  lemma {:induction false} RefusalIsExact(
    disk: Option<Task>, memory: Option<Task>, baseline: Option<Task>, refresh: FactChange)
    ensures Outcome(disk, memory, baseline, refresh).Conflict? <==> RefusesTask(disk, memory, baseline)
  {
    if disk.Some? && memory.Some? && baseline.Some? {
      var d, m, b := disk.value, memory.value, baseline.value;
      ghost var clash := exists f :: DisagreeOn(d, m, b, f);
      FactsRefused(d, m, b);
      RefusalOfShared(d, m, b, refresh, MergedFacts(d, m, b), clash);
    }
  }

  lemma {:induction false} RefusalOfShared(
    disk: Task, memory: Task, baseline: Task, refresh: FactChange, facts: Option<Task>, clash: bool)
    requires facts == MergedFacts(disk, memory, baseline)
    requires facts.None? <==> clash
    requires clash ==> disk != baseline && disk != memory && memory != baseline
    ensures Outcome(Some(disk), Some(memory), Some(baseline), refresh).Conflict?
       <==> clash || LifecycleDiverged(Some(disk), memory, Some(baseline))
  {
    if disk == baseline || disk == memory || memory == baseline {
      SharedWithoutMerge(disk, memory, baseline, refresh);
    } else {
      SharedByMerge(disk, memory, baseline, refresh, facts);
    }
  }

  lemma {:induction false} SharedWithoutMerge(disk: Task, memory: Task, baseline: Task, refresh: FactChange)
    requires disk == baseline || disk == memory || memory == baseline
    ensures HeldOutcome(Some(disk), memory, Some(baseline), refresh).Conflict?
       <==> LifecycleDiverged(Some(disk), memory, Some(baseline))
  {
  }

  /** Where all three differ, the field merge decides, unless the lifecycles diverged. */
  lemma {:induction false} SharedByMerge(
    disk: Task, memory: Task, baseline: Task, refresh: FactChange, facts: Option<Task>)
    requires disk != baseline && disk != memory && memory != baseline
    requires facts == MergedFacts(disk, memory, baseline)
    ensures HeldOutcome(Some(disk), memory, Some(baseline), refresh)
         == if facts.None? || LifecycleDiverged(Some(disk), memory, Some(baseline)) then Conflict else Keep(facts)
  {
  }

  /** The merge of the tasks, task by task. */
  ghost predicate MergesTasks(
    merged: map<TaskId, Task>, disk: map<TaskId, Task>, memory: map<TaskId, Task>, baseline: map<TaskId, Task>,
    refresh: FactChange)
  {
    forall id :: OutcomeAt(disk, memory, baseline, refresh, id) == Keep(Lookup(merged, id))
  }

  predicate IsNew(disk: map<TaskId, Task>, memory: map<TaskId, Task>, baseline: map<TaskId, Task>, id: TaskId) {
    id in memory && id !in disk && id !in baseline
  }

  function CreatedEvents(ids: seq<TaskId>, now: int): seq<RegistryEvent> {
    seq(|ids|, i requires 0 <= i < |ids| => RegistryEvent(ids[i], TaskCreated, "task created", now))
  }

  /** ids lists the new tasks, in the order of their ids. */
  ghost predicate ListsNew(
    ids: seq<TaskId>, disk: map<TaskId, Task>, memory: map<TaskId, Task>, baseline: map<TaskId, Task>)
  {
    && (forall id :: id in ids <==> IsNew(disk, memory, baseline, id))
    && Increasing(ids)
  }

  predicate SameStory(a: RegistryEvent, b: RegistryEvent) {
    a.taskId == b.taskId && a.kind == b.kind && a.message == b.message
  }

  predicate Represented(events: seq<RegistryEvent>, e: RegistryEvent) {
    exists x :: x in events && SameStory(x, e)
  }

  function CarryEvent(events: seq<RegistryEvent>, ids: set<TaskId>, e: RegistryEvent, now: int): seq<RegistryEvent> {
    if e.taskId !in ids || Represented(events, e) then events
    else events + [RegistryEvent(e.taskId, e.kind, e.message, now)]
  }

  function CarryEvents(events: seq<RegistryEvent>, ids: set<TaskId>, memory: seq<RegistryEvent>, now: int)
    : seq<RegistryEvent>
  {
    if memory == [] then events
    else CarryEvent(CarryEvents(events, ids, memory[..|memory| - 1], now), ids, memory[|memory| - 1], now)
  }

  function ReceiptsFor(receipts: map<ReceiptIdentity, StepReceipt>, ids: set<TaskId>): map<ReceiptIdentity, StepReceipt> {
    map k | k in receipts && k.taskId in ids :: receipts[k]
  }

  /** A merged registry: tasks by outcome, then disk's and the new tasks' events and receipts with memory's carried over. */
  ghost predicate Merges(
    merged: RegistryState, disk: RegistryState, memory: RegistryState, baseline: RegistryState,
    refresh: FactChange, now: int, created: seq<TaskId>)
  {
    var ids := merged.tasks.Keys;
    && MergesTasks(merged.tasks, disk.tasks, memory.tasks, baseline.tasks, refresh)
    && ListsNew(created, disk.tasks, memory.tasks, baseline.tasks)
    && merged.events ==
         CarryEvents(EventsWithout(disk.events, disk.tasks.Keys - ids) + CreatedEvents(created, now), ids, memory.events, now)
    && merged.receipts == ReceiptsFor(disk.receipts, ids) + ReceiptsFor(memory.receipts, ids)
  }

  function WithTask(tasks: map<TaskId, Task>, id: TaskId, task: Option<Task>): map<TaskId, Task> {
    if task.Some? then tasks[id := task.value] else tasks - {id}
  }

  lemma {:induction false} NothingToDrop(events: seq<RegistryEvent>, ids: set<TaskId>)
    requires forall e :: e in events ==> e.taskId !in ids
    ensures EventsWithout(events, ids) == events
  {
    if events != [] {
      NothingToDrop(events[..|events| - 1], ids);
      InitAndLast(events);
    }
  }

  /** Creating a task the registry does not have, which never fails. */
  method CreateMerged(merged: InMemoryRegistry, task: Task, refresh: FactChange, now: int)
    returns (r: Result<(), SaveError>)
    requires Integrity(merged.State()) && task.id !in merged.tasks
    modifies merged
    ensures r == Ok(()) && Integrity(merged.State())
    ensures merged.tasks == old(merged.tasks)[task.id := refresh(task)]
    ensures merged.receipts == old(merged.receipts)
    ensures merged.events == old(merged.events) + [RegistryEvent(task.id, TaskCreated, "task created", now)]
  {
    NothingToDrop(merged.events, {task.id});
    var created := merged.Create(task, refresh, now);
    if created.Err? {
      return Err(MergeFailed(task.id));
    }
    assert ReceiptsWithout(old(merged.receipts), {task.id}) == old(merged.receipts);
    r := Ok(());
  }

  /** One turn of the loop over memory's tasks. */
  method MergeOneTask(
    merged: InMemoryRegistry, disk: map<TaskId, Task>, memory: Task, baseline: map<TaskId, Task>,
    refresh: FactChange, now: int)
    returns (r: Result<(), SaveError>)
    requires Integrity(merged.State())
    requires Lookup(merged.tasks, memory.id) == Lookup(disk, memory.id)
    requires memory.id in disk ==> disk[memory.id].id == memory.id
    modifies merged
    ensures var o := HeldOutcome(Lookup(disk, memory.id), memory, Lookup(baseline, memory.id), refresh);
      && (o.Conflict? ==> r == Err(StateConflict(memory.id)))
      && (o.Keep? ==>
            && r == Ok(())
            && Integrity(merged.State())
            && merged.tasks == WithTask(old(merged.tasks), memory.id, o.task)
            && merged.receipts == old(merged.receipts)
            && merged.events == old(merged.events)
                 + if memory.id !in disk && memory.id !in baseline
                   then [RegistryEvent(memory.id, TaskCreated, "task created", now)] else [])
  {
    var id := memory.id;
    var diskTask, baselineTask := Lookup(disk, id), Lookup(baseline, id);
    if LifecycleDiverged(diskTask, memory, baselineTask) {
      return Err(StateConflict(id));
    }
    if diskTask.Some? && diskTask == baselineTask {
      merged.Put(id, memory);
    } else if diskTask.Some? && baselineTask == Some(memory) {
    } else if diskTask == Some(memory) {
    } else if diskTask.None? && baselineTask.Some? {
    } else if diskTask.Some? && baselineTask.Some? {
      var facts := MergeSameTaskFacts(diskTask.value, memory, baselineTask.value);
      if facts.value.None? {
        return Err(StateConflict(id));
      }
      MergeKeepsIdentity(diskTask.value, memory, baselineTask.value);
      merged.Put(id, facts.value.value);
    } else if diskTask.None? {
      var created := CreateMerged(merged, memory, refresh, now);
      if created.Err? {
        return created;
      }
    } else {
      return Err(StateConflict(id));
    }
    r := Ok(());
  }

  /** Everything the loop over memory's tasks has established once only rest is left to visit. */
  ghost predicate TasksMergedUpTo(
    merged: RegistryState, disk: RegistryState, memory: map<TaskId, Task>, baseline: map<TaskId, Task>,
    refresh: FactChange, now: int, rest: set<TaskId>, created: seq<TaskId>)
  {
    && Integrity(merged)
    && (forall id :: id in memory && id !in rest ==>
          OutcomeAt(disk.tasks, memory, baseline, refresh, id) == Keep(Lookup(merged.tasks, id)))
    && (forall id :: id in rest || id !in memory ==> Lookup(merged.tasks, id) == Lookup(disk.tasks, id))
    && (forall id :: id in created <==> id !in rest && IsNew(disk.tasks, memory, baseline, id))
    && Increasing(created)
    && merged.events == disk.events + CreatedEvents(created, now)
    && merged.receipts == disk.receipts
  }

  lemma {:induction false} TaskMerged(
    before: RegistryState, after: RegistryState, disk: RegistryState, memory: map<TaskId, Task>,
    baseline: map<TaskId, Task>, refresh: FactChange, now: int, rest: set<TaskId>, created: seq<TaskId>, id: TaskId,
    task: Option<Task>)
    requires TasksMergedUpTo(before, disk, memory, baseline, refresh, now, rest, created)
    requires id in rest && id in memory
    requires forall other :: other in created ==> Precedes(other, id)
    requires OutcomeAt(disk.tasks, memory, baseline, refresh, id) == Keep(task)
    requires Integrity(after)
    requires after.tasks == WithTask(before.tasks, id, task)
    requires after.receipts == before.receipts
    requires after.events == before.events
      + if IsNew(disk.tasks, memory, baseline, id) then [RegistryEvent(id, TaskCreated, "task created", now)] else []
    ensures TasksMergedUpTo(after, disk, memory, baseline, refresh, now, rest - {id},
                            if IsNew(disk.tasks, memory, baseline, id) then created + [id] else created)
  {
    WithTaskAt(before.tasks, id, task);
    CreatedOneMore(disk.events, created, id, now);
  }

  lemma {:induction false} WithTaskAt(tasks: map<TaskId, Task>, id: TaskId, task: Option<Task>)
    ensures Lookup(WithTask(tasks, id, task), id) == task
    ensures forall other :: other != id ==> Lookup(WithTask(tasks, id, task), other) == Lookup(tasks, other)
  {
  }

  lemma {:induction false} CreatedOneMore(events: seq<RegistryEvent>, created: seq<TaskId>, id: TaskId, now: int)
    ensures events + CreatedEvents(created + [id], now)
         == events + CreatedEvents(created, now) + [RegistryEvent(id, TaskCreated, "task created", now)]
  {
    assert CreatedEvents(created + [id], now)
        == CreatedEvents(created, now) + [RegistryEvent(id, TaskCreated, "task created", now)];
  }

  /** The task is refused, and no task before it is. */
  ghost predicate IsFirstConflict(
    disk: map<TaskId, Task>, memory: map<TaskId, Task>, baseline: map<TaskId, Task>, id: TaskId)
  {
    && RefusedAt(disk, memory, baseline, id)
    && forall other :: RefusedAt(disk, memory, baseline, other) ==> !Precedes(other, id)
  }

  /** What has been visited comes before what is left. */
  ghost predicate VisitedFirst(memory: map<TaskId, Task>, rest: set<TaskId>) {
    forall a, b :: a in memory && a !in rest && b in rest ==> Precedes(a, b)
  }

  lemma {:induction false} CreatedBefore(
    merged: RegistryState, disk: RegistryState, memory: map<TaskId, Task>, baseline: map<TaskId, Task>,
    refresh: FactChange, now: int, rest: set<TaskId>, created: seq<TaskId>, id: TaskId)
    requires TasksMergedUpTo(merged, disk, memory, baseline, refresh, now, rest, created)
    requires VisitedFirst(memory, rest) && IsFirst(id, rest)
    ensures forall other :: other in created ==> Precedes(other, id)
    ensures VisitedFirst(memory, rest - {id})
  {
  }

  /** A refusal at the first task that is left names the first that conflicts. */
  lemma {:induction false} FirstRefused(
    merged: RegistryState, disk: RegistryState, memory: map<TaskId, Task>, baseline: map<TaskId, Task>,
    refresh: FactChange, now: int, rest: set<TaskId>, created: seq<TaskId>, id: TaskId)
    requires TasksMergedUpTo(merged, disk, memory, baseline, refresh, now, rest, created)
    requires IsFirst(id, rest) && id in memory
    requires OutcomeAt(disk.tasks, memory, baseline, refresh, id).Conflict?
    ensures IsFirstConflict(disk.tasks, memory, baseline, id)
  {
    RefusalIsExact(Lookup(disk.tasks, id), Lookup(memory, id), Lookup(baseline, id), refresh);
    forall other | Precedes(other, id)
      ensures !RefusedAt(disk.tasks, memory, baseline, other)
    {
      NeverPrecedesItself(id);
      RefusalIsExact(Lookup(disk.tasks, other), Lookup(memory, other), Lookup(baseline, other), refresh);
      if other in rest {
        PrecedesOn(id, other, id);
      }
    }
  }

  method MergeTasks(
    merged: InMemoryRegistry, disk: RegistryState, memory: map<TaskId, Task>, baseline: map<TaskId, Task>,
    refresh: FactChange, now: int)
    returns (r: Result<(), SaveError>, ghost created: seq<TaskId>)
    requires Integrity(disk) && merged.State() == disk
    requires forall id :: id in memory ==> memory[id].id == id
    modifies merged
    ensures r.Ok? ==> TasksMergedUpTo(merged.State(), disk, memory, baseline, refresh, now, {}, created)
    ensures r.Err? ==>
      r.error.StateConflict? && IsFirstConflict(disk.tasks, memory, baseline, r.error.id)
  {
    created := [];
    var rest := memory.Keys;
    assert CreatedEvents([], now) == [];
    while rest != {}
      invariant rest <= memory.Keys && VisitedFirst(memory, rest)
      invariant TasksMergedUpTo(merged.State(), disk, memory, baseline, refresh, now, rest, created)
    {
      var id := First(rest);
      ghost var before := merged.State();
      r := MergeOneTask(merged, disk.tasks, memory[id], baseline, refresh, now);
      if r.Err? {
        FirstRefused(before, disk, memory, baseline, refresh, now, rest, created, id);
        return;
      }
      ghost var o := OutcomeAt(disk.tasks, memory, baseline, refresh, id);
      CreatedBefore(before, disk, memory, baseline, refresh, now, rest, created, id);
      TaskMerged(before, merged.State(), disk, memory, baseline, refresh, now, rest, created, id, o.task);
      created := if IsNew(disk.tasks, memory, baseline, id) then created + [id] else created;
      rest := rest - {id};
    }
    r := Ok(());
  }

  /** The tasks memory deleted and whose incarnation in tasks is the baseline's. */
  function Deleted(tasks: map<TaskId, Task>, memory: map<TaskId, Task>, baseline: map<TaskId, Task>): set<TaskId> {
    set id | id in baseline && id !in memory && id in tasks && tasks[id].createdAt == baseline[id].createdAt
  }

  lemma {:induction false} DropTwice(events: seq<RegistryEvent>, a: set<TaskId>, b: set<TaskId>)
    ensures EventsWithout(EventsWithout(events, a), b) == EventsWithout(events, a + b)
  {
    if events != [] {
      var init, e := events[..|events| - 1], events[|events| - 1];
      DropTwice(init, a, b);
      var kept := EventsWithout(init, a);
      if e.taskId !in a {
        assert (kept + [e])[..|kept|] == kept;
      } else {
        assert kept + [] == kept;
      }
    }
  }

  /** The registry without some tasks and everything that belongs to them. */
  function Dropped(r: RegistryState, ids: set<TaskId>): RegistryState {
    RegistryState(r.tasks - ids, EventsWithout(r.events, ids), ReceiptsWithout(r.receipts, ids))
  }

  lemma {:induction false} DroppedOneMore(r: RegistryState, ids: set<TaskId>, id: TaskId, now: int)
    requires id in Dropped(r, ids).tasks
    ensures Registry.After(Dropped(r, ids), DeleteTask(id), now) == Dropped(r, ids + {id})
  {
    DropTwice(r.events, ids, {id});
    assert r.tasks - ids - {id} == r.tasks - (ids + {id});
    assert ReceiptsWithout(ReceiptsWithout(r.receipts, ids), {id}) == ReceiptsWithout(r.receipts, ids + {id});
  }

  lemma {:induction false} DroppedNone(r: RegistryState)
    ensures Dropped(r, {}) == r
  {
    NothingToDrop(r.events, {});
    assert r.tasks - {} == r.tasks;
    assert ReceiptsWithout(r.receipts, {}) == r.receipts;
  }

  method ApplyDeletions(merged: InMemoryRegistry, memory: map<TaskId, Task>, baseline: map<TaskId, Task>)
    returns (r: Result<(), SaveError>)
    modifies merged
    ensures r == Ok(())
    ensures merged.State() == Dropped(old(merged.State()), Deleted(old(merged.tasks), memory, baseline))
  {
    ghost var start := merged.State();
    ghost var gone: set<TaskId> := {};
    DroppedNone(start);
    var rest := baseline.Keys;
    while rest != {}
      invariant rest <= baseline.Keys
      invariant gone == Deleted(start.tasks, memory, baseline) - rest
      invariant merged.State() == Dropped(start, gone)
    {
      var id :| id in rest;
      rest := rest - {id};
      if id !in memory {
        if id in merged.tasks && merged.tasks[id].createdAt == baseline[id].createdAt {
          DroppedOneMore(start, gone, id, 0);
          var deleted := merged.Delete(id);
          if deleted.Err? {
            return Err(MergeFailed(id));
          }
          gone := gone + {id};
        }
      }
    }
    assert gone == Deleted(start.tasks, memory, baseline);
    r := Ok(());
  }

  method CarryMemoryEvents(merged: InMemoryRegistry, memory: seq<RegistryEvent>, now: int)
    returns (r: Result<(), SaveError>)
    modifies merged
    ensures r == Ok(())
    ensures merged.State()
         == old(merged.State()).(events := CarryEvents(old(merged.events), old(merged.tasks).Keys, memory, now))
  {
    for i := 0 to |memory|
      invariant merged.State()
             == old(merged.State()).(events := CarryEvents(old(merged.events), old(merged.tasks).Keys, memory[..i], now))
    {
      assert memory[..i + 1][..i] == memory[..i];
      var e := memory[i];
      if e.taskId in merged.tasks && !Represented(merged.events, e) {
        var recorded := merged.Record(e.taskId, e.kind, e.message, now);
        if recorded.Err? {
          return Err(MergeFailed(e.taskId));
        }
      }
    }
    assert memory[..|memory|] == memory;
    r := Ok(());
  }

  /** The receipts of one task. */
  method CarryReceiptsOf(merged: InMemoryRegistry, id: TaskId, receipts: map<ReceiptIdentity, StepReceipt>)
    returns (r: Result<(), SaveError>)
    requires id in merged.tasks
    requires forall k :: k in receipts ==> receipts[k].identity == k
    modifies merged
    ensures r == Ok(())
    ensures merged.State() == old(merged.State()).(receipts := old(merged.receipts) + ReceiptsFor(receipts, {id}))
  {
    ghost var start := merged.receipts;
    var rest := ReceiptsFor(receipts, {id}).Keys;
    ghost var done: set<ReceiptIdentity> := {};
    while rest != {}
      invariant rest + done == ReceiptsFor(receipts, {id}).Keys && rest !! done
      invariant merged.State() == old(merged.State()).(receipts := merged.receipts)
      invariant merged.receipts == start + Chosen(receipts, done)
    {
      var k :| k in rest;
      ghost var before := merged.State();
      var recorded := merged.RecordReceipt(receipts[k]);
      assert merged.State() == Registry.After(before, RecordStepReceipt(receipts[k]), 0);
      if recorded.Err? {
        return Err(MergeFailed(id));
      }
      ChosenOneMore(start, receipts, done, k);
      rest, done := rest - {k}, done + {k};
    }
    assert ReceiptsFor(receipts, {id}) == Chosen(receipts, done);
    r := Ok(());
  }

  function Chosen(receipts: map<ReceiptIdentity, StepReceipt>, keys: set<ReceiptIdentity>)
    : map<ReceiptIdentity, StepReceipt>
  {
    map k | k in keys && k in receipts :: receipts[k]
  }

  lemma {:induction false} ChosenOneMore(
    start: map<ReceiptIdentity, StepReceipt>, receipts: map<ReceiptIdentity, StepReceipt>,
    keys: set<ReceiptIdentity>, k: ReceiptIdentity)
    requires k in receipts
    ensures (start + Chosen(receipts, keys))[k := receipts[k]] == start + Chosen(receipts, keys + {k})
  {
  }

  lemma {:induction false} ReceiptsForMore(receipts: map<ReceiptIdentity, StepReceipt>, ids: set<TaskId>, id: TaskId)
    ensures ReceiptsFor(receipts, ids) + ReceiptsFor(receipts, {id}) == ReceiptsFor(receipts, ids + {id})
  {
  }

  lemma {:induction false} UnionTwice<K, V>(a: map<K, V>, b: map<K, V>, c: map<K, V>)
    ensures (a + b) + c == a + (b + c)
  {
  }

  method CarryMemoryReceipts(merged: InMemoryRegistry, memory: RegistryState) returns (r: Result<(), SaveError>)
    requires Integrity(memory)
    modifies merged
    ensures r == Ok(())
    ensures merged.State()
         == old(merged.State()).(receipts := old(merged.receipts) + ReceiptsFor(memory.receipts, old(merged.tasks).Keys))
  {
    ghost var start := merged.receipts;
    ghost var done: set<TaskId> := {};
    var rest := memory.tasks.Keys;
    assert start + ReceiptsFor(memory.receipts, {}) == start;
    while rest != {}
      invariant rest <= memory.tasks.Keys
      invariant done == (memory.tasks.Keys - rest) * merged.tasks.Keys
      invariant merged.State() == old(merged.State()).(receipts := merged.receipts)
      invariant merged.receipts == start + ReceiptsFor(memory.receipts, done)
    {
      var id :| id in rest;
      rest := rest - {id};
      if id in merged.tasks {
        r := CarryReceiptsOf(merged, id, memory.receipts);
        if r.Err? {
          return;
        }
        UnionTwice(start, ReceiptsFor(memory.receipts, done), ReceiptsFor(memory.receipts, {id}));
        ReceiptsForMore(memory.receipts, done, id);
        done := done + {id};
      }
    }
    assert ReceiptsFor(memory.receipts, done) == ReceiptsFor(memory.receipts, merged.tasks.Keys);
    r := Ok(());
  }

  /**
   The three-way merge.  It succeeds exactly when no task is refused, and a failure names the first one
   that is; no other error is possible.
   */
  method MergeRegistries(
    disk: RegistryState, inMemory: RegistryState, baseline: RegistryState, refresh: FactChange, now: int)
    returns (r: Result<RegistryState, SaveError>, ghost created: seq<TaskId>)
    requires Integrity(disk) && Integrity(inMemory) && Integrity(baseline)
    ensures r.Ok? ==> Merges(r.value, disk, inMemory, baseline, refresh, now, created)
    ensures r.Err? ==>
      r.error.StateConflict?
      && IsFirstConflict(disk.tasks, inMemory.tasks, baseline.tasks, r.error.id)
    ensures r.Err? <==> exists id :: RefusedAt(disk.tasks, inMemory.tasks, baseline.tasks, id)
  {
    var merged := new InMemoryRegistry(disk);
    var step: Result<(), SaveError>;
    step, created := MergeTasks(merged, disk, inMemory.tasks, baseline.tasks, refresh, now);
    match step {
      case Err(e) => return Err(e), created;
      case Ok(_) =>
    }
    ghost var tasksMerged := merged.State();
    step := ApplyDeletions(merged, inMemory.tasks, baseline.tasks);
    match step {
      case Err(e) => return Err(e), created;
      case Ok(_) =>
    }
    DeletionsMeaning(tasksMerged, merged.State(), disk, inMemory.tasks, baseline.tasks, refresh, now, created);
    step := CarryMemoryEvents(merged, inMemory.events, now);
    match step {
      case Err(e) => return Err(e), created;
      case Ok(_) =>
    }
    step := CarryMemoryReceipts(merged, inMemory);
    match step {
      case Err(e) => return Err(e), created;
      case Ok(_) => r := Ok(merged.State());
    }
    NoneRefused(merged.tasks, disk.tasks, inMemory.tasks, baseline.tasks, refresh);
  }

  lemma {:induction false} NoneRefused(
    merged: map<TaskId, Task>, disk: map<TaskId, Task>, memory: map<TaskId, Task>, baseline: map<TaskId, Task>,
    refresh: FactChange)
    requires MergesTasks(merged, disk, memory, baseline, refresh)
    ensures !exists id :: RefusedAt(disk, memory, baseline, id)
  {
    forall id
      ensures !RefusedAt(disk, memory, baseline, id)
    {
      assert OutcomeAt(disk, memory, baseline, refresh, id) == Keep(Lookup(merged, id));
      RefusalIsExact(Lookup(disk, id), Lookup(memory, id), Lookup(baseline, id), refresh);
    }
  }

  lemma {:induction false} DropFromConcat(a: seq<RegistryEvent>, b: seq<RegistryEvent>, ids: set<TaskId>)
    requires forall e :: e in b ==> e.taskId !in ids
    ensures EventsWithout(a + b, ids) == EventsWithout(a, ids) + b
  {
    if b == [] {
      assert a + b == a && EventsWithout(a, ids) + b == EventsWithout(a, ids);
    } else {
      var init, e := b[..|b| - 1], b[|b| - 1];
      InitAndLast(b);
      assert e in b;
      DropFromConcat(a, init, ids);
      Associative(a, init, [e]);
      KeptNext(a + init, e, ids);
      Associative(EventsWithout(a, ids), init, [e]);
    }
  }

  lemma {:induction false} KeptNext(events: seq<RegistryEvent>, e: RegistryEvent, ids: set<TaskId>)
    requires e.taskId !in ids
    ensures EventsWithout(events + [e], ids) == EventsWithout(events, ids) + [e]
  {
    assert (events + [e])[..|events|] == events;
  }

  lemma {:induction false} SameDrops(events: seq<RegistryEvent>, a: set<TaskId>, b: set<TaskId>)
    requires forall e :: e in events ==> (e.taskId in a <==> e.taskId in b)
    ensures EventsWithout(events, a) == EventsWithout(events, b)
  {
    if events != [] {
      SameDrops(events[..|events| - 1], a, b);
      assert events[|events| - 1] in events;
    }
  }

  lemma {:induction false} OutcomesAfterDeletions(
    tasksMerged: RegistryState, disk: RegistryState, memory: map<TaskId, Task>,
    baseline: map<TaskId, Task>, refresh: FactChange, now: int, created: seq<TaskId>, id: TaskId)
    requires TasksMergedUpTo(tasksMerged, disk, memory, baseline, refresh, now, {}, created)
    ensures OutcomeAt(disk.tasks, memory, baseline, refresh, id)
         == Keep(Lookup(tasksMerged.tasks - Deleted(tasksMerged.tasks, memory, baseline), id))
  {
    var gone := Deleted(tasksMerged.tasks, memory, baseline);
    if id !in memory {
      assert Lookup(tasksMerged.tasks, id) == Lookup(disk.tasks, id);
      assert id in disk.tasks <==> id in tasksMerged.tasks;
    } else {
      assert id !in gone;
    }
  }

  /** After the two loops over tasks, every task has its outcome, and disk's events and receipts of lost tasks are gone. */
  lemma {:induction false} DeletionsMeaning(
    tasksMerged: RegistryState, dropped: RegistryState, disk: RegistryState, memory: map<TaskId, Task>,
    baseline: map<TaskId, Task>, refresh: FactChange, now: int, created: seq<TaskId>)
    requires Integrity(disk)
    requires TasksMergedUpTo(tasksMerged, disk, memory, baseline, refresh, now, {}, created)
    requires dropped == Dropped(tasksMerged, Deleted(tasksMerged.tasks, memory, baseline))
    ensures MergesTasks(dropped.tasks, disk.tasks, memory, baseline, refresh)
    ensures ListsNew(created, disk.tasks, memory, baseline)
    ensures dropped.events == EventsWithout(disk.events, disk.tasks.Keys - dropped.tasks.Keys) + CreatedEvents(created, now)
    ensures dropped.receipts == ReceiptsFor(disk.receipts, dropped.tasks.Keys)
  {
    forall id
      ensures OutcomeAt(disk.tasks, memory, baseline, refresh, id) == Keep(Lookup(dropped.tasks, id))
    {
      OutcomesAfterDeletions(tasksMerged, disk, memory, baseline, refresh, now, created, id);
    }
    HistoryAfterDeletions(tasksMerged, disk, memory, baseline, refresh, now, created);
  }

  lemma {:induction false} HistoryAfterDeletions(
    tasksMerged: RegistryState, disk: RegistryState, memory: map<TaskId, Task>,
    baseline: map<TaskId, Task>, refresh: FactChange, now: int, created: seq<TaskId>)
    requires Integrity(disk)
    requires TasksMergedUpTo(tasksMerged, disk, memory, baseline, refresh, now, {}, created)
    ensures
      var gone := Deleted(tasksMerged.tasks, memory, baseline);
      var kept := (tasksMerged.tasks - gone).Keys;
      && EventsWithout(tasksMerged.events, gone)
           == EventsWithout(disk.events, disk.tasks.Keys - kept) + CreatedEvents(created, now)
      && ReceiptsWithout(tasksMerged.receipts, gone) == ReceiptsFor(disk.receipts, kept)
  {
    var gone := Deleted(tasksMerged.tasks, memory, baseline);
    var kept := (tasksMerged.tasks - gone).Keys;
    KeptOnDisk(tasksMerged, disk, memory, baseline, refresh, now, created);
    assert forall e :: e in CreatedEvents(created, now) ==> e.taskId in created;
    DropFromConcat(disk.events, CreatedEvents(created, now), gone);
    assert forall id :: id in disk.tasks ==> (id in gone <==> id !in kept);
    SameDrops(disk.events, gone, disk.tasks.Keys - kept);
  }

  /** A task of disk is lost only by being deleted: the loop over memory's tasks keeps it. */
  lemma {:induction false} KeptOnDisk(
    tasksMerged: RegistryState, disk: RegistryState, memory: map<TaskId, Task>, baseline: map<TaskId, Task>,
    refresh: FactChange, now: int, created: seq<TaskId>)
    requires TasksMergedUpTo(tasksMerged, disk, memory, baseline, refresh, now, {}, created)
    ensures forall id :: id in disk.tasks ==> id in tasksMerged.tasks
  {
    forall id | id in disk.tasks
      ensures id in tasksMerged.tasks
    {
      assert Lookup(disk.tasks, id).Some?;
      assert id in memory ==> OutcomeAt(disk.tasks, memory, baseline, refresh, id) == Keep(Lookup(tasksMerged.tasks, id));
    }
  }
}
