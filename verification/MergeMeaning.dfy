/** What a merged registry is, for its tasks and for their history (crates/ajax-cli/src/context.rs:293-427). */
module MergeMeaning {
  import opened Options
  import opened Lifecycle
  import opened Registry
  import opened TaskFacts
  import opened ContextMerge
  import opened TaskOrder
  import opened Sequences

  type Tasks = map<TaskId, Task>

  /**
   The surviving tasks are disk's, minus those memory deleted whose disk incarnation is still the
   baseline's, plus those that are new in memory.
   */
  lemma {:induction false} SurvivingIds(
    merged: Tasks, disk: Tasks, memory: Tasks, baseline: Tasks, refresh: FactChange, id: TaskId)
    requires MergesTasks(merged, disk, memory, baseline, refresh)
    ensures id in merged
       <==> (id in disk && id !in Deleted(disk, memory, baseline)) || IsNew(disk, memory, baseline, id)
  {
    assert OutcomeAt(disk, memory, baseline, refresh, id) == Keep(Lookup(merged, id));
    assert id in merged <==> Lookup(merged, id).Some?;
  }

  /**
   Exactly which tasks a merge has, by who holds them: memory's creations always survive, and what disk and
   memory both hold does; disk's own stay, unless memory deleted that very incarnation.
   */
  lemma {:induction false} MergedIds(
    merged: Tasks, disk: Tasks, memory: Tasks, baseline: Tasks, refresh: FactChange, id: TaskId)
    requires MergesTasks(merged, disk, memory, baseline, refresh)
    ensures id in memory ==> (id in merged <==> id in disk || id !in baseline)
    ensures id !in memory ==>
      (id in merged <==> id in disk && !(id in baseline && disk[id].createdAt == baseline[id].createdAt))
  {
    assert OutcomeAt(disk, memory, baseline, refresh, id) == Keep(Lookup(merged, id));
    assert id in merged <==> Lookup(merged, id).Some?;
  }

  /**
   What this process created since its baseline survives every merge: as create_task leaves it, or, if
   disk has a task of that id too, both versions and the merged one are the same.
   */
  lemma {:induction false} OwnCreationSurvives(
    merged: Tasks, disk: Tasks, memory: Tasks, baseline: Tasks, refresh: FactChange, id: TaskId)
    requires MergesTasks(merged, disk, memory, baseline, refresh)
    requires id in memory && id !in baseline
    ensures id in merged
    ensures if id in disk then merged[id] == memory[id] == disk[id] else merged[id] == refresh(memory[id])
  {
    assert OutcomeAt(disk, memory, baseline, refresh, id) == Keep(Lookup(merged, id));
    RefusalIsExact(Lookup(disk, id), Lookup(memory, id), Lookup(baseline, id), refresh);
  }

  /** A task memory does not hold is as disk has it, if the merge has it. */
  lemma {:induction false} OthersTaskStays(
    merged: Tasks, disk: Tasks, memory: Tasks, baseline: Tasks, refresh: FactChange, id: TaskId)
    requires MergesTasks(merged, disk, memory, baseline, refresh)
    requires id in merged && id !in memory
    ensures id in disk && merged[id] == disk[id]
  {
    assert OutcomeAt(disk, memory, baseline, refresh, id) == Keep(Lookup(merged, id));
  }

  /** There is a merge of the tasks unless one of them is refused. */
  lemma {:induction false} MergeExistsExactly(disk: Tasks, memory: Tasks, baseline: Tasks, refresh: FactChange)
    ensures (exists merged :: MergesTasks(merged, disk, memory, baseline, refresh))
       <==> !exists id :: RefusedAt(disk, memory, baseline, id)
  {
    if merged :| MergesTasks(merged, disk, memory, baseline, refresh) {
      NoneRefused(merged, disk, memory, baseline, refresh);
    }
    if !exists id :: RefusedAt(disk, memory, baseline, id) {
      var kept := set id | id in disk.Keys + memory.Keys && OutcomeAt(disk, memory, baseline, refresh, id).Keep?
                           && OutcomeAt(disk, memory, baseline, refresh, id).task.Some?;
      var merged := map id | id in kept :: OutcomeAt(disk, memory, baseline, refresh, id).task.value;
      forall id
        ensures OutcomeAt(disk, memory, baseline, refresh, id) == Keep(Lookup(merged, id))
      {
        RefusalIsExact(Lookup(disk, id), Lookup(memory, id), Lookup(baseline, id), refresh);
        assert !RefusedAt(disk, memory, baseline, id);
        assert id in kept ==> Lookup(merged, id) == OutcomeAt(disk, memory, baseline, refresh, id).task;
      }
      assert MergesTasks(merged, disk, memory, baseline, refresh);
    }
  }

  /** A task present in disk, memory and baseline, field by field. */
  lemma {:induction false} SharedTaskFields(
    merged: Tasks, disk: Tasks, memory: Tasks, baseline: Tasks, refresh: FactChange, id: TaskId, f: Field)
    requires MergesTasks(merged, disk, memory, baseline, refresh)
    requires id in disk && id in memory && id in baseline
    ensures id in merged
    ensures
      var d, m, b := FieldOf(disk[id], f), FieldOf(memory[id], f), FieldOf(baseline[id], f);
      FieldOf(merged[id], f)
      == if m != b && (m.Some? || disk[id] == baseline[id]) then m else d
  {
    assert OutcomeAt(disk, memory, baseline, refresh, id) == Keep(Lookup(merged, id));
    SharedField(disk[id], memory[id], baseline[id], refresh, f);
  }

  lemma {:induction false} SharedField(disk: Task, memory: Task, baseline: Task, refresh: FactChange, f: Field)
    ensures
      var o := HeldOutcome(Some(disk), memory, Some(baseline), refresh);
      var d, m, b := FieldOf(disk, f), FieldOf(memory, f), FieldOf(baseline, f);
      o.Keep? ==>
        (o.task.Some? && FieldOf(o.task.value, f) == if m != b && (m.Some? || disk == baseline) then m else d)
  {
    if disk == baseline {
    } else if baseline == memory || disk == memory {
    } else {
      match MergedFacts(disk, memory, baseline)
      case None =>
      case Some(_) => FieldMeaning(disk, memory, baseline, f);
    }
  }

  /** A field memory cleared is cleared by the merge exactly when disk lacks it too or still has the baseline's task. */
  lemma {:induction false} ClearedField(
    merged: Tasks, disk: Tasks, memory: Tasks, baseline: Tasks, refresh: FactChange, id: TaskId, f: Field)
    requires MergesTasks(merged, disk, memory, baseline, refresh)
    requires id in disk && id in memory && id in baseline
    requires FieldOf(baseline[id], f).Some? && FieldOf(memory[id], f).None?
    ensures id in merged
    ensures FieldOf(merged[id], f).None? <==> FieldOf(disk[id], f).None? || disk[id] == baseline[id]
  {
    SharedTaskFields(merged, disk, memory, baseline, refresh, id, f);
  }

  /** There is at most one merge of the tasks. */
  lemma {:induction false} MergeIsUnique(
    a: Tasks, b: Tasks, disk: Tasks, memory: Tasks, baseline: Tasks, refresh: FactChange)
    requires MergesTasks(a, disk, memory, baseline, refresh) && MergesTasks(b, disk, memory, baseline, refresh)
    ensures a == b
  {
    forall id
      ensures Lookup(a, id) == Lookup(b, id)
    {
      assert OutcomeAt(disk, memory, baseline, refresh, id) == Keep(Lookup(a, id));
    }
    SameEntries(a, b);
  }

  /** Merging onto an unchanged disk never conflicts and yields memory's tasks, new ones as create_task refreshes them. */
  lemma {:induction false} DiskUnchanged(disk: Tasks, memory: Tasks, refresh: FactChange)
    ensures MergesTasks(
      map id | id in memory :: if id in disk then memory[id] else refresh(memory[id]), disk, memory, disk, refresh)
  {
    var merged := map id | id in memory :: if id in disk then memory[id] else refresh(memory[id]);
    forall id
      ensures OutcomeAt(disk, memory, disk, refresh, id) == Keep(Lookup(merged, id))
    {
      assert id in merged <==> id in memory;
    }
  }

  /** Disk moved the lifecycle of a task memory left alone, and neither version is removed. */
  ghost predicate LifecycleMovedOnDisk(disk: Tasks, memory: Tasks) {
    exists id :: id in disk && id in memory && disk[id].lifecycle != memory[id].lifecycle
              && !disk[id].lifecycle.Removed? && !memory[id].lifecycle.Removed?
  }

  /** Merging from an unchanged memory yields disk's tasks, unless disk alone moved some lifecycle: then it is refused. */
  lemma {:induction false} MemoryUnchanged(disk: Tasks, memory: Tasks, refresh: FactChange)
    ensures MergesTasks(disk, disk, memory, memory, refresh) <==> !LifecycleMovedOnDisk(disk, memory)
    ensures (exists id :: OutcomeAt(disk, memory, memory, refresh, id).Conflict?) <==> LifecycleMovedOnDisk(disk, memory)
  {
    if id :| id in disk && id in memory && disk[id].lifecycle != memory[id].lifecycle
             && !disk[id].lifecycle.Removed? && !memory[id].lifecycle.Removed? {
      assert OutcomeAt(disk, memory, memory, refresh, id).Conflict?;
    }
  }

  /** A task memory did not touch keeps what disk has, if the merge succeeds at all. */
  lemma {:induction false} UntouchedKeepsDisk(
    merged: Tasks, disk: Tasks, memory: Tasks, baseline: Tasks, refresh: FactChange, id: TaskId)
    requires MergesTasks(merged, disk, memory, baseline, refresh)
    requires Lookup(memory, id) == Lookup(baseline, id)
    ensures Lookup(merged, id) == Lookup(disk, id)
  {
    assert OutcomeAt(disk, memory, baseline, refresh, id) == Keep(Lookup(merged, id));
  }

  // History.

  lemma {:induction false} CarryKeepsPrefix(events: seq<RegistryEvent>, ids: set<TaskId>, memory: seq<RegistryEvent>, now: int)
    ensures events <= CarryEvents(events, ids, memory, now)
  {
    if memory != [] {
      CarryKeepsPrefix(events, ids, memory[..|memory| - 1], now);
    }
  }

  lemma {:induction false} CarryRepresents(
    events: seq<RegistryEvent>, ids: set<TaskId>, memory: seq<RegistryEvent>, now: int, e: RegistryEvent)
    requires e in memory && e.taskId in ids
    ensures Represented(CarryEvents(events, ids, memory, now), e)
  {
    var init, last := memory[..|memory| - 1], memory[|memory| - 1];
    var before, after := CarryEvents(events, ids, init, now), CarryEvents(events, ids, memory, now);
    if e in init {
      CarryRepresents(events, ids, init, now, e);
      var x :| x in before && SameStory(x, e);
      assert x in after;
    } else {
      assert memory == init + [last];
      if !Represented(before, last) {
        assert RegistryEvent(last.taskId, last.kind, last.message, now) in after;
      }
    }
  }

  predicate Retells(x: RegistryEvent, e: RegistryEvent) {
    x.taskId == e.taskId && x.kind == e.kind && x.message == e.message
  }

  /** An event of a surviving task that neither start nor any earlier event of memory tells of. */
  predicate IsCarried(start: seq<RegistryEvent>, ids: set<TaskId>, memory: seq<RegistryEvent>, i: nat)
    requires i < |memory|
  {
    && memory[i].taskId in ids
    && (forall x :: x in start ==> !Retells(x, memory[i]))
    && (forall j :: 0 <= j < i ==> !Retells(memory[j], memory[i]))
  }

  /** The events that are carried, in memory's order and stamped with the time of the merge. */
  function Carried(start: seq<RegistryEvent>, ids: set<TaskId>, memory: seq<RegistryEvent>, now: int, n: nat)
    : seq<RegistryEvent>
    requires n <= |memory|
  {
    if n == 0 then []
    else Carried(start, ids, memory, now, n - 1)
         + if IsCarried(start, ids, memory, n - 1) then [memory[n - 1].(occurredAt := now)] else []
  }

  lemma {:induction false} RepresentedNext(events: seq<RegistryEvent>, x: RegistryEvent, e: RegistryEvent)
    ensures Represented(events + [x], e) <==> Represented(events, e) || SameStory(x, e)
  {
    assert x in events + [x];
    assert forall y :: y in events + [x] <==> y in events || y == x;
  }

  /** One of memory's first n events tells the story. */
  ghost predicate ToldBefore(memory: seq<RegistryEvent>, n: nat, e: RegistryEvent)
    requires n <= |memory|
  {
    exists j :: 0 <= j < n && SameStory(memory[j], e)
  }

  lemma {:induction false} ToldBeforeNext(memory: seq<RegistryEvent>, n: nat, e: RegistryEvent)
    requires n < |memory|
    ensures ToldBefore(memory, n + 1, e) <==> ToldBefore(memory, n, e) || SameStory(memory[n], e)
  {
  }

  lemma {:induction false} NotCarriedIsTold(
    start: seq<RegistryEvent>, ids: set<TaskId>, memory: seq<RegistryEvent>, n: nat, e: RegistryEvent)
    requires n < |memory| && e.taskId in ids && SameStory(memory[n], e)
    ensures IsCarried(start, ids, memory, n) <==> !Represented(start, e) && !ToldBefore(memory, n, e)
  {
  }

  lemma {:induction false} CarriedTellsExactly(
    start: seq<RegistryEvent>, ids: set<TaskId>, memory: seq<RegistryEvent>, now: int, n: nat, e: RegistryEvent)
    requires n <= |memory| && e.taskId in ids
    ensures Represented(start + Carried(start, ids, memory, now, n), e)
       <==> Represented(start, e) || ToldBefore(memory, n, e)
  {
    if n == 0 {
      assert start + [] == start;
    } else {
      CarriedTellsExactly(start, ids, memory, now, n - 1, e);
      CarriedOneMore(start, ids, memory, now, n - 1, e);
      ToldBeforeNext(memory, n - 1, e);
      if SameStory(memory[n - 1], e) {
        NotCarriedIsTold(start, ids, memory, n - 1, e);
      }
    }
  }

  lemma {:induction false} CarriedOneMore(
    start: seq<RegistryEvent>, ids: set<TaskId>, memory: seq<RegistryEvent>, now: int, n: nat, e: RegistryEvent)
    requires n < |memory| && e.taskId in ids
    ensures Represented(start + Carried(start, ids, memory, now, n + 1), e)
       <==> Represented(start + Carried(start, ids, memory, now, n), e)
            || (SameStory(memory[n], e) && IsCarried(start, ids, memory, n))
  {
    var before, after := start + Carried(start, ids, memory, now, n), start + Carried(start, ids, memory, now, n + 1);
    if IsCarried(start, ids, memory, n) {
      assert after == before + [memory[n].(occurredAt := now)];
      RepresentedNext(before, memory[n].(occurredAt := now), e);
    } else {
      assert after == before;
    }
  }

  /** Memory's events are carried over in its order, each story of a surviving task once, if it is not told already. */
  lemma {:induction false} CarryIsFilter(
    start: seq<RegistryEvent>, ids: set<TaskId>, memory: seq<RegistryEvent>, now: int, n: nat)
    requires n <= |memory|
    ensures CarryEvents(start, ids, memory[..n], now) == start + Carried(start, ids, memory, now, n)
  {
    if n == 0 {
      assert start + [] == start;
    } else {
      CarryIsFilter(start, ids, memory, now, n - 1);
      var e := memory[n - 1];
      assert memory[..n][..n - 1] == memory[..n - 1];
      if e.taskId in ids {
        CarriedTellsExactly(start, ids, memory, now, n - 1, e);
        NotCarriedIsTold(start, ids, memory, n - 1, e);
      }
      Associative(start, Carried(start, ids, memory, now, n - 1), [e.(occurredAt := now)]);
      assert Carried(start, ids, memory, now, n - 1) + [] == Carried(start, ids, memory, now, n - 1);
    }
  }

  lemma {:induction false} CarryStaysAmong(
    events: seq<RegistryEvent>, ids: set<TaskId>, memory: seq<RegistryEvent>, now: int)
    requires forall e :: e in events ==> e.taskId in ids
    ensures forall e :: e in CarryEvents(events, ids, memory, now) ==> e.taskId in ids
  {
    if memory != [] {
      CarryStaysAmong(events, ids, memory[..|memory| - 1], now);
    }
  }

  /** No event from position start on tells the story of an earlier one. */
  ghost predicate NoRepeats(events: seq<RegistryEvent>, start: nat) {
    forall p, q :: 0 <= p < q < |events| && start <= q ==> !SameStory(events[p], events[q])
  }

  lemma {:induction false} CarryNeverRepeats(
    events: seq<RegistryEvent>, ids: set<TaskId>, memory: seq<RegistryEvent>, now: int, start: nat)
    requires NoRepeats(events, start)
    ensures NoRepeats(CarryEvents(events, ids, memory, now), start)
  {
    if memory != [] {
      var init, e := memory[..|memory| - 1], memory[|memory| - 1];
      CarryNeverRepeats(events, ids, init, now, start);
      var before := CarryEvents(events, ids, init, now);
      if !Represented(before, e) {
        assert forall p :: 0 <= p < |before| ==> before[p] in before && !SameStory(before[p], e);
      }
    }
  }

  lemma {:induction false} CreatedNeverRepeat(
    events: seq<RegistryEvent>, created: seq<TaskId>, now: int)
    requires forall e :: e in events ==> e.taskId !in created
    requires forall i, j :: 0 <= i < j < |created| ==> created[i] != created[j]
    ensures NoRepeats(events + CreatedEvents(created, now), |events|)
  {
    var all := events + CreatedEvents(created, now);
    forall p, q | 0 <= p < q < |all| && |events| <= q
      ensures !SameStory(all[p], all[q])
    {
      assert all[q].taskId == created[q - |events|];
      if p < |events| {
        assert all[p] == events[p] && events[p] in events;
      } else {
        assert all[p].taskId == created[p - |events|];
      }
    }
  }

  /** Disk's events of surviving tasks. */
  function SurvivingDiskEvents(merged: RegistryState, disk: RegistryState): seq<RegistryEvent> {
    EventsWithout(disk.events, disk.tasks.Keys - merged.tasks.Keys)
  }

  /**
   Event carry-over: disk's events of surviving tasks come first and in order; every event memory has
   of a surviving task is represented; and nothing is added that was there already.
   */
  lemma {:induction false} EventCarryOver(
    merged: RegistryState, disk: RegistryState, memory: RegistryState, baseline: RegistryState,
    refresh: FactChange, now: int, created: seq<TaskId>)
    requires Integrity(disk)
    requires Merges(merged, disk, memory, baseline, refresh, now, created)
    ensures SurvivingDiskEvents(merged, disk) <= merged.events
    ensures forall e :: e in memory.events && e.taskId in merged.tasks ==> Represented(merged.events, e)
    ensures NoRepeats(merged.events, |SurvivingDiskEvents(merged, disk)|)
  {
    var ids, kept := merged.tasks.Keys, SurvivingDiskEvents(merged, disk);
    var start := kept + CreatedEvents(created, now);
    CarryKeepsPrefix(start, ids, memory.events, now);
    forall e | e in memory.events && e.taskId in merged.tasks
      ensures Represented(merged.events, e)
    {
      CarryRepresents(start, ids, memory.events, now, e);
    }
    EventsWithoutIsFilter(disk.events, disk.tasks.Keys - ids);
    assert forall e :: e in kept ==> e.taskId in disk.tasks;
    assert forall id :: id in created ==> id !in disk.tasks;
    IncreasingIsDistinct(created);
    CreatedNeverRepeat(kept, created, now);
    CarryNeverRepeats(start, ids, memory.events, now, |kept|);
  }

  /**
   The merged events, exactly: disk's of surviving tasks, the creations of the new ones in the order of
   their ids, and memory's stories that these do not tell, once each and in memory's order.
   */
  lemma {:induction false} MergedEvents(
    merged: RegistryState, disk: RegistryState, memory: RegistryState, baseline: RegistryState,
    refresh: FactChange, now: int, created: seq<TaskId>)
    requires Merges(merged, disk, memory, baseline, refresh, now, created)
    ensures
      var start := SurvivingDiskEvents(merged, disk) + seq(|created|, i requires 0 <= i < |created| =>
        RegistryEvent(created[i], TaskCreated, "task created", now));
      merged.events == start + Carried(start, merged.tasks.Keys, memory.events, now, |memory.events|)
    ensures forall id :: id in created <==> id in memory.tasks && id !in disk.tasks && id !in baseline.tasks
    ensures forall i, j :: 0 <= i < j < |created| ==> Precedes(created[i], created[j])
  {
    var start := SurvivingDiskEvents(merged, disk) + CreatedEvents(created, now);
    assert CreatedEvents(created, now) == seq(|created|, i requires 0 <= i < |created| =>
        RegistryEvent(created[i], TaskCreated, "task created", now));
    assert memory.events[..|memory.events|] == memory.events;
    CarryIsFilter(start, merged.tasks.Keys, memory.events, now, |memory.events|);
  }

  /** Receipt carry-over: of surviving tasks, memory's receipts win by identity and disk-only ones stay. */
  lemma {:induction false} ReceiptCarryOver(
    merged: RegistryState, disk: RegistryState, memory: RegistryState, baseline: RegistryState,
    refresh: FactChange, now: int, created: seq<TaskId>, k: ReceiptIdentity)
    requires Merges(merged, disk, memory, baseline, refresh, now, created)
    ensures Lookup(merged.receipts, k)
         == if k.taskId !in merged.tasks then None
            else if k in memory.receipts then Some(memory.receipts[k])
            else Lookup(disk.receipts, k)
  {
  }

  lemma {:induction false} OutcomeKeepsId(
    disk: Tasks, memory: Tasks, baseline: Tasks, refresh: FactChange, id: TaskId)
    requires OutcomeAt(disk, memory, baseline, refresh, id).Keep?
    requires OutcomeAt(disk, memory, baseline, refresh, id).task.Some?
    requires id in disk ==> disk[id].id == id
    requires id in memory ==> memory[id].id == id
    ensures OutcomeAt(disk, memory, baseline, refresh, id).task.value.id == id
  {
    if id in disk && id in memory && id in baseline && MergedFacts(disk[id], memory[id], baseline[id]).Some? {
      MergeKeepsIdentity(disk[id], memory[id], baseline[id]);
    }
  }

  /** A merge keeps every event and receipt with a present task. */
  lemma {:induction false} MergeKeepsIntegrity(
    merged: RegistryState, disk: RegistryState, memory: RegistryState, baseline: RegistryState,
    refresh: FactChange, now: int, created: seq<TaskId>)
    requires Integrity(disk) && Integrity(memory)
    requires Merges(merged, disk, memory, baseline, refresh, now, created)
    ensures Integrity(merged)
  {
    forall id | id in merged.tasks
      ensures merged.tasks[id].id == id
    {
      assert OutcomeAt(disk.tasks, memory.tasks, baseline.tasks, refresh, id) == Keep(Some(merged.tasks[id]));
      OutcomeKeepsId(disk.tasks, memory.tasks, baseline.tasks, refresh, id);
    }
    var ids, kept := merged.tasks.Keys, SurvivingDiskEvents(merged, disk);
    EventsWithoutIsFilter(disk.events, disk.tasks.Keys - ids);
    forall id | id in created
      ensures id in ids
    {
      SurvivingIds(merged.tasks, disk.tasks, memory.tasks, baseline.tasks, refresh, id);
    }
    CarryStaysAmong(kept + CreatedEvents(created, now), ids, memory.events, now);
  }
}
