/**
 What the save protocol keeps over many commits, and exactly when a direct save is the merge it stands
 for (crates/ajax-cli/src/context.rs:236-283, 293-427).
 */
module SaveRuns {
  import opened Options
  import opened Lifecycle
  import opened Registry
  import opened TaskFacts
  import opened ContextMerge
  import opened ContextSave
  import opened MergeMeaning
  import opened SaveProtocol

  // Direct saves.

  /** Wherever memory differs from disk, memory holds the field and disk still has the baseline's. */
  ghost predicate ExtendsDisk(disk: Task, memory: Task, baseline: Task) {
    forall f :: FieldOf(disk, f) == FieldOf(memory, f)
             || (FieldOf(memory, f).Some? && FieldOf(disk, f) == FieldOf(baseline, f))
  }

  /**
   Saving memory as it is does to the task what the merge would: disk has the baseline's version or
   memory's, or memory deleted the incarnation disk has, or memory makes all of disk's changes.
   */
  ghost predicate NeedsNoMerge(disk: Option<Task>, memory: Option<Task>, baseline: Option<Task>) {
    || disk == baseline
    || disk == memory
    || (memory.None? && disk.Some? && baseline.Some? && disk.value.createdAt == baseline.value.createdAt)
    || (memory.Some? && disk.Some? && baseline.Some? && ExtendsDisk(disk.value, memory.value, baseline.value))
  }

  lemma {:induction false} SameFields(a: Task, b: Task)
    requires forall f :: FieldOf(a, f) == FieldOf(b, f)
    ensures a == b
  {
    assert FieldOf(a, IdField) == FieldOf(b, IdField);
    assert FieldOf(a, CreatedAtField) == FieldOf(b, CreatedAtField);
    assert FieldOf(a, LifecycleField) == FieldOf(b, LifecycleField);
    forall name
      ensures Lookup(a.facts, name) == Lookup(b.facts, name)
    {
      assert FieldOf(a, Fact(name)) == FieldOf(b, Fact(name));
    }
    SameEntries(a.facts, b.facts);
  }

  lemma {:induction false} ExtendedIsMerged(disk: Task, memory: Task, baseline: Task)
    requires ExtendsDisk(disk, memory, baseline)
    ensures MergedFacts(disk, memory, baseline) == Some(memory)
  {
    var d, m, b := Encode(disk), Encode(memory), Encode(baseline);
    forall f
      ensures Lookup(d, f) == FieldOf(disk, f) && Lookup(m, f) == FieldOf(memory, f) && Lookup(b, f) == FieldOf(baseline, f)
    {
      EncodedField(disk, f);
      EncodedField(memory, f);
      EncodedField(baseline, f);
    }
    RefusedExactly(d, m, b);
    forall f | f in m
      ensures !AllDiffer(m, d, b, f)
    {
      assert FieldOf(disk, f) == FieldOf(memory, f)
             || (FieldOf(memory, f).Some? && FieldOf(disk, f) == FieldOf(baseline, f));
    }
    EncodeDecodes(disk);
    EncodeDecodes(memory);
    MergedFieldsDecode(d, m, b);
    var merged := MergedFacts(disk, memory, baseline).value;
    forall f
      ensures FieldOf(merged, f) == FieldOf(memory, f)
    {
      FieldMeaning(disk, memory, baseline, f);
      assert FieldOf(disk, f) == FieldOf(memory, f)
             || (FieldOf(memory, f).Some? && FieldOf(disk, f) == FieldOf(baseline, f));
    }
    SameFields(merged, memory);
  }

  lemma {:induction false} MergedIsExtended(disk: Task, memory: Task, baseline: Task)
    requires MergedFacts(disk, memory, baseline) == Some(memory)
    ensures ExtendsDisk(disk, memory, baseline)
  {
    var d, m, b := Encode(disk), Encode(memory), Encode(baseline);
    RefusedExactly(d, m, b);
    forall f
      ensures FieldOf(disk, f) == FieldOf(memory, f)
           || (FieldOf(memory, f).Some? && FieldOf(disk, f) == FieldOf(baseline, f))
    {
      FieldMeaning(disk, memory, baseline, f);
      EncodedField(disk, f);
      EncodedField(memory, f);
      EncodedField(baseline, f);
      assert f in m ==> !AllDiffer(m, d, b, f);
    }
  }

  lemma {:induction false} MergedMemory(disk: Task, memory: Task, baseline: Task)
    ensures MergedFacts(disk, memory, baseline) == Some(memory) <==> ExtendsDisk(disk, memory, baseline)
  {
    if ExtendsDisk(disk, memory, baseline) {
      ExtendedIsMerged(disk, memory, baseline);
    } else if MergedFacts(disk, memory, baseline) == Some(memory) {
      MergedIsExtended(disk, memory, baseline);
    }
  }

  lemma {:induction false} ExtendingKeepsLifecycle(disk: Task, memory: Task, baseline: Task)
    ensures ExtendsDisk(disk, memory, baseline) ==> !LifecycleDiverged(Some(disk), memory, Some(baseline))
  {
    assert ExtendsDisk(disk, memory, baseline) ==>
           FieldOf(disk, LifecycleField) == FieldOf(memory, LifecycleField)
           || FieldOf(disk, LifecycleField) == FieldOf(baseline, LifecycleField);
  }

  lemma {:induction false} UnchangedExtendsItself(disk: Task, memory: Task)
    requires ExtendsDisk(disk, memory, memory)
    ensures disk == memory
  {
    SameFields(disk, memory);
  }

  lemma {:induction false} HeldByAll(disk: Task, memory: Task, baseline: Task, refresh: FactChange)
    ensures HeldOutcome(Some(disk), memory, Some(baseline), refresh) == Keep(Some(memory))
       <==> disk == baseline || disk == memory || ExtendsDisk(disk, memory, baseline)
  {
    if disk == baseline || disk == memory {
      HeldAsItIs(disk, memory, baseline, refresh);
    } else if baseline == memory {
      if ExtendsDisk(disk, memory, baseline) {
        UnchangedExtendsItself(disk, memory);
      }
    } else {
      HeldByMerge(disk, memory, baseline, refresh);
    }
  }

  lemma {:induction false} HeldAsItIs(disk: Task, memory: Task, baseline: Task, refresh: FactChange)
    requires disk == baseline || disk == memory
    ensures HeldOutcome(Some(disk), memory, Some(baseline), refresh) == Keep(Some(memory))
  {
  }

  lemma {:induction false} HeldByMerge(disk: Task, memory: Task, baseline: Task, refresh: FactChange)
    requires disk != baseline && disk != memory && baseline != memory
    ensures HeldOutcome(Some(disk), memory, Some(baseline), refresh) == Keep(Some(memory))
       <==> ExtendsDisk(disk, memory, baseline)
  {
    SharedByMerge(disk, memory, baseline, refresh, MergedFacts(disk, memory, baseline));
    MergedMemory(disk, memory, baseline);
    ExtendingKeepsLifecycle(disk, memory, baseline);
  }

  lemma {:induction false} OutcomeIsMemory(
    disk: Option<Task>, memory: Option<Task>, baseline: Option<Task>, refresh: FactChange)
    requires forall t :: refresh(t) == t
    ensures ContextMerge.Outcome(disk, memory, baseline, refresh) == Keep(memory)
       <==> NeedsNoMerge(disk, memory, baseline)
  {
    if disk.Some? && memory.Some? && baseline.Some? {
      HeldByAll(disk.value, memory.value, baseline.value, refresh);
    }
  }

  /** A direct save is the three-way merge of the store with memory and baseline exactly if no task needs one. */
  lemma {:induction false} DirectSaveIsMergeExactly(env: Env, ss: seq<World>, actions: seq<Action>, i: nat)
    requires IsRun(env, ss, actions) && i < |actions|
    requires Commits(ss[i], actions[i])
    requires ss[i].writers[actions[i].w].progress.diskRevision == ss[i].writers[actions[i].w].loadedRevision
    ensures
      var writer := ss[i].writers[actions[i].w];
      var disk := Current(ss[i]).tasks;
      MergesTasks(Current(ss[i + 1]).tasks, disk, writer.memory.tasks, writer.loaded.tasks,
                  RefreshOf(env, writer, writer.progress.diskRevision))
      <==> forall id :: NeedsNoMerge(Lookup(disk, id), Lookup(writer.memory.tasks, id), Lookup(writer.loaded.tasks, id))
  {
    DirectSaveStoresMemory(env, ss, actions, i);
    var writer := ss[i].writers[actions[i].w];
    MemoryIsMerge(Current(ss[i]).tasks, writer.memory.tasks, writer.loaded.tasks,
                  RefreshOf(env, writer, writer.progress.diskRevision));
  }

  lemma {:induction false} DirectSaveStoresMemory(env: Env, ss: seq<World>, actions: seq<Action>, i: nat)
    requires IsRun(env, ss, actions) && i < |actions|
    requires Commits(ss[i], actions[i])
    requires ss[i].writers[actions[i].w].progress.diskRevision == ss[i].writers[actions[i].w].loadedRevision
    ensures ss[i + 1].history != [] && Current(ss[i + 1]) == ss[i].writers[actions[i].w].memory
  {
    SoundAlways(env, ss, actions, i);
    assert WriterSound(env, ss[i], ss[i].writers[actions[i].w]);
    assert Step(env, ss[i], actions[i], ss[i + 1]);
  }

  lemma {:induction false} MemoryIsMerge(disk: Tasks, memory: Tasks, baseline: Tasks, refresh: FactChange)
    requires forall t :: refresh(t) == t
    ensures MergesTasks(memory, disk, memory, baseline, refresh)
       <==> forall id :: NeedsNoMerge(Lookup(disk, id), Lookup(memory, id), Lookup(baseline, id))
  {
    forall id
      ensures OutcomeAt(disk, memory, baseline, refresh, id) == Keep(Lookup(memory, id))
         <==> NeedsNoMerge(Lookup(disk, id), Lookup(memory, id), Lookup(baseline, id))
    {
      OutcomeIsMemory(Lookup(disk, id), Lookup(memory, id), Lookup(baseline, id), refresh);
    }
  }

  // What the committer created.

  /**
   What a process created since its baseline is stored by its commit, whatever others stored meanwhile: by
   a direct save as it is, by a merge as create_task leaves it, unless the very same task is stored already.
   */
  lemma {:induction false} CreationsSurvive(env: Env, ss: seq<World>, actions: seq<Action>, i: nat, id: TaskId)
    requires IsRun(env, ss, actions) && i < |actions|
    requires Commits(ss[i], actions[i])
    requires id in ss[i].writers[actions[i].w].memory.tasks && id !in ss[i].writers[actions[i].w].loaded.tasks
    ensures
      var writer := ss[i].writers[actions[i].w];
      var merges := writer.progress.diskRevision != writer.loadedRevision;
      var stored, mine := Current(ss[i]).tasks, writer.memory.tasks[id];
      && ss[i + 1].history != [] && id in Current(ss[i + 1]).tasks
      && (merges && id in stored ==> stored[id] == mine)
      && Current(ss[i + 1]).tasks[id] == if merges && id !in stored then env.refresh(mine) else mine
  {
    var writer := ss[i].writers[actions[i].w];
    if writer.progress.diskRevision == writer.loadedRevision {
      DirectSaveStoresMemory(env, ss, actions, i);
    } else {
      SoundAlways(env, ss, actions, i + 1);
      CommitIsMerge(env, ss, actions, i);
      OwnCreationSurvives(Current(ss[i + 1]).tasks, Current(ss[i]).tasks, writer.memory.tasks, writer.loaded.tasks,
                          RefreshOf(env, writer, writer.progress.diskRevision), id);
    }
  }

  // Many commits.

  /** The writer's edits since its baseline leave the field of the task alone. */
  predicate LeavesField(writer: Writer, id: TaskId, f: Field) {
    && (id in writer.memory.tasks <==> id in writer.loaded.tasks)
    && (id in writer.memory.tasks && id in writer.loaded.tasks ==>
          FieldOf(writer.memory.tasks[id], f) == FieldOf(writer.loaded.tasks[id], f))
  }

  ghost predicate HasField(s: World, id: TaskId, f: Field, v: Option<FieldValue>) {
    s.history != [] && id in Current(s).tasks && FieldOf(Current(s).tasks[id], f) == v
  }

  lemma {:induction false} MergeLeavesField(
    merged: Tasks, disk: Tasks, memory: Tasks, baseline: Tasks, refresh: FactChange, id: TaskId, f: Field)
    requires MergesTasks(merged, disk, memory, baseline, refresh)
    requires id in disk && (id in memory <==> id in baseline)
    requires id in memory && id in baseline ==> FieldOf(memory[id], f) == FieldOf(baseline[id], f)
    ensures id in merged && FieldOf(merged[id], f) == FieldOf(disk[id], f)
  {
    if id in memory {
      SharedTaskFields(merged, disk, memory, baseline, refresh, id, f);
    } else {
      UntouchedKeepsDisk(merged, disk, memory, baseline, refresh, id);
    }
  }

  lemma {:induction false} OtherStepsKeepStore(env: Env, s: World, a: Action, t: World)
    requires Step(env, s, a, t) && !Commits(s, a)
    ensures t.history == s.history
  {
  }

  /** One step of a run leaves the field alone, if it is not a commit of a writer that changed it. */
  lemma {:induction false} StepLeavesField(
    env: Env, ss: seq<World>, actions: seq<Action>, k: nat, id: TaskId, f: Field, v: Option<FieldValue>)
    requires IsRun(env, ss, actions) && k < |actions| && LoadsAreAtomic(ss, actions)
    requires HasField(ss[k], id, f, v)
    requires Commits(ss[k], actions[k]) ==> LeavesField(ss[k].writers[actions[k].w], id, f)
    ensures HasField(ss[k + 1], id, f, v)
  {
    if Commits(ss[k], actions[k]) {
      EveryCommitIsMerge(env, ss, actions, k);
      SoundAlways(env, ss, actions, k + 1);
      var writer := ss[k].writers[actions[k].w];
      MergeLeavesField(Current(ss[k + 1]).tasks, Current(ss[k]).tasks, writer.memory.tasks, writer.loaded.tasks,
                       RefreshOf(env, writer, writer.progress.diskRevision), id, f);
    } else {
      OtherStepsKeepStore(env, ss[k], actions[k], ss[k + 1]);
    }
  }

  /** No writer that commits from i to j changed the field since its own baseline. */
  ghost predicate NoneChanges(ss: seq<World>, actions: seq<Action>, i: nat, j: nat, id: TaskId, f: Field)
    requires |ss| == |actions| + 1 && j <= |actions|
  {
    forall k :: i <= k < j && Commits(ss[k], actions[k]) ==> LeavesField(ss[k].writers[actions[k].w], id, f)
  }

  /**
   No lost update over many commits: what a field of a stored task has at one moment it still has at any
   later one, through the commits of any number of processes with baselines of any age, as long as none
   of those that committed in between changed the field since its own baseline.
   */
  lemma {:induction false} FieldOutlivesCommits(
    env: Env, ss: seq<World>, actions: seq<Action>, i: nat, j: nat, id: TaskId, f: Field, v: Option<FieldValue>)
    requires IsRun(env, ss, actions) && i <= j <= |actions| && LoadsAreAtomic(ss, actions)
    requires HasField(ss[i], id, f, v)
    requires NoneChanges(ss, actions, i, j, id, f)
    ensures HasField(ss[j], id, f, v)
    decreases j
  {
    if i < j {
      FieldOutlivesCommits(env, ss, actions, i, j - 1, id, f, v);
      StepLeavesField(env, ss, actions, j - 1, id, f, v);
    }
  }
}
