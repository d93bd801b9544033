/**
 Runs of the save protocol that lose another process's work: one in which a commit lands between the
 two reads of a load (crates/ajax-cli/src/context.rs:183-205), one by a writer that does not go on from
 what it saved (crates/ajax-cli/src/context.rs:207-212, 280-281), and one in which a task's stored event
 goes because the disk side of a merge is loaded without events (crates/ajax-cli/src/context.rs:112-116,
 254-260).
 */
module SaveCounterexamples {
  import opened Options
  import opened Lifecycle
  import opened Registry
  import opened ContextMerge
  import opened ContextSave
  import opened MergeMeaning
  import opened SaveProtocol

  function AnyTask(id: TaskId): Task {
    Task(id, 0, Active, map[])
  }

  const Plain := Env((t: Task) => t, (t: Task) => true)
  const One := RegistryState(map["s" := AnyTask("s")], [], map[])
  const Two := RegistryState(map["s" := AnyTask("s"), "t" := AnyTask("t")], [], map[])
  const Note := RegistryEvent("s", UserNote, "seen", 0)
  const Noted := RegistryState(One.tasks, [Note], map[])

  /** What the second writer may make of the registry with task s: one more task, or a note on s. */
  ghost predicate IsSecondVersion(r: RegistryState) {
    r == Two || r == Noted
  }

  lemma {:induction false} Extend(ss: seq<World>, actions: seq<Action>, a: Action, t: World)
    requires IsRun(Plain, ss, actions)
    requires Step(Plain, ss[|actions|], a, t)
    ensures IsRun(Plain, ss + [t], actions + [a])
  {
    var longer, more := ss + [t], actions + [a];
    forall i | 0 <= i < |more|
      ensures Step(Plain, longer[i], more[i], longer[i + 1])
    {
      if i < |actions| {
        assert longer[i] == ss[i] && longer[i + 1] == ss[i + 1] && more[i] == actions[i];
      }
    }
  }

  predicate IsReady(s: World, w: WriterId) {
    && s.history != [] && s.fileExists
    && w in s.writers && s.writers[w].progress.Idle?
    && s.writers[w].loadedRevision == Revision(s)
    && (HasPersistableTasks(s.writers[w].memory, Plain.persistable) || s.writers[w].allowEmptyOnce)
  }

  /** The writer after a direct save, which leaves its memory as it is whether adopted or not. */
  function AfterDirectSave(s: World, w: WriterId, adopts: bool): World
    requires IsReady(s, w)
  {
    var writer := s.writers[w];
    World(s.history + [writer.memory], true, s.writers[w := writer.(
      loaded := writer.memory, loadedRevision := Revision(s) + 1, allowEmptyOnce := false,
      touched := if adopts then {} else writer.touched, inStep := true)])
  }

  /** A save at the revision the writer loaded commits its memory as it is. */
  lemma {:induction false} DirectSave(ss: seq<World>, actions: seq<Action>, w: WriterId, adopts: bool)
    returns (ss': seq<World>, actions': seq<Action>)
    requires IsRun(Plain, ss, actions) && IsReady(ss[|actions|], w)
    ensures IsRun(Plain, ss', actions') && |actions'| == |actions| + 4
    ensures ss <= ss' && actions <= actions'
    ensures ss'[|actions'|] == AfterDirectSave(ss[|actions|], w, adopts)
    ensures Commits(ss'[|actions| + 3], actions'[|actions| + 3]) && actions'[|actions| + 3] == Commit(w, adopts)
    ensures ss'[|actions| + 3].history == ss[|actions|].history
    ensures w in ss'[|actions| + 3].writers && ss'[|actions| + 3].writers[w] ==
      var writer := ss[|actions|].writers[w];
      writer.(progress := PassedGuard(Revision(ss[|actions|]), writer.memory, writer.allowEmptyOnce), allowEmptyOnce := false)
  {
    var s0 := ss[|actions|];
    var writer := s0.writers[w];
    var r := Revision(s0);
    var s1 := With(s0, w, writer.(progress := HasRevision(r)));
    var s2 := With(s1, w, writer.(progress := HasProposal(r, writer.memory)));
    var s3 := With(s2, w, writer.(progress := PassedGuard(r, writer.memory, writer.allowEmptyOnce), allowEmptyOnce := false));
    var s4 := AfterDirectSave(s0, w, adopts);
    Extend(ss, actions, ReadRevision(w), s1);
    var ss1, actions1 := ss + [s1], actions + [ReadRevision(w)];
    assert Proposes(writer.memory, writer.memory, writer.loaded, writer.loadedRevision, r, TasksOnly(Current(s1)), Plain.refresh, 0);
    Extend(ss1, actions1, ReadDisk(w, 0), s2);
    var ss2, actions2 := ss1 + [s2], actions1 + [ReadDisk(w, 0)];
    Extend(ss2, actions2, Guard(w), s3);
    var ss3, actions3 := ss2 + [s3], actions2 + [Guard(w)];
    assert s4.writers == s3.writers[w := s4.writers[w]];
    Extend(ss3, actions3, Commit(w, adopts), s4);
    ss', actions' := ss3 + [s4], actions3 + [Commit(w, adopts)];
    assert ss'[|actions| + 3] == s3;
  }

  function Loaded(contents: RegistryState, revision: nat): Writer {
    Writer(contents, contents, revision, false, {}, true, Idle)
  }

  /** The store holds task s; writer 2 loads it, edits it, and saves. */
  lemma {:induction false} SecondWriterSaves(ss: seq<World>, actions: seq<Action>, edited: RegistryState)
    returns (ss': seq<World>, actions': seq<Action>)
    requires IsRun(Plain, ss, actions) && IsSecondVersion(edited)
    requires ss[|actions|].history == [One] && ss[|actions|].fileExists && 2 !in ss[|actions|].writers
    ensures IsRun(Plain, ss', actions') && |actions'| > |actions|
    ensures ss'[|actions'|].history == [One, edited] && ss'[|actions'|].fileExists
    ensures forall w :: w in ss[|actions|].writers ==>
      w in ss'[|actions'|].writers && ss'[|actions'|].writers[w] == ss[|actions|].writers[w]
  {
    var ss2, actions2 := SecondWriterLoads(ss, actions);
    var s2 := ss2[|actions2|];
    var s3 := With(s2, 2, Loaded(One, 0).(
      memory := edited, touched := {} + Differences(One.tasks, edited.tasks)));
    Extend(ss2, actions2, Edit(2, edited), s3);
    var ss3, actions3 := ss2 + [s3], actions2 + [Edit(2, edited)];
    assert "s" in edited.tasks && Plain.persistable(edited.tasks["s"]);
    ss', actions' := DirectSave(ss3, actions3, 2, true);
  }

  lemma {:induction false} SecondWriterLoads(ss: seq<World>, actions: seq<Action>)
    returns (ss': seq<World>, actions': seq<Action>)
    requires IsRun(Plain, ss, actions)
    requires ss[|actions|].history == [One] && ss[|actions|].fileExists && 2 !in ss[|actions|].writers
    ensures IsRun(Plain, ss', actions') && |actions'| > |actions|
    ensures ss'[|actions'|] == With(ss[|actions|], 2, Loaded(One, 0))
  {
    var s0 := ss[|actions|];
    var s1 := With(s0, 2, Writer(EmptyRegistry, EmptyRegistry, 0, false, {}, true, HasContents(One, 0)));
    var s2 := With(s1, 2, Loaded(One, 0));
    assert TasksOnly(One) == One;
    Extend(ss, actions, LoadContents(2), s1);
    ss', actions' := ss + [s1], actions + [LoadContents(2)];
    Extend(ss', actions', LoadRevision(2), s2);
    ss', actions' := ss' + [s2], actions' + [LoadRevision(2)];
    assert s2.writers == s0.writers[2 := Loaded(One, 0)];
  }

  /** A commit of a writer that edited nothing loses a task the commit before it had. */
  ghost predicate LosesUpdate(ss: seq<World>, actions: seq<Action>, i: nat, id: TaskId) {
    && IsRun(Plain, ss, actions) && i < |actions|
    && Commits(ss[i], actions[i])
    && ss[i].writers[actions[i].w].touched == {}
    && id in Current(ss[i]).tasks
    && ss[i + 1].history != [] && id !in Current(ss[i + 1]).tasks
  }

  /** A torn load loses an update: writer 2's commit lands between writer 1's two reads. */
  lemma {:induction false} TornLoadLosesUpdate() returns (ss: seq<World>, actions: seq<Action>, i: nat)
    ensures LosesUpdate(ss, actions, i, "t")
    ensures !LoadsAreAtomic(ss, actions)
  {
    var s0 := World([One], true, map[]);
    assert IsRun(Plain, [s0], []);
    var s1 := With(s0, 1, Writer(EmptyRegistry, EmptyRegistry, 0, false, {}, true, HasContents(One, 0)));
    assert TasksOnly(One) == One;
    Extend([s0], [], LoadContents(1), s1);
    ss, actions := [s0] + [s1], [] + [LoadContents(1)];
    ss, actions := SecondWriterSaves(ss, actions, Two);
    var s2 := ss[|actions|];
    var s3 := With(s2, 1, Loaded(One, 1));
    Extend(ss, actions, LoadRevision(1), s3);
    ghost var torn := |actions|;
    ss, actions := ss + [s3], actions + [LoadRevision(1)];
    assert "s" in One.tasks && Plain.persistable(One.tasks["s"]);
    i := |actions| + 3;
    ss, actions := DirectSave(ss, actions, 1, true);
    assert Current(ss[i]) == Two && Current(ss[i + 1]) == One;
    if LoadsAreAtomic(ss, actions) {
      AtomicLoadsAreCoherent(Plain, ss, actions, i);
      UneditedSaveNeedsCoherence(Plain, ss, actions, i);
    }
  }

  /**
   A save that merges and is not adopted, then another: the second deletes what the first took over,
   whether it is adopted itself, as after a start's checkpoint (crates/ajax-cli/src/web_backend.rs:291-316,
   459-470), or not (crates/ajax-cli/src/context.rs:207-212).  The baseline is coherent all along.
   */
  lemma {:induction false} UnadoptedMergeLosesUpdate(adopts: bool) returns (ss: seq<World>, actions: seq<Action>, i: nat)
    ensures LosesUpdate(ss, actions, i, "t")
    ensures IsCoherent(ss[i], ss[i].writers[actions[i].w])
    ensures actions[i] == Commit(1, adopts)
    ensures i >= 4 && actions[i - 4] == Commit(actions[i].w, false) && Commits(ss[i - 4], actions[i - 4])
    ensures "t" in Current(ss[i - 3]).tasks
  {
    ss, actions := FirstWriterMerges(false, Two);
    i := |actions| + 3;
    assert "s" in One.tasks && Plain.persistable(One.tasks["s"]);
    var before, steps := ss, actions;
    ss, actions := DirectSave(ss, actions, 1, adopts);
    assert actions[i - 4] == steps[|steps| - 1] && ss[i - 4] == before[|steps| - 1] && ss[i - 3] == before[|steps|];
    assert Current(ss[i]) == Two && Current(ss[i + 1]) == One;
  }

  /** A commit, adopted by a writer that edited nothing, drops a stored event of a task that stays. */
  ghost predicate LosesEvent(ss: seq<World>, actions: seq<Action>, i: nat, e: RegistryEvent) {
    && IsRun(Plain, ss, actions) && i < |actions|
    && Commits(ss[i], actions[i])
    && actions[i].adopts && ss[i].writers[actions[i].w].touched == {}
    && e in Current(ss[i]).events
    && ss[i + 1].history != [] && e.taskId in Current(ss[i + 1]).tasks && !Represented(Current(ss[i + 1]).events, e)
  }

  /** Writer 2 notes something on task s; a save by writer 1, which edited nothing, takes the note away. */
  lemma {:induction false} SaveLosesEvent() returns (ss: seq<World>, actions: seq<Action>, i: nat)
    ensures LosesEvent(ss, actions, i, Note)
    ensures IsCoherent(ss[i], ss[i].writers[actions[i].w])
  {
    ss, actions := FirstWriterMerges(true, Noted);
    i := |actions| - 1;
    assert Current(ss[i]) == Noted && Current(ss[i + 1]) == One;
  }

  lemma {:induction false} MergeTakesOver(stored: RegistryState, refresh: FactChange, now: int)
    requires IsSecondVersion(stored)
    ensures Merges(TasksOnly(stored), TasksOnly(stored), One, One, refresh, now, [])
  {
    MemoryUnchanged(stored.tasks, One.tasks, refresh);
    assert stored.tasks.Keys - stored.tasks.Keys == {};
    assert EventsWithout([], {}) + CreatedEvents([], now) == [];
    assert ReceiptsFor(map[], stored.tasks.Keys) + ReceiptsFor(map[], stored.tasks.Keys) == map[];
  }

  /** What writer 1 is after its merge. */
  function Merged(adopts: bool, stored: RegistryState): Writer {
    var writer := Loaded(One, 2).(loaded := TasksOnly(stored), inStep := adopts);
    if adopts then writer.(memory := TasksOnly(stored)) else writer
  }

  /** Writer 1 loads, and saves after writer 2 saved. */
  lemma {:induction false} FirstWriterMerges(adopts: bool, stored: RegistryState)
    returns (ss: seq<World>, actions: seq<Action>)
    requires IsSecondVersion(stored)
    ensures IsRun(Plain, ss, actions) && |actions| > 0
    ensures ss[|actions|].history == [One, stored, TasksOnly(stored)] && ss[|actions|].fileExists
    ensures 1 in ss[|actions|].writers && ss[|actions|].writers[1] == Merged(adopts, stored)
    ensures IsMergingCommit(ss[|actions| - 1], actions[|actions| - 1], adopts, stored)
  {
    var s0 := World([One], true, map[]);
    assert IsRun(Plain, [s0], []);
    var s1 := With(s0, 1, Writer(EmptyRegistry, EmptyRegistry, 0, false, {}, true, HasContents(One, 0)));
    var s2 := With(s1, 1, Loaded(One, 0));
    assert TasksOnly(One) == One;
    Extend([s0], [], LoadContents(1), s1);
    ss, actions := [s0] + [s1], [] + [LoadContents(1)];
    Extend(ss, actions, LoadRevision(1), s2);
    ss, actions := ss + [s2], actions + [LoadRevision(1)];
    ss, actions := SecondWriterSaves(ss, actions, stored);
    ss, actions := MergingSave(ss, actions, adopts, stored);
  }

  /** Writer 1 is about to commit its merge with the version stored. */
  ghost predicate IsMergingCommit(s: World, a: Action, adopts: bool, stored: RegistryState) {
    && s.history == [One, stored] && a == Commit(1, adopts)
    && 1 in s.writers && s.writers[1] == Loaded(One, 0).(progress := PassedGuard(1, TasksOnly(stored), false))
  }

  lemma {:induction false} MergingSave(ss: seq<World>, actions: seq<Action>, adopts: bool, stored: RegistryState)
    returns (ss': seq<World>, actions': seq<Action>)
    requires IsRun(Plain, ss, actions) && IsSecondVersion(stored)
    requires ss[|actions|].history == [One, stored] && ss[|actions|].fileExists
    requires 1 in ss[|actions|].writers && ss[|actions|].writers[1] == Loaded(One, 0)
    ensures IsRun(Plain, ss', actions') && |actions'| > 0
    ensures ss'[|actions'|].history == [One, stored, TasksOnly(stored)] && ss'[|actions'|].fileExists
    ensures 1 in ss'[|actions'|].writers && ss'[|actions'|].writers[1] == Merged(adopts, stored)
    ensures IsMergingCommit(ss'[|actions'| - 1], actions'[|actions'| - 1], adopts, stored)
  {
    ss', actions' := MergingProposal(ss, actions, adopts, stored);
    var merged := TasksOnly(stored);
    var s0 := ss'[|actions'|];
    var s1 := With(s0, 1, Loaded(One, 0).(progress := PassedGuard(1, merged, false)));
    var s2 := World([One, stored] + [merged], true, s1.writers[1 := Merged(adopts, stored)]);
    assert "s" in merged.tasks && Plain.persistable(merged.tasks["s"]);
    Extend(ss', actions', Guard(1), s1);
    ss', actions' := ss' + [s1], actions' + [Guard(1)];
    Extend(ss', actions', Commit(1, adopts), s2);
    ss', actions' := ss' + [s2], actions' + [Commit(1, adopts)];
  }

  lemma {:induction false} MergingProposal(ss: seq<World>, actions: seq<Action>, adopts: bool, stored: RegistryState)
    returns (ss': seq<World>, actions': seq<Action>)
    requires IsRun(Plain, ss, actions) && IsSecondVersion(stored)
    requires ss[|actions|].history == [One, stored] && ss[|actions|].fileExists
    requires 1 in ss[|actions|].writers && ss[|actions|].writers[1] == Loaded(One, 0)
    ensures IsRun(Plain, ss', actions')
    ensures ss'[|actions'|].history == [One, stored] && ss'[|actions'|].fileExists
    ensures 1 in ss'[|actions'|].writers
         && ss'[|actions'|].writers[1] == Loaded(One, 0).(progress := HasProposal(1, TasksOnly(stored)))
  {
    var s0, merged := ss[|actions|], TasksOnly(stored);
    var s1 := With(s0, 1, Loaded(One, 0).(progress := HasRevision(1)));
    var s2 := With(s1, 1, Loaded(One, 0).(progress := HasProposal(1, merged)));
    Extend(ss, actions, ReadRevision(1), s1);
    ss', actions' := ss + [s1], actions + [ReadRevision(1)];
    ReadsMerge(s1, stored);
    Extend(ss', actions', ReadDisk(1, 0), s2);
    ss', actions' := ss' + [s2], actions' + [ReadDisk(1, 0)];
  }

  /** Writer 1, which read revision 1, can propose the merge. */
  lemma {:induction false} ReadsMerge(s: World, stored: RegistryState)
    requires IsSecondVersion(stored) && s.history == [One, stored]
    requires 1 in s.writers && s.writers[1] == Loaded(One, 0).(progress := HasRevision(1))
    ensures Step(Plain, s, ReadDisk(1, 0),
                 With(s, 1, Loaded(One, 0).(progress := HasProposal(1, TasksOnly(stored)))))
  {
    MergeTakesOver(stored, Plain.refresh, 0);
    assert Proposes(TasksOnly(stored), One, One, 0, 1, TasksOnly(Current(s)), Plain.refresh, 0);
  }
}
