/**
 Any number of processes sharing one registry store: loads, edits and saves, interleaved step by step
 (crates/ajax-cli/src/context.rs:183-283, crates/ajax-cli/src/web_backend.rs:432-470).

 The store is its history of committed registries: the last is current and its position is the
 revision.  A commit is one transaction that compares the revision and appends.  Every other read is a
 step of its own.
 */
module SaveProtocol {
  import opened Options
  import opened Registry
  import opened ContextMerge
  import opened ContextSave
  import opened MergeMeaning

  type WriterId = nat

  datatype Progress =
    | Idle
    | HasContents(contents: RegistryState, readAt: nat)
    | HasRevision(diskRevision: nat)
    | HasProposal(diskRevision: nat, proposal: RegistryState)
    | PassedGuard(diskRevision: nat, proposal: RegistryState, allowed: bool)

  /**
   A process.  touched collects the ids of the tasks it has edited since it last loaded or adopted a
   save; inStep holds unless it has saved a merge since then without adopting it; readAt is the revision
   its contents were read at.  None of these decides anything.
   */
  datatype Writer = Writer(
    memory: RegistryState, loaded: RegistryState, loadedRevision: nat, allowEmptyOnce: bool,
    touched: set<TaskId>, inStep: bool, progress: Progress)

  datatype World = World(history: seq<RegistryState>, fileExists: bool, writers: map<WriterId, Writer>)

  datatype Action =
    | LoadContents(w: WriterId)
    | LoadRevision(w: WriterId)
    | Edit(w: WriterId, memory: RegistryState)
    | Authorize(w: WriterId)
    | ReadRevision(w: WriterId)
    | ReadDisk(w: WriterId, now: int)
    | Guard(w: WriterId)
    | Commit(w: WriterId, adopts: bool)

  datatype Env = Env(refresh: FactChange, persistable: Persistable)

  function Revision(s: World): nat
    requires s.history != []
  {
    |s.history| - 1
  }

  function Current(s: World): RegistryState
    requires s.history != []
  {
    s.history[|s.history| - 1]
  }

  predicate At(s: World, w: WriterId, p: Progress -> bool) {
    w in s.writers && p(s.writers[w].progress)
  }

  function With(s: World, w: WriterId, writer: Writer): World {
    s.(writers := s.writers[w := writer])
  }

  /** The tasks two registries disagree on. */
  function Differences(a: map<TaskId, Task>, b: map<TaskId, Task>): set<TaskId> {
    set id | id in a.Keys + b.Keys && Lookup(a, id) != Lookup(b, id)
  }

  ghost predicate Step(env: Env, s: World, a: Action, t: World) {
    s.history != [] &&
    match a
    case LoadContents(w) =>
      && (w in s.writers ==> s.writers[w].progress.Idle?)
      && var contents := TasksOnly(Current(s));
         var writer :=
           if w in s.writers then s.writers[w]
           else Writer(EmptyRegistry, EmptyRegistry, 0, false, {}, true, Idle);
         t == With(s, w, writer.(progress := HasContents(contents, Revision(s))))
    case LoadRevision(w) =>
      && At(s, w, (p: Progress) => p.HasContents?)
      && var writer := s.writers[w];
         t == With(s, w, Writer(writer.progress.contents, writer.progress.contents,
                                Revision(s), false, {}, true, Idle))
    case Edit(w, memory) =>
      && At(s, w, (p: Progress) => p.Idle?)
      && Integrity(memory)
      && var writer := s.writers[w];
         t == With(s, w, writer.(memory := memory,
                                 touched := writer.touched + Differences(writer.memory.tasks, memory.tasks)))
    case Authorize(w) =>
      && At(s, w, (p: Progress) => p.Idle?)
      && t == With(s, w, s.writers[w].(allowEmptyOnce := true))
    case ReadRevision(w) =>
      && At(s, w, (p: Progress) => p.Idle?)
      && t == With(s, w, s.writers[w].(progress := HasRevision(if s.fileExists then Revision(s) else 0)))
    case ReadDisk(w, now) =>
      && At(s, w, (p: Progress) => p.HasRevision?)
      && var writer := s.writers[w];
         var r, disk := writer.progress.diskRevision, TasksOnly(Current(s));
         || (exists proposal ::
               && Proposes(proposal, writer.memory, writer.loaded, writer.loadedRevision, r, disk, env.refresh, now)
               && t == With(s, w, writer.(progress := HasProposal(r, proposal))))
         || (&& r != writer.loadedRevision
             && (exists id :: OutcomeAt(disk.tasks, writer.memory.tasks, writer.loaded.tasks, env.refresh, id).Conflict?)
             && t == With(s, w, writer.(progress := Idle)))
    case Guard(w) =>
      && At(s, w, (p: Progress) => p.HasProposal?)
      && var writer := s.writers[w];
         var r, proposal := writer.progress.diskRevision, writer.progress.proposal;
         var passes := PassesGuard(
           proposal, writer.loaded, r, writer.allowEmptyOnce, GuardView(s.fileExists, Current(s)), env.persistable);
         t == With(s, w, writer.(
           allowEmptyOnce := false,
           progress := if passes then PassedGuard(r, proposal, writer.allowEmptyOnce) else Idle))
    case Commit(w, adopts) =>
      && At(s, w, (p: Progress) => p.PassedGuard?)
      && var writer := s.writers[w];
         var r, proposal := writer.progress.diskRevision, writer.progress.proposal;
         if r != Revision(s) then t == With(s, w, writer.(progress := Idle))
         else
           t == World(s.history + [proposal], true, s.writers[w := writer.(
             loaded := proposal, loadedRevision := r + 1, progress := Idle,
             memory := if adopts then proposal else writer.memory,
             touched := if adopts then {} else writer.touched,
             inStep := adopts || r == writer.loadedRevision)])
  }

  /** The step is a commit that the store accepts. */
  predicate Commits(s: World, a: Action) {
    && s.history != [] && a.Commit? && a.w in s.writers
    && s.writers[a.w].progress.PassedGuard? && s.writers[a.w].progress.diskRevision == Revision(s)
  }

  /** The store at the start: a sound history, or no state file at all. */
  ghost predicate Init(s: World) {
    && s.history != []
    && (forall i :: 0 <= i < |s.history| ==> Integrity(s.history[i]))
    && (!s.fileExists ==> s.history == [EmptyRegistry])
    && s.writers == map[]
  }

  ghost predicate IsRun(env: Env, ss: seq<World>, actions: seq<Action>) {
    && |ss| == |actions| + 1
    && Init(ss[0])
    && forall i :: 0 <= i < |actions| ==> Step(env, ss[i], actions[i], ss[i + 1])
  }

  /** The writer's baseline is what the store had at the revision the writer believes it loaded. */
  ghost predicate IsCoherent(s: World, writer: Writer) {
    writer.loadedRevision < |s.history| && writer.loaded.tasks == s.history[writer.loadedRevision].tasks
  }

  /** A direct save is a merge if the baseline is coherent; a save that merged is one in any case. */
  ghost predicate MayMerge(s: World, writer: Writer, diskRevision: nat) {
    diskRevision == writer.loadedRevision ==> IsCoherent(s, writer)
  }

  /** How a proposal treats new tasks: a direct save leaves them as they are, a merge refreshes them. */
  function RefreshOf(env: Env, writer: Writer, diskRevision: nat): FactChange {
    if diskRevision == writer.loadedRevision then (t: Task) => t else env.refresh
  }

  ghost predicate ProposalIsMerge(env: Env, s: World, writer: Writer, diskRevision: nat, proposal: RegistryState)
    requires s.history != []
  {
    MergesTasks(
      proposal.tasks, Current(s).tasks, writer.memory.tasks, writer.loaded.tasks, RefreshOf(env, writer, diskRevision))
  }

  /**
   The proposal's history is memory's: every event of a surviving task that memory tells of is told of,
   nothing else is but the creation of tasks, and the receipts are memory's of surviving tasks.
   */
  ghost predicate HistoryIsOwn(proposal: RegistryState, memory: RegistryState) {
    && (forall e :: e in proposal.events ==>
          Represented(memory.events, e) || (e.kind.TaskCreated? && e.taskId in memory.tasks))
    && (forall e :: e in memory.events && e.taskId in proposal.tasks ==> Represented(proposal.events, e))
    && proposal.receipts == ReceiptsFor(memory.receipts, proposal.tasks.Keys)
  }

  /** Of the tasks that are stored, the proposal tells only what memory tells. */
  ghost predicate TellsNothingNew(proposal: RegistryState, memory: RegistryState, stored: map<TaskId, Task>) {
    forall e :: e in proposal.events && e.taskId in stored ==> Represented(memory.events, e)
  }

  ghost predicate ProposalSound(env: Env, s: World, writer: Writer, diskRevision: nat, proposal: RegistryState)
    requires s.history != []
  {
    && diskRevision <= Revision(s)
    && Integrity(proposal)
    && HistoryIsOwn(proposal, writer.memory)
    && (diskRevision == writer.loadedRevision ==> proposal == writer.memory)
    && (diskRevision == Revision(s) ==> TellsNothingNew(proposal, writer.memory, Current(s).tasks))
    && (diskRevision == Revision(s) && MayMerge(s, writer, diskRevision) ==>
          ProposalIsMerge(env, s, writer, diskRevision, proposal))
  }

  ghost predicate GuardSound(env: Env, s: World, writer: Writer)
    requires s.history != []
    requires writer.progress.PassedGuard?
  {
    || HasPersistableTasks(writer.progress.proposal, env.persistable)
    || writer.progress.allowed
    || (writer.progress.diskRevision == Revision(s) ==> !HasPersistableTasks(Current(s), env.persistable))
  }

  ghost predicate WriterSound(env: Env, s: World, writer: Writer)
    requires s.history != []
  {
    && Integrity(writer.memory) && Integrity(writer.loaded)
    && writer.loadedRevision <= Revision(s)
    && (writer.inStep ==> Differences(writer.loaded.tasks, writer.memory.tasks) <= writer.touched)
    && match writer.progress
       case Idle => true
       case HasContents(contents, readAt) =>
         readAt <= Revision(s) && Integrity(contents) && contents.tasks == s.history[readAt].tasks
       case HasRevision(r) => r <= Revision(s)
       case HasProposal(r, proposal) => ProposalSound(env, s, writer, r, proposal)
       case PassedGuard(r, proposal, _) => ProposalSound(env, s, writer, r, proposal) && GuardSound(env, s, writer)
  }

  ghost predicate StoreSound(s: World) {
    && s.history != []
    && (forall i :: 0 <= i < |s.history| ==> Integrity(s.history[i]))
    && (!s.fileExists ==> s.history == [EmptyRegistry])
  }

  ghost predicate Sound(env: Env, s: World) {
    StoreSound(s) && forall w :: w in s.writers ==> WriterSound(env, s, s.writers[w])
  }

  // One step keeps everything.

  lemma {:induction false} DifferencesTriangle(a: map<TaskId, Task>, b: map<TaskId, Task>, c: map<TaskId, Task>)
    ensures Differences(a, c) <= Differences(a, b) + Differences(b, c)
  {
  }

  lemma {:induction false} CarriedAreOwn(
    events: seq<RegistryEvent>, ids: set<TaskId>, memory: RegistryState, carried: seq<RegistryEvent>, now: int)
    requires forall e :: e in carried ==> e in memory.events
    ensures forall e :: e in CarryEvents(events, ids, carried, now) ==> e in events || Represented(memory.events, e)
  {
    if carried != [] {
      var init, last := carried[..|carried| - 1], carried[|carried| - 1];
      CarriedAreOwn(events, ids, memory, init, now);
      assert last in carried;
      var copy := RegistryEvent(last.taskId, last.kind, last.message, now);
      assert last in memory.events && SameStory(last, copy);
    }
  }

  lemma {:induction false} CreatedAreNew(created: seq<TaskId>, now: int, e: RegistryEvent)
    requires e in CreatedEvents(created, now)
    ensures e.kind.TaskCreated? && e.taskId in created
  {
  }

  /** A merge with a disk read without its history holds no history but the writer's own. */
  lemma {:induction false} MergedHistoryIsOwn(
    merged: RegistryState, disk: RegistryState, memory: RegistryState, baseline: RegistryState,
    refresh: FactChange, now: int, created: seq<TaskId>)
    requires disk.events == [] && disk.receipts == map[]
    requires Merges(merged, disk, memory, baseline, refresh, now, created)
    ensures HistoryIsOwn(merged, memory) && TellsNothingNew(merged, memory, disk.tasks)
  {
    var ids := merged.tasks.Keys;
    var start := CreatedEvents(created, now);
    assert EventsWithout(disk.events, disk.tasks.Keys - ids) + start == start;
    forall e | e in start
      ensures e.kind.TaskCreated? && e.taskId in memory.tasks && e.taskId !in disk.tasks
    {
      CreatedAreNew(created, now, e);
    }
    CarriedAreOwn(start, ids, memory, memory.events, now);
    assert merged.events == CarryEvents(start, ids, memory.events, now);
    forall e | e in memory.events && e.taskId in merged.tasks
      ensures Represented(merged.events, e)
    {
      CarryRepresents(start, ids, memory.events, now, e);
    }
    assert ReceiptsFor(disk.receipts, ids) == map[];
    assert merged.receipts == ReceiptsFor(memory.receipts, ids);
  }

  lemma {:induction false} OwnHistory(r: RegistryState, stored: map<TaskId, Task>)
    requires Integrity(r)
    ensures HistoryIsOwn(r, r) && TellsNothingNew(r, r, stored)
  {
    assert forall e :: e in r.events ==> SameStory(e, e);
    assert r.receipts == ReceiptsFor(r.receipts, r.tasks.Keys);
  }

  lemma {:induction false} TasksOnlyIntegrity(r: RegistryState)
    requires Integrity(r)
    ensures Integrity(TasksOnly(r))
  {
  }

  /** What a save proposes is sound. */
  lemma {:induction false} ProposedIsSound(
    env: Env, s: World, writer: Writer, r: nat, proposal: RegistryState, now: int)
    requires StoreSound(s) && WriterSound(env, s, writer)
    requires r <= Revision(s)
    requires Proposes(proposal, writer.memory, writer.loaded, writer.loadedRevision, r, TasksOnly(Current(s)), env.refresh, now)
    ensures ProposalSound(env, s, writer, r, proposal)
  {
    var disk := TasksOnly(Current(s));
    TasksOnlyIntegrity(Current(s));
    if r == writer.loadedRevision {
      OwnHistory(writer.memory, disk.tasks);
      if r == Revision(s) && IsCoherent(s, writer) {
        var same: FactChange := (t: Task) => t;
        DiskUnchanged(writer.loaded.tasks, writer.memory.tasks, same);
        assert writer.memory.tasks ==
          map id | id in writer.memory.tasks ::
            if id in writer.loaded.tasks then writer.memory.tasks[id] else same(writer.memory.tasks[id]);
      }
    } else {
      var created :| Merges(proposal, disk, writer.memory, writer.loaded, env.refresh, now, created);
      MergeKeepsIntegrity(proposal, disk, writer.memory, writer.loaded, env.refresh, now, created);
      MergedHistoryIsOwn(proposal, disk, writer.memory, writer.loaded, env.refresh, now, created);
    }
  }

  /** A longer history leaves every other writer sound. */
  lemma {:induction false} CommitKeepsOthers(env: Env, s: World, t: World, writer: Writer, proposal: RegistryState)
    requires StoreSound(s) && WriterSound(env, s, writer)
    requires t.history == s.history + [proposal]
    ensures WriterSound(env, t, writer)
  {
    assert forall i :: 0 <= i < |s.history| ==> t.history[i] == s.history[i];
  }

  lemma {:induction false} SameStoreSameSound(env: Env, s: World, t: World, writer: Writer)
    requires StoreSound(s) && t.history == s.history
    ensures WriterSound(env, s, writer) <==> WriterSound(env, t, writer)
  {
  }

  /** The writer that acts is sound afterwards. */
  lemma {:induction false} ActorSound(env: Env, s: World, a: Action, t: World)
    requires Sound(env, s) && Step(env, s, a, t)
    requires !Commits(s, a)
    ensures t.history == s.history
    ensures a.w in t.writers && WriterSound(env, s, t.writers[a.w])
  {
    if a.w in s.writers {
      assert WriterSound(env, s, s.writers[a.w]);
    }
    match a
    case LoadContents(w) =>
      LoadingSound(env, s, w, t);
    case Edit(w, memory) =>
      EditedSound(env, s, w, memory, t);
    case Guard(w) =>
      GuardedSound(env, s, w, t);
    case ReadDisk(w, now) =>
      ReaderSound(env, s, w, now, t);
    case _ =>
  }

  lemma {:induction false} LoadingSound(env: Env, s: World, w: WriterId, t: World)
    requires StoreSound(s) && (w in s.writers ==> WriterSound(env, s, s.writers[w]))
    requires Step(env, s, LoadContents(w), t)
    ensures t.history == s.history
    ensures w in t.writers && WriterSound(env, s, t.writers[w])
  {
    TasksOnlyIntegrity(Current(s));
  }

  lemma {:induction false} EditedSound(env: Env, s: World, w: WriterId, memory: RegistryState, t: World)
    requires StoreSound(s) && w in s.writers && WriterSound(env, s, s.writers[w])
    requires Step(env, s, Edit(w, memory), t)
    ensures t.history == s.history
    ensures w in t.writers && WriterSound(env, s, t.writers[w])
  {
    DifferencesTriangle(s.writers[w].loaded.tasks, s.writers[w].memory.tasks, memory.tasks);
  }

  lemma {:induction false} GuardedSound(env: Env, s: World, w: WriterId, t: World)
    requires StoreSound(s) && w in s.writers && WriterSound(env, s, s.writers[w])
    requires Step(env, s, Guard(w), t)
    ensures t.history == s.history
    ensures w in t.writers && WriterSound(env, s, t.writers[w])
  {
  }

  lemma {:induction false} ReaderSound(env: Env, s: World, w: WriterId, now: int, t: World)
    requires StoreSound(s) && w in s.writers && WriterSound(env, s, s.writers[w])
    requires Step(env, s, ReadDisk(w, now), t)
    ensures t.history == s.history
    ensures w in t.writers && WriterSound(env, s, t.writers[w])
  {
    var writer := s.writers[w];
    var r := writer.progress.diskRevision;
    if proposal :|
      && Proposes(proposal, writer.memory, writer.loaded, writer.loadedRevision, r, TasksOnly(Current(s)), env.refresh, now)
      && t == With(s, w, writer.(progress := HasProposal(r, proposal))) {
      ProposedIsSound(env, s, writer, r, proposal, now);
    }
  }

  lemma {:induction false} CommitterSound(env: Env, s: World, a: Action, t: World)
    requires Sound(env, s) && Step(env, s, a, t)
    requires Commits(s, a)
    ensures StoreSound(t)
    ensures a.w in t.writers && WriterSound(env, t, t.writers[a.w])
  {
    var writer := s.writers[a.w];
    assert WriterSound(env, s, writer);
    var proposal := writer.progress.proposal;
    assert t.history == s.history + [proposal];
  }

  lemma {:induction false} StepKeepsSound(env: Env, s: World, a: Action, t: World)
    requires Sound(env, s) && Step(env, s, a, t)
    ensures Sound(env, t)
  {
    if Commits(s, a) {
      CommitterSound(env, s, a, t);
      forall w | w in t.writers && w != a.w
        ensures WriterSound(env, t, t.writers[w])
      {
        CommitKeepsOthers(env, s, t, s.writers[w], s.writers[a.w].progress.proposal);
      }
    } else {
      ActorSound(env, s, a, t);
      forall w | w in t.writers
        ensures WriterSound(env, t, t.writers[w])
      {
        assert w != a.w ==> t.writers[w] == s.writers[w];
        SameStoreSameSound(env, s, t, t.writers[w]);
      }
    }
  }

  lemma {:induction false} SoundAlways(env: Env, ss: seq<World>, actions: seq<Action>, i: nat)
    requires IsRun(env, ss, actions) && i <= |actions|
    ensures Sound(env, ss[i])
  {
    if i != 0 {
      SoundAlways(env, ss, actions, i - 1);
      StepKeepsSound(env, ss[i - 1], actions[i - 1], ss[i]);
    }
  }

  // The results.

  /**
   No lost update, task by task: whatever happened between the writer's reads, every commit that
   merged, and every direct one from a coherent baseline, is the three-way merge of the registry
   committed just before it with the writer's memory and baseline.
   */
  lemma {:induction false} CommitIsMerge(env: Env, ss: seq<World>, actions: seq<Action>, i: nat)
    requires IsRun(env, ss, actions) && i < |actions|
    requires Commits(ss[i], actions[i])
    requires MayMerge(ss[i], ss[i].writers[actions[i].w], ss[i].writers[actions[i].w].progress.diskRevision)
    ensures
      var writer := ss[i].writers[actions[i].w];
      && ss[i + 1].history[..|ss[i].history|] == ss[i].history && Revision(ss[i + 1]) == Revision(ss[i]) + 1
      && MergesTasks(
           Current(ss[i + 1]).tasks, Current(ss[i]).tasks, writer.memory.tasks, writer.loaded.tasks,
           RefreshOf(env, writer, writer.progress.diskRevision))
  {
    SoundAlways(env, ss, actions, i);
    assert WriterSound(env, ss[i], ss[i].writers[actions[i].w]);
    assert Step(env, ss[i], actions[i], ss[i + 1]);
  }

  /**
   A task that a writer has not edited since it last loaded or adopted a save keeps, in every commit of
   that writer, exactly what the commit before it had: present, absent, and in every fact, as long as the
   writer has not saved a merge since then without adopting it.
   */
  lemma {:induction false} UntouchedTasksSurvive(
    env: Env, ss: seq<World>, actions: seq<Action>, i: nat, id: TaskId)
    requires IsRun(env, ss, actions) && i < |actions|
    requires Commits(ss[i], actions[i])
    requires MayMerge(ss[i], ss[i].writers[actions[i].w], ss[i].writers[actions[i].w].progress.diskRevision)
    requires ss[i].writers[actions[i].w].inStep && id !in ss[i].writers[actions[i].w].touched
    ensures Lookup(Current(ss[i + 1]).tasks, id) == Lookup(Current(ss[i]).tasks, id)
  {
    var writer := ss[i].writers[actions[i].w];
    CommitIsMerge(env, ss, actions, i);
    SoundAlways(env, ss, actions, i);
    assert WriterSound(env, ss[i], writer);
    assert id !in Differences(writer.loaded.tasks, writer.memory.tasks);
    assert Lookup(writer.loaded.tasks, id) == Lookup(writer.memory.tasks, id);
    UntouchedKeepsDisk(
      Current(ss[i + 1]).tasks, Current(ss[i]).tasks, writer.memory.tasks, writer.loaded.tasks,
      RefreshOf(env, writer, writer.progress.diskRevision), id);
  }

  /** No commit lands between the two reads of a load. */
  ghost predicate LoadsAreAtomic(ss: seq<World>, actions: seq<Action>) {
    |ss| == |actions| + 1 &&
    forall i :: 0 <= i < |actions| && actions[i].LoadRevision? ==>
      && ss[i].history != [] && actions[i].w in ss[i].writers
      && (ss[i].writers[actions[i].w].progress.HasContents? ==>
            ss[i].writers[actions[i].w].progress.readAt == Revision(ss[i]))
  }

  /** Every writer that is not in the middle of a load has a coherent baseline. */
  ghost predicate LoadedAreCoherent(s: World) {
    forall w :: w in s.writers && !s.writers[w].progress.HasContents? ==> IsCoherent(s, s.writers[w])
  }

  lemma {:induction false} OtherStaysCoherent(env: Env, s: World, a: Action, t: World, w: WriterId)
    requires Step(env, s, a, t) && a.w != w && w in t.writers
    ensures w in s.writers && t.writers[w] == s.writers[w]
    ensures IsCoherent(s, s.writers[w]) ==> IsCoherent(t, t.writers[w])
  {
    assert t.history[..|s.history|] == s.history;
  }

  lemma {:induction false} KeepsBaseline(env: Env, s: World, a: Action, t: World)
    requires Step(env, s, a, t) && !Commits(s, a)
    requires (!a.LoadContents? || (a.w in t.writers && !t.writers[a.w].progress.HasContents?)) && !a.LoadRevision?
    ensures t.history == s.history && a.w in s.writers && a.w in t.writers
    ensures !s.writers[a.w].progress.HasContents?
    ensures t.writers[a.w].loaded == s.writers[a.w].loaded
    ensures t.writers[a.w].loadedRevision == s.writers[a.w].loadedRevision
  {
  }

  lemma {:induction false} CommitterIsCoherent(env: Env, s: World, a: Action, t: World)
    requires Step(env, s, a, t) && Commits(s, a)
    ensures a.w in t.writers && IsCoherent(t, t.writers[a.w])
  {
    assert t.history[|s.history|] == s.writers[a.w].progress.proposal;
  }

  lemma {:induction false} LoaderIsCoherent(env: Env, s: World, w: WriterId, t: World)
    requires StoreSound(s) && w in s.writers && WriterSound(env, s, s.writers[w])
    requires Step(env, s, LoadRevision(w), t)
    requires s.writers[w].progress.readAt == Revision(s)
    ensures w in t.writers && IsCoherent(t, t.writers[w])
  {
  }

  lemma {:induction false} ActorIsCoherent(env: Env, s: World, a: Action, t: World)
    requires Sound(env, s) && Step(env, s, a, t) && LoadedAreCoherent(s)
    requires a.LoadRevision? ==> s.writers[a.w].progress.readAt == Revision(s)
    requires a.w in t.writers && !t.writers[a.w].progress.HasContents?
    ensures IsCoherent(t, t.writers[a.w])
  {
    if a.LoadRevision? {
      LoaderIsCoherent(env, s, a.w, t);
    } else if Commits(s, a) {
      CommitterIsCoherent(env, s, a, t);
    } else {
      KeepsBaseline(env, s, a, t);
      assert IsCoherent(s, s.writers[a.w]);
    }
  }

  lemma {:induction false} StepKeepsCoherent(env: Env, s: World, a: Action, t: World)
    requires Sound(env, s) && Step(env, s, a, t) && LoadedAreCoherent(s)
    requires a.LoadRevision? ==> s.writers[a.w].progress.readAt == Revision(s)
    ensures LoadedAreCoherent(t)
  {
    forall w | w in t.writers && !t.writers[w].progress.HasContents?
      ensures IsCoherent(t, t.writers[w])
    {
      if w == a.w {
        ActorIsCoherent(env, s, a, t);
      } else {
        OtherStaysCoherent(env, s, a, t, w);
      }
    }
  }

  /** With atomic loads, every baseline is coherent, for every writer at every moment after its first load. */
  lemma {:induction false} AtomicLoadsAreCoherent(env: Env, ss: seq<World>, actions: seq<Action>, i: nat)
    requires IsRun(env, ss, actions) && i <= |actions|
    requires LoadsAreAtomic(ss, actions)
    ensures LoadedAreCoherent(ss[i])
  {
    if i != 0 {
      AtomicLoadsAreCoherent(env, ss, actions, i - 1);
      SoundAlways(env, ss, actions, i - 1);
      LoadIsAtomic(env, ss, actions, i - 1);
      StepKeepsCoherent(env, ss[i - 1], actions[i - 1], ss[i]);
    }
  }

  lemma {:induction false} LoadIsAtomic(env: Env, ss: seq<World>, actions: seq<Action>, i: nat)
    requires IsRun(env, ss, actions) && i < |actions|
    requires LoadsAreAtomic(ss, actions)
    ensures Step(env, ss[i], actions[i], ss[i + 1])
    ensures actions[i].LoadRevision? ==> ss[i].writers[actions[i].w].progress.readAt == Revision(ss[i])
  {
    assert Step(env, ss[i], actions[i], ss[i + 1]);
  }

  /** Under atomic loads the merge theorem holds of every commit of every run. */
  lemma {:induction false} EveryCommitIsMerge(env: Env, ss: seq<World>, actions: seq<Action>, i: nat)
    requires IsRun(env, ss, actions) && i < |actions|
    requires LoadsAreAtomic(ss, actions)
    requires Commits(ss[i], actions[i])
    ensures
      var writer := ss[i].writers[actions[i].w];
      && MergesTasks(
           Current(ss[i + 1]).tasks, Current(ss[i]).tasks, writer.memory.tasks, writer.loaded.tasks,
           RefreshOf(env, writer, writer.progress.diskRevision))
      && (writer.inStep ==> forall id :: id !in writer.touched ==>
            Lookup(Current(ss[i + 1]).tasks, id) == Lookup(Current(ss[i]).tasks, id))
  {
    AtomicLoadsAreCoherent(env, ss, actions, i);
    CommitIsMerge(env, ss, actions, i);
    if ss[i].writers[actions[i].w].inStep {
      forall id | id !in ss[i].writers[actions[i].w].touched
        ensures Lookup(Current(ss[i + 1]).tasks, id) == Lookup(Current(ss[i]).tasks, id)
      {
        UntouchedTasksSurvive(env, ss, actions, i, id);
      }
    }
  }

  /**
   The condition is needed: a writer that edited nothing, saves at the revision it believes it loaded
   and commits, leaves the stored tasks alone exactly if its baseline is coherent.
   */
  lemma {:induction false} UneditedSaveNeedsCoherence(env: Env, ss: seq<World>, actions: seq<Action>, i: nat)
    requires IsRun(env, ss, actions) && i < |actions|
    requires Commits(ss[i], actions[i])
    requires
      var writer := ss[i].writers[actions[i].w];
      writer.progress.diskRevision == writer.loadedRevision && writer.memory.tasks == writer.loaded.tasks
    ensures Current(ss[i + 1]).tasks == Current(ss[i]).tasks <==> IsCoherent(ss[i], ss[i].writers[actions[i].w])
  {
    SoundAlways(env, ss, actions, i);
    assert WriterSound(env, ss[i], ss[i].writers[actions[i].w]);
    assert Step(env, ss[i], actions[i], ss[i + 1]);
  }

  /** A direct save with a coherent baseline leaves a task alone exactly if memory agrees on it with the baseline. */
  lemma {:induction false} DirectSaveKeepsAgreed(env: Env, ss: seq<World>, actions: seq<Action>, i: nat, id: TaskId)
    requires IsRun(env, ss, actions) && i < |actions|
    requires Commits(ss[i], actions[i])
    requires
      var writer := ss[i].writers[actions[i].w];
      IsCoherent(ss[i], writer) && writer.progress.diskRevision == writer.loadedRevision
    ensures
      var writer := ss[i].writers[actions[i].w];
      Lookup(Current(ss[i + 1]).tasks, id) == Lookup(Current(ss[i]).tasks, id)
      <==> Lookup(writer.memory.tasks, id) == Lookup(writer.loaded.tasks, id)
  {
    SoundAlways(env, ss, actions, i);
    assert WriterSound(env, ss[i], ss[i].writers[actions[i].w]);
    assert Step(env, ss[i], actions[i], ss[i + 1]);
  }

  /** A commit stores the committer's own events and receipts, and keeps each with its task. */
  lemma {:induction false} CommitReplacesHistory(env: Env, ss: seq<World>, actions: seq<Action>, i: nat)
    requires IsRun(env, ss, actions) && i < |actions|
    requires Commits(ss[i], actions[i])
    ensures HistoryIsOwn(Current(ss[i + 1]), ss[i].writers[actions[i].w].memory)
    ensures TellsNothingNew(Current(ss[i + 1]), ss[i].writers[actions[i].w].memory, Current(ss[i]).tasks)
    ensures Integrity(Current(ss[i])) && Integrity(Current(ss[i + 1]))
  {
    SoundAlways(env, ss, actions, i);
    assert WriterSound(env, ss[i], ss[i].writers[actions[i].w]);
    assert Step(env, ss[i], actions[i], ss[i + 1]);
  }

  /**
   An event stored before a commit, of a task that survives it, is still told of afterwards exactly if
   the committer's memory tells of it.  The creation events that the commit itself leaves are of tasks
   that were not stored, so they stand for no stored event.
   */
  lemma {:induction false} StoredEventSurvives(
    env: Env, ss: seq<World>, actions: seq<Action>, i: nat, e: RegistryEvent)
    requires IsRun(env, ss, actions) && i < |actions|
    requires Commits(ss[i], actions[i])
    requires e in Current(ss[i]).events && e.taskId in Current(ss[i + 1]).tasks
    ensures Represented(Current(ss[i + 1]).events, e)
       <==> Represented(ss[i].writers[actions[i].w].memory.events, e)
  {
    CommitReplacesHistory(env, ss, actions, i);
    ToldAlike(Current(ss[i + 1]), ss[i].writers[actions[i].w].memory, Current(ss[i]).tasks, e);
  }

  lemma {:induction false} ToldAlike(
    after: RegistryState, memory: RegistryState, stored: map<TaskId, Task>, e: RegistryEvent)
    requires HistoryIsOwn(after, memory) && TellsNothingNew(after, memory, stored)
    requires e.taskId in stored && e.taskId in after.tasks
    ensures Represented(after.events, e) <==> Represented(memory.events, e)
  {
    if Represented(after.events, e) {
      var x :| x in after.events && SameStory(x, e);
      var y :| y in memory.events && SameStory(y, x);
      assert SameStory(y, e);
    }
    if Represented(memory.events, e) {
      var x :| x in memory.events && SameStory(x, e);
      var y :| y in after.events && SameStory(y, x);
      assert SameStory(y, e);
    }
  }

  /** A receipt stored before a commit, of a task that survives it, is still there exactly if memory has one of its identity. */
  lemma {:induction false} StoredReceiptSurvives(
    env: Env, ss: seq<World>, actions: seq<Action>, i: nat, k: ReceiptIdentity)
    requires IsRun(env, ss, actions) && i < |actions|
    requires Commits(ss[i], actions[i])
    requires k in Current(ss[i]).receipts && k.taskId in Current(ss[i + 1]).tasks
    ensures Lookup(Current(ss[i + 1]).receipts, k) == Lookup(ss[i].writers[actions[i].w].memory.receipts, k)
  {
    CommitReplacesHistory(env, ss, actions, i);
  }

  /** The commit replaces a registry with persistable tasks by one that has none. */
  predicate Wipes(env: Env, s: World, a: Action) {
    && Commits(s, a)
    && HasPersistableTasks(Current(s), env.persistable)
    && !HasPersistableTasks(s.writers[a.w].progress.proposal, env.persistable)
  }

  /** No accidental wipe: a commit that wipes the store was made by a save that consumed an authorization. */
  lemma {:induction false} WipesAreAuthorized(env: Env, ss: seq<World>, actions: seq<Action>, i: nat)
    requires IsRun(env, ss, actions) && i < |actions|
    requires Wipes(env, ss[i], actions[i])
    ensures ss[i].writers[actions[i].w].progress.allowed
    ensures Current(ss[i + 1]) == ss[i].writers[actions[i].w].progress.proposal
  {
    SoundAlways(env, ss, actions, i);
    assert WriterSound(env, ss[i], ss[i].writers[actions[i].w]);
    assert Step(env, ss[i], actions[i], ss[i + 1]);
  }

  /** The authorizations a writer has not used up yet. */
  function Pending(s: World, w: WriterId): nat {
    if w !in s.writers then 0
    else
      var writer := s.writers[w];
      (if writer.allowEmptyOnce then 1 else 0)
      + if writer.progress.PassedGuard? && writer.progress.allowed then 1 else 0
  }

  lemma {:induction false} PendingOfActor(env: Env, s: World, a: Action, t: World)
    requires Step(env, s, a, t)
    requires Wipes(env, s, a) ==> s.writers[a.w].progress.allowed
    ensures Pending(t, a.w) + (if Wipes(env, s, a) then 1 else 0) <= Pending(s, a.w) + if a.Authorize? then 1 else 0
  {
  }

  lemma {:induction false} PendingOfOther(env: Env, s: World, a: Action, t: World, w: WriterId)
    requires Step(env, s, a, t) && a.w != w
    ensures Pending(t, w) == Pending(s, w)
  {
  }

  function Wiped(env: Env, s: World, a: Action, w: WriterId): nat {
    if a.w == w && Wipes(env, s, a) then 1 else 0
  }

  function Authorized(a: Action, w: WriterId): nat {
    if a == Authorize(w) then 1 else 0
  }

  /** What the step costs the writer is covered by what it had pending and what the step authorizes. */
  predicate IsPaid(env: Env, s: World, a: Action, t: World, w: WriterId) {
    Pending(t, w) + Wiped(env, s, a, w) <= Pending(s, w) + Authorized(a, w)
  }

  lemma {:induction false} EveryStepIsPaid(env: Env, ss: seq<World>, actions: seq<Action>, w: WriterId, i: nat)
    requires IsRun(env, ss, actions) && i < |actions|
    ensures IsPaid(env, ss[i], actions[i], ss[i + 1], w)
  {
    var s, a := ss[i], actions[i];
    assert Step(env, s, a, ss[i + 1]);
    if a.w != w {
      PendingOfOther(env, s, a, ss[i + 1], w);
    } else {
      if Wipes(env, s, a) {
        WipesAreAuthorized(env, ss, actions, i);
      }
      PendingOfActor(env, s, a, ss[i + 1]);
    }
  }

  function CountWipes(env: Env, ss: seq<World>, actions: seq<Action>, w: WriterId, i: nat): nat
    requires |ss| == |actions| + 1 && i <= |actions|
  {
    if i == 0 then 0 else CountWipes(env, ss, actions, w, i - 1) + Wiped(env, ss[i - 1], actions[i - 1], w)
  }

  function CountAuthorizations(actions: seq<Action>, w: WriterId, i: nat): nat
    requires i <= |actions|
  {
    if i == 0 then 0 else CountAuthorizations(actions, w, i - 1) + Authorized(actions[i - 1], w)
  }

  lemma {:induction false} PaidAddsUp(env: Env, ss: seq<World>, actions: seq<Action>, w: WriterId, i: nat)
    requires |ss| == |actions| + 1 && i <= |actions|
    requires forall j :: 0 <= j < |actions| ==> IsPaid(env, ss[j], actions[j], ss[j + 1], w)
    ensures CountWipes(env, ss, actions, w, i) + Pending(ss[i], w) <= Pending(ss[0], w) + CountAuthorizations(actions, w, i)
  {
    if i != 0 {
      PaidAddsUp(env, ss, actions, w, i - 1);
      assert IsPaid(env, ss[i - 1], actions[i - 1], ss[i - 1 + 1], w);
    }
  }

  /** Each authorization permits at most one wipe. */
  lemma {:induction false} OneWipePerAuthorization(env: Env, ss: seq<World>, actions: seq<Action>, w: WriterId, i: nat)
    requires IsRun(env, ss, actions) && i <= |actions|
    ensures CountWipes(env, ss, actions, w, i) + Pending(ss[i], w) <= CountAuthorizations(actions, w, i)
  {
    forall j | 0 <= j < |actions|
      ensures IsPaid(env, ss[j], actions[j], ss[j + 1], w)
    {
      EveryStepIsPaid(env, ss, actions, w, j);
    }
    PaidAddsUp(env, ss, actions, w, i);
  }
}
