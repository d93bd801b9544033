/**
 What each step of a save lets through, that an authorized delete-all goes through, and that the steps of
 the protocol are those of a save
 (crates/ajax-cli/src/context.rs:236-283, 429-467, crates/ajax-cli/src/web_backend.rs:281-290).
 */
module SaveSteps {
  import opened Options
  import opened Registry
  import opened ContextMerge
  import opened ContextSave
  import opened MergeMeaning
  import opened SaveProtocol
  import opened SaveCounterexamples

  /** Reading the disk ends the attempt exactly if the revision moved and some task is refused. */
  lemma {:induction false} ReadDiskRefusesExactly(env: Env, s: World, w: WriterId, now: int, t: World)
    requires Step(env, s, ReadDisk(w, now), t)
    ensures
      var writer := s.writers[w];
      && w in t.writers && (t.writers[w].progress.Idle? || t.writers[w].progress.HasProposal?)
      && (t.writers[w].progress.Idle?
          <==> writer.progress.diskRevision != writer.loadedRevision
               && exists id :: RefusedAt(Current(s).tasks, writer.memory.tasks, writer.loaded.tasks, id))
  {
    var writer := s.writers[w];
    var r, disk := writer.progress.diskRevision, TasksOnly(Current(s));
    if id :| OutcomeAt(disk.tasks, writer.memory.tasks, writer.loaded.tasks, env.refresh, id).Conflict? {
      RefusalIsExact(Lookup(disk.tasks, id), Lookup(writer.memory.tasks, id), Lookup(writer.loaded.tasks, id), env.refresh);
      assert RefusedAt(disk.tasks, writer.memory.tasks, writer.loaded.tasks, id);
    }
    if proposal :| Proposes(proposal, writer.memory, writer.loaded, writer.loadedRevision, r, disk, env.refresh, now) {
      ProposedIsNotRefused(proposal, writer.memory, writer.loaded, writer.loadedRevision, r, disk, env.refresh, now);
    }
  }

  lemma {:induction false} ProposedIsNotRefused(
    proposal: RegistryState, memory: RegistryState, loaded: RegistryState, loadedRevision: nat, diskRevision: nat,
    disk: RegistryState, refresh: FactChange, now: int)
    requires Proposes(proposal, memory, loaded, loadedRevision, diskRevision, disk, refresh, now)
    ensures diskRevision != loadedRevision ==> !exists id :: RefusedAt(disk.tasks, memory.tasks, loaded.tasks, id)
  {
    if diskRevision != loadedRevision {
      NoneRefused(proposal.tasks, disk.tasks, memory.tasks, loaded.tasks, refresh);
    }
  }

  /**
   The guard passes exactly what holds a persistable task, what has an authorization, the first save of
   all, and what replaces nothing persistable.  Whatever it does, the authorization is used up.
   */
  lemma {:induction false} GuardPassesExactly(env: Env, s: World, w: WriterId, t: World)
    requires Step(env, s, Guard(w), t)
    ensures
      var writer := s.writers[w];
      var r, proposal := writer.progress.diskRevision, writer.progress.proposal;
      && w in t.writers && !t.writers[w].allowEmptyOnce
      && t.writers[w].progress
         == (if || writer.allowEmptyOnce
                || (exists id :: id in proposal.tasks && env.persistable(proposal.tasks[id]))
                || (r == 0 && !s.fileExists)
                || (HoldsNone(writer.loaded, env.persistable) && HoldsNone(Current(s), env.persistable))
             then PassedGuard(r, proposal, writer.allowEmptyOnce) else Idle)
  {
  }

  /** An authorized writer always passes the guard, whatever it proposes. */
  lemma {:induction false} AuthorizedPassesGuard(env: Env, ss: seq<World>, actions: seq<Action>, i: nat)
    requires IsRun(env, ss, actions) && i < |actions|
    requires actions[i].Guard? && actions[i].w in ss[i].writers && ss[i].writers[actions[i].w].allowEmptyOnce
    ensures
      var progress := ss[i].writers[actions[i].w].progress;
      actions[i].w in ss[i + 1].writers
      && ss[i + 1].writers[actions[i].w].progress == PassedGuard(progress.diskRevision, progress.proposal, true)
  {
    assert Step(env, ss[i], actions[i], ss[i + 1]);
    GuardPassesExactly(env, ss[i], actions[i].w, ss[i + 1]);
  }

  /** The user deletes the last task: an authorized save commits the empty registry. */
  lemma {:induction false} AuthorizedWipeCommits() returns (ss: seq<World>, actions: seq<Action>, i: nat)
    ensures IsRun(Plain, ss, actions) && i < |actions|
    ensures Wipes(Plain, ss[i], actions[i])
    ensures ss[i + 1].history == [One, EmptyRegistry]
  {
    ss, actions := EmptiedAndAuthorized();
    var before := |actions|;
    ss, actions := DirectSave(ss, actions, 1, true);
    i := before + 3;
    assert "s" in One.tasks && Plain.persistable(One.tasks["s"]);
  }

  lemma {:induction false} EmptiedAndAuthorized() returns (ss: seq<World>, actions: seq<Action>)
    ensures IsRun(Plain, ss, actions)
    ensures actions == [LoadContents(1), LoadRevision(1), Edit(1, EmptyRegistry), Authorize(1)]
    ensures IsReady(ss[4], 1) && ss[4].history == [One]
    ensures ss[4].writers[1].memory == EmptyRegistry && ss[4].writers[1].allowEmptyOnce
  {
    var s0 := World([One], true, map[]);
    assert IsRun(Plain, [s0], []);
    var s1 := With(s0, 1, Writer(EmptyRegistry, EmptyRegistry, 0, false, {}, true, HasContents(One, 0)));
    var s2 := With(s1, 1, Loaded(One, 0));
    var s3 := With(s2, 1, Loaded(One, 0).(memory := EmptyRegistry, touched := {} + Differences(One.tasks, EmptyRegistry.tasks)));
    var s4 := With(s3, 1, s3.writers[1].(allowEmptyOnce := true));
    assert TasksOnly(One) == One;
    Extend([s0], [], LoadContents(1), s1);
    ss, actions := [s0] + [s1], [] + [LoadContents(1)];
    Extend(ss, actions, LoadRevision(1), s2);
    ss, actions := ss + [s2], actions + [LoadRevision(1)];
    Extend(ss, actions, Edit(1, EmptyRegistry), s3);
    ss, actions := ss + [s3], actions + [Edit(1, EmptyRegistry)];
    Extend(ss, actions, Authorize(1), s4);
    ss, actions := ss + [s4], actions + [Authorize(1)];
  }

  // The steps of the protocol are those of a save.

  /** Steps that lead from ss[0] to the last of ss. */
  ghost predicate Leads(env: Env, ss: seq<World>, actions: seq<Action>) {
    |ss| == |actions| + 1 && forall i :: 0 <= i < |actions| ==> Step(env, ss[i], actions[i], ss[i + 1])
  }

  lemma {:induction false} LeadsOn(env: Env, ss: seq<World>, actions: seq<Action>, a: Action, t: World)
    requires Leads(env, ss, actions) && Step(env, ss[|actions|], a, t)
    ensures Leads(env, ss + [t], actions + [a])
  {
    var longer, more := ss + [t], actions + [a];
    forall i | 0 <= i < |more|
      ensures Step(env, longer[i], more[i], longer[i + 1])
    {
      if i < |actions| {
        assert longer[i] == ss[i] && longer[i + 1] == ss[i + 1] && more[i] == actions[i];
      }
    }
  }

  /** What SaveContextWithState promises of its result when no other process commits meanwhile. */
  ghost predicate SaveReturns(env: Env, s: World, writer: Writer, now: int, r: Result<RegistryState, SaveFailure>)
    requires s.history != []
  {
    var disk, seen := TasksOnly(Current(s)), GuardView(s.fileExists, Current(s));
    match r
    case Ok(proposal) =>
      && Proposes(proposal, writer.memory, writer.loaded, writer.loadedRevision, Revision(s), disk, env.refresh, now)
      && PassesGuard(proposal, writer.loaded, Revision(s), writer.allowEmptyOnce, seen, env.persistable)
    case Err(e) =>
      Justifies(e, writer.memory, writer.loaded, writer.loadedRevision, Revision(s), disk, writer.allowEmptyOnce, seen,
                Revision(s), env.persistable, env.refresh, now)
  }

  /** The writer after the method returned, its memory left as it is. */
  function WriterAfter(writer: Writer, revision: nat, r: Result<RegistryState, SaveFailure>): Writer {
    match r
    case Ok(registry) =>
      writer.(loaded := registry, loadedRevision := revision + 1, allowEmptyOnce := false,
              inStep := revision == writer.loadedRevision)
    case Err(e) => if e.MergeRefused? then writer else writer.(allowEmptyOnce := false)
  }

  /**
   A save that nothing interrupts is a sequence of protocol steps: they store what the method returns, and
   leave the writer as the method leaves its state.
   */
  lemma {:induction false} SaveIsItsSteps(
    env: Env, s: World, w: WriterId, now: int, r: Result<RegistryState, SaveFailure>)
    returns (ss: seq<World>, actions: seq<Action>)
    requires s.history != [] && s.fileExists && w in s.writers && s.writers[w].progress.Idle?
    requires SaveReturns(env, s, s.writers[w], now, r)
    ensures Leads(env, ss, actions) && ss[0] == s && forall a :: a in actions ==> a.w == w
    ensures ss[|actions|] == World(
      if r.Ok? then s.history + [r.value] else s.history, true, s.writers[w := WriterAfter(s.writers[w], Revision(s), r)])
  {
    var writer, n := s.writers[w], Revision(s);
    var s1 := With(s, w, writer.(progress := HasRevision(n)));
    LeadsOn(env, [s], [], ReadRevision(w), s1);
    ss, actions := [s] + [s1], [] + [ReadRevision(w)];
    if r.Err? && r.error.MergeRefused? {
      RefusalIsRead(env, s1, w, now, r.error.error.id);
      LeadsOn(env, ss, actions, ReadDisk(w, now), With(s1, w, writer));
      ss, actions := ss + [With(s1, w, writer)], actions + [ReadDisk(w, now)];
      assert s1.writers[w := writer] == s.writers[w := writer];
    } else {
      var proposal := ProposalOf(env, s, writer, now, r);
      var s2 := With(s1, w, writer.(progress := HasProposal(n, proposal)));
      LeadsOn(env, ss, actions, ReadDisk(w, now), s2);
      ss, actions := ss + [s2], actions + [ReadDisk(w, now)];
      ss, actions := GuardAndCommit(env, ss, actions, s, w, proposal, r);
    }
  }

  lemma {:induction false} RefusalIsRead(env: Env, s: World, w: WriterId, now: int, id: TaskId)
    requires s.history != [] && w in s.writers && s.writers[w].progress.HasRevision?
    requires s.writers[w].progress.diskRevision != s.writers[w].loadedRevision
    requires RefusedAt(Current(s).tasks, s.writers[w].memory.tasks, s.writers[w].loaded.tasks, id)
    ensures Step(env, s, ReadDisk(w, now), With(s, w, s.writers[w].(progress := Idle)))
  {
    var writer, disk := s.writers[w], TasksOnly(Current(s));
    RefusalIsExact(Lookup(disk.tasks, id), Lookup(writer.memory.tasks, id), Lookup(writer.loaded.tasks, id), env.refresh);
    assert OutcomeAt(disk.tasks, writer.memory.tasks, writer.loaded.tasks, env.refresh, id).Conflict?;
  }

  /** What a save that gets past the merge proposes. */
  lemma {:induction false} ProposalOf(env: Env, s: World, writer: Writer, now: int, r: Result<RegistryState, SaveFailure>)
    returns (proposal: RegistryState)
    requires s.history != [] && SaveReturns(env, s, writer, now, r)
    requires r.Ok? || !r.error.MergeRefused?
    ensures Proposes(proposal, writer.memory, writer.loaded, writer.loadedRevision, Revision(s), TasksOnly(Current(s)), env.refresh, now)
    ensures PassesGuard(proposal, writer.loaded, Revision(s), writer.allowEmptyOnce, GuardView(s.fileExists, Current(s)), env.persistable)
       <==> r.Ok?
    ensures r.Ok? ==> r.value == proposal
  {
    if r.Ok? {
      proposal := r.value;
    } else {
      proposal :|
        && Proposes(proposal, writer.memory, writer.loaded, writer.loadedRevision, Revision(s), TasksOnly(Current(s)), env.refresh, now)
        && !PassesGuard(proposal, writer.loaded, Revision(s), writer.allowEmptyOnce, GuardView(s.fileExists, Current(s)), env.persistable);
    }
  }

  lemma {:induction false} GuardAndCommit(
    env: Env, ss: seq<World>, actions: seq<Action>, s: World, w: WriterId, proposal: RegistryState,
    r: Result<RegistryState, SaveFailure>)
    returns (ss': seq<World>, actions': seq<Action>)
    requires s.history != [] && s.fileExists && w in s.writers && s.writers[w].progress.Idle?
    requires Leads(env, ss, actions) && forall a :: a in actions ==> a.w == w
    requires ss[0] == s
    requires ss[|actions|].history == s.history && ss[|actions|].fileExists
    requires ss[|actions|].writers == s.writers[w := s.writers[w].(progress := HasProposal(Revision(s), proposal))]
    requires r.Err? ==> !r.error.MergeRefused?
    requires r.Ok? ==> r.value == proposal
    requires r.Ok? <==> PassesGuard(proposal, s.writers[w].loaded, Revision(s), s.writers[w].allowEmptyOnce,
                                    GuardView(s.fileExists, Current(s)), env.persistable)
    ensures Leads(env, ss', actions') && ss'[0] == s && forall a :: a in actions' ==> a.w == w
    ensures ss'[|actions'|] == World(
      if r.Ok? then s.history + [r.value] else s.history, true, s.writers[w := WriterAfter(s.writers[w], Revision(s), r)])
  {
    var writer, n, s2 := s.writers[w], Revision(s), ss[|actions|];
    var s3 := With(s2, w, writer.(allowEmptyOnce := false,
      progress := if r.Ok? then PassedGuard(n, proposal, writer.allowEmptyOnce) else Idle));
    LeadsOn(env, ss, actions, Guard(w), s3);
    ss', actions' := ss + [s3], actions + [Guard(w)];
    assert s3.writers == s.writers[w := s3.writers[w]];
    if r.Ok? {
      var s4 := World(s.history + [proposal], true, s3.writers[w := WriterAfter(writer, n, r)]);
      LeadsOn(env, ss', actions', Commit(w, false), s4);
      ss', actions' := ss' + [s4], actions' + [Commit(w, false)];
      assert s4.writers == s.writers[w := WriterAfter(writer, n, r)];
    }
  }
}
