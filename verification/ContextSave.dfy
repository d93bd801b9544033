/**
 One save of one process (crates/ajax-cli/src/context.rs:214-283, 429-467) and the adopting saves of
 the web server (crates/ajax-cli/src/web_backend.rs:459-470).

 Other processes may commit between the reads a save makes, so what each read returns is a parameter:
 the revision, the contents, the guard's look at the state file, and the revision the store has when
 the commit is tried.
 */
module ContextSave {
  import opened Options
  import opened Registry
  import opened ContextMerge
  import MergeMeaning
  import TaskFacts

  const EmptyRegistry := RegistryState(map[], [], map[])

  /** What load_context reads of a stored registry: its tasks, without events and receipts. */
  function TasksOnly(r: RegistryState): RegistryState {
    RegistryState(r.tasks, [], map[])
  }

  /** Which tasks the store persists is left open. */
  type Persistable = Task -> bool

  predicate HasPersistableTasks(r: RegistryState, persistable: Persistable) {
    exists id :: id in r.tasks && persistable(r.tasks[id])
  }

  /** The state file as the guard finds it. */
  datatype GuardView = GuardView(fileExists: bool, contents: RegistryState)

  predicate PassesGuard(
    proposed: RegistryState, loaded: RegistryState, diskRevision: nat, allowEmpty: bool, seen: GuardView,
    persistable: Persistable)
  {
    || HasPersistableTasks(proposed, persistable)
    || (diskRevision == 0 && !seen.fileExists)
    || allowEmpty
    || (!HasPersistableTasks(loaded, persistable) && !HasPersistableTasks(seen.contents, persistable))
  }

  datatype SaveFailure =
    | MergeRefused(error: SaveError)
    | EmptyOverLoaded
    | EmptyOverDisk
    | RevisionConflict(expected: nat, actual: nat)

  /** What a save proposes to commit. */
  ghost predicate Proposes(
    proposed: RegistryState, memory: RegistryState, loaded: RegistryState, loadedRevision: nat,
    diskRevision: nat, disk: RegistryState, refresh: FactChange, now: int)
  {
    if diskRevision == loadedRevision then proposed == memory
    else exists created :: Merges(proposed, disk, memory, loaded, refresh, now, created)
  }

  /** Why a save fails: the merge conflicts, the guard stops the proposal, or the store moved on since the first read. */
  ghost predicate Justifies(
    failure: SaveFailure, memory: RegistryState, loaded: RegistryState, loadedRevision: nat, diskRevision: nat,
    disk: RegistryState, allowEmpty: bool, seen: GuardView, storeRevision: nat, persistable: Persistable,
    refresh: FactChange, now: int)
  {
    match failure
    case MergeRefused(error) =>
      && diskRevision != loadedRevision && error.StateConflict?
      && IsFirstConflict(disk.tasks, memory.tasks, loaded.tasks, error.id)
    case RevisionConflict(expected, actual) =>
      && expected == diskRevision && actual == storeRevision && expected != actual
      && exists proposal ::
           && Proposes(proposal, memory, loaded, loadedRevision, diskRevision, disk, refresh, now)
           && PassesGuard(proposal, loaded, diskRevision, allowEmpty, seen, persistable)
    case EmptyOverLoaded =>
      && HasPersistableTasks(loaded, persistable)
      && exists proposal ::
           && Proposes(proposal, memory, loaded, loadedRevision, diskRevision, disk, refresh, now)
           && !PassesGuard(proposal, loaded, diskRevision, allowEmpty, seen, persistable)
    case EmptyOverDisk =>
      && !HasPersistableTasks(loaded, persistable) && HasPersistableTasks(seen.contents, persistable)
      && exists proposal ::
           && Proposes(proposal, memory, loaded, loadedRevision, diskRevision, disk, refresh, now)
           && !PassesGuard(proposal, loaded, diskRevision, allowEmpty, seen, persistable)
  }

  /** All that may be proposed has the same tasks. */
  lemma {:induction false} OneProposal(
    a: RegistryState, b: RegistryState, memory: RegistryState, loaded: RegistryState, loadedRevision: nat,
    diskRevision: nat, disk: RegistryState, refresh: FactChange, now: int)
    requires Proposes(a, memory, loaded, loadedRevision, diskRevision, disk, refresh, now)
    requires Proposes(b, memory, loaded, loadedRevision, diskRevision, disk, refresh, now)
    ensures a.tasks == b.tasks
  {
    if diskRevision != loadedRevision {
      MergeMeaning.MergeIsUnique(a.tasks, b.tasks, disk.tasks, memory.tasks, loaded.tasks, refresh);
    }
  }

  /** The save proposes something that holds a persistable task. */
  ghost predicate SavesTasks(
    memory: RegistryState, loaded: RegistryState, loadedRevision: nat, diskRevision: nat, disk: RegistryState,
    persistable: Persistable, refresh: FactChange, now: int)
  {
    exists proposal, id ::
      && Proposes(proposal, memory, loaded, loadedRevision, diskRevision, disk, refresh, now)
      && id in proposal.tasks && persistable(proposal.tasks[id])
  }

  lemma {:induction false} SavesItsTasks(
    proposal: RegistryState, memory: RegistryState, loaded: RegistryState, loadedRevision: nat, diskRevision: nat,
    disk: RegistryState, persistable: Persistable, refresh: FactChange, now: int)
    requires Proposes(proposal, memory, loaded, loadedRevision, diskRevision, disk, refresh, now)
    ensures SavesTasks(memory, loaded, loadedRevision, diskRevision, disk, persistable, refresh, now)
       <==> HasPersistableTasks(proposal, persistable)
  {
    if other, id :| Proposes(other, memory, loaded, loadedRevision, diskRevision, disk, refresh, now)
                    && id in other.tasks && persistable(other.tasks[id]) {
      OneProposal(proposal, other, memory, loaded, loadedRevision, diskRevision, disk, refresh, now);
    }
  }

  /** A registry none of whose tasks is persistable. */
  predicate HoldsNone(r: RegistryState, persistable: Persistable) {
    forall id :: id in r.tasks ==> !persistable(r.tasks[id])
  }

  class ContextSaveState {
    var loadedRegistry: RegistryState
    var loadedRevision: nat
    var allowEmptyRegistryOnce: bool

    constructor (registry: RegistryState, revision: nat)
      ensures loadedRegistry == registry && loadedRevision == revision && !allowEmptyRegistryOnce
    {
      loadedRegistry, loadedRevision, allowEmptyRegistryOnce := registry, revision, false;
    }

    method AllowEmptyRegistryOnce()
      modifies this
      ensures allowEmptyRegistryOnce
      ensures loadedRegistry == old(loadedRegistry) && loadedRevision == old(loadedRevision)
    {
      allowEmptyRegistryOnce := true;
    }

    method PreventAccidentalEmptyOverwrite(
      proposed: RegistryState, diskRevision: nat, allowEmpty: bool, seen: GuardView, persistable: Persistable)
      returns (r: Result<(), SaveFailure>)
      ensures r.Ok? <==> PassesGuard(proposed, loadedRegistry, diskRevision, allowEmpty, seen, persistable)
      ensures r.Err? ==>
        r.error == if HasPersistableTasks(loadedRegistry, persistable) then EmptyOverLoaded else EmptyOverDisk
    {
      if HasPersistableTasks(proposed, persistable) {
        return Ok(());
      }
      if diskRevision == 0 && !seen.fileExists {
        return Ok(());
      }
      if allowEmpty {
        return Ok(());
      }
      if HasPersistableTasks(loadedRegistry, persistable) {
        return Err(EmptyOverLoaded);
      }
      if HasPersistableTasks(seen.contents, persistable) {
        return Err(EmptyOverDisk);
      }
      r := Ok(());
    }

    /** The merge half of a save: what to commit, or why not. */
    method Propose(
      memory: RegistryState, diskRevision: nat, disk: RegistryState, refresh: FactChange, now: int)
      returns (r: Result<RegistryState, SaveFailure>)
      requires Integrity(disk) && Integrity(memory) && Integrity(loadedRegistry)
      ensures r.Ok? ==>
        Proposes(r.value, memory, loadedRegistry, loadedRevision, diskRevision, disk, refresh, now)
      ensures r.Err? <==>
        diskRevision != loadedRevision
        && exists id :: RefusedAt(disk.tasks, memory.tasks, loadedRegistry.tasks, id)
      ensures r.Err? ==>
        diskRevision != loadedRevision && r.error.MergeRefused? && r.error.error.StateConflict?
        && IsFirstConflict(disk.tasks, memory.tasks, loadedRegistry.tasks, r.error.error.id)
    {
      if diskRevision == loadedRevision {
        return Ok(memory);
      }
      var merged, _ := MergeRegistries(disk, memory, loadedRegistry, refresh, now);
      match merged {
        case Ok(registry) => return Ok(registry);
        case Err(e) => return Err(MergeRefused(e));
      }
    }

    /**
     A save.  It commits the proposal if the guard lets it and the store still has the revision read
     first; the authorization is used up by the attempt once the merge has succeeded, whatever follows.
     */
    method SaveContextWithState(
      memory: RegistryState, diskRevision: nat, disk: RegistryState, seen: GuardView, storeRevision: nat,
      persistable: Persistable, refresh: FactChange, now: int)
      returns (r: Result<RegistryState, SaveFailure>)
      requires Integrity(disk) && Integrity(memory) && Integrity(loadedRegistry)
      modifies this
      ensures r.Ok? ==>
        && Proposes(r.value, memory, old(loadedRegistry), old(loadedRevision), diskRevision, disk, refresh, now)
        && PassesGuard(r.value, old(loadedRegistry), diskRevision, old(allowEmptyRegistryOnce), seen, persistable)
        && storeRevision == diskRevision
        && loadedRegistry == r.value && loadedRevision == diskRevision + 1
      ensures r.Err? ==>
        && Justifies(r.error, memory, old(loadedRegistry), old(loadedRevision), diskRevision, disk,
                     old(allowEmptyRegistryOnce), seen, storeRevision, persistable, refresh, now)
        && loadedRegistry == old(loadedRegistry) && loadedRevision == old(loadedRevision)
      ensures allowEmptyRegistryOnce <==> old(allowEmptyRegistryOnce) && r.Err? && r.error.MergeRefused?
      ensures (r.Err? && r.error.MergeRefused?)
        <==> diskRevision != old(loadedRevision)
             && exists id :: RefusedAt(disk.tasks, memory.tasks, old(loadedRegistry).tasks, id)
      ensures old(allowEmptyRegistryOnce) && storeRevision == diskRevision ==> r.Ok? || r.error.MergeRefused?
      ensures r.Ok?
        <==> storeRevision == diskRevision
             && (diskRevision == old(loadedRevision)
                 || !exists id :: RefusedAt(disk.tasks, memory.tasks, old(loadedRegistry).tasks, id))
             && (|| old(allowEmptyRegistryOnce)
                 || SavesTasks(memory, old(loadedRegistry), old(loadedRevision), diskRevision, disk, persistable, refresh, now)
                 || (diskRevision == 0 && !seen.fileExists)
                 || (HoldsNone(old(loadedRegistry), persistable) && HoldsNone(seen.contents, persistable)))
    {
      var proposal := Propose(memory, diskRevision, disk, refresh, now);
      match proposal {
        case Err(e) => return Err(e);
        case Ok(registry) =>
          var allowEmpty := allowEmptyRegistryOnce;
          allowEmptyRegistryOnce := false;
          SavesItsTasks(registry, memory, loadedRegistry, loadedRevision, diskRevision, disk, persistable, refresh, now);
          var guarded := PreventAccidentalEmptyOverwrite(registry, diskRevision, allowEmpty, seen, persistable);
          if guarded.Err? {
            return Err(guarded.error);
          }
          if storeRevision != diskRevision {
            return Err(RevisionConflict(diskRevision, storeRevision));
          }
          loadedRegistry := registry;
          loadedRevision := diskRevision + 1;
          return Ok(registry);
      }
    }
  }

  /**
   The web server's bridge.  It goes on from what it saved, but for the checkpoints of a start, which call
   SaveContextWithState alone (crates/ajax-cli/src/web_backend.rs:291-316).
   */
  class CliRuntimeBridge {
    var saveState: ContextSaveState
    var registry: RegistryState
    var lastLoadedMtime: Option<int>

    constructor (contents: RegistryState, revision: nat, mtime: Option<int>)
      ensures fresh(saveState) && registry == contents && lastLoadedMtime == mtime
      ensures saveState.loadedRegistry == contents && saveState.loadedRevision == revision
      ensures !saveState.allowEmptyRegistryOnce
    {
      saveState := new ContextSaveState(contents, revision);
      registry := contents;
      lastLoadedMtime := mtime;
    }

    /** Reloading if there is a state file, and the revision or the file's modification time moved. */
    method ReloadContextIfStale(mtime: Option<int>, revision: nat, contents: RegistryState, contentsRevision: nat)
      returns (reloaded: bool)
      modifies this
      ensures reloaded <==>
        mtime.Some? && (mtime != old(lastLoadedMtime) || revision != old(saveState.loadedRevision))
      ensures reloaded ==>
        fresh(saveState) && registry == contents && saveState.loadedRegistry == contents && lastLoadedMtime == mtime
        && saveState.loadedRevision == contentsRevision && !saveState.allowEmptyRegistryOnce
      ensures !reloaded ==>
        registry == old(registry) && saveState == old(saveState) && lastLoadedMtime == old(lastLoadedMtime)
    {
      if mtime.None? {
        return false;
      }
      if lastLoadedMtime == mtime && revision == saveState.loadedRevision {
        return false;
      }
      saveState := new ContextSaveState(contents, contentsRevision);
      registry := contents;
      lastLoadedMtime := mtime;
      return true;
    }

    method PersistChangedState(
      diskRevision: nat, disk: RegistryState, seen: GuardView, storeRevision: nat, persistable: Persistable,
      refresh: FactChange, now: int, mtimeAfter: Option<int>)
      returns (r: Result<RegistryState, SaveFailure>)
      requires Integrity(disk) && Integrity(registry) && Integrity(saveState.loadedRegistry)
      modifies this, saveState
      ensures saveState == old(saveState)
      ensures r.Ok? ==>
        && Proposes(r.value, old(registry), old(saveState.loadedRegistry), old(saveState.loadedRevision),
                    diskRevision, disk, refresh, now)
        && registry == r.value && saveState.loadedRegistry == r.value && saveState.loadedRevision == diskRevision + 1
        && lastLoadedMtime == mtimeAfter
      ensures r.Err? ==>
        && Justifies(r.error, old(registry), old(saveState.loadedRegistry), old(saveState.loadedRevision), diskRevision,
                     disk, old(saveState.allowEmptyRegistryOnce), seen, storeRevision, persistable, refresh, now)
        && registry == old(registry) && saveState.loadedRegistry == old(saveState.loadedRegistry)
        && saveState.loadedRevision == old(saveState.loadedRevision) && lastLoadedMtime == old(lastLoadedMtime)
      ensures saveState.allowEmptyRegistryOnce
         <==> old(saveState.allowEmptyRegistryOnce) && r.Err? && r.error.MergeRefused?
    {
      r := saveState.SaveContextWithState(registry, diskRevision, disk, seen, storeRevision, persistable, refresh, now);
      if r.Ok? {
        registry := saveState.loadedRegistry;
        lastLoadedMtime := mtimeAfter;
      }
    }
  }
}
