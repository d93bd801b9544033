/**
 Recovering tasks that git knows and the registry does not
 (crates/ajax-core/src/runtime_refresh.rs:98-124, 683-818).

 The worktree listings of the repositories are given; a listing that failed is None.  Of a task only
 its identity, branch, worktree and lifecycle are kept.
 */
module Recovery {
  import opened Options
  import opened Lifecycle

  datatype Task = Task(
    id: string, repo: string, handle: string, branch: string, worktreePath: string, lifecycle: LifecycleStatus)

  datatype Worktree = Worktree(path: string, branch: Option<string>)

  datatype Repo = Repo(name: string, worktrees: Option<seq<Worktree>>)

  datatype RuntimeTask = RuntimeTask(id: string, repo: string, branch: string, path: string)

  type TaskKey = (string, string)

  type Tasks = map<string, Task>

  /** The registry and the two lists kept beside it; failed once the registry refuses a task. */
  datatype State = State(
    tasks: Tasks, registeredTasks: set<TaskKey>, registeredRuntimeTasks: seq<RuntimeTask>, changed: bool, failed: bool)

  const BRANCH_PREFIX: string := "ajax/"

  /** The handle of a worktree that belongs to a task. */
  function HandleOf(w: Worktree, allowed: string -> bool): Option<string> {
    if !allowed(w.path) || w.branch.None? then None
    else if !(BRANCH_PREFIX <= w.branch.value) || |w.branch.value| == |BRANCH_PREFIX| then None
    else Some(w.branch.value[|BRANCH_PREFIX|..])
  }

  /** The first runtime task at the worktree, |entries| if there is none. */
  function FindAt(entries: seq<RuntimeTask>, repo: string, path: string): (k: nat)
    ensures k <= |entries|
    ensures k < |entries| ==> entries[k].repo == repo && entries[k].path == path
    ensures forall j :: 0 <= j < k ==> !(entries[j].repo == repo && entries[j].path == path)
  {
    if entries == [] || (entries[0].repo == repo && entries[0].path == path) then 0
    else 1 + FindAt(entries[1..], repo, path)
  }

  function RecoveredTask(repo: string, handle: string, w: Worktree): Task
    requires w.branch.Some?
  {
    Task(repo + "/" + handle, repo, handle, w.branch.value, w.path, AfterTransition(Created, Active, Generic))
  }

  predicate IsLive(t: Task) {
    !t.lifecycle.Removed?
  }

  predicate HasLive(tasks: Tasks, id: string) {
    id in tasks && IsLive(tasks[id])
  }

  function Moved(s: State, k: nat, branch: string): State
    requires k < |s.registeredRuntimeTasks|
  {
    var entry := s.registeredRuntimeTasks[k];
    s.(tasks := if entry.id in s.tasks then s.tasks[entry.id := s.tasks[entry.id].(branch := branch)] else s.tasks,
       registeredRuntimeTasks := s.registeredRuntimeTasks[k := entry.(branch := branch)],
       changed := true)
  }

  function Registered(s: State, t: Task): State {
    var entries := s.registeredRuntimeTasks + [RuntimeTask(t.id, t.repo, t.branch, t.worktreePath)];
    if HasLive(s.tasks, t.id) then s.(registeredRuntimeTasks := entries, failed := true)
    else
      s.(tasks := s.tasks[t.id := t], registeredRuntimeTasks := entries,
         registeredTasks := s.registeredTasks + {(t.repo, t.handle)}, changed := true)
  }

  /** One turn of the inner loop; nothing more happens after a failure. */
  function Visit(s: State, repo: string, w: Worktree, allowed: string -> bool): State {
    var handle := HandleOf(w, allowed);
    if s.failed || handle.None? || (repo, handle.value) in s.registeredTasks then s
    else
      var k := FindAt(s.registeredRuntimeTasks, repo, w.path);
      if k == |s.registeredRuntimeTasks| then Registered(s, RecoveredTask(repo, handle.value, w))
      else if s.registeredRuntimeTasks[k].branch != w.branch.value then Moved(s, k, w.branch.value)
      else s
  }

  /** The worktrees visited, in order, each with the name of its repository. */
  function Visits(repos: seq<Repo>): seq<(string, Worktree)> {
    if repos == [] then []
    else Visits(repos[..|repos| - 1]) + VisitsOf(repos[|repos| - 1])
  }

  function VisitsOf(repo: Repo): seq<(string, Worktree)> {
    if repo.worktrees.None? then []
    else seq(|repo.worktrees.value|, i requires 0 <= i < |repo.worktrees.value| => (repo.name, repo.worktrees.value[i]))
  }

  function Recover(s: State, visits: seq<(string, Worktree)>, allowed: string -> bool): State {
    if visits == [] then s
    else
      var last := visits[|visits| - 1];
      Visit(Recover(s, visits[..|visits| - 1], allowed), last.0, last.1, allowed)
  }

  class RecoveryContext {
    var tasks: Tasks
    var registeredTasks: set<TaskKey>
    var registeredRuntimeTasks: seq<RuntimeTask>
    var changed: bool
    var failed: bool

    function Now(): State
      reads this
    {
      State(tasks, registeredTasks, registeredRuntimeTasks, changed, failed)
    }

    constructor (s: State)
      ensures Now() == s
    {
      tasks, registeredTasks, registeredRuntimeTasks := s.tasks, s.registeredTasks, s.registeredRuntimeTasks;
      changed, failed := s.changed, s.failed;
    }

    method CreateTask(t: Task) returns (created: bool)
      modifies this`tasks
      ensures created <==> !HasLive(old(tasks), t.id)
      ensures tasks == if created then old(tasks)[t.id := t] else old(tasks)
    {
      if t.id in tasks && !tasks[t.id].lifecycle.Removed? {
        return false;
      }
      tasks := tasks[t.id := t];
      return true;
    }

    method VisitWorktree(repo: string, w: Worktree, allowed: string -> bool)
      requires !failed
      modifies this
      ensures Now() == Visit(old(Now()), repo, w, allowed)
    {
      var handle := HandleOf(w, allowed);
      if handle.None? || (repo, handle.value) in registeredTasks {
        return;
      }
      var k := 0;
      while k < |registeredRuntimeTasks|
            && !(registeredRuntimeTasks[k].repo == repo && registeredRuntimeTasks[k].path == w.path)
        invariant Now() == old(Now())
        invariant k <= |registeredRuntimeTasks|
        invariant forall j :: 0 <= j < k ==>
          !(registeredRuntimeTasks[j].repo == repo && registeredRuntimeTasks[j].path == w.path)
      {
        k := k + 1;
      }
      assert k == FindAt(registeredRuntimeTasks, repo, w.path);
      if k < |registeredRuntimeTasks| {
        var entry := registeredRuntimeTasks[k];
        if entry.branch != w.branch.value {
          if entry.id in tasks {
            tasks := tasks[entry.id := tasks[entry.id].(branch := w.branch.value)];
          }
          registeredRuntimeTasks := registeredRuntimeTasks[k := entry.(branch := w.branch.value)];
          changed := true;
        }
        return;
      }
      var t := RecoveredTask(repo, handle.value, w);
      registeredRuntimeTasks := registeredRuntimeTasks + [RuntimeTask(t.id, t.repo, t.branch, t.worktreePath)];
      var created := CreateTask(t);
      if !created {
        failed := true;
        return;
      }
      registeredTasks := registeredTasks + {(repo, handle.value)};
      changed := true;
    }

    /** The inner loop, left at the first failure. */
    method VisitRepo(repo: Repo, allowed: string -> bool)
      requires !failed
      modifies this
      ensures Now() == Recover(old(Now()), VisitsOf(repo), allowed)
    {
      if repo.worktrees.None? {
        return;
      }
      var worktrees, visits := repo.worktrees.value, VisitsOf(repo);
      var i := 0;
      while i < |worktrees| && !failed
        invariant i <= |worktrees|
        invariant Now() == Recover(old(Now()), visits[..i], allowed)
      {
        RecoverNext(old(Now()), visits, i, allowed);
        VisitWorktree(repo.name, worktrees[i], allowed);
        i := i + 1;
      }
      RecoverStopsAt(old(Now()), visits, i, allowed);
    }

    /** The nested loops over repositories and worktrees, left at the first failure. */
    method RecoverMissingTasksFromSubstrate(repos: seq<Repo>, allowed: string -> bool)
      requires !failed
      modifies this
      ensures Now() == Recover(old(Now()), Visits(repos), allowed)
    {
      var r := 0;
      while r < |repos| && !failed
        invariant r <= |repos|
        invariant Now() == Recover(old(Now()), Visits(repos[..r]), allowed)
      {
        VisitsNext(repos, r);
        RecoverSplit(old(Now()), Visits(repos[..r]), VisitsOf(repos[r]), allowed);
        VisitRepo(repos[r], allowed);
        r := r + 1;
      }
      VisitsPrefix(repos, r);
      RecoverStopsAt(old(Now()), Visits(repos), |Visits(repos[..r])|, allowed);
    }
  }

  lemma {:induction false} RecoverNext(s: State, visits: seq<(string, Worktree)>, i: nat, allowed: string -> bool)
    requires i < |visits|
    ensures Recover(s, visits[..i + 1], allowed)
         == Visit(Recover(s, visits[..i], allowed), visits[i].0, visits[i].1, allowed)
  {
    assert visits[..i + 1][..i] == visits[..i];
  }

  lemma {:induction false} RecoverSplit(
    s: State, done: seq<(string, Worktree)>, rest: seq<(string, Worktree)>, allowed: string -> bool)
    ensures Recover(s, done + rest, allowed) == Recover(Recover(s, done, allowed), rest, allowed)
  {
    if rest == [] {
      assert done + rest == done;
    } else {
      RecoverSplit(s, done, rest[..|rest| - 1], allowed);
      assert (done + rest)[..|done + rest| - 1] == done + rest[..|rest| - 1];
    }
  }

  lemma {:induction false} FailedStays(s: State, visits: seq<(string, Worktree)>, allowed: string -> bool)
    requires s.failed
    ensures Recover(s, visits, allowed) == s
  {
    if visits != [] {
      FailedStays(s, visits[..|visits| - 1], allowed);
    }
  }

  /** Leaving the loops at a failure is the same as visiting the rest. */
  lemma {:induction false} RecoverStopsAt(s: State, visits: seq<(string, Worktree)>, i: nat, allowed: string -> bool)
    requires i <= |visits|
    ensures i == |visits| || Recover(s, visits[..i], allowed).failed ==>
      Recover(s, visits, allowed) == Recover(s, visits[..i], allowed)
  {
    assert visits == visits[..i] + visits[i..];
    RecoverSplit(s, visits[..i], visits[i..], allowed);
    if Recover(s, visits[..i], allowed).failed {
      FailedStays(Recover(s, visits[..i], allowed), visits[i..], allowed);
    }
  }

  lemma {:induction false} VisitsNext(repos: seq<Repo>, r: nat)
    requires r < |repos|
    ensures Visits(repos[..r + 1]) == Visits(repos[..r]) + VisitsOf(repos[r])
  {
    assert repos[..r + 1][..r] == repos[..r];
  }

  lemma {:induction false} VisitsPrefix(repos: seq<Repo>, r: nat)
    requires r <= |repos|
    ensures Visits(repos[..r]) <= Visits(repos)
    ensures Visits(repos)[..|Visits(repos[..r])|] == Visits(repos[..r])
    ensures r == |repos| ==> |Visits(repos[..r])| == |Visits(repos)|
  {
    if r < |repos| {
      VisitsPrefix(repos[..|repos| - 1], r);
      assert repos[..|repos| - 1][..r] == repos[..r];
    } else {
      assert repos[..r] == repos;
    }
  }

  // What recovery keeps.

  /** Tasks are filed under their ids, and no two live ones share a handle or a worktree in one repository. */
  ghost predicate IsConsistent(tasks: Tasks) {
    && (forall id :: id in tasks ==> tasks[id].id == id)
    && (forall a, b :: HasLive(tasks, a) && HasLive(tasks, b) && a != b ==>
          tasks[a].repo != tasks[b].repo
          || (tasks[a].handle != tasks[b].handle && tasks[a].worktreePath != tasks[b].worktreePath))
  }

  predicate IsEntryOf(e: RuntimeTask, tasks: Tasks) {
    HasLive(tasks, e.id) && var t := tasks[e.id]; e == RuntimeTask(t.id, t.repo, t.branch, t.worktreePath)
  }

  ghost predicate HasEntry(entries: seq<RuntimeTask>, id: string) {
    exists k :: 0 <= k < |entries| && entries[k].id == id
  }

  ghost predicate OwnsKey(tasks: Tasks, key: TaskKey) {
    exists id :: HasLive(tasks, id) && (tasks[id].repo, tasks[id].handle) == key
  }

  ghost predicate EntriesInSync(tasks: Tasks, entries: seq<RuntimeTask>) {
    && (forall id :: HasLive(tasks, id) ==> HasEntry(entries, id))
    && (forall k :: 0 <= k < |entries| ==> IsEntryOf(entries[k], tasks))
    && (forall i, j :: 0 <= i < j < |entries| ==> entries[i].id != entries[j].id)
  }

  ghost predicate KeysInSync(tasks: Tasks, keys: set<TaskKey>) {
    && (forall id :: HasLive(tasks, id) ==> (tasks[id].repo, tasks[id].handle) in keys)
    && (forall key :: key in keys ==> OwnsKey(tasks, key))
  }

  /** The two lists are those of the live tasks, as refresh_runtime_substrate computes them. */
  ghost predicate InSync(s: State) {
    EntriesInSync(s.tasks, s.registeredRuntimeTasks) && KeysInSync(s.tasks, s.registeredTasks)
  }

  ghost predicate Good(s: State) {
    IsConsistent(s.tasks) && (s.failed || InSync(s))
  }

  /** Tasks with the same ids, handles and liveness own the same keys. */
  lemma {:induction false} SameKeys(before: Tasks, after: Tasks, keys: set<TaskKey>)
    requires KeysInSync(before, keys)
    requires forall id :: HasLive(before, id) <==> HasLive(after, id)
    requires forall id :: HasLive(before, id) && HasLive(after, id) ==> after[id].repo == before[id].repo && after[id].handle == before[id].handle
    ensures KeysInSync(after, keys)
  {
    forall key | key in keys
      ensures OwnsKey(after, key)
    {
      assert OwnsKey(before, key);
      var id :| HasLive(before, id) && (before[id].repo, before[id].handle) == key;
      assert HasLive(after, id);
    }
  }

  lemma {:induction false} MovedEntries(tasks: Tasks, entries: seq<RuntimeTask>, k: nat, branch: string)
    requires EntriesInSync(tasks, entries) && k < |entries| && entries[k].id in tasks
    ensures EntriesInSync(
      tasks[entries[k].id := tasks[entries[k].id].(branch := branch)], entries[k := entries[k].(branch := branch)])
  {
    var id := entries[k].id;
    var after, moved := tasks[id := tasks[id].(branch := branch)], entries[k := entries[k].(branch := branch)];
    assert forall j :: 0 <= j < |moved| ==> moved[j].id == entries[j].id;
    forall j | 0 <= j < |moved|
      ensures IsEntryOf(moved[j], after)
    {
      assert IsEntryOf(entries[j], tasks);
      assert j != k ==> entries[j].id != id;
    }
    forall a | HasLive(after, a)
      ensures HasEntry(moved, a)
    {
      assert HasLive(tasks, a) && HasEntry(entries, a);
      var j :| 0 <= j < |entries| && entries[j].id == a;
      assert moved[j].id == a;
    }
  }

  lemma {:induction false} MovedGood(s: State, k: nat, branch: string)
    requires Good(s) && !s.failed && k < |s.registeredRuntimeTasks|
    ensures Good(Moved(s, k, branch))
  {
    var id := s.registeredRuntimeTasks[k].id;
    assert IsEntryOf(s.registeredRuntimeTasks[k], s.tasks);
    MovedEntries(s.tasks, s.registeredRuntimeTasks, k, branch);
    SameKeys(s.tasks, Moved(s, k, branch).tasks, s.registeredTasks);
  }

  lemma {:induction false} RegisteredConsistent(s: State, t: Task)
    requires Good(s) && !s.failed
    requires (t.repo, t.handle) !in s.registeredTasks
    requires FindAt(s.registeredRuntimeTasks, t.repo, t.worktreePath) == |s.registeredRuntimeTasks|
    requires !HasLive(s.tasks, t.id) && IsLive(t)
    ensures IsConsistent(s.tasks[t.id := t])
  {
    forall a | HasLive(s.tasks, a)
      ensures s.tasks[a].repo != t.repo
              || (s.tasks[a].handle != t.handle && s.tasks[a].worktreePath != t.worktreePath)
    {
      assert HasEntry(s.registeredRuntimeTasks, a);
      var k :| 0 <= k < |s.registeredRuntimeTasks| && s.registeredRuntimeTasks[k].id == a;
      assert IsEntryOf(s.registeredRuntimeTasks[k], s.tasks);
    }
  }

  lemma {:induction false} NewEntry(tasks: Tasks, entries: seq<RuntimeTask>, t: Task)
    requires EntriesInSync(tasks, entries)
    requires !HasLive(tasks, t.id) && IsLive(t)
    ensures EntriesInSync(tasks[t.id := t], entries + [RuntimeTask(t.id, t.repo, t.branch, t.worktreePath)])
  {
    var after, more := tasks[t.id := t], entries + [RuntimeTask(t.id, t.repo, t.branch, t.worktreePath)];
    forall j | 0 <= j < |entries|
      ensures entries[j].id != t.id && IsEntryOf(more[j], after)
    {
      assert IsEntryOf(entries[j], tasks);
    }
    assert more[|entries|].id == t.id;
    forall a | HasLive(after, a) && a != t.id
      ensures HasEntry(more, a)
    {
      assert HasLive(tasks, a) && HasEntry(entries, a);
      var j :| 0 <= j < |entries| && entries[j].id == a;
      assert more[j].id == a;
    }
  }

  lemma {:induction false} NewKey(tasks: Tasks, keys: set<TaskKey>, t: Task)
    requires KeysInSync(tasks, keys)
    requires !HasLive(tasks, t.id) && IsLive(t)
    ensures KeysInSync(tasks[t.id := t], keys + {(t.repo, t.handle)})
  {
    var after := tasks[t.id := t];
    forall key | key in keys + {(t.repo, t.handle)}
      ensures OwnsKey(after, key)
    {
      if key == (t.repo, t.handle) {
        assert HasLive(after, t.id);
      } else {
        assert OwnsKey(tasks, key);
        var a :| HasLive(tasks, a) && (tasks[a].repo, tasks[a].handle) == key;
        assert HasLive(after, a);
      }
    }
    assert forall a :: HasLive(after, a) && a != t.id ==> HasLive(tasks, a);
  }

  lemma {:induction false} RegisteredGood(s: State, t: Task)
    requires Good(s) && !s.failed
    requires (t.repo, t.handle) !in s.registeredTasks
    requires FindAt(s.registeredRuntimeTasks, t.repo, t.worktreePath) == |s.registeredRuntimeTasks|
    requires IsLive(t)
    ensures Good(Registered(s, t))
  {
    if !HasLive(s.tasks, t.id) {
      RegisteredConsistent(s, t);
      NewEntry(s.tasks, s.registeredRuntimeTasks, t);
      NewKey(s.tasks, s.registeredTasks, t);
    }
  }

  lemma {:induction false} VisitGood(s: State, repo: string, w: Worktree, allowed: string -> bool)
    requires Good(s)
    ensures Good(Visit(s, repo, w, allowed))
  {
    var handle := HandleOf(w, allowed);
    if !s.failed && handle.Some? && (repo, handle.value) !in s.registeredTasks {
      var k := FindAt(s.registeredRuntimeTasks, repo, w.path);
      if k == |s.registeredRuntimeTasks| {
        RegisteredGood(s, RecoveredTask(repo, handle.value, w));
      } else if s.registeredRuntimeTasks[k].branch != w.branch.value {
        MovedGood(s, k, w.branch.value);
      }
    }
  }

  /** Recovery keeps live tasks distinct in handle and in worktree, whether or not it fails half-way. */
  lemma {:induction false} RecoveryKeepsConsistency(s: State, visits: seq<(string, Worktree)>, allowed: string -> bool)
    requires Good(s)
    ensures Good(Recover(s, visits, allowed))
  {
    if visits != [] {
      RecoveryKeepsConsistency(s, visits[..|visits| - 1], allowed);
      VisitGood(Recover(s, visits[..|visits| - 1], allowed), visits[|visits| - 1].0, visits[|visits| - 1].1, allowed);
    }
  }

  /** Every live task is still there, with at most another branch. */
  ghost predicate Preserves(before: Tasks, after: Tasks) {
    forall id :: HasLive(before, id) ==> id in after && after[id] == before[id].(branch := after[id].branch)
  }

  /** No live task is overwritten. */
  lemma {:induction false} RecoveryPreservesTasks(s: State, visits: seq<(string, Worktree)>, allowed: string -> bool)
    ensures Preserves(s.tasks, Recover(s, visits, allowed).tasks)
  {
    if visits != [] {
      RecoveryPreservesTasks(s, visits[..|visits| - 1], allowed);
    }
  }

  // Recovering again.

  /** Nothing is left to do for the worktree. */
  ghost predicate IsSettled(tasks: Tasks, repo: string, w: Worktree, allowed: string -> bool) {
    var handle := HandleOf(w, allowed);
    || handle.None?
    || (exists id :: HasLive(tasks, id) && tasks[id].repo == repo && tasks[id].handle == handle.value)
    || (exists id :: HasLive(tasks, id) && tasks[id].repo == repo && tasks[id].worktreePath == w.path
                     && tasks[id].branch == w.branch.value)
  }

  /** Creating a task for the worktree is refused: another live task has its id. */
  ghost predicate IsRefused(tasks: Tasks, repo: string, w: Worktree, allowed: string -> bool) {
    var handle := HandleOf(w, allowed);
    && handle.Some? && HasLive(tasks, repo + "/" + handle.value)
    && (forall id :: HasLive(tasks, id) && tasks[id].repo == repo ==>
          tasks[id].handle != handle.value && tasks[id].worktreePath != w.path)
  }

  lemma {:induction false} EntryAt(s: State, repo: string, path: string)
    requires Good(s) && !s.failed
    ensures var k := FindAt(s.registeredRuntimeTasks, repo, path);
      if k == |s.registeredRuntimeTasks| then
        forall id :: HasLive(s.tasks, id) ==> !(s.tasks[id].repo == repo && s.tasks[id].worktreePath == path)
      else
        forall id :: HasLive(s.tasks, id) && s.tasks[id].repo == repo && s.tasks[id].worktreePath == path ==>
          id == s.registeredRuntimeTasks[k].id
  {
    var k := FindAt(s.registeredRuntimeTasks, repo, path);
    if k < |s.registeredRuntimeTasks| {
      assert IsEntryOf(s.registeredRuntimeTasks[k], s.tasks);
    } else {
      forall id | HasLive(s.tasks, id)
        ensures !(s.tasks[id].repo == repo && s.tasks[id].worktreePath == path)
      {
        assert HasEntry(s.registeredRuntimeTasks, id);
        var j :| 0 <= j < |s.registeredRuntimeTasks| && s.registeredRuntimeTasks[j].id == id;
        assert IsEntryOf(s.registeredRuntimeTasks[j], s.tasks);
      }
    }
  }

  lemma {:induction false} RegisteredMeans(s: State, repo: string, handle: string)
    requires Good(s) && !s.failed
    ensures (repo, handle) in s.registeredTasks
       <==> exists id :: HasLive(s.tasks, id) && s.tasks[id].repo == repo && s.tasks[id].handle == handle
  {
    if (repo, handle) in s.registeredTasks {
      assert OwnsKey(s.tasks, (repo, handle));
      var id :| HasLive(s.tasks, id) && (s.tasks[id].repo, s.tasks[id].handle) == (repo, handle);
    }
  }

  /** A settled worktree is passed over, a refused one fails without touching a task. */
  lemma {:induction false} VisitAgain(s: State, repo: string, w: Worktree, allowed: string -> bool)
    requires Good(s) && !s.failed
    ensures IsSettled(s.tasks, repo, w, allowed) ==> Visit(s, repo, w, allowed) == s
    ensures IsRefused(s.tasks, repo, w, allowed) ==>
      var t := Visit(s, repo, w, allowed); t.failed && t.tasks == s.tasks && t.changed == s.changed
  {
    var handle := HandleOf(w, allowed);
    if handle.Some? {
      RegisteredMeans(s, repo, handle.value);
      EntryAt(s, repo, w.path);
      var k := FindAt(s.registeredRuntimeTasks, repo, w.path);
      if k < |s.registeredRuntimeTasks| {
        assert IsEntryOf(s.registeredRuntimeTasks[k], s.tasks);
      }
    }
  }

  /** A visit settles its worktree, or fails because it is refused. */
  lemma {:induction false} VisitSettles(s: State, repo: string, w: Worktree, allowed: string -> bool)
    requires Good(s) && !s.failed
    ensures var t := Visit(s, repo, w, allowed);
      if t.failed then IsRefused(s.tasks, repo, w, allowed) && t.tasks == s.tasks
      else IsSettled(t.tasks, repo, w, allowed)
  {
    var handle := HandleOf(w, allowed);
    if handle.Some? {
      RegisteredMeans(s, repo, handle.value);
      EntryAt(s, repo, w.path);
      var k := FindAt(s.registeredRuntimeTasks, repo, w.path);
      var t := Visit(s, repo, w, allowed);
      if (repo, handle.value) !in s.registeredTasks {
        if k < |s.registeredRuntimeTasks| {
          var id := s.registeredRuntimeTasks[k].id;
          assert IsEntryOf(s.registeredRuntimeTasks[k], s.tasks);
          assert HasLive(t.tasks, id) && t.tasks[id].branch == w.branch.value;
        } else if !t.failed {
          assert HasLive(t.tasks, repo + "/" + handle.value);
        }
      }
    }
  }

  /** What a visit can do to a live task: give the task at its worktree another branch. */
  lemma {:induction false} VisitChanges(s: State, repo: string, w: Worktree, allowed: string -> bool, id: string)
    requires Good(s) && !s.failed && HasLive(s.tasks, id)
    ensures
      var t := Visit(s, repo, w, allowed);
      && HasLive(t.tasks, id) && t.tasks[id] == s.tasks[id].(branch := t.tasks[id].branch)
      && (s.tasks[id].repo != repo || s.tasks[id].worktreePath != w.path ==> t.tasks[id] == s.tasks[id])
  {
    var k := FindAt(s.registeredRuntimeTasks, repo, w.path);
    if k < |s.registeredRuntimeTasks| {
      assert IsEntryOf(s.registeredRuntimeTasks[k], s.tasks);
    }
  }

  /** A visit leaves every other worktree settled. */
  lemma {:induction false} VisitKeepsSettled(
    s: State, repo: string, w: Worktree, other: string, v: Worktree, allowed: string -> bool)
    requires Good(s) && !s.failed
    requires repo != other || w.path != v.path
    requires IsSettled(s.tasks, other, v, allowed)
    ensures IsSettled(Visit(s, repo, w, allowed).tasks, other, v, allowed)
  {
    var handle := HandleOf(v, allowed);
    if handle.Some? {
      if id :| HasLive(s.tasks, id) && s.tasks[id].repo == other && s.tasks[id].handle == handle.value {
        VisitChanges(s, repo, w, allowed, id);
      } else {
        var id :| HasLive(s.tasks, id) && s.tasks[id].repo == other && s.tasks[id].worktreePath == v.path
                  && s.tasks[id].branch == v.branch.value;
        VisitChanges(s, repo, w, allowed, id);
      }
    }
  }

  /** No worktree is listed twice. */
  ghost predicate DistinctVisits(visits: seq<(string, Worktree)>) {
    forall i, j :: 0 <= i < j < |visits| ==> visits[i].0 != visits[j].0 || visits[i].1.path != visits[j].1.path
  }

  /** Everything visited before a failure is settled, and the failure is a refusal. */
  ghost predicate AllSettled(tasks: Tasks, visits: seq<(string, Worktree)>, allowed: string -> bool) {
    forall i :: 0 <= i < |visits| ==> IsSettled(tasks, visits[i].0, visits[i].1, allowed)
  }

  lemma {:induction false} SettledNext(
    s: State, settled: seq<(string, Worktree)>, last: (string, Worktree), allowed: string -> bool)
    requires Good(s) && !s.failed && AllSettled(s.tasks, settled, allowed) && DistinctVisits(settled + [last])
    ensures var t := Visit(s, last.0, last.1, allowed);
      if t.failed then IsRefused(t.tasks, last.0, last.1, allowed) && AllSettled(t.tasks, settled, allowed)
      else AllSettled(t.tasks, settled + [last], allowed)
  {
    var t := Visit(s, last.0, last.1, allowed);
    VisitSettles(s, last.0, last.1, allowed);
    forall i | 0 <= i < |settled|
      ensures IsSettled(t.tasks, settled[i].0, settled[i].1, allowed)
    {
      assert (settled + [last])[i] == settled[i] && (settled + [last])[|settled|] == last;
      VisitKeepsSettled(s, last.0, last.1, settled[i].0, settled[i].1, allowed);
    }
  }

  lemma {:induction false} SettledByRecovery(s: State, visits: seq<(string, Worktree)>, allowed: string -> bool)
    returns (n: nat)
    requires Good(s) && !s.failed && DistinctVisits(visits)
    ensures n <= |visits| && AllSettled(Recover(s, visits, allowed).tasks, visits[..n], allowed)
    ensures Recover(s, visits, allowed).failed <==> n < |visits|
    ensures n < |visits| ==> IsRefused(Recover(s, visits, allowed).tasks, visits[n].0, visits[n].1, allowed)
  {
    if visits == [] {
      n := 0;
    } else {
      var init, last := visits[..|visits| - 1], visits[|visits| - 1];
      n := SettledByRecovery(s, init, allowed);
      RecoveryKeepsConsistency(s, init, allowed);
      assert visits[..n] == init[..n];
      if n == |init| {
        assert init[..n] == init;
        assert init + [last] == visits;
        SettledNext(Recover(s, init, allowed), init, last, allowed);
        if !Recover(s, visits, allowed).failed {
          n := |visits|;
          assert visits[..n] == visits;
        }
      }
    }
  }

  lemma {:induction false} SettledStays(s: State, visits: seq<(string, Worktree)>, allowed: string -> bool)
    requires Good(s) && !s.failed && AllSettled(s.tasks, visits, allowed)
    ensures Recover(s, visits, allowed) == s
  {
    if visits != [] {
      var init, last := visits[..|visits| - 1], visits[|visits| - 1];
      assert forall i :: 0 <= i < |init| ==> init[i] == visits[i];
      SettledStays(s, init, allowed);
      VisitAgain(s, last.0, last.1, allowed);
    }
  }

  /**
   Idempotence: a second recovery on the same listings, with its lists computed afresh, changes
   nothing, and fails exactly if the first one did.
   */
  lemma {:induction false} RecoveryIsIdempotent(
    first: State, visits: seq<(string, Worktree)>, second: State, allowed: string -> bool)
    requires Good(first) && !first.failed && DistinctVisits(visits)
    requires second.tasks == Recover(first, visits, allowed).tasks
    requires InSync(second) && !second.failed && !second.changed
    ensures Recover(second, visits, allowed).tasks == second.tasks
    ensures !Recover(second, visits, allowed).changed
    ensures Recover(second, visits, allowed).failed <==> Recover(first, visits, allowed).failed
  {
    RecoveryKeepsConsistency(first, visits, allowed);
    var n := SettledByRecovery(first, visits, allowed);
    SettledStays(second, visits[..n], allowed);
    if n < |visits| {
      VisitAgain(second, visits[n].0, visits[n].1, allowed);
      RecoverNext(second, visits, n, allowed);
      RecoverStopsAt(second, visits, n + 1, allowed);
    } else {
      assert visits[..n] == visits;
    }
  }

  /** Distinct repository names and distinct paths within a listing visit no worktree twice. */
  lemma {:induction false} ListingsAreDistinct(repos: seq<Repo>)
    requires forall i, j :: 0 <= i < j < |repos| ==> repos[i].name != repos[j].name
    requires forall r, i, j :: 0 <= r < |repos| && repos[r].worktrees.Some? && 0 <= i < j < |repos[r].worktrees.value| ==>
      repos[r].worktrees.value[i].path != repos[r].worktrees.value[j].path
    ensures DistinctVisits(Visits(repos))
    ensures forall v :: v in Visits(repos) ==> exists r :: 0 <= r < |repos| && repos[r].name == v.0
  {
    if repos != [] {
      var init, last := repos[..|repos| - 1], repos[|repos| - 1];
      ListingsAreDistinct(init);
      var a, b := Visits(init), VisitsOf(last);
      var all: seq<(string, Worktree)> := a + b;
      forall i, j | 0 <= i < j < |all|
        ensures all[i].0 != all[j].0 || all[i].1.path != all[j].1.path
      {
        if i < |a| && |a| <= j {
          assert a[i] in a;
          var r :| 0 <= r < |init| && init[r].name == a[i].0;
          assert init[r] == repos[r];
        }
      }
      forall v | v in all
        ensures exists r :: 0 <= r < |repos| && repos[r].name == v.0
      {
        if v in a {
          var r :| 0 <= r < |init| && init[r].name == v.0;
          assert repos[r].name == v.0;
        } else {
          assert repos[|repos| - 1].name == v.0;
        }
      }
    }
  }

  /** The worktrees visited are those of the repositories that could be listed. */
  lemma {:induction false} VisitedExactly(repos: seq<Repo>, v: (string, Worktree))
    ensures v in Visits(repos)
       <==> exists r :: 0 <= r < |repos| && repos[r].name == v.0 && repos[r].worktrees.Some? && v.1 in repos[r].worktrees.value
  {
    if repos != [] {
      var init, last := repos[..|repos| - 1], repos[|repos| - 1];
      VisitedExactly(init, v);
      VisitedOf(last, v);
      if r :| 0 <= r < |init| && init[r].name == v.0 && init[r].worktrees.Some? && v.1 in init[r].worktrees.value {
        assert repos[r] == init[r];
      }
      if r :| 0 <= r < |repos| && repos[r].name == v.0 && repos[r].worktrees.Some? && v.1 in repos[r].worktrees.value {
        assert r < |init| ==> init[r] == repos[r];
      }
    }
  }

  lemma {:induction false} VisitedOf(repo: Repo, v: (string, Worktree))
    ensures v in VisitsOf(repo) <==> repo.name == v.0 && repo.worktrees.Some? && v.1 in repo.worktrees.value
  {
    if repo.worktrees.Some? && repo.name == v.0 && v.1 in repo.worktrees.value {
      var i :| 0 <= i < |repo.worktrees.value| && repo.worktrees.value[i] == v.1;
      assert VisitsOf(repo)[i] == v;
    }
  }
}
