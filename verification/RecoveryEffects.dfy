/**
 What recovery does to the tasks: which worktrees belong to a task, what a recovered task is, which branch
 is corrected, and that nothing is missed (crates/ajax-core/src/runtime_refresh.rs:98-124, 683-818).
 */
module RecoveryEffects {
  import opened Options
  import opened Lifecycle
  import opened Recovery

  type Allowed = string -> bool

  type Visit = (string, Worktree)

  /** The worktree is at an allowed place, on the branch of the task with the handle. */
  predicate Belongs(w: Worktree, allowed: Allowed, handle: string) {
    allowed(w.path) && handle != "" && w.branch == Some("ajax/" + handle)
  }

  lemma {:induction false} HandleExactly(w: Worktree, allowed: Allowed, handle: string)
    ensures HandleOf(w, allowed) == Some(handle) <==> Belongs(w, allowed, handle)
  {
    if Belongs(w, allowed, handle) {
      assert ("ajax/" + handle)[..5] == "ajax/" && ("ajax/" + handle)[5..] == handle;
    }
    if HandleOf(w, allowed) == Some(handle) {
      var branch := w.branch.value;
      assert branch[..|BRANCH_PREFIX|] == BRANCH_PREFIX && branch == branch[..|BRANCH_PREFIX|] + handle;
    }
  }

  predicate IsTaskOf(t: Recovery.Task, repo: string, handle: string) {
    t.lifecycle != Removed && t.repo == repo && t.handle == handle
  }

  predicate IsTaskAt(t: Recovery.Task, repo: string, path: string) {
    t.lifecycle != Removed && t.repo == repo && t.worktreePath == path
  }

  ghost predicate SomeTaskOf(tasks: Tasks, repo: string, handle: string) {
    exists id :: id in tasks && IsTaskOf(tasks[id], repo, handle)
  }

  ghost predicate SomeTaskAt(tasks: Tasks, repo: string, path: string) {
    exists id :: id in tasks && IsTaskAt(tasks[id], repo, path)
  }

  /** What a visit of a task's worktree makes of the tasks. */
  ghost predicate Recovers(before: Tasks, repo: string, w: Worktree, handle: string, after: Tasks, failed: bool) {
    var id := repo + "/" + handle;
    if SomeTaskOf(before, repo, handle) then after == before && !failed
    else if SomeTaskAt(before, repo, w.path) then
      exists at :: at in before && IsTaskAt(before[at], repo, w.path)
                && after == before[at := before[at].(branch := "ajax/" + handle)] && !failed
    else if id in before && before[id].lifecycle != Removed then after == before && failed
    else after == before[id := Recovery.Task(id, repo, handle, "ajax/" + handle, w.path, Active)] && !failed
  }

  lemma {:induction false} OwnedMeans(s: State, repo: string, handle: string)
    requires Good(s) && !s.failed
    ensures (repo, handle) in s.registeredTasks <==> SomeTaskOf(s.tasks, repo, handle)
  {
    RegisteredMeans(s, repo, handle);
    if id :| HasLive(s.tasks, id) && s.tasks[id].repo == repo && s.tasks[id].handle == handle {
      assert id in s.tasks && IsTaskOf(s.tasks[id], repo, handle);
    }
    if id :| id in s.tasks && IsTaskOf(s.tasks[id], repo, handle) {
      assert HasLive(s.tasks, id);
    }
  }

  lemma {:induction false} FoundMeans(s: State, repo: string, path: string)
    requires Good(s) && !s.failed
    ensures var k := FindAt(s.registeredRuntimeTasks, repo, path);
      && (k < |s.registeredRuntimeTasks| <==> SomeTaskAt(s.tasks, repo, path))
      && (k < |s.registeredRuntimeTasks| ==>
            && s.registeredRuntimeTasks[k].id in s.tasks
            && IsTaskAt(s.tasks[s.registeredRuntimeTasks[k].id], repo, path)
            && s.tasks[s.registeredRuntimeTasks[k].id].branch == s.registeredRuntimeTasks[k].branch)
  {
    EntryAt(s, repo, path);
    var k := FindAt(s.registeredRuntimeTasks, repo, path);
    if k < |s.registeredRuntimeTasks| {
      assert IsEntryOf(s.registeredRuntimeTasks[k], s.tasks);
    }
    if id :| id in s.tasks && IsTaskAt(s.tasks[id], repo, path) {
      assert HasLive(s.tasks, id);
    }
  }

  /** A worktree that belongs to no task is passed over, and one that does is recovered. */
  lemma {:induction false} VisitRecovers(s: State, repo: string, w: Worktree, allowed: Allowed, handle: string)
    requires Good(s) && !s.failed
    requires Belongs(w, allowed, handle)
    ensures var t := Recovery.Visit(s, repo, w, allowed);
      Recovers(s.tasks, repo, w, handle, t.tasks, t.failed)
  {
    HandleExactly(w, allowed, handle);
    OwnedMeans(s, repo, handle);
    FoundMeans(s, repo, w.path);
    var k := FindAt(s.registeredRuntimeTasks, repo, w.path);
    if (repo, handle) !in s.registeredTasks && k < |s.registeredRuntimeTasks| {
      var at := s.registeredRuntimeTasks[k].id;
      if s.registeredRuntimeTasks[k].branch == "ajax/" + handle {
        assert s.tasks == s.tasks[at := s.tasks[at].(branch := "ajax/" + handle)];
      }
    }
  }

  lemma {:induction false} OthersPassedOver(s: State, repo: string, w: Worktree, allowed: Allowed)
    requires forall handle :: !Belongs(w, allowed, handle)
    ensures Recovery.Visit(s, repo, w, allowed) == s
  {
    if HandleOf(w, allowed).Some? {
      HandleExactly(w, allowed, HandleOf(w, allowed).value);
    }
  }

  // The whole of it.

  /** The task is at the visited worktree, on the branch of some handle. */
  predicate IsListedAt(t: Recovery.Task, v: Visit, allowed: Allowed) {
    t.repo == v.0 && t.worktreePath == v.1.path && v.1.branch == Some(t.branch) && "ajax/" < t.branch && allowed(t.worktreePath)
  }

  /** The task is made from the visited worktree. */
  ghost predicate IsMadeFrom(id: string, t: Recovery.Task, v: Visit, allowed: Allowed) {
    exists handle ::
      Belongs(v.1, allowed, handle) && id == v.0 + "/" + handle
      && t == Recovery.Task(v.0 + "/" + handle, v.0, handle, "ajax/" + handle, v.1.path, Active)
  }

  /** What a task that recovery leaves is: as it was, on the branch its worktree is listed with, or recovered. */
  ghost predicate IsExplained(before: Tasks, id: string, t: Recovery.Task, visits: seq<Visit>, allowed: Allowed) {
    || (id in before && t == before[id])
    || (id in before && before[id].lifecycle != Removed && t == before[id].(branch := t.branch)
        && exists v :: v in visits && IsListedAt(t, v, allowed))
    || (!(id in before && before[id].lifecycle != Removed) && IsRecoveredFrom(id, t, visits, allowed))
  }

  /** Made from one worktree, and perhaps found at that worktree on another branch since. */
  ghost predicate IsRecoveredFrom(id: string, t: Recovery.Task, visits: seq<Visit>, allowed: Allowed) {
    exists v, made ::
      v in visits && IsMadeFrom(id, made, v, allowed) && t == made.(branch := t.branch)
      && (t == made || exists u :: u in visits && IsListedAt(t, u, allowed))
  }

  lemma {:induction false} ExplainedLater(
    before: Tasks, id: string, t: Recovery.Task, visits: seq<Visit>, last: Visit, allowed: Allowed)
    requires IsExplained(before, id, t, visits, allowed)
    ensures IsExplained(before, id, t, visits + [last], allowed)
  {
    assert forall v :: v in visits ==> v in visits + [last];
    if IsRecoveredFrom(id, t, visits, allowed) {
      RecoveredLater(id, t, visits, last, allowed);
    }
  }

  lemma {:induction false} RecoveredLater(id: string, t: Recovery.Task, visits: seq<Visit>, last: Visit, allowed: Allowed)
    requires IsRecoveredFrom(id, t, visits, allowed)
    ensures IsRecoveredFrom(id, t, visits + [last], allowed)
  {
    var v, made :|
      v in visits && IsMadeFrom(id, made, v, allowed) && t == made.(branch := t.branch)
      && (t == made || exists u :: u in visits && IsListedAt(t, u, allowed));
    assert v in visits + [last];
    if t != made {
      var u :| u in visits && IsListedAt(t, u, allowed);
      assert u in visits + [last];
    }
  }

  /** Correcting the branch of a task at its worktree keeps it explained. */
  lemma {:induction false} MovedExplained(
    before: Tasks, id: string, t: Recovery.Task, branch: string, visits: seq<Visit>, last: Visit, allowed: Allowed)
    requires IsExplained(before, id, t, visits, allowed)
    requires t.lifecycle != Removed
    requires IsListedAt(t.(branch := branch), last, allowed)
    ensures IsExplained(before, id, t.(branch := branch), visits + [last], allowed)
  {
    var all := visits + [last];
    assert last in all && forall v :: v in visits ==> v in all;
    if !(id in before && before[id].lifecycle != Removed) {
      var v, made :|
        v in visits && IsMadeFrom(id, made, v, allowed) && t == made.(branch := t.branch)
        && (t == made || exists u :: u in visits && IsListedAt(t, u, allowed));
      assert t.(branch := branch) == made.(branch := branch);
      assert IsRecoveredFrom(id, t.(branch := branch), all, allowed);
    }
  }

  /** Nothing but recovery: every task left is explained by the listings, and every task there was is left. */
  lemma {:induction false} OnlyRecovers(s: State, visits: seq<Visit>, allowed: Allowed, id: string)
    requires Good(s) && !s.failed
    ensures var after := Recover(s, visits, allowed).tasks;
      && (id in s.tasks ==> id in after)
      && (id in after ==> IsExplained(s.tasks, id, after[id], visits, allowed))
  {
    if visits != [] {
      var init, last := visits[..|visits| - 1], visits[|visits| - 1];
      assert visits == init + [last];
      OnlyRecovers(s, init, allowed, id);
      RecoveryKeepsConsistency(s, init, allowed);
      VisitExplained(s.tasks, Recover(s, init, allowed), init, last, allowed, id);
    }
  }

  lemma {:induction false} VisitExplained(
    before: Tasks, s: State, init: seq<Visit>, last: Visit, allowed: Allowed, id: string)
    requires Good(s)
    requires id in before ==> id in s.tasks
    requires id in s.tasks ==> IsExplained(before, id, s.tasks[id], init, allowed)
    ensures var after := Recovery.Visit(s, last.0, last.1, allowed).tasks;
      && (id in before ==> id in after)
      && (id in after ==> IsExplained(before, id, after[id], init + [last], allowed))
  {
    if id in s.tasks {
      ExplainedLater(before, id, s.tasks[id], init, last, allowed);
    }
    if !s.failed && HandleOf(last.1, allowed).Some? {
      var handle := HandleOf(last.1, allowed).value;
      HandleExactly(last.1, allowed, handle);
      VisitRecovers(s, last.0, last.1, allowed, handle);
      RecoversExplained(before, s.tasks, Recovery.Visit(s, last.0, last.1, allowed).tasks, init, last, allowed, handle, id);
    }
  }

  lemma {:induction false} RecoversExplained(
    before: Tasks, tasks: Tasks, after: Tasks, init: seq<Visit>, last: Visit, allowed: Allowed, handle: string, id: string)
    requires Belongs(last.1, allowed, handle)
    requires exists failed :: Recovers(tasks, last.0, last.1, handle, after, failed)
    requires id in before ==> id in tasks
    requires id in tasks ==> IsExplained(before, id, tasks[id], init, allowed)
    requires id in tasks ==> IsExplained(before, id, tasks[id], init + [last], allowed)
    ensures id in before ==> id in after
    ensures id in after ==> IsExplained(before, id, after[id], init + [last], allowed)
  {
    var failed :| Recovers(tasks, last.0, last.1, handle, after, failed);
    if id in after && !(id in tasks && after[id] == tasks[id]) {
      if SomeTaskAt(tasks, last.0, last.1.path) {
        var at :| at in tasks && IsTaskAt(tasks[at], last.0, last.1.path)
                  && after == tasks[at := tasks[at].(branch := "ajax/" + handle)];
        assert ("ajax/" + handle)[..5] == "ajax/";
        MovedExplained(before, id, tasks[id], "ajax/" + handle, init, last, allowed);
      } else {
        NewlyExplained(before, tasks, init, last, allowed, handle);
      }
    }
  }

  lemma {:induction false} NewlyExplained(
    before: Tasks, tasks: Tasks, init: seq<Visit>, last: Visit, allowed: Allowed, handle: string)
    requires Belongs(last.1, allowed, handle)
    requires var id := last.0 + "/" + handle;
      && !(id in tasks && tasks[id].lifecycle != Removed)
      && (id in before ==> id in tasks)
      && (id in tasks ==> IsExplained(before, id, tasks[id], init, allowed))
    ensures var id := last.0 + "/" + handle;
      IsExplained(before, id, Recovery.Task(id, last.0, handle, "ajax/" + handle, last.1.path, Active), init + [last], allowed)
  {
    var id := last.0 + "/" + handle;
    var made := Recovery.Task(id, last.0, handle, "ajax/" + handle, last.1.path, Active);
    assert last in init + [last] && IsMadeFrom(id, made, last, allowed);
    assert IsRecoveredFrom(id, made, init + [last], allowed);
  }

  /**
   Nothing is missed: after a recovery that does not fail, every worktree that belongs to a task has a live
   task with its handle, or one at its path on its branch.
   */
  lemma {:induction false} NothingMissed(s: State, visits: seq<Visit>, allowed: Allowed, i: nat, handle: string)
    requires Good(s) && !s.failed && DistinctVisits(visits)
    requires !Recover(s, visits, allowed).failed
    requires i < |visits| && Belongs(visits[i].1, allowed, handle)
    ensures var after := Recover(s, visits, allowed).tasks;
      || SomeTaskOf(after, visits[i].0, handle)
      || exists id :: id in after && IsTaskAt(after[id], visits[i].0, visits[i].1.path) && after[id].branch == "ajax/" + handle
  {
    var n := SettledByRecovery(s, visits, allowed);
    assert visits[..n] == visits;
    HandleExactly(visits[i].1, allowed, handle);
    var after, v := Recover(s, visits, allowed).tasks, visits[i];
    assert IsSettled(after, v.0, v.1, allowed);
    if id :| HasLive(after, id) && after[id].repo == v.0 && after[id].handle == handle {
      assert id in after && IsTaskOf(after[id], v.0, handle);
    } else {
      var id :| HasLive(after, id) && after[id].repo == v.0 && after[id].worktreePath == v.1.path
                && after[id].branch == v.1.branch.value;
      assert id in after && IsTaskAt(after[id], v.0, v.1.path);
    }
  }

  // The mark that something changed.

  lemma {:induction false} UnmarkedIsUnchanged(s: State, visits: seq<Visit>, allowed: Allowed)
    requires Good(s) && !s.failed && !s.changed
    ensures !Recover(s, visits, allowed).changed ==> Recover(s, visits, allowed).tasks == s.tasks
  {
    if visits != [] {
      UnmarkedIsUnchanged(s, visits[..|visits| - 1], allowed);
    }
  }

  ghost predicate Differs(before: Tasks, after: Tasks, id: string) {
    id in after && !(id in before && before[id] == after[id])
  }

  /** A visit that marks a change changes a task. */
  lemma {:induction false} MarkedVisitChanges(s: State, v: Visit, allowed: Allowed)
    requires Good(s) && !s.failed && !s.changed
    requires Recovery.Visit(s, v.0, v.1, allowed).changed
    ensures exists id :: Differs(s.tasks, Recovery.Visit(s, v.0, v.1, allowed).tasks, id)
  {
    var handle := HandleOf(v.1, allowed);
    var after := Recovery.Visit(s, v.0, v.1, allowed).tasks;
    FoundMeans(s, v.0, v.1.path);
    var k := FindAt(s.registeredRuntimeTasks, v.0, v.1.path);
    if k < |s.registeredRuntimeTasks| {
      assert Differs(s.tasks, after, s.registeredRuntimeTasks[k].id);
    } else {
      assert Differs(s.tasks, after, v.0 + "/" + handle.value);
    }
  }

  /** A task that changed is live, and a worktree at its path was visited. */
  lemma {:induction false} ChangedWasVisited(s: State, visits: seq<Visit>, allowed: Allowed, id: string)
    requires Good(s) && !s.failed
    requires Differs(s.tasks, Recover(s, visits, allowed).tasks, id)
    ensures
      var t := Recover(s, visits, allowed).tasks[id];
      t.lifecycle != Removed && exists v :: v in visits && v.0 == t.repo && v.1.path == t.worktreePath
  {
    OnlyRecovers(s, visits, allowed, id);
    var t := Recover(s, visits, allowed).tasks[id];
    if IsRecoveredFrom(id, t, visits, allowed) {
      var v, made :|
        v in visits && IsMadeFrom(id, made, v, allowed) && t == made.(branch := t.branch)
        && (t == made || exists u :: u in visits && IsListedAt(t, u, allowed));
      assert v.0 == t.repo && v.1.path == t.worktreePath;
    }
  }

  /** No later visit takes a change back. */
  lemma {:induction false} ChangeStays(s: State, init: seq<Visit>, last: Visit, allowed: Allowed, id: string)
    requires Good(s) && !s.failed && DistinctVisits(init + [last])
    requires Differs(s.tasks, Recover(s, init, allowed).tasks, id)
    ensures Differs(s.tasks, Recovery.Visit(Recover(s, init, allowed), last.0, last.1, allowed).tasks, id)
  {
    var before := Recover(s, init, allowed);
    ChangedWasVisited(s, init, allowed, id);
    RecoveryKeepsConsistency(s, init, allowed);
    if !before.failed {
      var t := before.tasks[id];
      var v :| v in init && v.0 == t.repo && v.1.path == t.worktreePath;
      var i :| 0 <= i < |init| && init[i] == v;
      assert (init + [last])[i] == v && (init + [last])[|init|] == last;
      VisitChanges(before, last.0, last.1, allowed, id);
    }
  }

  lemma {:induction false} MarkedIsChanged(s: State, visits: seq<Visit>, allowed: Allowed)
    requires Good(s) && !s.failed && !s.changed && DistinctVisits(visits)
    requires Recover(s, visits, allowed).changed
    ensures exists id :: Differs(s.tasks, Recover(s, visits, allowed).tasks, id)
  {
    var init, last := visits[..|visits| - 1], visits[|visits| - 1];
    assert visits == init + [last];
    var before := Recover(s, init, allowed);
    RecoveryKeepsConsistency(s, init, allowed);
    if before.changed {
      MarkedIsChanged(s, init, allowed);
      var id :| Differs(s.tasks, before.tasks, id);
      ChangeStays(s, init, last, allowed, id);
    } else {
      UnmarkedIsUnchanged(s, init, allowed);
      MarkedVisitChanges(before, last, allowed);
    }
  }

  /** Recovery marks the registry as changed, to be saved, exactly if it changed a task. */
  lemma {:induction false} ChangedExactly(s: State, visits: seq<Visit>, allowed: Allowed)
    requires Good(s) && !s.failed && !s.changed && DistinctVisits(visits)
    ensures Recover(s, visits, allowed).changed <==> Recover(s, visits, allowed).tasks != s.tasks
  {
    UnmarkedIsUnchanged(s, visits, allowed);
    if Recover(s, visits, allowed).changed {
      MarkedIsChanged(s, visits, allowed);
    }
  }
}
