/**
 When recovery fails: an id it would give belongs to a live task (crates/ajax-core/src/runtime_refresh.rs:744,
 808-811, crates/ajax-core/src/registry.rs:69-75).
 */
module RecoveryFailure {
  import opened Options
  import opened Lifecycle
  import opened Recovery

  function IdOf(repo: string, handle: string): string {
    repo + "/" + handle
  }

  /** A task is missing for the worktree: no live task of the repository has its handle or stands there. */
  ghost predicate IsMissing(tasks: Tasks, v: (string, Worktree), allowed: string -> bool) {
    var handle := HandleOf(v.1, allowed);
    && handle.Some?
    && forall id :: HasLive(tasks, id) && tasks[id].repo == v.0 ==>
         tasks[id].handle != handle.value && tasks[id].worktreePath != v.1.path
  }

  /** The repository and handle of the task a worktree belongs to. */
  function KeyOf(v: (string, Worktree), allowed: string -> bool): TaskKey
    requires HandleOf(v.1, allowed).Some?
  {
    (v.0, HandleOf(v.1, allowed).value)
  }

  /** Two missing tasks of different repositories or handles would get one id. */
  ghost predicate IsContested(
    tasks: Tasks, visits: seq<(string, Worktree)>, i: nat, j: nat, allowed: string -> bool)
    requires i < |visits| && j < |visits|
  {
    && IsMissing(tasks, visits[i], allowed) && IsMissing(tasks, visits[j], allowed)
    && var (a, b) := (KeyOf(visits[i], allowed), KeyOf(visits[j], allowed));
       a != b && IdOf(a.0, a.1) == IdOf(b.0, b.1)
  }

  ghost predicate HasRefused(tasks: Tasks, visits: seq<(string, Worktree)>, allowed: string -> bool) {
    exists i :: 0 <= i < |visits| && IsRefused(tasks, visits[i].0, visits[i].1, allowed)
  }

  ghost predicate HasContested(tasks: Tasks, visits: seq<(string, Worktree)>, allowed: string -> bool) {
    exists i, j :: 0 <= i < |visits| && 0 <= j < |visits| && IsContested(tasks, visits, i, j, allowed)
  }

  lemma {:induction false} RefusedIsMissing(tasks: Tasks, v: (string, Worktree), allowed: string -> bool)
    ensures IsRefused(tasks, v.0, v.1, allowed)
       <==> IsMissing(tasks, v, allowed) && HasLive(tasks, IdOf(v.0, HandleOf(v.1, allowed).value))
  {
  }

  /** The task was recovered for the visit: it has its key and path and an id that was free before. */
  ghost predicate IsRecoveredFor(before: Tasks, t: Task, v: (string, Worktree), allowed: string -> bool) {
    && IsMissing(before, v, allowed)
    && (t.repo, t.handle) == KeyOf(v, allowed) && t.worktreePath == v.1.path
    && t.id == IdOf(t.repo, t.handle) && !HasLive(before, t.id)
  }

  ghost predicate ComesFrom(
    before: Tasks, t: Task, visits: seq<(string, Worktree)>, allowed: string -> bool)
  {
    || (HasLive(before, t.id) && t == before[t.id].(branch := t.branch))
    || exists v :: v in visits && IsRecoveredFor(before, t, v, allowed)
  }

  lemma {:induction false} StillMissing(
    before: Tasks, after: Tasks, v: (string, Worktree), allowed: string -> bool)
    requires Preserves(before, after) && IsMissing(after, v, allowed)
    ensures IsMissing(before, v, allowed)
  {
    forall id | HasLive(before, id) && before[id].repo == v.0
      ensures before[id].handle != KeyOf(v, allowed).1 && before[id].worktreePath != v.1.path
    {
      assert HasLive(after, id);
    }
  }

  /** A visit that adds a task found it missing and its id free. */
  lemma {:induction false} VisitAdds(s: State, v: (string, Worktree), allowed: string -> bool, id: string)
    requires Good(s) && !s.failed
    requires HasLive(Visit(s, v.0, v.1, allowed).tasks, id) && !HasLive(s.tasks, id)
    ensures IsMissing(s.tasks, v, allowed)
    ensures var t := Visit(s, v.0, v.1, allowed).tasks[id];
      (t.repo, t.handle) == KeyOf(v, allowed) && t.worktreePath == v.1.path && t.id == IdOf(t.repo, t.handle) == id
  {
    var handle := HandleOf(v.1, allowed);
    EntryAt(s, v.0, v.1.path);
    if handle.Some? {
      RegisteredMeans(s, v.0, handle.value);
    }
    assert forall k :: 0 <= k < |s.registeredRuntimeTasks| ==> IsEntryOf(s.registeredRuntimeTasks[k], s.tasks);
  }

  /** Every live task after a recovery was live before or was recovered for one of the visits. */
  lemma {:induction false} LiveComesFrom(s: State, visits: seq<(string, Worktree)>, allowed: string -> bool, id: string)
    requires Good(s) && !s.failed
    requires HasLive(Recover(s, visits, allowed).tasks, id)
    ensures ComesFrom(s.tasks, Recover(s, visits, allowed).tasks[id], visits, allowed)
  {
    RecoveryKeepsConsistency(s, visits, allowed);
    if visits != [] {
      var init, last := visits[..|visits| - 1], visits[|visits| - 1];
      var before := Recover(s, init, allowed);
      RecoveryKeepsConsistency(s, init, allowed);
      RecoveryPreservesTasks(s, init, allowed);
      if HasLive(before.tasks, id) {
        LiveComesFrom(s, init, allowed, id);
        if !before.failed {
          VisitChanges(before, last.0, last.1, allowed, id);
        }
        KeepsOrigin(s.tasks, before.tasks[id], Recover(s, visits, allowed).tasks[id], init, visits, allowed);
      } else {
        VisitAdds(before, last, allowed, id);
        StillMissing(s.tasks, before.tasks, last, allowed);
        assert last in visits;
      }
    }
  }

  lemma {:induction false} KeepsOrigin(
    before: Tasks, t: Task, u: Task, init: seq<(string, Worktree)>, visits: seq<(string, Worktree)>, allowed: string -> bool)
    requires ComesFrom(before, t, init, allowed) && u == t.(branch := u.branch)
    requires forall v :: v in init ==> v in visits
    ensures ComesFrom(before, u, visits, allowed)
  {
    if !(HasLive(before, t.id) && t == before[t.id].(branch := t.branch)) {
      var v :| v in init && IsRecoveredFor(before, t, v, allowed);
      assert IsRecoveredFor(before, u, v, allowed);
    }
  }

  /** A recovery that does not fail leaves every missing task live under its id, which was free before. */
  lemma {:induction false} MissingIsRecovered(s: State, visits: seq<(string, Worktree)>, allowed: string -> bool, i: nat)
    requires Good(s) && !s.failed && DistinctVisits(visits)
    requires !Recover(s, visits, allowed).failed
    requires i < |visits| && IsMissing(s.tasks, visits[i], allowed)
    ensures var (key, t) := (KeyOf(visits[i], allowed), Recover(s, visits, allowed));
      && HasLive(t.tasks, IdOf(key.0, key.1)) && !HasLive(s.tasks, IdOf(key.0, key.1))
      && (t.tasks[IdOf(key.0, key.1)].repo, t.tasks[IdOf(key.0, key.1)].handle) == key
  {
    var t, v := Recover(s, visits, allowed), visits[i];
    var key := KeyOf(v, allowed);
    var n := SettledByRecovery(s, visits, allowed);
    assert visits[..n] == visits;
    assert IsSettled(t.tasks, v.0, v.1, allowed);
    RecoveryKeepsConsistency(s, visits, allowed);
    var id :| HasLive(t.tasks, id) && t.tasks[id].repo == v.0
              && (t.tasks[id].handle == key.1 || t.tasks[id].worktreePath == v.1.path);
    LiveComesFrom(s, visits, allowed, id);
    var other :| other in visits && IsRecoveredFor(s.tasks, t.tasks[id], other, allowed);
    SameVisit(visits, i, other);
  }

  lemma {:induction false} SameVisit(visits: seq<(string, Worktree)>, i: nat, v: (string, Worktree))
    requires DistinctVisits(visits) && i < |visits| && v in visits
    ensures v.0 == visits[i].0 && v.1.path == visits[i].1.path ==> v == visits[i]
  {
    var j :| 0 <= j < |visits| && visits[j] == v;
    assert j < i || j == i || i < j;
  }

  /** A recovery that fails was refused at a task that stood there before, or at one it recovered itself. */
  lemma {:induction false} FailureHasCause(s: State, visits: seq<(string, Worktree)>, allowed: string -> bool)
    requires Good(s) && !s.failed && DistinctVisits(visits)
    requires Recover(s, visits, allowed).failed
    ensures HasRefused(s.tasks, visits, allowed) || HasContested(s.tasks, visits, allowed)
  {
    var t := Recover(s, visits, allowed);
    var n := SettledByRecovery(s, visits, allowed);
    var v := visits[n];
    RefusedIsMissing(t.tasks, v, allowed);
    RecoveryPreservesTasks(s, visits, allowed);
    StillMissing(s.tasks, t.tasks, v, allowed);
    RefusedIsMissing(s.tasks, v, allowed);
    RecoveryKeepsConsistency(s, visits, allowed);
    var key := KeyOf(v, allowed);
    var id := IdOf(key.0, key.1);
    if !HasLive(s.tasks, id) {
      LiveComesFrom(s, visits, allowed, id);
      var other :| other in visits && IsRecoveredFor(s.tasks, t.tasks[id], other, allowed);
      var j :| 0 <= j < |visits| && visits[j] == other;
      assert IsContested(s.tasks, visits, n, j, allowed);
    }
  }

  /**
   Recovery fails exactly when, among the tasks there were, a missing one's id belongs to a live task,
   or two missing ones of different repositories or handles have one id.
   */
  lemma {:induction false} RecoveryFailsExactly(s: State, visits: seq<(string, Worktree)>, allowed: string -> bool)
    requires Good(s) && !s.failed && DistinctVisits(visits)
    ensures Recover(s, visits, allowed).failed
       <==> HasRefused(s.tasks, visits, allowed) || HasContested(s.tasks, visits, allowed)
  {
    if Recover(s, visits, allowed).failed {
      FailureHasCause(s, visits, allowed);
    } else {
      forall i | 0 <= i < |visits|
        ensures !IsRefused(s.tasks, visits[i].0, visits[i].1, allowed)
      {
        RefusedIsMissing(s.tasks, visits[i], allowed);
        if IsMissing(s.tasks, visits[i], allowed) {
          MissingIsRecovered(s, visits, allowed, i);
        }
      }
      forall i, j | 0 <= i < |visits| && 0 <= j < |visits|
        ensures !IsContested(s.tasks, visits, i, j, allowed)
      {
        if IsMissing(s.tasks, visits[i], allowed) && IsMissing(s.tasks, visits[j], allowed) {
          MissingIsRecovered(s, visits, allowed, i);
          MissingIsRecovered(s, visits, allowed, j);
        }
      }
    }
  }

  /** An id is read back as its repository and handle if the repository's name has no slash. */
  lemma {:induction false} IdDetermines(a: string, x: string, b: string, y: string)
    requires '/' !in a && '/' !in b && IdOf(a, x) == IdOf(b, y)
    ensures a == b && x == y
  {
    var s, t := IdOf(a, x), IdOf(b, y);
    assert s[|a|] == '/' && t[|b|] == '/';
    assert forall k :: 0 <= k < |a| ==> s[k] == a[k] && a[k] != '/';
    assert forall k :: 0 <= k < |b| ==> t[k] == b[k] && b[k] != '/';
    assert a == s[..|a|] && b == t[..|b|];
    assert x == s[|a| + 1..] && y == t[|b| + 1..];
  }

  /** With no slash in a listed repository's name, it takes a live task with the id of a missing one. */
  lemma {:induction false} RecoveryFailsOnTakenIds(s: State, visits: seq<(string, Worktree)>, allowed: string -> bool)
    requires Good(s) && !s.failed && DistinctVisits(visits)
    requires forall v :: v in visits ==> '/' !in v.0
    ensures Recover(s, visits, allowed).failed <==> HasRefused(s.tasks, visits, allowed)
  {
    RecoveryFailsExactly(s, visits, allowed);
    forall i, j | 0 <= i < |visits| && 0 <= j < |visits| && IsContested(s.tasks, visits, i, j, allowed)
      ensures false
    {
      var a, b := KeyOf(visits[i], allowed), KeyOf(visits[j], allowed);
      assert visits[i] in visits && visits[j] in visits;
      IdDetermines(a.0, a.1, b.0, b.1);
    }
  }

  /** Every live task's id is made of its repository and handle, and its repository's name has no slash. */
  ghost predicate IsNamedPlainly(tasks: Tasks) {
    forall id :: HasLive(tasks, id) ==> id == IdOf(tasks[id].repo, tasks[id].handle) && '/' !in tasks[id].repo
  }

  /** Recovery never fails where ids are made as the code makes them and no repository's name has a slash. */
  lemma {:induction false} RecoveryNeverFails(s: State, visits: seq<(string, Worktree)>, allowed: string -> bool)
    requires Good(s) && !s.failed && DistinctVisits(visits)
    requires IsNamedPlainly(s.tasks) && forall v :: v in visits ==> '/' !in v.0
    ensures !Recover(s, visits, allowed).failed
  {
    RecoveryFailsOnTakenIds(s, visits, allowed);
    forall i | 0 <= i < |visits|
      ensures !IsRefused(s.tasks, visits[i].0, visits[i].1, allowed)
    {
      var v := visits[i];
      assert v in visits;
      RefusedIsMissing(s.tasks, v, allowed);
      if IsRefused(s.tasks, v.0, v.1, allowed) {
        var key := KeyOf(v, allowed);
        var t := s.tasks[IdOf(key.0, key.1)];
        IdDetermines(t.repo, t.handle, key.0, key.1);
      }
    }
  }

  predicate Anywhere(path: string) {
    true
  }

  const Nothing := State(map[], {}, [], false, false)

  /** The listings of repositories "a" and "a/b", with one task each that the registry does not know. */
  const SlashedRepos := [
    Repo("a", Some([Worktree("/w/1", Some("ajax/b/c"))])),
    Repo("a/b", Some([Worktree("/w/2", Some("ajax/c"))]))]

  /** Both tasks are missing and would be "a/b/c": recovery takes the first and fails at the second. */
  lemma {:induction false} RecoveryCanFail()
    ensures Good(Nothing) && DistinctVisits(Visits(SlashedRepos))
    ensures Recover(Nothing, Visits(SlashedRepos), Anywhere).failed
    ensures "a/b/c" in Recover(Nothing, Visits(SlashedRepos), Anywhere).tasks
  {
    var x, y := ("a", Worktree("/w/1", Some("ajax/b/c"))), ("a/b", Worktree("/w/2", Some("ajax/c")));
    SlashedVisits();
    var visits := [x, y];
    assert x.1.branch.value[|BRANCH_PREFIX|..] == "b/c" && y.1.branch.value[|BRANCH_PREFIX|..] == "c";
    assert HandleOf(x.1, Anywhere) == Some("b/c") && HandleOf(y.1, Anywhere) == Some("c");
    assert IdOf("a", "b/c") == "a/b/c" == IdOf("a/b", "c");
    var one := Registered(Nothing, RecoveredTask("a", "b/c", x.1));
    assert one == Visit(Nothing, x.0, x.1, Anywhere);
    assert one.registeredTasks == {("a", "b/c")};
    var two := Visit(one, y.0, y.1, Anywhere);
    assert visits[..1] == [x] && [x][..0] == [];
    assert Recover(Nothing, [x], Anywhere) == Visit(Recover(Nothing, [], Anywhere), x.0, x.1, Anywhere);
    assert Recover(Nothing, visits, Anywhere) == two;
    assert two.failed && two.tasks == one.tasks;
  }

  lemma {:induction false} SlashedVisits()
    ensures Visits(SlashedRepos)
         == [("a", Worktree("/w/1", Some("ajax/b/c"))), ("a/b", Worktree("/w/2", Some("ajax/c")))]
  {
    var a, b := SlashedRepos[0], SlashedRepos[1];
    assert SlashedRepos[..1] == [a] && [a][..0] == [];
    assert Visits([a]) == Visits([]) + VisitsOf(a);
    assert VisitsOf(a) == [("a", Worktree("/w/1", Some("ajax/b/c")))];
    assert VisitsOf(b) == [("a/b", Worktree("/w/2", Some("ajax/c")))];
  }
}
