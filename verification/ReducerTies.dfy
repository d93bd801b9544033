/**
 Exactly when the order of the observations shows in the reduced status
 (crates/ajax-core/src/agent_status.rs:186-202, 227-349): the first of the best-ranked observations of the
 primary run is shown, and the rank does not tell every two kinds apart.
 */
module ReducerTies {
  import opened Options
  import opened AgentStatus
  import opened Sequences

  function Shown(o: StatusObservation, childBusy: bool, alive: bool): StatusProjection {
    Projection(Some(Activity(o.kind, o.source, o.observedAt)), childBusy, alive)
  }

  predicate IsAlive(liveness: Option<ProcessLiveness>, now: int) {
    liveness.Some? && IsFreshLiveness(liveness.value, now)
  }

  /** The run is in conflict, or all its best-ranked observations are shown alike. */
  ghost predicate BestShownAlike(s: set<StatusObservation>, primary: string, alive: bool) {
    InConflict(s, primary)
    || forall o, p :: IsBest(s, primary, o) && IsBest(s, primary, p) ==>
         Shown(o, ChildBusy(s, primary), alive) == Shown(p, ChildBusy(s, primary), alive)
  }

  /** What is reduced is one of the best-ranked observations as shown, if the run is observed and not in conflict. */
  lemma {:induction false} ReducedFromBest(
    now: int, primary: string, liveness: Option<ProcessLiveness>, a: seq<StatusObservation>)
    ensures
      var s, alive := Unexpired(a, now), IsAlive(liveness, now);
      var r := ReduceAgentStatus(now, primary, liveness, a);
      if !Observed(s, primary) then r == Projection(None, ChildBusy(s, primary), alive)
      else if InConflict(s, primary) then r == Projection(Some(Conflict), ChildBusy(s, primary), alive)
      else exists o :: IsBest(s, primary, o) && r == Shown(o, ChildBusy(s, primary), alive)
  {
    var s, current := Unexpired(a, now), Fresh(a, now);
    FreshIsUnexpired(a, now);
    SelectMeaning(current, s, primary);
    ChildBusyMeaning(current, s, primary);
  }

  lemma {:induction false} AlikeAgree(
    now: int, primary: string, liveness: Option<ProcessLiveness>, a: seq<StatusObservation>, b: seq<StatusObservation>)
    requires Unexpired(a, now) == Unexpired(b, now)
    requires BestShownAlike(Unexpired(a, now), primary, IsAlive(liveness, now))
    ensures ReduceAgentStatus(now, primary, liveness, a) == ReduceAgentStatus(now, primary, liveness, b)
  {
    ReducedFromBest(now, primary, liveness, a);
    ReducedFromBest(now, primary, liveness, b);
  }

  // Two orders that differ.

  lemma {:induction false} AllFresh(xs: seq<StatusObservation>, now: int)
    requires forall o :: o in xs ==> o.expiresAt >= now
    ensures Fresh(xs, now) == xs
  {
    if xs != [] {
      AllFresh(xs[..|xs| - 1], now);
      InitAndLast(xs);
      assert xs[|xs| - 1] in xs;
    }
  }

  lemma {:induction false} OfRunHead(o: StatusObservation, xs: seq<StatusObservation>)
    ensures OfRun([o] + xs, o.runId) == [o] + OfRun(xs, o.runId)
  {
    if xs == [] {
      assert [o] + xs == [o] && [o][..0] == [];
    } else {
      var init, last := xs[..|xs| - 1], xs[|xs| - 1];
      OfRunHead(o, init);
      assert ([o] + xs)[..|xs|] == [o] + init;
      Associative([o], OfRun(init, o.runId), if last.runId == o.runId then [last] else []);
    }
  }

  lemma {:induction false} HeadIsFirstBest(own: seq<StatusObservation>)
    requires own != [] && forall p :: p in own ==> !Better(p, own[0])
    ensures FirstBest(own) == own[0]
  {
    if |own| > 1 {
      assert own[|own| - 1] in own;
      HeadIsFirstBest(own[..|own| - 1]);
    }
  }

  lemma {:induction false} Listed(s: set<StatusObservation>) returns (xs: seq<StatusObservation>)
    ensures forall o :: o in xs <==> o in s
  {
    if s == {} {
      xs := [];
    } else {
      var o :| o in s;
      xs := Listed(s - {o});
      xs := xs + [o];
    }
  }

  /** A best-ranked observation listed first is the one reduced. */
  lemma {:induction false} FirstListedIsReduced(
    now: int, primary: string, liveness: Option<ProcessLiveness>, s: set<StatusObservation>,
    o: StatusObservation, xs: seq<StatusObservation>)
    requires forall p :: p in s ==> p.expiresAt >= now
    requires forall p :: p in [o] + xs <==> p in s
    requires IsBest(s, primary, o) && !InConflict(s, primary)
    ensures Unexpired([o] + xs, now) == s
    ensures ReduceAgentStatus(now, primary, liveness, [o] + xs) == Shown(o, ChildBusy(s, primary), IsAlive(liveness, now))
  {
    var all := [o] + xs;
    AllFresh(all, now);
    OfRunHead(o, xs);
    var own := OfRun(all, primary);
    OfRunIsFilter(all, primary);
    assert own[0] == o;
    HeadIsFirstBest(own);
    SelectMeaning(all, s, primary);
    ChildBusyMeaning(all, s, primary);
  }

  /**
   The reduced status is a function of the set of unexpired observations exactly if the primary run is
   in conflict or its best-ranked observations are all shown alike.
   */
  lemma {:induction false} ReducerIsExactlySetFunction(
    now: int, primary: string, liveness: Option<ProcessLiveness>, s: set<StatusObservation>)
    requires forall o :: o in s ==> o.expiresAt >= now
    ensures (forall a, b :: Unexpired(a, now) == s && Unexpired(b, now) == s ==>
               ReduceAgentStatus(now, primary, liveness, a) == ReduceAgentStatus(now, primary, liveness, b))
       <==> BestShownAlike(s, primary, IsAlive(liveness, now))
  {
    if BestShownAlike(s, primary, IsAlive(liveness, now)) {
      forall a, b | Unexpired(a, now) == s && Unexpired(b, now) == s
        ensures ReduceAgentStatus(now, primary, liveness, a) == ReduceAgentStatus(now, primary, liveness, b)
      {
        AlikeAgree(now, primary, liveness, a, b);
      }
    } else {
      var alive := IsAlive(liveness, now);
      var o, p :| IsBest(s, primary, o) && IsBest(s, primary, p)
                  && Shown(o, ChildBusy(s, primary), alive) != Shown(p, ChildBusy(s, primary), alive);
      var xs := Listed(s);
      assert o in s && p in s;
      FirstListedIsReduced(now, primary, liveness, s, o, xs);
      FirstListedIsReduced(now, primary, liveness, s, p, xs);
      assert Unexpired([o] + xs, now) == s && Unexpired([p] + xs, now) == s;
    }
  }

  /** The primary run's agent, at instant 0 and for a minute, doing the kind of thing. */
  function Seen(kind: ActivityKind): StatusObservation {
    StatusObservation(PaneEvidence, 0, 60000, High, "primary", None, kind)
  }

  const WorkingSeen := Seen(Working)
  const CommandSeen := Seen(CommandRunning)

  lemma {:induction false} BothBest(s: set<StatusObservation>)
    requires s == {WorkingSeen, CommandSeen}
    ensures IsBest(s, "primary", WorkingSeen) && IsBest(s, "primary", CommandSeen)
    ensures !InConflict(s, "primary")
    ensures forall o :: o in s ==> o.expiresAt >= 0
  {
  }

  lemma {:induction false} FirstOfBothIsShown(o: StatusObservation, p: StatusObservation)
    requires {o, p} == {WorkingSeen, CommandSeen}
    ensures Unexpired([o, p], 0) == {o, p}
    ensures ReduceAgentStatus(0, "primary", None, [o, p]) == Shown(o, ChildBusy({o, p}, "primary"), false)
  {
    var s := {o, p};
    assert o in s;
    BothBest(s);
    assert [o] + [p] == [o, p];
    FirstListedIsReduced(0, "primary", None, s, o, [p]);
  }

  /** Two kinds of running seen at one instant by one source: which is shown is the one listed first. */
  lemma {:induction false} OrderShows()
    ensures Unexpired([WorkingSeen, CommandSeen], 0) == Unexpired([CommandSeen, WorkingSeen], 0)
    ensures ReduceAgentStatus(0, "primary", None, [WorkingSeen, CommandSeen]).liveKind == LiveAgentRunning
    ensures ReduceAgentStatus(0, "primary", None, [CommandSeen, WorkingSeen]).liveKind == LiveCommandRunning
  {
    FirstOfBothIsShown(WorkingSeen, CommandSeen);
    FirstOfBothIsShown(CommandSeen, WorkingSeen);
  }
}
