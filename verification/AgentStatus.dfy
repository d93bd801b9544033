/**
 Reducing status observations to one projection (crates/ajax-core/src/agent_status.rs).
 Instants and durations are whole milliseconds.
 */
module AgentStatus {
  import opened Options
  import opened Sequences

  const PROCESS_LIVENESS_FRESH_FOR: int := 30 * 1000

  datatype ObservationSource = ProcessExit | ProviderLifecycle | PaneEvidence
  {
    function Rank(): nat {
      match this
      case ProcessExit => 0
      case ProviderLifecycle => 1
      case PaneEvidence => 2
    }
  }

  datatype ActivityClass = Running | Waiting | Terminal

  datatype ActivityKind =
    | Working | WaitingInput | WaitingApproval | Done | Failed | CommandRunning | TestsRunning
  {
    function Class(): ActivityClass {
      match this
      case Working | CommandRunning | TestsRunning => Running
      case WaitingInput | WaitingApproval => Waiting
      case Done | Failed => Terminal
    }

    function StateRank(): nat {
      match this
      case Working | CommandRunning | TestsRunning => 3
      case WaitingInput => 2
      case WaitingApproval => 1
      case Done | Failed => 0
    }
  }

  datatype Confidence = Low | Medium | High

  datatype StatusObservation = StatusObservation(
    source: ObservationSource, observedAt: int, expiresAt: int, confidence: Confidence,
    runId: string, parentRunId: Option<string>, kind: ActivityKind)

  datatype ProcessLiveness = ProcessLiveness(alive: bool, observedAt: int)

  predicate IsFreshLiveness(l: ProcessLiveness, now: int) {
    l.alive && (now < l.observedAt || now - l.observedAt <= PROCESS_LIVENESS_FRESH_FOR)
  }

  datatype LiveKind =
    | LiveAgentRunning | LiveCommandRunning | LiveTestsRunning | LiveWaitingForApproval
    | LiveWaitingForInput | LiveCommandFailed | LiveDone | LiveUnknown

  datatype ParentPhase =
    | ActivelyWorking | WaitingOnDelegated | WaitingForUser
    | CompletedLocallyChildrenActive | FullyCompleted | PhaseUnknown

  datatype StatusProjection = StatusProjection(
    liveKind: LiveKind, summary: string, phase: ParentPhase, processAlive: bool,
    selectedObservedAt: Option<int>, selectedSource: Option<ObservationSource>)

  datatype RunActivity = Conflict | Activity(kind: ActivityKind, source: ObservationSource, observedAt: int)

  /** The sort key of a compares below that of b: source rank, then latest first, then highest state rank. */
  predicate Better(a: StatusObservation, b: StatusObservation) {
    || a.source.Rank() < b.source.Rank()
    || (a.source == b.source && a.observedAt > b.observedAt)
    || (a.source == b.source && a.observedAt == b.observedAt && a.kind.StateRank() > b.kind.StateRank())
  }

  function OfRun(current: seq<StatusObservation>, runId: string): seq<StatusObservation> {
    if current == [] then []
    else OfRun(current[..|current| - 1], runId)
         + if current[|current| - 1].runId == runId then [current[|current| - 1]] else []
  }

  /** Iterator::min_by_key: the first of the observations with the least key. */
  function FirstBest(own: seq<StatusObservation>): StatusObservation
    requires own != []
  {
    if |own| == 1 then own[0]
    else
      var best := FirstBest(own[..|own| - 1]);
      var last := own[|own| - 1];
      if Better(last, best) then last else best
  }

  /** Two observations of one instant that contradict each other. */
  predicate Contradict(a: StatusObservation, b: StatusObservation) {
    && a.observedAt == b.observedAt
    && !a.source.ProcessExit? && !b.source.ProcessExit?
    && a.kind.Class() != b.kind.Class() && a.source != b.source
  }

  ghost predicate HasContradiction(own: seq<StatusObservation>) {
    exists a, b :: a in own && b in own && Contradict(a, b)
  }

  ghost function SelectRunActivity(current: seq<StatusObservation>, runId: string): Option<RunActivity> {
    var own := OfRun(current, runId);
    if own == [] then None
    else if HasContradiction(own) then Some(Conflict)
    else var chosen := FirstBest(own); Some(Activity(chosen.kind, chosen.source, chosen.observedAt))
  }

  /** The observations of one instant, as the code collects them. */
  datatype Bucket = Bucket(at: int, slot: seq<StatusObservation>)

  /** b holds exactly the observations of own that were made at its instant. */
  ghost predicate Collects(b: Bucket, own: seq<StatusObservation>) {
    forall o :: o in b.slot <==> o in own && o.observedAt == b.at
  }

  lemma {:induction false} CollectsNext(b: Bucket, own: seq<StatusObservation>, o: StatusObservation)
    requires Collects(b, own)
    ensures Collects(if o.observedAt == b.at then Bucket(b.at, b.slot + [o]) else b, own + [o])
  {
  }

  ghost predicate IsBucketing(buckets: seq<Bucket>, own: seq<StatusObservation>) {
    && (forall i, j :: 0 <= i < j < |buckets| ==> buckets[i].at != buckets[j].at)
    && (forall k :: 0 <= k < |buckets| ==> Collects(buckets[k], own))
    && (forall o :: o in own ==> exists k :: 0 <= k < |buckets| && buckets[k].at == o.observedAt)
  }

  lemma {:induction false} BucketingNext(buckets: seq<Bucket>, own: seq<StatusObservation>, o: StatusObservation, k: nat)
    requires IsBucketing(buckets, own)
    requires k <= |buckets|
    requires forall j :: 0 <= j < k ==> buckets[j].at != o.observedAt
    requires k < |buckets| ==> buckets[k].at == o.observedAt
    ensures IsBucketing(
      if k < |buckets| then buckets[k := Bucket(buckets[k].at, buckets[k].slot + [o])]
      else buckets + [Bucket(o.observedAt, [o])], own + [o])
  {
    var after :=
      if k < |buckets| then buckets[k := Bucket(buckets[k].at, buckets[k].slot + [o])]
      else buckets + [Bucket(o.observedAt, [o])];
    forall j | 0 <= j < |after|
      ensures Collects(after[j], own + [o])
    {
      if j < |buckets| {
        CollectsNext(buckets[j], own, o);
      } else {
        assert forall p :: p in own ==> p.observedAt != o.observedAt;
      }
    }
    forall p | p in own + [o]
      ensures exists j :: 0 <= j < |after| && after[j].at == p.observedAt
    {
      if p in own {
        var j :| 0 <= j < |buckets| && buckets[j].at == p.observedAt;
        assert after[j].at == p.observedAt;
      } else {
        assert after[k].at == p.observedAt;
      }
    }
  }

  method BucketsByInstant(own: seq<StatusObservation>) returns (buckets: seq<Bucket>)
    ensures IsBucketing(buckets, own)
  {
    buckets := [];
    for i := 0 to |own|
      invariant IsBucketing(buckets, own[..i])
    {
      var k := 0;
      while k < |buckets| && buckets[k].at != own[i].observedAt
        invariant k <= |buckets|
        invariant forall j :: 0 <= j < k ==> buckets[j].at != own[i].observedAt
      {
        k := k + 1;
      }
      BucketingNext(buckets, own[..i], own[i], k);
      assert own[..i] + [own[i]] == own[..i + 1];
      if k < |buckets| {
        buckets := buckets[k := Bucket(buckets[k].at, buckets[k].slot + [own[i]])];
      } else {
        buckets := buckets + [Bucket(own[i].observedAt, [own[i]])];
      }
    }
    assert own[..|own|] == own;
  }

  lemma {:induction false} MoreThanOne<T>(s: set<T>)
    ensures |s| > 1 <==> exists a, b :: a in s && b in s && a != b
  {
    if |s| > 1 {
      var a :| a in s;
      assert |s - {a}| > 0;
      var b :| b in s - {a};
    } else if a, b :| a in s && b in s && a != b {
      assert {a, b} <= s;
      Subset({a, b}, s);
    }
  }

  lemma {:induction false} Subset<T>(a: set<T>, b: set<T>)
    requires a <= b
    ensures |a| <= |b|
  {
    assert b == a + (b - a);
  }

  /**
   Among the observations of one instant, several classes and several sources is the same as two
   observations that differ in both.
   */
  lemma {:induction false} SlotConflict(slot: seq<StatusObservation>)
    requires forall a, b :: a in slot && b in slot ==> a.observedAt == b.observedAt
    ensures
      var nonExit := set o | o in slot && !o.source.ProcessExit?;
      (|set o | o in nonExit :: o.kind.Class()| > 1 && |set o | o in nonExit :: o.source| > 1)
      <==> HasContradiction(slot)
  {
    var nonExit := set o | o in slot && !o.source.ProcessExit?;
    var classes := set o | o in nonExit :: o.kind.Class();
    var sources := set o | o in nonExit :: o.source;
    MoreThanOne(classes);
    MoreThanOne(sources);
    if |classes| > 1 && |sources| > 1 {
      var c, d :| c in classes && d in classes && c != d;
      var x :| x in nonExit && x.kind.Class() == c;
      var y :| y in nonExit && y.kind.Class() == d;
      var s, t :| s in sources && t in sources && s != t;
      var p :| p in nonExit && p.source == s;
      var q :| q in nonExit && q.source == t;
      assert Contradict(x, y) || Contradict(x, p) || Contradict(x, q) || Contradict(y, p) || Contradict(y, q);
    }
    if HasContradiction(slot) {
      var a, b :| a in slot && b in slot && Contradict(a, b);
      assert a in nonExit && b in nonExit;
      assert a.kind.Class() in classes && b.kind.Class() in classes;
      assert a.source in sources && b.source in sources;
    }
  }

  /** One bucket: more than one class and more than one source among what is not an exit. */
  method SlotHasConflict(slot: seq<StatusObservation>) returns (conflict: bool)
    requires forall a, b :: a in slot && b in slot ==> a.observedAt == b.observedAt
    ensures conflict == HasContradiction(slot)
  {
    var nonExit := set o | o in slot && !o.source.ProcessExit?;
    var classes := set o | o in nonExit :: o.kind.Class();
    var sources := set o | o in nonExit :: o.source;
    SlotConflict(slot);
    conflict := |classes| > 1 && |sources| > 1;
  }

  lemma {:induction false} ConflictInSlot(b: Bucket, own: seq<StatusObservation>)
    requires Collects(b, own) && HasContradiction(b.slot)
    ensures HasContradiction(own)
  {
    var x, y :| x in b.slot && y in b.slot && Contradict(x, y);
    assert x in own && y in own;
  }

  lemma {:induction false} NoConflictInSlots(buckets: seq<Bucket>, own: seq<StatusObservation>)
    requires IsBucketing(buckets, own)
    requires forall k :: 0 <= k < |buckets| ==> !HasContradiction(buckets[k].slot)
    ensures !HasContradiction(own)
  {
    forall a, b | a in own && b in own
      ensures !Contradict(a, b)
    {
      var k :| 0 <= k < |buckets| && buckets[k].at == a.observedAt;
      assert Collects(buckets[k], own);
      assert a in buckets[k].slot && !HasContradiction(buckets[k].slot);
      assert a.observedAt == b.observedAt ==> b in buckets[k].slot;
    }
  }

  /** The bucket loop reports a conflict exactly when two observations of one instant contradict each other. */
  method ReportsConflict(own: seq<StatusObservation>) returns (conflict: bool)
    ensures conflict == HasContradiction(own)
  {
    var buckets := BucketsByInstant(own);
    for k := 0 to |buckets|
      invariant forall j :: 0 <= j < k ==> !HasContradiction(buckets[j].slot)
    {
      assert Collects(buckets[k], own);
      conflict := SlotHasConflict(buckets[k].slot);
      if conflict {
        ConflictInSlot(buckets[k], own);
        return;
      }
    }
    NoConflictInSlots(buckets, own);
    return false;
  }

  method ComputeRunActivity(current: seq<StatusObservation>, runId: string) returns (r: Option<RunActivity>)
    ensures r == SelectRunActivity(current, runId)
  {
    var own := OfRun(current, runId);
    if own == [] {
      return None;
    }
    var conflict := ReportsConflict(own);
    if conflict {
      return Some(Conflict);
    }
    var chosen := FirstBest(own);
    return Some(Activity(chosen.kind, chosen.source, chosen.observedAt));
  }

  predicate IsRunActive(r: Option<RunActivity>) {
    r.Some? && (r.value.Conflict? || !r.value.kind.Class().Terminal?)
  }

  function Fresh(observations: seq<StatusObservation>, now: int): seq<StatusObservation> {
    if observations == [] then []
    else Fresh(observations[..|observations| - 1], now)
         + if observations[|observations| - 1].expiresAt >= now then [observations[|observations| - 1]] else []
  }

  function ChildIds(current: seq<StatusObservation>, primary: string): set<string> {
    set o | o in current && o.runId != primary && o.parentRunId == Some(primary) :: o.runId
  }

  function Projection(activity: Option<RunActivity>, childBusy: bool, alive: bool): StatusProjection {
    if activity.None? && childBusy then
      StatusProjection(LiveWaitingForInput, "waiting on delegated runs", WaitingOnDelegated, alive, None, None)
    else if activity.None? || activity.value.Conflict? then
      StatusProjection(LiveUnknown, "unknown agent status", PhaseUnknown, alive, None, None)
    else
      var a := activity.value;
      var (liveKind, summary, phase) :=
        match a.kind
        case CommandRunning => (LiveCommandRunning, "command running", ActivelyWorking)
        case TestsRunning => (LiveTestsRunning, "tests running", ActivelyWorking)
        case Working => (LiveAgentRunning, "agent running", ActivelyWorking)
        case WaitingApproval => (LiveWaitingForApproval, "waiting for approval", WaitingForUser)
        case WaitingInput => (LiveWaitingForInput, "waiting for input", WaitingForUser)
        case Done | Failed =>
          if childBusy then (LiveWaitingForInput, "delegated runs still active", CompletedLocallyChildrenActive)
          else if a.kind.Failed? then (LiveCommandFailed, "agent failed", FullyCompleted)
          else (LiveDone, "done", FullyCompleted);
      StatusProjection(liveKind, summary, phase, alive, Some(a.observedAt), Some(a.source))
  }

  ghost function ReduceAgentStatus(
    now: int, primary: string, liveness: Option<ProcessLiveness>, observations: seq<StatusObservation>): StatusProjection
  {
    var current := Fresh(observations, now);
    Projection(
      SelectRunActivity(current, primary),
      exists rid :: rid in ChildIds(current, primary) && IsRunActive(SelectRunActivity(current, rid)),
      liveness.Some? && IsFreshLiveness(liveness.value, now))
  }

  method ComputeAgentStatus(
    now: int, primary: string, liveness: Option<ProcessLiveness>, observations: seq<StatusObservation>)
    returns (p: StatusProjection)
    ensures p == ReduceAgentStatus(now, primary, liveness, observations)
  {
    var current := Fresh(observations, now);
    var activity := ComputeRunActivity(current, primary);
    var rest := ChildIds(current, primary);
    ghost var children := rest;
    var childBusy := false;
    while rest != {}
      invariant rest <= children
      invariant childBusy <==> exists rid :: rid in children - rest && IsRunActive(SelectRunActivity(current, rid))
    {
      var rid :| rid in rest;
      var child := ComputeRunActivity(current, rid);
      childBusy := childBusy || IsRunActive(child);
      assert children - (rest - {rid}) == children - rest + {rid};
      rest := rest - {rid};
    }
    p := Projection(activity, childBusy, liveness.Some? && IsFreshLiveness(liveness.value, now));
  }

  // What the reducer means, in terms of the set of unexpired observations alone.

  ghost function Unexpired(observations: seq<StatusObservation>, now: int): set<StatusObservation> {
    set o | o in observations && o.expiresAt >= now
  }

  ghost predicate InConflict(s: set<StatusObservation>, runId: string) {
    exists a, b :: a in s && b in s && a.runId == runId && b.runId == runId && Contradict(a, b)
  }

  /** o is a best-ranked observation of its run. */
  ghost predicate IsBest(s: set<StatusObservation>, runId: string, o: StatusObservation) {
    && o in s && o.runId == runId
    && forall p :: p in s && p.runId == runId ==> !Better(p, o)
  }

  /** The run is not in conflict and its best-ranked observation is of the class. */
  ghost predicate Leads(s: set<StatusObservation>, runId: string, cls: ActivityClass) {
    !InConflict(s, runId) && exists o :: IsBest(s, runId, o) && o.kind.Class() == cls
  }

  ghost predicate IsBusy(s: set<StatusObservation>, runId: string) {
    InConflict(s, runId) || Leads(s, runId, Running) || Leads(s, runId, Waiting)
  }

  /** A direct child of the primary run is running, waiting or in conflict. */
  ghost predicate ChildBusy(s: set<StatusObservation>, primary: string) {
    exists o :: o in s && o.runId != primary && o.parentRunId == Some(primary) && IsBusy(s, o.runId)
  }

  ghost predicate Observed(s: set<StatusObservation>, runId: string) {
    exists o :: o in s && o.runId == runId
  }

  lemma {:induction false} FreshIsUnexpired(observations: seq<StatusObservation>, now: int)
    ensures forall o :: o in Fresh(observations, now) <==> o in observations && o.expiresAt >= now
  {
    if observations != [] {
      FreshIsUnexpired(observations[..|observations| - 1], now);
      InitAndLast(observations);
    }
  }

  lemma {:induction false} OfRunIsFilter(current: seq<StatusObservation>, runId: string)
    ensures forall o :: o in OfRun(current, runId) <==> o in current && o.runId == runId
  {
    if current != [] {
      OfRunIsFilter(current[..|current| - 1], runId);
      InitAndLast(current);
    }
  }

  lemma {:induction false} FirstBestIsBest(own: seq<StatusObservation>)
    requires own != []
    ensures FirstBest(own) in own
    ensures forall p :: p in own ==> !Better(p, FirstBest(own))
  {
    if |own| > 1 {
      FirstBestIsBest(own[..|own| - 1]);
      InitAndLast(own);
    }
  }

  /** What is selected for a run, read off the set of its observations. */
  lemma {:induction false} SelectMeaning(current: seq<StatusObservation>, s: set<StatusObservation>, runId: string)
    requires forall o :: o in current <==> o in s
    ensures var r := SelectRunActivity(current, runId);
      && (r.None? <==> !Observed(s, runId))
      && (r == Some(Conflict) <==> InConflict(s, runId))
      && (r.Some? && r.value.Activity? ==>
            exists o :: IsBest(s, runId, o) && r.value == Activity(o.kind, o.source, o.observedAt))
  {
    OfRunIsFilter(current, runId);
    var own := OfRun(current, runId);
    if own != [] {
      assert own[0] in own;
      FirstBestIsBest(own);
      assert IsBest(s, runId, FirstBest(own));
      if HasContradiction(own) {
        assert InConflict(s, runId);
      }
    }
  }

  /** Best-ranked observations of a run agree on source, time and state rank, hence on class. */
  lemma {:induction false} BestAgree(s: set<StatusObservation>, runId: string, o: StatusObservation, p: StatusObservation)
    requires IsBest(s, runId, o) && IsBest(s, runId, p)
    ensures o.source == p.source && o.observedAt == p.observedAt
    ensures o.kind.StateRank() == p.kind.StateRank() && o.kind.Class() == p.kind.Class()
  {
    assert !Better(o, p) && !Better(p, o);
  }

  lemma {:induction false} ActiveMeansBusy(current: seq<StatusObservation>, s: set<StatusObservation>, runId: string)
    requires forall o :: o in current <==> o in s
    ensures IsRunActive(SelectRunActivity(current, runId)) <==> IsBusy(s, runId)
  {
    SelectMeaning(current, s, runId);
    var r := SelectRunActivity(current, runId);
    if r.Some? && r.value.Activity? {
      var o :| IsBest(s, runId, o) && r.value == Activity(o.kind, o.source, o.observedAt);
      forall p | IsBest(s, runId, p)
        ensures p.kind.Class() == o.kind.Class()
      {
        BestAgree(s, runId, o, p);
      }
    }
  }

  /** What is selected for the primary run decides who leads it. */
  lemma {:induction false} SelectedLeads(current: seq<StatusObservation>, s: set<StatusObservation>, runId: string)
    requires forall o :: o in current <==> o in s
    ensures var r := SelectRunActivity(current, runId);
      && (forall cls :: Leads(s, runId, cls) <==> r.Some? && r.value.Activity? && r.value.kind.Class() == cls)
      && (forall o :: IsBest(s, runId, o) && !InConflict(s, runId) ==>
            r.Some? && r.value.Activity? && r.value.source == o.source && r.value.observedAt == o.observedAt)
  {
    SelectMeaning(current, s, runId);
    var r := SelectRunActivity(current, runId);
    if r.Some? && r.value.Activity? {
      var o :| IsBest(s, runId, o) && r.value == Activity(o.kind, o.source, o.observedAt);
      forall p | IsBest(s, runId, p)
        ensures p.kind.Class() == o.kind.Class() && p.source == o.source && p.observedAt == o.observedAt
      {
        BestAgree(s, runId, o, p);
      }
    }
  }

  /** Every phase, and what was selected for it, said of the set of unexpired observations. */
  lemma {:induction false} ReducerMeaning(
    now: int, primary: string, liveness: Option<ProcessLiveness>, observations: seq<StatusObservation>)
    ensures
      var s := Unexpired(observations, now);
      var p := ReduceAgentStatus(now, primary, liveness, observations);
      && (p.phase == ActivelyWorking <==> Leads(s, primary, Running))
      && (p.phase == WaitingForUser <==> Leads(s, primary, Waiting))
      && (p.phase == FullyCompleted <==> Leads(s, primary, Terminal) && !ChildBusy(s, primary))
      && (p.phase == CompletedLocallyChildrenActive <==> Leads(s, primary, Terminal) && ChildBusy(s, primary))
      && (p.phase == WaitingOnDelegated <==> !Observed(s, primary) && ChildBusy(s, primary))
      && (forall o :: IsBest(s, primary, o) && !InConflict(s, primary) ==>
            p.selectedSource == Some(o.source) && p.selectedObservedAt == Some(o.observedAt))
      && (!Observed(s, primary) || InConflict(s, primary) ==> p.selectedSource == None && p.selectedObservedAt == None)
  {
    var s, current := Unexpired(observations, now), Fresh(observations, now);
    FreshIsUnexpired(observations, now);
    SelectMeaning(current, s, primary);
    SelectedLeads(current, s, primary);
    ChildBusyMeaning(current, s, primary);
    ProjectionMeaning(
      SelectRunActivity(current, primary), ChildBusy(s, primary), liveness.Some? && IsFreshLiveness(liveness.value, now));
  }

  predicate HasClass(r: Option<RunActivity>, cls: ActivityClass) {
    r.Some? && r.value.Activity? && r.value.kind.Class() == cls
  }

  lemma {:induction false} ProjectionMeaning(r: Option<RunActivity>, childBusy: bool, alive: bool)
    ensures
      var p := Projection(r, childBusy, alive);
      && (p.phase == ActivelyWorking <==> HasClass(r, Running))
      && (p.phase == WaitingForUser <==> HasClass(r, Waiting))
      && (p.phase == FullyCompleted <==> HasClass(r, Terminal) && !childBusy)
      && (p.phase == CompletedLocallyChildrenActive <==> HasClass(r, Terminal) && childBusy)
      && (p.phase == WaitingOnDelegated <==> r.None? && childBusy)
      && (r.Some? && r.value.Activity? ==>
            p.selectedSource == Some(r.value.source) && p.selectedObservedAt == Some(r.value.observedAt))
      && (!(r.Some? && r.value.Activity?) ==> p.selectedSource == None && p.selectedObservedAt == None)
  {
  }

  lemma {:induction false} ChildBusyMeaning(current: seq<StatusObservation>, s: set<StatusObservation>, primary: string)
    requires forall o :: o in current <==> o in s
    ensures (exists rid :: rid in ChildIds(current, primary) && IsRunActive(SelectRunActivity(current, rid)))
       <==> ChildBusy(s, primary)
  {
    if rid :| rid in ChildIds(current, primary) && IsRunActive(SelectRunActivity(current, rid)) {
      ActiveMeansBusy(current, s, rid);
      var o :| o in current && o.runId != primary && o.parentRunId == Some(primary) && o.runId == rid;
      assert o in s && IsBusy(s, o.runId);
    }
    if ChildBusy(s, primary) {
      var o :| o in s && o.runId != primary && o.parentRunId == Some(primary) && IsBusy(s, o.runId);
      ActiveMeansBusy(current, s, o.runId);
      assert o in current;
      assert o.runId in ChildIds(current, primary);
    }
  }

  /** No two unexpired observations of the run tie on source, time and state rank with different kinds. */
  ghost predicate NoKindTie(s: set<StatusObservation>, runId: string) {
    forall o, p :: o in s && p in s && o.runId == runId && p.runId == runId
                && o.source == p.source && o.observedAt == p.observedAt && o.kind.StateRank() == p.kind.StateRank()
                ==> o.kind == p.kind
  }

  /**
   The reducer is a function of the set of unexpired observations: permuting, repeating or adding
   expired ones changes neither phase nor selection, and nothing at all when the primary run has no
   tie between kinds.
   */
  lemma {:induction false} ReducerIsSetFunction(
    now: int, primary: string, liveness: Option<ProcessLiveness>, a: seq<StatusObservation>, b: seq<StatusObservation>)
    requires Unexpired(a, now) == Unexpired(b, now)
    ensures
      var p := ReduceAgentStatus(now, primary, liveness, a);
      var q := ReduceAgentStatus(now, primary, liveness, b);
      && p.phase == q.phase && p.processAlive == q.processAlive
      && p.selectedSource == q.selectedSource && p.selectedObservedAt == q.selectedObservedAt
      && (NoKindTie(Unexpired(a, now), primary) ==> p == q)
  {
    var s := Unexpired(a, now);
    var fa, fb := Fresh(a, now), Fresh(b, now);
    FreshIsUnexpired(a, now);
    FreshIsUnexpired(b, now);
    assert forall o :: o in fb <==> o in Unexpired(b, now);
    ChildBusyMeaning(fa, s, primary);
    ChildBusyMeaning(fb, s, primary);
    SelectAgrees(fa, fb, s, primary);
    ProjectionAgrees(
      SelectRunActivity(fa, primary), SelectRunActivity(fb, primary), ChildBusy(s, primary),
      liveness.Some? && IsFreshLiveness(liveness.value, now));
  }

  /** The activities agree on everything but, possibly, the kind within its class. */
  ghost predicate Agree(p: Option<RunActivity>, q: Option<RunActivity>) {
    && (p.None? <==> q.None?) && (p == Some(Conflict) <==> q == Some(Conflict))
    && (p.Some? && p.value.Activity? && q.Some? && q.value.Activity? ==>
          && p.value.source == q.value.source && p.value.observedAt == q.value.observedAt
          && p.value.kind.Class() == q.value.kind.Class())
  }

  lemma {:induction false} ProjectionAgrees(p: Option<RunActivity>, q: Option<RunActivity>, childBusy: bool, alive: bool)
    requires Agree(p, q)
    ensures
      var x, y := Projection(p, childBusy, alive), Projection(q, childBusy, alive);
      && x.phase == y.phase && x.processAlive == y.processAlive
      && x.selectedSource == y.selectedSource && x.selectedObservedAt == y.selectedObservedAt
  {
  }

  lemma {:induction false} SelectAgrees(
    fa: seq<StatusObservation>, fb: seq<StatusObservation>, s: set<StatusObservation>, runId: string)
    requires forall o :: o in fa <==> o in s
    requires forall o :: o in fb <==> o in s
    ensures Agree(SelectRunActivity(fa, runId), SelectRunActivity(fb, runId))
    ensures NoKindTie(s, runId) ==> SelectRunActivity(fa, runId) == SelectRunActivity(fb, runId)
  {
    SelectMeaning(fa, s, runId);
    SelectMeaning(fb, s, runId);
    var p, q := SelectRunActivity(fa, runId), SelectRunActivity(fb, runId);
    if p.Some? && p.value.Activity? {
      var o :| IsBest(s, runId, o) && p.value == Activity(o.kind, o.source, o.observedAt);
      var o' :| IsBest(s, runId, o') && q.value == Activity(o'.kind, o'.source, o'.observedAt);
      BestAgree(s, runId, o, o');
    }
  }
}
