/**
 What the notification detector has done, told by the inputs alone: which class it remembers and when it
 notifies, for a task that starts without marks (crates/ajax-core/src/attention.rs:35-105, 140-210).
 */
module AttentionHistory {
  import opened Options
  import opened Attention

  const Blank := Episode(None, None, None, None)

  /** An actionable poll of a waiting task, or of one with an error that nothing suppresses. */
  predicate Calls(i: Input) {
    i.Poll? && !i.removing && i.actionable && (i.status.Waiting? || (i.status.Error? && !i.errorSuppressed))
  }

  /** A poll of a task that runs, is idle or is unknown. */
  predicate Idles(i: Input) {
    i.Poll? && !i.removing && (i.status.Running? || i.status.Idle? || i.status.Unknown?)
  }

  predicate Mutes(i: Input) {
    i.Silence? && i.actionable
  }

  predicate Ignored(i: Input) {
    if i.Poll? then i.removing else !i.actionable
  }

  lemma {:induction false} NamesDiffer(a: TaskStatus, b: TaskStatus)
    requires StatusName(a) == StatusName(b)
    ensures a == b
  {
    assert StatusName(a)[0] == StatusName(b)[0];
  }

  /** From lo to before hi, thirty seconds of idling that no call or muting broke. */
  ghost predicate Quieted(inputs: seq<Input>, lo: nat, hi: nat)
    requires hi <= |inputs|
  {
    exists a, b :: lo <= a < b < hi && QuietStretch(inputs, a, b)
  }

  ghost predicate QuietStretch(inputs: seq<Input>, a: nat, b: nat)
    requires a < b < |inputs|
  {
    && Idles(inputs[a]) && Idles(inputs[b]) && inputs[b].now >= inputs[a].now + 30
    && Unbroken(inputs, a, b)
  }

  ghost predicate Unbroken(inputs: seq<Input>, a: nat, b: nat)
    requires a <= b <= |inputs|
  {
    forall j :: a <= j < b ==> !Calls(inputs[j]) && !Mutes(inputs[j])
  }

  /** Input i put the class of its status on record, by notifying or by muting. */
  predicate Records(inputs: seq<Input>, i: nat)
    requires i < |inputs|
  {
    NotifiesAt(Blank, inputs, i) || Mutes(inputs[i])
  }

  /** Input i recorded its class, none was recorded since, and there was no quiet since. */
  ghost predicate StandsFrom(inputs: seq<Input>, i: nat, k: nat)
    requires i < k <= |inputs|
  {
    && Records(inputs, i)
    && (forall j :: i < j < k ==> !Records(inputs, j))
    && !Quieted(inputs, i + 1, k)
  }

  ghost predicate Remembered(inputs: seq<Input>, k: nat, status: TaskStatus)
    requires k <= |inputs|
  {
    exists i :: 0 <= i < k && inputs[i].status == status && StandsFrom(inputs, i, k)
  }

  /** The quiet mark is that of an idle poll after i, with no call since. */
  ghost predicate QuietMarked(inputs: seq<Input>, i: nat, k: nat, mark: Option<Mark>)
    requires i < k <= |inputs|
  {
    mark == None
    || exists q :: i < q < k && Idles(inputs[q]) && Unbroken(inputs, q, k) && mark == Some(At(inputs[q].now))
  }

  lemma {:induction false} QuietMarkedNext(inputs: seq<Input>, i: nat, k: nat, mark: Option<Mark>)
    requires i < k < |inputs| && QuietMarked(inputs, i, k, mark)
    requires !Calls(inputs[k]) && !Mutes(inputs[k])
    ensures QuietMarked(inputs, i, k + 1, mark)
  {
    if mark != None {
      var q :| i < q < k && Idles(inputs[q]) && Unbroken(inputs, q, k) && mark == Some(At(inputs[q].now));
      assert Unbroken(inputs, q, k + 1);
    }
  }

  ghost predicate EndsQuiet(inputs: seq<Input>, lo: nat, n: nat)
    requires n < |inputs|
  {
    exists a :: lo <= a < n && QuietStretch(inputs, a, n)
  }

  lemma {:induction false} QuietedNext(inputs: seq<Input>, lo: nat, n: nat)
    requires n < |inputs|
    ensures Quieted(inputs, lo, n + 1) <==> Quieted(inputs, lo, n) || EndsQuiet(inputs, lo, n)
  {
  }

  /** A class stays on record from the input that recorded it until there is quiet. */
  lemma {:induction false} RecordStands(inputs: seq<Input>, i: nat, k: nat)
    requires i < k <= |inputs| && StandsFrom(inputs, i, k)
    ensures StateAt(Blank, inputs, k).lastStatus == Some(StatusName(inputs[i].status))
    ensures StateAt(Blank, inputs, k).lastAt == Some(At(inputs[i].now))
    ensures QuietMarked(inputs, i, k, StateAt(Blank, inputs, k).quietSince)
    decreases k
  {
    var n := k - 1;
    if i < n {
      QuietedNext(inputs, i + 1, n);
      RecordStands(inputs, i, n);
      NotQuietYet(inputs, i, n);
      RecordStandsNext(inputs, i, n);
    }
  }

  lemma {:induction false} NotQuietYet(inputs: seq<Input>, i: nat, n: nat)
    requires i < n < |inputs| && !Quieted(inputs, i + 1, n + 1)
    requires QuietMarked(inputs, i, n, StateAt(Blank, inputs, n).quietSince)
    ensures Idles(inputs[n]) ==> !Reached(StateAt(Blank, inputs, n).quietSince, EPISODE_CLEAR_DWELL, inputs[n].now)
  {
    var mark := StateAt(Blank, inputs, n).quietSince;
    if mark != None && Idles(inputs[n]) {
      var q :| i < q < n && Idles(inputs[q]) && Unbroken(inputs, q, n) && mark == Some(At(inputs[q].now));
      assert !QuietStretch(inputs, q, n);
    }
  }

  lemma {:induction false} RecordStandsNext(inputs: seq<Input>, i: nat, n: nat)
    requires i < n < |inputs| && !Records(inputs, n)
    requires StateAt(Blank, inputs, n).lastStatus == Some(StatusName(inputs[i].status))
    requires StateAt(Blank, inputs, n).lastAt == Some(At(inputs[i].now))
    requires QuietMarked(inputs, i, n, StateAt(Blank, inputs, n).quietSince)
    requires Idles(inputs[n]) ==> !Reached(StateAt(Blank, inputs, n).quietSince, EPISODE_CLEAR_DWELL, inputs[n].now)
    ensures StateAt(Blank, inputs, n + 1).lastStatus == Some(StatusName(inputs[i].status))
    ensures StateAt(Blank, inputs, n + 1).lastAt == Some(At(inputs[i].now))
    ensures QuietMarked(inputs, i, n + 1, StateAt(Blank, inputs, n + 1).quietSince)
  {
    if !Calls(inputs[n]) {
      QuietMarkedNext(inputs, i, n, StateAt(Blank, inputs, n).quietSince);
      assert Unbroken(inputs, n, n + 1);
    }
  }

  // Forgetting.

  /** No mark is later than the instant. */
  predicate MarksPast(e: Episode, now: nat) {
    && (Readable(e.quietSince) ==> e.quietSince.value.seconds <= now)
    && (Readable(e.candidateSince) ==> e.candidateSince.value.seconds <= now)
  }

  lemma {:induction false} MarksStayPast(e: Episode, inputs: seq<Input>, k: nat)
    requires ClockRuns(inputs) && k < |inputs| && MarksPast(e, inputs[0].now)
    ensures MarksPast(StateAt(e, inputs, k), inputs[k].now)
  {
    if k != 0 {
      MarksStayPast(e, inputs, k - 1);
      assert inputs[k - 1].now <= inputs[k].now;
    }
  }

  /** Since the idle poll a, the class is forgotten or the quiet mark is as old as a. */
  predicate Settling(e: Episode, since: nat) {
    e.lastStatus.None? || (Readable(e.quietSince) && e.quietSince.value.seconds <= since)
  }

  lemma {:induction false} SettlingGoesOn(e: Episode, inputs: seq<Input>, a: nat, k: nat)
    requires ClockRuns(inputs) && a < k <= |inputs| && MarksPast(e, inputs[0].now)
    requires Idles(inputs[a]) && Unbroken(inputs, a, k)
    ensures Settling(StateAt(e, inputs, k), inputs[a].now)
    decreases k
  {
    if k > a + 1 {
      SettlingGoesOn(e, inputs, a, k - 1);
      assert !Calls(inputs[k - 1]) && !Mutes(inputs[k - 1]);
    } else {
      MarksStayPast(e, inputs, a);
    }
  }

  /**
   Re-arming is complete: after thirty seconds of idling that no call or muting broke, whether the task was
   running, idle or unknown, no class is remembered, whatever the detector started from.
   */
  lemma {:induction false} QuietForgets(e: Episode, inputs: seq<Input>, a: nat, b: nat)
    requires ClockRuns(inputs) && a < b < |inputs| && MarksPast(e, inputs[0].now)
    requires Idles(inputs[a]) && Idles(inputs[b]) && inputs[b].now >= inputs[a].now + 30
    requires forall j :: a < j < b ==> !Calls(inputs[j]) && !Mutes(inputs[j])
    ensures StateAt(e, inputs, b + 1).lastStatus == None
    ensures StateAt(e, inputs, b + 1).quietSince == None && StateAt(e, inputs, b + 1).candidateSince == None
  {
    SettlingGoesOn(e, inputs, a, b);
  }

  lemma {:induction false} StaysForgotten(e: Episode, inputs: seq<Input>, lo: nat, k: nat)
    requires lo <= k <= |inputs| && Unbroken(inputs, lo, k)
    requires StateAt(e, inputs, lo).lastStatus == None && StateAt(e, inputs, lo).candidateSince == None
    ensures StateAt(e, inputs, k).lastStatus == None && StateAt(e, inputs, k).candidateSince == None
    decreases k
  {
    if lo < k {
      StaysForgotten(e, inputs, lo, k - 1);
      assert !Calls(inputs[k - 1]) && !Mutes(inputs[k - 1]);
    }
  }

  /**
   After thirty quiet seconds any class is notified again: calls of one class that follow notify exactly
   once if they go on for fifteen seconds, and not at all otherwise.
   */
  lemma {:induction false} QuietRearms(
    e: Episode, inputs: seq<Input>, a: nat, b: nat, lo: nat, hi: nat, status: TaskStatus)
    requires ClockRuns(inputs) && a < b < lo < hi <= |inputs| && MarksPast(e, inputs[0].now)
    requires Idles(inputs[a]) && Idles(inputs[b]) && inputs[b].now >= inputs[a].now + 30
    requires forall j :: a < j < lo ==> !Calls(inputs[j]) && !Mutes(inputs[j])
    requires forall j :: lo <= j < hi ==> Calls(inputs[j]) && inputs[j].status == status
    ensures CountNotifications(e, inputs, lo, hi) == if inputs[hi - 1].now >= inputs[lo].now + 15 then 1 else 0
  {
    QuietForgets(e, inputs, a, b);
    StaysForgotten(e, inputs, b + 1, lo);
    ConfirmationIsComplete(e, inputs, lo, hi, status);
  }

  // The class remembered.

  lemma {:induction false} RecordedOrCarried(inputs: seq<Input>, n: nat)
    requires n < |inputs| && StateAt(Blank, inputs, n + 1).lastStatus.Some?
    ensures Records(inputs, n) || StateAt(Blank, inputs, n + 1).lastStatus == StateAt(Blank, inputs, n).lastStatus
    ensures Records(inputs, n) ==> StateAt(Blank, inputs, n + 1).lastStatus == Some(StatusName(inputs[n].status))
  {
  }

  lemma {:induction false} QuietEndForgets(inputs: seq<Input>, lo: nat, n: nat)
    requires ClockRuns(inputs) && n < |inputs|
    ensures EndsQuiet(inputs, lo, n) ==> StateAt(Blank, inputs, n + 1).lastStatus == None
  {
    if a :| lo <= a < n && QuietStretch(inputs, a, n) {
      QuietForgets(Blank, inputs, a, n);
    }
  }

  lemma {:induction false} SomeRecordStands(inputs: seq<Input>, k: nat) returns (i: nat)
    requires ClockRuns(inputs) && k <= |inputs|
    requires StateAt(Blank, inputs, k).lastStatus.Some?
    ensures i < k && StandsFrom(inputs, i, k)
  {
    var n := k - 1;
    RecordedOrCarried(inputs, n);
    if Records(inputs, n) {
      i := n;
    } else {
      i := SomeRecordStands(inputs, n);
      QuietEndForgets(inputs, i + 1, n);
      QuietedNext(inputs, i + 1, n);
    }
  }

  lemma {:induction false} NothingDated(inputs: seq<Input>, k: nat)
    requires k <= |inputs|
    ensures StateAt(Blank, inputs, k).lastStatus == None ==> StateAt(Blank, inputs, k).lastAt == None
  {
    if k > 0 {
      NothingDated(inputs, k - 1);
    }
  }

  /**
   Exactly what is remembered: the class last notified or muted, unless thirty quiet seconds came after,
   together with the instant it was recorded.
   */
  lemma {:induction false} RememberedExactly(inputs: seq<Input>, k: nat, status: TaskStatus)
    requires ClockRuns(inputs) && k <= |inputs|
    ensures StateAt(Blank, inputs, k).lastStatus == Some(StatusName(status)) <==> Remembered(inputs, k, status)
    ensures forall i :: 0 <= i < k && StandsFrom(inputs, i, k) ==> StateAt(Blank, inputs, k).lastAt == Some(At(inputs[i].now))
    ensures (forall i :: 0 <= i < k ==> !StandsFrom(inputs, i, k)) ==>
      StateAt(Blank, inputs, k).lastStatus == None && StateAt(Blank, inputs, k).lastAt == None
  {
    NothingDated(inputs, k);
    if StateAt(Blank, inputs, k).lastStatus.Some? {
      var i := SomeRecordStands(inputs, k);
    }
    if StateAt(Blank, inputs, k).lastStatus == Some(StatusName(status)) {
      var i := SomeRecordStands(inputs, k);
      RecordStands(inputs, i, k);
      NamesDiffer(inputs[i].status, status);
    }
    forall i | 0 <= i < k && StandsFrom(inputs, i, k)
      ensures StateAt(Blank, inputs, k).lastAt == Some(At(inputs[i].now))
      ensures StateAt(Blank, inputs, k).lastStatus == Some(StatusName(inputs[i].status))
    {
      RecordStands(inputs, i, k);
    }
  }

  // When it notifies.

  /** From i to before k every input was ignored, or called for a class not remembered, and none notified. */
  ghost predicate CallsSince(inputs: seq<Input>, i: nat, k: nat)
    requires i <= k <= |inputs|
  {
    forall j :: i <= j < k ==>
      !NotifiesAt(Blank, inputs, j)
      && (Ignored(inputs[j]) || (Calls(inputs[j]) && !Remembered(inputs, j, inputs[j].status)))
  }

  predicate WaitsSince(e: Episode, since: nat) {
    Readable(e.candidateSince) && e.candidateSince.value.seconds <= since
  }

  lemma {:induction false} CandidateStarts(e: Episode, i: Input)
    requires Calls(i) && MarksPast(e, i.now) && e.lastStatus != Some(StatusName(i.status)) && !Notifies(e, i)
    ensures WaitsSince(Next(e, i), i.now)
  {
  }

  lemma {:induction false} CandidateStays(e: Episode, i: Input, since: nat)
    requires WaitsSince(e, since) && !Notifies(e, i)
    requires Ignored(i) || (Calls(i) && e.lastStatus != Some(StatusName(i.status)))
    ensures WaitsSince(Next(e, i), since)
  {
  }

  lemma {:induction false} CallsSinceAt(inputs: seq<Input>, i: nat, n: nat)
    requires ClockRuns(inputs) && i <= n < |inputs| && CallsSince(inputs, i, n + 1)
    ensures CallsSince(inputs, i, n) && !Notifies(StateAt(Blank, inputs, n), inputs[n])
    ensures Ignored(inputs[n])
         || (Calls(inputs[n]) && StateAt(Blank, inputs, n).lastStatus != Some(StatusName(inputs[n].status)))
  {
    RememberedExactly(inputs, n, inputs[n].status);
    assert !NotifiesAt(Blank, inputs, n);
  }

  lemma {:induction false} CandidateKept(inputs: seq<Input>, i: nat, n: nat)
    requires ClockRuns(inputs) && i <= n < |inputs|
    requires Calls(inputs[i]) && CallsSince(inputs, i, n + 1)
    ensures WaitsSince(Next(StateAt(Blank, inputs, n), inputs[n]), inputs[i].now)
    decreases n
  {
    CallsSinceAt(inputs, i, n);
    if i < n {
      CandidateKept(inputs, i, n - 1);
      CandidateStays(StateAt(Blank, inputs, n), inputs[n], inputs[i].now);
    } else {
      MarksStayPast(Blank, inputs, n);
      CandidateStarts(StateAt(Blank, inputs, n), inputs[n]);
    }
  }

  lemma {:induction false} PressesMeaning(inputs: seq<Input>, j: nat)
    requires ClockRuns(inputs) && j < |inputs|
    ensures Presses(Blank, inputs, j)
       <==> Ignored(inputs[j]) || (Calls(inputs[j]) && !Remembered(inputs, j, inputs[j].status))
  {
    RememberedExactly(inputs, j, inputs[j].status);
  }

  /** Input i calls, and for fifteen seconds up to k every input did, or was ignored, without notifying. */
  ghost predicate CalledFrom(inputs: seq<Input>, i: nat, k: nat)
    requires i < k < |inputs|
  {
    Calls(inputs[i]) && CallsSince(inputs, i, k) && inputs[k].now >= inputs[i].now + 15
  }

  lemma {:induction false} NotificationIsCalledFor(inputs: seq<Input>, k: nat) returns (i: nat)
    requires ClockRuns(inputs) && k < |inputs| && NotifiesAt(Blank, inputs, k)
    ensures i < k && CalledFrom(inputs, i, k)
  {
    i := ConfirmationIsSound(Blank, inputs, 0, k);
    forall j | i <= j < k
      ensures Ignored(inputs[j]) || (Calls(inputs[j]) && !Remembered(inputs, j, inputs[j].status))
    {
      PressesMeaning(inputs, j);
    }
  }

  lemma {:induction false} CallingNotifies(inputs: seq<Input>, i: nat, k: nat)
    requires ClockRuns(inputs) && i < k < |inputs| && CalledFrom(inputs, i, k)
    requires Calls(inputs[k]) && StateAt(Blank, inputs, k).lastStatus != Some(StatusName(inputs[k].status))
    ensures NotifiesAt(Blank, inputs, k)
  {
    CandidateKept(inputs, i, k - 1);
  }

  /**
   Exactly when a poll notifies: it calls for a class that is not remembered, and for fifteen seconds all
   inputs did, or were ignored, without notifying.
   */
  lemma {:induction false} NotifiesExactly(inputs: seq<Input>, k: nat)
    requires ClockRuns(inputs) && k < |inputs|
    ensures NotifiesAt(Blank, inputs, k)
       <==> Calls(inputs[k]) && !Remembered(inputs, k, inputs[k].status)
            && exists i :: 0 <= i < k && CalledFrom(inputs, i, k)
  {
    RememberedExactly(inputs, k, inputs[k].status);
    if NotifiesAt(Blank, inputs, k) {
      var i := NotificationIsCalledFor(inputs, k);
    } else if Calls(inputs[k]) && !Remembered(inputs, k, inputs[k].status) {
      if i :| 0 <= i < k && CalledFrom(inputs, i, k) {
        CallingNotifies(inputs, i, k);
      }
    }
  }
}
