/**
 When a task's attention episodes notify (crates/ajax-core/src/attention.rs).

 A poll reports the task's operator status, whether it is actionable, whether an error is
 suppressed by CI or merge state, and whether the task is being removed.  The four metadata
 entries the detector keeps are fields here; an entry whose text is no number is Unreadable.
 Times are whole seconds since the epoch.
 */
module Attention {
  import opened Options

  const EPISODE_CLEAR_DWELL: nat := 30
  const NOTIFY_CONFIRMATION_DWELL: nat := 15

  datatype TaskStatus = Running | Waiting | Idle | Error | Unknown

  function StatusName(status: TaskStatus): string {
    match status
    case Running => "Running"
    case Waiting => "Waiting"
    case Idle => "Idle"
    case Error => "Error"
    case Unknown => "Unknown"
  }

  datatype Mark = At(seconds: nat) | Unreadable

  datatype Episode = Episode(
    lastStatus: Option<string>, lastAt: Option<Mark>, quietSince: Option<Mark>, candidateSince: Option<Mark>)

  datatype Input =
    | Poll(status: TaskStatus, actionable: bool, errorSuppressed: bool, removing: bool, now: nat)
    | Silence(status: TaskStatus, actionable: bool, now: nat)

  /** A poll that finds the task asking for attention. */
  predicate Attends(i: Input) {
    && i.Poll? && !i.removing
    && (i.status.Waiting? || i.status.Error?)
    && i.actionable
    && !(i.status.Error? && i.errorSuppressed)
  }

  /** A poll that finds the task running, idle or unknown. */
  predicate IsQuiet(i: Input) {
    i.Poll? && !i.removing && !i.status.Waiting? && !i.status.Error?
  }

  /** An input that leaves every mark alone. */
  predicate IsInert(i: Input) {
    (i.Poll? && i.removing) || (i.Silence? && !i.actionable)
  }

  predicate Silences(i: Input) {
    i.Silence? && i.actionable
  }

  predicate Reached(mark: Option<Mark>, dwell: nat, now: nat) {
    mark.Some? && mark.value.At? && now >= mark.value.seconds + dwell
  }

  predicate Readable(mark: Option<Mark>) {
    mark.Some? && mark.value.At?
  }

  /** Whether the input produces a notification. */
  predicate Notifies(e: Episode, i: Input) {
    Attends(i) && e.lastStatus != Some(StatusName(i.status)) && Reached(e.candidateSince, NOTIFY_CONFIRMATION_DWELL, i.now)
  }

  function Next(e: Episode, i: Input): Episode {
    if IsInert(i) then e
    else if Silences(i) then Episode(Some(StatusName(i.status)), Some(At(i.now)), None, None)
    else if IsQuiet(i) then
      if e.lastStatus.None? then e.(candidateSince := None, quietSince := None)
      else if Reached(e.quietSince, EPISODE_CLEAR_DWELL, i.now) then Episode(None, None, None, None)
      else if Readable(e.quietSince) then e.(candidateSince := None)
      else e.(candidateSince := None, quietSince := Some(At(i.now)))
    else if !Attends(i) then e.(candidateSince := None)
    else if e.lastStatus == Some(StatusName(i.status)) then e.(quietSince := None, candidateSince := None)
    else if Notifies(e, i) then Episode(Some(StatusName(i.status)), Some(At(i.now)), None, None)
    else if Readable(e.candidateSince) then e.(quietSince := None)
    else e.(quietSince := None, candidateSince := Some(At(i.now)))
  }

  /** The detector as the code runs it, on the task's metadata. */
  class Task {
    var lastStatus: Option<string>
    var lastAt: Option<Mark>
    var quietSince: Option<Mark>
    var candidateSince: Option<Mark>

    function State(): Episode
      reads this
    {
      Episode(lastStatus, lastAt, quietSince, candidateSince)
    }

    constructor (e: Episode)
      ensures State() == e
    {
      lastStatus, lastAt, quietSince, candidateSince := e.lastStatus, e.lastAt, e.quietSince, e.candidateSince;
    }

    method ConfirmNotifyCandidate(now: nat) returns (confirmed: bool)
      modifies this
      ensures confirmed == Reached(old(candidateSince), NOTIFY_CONFIRMATION_DWELL, now)
      ensures State() == old(State()).(candidateSince :=
        if confirmed then None else if Readable(old(candidateSince)) then old(candidateSince) else Some(At(now)))
    {
      confirmed := false;
      if Readable(candidateSince) {
        if now >= candidateSince.value.seconds + NOTIFY_CONFIRMATION_DWELL {
          candidateSince := None;
          confirmed := true;
        }
      } else {
        candidateSince := Some(At(now));
      }
    }

    method ClearNotifyEpisodeIfQuiet(now: nat)
      modifies this
      ensures State() ==
        var e := old(State());
        if e.lastStatus.None? then e.(quietSince := None)
        else if Reached(e.quietSince, EPISODE_CLEAR_DWELL, now) then Episode(None, None, None, e.candidateSince)
        else if Readable(e.quietSince) then e
        else e.(quietSince := Some(At(now)))
    {
      if lastStatus.None? {
        quietSince := None;
      } else if Readable(quietSince) {
        if now >= quietSince.value.seconds + EPISODE_CLEAR_DWELL {
          lastStatus, lastAt, quietSince := None, None, None;
        }
      } else {
        quietSince := Some(At(now));
      }
    }

    method TakeAttentionTransitionAt(poll: Input) returns (transition: Option<TaskStatus>)
      requires poll.Poll?
      modifies this
      ensures State() == Next(old(State()), poll)
      ensures transition == if Notifies(old(State()), poll) then Some(poll.status) else None
    {
      transition := None;
      if poll.removing {
        return;
      }
      if poll.status.Waiting? || poll.status.Error? {
        if !poll.actionable || (poll.status.Error? && poll.errorSuppressed) {
          candidateSince := None;
          return;
        }
        quietSince := None;
        var stamp := StatusName(poll.status);
        if lastStatus == Some(stamp) {
          candidateSince := None;
          return;
        }
        var confirmed := ConfirmNotifyCandidate(poll.now);
        if confirmed {
          lastStatus, lastAt := Some(stamp), Some(At(poll.now));
          transition := Some(poll.status);
        }
      } else {
        candidateSince := None;
        ClearNotifyEpisodeIfQuiet(poll.now);
      }
    }

    method SilenceNotifyEpisode(status: TaskStatus, actionable: bool, now: nat)
      modifies this
      ensures State() == Next(old(State()), Silence(status, actionable, now))
    {
      if !actionable {
        return;
      }
      lastStatus, lastAt := Some(StatusName(status)), Some(At(now));
      quietSince, candidateSince := None, None;
    }
  }

  // Runs: an initial episode and the inputs that follow it.

  /** The episode after the first k inputs. */
  function StateAt(e: Episode, inputs: seq<Input>, k: nat): Episode
    requires k <= |inputs|
  {
    if k == 0 then e else Next(StateAt(e, inputs, k - 1), inputs[k - 1])
  }

  predicate NotifiesAt(e: Episode, inputs: seq<Input>, k: nat)
    requires k < |inputs|
  {
    Notifies(StateAt(e, inputs, k), inputs[k])
  }

  ghost predicate ClockRuns(inputs: seq<Input>) {
    forall i, j :: 0 <= i <= j < |inputs| ==> inputs[i].now <= inputs[j].now
  }

  /** Candidate and quiet marks never coexist, and a quiet mark implies a last-notified mark. */
  predicate Coherent(e: Episode) {
    && !(e.candidateSince.Some? && e.quietSince.Some?)
    && (e.quietSince.Some? ==> e.lastStatus.Some?)
  }

  lemma {:induction false} CoherentAlways(e: Episode, inputs: seq<Input>, k: nat)
    requires Coherent(e) && k <= |inputs|
    ensures Coherent(StateAt(e, inputs, k))
  {
    if k != 0 {
      CoherentAlways(e, inputs, k - 1);
    }
  }

  /** Input j neither disturbs a candidate nor is about a class already notified. */
  predicate Presses(e: Episode, inputs: seq<Input>, j: nat)
    requires j < |inputs|
  {
    IsInert(inputs[j])
    || (Attends(inputs[j]) && StateAt(e, inputs, j).lastStatus != Some(StatusName(inputs[j].status)))
  }

  /** A candidate mark was set by an attending poll and pressed on by every input since. */
  lemma {:induction false} CandidateOrigin(e: Episode, inputs: seq<Input>, from: nat, k: nat) returns (i: nat)
    requires from <= k <= |inputs|
    requires StateAt(e, inputs, from).candidateSince.None?
    requires Readable(StateAt(e, inputs, k).candidateSince)
    ensures from <= i < k
    ensures Attends(inputs[i]) && inputs[i].now == StateAt(e, inputs, k).candidateSince.value.seconds
    ensures forall j :: i <= j < k ==> Presses(e, inputs, j)
    ensures forall j :: i <= j < k ==> !NotifiesAt(e, inputs, j)
    decreases k
  {
    var before, input := StateAt(e, inputs, k - 1), inputs[k - 1];
    if Readable(before.candidateSince) {
      i := CandidateOrigin(e, inputs, from, k - 1);
    } else {
      i := k - 1;
    }
  }

  /**
   Soundness: a notification comes after at least 15 seconds in which every input was an attending
   poll of a class not already notified, or an input the detector ignores.
   */
  lemma {:induction false} ConfirmationIsSound(e: Episode, inputs: seq<Input>, from: nat, k: nat) returns (i: nat)
    requires from <= k < |inputs|
    requires StateAt(e, inputs, from).candidateSince.None?
    requires NotifiesAt(e, inputs, k)
    ensures from <= i < k
    ensures inputs[k].now >= inputs[i].now + NOTIFY_CONFIRMATION_DWELL
    ensures Attends(inputs[i]) && Attends(inputs[k])
    ensures forall j :: i <= j <= k ==> Presses(e, inputs, j)
    ensures forall j :: i <= j < k ==> !NotifiesAt(e, inputs, j)
  {
    i := CandidateOrigin(e, inputs, from, k);
  }

  /** Any two notifications are at least 15 seconds apart, whatever the episode started from. */
  lemma {:induction false} NotificationGap(e: Episode, inputs: seq<Input>, i: nat, j: nat)
    requires ClockRuns(inputs)
    requires i < j < |inputs|
    requires NotifiesAt(e, inputs, i) && NotifiesAt(e, inputs, j)
    ensures inputs[j].now >= inputs[i].now + NOTIFY_CONFIRMATION_DWELL
  {
    assert StateAt(e, inputs, i + 1) == Next(StateAt(e, inputs, i), inputs[i]);
    var c := ConfirmationIsSound(e, inputs, i + 1, j);
  }

  /** The notifications among the inputs lo..hi. */
  function CountNotifications(e: Episode, inputs: seq<Input>, lo: nat, hi: nat): nat
    requires lo <= hi <= |inputs|
  {
    if lo == hi then 0
    else CountNotifications(e, inputs, lo, hi - 1) + if NotifiesAt(e, inputs, hi - 1) then 1 else 0
  }

  lemma {:induction false} LastNotification(e: Episode, inputs: seq<Input>, lo: nat, hi: nat) returns (last: nat)
    requires ClockRuns(inputs)
    requires lo < hi <= |inputs|
    requires CountNotifications(e, inputs, lo, hi) > 0
    ensures lo <= last < hi && NotifiesAt(e, inputs, last)
    ensures inputs[last].now >= inputs[lo].now + NOTIFY_CONFIRMATION_DWELL * (CountNotifications(e, inputs, lo, hi) - 1)
    decreases hi
  {
    if NotifiesAt(e, inputs, hi - 1) {
      last := hi - 1;
      if CountNotifications(e, inputs, lo, hi - 1) > 0 {
        var previous := LastNotification(e, inputs, lo, hi - 1);
        NotificationGap(e, inputs, previous, last);
      }
    } else {
      last := LastNotification(e, inputs, lo, hi - 1);
    }
  }

  /** A window of w seconds holds at most 1 + w / 15 notifications. */
  lemma {:induction false} NotificationRate(e: Episode, inputs: seq<Input>, lo: nat, hi: nat, w: nat)
    requires ClockRuns(inputs)
    requires lo < hi <= |inputs|
    requires inputs[hi - 1].now <= inputs[lo].now + w
    ensures CountNotifications(e, inputs, lo, hi) <= 1 + w / NOTIFY_CONFIRMATION_DWELL
  {
    if CountNotifications(e, inputs, lo, hi) > 0 {
      var last := LastNotification(e, inputs, lo, hi);
      assert inputs[last].now <= inputs[hi - 1].now;
    }
  }

  /** A quiet mark was set by a quiet poll, and nothing attended or silenced since. */
  lemma {:induction false} QuietOrigin(e: Episode, inputs: seq<Input>, from: nat, k: nat) returns (a: nat)
    requires from <= k <= |inputs|
    requires StateAt(e, inputs, from).quietSince.None?
    requires Readable(StateAt(e, inputs, k).quietSince)
    ensures from <= a < k
    ensures IsQuiet(inputs[a]) && inputs[a].now == StateAt(e, inputs, k).quietSince.value.seconds
    ensures forall j :: a <= j < k ==> !Attends(inputs[j]) && !Silences(inputs[j])
    decreases k
  {
    var before := StateAt(e, inputs, k - 1);
    if Readable(before.quietSince) {
      a := QuietOrigin(e, inputs, from, k - 1);
    } else {
      a := k - 1;
    }
  }

  /** The first input that takes the last-notified class away. */
  lemma {:induction false} FirstForgotten(e: Episode, inputs: seq<Input>, from: nat, k: nat, stamp: string) returns (b: nat)
    requires from <= k <= |inputs|
    requires StateAt(e, inputs, from).lastStatus == Some(stamp)
    requires StateAt(e, inputs, k).lastStatus != Some(stamp)
    ensures from <= b < k
    ensures StateAt(e, inputs, b).lastStatus == Some(stamp)
    ensures StateAt(e, inputs, b + 1).lastStatus != Some(stamp)
    decreases k
  {
    if StateAt(e, inputs, k - 1).lastStatus == Some(stamp) {
      b := k - 1;
    } else {
      b := FirstForgotten(e, inputs, from, k - 1, stamp);
    }
  }

  /**
   Re-arming: once a class has been notified or silenced, it is not notified again, with no other
   notification or silencing in between, before a quiet streak of at least 30 seconds with no
   attending poll, followed by at least 15 seconds of confirmation.
   */
  lemma {:induction false} RearmNeedsQuiet(e: Episode, inputs: seq<Input>, from: nat, k: nat)
    returns (a: nat, b: nat, c: nat)
    requires from <= k < |inputs|
    requires StateAt(e, inputs, from).lastStatus == Some(StatusName(inputs[k].status))
    requires StateAt(e, inputs, from).quietSince.None?
    requires NotifiesAt(e, inputs, k)
    requires forall j :: from <= j < k ==> !NotifiesAt(e, inputs, j) && !Silences(inputs[j])
    ensures from <= a < b < c < k
    ensures IsQuiet(inputs[a]) && IsQuiet(inputs[b])
    ensures forall j :: a <= j <= b ==> !Attends(inputs[j])
    ensures inputs[b].now >= inputs[a].now + EPISODE_CLEAR_DWELL
    ensures Attends(inputs[c]) && inputs[k].now >= inputs[c].now + NOTIFY_CONFIRMATION_DWELL
  {
    b := FirstForgotten(e, inputs, from, k, StatusName(inputs[k].status));
    var before := StateAt(e, inputs, b);
    assert StateAt(e, inputs, b + 1) == Next(before, inputs[b]);
    assert !NotifiesAt(e, inputs, b) && !Silences(inputs[b]);
    a := QuietOrigin(e, inputs, from, b);
    c := ConfirmationIsSound(e, inputs, b + 1, k);
  }

  /**
   Two successive notifications of one class, with no silencing between, are at least 45 seconds
   apart and enclose a quiet streak of at least 30 seconds.
   */
  lemma {:induction false} SameClassGap(e: Episode, inputs: seq<Input>, i: nat, k: nat) returns (a: nat, b: nat)
    requires ClockRuns(inputs)
    requires i < k < |inputs|
    requires NotifiesAt(e, inputs, i) && NotifiesAt(e, inputs, k)
    requires inputs[i].status == inputs[k].status
    requires forall j :: i < j < k ==> !NotifiesAt(e, inputs, j) && !Silences(inputs[j])
    ensures i < a < b < k && IsQuiet(inputs[a]) && IsQuiet(inputs[b])
    ensures inputs[b].now >= inputs[a].now + EPISODE_CLEAR_DWELL
    ensures forall j :: a <= j <= b ==> !Attends(inputs[j])
    ensures inputs[k].now >= inputs[i].now + EPISODE_CLEAR_DWELL + NOTIFY_CONFIRMATION_DWELL
  {
    assert StateAt(e, inputs, i + 1) == Next(StateAt(e, inputs, i), inputs[i]);
    var c: nat;
    a, b, c := RearmNeedsQuiet(e, inputs, i + 1, k);
    assert inputs[i].now <= inputs[a].now && inputs[b].now <= inputs[c].now;
  }

  /**
   After silencing, the first notification is of another class or comes after a quiet streak of at
   least 30 seconds.
   */
  lemma {:induction false} SilencedUntilQuiet(e: Episode, inputs: seq<Input>, s: nat, k: nat)
    requires s < k < |inputs|
    requires Silences(inputs[s]) && NotifiesAt(e, inputs, k)
    requires forall j :: s < j < k ==> !NotifiesAt(e, inputs, j) && !Silences(inputs[j])
    ensures
      || inputs[k].status != inputs[s].status
      || exists a, b :: s < a < b < k && IsQuiet(inputs[a]) && IsQuiet(inputs[b])
                     && inputs[b].now >= inputs[a].now + EPISODE_CLEAR_DWELL
                     && forall j :: a <= j <= b ==> !Attends(inputs[j])
  {
    if inputs[k].status == inputs[s].status {
      assert StateAt(e, inputs, s + 1) == Next(StateAt(e, inputs, s), inputs[s]);
      var a, b, c := RearmNeedsQuiet(e, inputs, s + 1, k);
    }
  }

  /** The inputs lo..hi all attend, in a class or classes not notified at lo. */
  ghost predicate Held(e: Episode, inputs: seq<Input>, lo: nat, hi: nat)
    requires lo <= hi <= |inputs|
  {
    forall j :: lo <= j < hi ==>
      Attends(inputs[j]) && StateAt(e, inputs, lo).lastStatus != Some(StatusName(inputs[j].status))
  }

  /** The instant a hold that starts with input lo counts from. */
  function HeldSince(e: Episode, inputs: seq<Input>, lo: nat): nat
    requires lo < |inputs|
  {
    var mark := StateAt(e, inputs, lo).candidateSince;
    if Readable(mark) then mark.value.seconds else inputs[lo].now
  }

  lemma {:induction false} HoldPending(e: Episode, inputs: seq<Input>, lo: nat, k: nat)
    requires lo < k <= |inputs|
    requires Held(e, inputs, lo, k)
    requires forall j :: lo <= j < k ==> inputs[j].now < HeldSince(e, inputs, lo) + NOTIFY_CONFIRMATION_DWELL
    ensures StateAt(e, inputs, k).candidateSince == Some(At(HeldSince(e, inputs, lo)))
    ensures StateAt(e, inputs, k).lastStatus == StateAt(e, inputs, lo).lastStatus
    ensures CountNotifications(e, inputs, lo, k) == 0
    decreases k
  {
    if k > lo + 1 {
      HoldPending(e, inputs, lo, k - 1);
    }
    assert Attends(inputs[k - 1]);
  }

  lemma {:induction false} NoMoreOfClass(e: Episode, inputs: seq<Input>, lo: nat, hi: nat, status: TaskStatus)
    requires lo <= hi <= |inputs|
    requires StateAt(e, inputs, lo).lastStatus == Some(StatusName(status))
    requires forall j :: lo <= j < hi ==> Attends(inputs[j]) && inputs[j].status == status
    ensures StateAt(e, inputs, hi).lastStatus == Some(StatusName(status))
    ensures CountNotifications(e, inputs, lo, hi) == 0
    decreases hi
  {
    if lo < hi {
      NoMoreOfClass(e, inputs, lo, hi - 1, status);
      assert Attends(inputs[hi - 1]) && inputs[hi - 1].status == status;
    }
  }

  lemma {:induction false} CountSplits(e: Episode, inputs: seq<Input>, lo: nat, mid: nat, hi: nat)
    requires lo <= mid <= hi <= |inputs|
    ensures CountNotifications(e, inputs, lo, hi)
         == CountNotifications(e, inputs, lo, mid) + CountNotifications(e, inputs, mid, hi)
    decreases hi
  {
    if mid < hi {
      CountSplits(e, inputs, lo, mid, hi - 1);
    }
  }

  /** The first input of a hold that is old enough notifies. */
  lemma {:induction false} HoldNotifies(e: Episode, inputs: seq<Input>, lo: nat, k: nat)
    requires lo <= k < |inputs|
    requires Held(e, inputs, lo, k + 1)
    requires forall j :: lo <= j < k ==> inputs[j].now < HeldSince(e, inputs, lo) + NOTIFY_CONFIRMATION_DWELL
    requires inputs[k].now >= HeldSince(e, inputs, lo) + NOTIFY_CONFIRMATION_DWELL
    ensures NotifiesAt(e, inputs, k) && CountNotifications(e, inputs, lo, k) == 0
  {
    if lo < k {
      HoldPending(e, inputs, lo, k);
    }
    assert Attends(inputs[k]);
  }

  /**
   Completeness: a class not notified yet and held by attending polls notifies exactly once if it
   is held for the full 15 seconds, and not at all otherwise.
   */
  lemma {:induction false} ConfirmationIsComplete(e: Episode, inputs: seq<Input>, lo: nat, hi: nat, status: TaskStatus)
    requires ClockRuns(inputs)
    requires lo < hi <= |inputs|
    requires forall j :: lo <= j < hi ==> Attends(inputs[j]) && inputs[j].status == status
    requires StateAt(e, inputs, lo).lastStatus != Some(StatusName(status))
    ensures CountNotifications(e, inputs, lo, hi)
         == if inputs[hi - 1].now >= HeldSince(e, inputs, lo) + NOTIFY_CONFIRMATION_DWELL then 1 else 0
  {
    var due := HeldSince(e, inputs, lo) + NOTIFY_CONFIRMATION_DWELL;
    if inputs[hi - 1].now < due {
      HoldPending(e, inputs, lo, hi);
    } else {
      var k := lo;
      while inputs[k].now < due
        invariant lo <= k < hi
        invariant forall j :: lo <= j < k ==> inputs[j].now < due
        decreases hi - k
      {
        k := k + 1;
      }
      HoldNotifies(e, inputs, lo, k);
      assert StateAt(e, inputs, k + 1) == Next(StateAt(e, inputs, k), inputs[k]);
      NoMoreOfClass(e, inputs, k + 1, hi, status);
      CountSplits(e, inputs, lo, k + 1, hi);
    }
  }
}
