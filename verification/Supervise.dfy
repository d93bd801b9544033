/**
 Bounded retention of supervisor events (crates/ajax-cli/src/supervise.rs).

 The buffer keeps at most 256 events.  A full buffer makes room by dropping its oldest
 process-output line, or its oldest event when it holds no output line at all.
 */
module Supervise {
  import opened Options
  import opened Sequences

  const MAX_RETAINED_SUPERVISOR_EVENTS: nat := 256

  datatype MonitorEvent = Stdout(line: string) | Stderr(line: string) | Structured(payload: string)

  predicate IsOutput(e: MonitorEvent) {
    e.Stdout? || e.Stderr?
  }

  /** Where the first output line of s sits; |s| when there is none. */
  function FirstOutput(s: seq<MonitorEvent>): (k: nat)
    ensures k <= |s|
    ensures forall i :: 0 <= i < k ==> !IsOutput(s[i])
    ensures k < |s| ==> IsOutput(s[k])
  {
    if s == [] || IsOutput(s[0]) then 0 else 1 + FirstOutput(s[1..])
  }

  function RemoveAt<T>(s: seq<T>, k: nat): (r: seq<T>)
    requires k < |s|
  {
    s[..k] + s[k + 1..]
  }

  function Retained(s: seq<MonitorEvent>, e: MonitorEvent): seq<MonitorEvent> {
    if |s| < MAX_RETAINED_SUPERVISOR_EVENTS then s + [e]
    else RemoveAt(s, if FirstOutput(s) < |s| then FirstOutput(s) else 0) + [e]
  }

  /** The scan for the first output line. */
  method PositionOfOutput(s: seq<MonitorEvent>) returns (k: nat)
    ensures k == FirstOutput(s)
  {
    k := 0;
    while k < |s| && !IsOutput(s[k])
      invariant k <= |s|
      invariant forall i :: 0 <= i < k ==> !IsOutput(s[i])
    {
      k := k + 1;
    }
  }

  class EventBuffer {
    var events: seq<MonitorEvent>

    constructor ()
      ensures events == []
    {
      events := [];
    }

    method Retain(event: MonitorEvent)
      modifies this
      ensures events == Retained(old(events), event)
    {
      if |events| >= MAX_RETAINED_SUPERVISOR_EVENTS {
        var dropIndex := PositionOfOutput(events);
        if dropIndex == |events| {
          dropIndex := 0;
        }
        events := events[..dropIndex] + events[dropIndex + 1..];
      }
      events := events + [event];
    }
  }

  /** The buffer after a whole stream of events. */
  function Feed(xs: seq<MonitorEvent>): seq<MonitorEvent> {
    if xs == [] then [] else Retained(Feed(xs[..|xs| - 1]), xs[|xs| - 1])
  }

  /** The loop of supervise_command_output_and_events, receiving one event at a time. */
  method Receive(stream: seq<MonitorEvent>) returns (events: seq<MonitorEvent>)
    ensures events == Feed(stream)
  {
    var buffer := new EventBuffer();
    for i := 0 to |stream|
      invariant fresh(buffer)
      invariant buffer.events == Feed(stream[..i])
    {
      assert stream[..i + 1][..i] == stream[..i];
      buffer.Retain(stream[i]);
    }
    assert stream[..|stream|] == stream;
    events := buffer.events;
  }

  lemma {:induction false} FeedLength(xs: seq<MonitorEvent>)
    ensures |Feed(xs)| == Min(|xs|, MAX_RETAINED_SUPERVISOR_EVENTS)
  {
    if xs != [] {
      FeedLength(xs[..|xs| - 1]);
    }
  }

  /** at lists, in increasing order, the positions of t that s consists of. */
  ghost predicate Embeds<T>(at: seq<nat>, s: seq<T>, t: seq<T>) {
    && |at| == |s|
    && (forall i :: 0 <= i < |at| ==> at[i] < |t| && s[i] == t[at[i]])
    && (forall i, j :: 0 <= i < j < |at| ==> at[i] < at[j])
  }

  lemma {:induction false} EmbedsRemoved<T>(at: seq<nat>, s: seq<T>, t: seq<T>, k: nat)
    requires Embeds(at, s, t) && k < |s|
    ensures Embeds(RemoveAt(at, k), RemoveAt(s, k), t)
  {
    var at', s' := RemoveAt(at, k), RemoveAt(s, k);
    assert forall i :: 0 <= i < |at'| ==> at'[i] == at[if i < k then i else i + 1];
    assert forall i :: 0 <= i < |s'| ==> s'[i] == s[if i < k then i else i + 1];
  }

  lemma {:induction false} EmbedsAppended<T>(at: seq<nat>, s: seq<T>, t: seq<T>, e: T)
    requires Embeds(at, s, t)
    ensures Embeds(at + [|t|], s + [e], t + [e])
  {
  }

  /** The buffer is a subsequence of the stream and its last event is the stream's last. */
  lemma {:induction false} FeedIsSubsequence(xs: seq<MonitorEvent>) returns (at: seq<nat>)
    ensures Embeds(at, Feed(xs), xs)
    ensures xs != [] ==> at != [] && at[|at| - 1] == |xs| - 1
  {
    if xs == [] {
      at := [];
    } else {
      var stream, e := xs[..|xs| - 1], xs[|xs| - 1];
      at := FeedIsSubsequence(stream);
      assert xs == stream + [e];
      at := RetainedEmbeds(at, Feed(stream), stream, e);
    }
  }

  lemma {:induction false} RetainedEmbeds(at: seq<nat>, kept: seq<MonitorEvent>, stream: seq<MonitorEvent>, e: MonitorEvent)
    returns (at': seq<nat>)
    requires Embeds(at, kept, stream)
    ensures Embeds(at', Retained(kept, e), stream + [e])
    ensures at' != [] && at'[|at'| - 1] == |stream|
  {
    if |kept| < MAX_RETAINED_SUPERVISOR_EVENTS {
      EmbedsAppended(at, kept, stream, e);
      at' := at + [|stream|];
    } else {
      var k := if FirstOutput(kept) < |kept| then FirstOutput(kept) else 0;
      EmbedsRemoved(at, kept, stream, k);
      EmbedsAppended(RemoveAt(at, k), RemoveAt(kept, k), stream, e);
      at' := RemoveAt(at, k) + [|stream|];
    }
  }

  /** xs without its oldest k output lines. */
  function DropOutputs(xs: seq<MonitorEvent>, k: nat): seq<MonitorEvent> {
    if k == 0 || xs == [] then xs
    else if IsOutput(xs[0]) then DropOutputs(xs[1..], k - 1)
    else [xs[0]] + DropOutputs(xs[1..], k)
  }

  function CountOutputs(xs: seq<MonitorEvent>): nat {
    if xs == [] then 0 else CountOutputs(xs[..|xs| - 1]) + if IsOutput(xs[|xs| - 1]) then 1 else 0
  }

  /** How many events of xs are not output lines. */
  function CountStructured(xs: seq<MonitorEvent>): nat {
    if xs == [] then 0 else CountStructured(xs[..|xs| - 1]) + if IsOutput(xs[|xs| - 1]) then 0 else 1
  }

  lemma {:induction false} CountsSplit(xs: seq<MonitorEvent>, ys: seq<MonitorEvent>)
    ensures CountStructured(xs + ys) == CountStructured(xs) + CountStructured(ys)
    ensures CountOutputs(xs + ys) == CountOutputs(xs) + CountOutputs(ys)
    ensures CountOutputs(ys) + CountStructured(ys) == |ys|
  {
    if ys == [] {
      assert xs + ys == xs;
    } else {
      assert (xs + ys)[..|xs + ys| - 1] == xs + ys[..|ys| - 1];
      CountsSplit(xs, ys[..|ys| - 1]);
    }
  }

  lemma {:induction false} HeadCount(xs: seq<MonitorEvent>)
    requires xs != []
    ensures CountStructured(xs) == CountStructured(xs[1..]) + if IsOutput(xs[0]) then 0 else 1
    ensures CountOutputs(xs) == CountOutputs(xs[1..]) + if IsOutput(xs[0]) then 1 else 0
  {
    assert xs == [xs[0]] + xs[1..];
    CountsSplit([xs[0]], xs[1..]);
    assert [xs[0]][..0] == [];
  }

  lemma {:induction false} NoOutputsCounted(xs: seq<MonitorEvent>)
    ensures FirstOutput(xs) == |xs| <==> CountOutputs(xs) == 0
  {
    if xs != [] {
      HeadCount(xs);
      NoOutputsCounted(xs[1..]);
    }
  }

  lemma {:induction false} DropOutputsCounts(xs: seq<MonitorEvent>, k: nat)
    requires k <= CountOutputs(xs)
    ensures CountStructured(DropOutputs(xs, k)) == CountStructured(xs)
    ensures CountOutputs(DropOutputs(xs, k)) == CountOutputs(xs) - k
  {
    if k != 0 && xs != [] {
      HeadCount(xs);
      if IsOutput(xs[0]) {
        DropOutputsCounts(xs[1..], k - 1);
      } else {
        DropOutputsCounts(xs[1..], k);
        CountsSplit([xs[0]], DropOutputs(xs[1..], k));
        assert [xs[0]][..0] == [];
      }
    }
  }

  lemma {:induction false} RemoveAtCons<T>(s: seq<T>, k: nat)
    requires 0 < k < |s|
    ensures RemoveAt(s, k) == [s[0]] + RemoveAt(s[1..], k - 1)
  {
    assert s[..k] == [s[0]] + s[1..][..k - 1];
    assert s[k + 1..] == s[1..][k - 1 + 1..];
  }

  lemma {:induction false} RemoveFirstOutput(s: seq<MonitorEvent>)
    requires FirstOutput(s) < |s|
    ensures RemoveAt(s, FirstOutput(s)) == DropOutputs(s, 1)
  {
    if !IsOutput(s[0]) {
      RemoveFirstOutput(s[1..]);
      RemoveAtCons(s, FirstOutput(s));
    }
  }

  lemma {:induction false} DropOneMore(xs: seq<MonitorEvent>, k: nat)
    ensures DropOutputs(DropOutputs(xs, k), 1) == DropOutputs(xs, k + 1)
  {
    if k != 0 && xs != [] {
      if IsOutput(xs[0]) {
        DropOneMore(xs[1..], k - 1);
      } else {
        DropOneMore(xs[1..], k);
        var d := DropOutputs(xs, k);
        assert d[1..] == DropOutputs(xs[1..], k);
      }
    }
  }

  lemma {:induction false} DropOutputsAppend(xs: seq<MonitorEvent>, e: MonitorEvent, k: nat)
    requires k <= CountOutputs(xs)
    ensures DropOutputs(xs + [e], k) == DropOutputs(xs, k) + [e]
  {
    if k != 0 && xs != [] {
      HeadCount(xs);
      assert (xs + [e])[1..] == xs[1..] + [e];
      DropOutputsAppend(xs[1..], e, if IsOutput(xs[0]) then k - 1 else k);
    }
  }

  function Excess(n: nat): nat {
    Max(0, n - MAX_RETAINED_SUPERVISOR_EVENTS)
  }

  lemma {:induction false} CountsAppend(xs: seq<MonitorEvent>, e: MonitorEvent)
    ensures CountStructured(xs + [e]) == CountStructured(xs) + if IsOutput(e) then 0 else 1
    ensures CountOutputs(xs + [e]) == CountOutputs(xs) + if IsOutput(e) then 1 else 0
  {
    assert (xs + [e])[..|xs|] == xs;
  }

  lemma {:induction false} CountsAddUp(xs: seq<MonitorEvent>)
    ensures CountOutputs(xs) + CountStructured(xs) == |xs|
  {
    CountsSplit([], xs);
  }

  /** The room a full buffer makes for the next event is one more dropped output line of the stream. */
  lemma {:induction false} RetainedDropsOutput(xs: seq<MonitorEvent>, e: MonitorEvent, k: nat)
    requires k < CountOutputs(xs)
    requires |DropOutputs(xs, k)| >= MAX_RETAINED_SUPERVISOR_EVENTS
    ensures Retained(DropOutputs(xs, k), e) == DropOutputs(xs + [e], k + 1)
  {
    DropOutputsCounts(xs, k);
    NoOutputsCounted(DropOutputs(xs, k));
    RemoveFirstOutput(DropOutputs(xs, k));
    DropOneMore(xs, k);
    DropOutputsAppend(xs, e, k + 1);
  }

  /** The streams every eviction of which finds an output line to drop. */
  predicate LeavesRoom(xs: seq<MonitorEvent>) {
    |xs| <= MAX_RETAINED_SUPERVISOR_EVENTS || CountStructured(xs[..|xs| - 1]) < MAX_RETAINED_SUPERVISOR_EVENTS
  }

  lemma {:induction false} LeavesRoomEarlier(xs: seq<MonitorEvent>, e: MonitorEvent)
    requires LeavesRoom(xs + [e])
    ensures LeavesRoom(xs)
  {
    assert (xs + [e])[..|xs|] == xs;
    if xs != [] {
      CountsAppend(xs[..|xs| - 1], xs[|xs| - 1]);
      InitAndLast(xs);
    }
  }

  /** While room can always be made by dropping output, the buffer is the stream without its oldest outputs. */
  lemma {:induction false} FeedDropsOutputs(xs: seq<MonitorEvent>)
    requires LeavesRoom(xs)
    ensures Excess(|xs|) <= CountOutputs(xs)
    ensures Feed(xs) == DropOutputs(xs, Excess(|xs|))
  {
    if xs != [] {
      var stream, e := xs[..|xs| - 1], xs[|xs| - 1];
      assert xs == stream + [e];
      LeavesRoomEarlier(stream, e);
      FeedDropsOutputs(stream);
      FeedLength(stream);
      CountsAppend(stream, e);
      CountsAddUp(stream);
      var k := Excess(|stream|);
      if |stream| < MAX_RETAINED_SUPERVISOR_EVENTS {
        DropOutputsAppend(stream, e, k);
      } else {
        RetainedDropsOutput(stream, e, k);
      }
    }
  }

  /** A buffer that dropped output lines only holds every structured event of its stream. */
  lemma {:induction false} ClosedFormLeavesRoom(xs: seq<MonitorEvent>)
    requires xs != [] && Excess(|xs|) <= CountOutputs(xs)
    requires Feed(xs) == DropOutputs(xs, Excess(|xs|))
    ensures LeavesRoom(xs)
  {
    var stream, e := xs[..|xs| - 1], xs[|xs| - 1];
    assert xs == stream + [e];
    DropOutputsCounts(xs, Excess(|xs|));
    FeedLength(xs);
    var room := Feed(xs)[..|Feed(xs)| - 1];
    assert Feed(xs) == room + [e];
    CountsAppend(room, e);
    CountsAppend(stream, e);
    CountsAddUp(room);
  }

  /**
   Streaming eviction equals the closed form "drop the oldest surplus output lines" exactly for the
   streams that fit, or whose events before the last include at most 255 structured ones.
   */
  lemma {:induction false} EvictionClosedForm(xs: seq<MonitorEvent>)
    ensures
      (Excess(|xs|) <= CountOutputs(xs) && Feed(xs) == DropOutputs(xs, Excess(|xs|)))
      <==> (|xs| <= MAX_RETAINED_SUPERVISOR_EVENTS
            || CountStructured(xs[..|xs| - 1]) < MAX_RETAINED_SUPERVISOR_EVENTS)
  {
    if LeavesRoom(xs) {
      FeedDropsOutputs(xs);
    } else if Excess(|xs|) <= CountOutputs(xs) && Feed(xs) == DropOutputs(xs, Excess(|xs|)) {
      ClosedFormLeavesRoom(xs);
    }
  }

  // The other streams.

  /** The structured events of xs, in order. */
  function StructuredOf(xs: seq<MonitorEvent>): seq<MonitorEvent> {
    if xs == [] then []
    else StructuredOf(xs[..|xs| - 1]) + if xs[|xs| - 1].Structured? then [xs[|xs| - 1]] else []
  }

  function Last<T>(s: seq<T>, n: nat): seq<T> {
    if |s| <= n then s else s[|s| - n..]
  }

  lemma {:induction false} StructuredAreStructured(xs: seq<MonitorEvent>)
    ensures |StructuredOf(xs)| == CountStructured(xs)
    ensures forall e :: e in StructuredOf(xs) ==> e.Structured?
  {
    if xs != [] {
      StructuredAreStructured(xs[..|xs| - 1]);
    }
  }

  lemma {:induction false} StructuredNext(xs: seq<MonitorEvent>, e: MonitorEvent)
    ensures StructuredOf(xs + [e]) == StructuredOf(xs) + if e.Structured? then [e] else []
  {
    assert (xs + [e])[..|xs|] == xs;
  }

  lemma {:induction false} AllStructured(xs: seq<MonitorEvent>)
    requires CountOutputs(xs) == 0
    ensures StructuredOf(xs) == xs
  {
    if xs != [] {
      AllStructured(xs[..|xs| - 1]);
      InitAndLast(xs);
    }
  }

  lemma {:induction false} StructuredSplit(xs: seq<MonitorEvent>, ys: seq<MonitorEvent>)
    ensures StructuredOf(xs + ys) == StructuredOf(xs) + StructuredOf(ys)
  {
    if ys == [] {
      assert xs + ys == xs;
    } else {
      var init, e := ys[..|ys| - 1], ys[|ys| - 1];
      assert xs + ys == (xs + init) + [e];
      StructuredSplit(xs, init);
      StructuredNext(xs + init, e);
    }
  }

  /** Dropping output lines leaves the structured events. */
  lemma {:induction false} DropsKeepStructured(xs: seq<MonitorEvent>, k: nat)
    ensures StructuredOf(DropOutputs(xs, k)) == StructuredOf(xs)
  {
    if k != 0 && xs != [] {
      assert xs == [xs[0]] + xs[1..];
      StructuredSplit([xs[0]], xs[1..]);
      assert [xs[0]][..0] == [];
      if IsOutput(xs[0]) {
        DropsKeepStructured(xs[1..], k - 1);
      } else {
        DropsKeepStructured(xs[1..], k);
        StructuredSplit([xs[0]], DropOutputs(xs[1..], k));
      }
    }
  }

  lemma {:induction false} FirstOutputAfter(s: seq<MonitorEvent>, t: seq<MonitorEvent>)
    requires forall x :: x in s ==> x.Structured?
    requires t == [] || IsOutput(t[0])
    ensures FirstOutput(s + t) == |s|
  {
    if s == [] {
      assert s + t == t;
    } else {
      assert s[0] in s && (s + t)[1..] == s[1..] + t;
      FirstOutputAfter(s[1..], t);
    }
  }

  /** A full buffer of structured events loses its oldest. */
  lemma {:induction false} RetainedAmongStructured(s: seq<MonitorEvent>, e: MonitorEvent)
    requires |s| == MAX_RETAINED_SUPERVISOR_EVENTS
    requires forall x :: x in s ==> x.Structured?
    ensures Retained(s, e) == s[1..] + [e]
  {
    FirstOutputAfter(s, []);
    assert s + [] == s;
    assert s[..0] + s[1..] == s[1..];
  }

  /** A full buffer whose only output line is its last event loses that. */
  lemma {:induction false} RetainedAfterOutput(s: seq<MonitorEvent>, f: MonitorEvent, e: MonitorEvent)
    requires |s| == MAX_RETAINED_SUPERVISOR_EVENTS - 1
    requires forall x :: x in s ==> x.Structured?
    requires IsOutput(f)
    ensures Retained(s + [f], e) == s + [e]
  {
    FirstOutputAfter(s, [f]);
    assert (s + [f])[..|s|] + (s + [f])[|s| + 1..] == s;
  }

  /** The buffer once structured events alone fill it: the latest 255 of them before the last event, and that. */
  function Overflowed(xs: seq<MonitorEvent>): seq<MonitorEvent>
    requires xs != []
  {
    Last(StructuredOf(xs[..|xs| - 1]), MAX_RETAINED_SUPERVISOR_EVENTS - 1) + [xs[|xs| - 1]]
  }

  /** A buffer that could hold all structured events of its stream, and is full, holds just those. */
  lemma {:induction false} FullOfStructured(stream: seq<MonitorEvent>)
    requires LeavesRoom(stream) && CountStructured(stream) >= 256
    ensures CountStructured(stream) == 256 && Feed(stream) == StructuredOf(stream)
  {
    FeedDropsOutputs(stream);
    FeedLength(stream);
    DropOutputsCounts(stream, Excess(|stream|));
    CountsAddUp(stream);
    CountsAddUp(Feed(stream));
    AllStructured(Feed(stream));
    DropsKeepStructured(stream, Excess(|stream|));
  }

  lemma {:induction false} FeedNext(stream: seq<MonitorEvent>, e: MonitorEvent)
    ensures Feed(stream + [e]) == Retained(Feed(stream), e)
  {
    assert (stream + [e])[..|stream|] == stream;
  }

  lemma {:induction false} OverflowBegins(stream: seq<MonitorEvent>, e: MonitorEvent)
    requires LeavesRoom(stream) && !LeavesRoom(stream + [e])
    ensures Feed(stream + [e]) == Overflowed(stream + [e])
  {
    assert (stream + [e])[..|stream|] == stream;
    FullOfStructured(stream);
    StructuredAreStructured(stream);
    RetainedAmongStructured(Feed(stream), e);
    FeedNext(stream, e);
  }

  lemma {:induction false} OverflowAfterOutput(before: seq<MonitorEvent>, f: MonitorEvent, e: MonitorEvent)
    requires CountStructured(before) >= 255 && IsOutput(f)
    ensures Retained(Last(StructuredOf(before), 255) + [f], e) == Last(StructuredOf(before + [f]), 255) + [e]
  {
    StructuredAreStructured(before);
    StructuredNext(before, f);
    var kept := Last(StructuredOf(before), 255);
    assert forall x :: x in kept ==> x in StructuredOf(before);
    RetainedAfterOutput(kept, f, e);
    assert StructuredOf(before) + [] == StructuredOf(before);
  }

  lemma {:induction false} OverflowAfterStructured(before: seq<MonitorEvent>, f: MonitorEvent, e: MonitorEvent)
    requires CountStructured(before) >= 255 && f.Structured?
    ensures Retained(Last(StructuredOf(before), 255) + [f], e) == Last(StructuredOf(before + [f]), 255) + [e]
  {
    StructuredAreStructured(before);
    StructuredNext(before, f);
    var all := StructuredOf(before);
    var kept := Last(all, 255);
    assert forall x :: x in kept ==> x in all;
    RetainedAmongStructured(kept + [f], e);
    LastNext(all, f, 255);
  }

  lemma {:induction false} LastNext<T>(s: seq<T>, x: T, n: nat)
    requires 0 < n <= |s|
    ensures (Last(s, n) + [x])[1..] == Last(s + [x], n)
  {
  }

  /** What the buffer holds once structured events alone filled it. */
  lemma {:induction false} OverflowHolds(xs: seq<MonitorEvent>)
    requires !LeavesRoom(xs)
    ensures Feed(xs) == Overflowed(xs)
  {
    var stream, e := xs[..|xs| - 1], xs[|xs| - 1];
    assert xs == stream + [e];
    if LeavesRoom(stream) {
      OverflowBegins(stream, e);
    } else {
      OverflowHolds(stream);
      var before, f := stream[..|stream| - 1], stream[|stream| - 1];
      assert stream == before + [f];
      if IsOutput(f) {
        OverflowAfterOutput(before, f, e);
      } else {
        OverflowAfterStructured(before, f, e);
      }
    }
  }

  /**
   What a buffer holds of any stream, in closed form: the stream without its oldest surplus output lines,
   or, once 256 structured events came before the last event, the latest 255 of them and that event.
   */
  lemma {:induction false} FeedInClosedForm(xs: seq<MonitorEvent>)
    ensures
      if |xs| <= 256 || CountStructured(xs[..|xs| - 1]) < 256 then Feed(xs) == DropOutputs(xs, Excess(|xs|))
      else Feed(xs) == Last(StructuredOf(xs[..|xs| - 1]), 255) + [xs[|xs| - 1]]
  {
    if LeavesRoom(xs) {
      FeedDropsOutputs(xs);
    } else {
      OverflowHolds(xs);
    }
  }

  lemma {:induction false} NoneIsOutput(xs: seq<MonitorEvent>)
    requires forall e :: e in xs ==> e.Structured?
    ensures CountOutputs(xs) == 0
  {
    if xs != [] {
      assert xs[|xs| - 1] in xs;
      NoneIsOutput(xs[..|xs| - 1]);
    }
  }

  /** Of a stream of structured events the buffer holds the last 256. */
  lemma {:induction false} StructuredStreamKeepsLast(xs: seq<MonitorEvent>)
    requires forall e :: e in xs ==> e.Structured?
    ensures Feed(xs) == Last(xs, 256)
  {
    FeedInClosedForm(xs);
    if |xs| > 256 {
      var init := xs[..|xs| - 1];
      NoneIsOutput(init);
      CountsAddUp(init);
      AllStructured(init);
      assert Last(init, 255) + [xs[|xs| - 1]] == Last(xs, 256);
    }
  }
}
