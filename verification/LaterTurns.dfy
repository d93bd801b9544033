/**
 A run's later turns.  The fold remembers for good that some turn of the run has settled, so after the first
 turn a finished tool can make an open turn look done, and an answered request can go on looking open
 (crates/ajax-core/src/canonical_agent_event.rs:134-252).
 */
module LaterTurns {
  import opened Options
  import opened CanonicalEvents
  import opened EventPhases
  import opened Sequences
  import AgentStatus

  /** A turn started at s and has neither settled nor ended with its session. */
  ghost predicate OpenTurn(events: Log, s: nat) {
    && s < |events| && events[s].kind.TurnStarted?
    && forall j :: s < j < |events| ==> !events[j].kind.TurnSettled? && !events[j].kind.SessionClosed?
  }

  /** The k-th event finishes the last open tool, with nothing pending, and what follows does not set the run going again. */
  ghost predicate RestsSince(events: Log, k: nat)
    requires k < |events|
  {
    && FinishesLast(events[..k], events[k]) && !Pending(events[..k])
    && forall j :: k < j < |events| ==>
         && !Wakes(events[j]) && !Asks(events[j])
         && !(FinishesLast(events[..j], events[j]) && Pending(events[..j]))
  }

  lemma {:induction false} TurnOverSince(events: Log, s: nat, k: nat)
    requires OpenTurn(events, s) && s < k <= |events|
    ensures TurnOver(events[..k]) <==> TurnOver(events[..s])
  {
    if e :| e in events[..k] && e.kind.TurnSettled? {
      var j :| 0 <= j < k && events[j] == e;
      assert j < s && events[..s][j] == e;
    }
    if e :| e in events[..s] && e.kind.TurnSettled? {
      var j :| 0 <= j < s && events[j] == e;
      assert events[..k][j] == e;
    }
  }

  /** An open turn has not failed. */
  lemma {:induction false} OpenTurnHasNotFailed(events: Log, s: nat, k: nat)
    requires OpenTurn(events, s) && s < k <= |events|
    ensures !RunFailed(events[..k])
  {
    var upTo := events[..k];
    assert upTo[s] == events[s] && MovesOn(upTo[..s], upTo[s]);
    forall i | 0 <= i < |upTo|
      ensures !StandsSince(upTo, Fails, MovesOn, i)
    {
      assert upTo[i] == events[i];
    }
  }

  lemma {:induction false} SettlesInOpenTurn(events: Log, s: nat, k: nat)
    requires OpenTurn(events, s) && s < k < |events|
    ensures Settles(events[..k], events[k])
       <==> FinishesLast(events[..k], events[k]) && TurnOver(events[..s]) && !Pending(events[..k])
    ensures TurnOver(events[..s]) ==>
      (Unsettles(events[..k], events[k])
       <==> Wakes(events[k]) || Asks(events[k]) || (FinishesLast(events[..k], events[k]) && Pending(events[..k])))
  {
    TurnOverSince(events, s, k);
    OpenTurnHasNotFailed(events, s, k);
  }

  /**
   Exactly when a run whose turn is open is reported as done: an earlier turn of the run settled, and a finish
   in the open one left no tool open and nothing pending, with nothing to set the run going since.
   */
  lemma {:induction false} OpenTurnLooksDoneExactly(events: Log, s: nat)
    requires OpenTurn(events, s)
    ensures Fold(events).phase.Settled?
       <==> TurnOver(events[..s]) && exists k :: s < k < |events| && RestsSince(events, k)
  {
    SettledTold(events);
    if RunSettled(events) {
      var k :| 0 <= k < |events| && StandsSince(events, Settles, Unsettles, k);
      SettledSinceStart(events, s, k);
    }
    if TurnOver(events[..s]) {
      if k :| s < k < |events| && RestsSince(events, k) {
        RestingIsSettled(events, s, k);
      }
    }
  }

  lemma {:induction false} SettledSinceStart(events: Log, s: nat, k: nat)
    requires OpenTurn(events, s) && k < |events| && StandsSince(events, Settles, Unsettles, k)
    ensures TurnOver(events[..s]) && s < k && RestsSince(events, k)
  {
    assert Wakes(events[s]);
    assert k < s ==> !Unsettles(events[..s], events[s]);
    assert k != s;
    SettlesInOpenTurn(events, s, k);
    forall j | k < j < |events|
      ensures !Wakes(events[j]) && !Asks(events[j]) && !(FinishesLast(events[..j], events[j]) && Pending(events[..j]))
    {
      SettlesInOpenTurn(events, s, j);
      assert !Unsettles(events[..j], events[j]);
    }
  }

  lemma {:induction false} RestingIsSettled(events: Log, s: nat, k: nat)
    requires OpenTurn(events, s) && s < k < |events| && RestsSince(events, k) && TurnOver(events[..s])
    ensures RunSettled(events)
  {
    SettlesInOpenTurn(events, s, k);
    forall j | k < j < |events|
      ensures !Unsettles(events[..j], events[j])
    {
      SettlesInOpenTurn(events, s, j);
    }
    assert StandsSince(events, Settles, Unsettles, k);
  }

  /** An answered request leaves the run blocked exactly if it was, and some turn of the run has settled. */
  lemma {:induction false} AnswerLeavesBlockedExactly(events: Log, answer: ParsedEnvelope)
    requires answer.kind.AttentionCleared?
    ensures Fold(events + [answer]).pendingAttention == None
    ensures Fold(events + [answer]).phase.Blocked? <==> RunBlocked(events) && TurnOver(events)
  {
    FoldNext(events, answer);
    BlockedTold(events);
    TurnsTold(events);
  }

  // Two logs.

  function Event(kind: EventKind, detail: Option<Detail>): ParsedEnvelope {
    ParsedEnvelope(kind, detail, 0, None, None)
  }

  const TurnBegins := Event(TurnStarted, None)
  const TurnEnds := Event(TurnSettled, Some(Outcome(Completed)))
  const ToolBegins := Event(ActivityStarted, Some(Activity(Tool, Some("t"))))
  const ToolEnds := Event(ActivityFinished, Some(Activity(Tool, Some("t"))))
  const Ask := Event(AttentionRequested, Some(Attention(Question)))
  const Answer := Event(AttentionCleared, None)

  /** A second turn is open and has run one tool: the run is reported as done. */
  lemma {:induction false} OpenTurnLooksDone(now: int)
    ensures
      var events := [TurnBegins, TurnEnds, TurnBegins, ToolBegins, ToolEnds];
      && OpenTurn(events, 2)
      && ObservationOf(Fold(events), now, "primary", None).Some?
      && ObservationOf(Fold(events), now, "primary", None).value.kind == AgentStatus.Done
  {
    var a := [TurnBegins, TurnEnds];
    FirstTurnSettled();
    FoldNext(a, TurnBegins);
    FoldNext(a + [TurnBegins], ToolBegins);
    FoldNext(a + [TurnBegins] + [ToolBegins], ToolEnds);
    assert [TurnBegins, TurnEnds, TurnBegins, ToolBegins, ToolEnds] == a + [TurnBegins] + [ToolBegins] + [ToolEnds];
  }

  lemma {:induction false} FirstTurnSettled()
    ensures Fold([TurnBegins, TurnEnds]) == Folded(Settled, None, None, Some(Completed), {}, None, true, true)
  {
    FoldNext([], TurnBegins);
    FoldNext([TurnBegins], TurnEnds);
    assert [] + [TurnBegins] == [TurnBegins] && [TurnBegins] + [TurnEnds] == [TurnBegins, TurnEnds];
  }

  /** In a second turn a question was asked and answered: the run is still reported as waiting. */
  lemma {:induction false} AnsweredLooksWaiting(now: int)
    ensures
      var events := [TurnBegins, TurnEnds, TurnBegins, Ask, Answer];
      && OpenTurn(events, 2) && Fold(events).pendingAttention == None
      && ObservationOf(Fold(events), now, "primary", None).Some?
      && ObservationOf(Fold(events), now, "primary", None).value.kind == AgentStatus.WaitingInput
  {
    var a := [TurnBegins, TurnEnds];
    FirstTurnSettled();
    FoldNext(a, TurnBegins);
    FoldNext(a + [TurnBegins], Ask);
    FoldNext(a + [TurnBegins] + [Ask], Answer);
    assert [TurnBegins, TurnEnds, TurnBegins, Ask, Answer] == a + [TurnBegins] + [Ask] + [Answer];
  }
}
