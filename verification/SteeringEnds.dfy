/**
 * That steers can end. The timer of a steer, its own continuations and the answer to a start
 * that has gone out are enough to end every steer of TurnSteering and settle its receipt;
 * no outcome of the turn, no stop and no close is needed.
 */
module SteeringEnds {
  import opened Prelude
  import opened TurnSteering

  // A timer, a continuation of a steer, or the answer it gets for its start.
  predicate OwnEvent(event: Event) {
    event.TimedOut? || event.CancelResumed? || event.TerminalResumed? || event.StartResult? || event.ReceiptResumed?
  }

  predicate AllOwn(events: seq<Event>) {
    forall i :: 0 <= i < |events| ==> OwnEvent(events[i])
  }

  predicate Ended(steer: Steer) {
    Finished(steer) && !Owing(steer)
  }

  // Only one steer changed.
  predicate OnlySteer(s: Steering, s': Steering, id: SteerId) {
    && |s'.steers| == |s.steers|
    && forall i :: 0 <= i < |s.steers| && i != id ==> s'.steers[i] == s.steers[i]
  }

  function Then(s: Steering, events: seq<Event>): Steering {
    if events == [] then s else Step(Then(s, Front(events)), Last(events))
  }

  lemma {:induction false} ThenAfter(s: Steering, a: seq<Event>, b: seq<Event>)
    ensures Then(s, a + b) == Then(Then(s, a), b)
  {
    if b == [] {
      assert a + b == a;
    } else {
      assert Front(a + b) == a + Front(b);
      ThenAfter(s, a, Front(b));
    }
  }

  lemma {:induction false} AfterThen(events: seq<Event>, more: seq<Event>)
    ensures After(events + more) == Then(After(events), more)
  {
    if more == [] {
      assert events + more == events;
    } else {
      assert (events + more)[..|events + more| - 1] == events + Front(more);
      AfterThen(events, Front(more));
    }
  }

  lemma TwoSteps(s: Steering, a: Event, b: Event)
    ensures Then(s, [a, b]) == Step(Step(s, a), b) && Then(s, [a]) == Step(s, a)
  {
    assert Front([a]) == [] && Front([a, b]) == [a];
    assert Then(s, []) == s && Then(s, [a]) == Step(s, a);
  }

  // The timer fires while the steer waits, and the steer resumes with the failure.
  lemma WaitingEnds(s: Steering, id: SteerId) returns (more: seq<Event>)
    requires id < |s.steers| && (s.steers[id].stage.AwaitingCancel? || s.steers[id].stage.AwaitingTerminal?)
    ensures AllOwn(more) && OnlySteer(s, Then(s, more), id)
    ensures Then(s, more).steers[id].stage.Failed?
  {
    var steer := s.steers[id];
    var resumed :=
      if steer.stage.AwaitingCancel? then CancelResumed(id, true) else TerminalResumed(id, true, Thread(steer.thread, false, None, false));
    more := [TimedOut(id), resumed];
    TwoSteps(s, TimedOut(id), resumed);
  }

  lemma SteerFinishes(s: Steering, id: SteerId) returns (more: seq<Event>)
    requires id < |s.steers|
    ensures AllOwn(more) && OnlySteer(s, Then(s, more), id) && Finished(Then(s, more).steers[id])
  {
    if Finished(s.steers[id]) {
      more := [];
    } else if s.steers[id].stage.Starting? {
      more := [StartResult(id, true)];
      TwoSteps(s, StartResult(id, true), StartResult(id, true));
    } else {
      more := WaitingEnds(s, id);
    }
  }

  lemma SteerEnds(s: Steering, id: SteerId) returns (more: seq<Event>)
    requires id < |s.steers|
    ensures AllOwn(more) && OnlySteer(s, Then(s, more), id) && Ended(Then(s, more).steers[id])
  {
    var first := SteerFinishes(s, id);
    more := first + [ReceiptResumed(id)];
    ThenAfter(s, first, [ReceiptResumed(id)]);
    TwoSteps(Then(s, first), ReceiptResumed(id), ReceiptResumed(id));
    hide Then;
    hide Evict;
  }

  lemma {:induction false} FirstSteersEnd(s: Steering, n: nat) returns (more: seq<Event>)
    requires n <= |s.steers|
    ensures AllOwn(more) && |Then(s, more).steers| == |s.steers|
    ensures forall i :: 0 <= i < n ==> Ended(Then(s, more).steers[i])
  {
    if n == 0 {
      more := [];
    } else {
      var first := FirstSteersEnd(s, n - 1);
      var last := SteerEnds(Then(s, first), n - 1);
      more := first + last;
      ThenAfter(s, first, last);
    }
  }

  /**
   * From every reachable state some continuation of timers, continuations and start answers
   * alone, without a new call, ends every steer, leaves no thread pending and settles every
   * receipt that is kept.
   */
  lemma EverySteerCanEnd(events: seq<Event>) returns (more: seq<Event>)
    ensures AllOwn(more)
    ensures var s := After(events + more);
            && |s.steers| == |After(events).steers| && s.pending == map[]
            && (forall i :: 0 <= i < |s.steers| ==> Ended(s.steers[i]))
            && (forall receipt :: receipt in s.receipts ==> receipt.settled)
  {
    more := FirstSteersEnd(After(events), |After(events).steers|);
    AfterThen(events, more);
    AfterSteersInv(events + more);
    AfterReceiptsInv(events + more);
    var s := After(events + more);
    hide After;
    hide Then;
    forall receipt | receipt in s.receipts ensures receipt.settled {
      assert ReceiptOk(receipt, s.steers);
    }
    forall thread ensures thread !in s.pending {
      assert thread in s.pending ==> s.pending[thread] < |s.steers| && Ended(s.steers[s.pending[thread]]);
    }
  }
}
