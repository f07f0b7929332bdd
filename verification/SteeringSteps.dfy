/**
 * What every step of TurnSteering does, in every reachable state: which calls are accepted and
 * why the others are not, what each steer learns, and how it goes on. Told from the steers and
 * what they have received, not from the table of pending ones.
 */
module SteeringSteps {
  import opened Prelude
  import opened TurnSteering

  predicate UnderWay(steer: Steer) {
    steer.stage == AwaitingCancel || steer.stage == AwaitingTerminal || steer.stage == Starting
  }

  // A steer of the thread is under way.
  ghost predicate Busy(s: Steering, thread: ThreadId) {
    exists i :: 0 <= i < |s.steers| && s.steers[i].thread == thread && UnderWay(s.steers[i])
  }

  ghost predicate Remembered(s: Steering, thread: ThreadId, input: SteerInput, r: Receipt) {
    r in s.receipts && input.message.Some? && r.key == (thread, input.message.value)
  }

  lemma PendingIsBusy(s: Steering, thread: ThreadId)
    requires SteersInv(s)
    ensures thread in s.pending <==> Busy(s, thread)
    ensures forall i :: 0 <= i < |s.steers| && s.steers[i].thread == thread && UnderWay(s.steers[i]) ==> s.pending[thread] == i
    ensures thread in s.pending ==>
              s.pending[thread] < |s.steers| && s.steers[s.pending[thread]].thread == thread && UnderWay(s.steers[s.pending[thread]])
  {
    assert forall i :: 0 <= i < |s.steers| ==> (UnderWay(s.steers[i]) <==> !Finished(s.steers[i]));
  }

  // ---- calls --------------------------------------------------------------------------------------

  // A steer as it starts out.
  predicate StartsOut(steer: Steer, thread: ThreadId, input: SteerInput) {
    steer == Steer(thread, input.expectedTurn, if input.message.Some? then Some((thread, input.message.value)) else None,
                   (input.expectedTurn, input.text), AwaitingCancel, None, None, false, 0, input.message.None?)
  }

  /**
   * A call is accepted exactly while the connection is open, its message is not remembered, no steer
   * of the thread is under way, and the thread runs the very turn it names. A repeated message joins
   * its first steer if the input is the same. What is not accepted changes nothing.
   */
  lemma CallAnswered(events: seq<Event>, thread: Thread, input: SteerInput)
    ensures var s := After(events);
            var (s', reply) := Run(s, thread, input);
            && (reply.Accepted? <==>
                  && !s.closed && (forall r :: !Remembered(s, thread.id, input, r)) && !Busy(s, thread.id)
                  && thread.running && thread.activeTurn == Some(input.expectedTurn))
            && (!reply.Accepted? ==> s' == s)
            && (reply == Closed <==> s.closed)
            && (reply == IdentityReused <==>
                  !s.closed && exists r :: Remembered(s, thread.id, input, r) && r.fingerprint != (input.expectedTurn, input.text))
            && (forall steer :: reply == Joined(steer) ==>
                  exists r :: Remembered(s, thread.id, input, r) && r.fingerprint == (input.expectedTurn, input.text) && r.steer == steer)
            && (reply == AlreadyChanging ==> Busy(s, thread.id))
            && (reply == NoActiveTurn ==> !thread.running)
            && (reply == NotTheActiveTurn ==> thread.running && thread.activeTurn != Some(input.expectedTurn))
  {
    var s := After(events);
    AfterSteersInv(events);
    AfterReceiptsInv(events);
    hide After;
    PendingIsBusy(s, thread.id);
    ReceiptFound(s, thread.id, input);
    hide SteersInv;
    hide ReceiptsInv;
    hide Busy;
  }

  lemma ReceiptFound(s: Steering, thread: ThreadId, input: SteerInput)
    requires ReceiptsInv(s)
    ensures var found := if input.message.Some? then FindReceipt(s.receipts, (thread, input.message.value)) else None;
            && (found.Some? ==> Remembered(s, thread, input, found.value))
            && (forall r :: Remembered(s, thread, input, r) ==> found == Some(r))
  {
    if input.message.Some? {
      FindReceiptExact(s.receipts, (thread, input.message.value));
      FoundIsThere(s.receipts, (thread, input.message.value));
    }
  }

  lemma {:induction false} FoundIsThere(receipts: seq<Receipt>, key: Key)
    ensures FindReceipt(receipts, key).Some? ==> FindReceipt(receipts, key).value in receipts && FindReceipt(receipts, key).value.key == key
  {
    if receipts != [] && receipts[0].key != key { FoundIsThere(receipts[1..], key); }
  }

  function NewReceipt(thread: ThreadId, input: SteerInput, id: SteerId): seq<Receipt> {
    if input.message.Some? then [Receipt((thread, input.message.value), (input.expectedTurn, input.text), id, false)] else []
  }

  /** An accepted call is one more steer, waiting for its cancel, and one more receipt that is owed if it has a message. */
  lemma AcceptedSteer(events: seq<Event>, thread: Thread, input: SteerInput)
    requires Run(After(events), thread, input).1.Accepted?
    ensures var s := After(events);
            var (s', reply) := Run(s, thread, input);
            && reply == Accepted(|s.steers|) && s' == s.(steers := s'.steers, receipts := s'.receipts, pending := s'.pending)
            && |s'.steers| == |s.steers| + 1 && s'.steers[..|s.steers|] == s.steers && StartsOut(s'.steers[|s.steers|], thread.id, input)
            && s'.receipts == s.receipts + NewReceipt(thread.id, input, |s.steers|)
            && Busy(s', thread.id)
  {
    hide After;
    var s := After(events);
    var s' := Run(s, thread, input).0;
    assert UnderWay(s'.steers[|s.steers|]);
  }

  // ---- what a steer learns and how it goes on ----------------------------------------------------------

  // The event is a reason for the steer to fail, while it is under way.
  predicate GivesReason(event: Event, id: SteerId, steer: Steer) {
    match event
    case Interrupted(thread, turn) => UnderWay(steer) && steer.thread == thread && steer.turn == turn
    case Faulted(thread) => UnderWay(steer) && steer.thread == thread
    case ConnectionClosed => UnderWay(steer)
    case TimedOut(i) => i == id && (steer.stage == AwaitingCancel || steer.stage == AwaitingTerminal)
    case _ => false
  }

  // The event is the outcome of the turn that the steer waits for; only the first one counts.
  predicate TellsOutcome(event: Event, steer: Steer) {
    && UnderWay(steer) && steer.terminal == None
    && event.TerminalPublished? && event.threadId == steer.thread && event.turn == steer.turn
  }

  // The cancel was refused, or there is a reason to fail and the race picks it up.
  predicate FailsAfterCancel(steer: Steer, failureWins: bool) {
    if failureWins then steer.failure else steer.cancel == Some(false)
  }

  // The outcome is there but the start may not be made, or there is a reason to fail and the race picks it up.
  ghost predicate FailsAfterTerminal(s: Steering, id: SteerId, failureWins: bool, thread: Thread)
    requires id < |s.steers|
  {
    if failureWins then s.steers[id].failure else s.steers[id].terminal.Some? && !MayStart(s, id, thread)
  }

  // The stage the steer goes on to.
  ghost function NextStage(s: Steering, event: Event, id: SteerId): Stage
    requires id < |s.steers|
  {
    var steer := s.steers[id];
    match event
    case CancelResumed(i, failureWins) =>
      if i != id || steer.stage != AwaitingCancel then steer.stage
      else if FailsAfterCancel(steer, failureWins) then Failed
      else if !failureWins && steer.cancel == Some(true) then AwaitingTerminal
      else steer.stage
    case TerminalResumed(i, failureWins, thread) =>
      if i != id || steer.stage != AwaitingTerminal || thread.id != steer.thread then steer.stage
      else if FailsAfterTerminal(s, id, failureWins, thread) then Failed
      else if !failureWins && steer.terminal.Some? then Starting
      else steer.stage
    case StartResult(i, ok) =>
      if i != id || steer.stage != Starting then steer.stage else if ok then Succeeded else Failed
    case _ => steer.stage
  }

  // What the steer is afterwards.
  ghost function SteerAfter(s: Steering, event: Event, id: SteerId): Steer
    requires id < |s.steers|
  {
    var steer := s.steers[id];
    steer.(stage := NextStage(s, event, id),
           failure := steer.failure || GivesReason(event, id, steer),
           terminal := if TellsOutcome(event, steer) then Some(event.outcome) else steer.terminal,
           cancel := if event.CancelResult? && event.id == id && steer.cancel == None then Some(event.ok) else steer.cancel,
           starts := steer.starts + if NextStage(s, event, id) == Starting && steer.stage != Starting then 1 else 0,
           receiptDone := steer.receiptDone || (event == ReceiptResumed(id) && !UnderWay(steer) && steer.key.Some?))
  }

  /**
   * Every step of every steer, exactly: what it learns, when it fails, when it starts and ends, and when
   * its receipt is dealt with. A step of one steer leaves the others alone.
   */
  lemma StepsExactly(events: seq<Event>, event: Event, id: SteerId)
    requires id < |After(events).steers|
    ensures var s := After(events);
            var s' := Step(s, event);
            && id < |s'.steers| && s'.steers[id] == SteerAfter(s, event, id)
            && (s'.closed <==> s.closed || event == ConnectionClosed)
            && s'.terminals == (if event.TerminalPublished? then s.terminals + {(event.threadId, event.turn, event.outcome)} else s.terminals)
  {
    AfterSteersInv(events);
    var s := After(events);
    hide After;
    hide Step;
    hide SteersInv;
    hide SteerAfter;
    match event
    case RunCalled(thread, input) => CallLeaves(s, thread, input, id);
    case TerminalPublished(thread, turn, outcome) => OutcomeLearned(s, event, id);
    case Interrupted(thread, turn) => StopLearned(s, event, id);
    case Faulted(thread) => FaultLearned(s, event, id);
    case ConnectionClosed => CloseLearned(s, id);
    case TimedOut(_) => PromiseLearned(s, event, id);
    case CancelResult(_, _) => PromiseLearned(s, event, id);
    case CancelResumed(_, _) => CancelGoesOn(s, event, id);
    case TerminalResumed(_, _, _) => TerminalGoesOn(s, event, id);
    case StartResult(_, _) => StartGoesOn(s, event, id);
    case ReceiptResumed(_) => ReceiptGoesOn(s, event, id);
  }

  lemma CallLeaves(s: Steering, thread: Thread, input: SteerInput, id: SteerId)
    requires id < |s.steers|
    ensures Stepped(s, RunCalled(thread, input), id)
  {
    hide FindReceipt;
    hide MayStart;
  }

  lemma ReceiptGoesOn(s: Steering, event: Event, id: SteerId)
    requires id < |s.steers| && event.ReceiptResumed?
    ensures Stepped(s, event, id)
  {
    hide Evict;
    hide MarkSettled;
    hide DeleteKey;
    hide MayStart;
  }

  // The steer and what else the step may change.
  ghost predicate Stepped(s: Steering, event: Event, id: SteerId)
    requires id < |s.steers|
  {
    var s' := Step(s, event);
    && id < |s'.steers| && s'.steers[id] == SteerAfter(s, event, id)
    && (s'.closed <==> s.closed || event == ConnectionClosed)
    && s'.terminals == (if event.TerminalPublished? then s.terminals + {(event.threadId, event.turn, event.outcome)} else s.terminals)
  }

  lemma OutcomeLearned(s: Steering, event: Event, id: SteerId)
    requires SteersInv(s) && id < |s.steers| && event.TerminalPublished?
    ensures Stepped(s, event, id)
  {
    PendingIsBusy(s, s.steers[id].thread);
    hide SteersInv;
    hide Busy;
    hide MayStart;
  }

  lemma StopLearned(s: Steering, event: Event, id: SteerId)
    requires SteersInv(s) && id < |s.steers| && event.Interrupted?
    ensures Stepped(s, event, id)
  {
    PendingIsBusy(s, event.threadId);
    hide SteersInv;
    hide Busy;
    hide MayStart;
  }

  lemma FaultLearned(s: Steering, event: Event, id: SteerId)
    requires SteersInv(s) && id < |s.steers| && event.Faulted?
    ensures Stepped(s, event, id)
  {
    PendingIsBusy(s, event.threadId);
    hide SteersInv;
    hide Busy;
    hide MayStart;
  }

  lemma CloseLearned(s: Steering, id: SteerId)
    requires SteersInv(s) && id < |s.steers|
    ensures Stepped(s, ConnectionClosed, id)
  {
    PendingIsBusy(s, s.steers[id].thread);
    assert id in s.pending.Values <==> UnderWay(s.steers[id]) by {
      if id in s.pending.Values {
        var thread :| thread in s.pending && s.pending[thread] == id;
      }
    }
    hide SteersInv;
    hide Busy;
    hide MayStart;
  }

  lemma PromiseLearned(s: Steering, event: Event, id: SteerId)
    requires id < |s.steers| && (event.TimedOut? || event.CancelResult?)
    ensures Stepped(s, event, id)
  {
    hide MayStart;
  }

  lemma CancelGoesOn(s: Steering, event: Event, id: SteerId)
    requires id < |s.steers| && event.CancelResumed?
    ensures Stepped(s, event, id)
  {
    hide MayStart;
  }

  lemma TerminalGoesOn(s: Steering, event: Event, id: SteerId)
    requires SteersInv(s) && id < |s.steers| && event.TerminalResumed?
    ensures Stepped(s, event, id)
  {
    assert SteerOk(s.steers[id], s.terminals);
    hide SteersInv;
    if event.id < |s.steers| && event.id != id {
      OtherUntouched(s, event, id);
    }
  }

  lemma OtherUntouched(s: Steering, event: Event, id: SteerId)
    requires id < |s.steers| && event.TerminalResumed? && event.id != id
    ensures |Step(s, event).steers| == |s.steers| && Step(s, event).steers[id] == s.steers[id]
  {
  }

  lemma StartGoesOn(s: Steering, event: Event, id: SteerId)
    requires id < |s.steers| && event.StartResult?
    ensures Stepped(s, event, id)
  {
    hide MayStart;
  }

  // ---- receipts --------------------------------------------------------------------------------------------

  // The receipts that still belong to a steer.
  ghost predicate Keeps(s: Steering, s': Steering, id: SteerId) {
    forall r :: r in s.receipts && r.steer != id && !r.settled ==> r in s'.receipts
  }

  /**
   * When a steer with a message is over its receipt is dealt with once: after a success it is settled,
   * and only settled ones may have to make room; after a failure it is forgotten, so that the message
   * may be tried again. No other receipt that is still owed is touched.
   */
  lemma ReceiptsExactly(events: seq<Event>, id: SteerId)
    requires id < |After(events).steers| && Owing(After(events).steers[id]) && !UnderWay(After(events).steers[id])
    ensures var s := After(events);
            var s' := Step(s, ReceiptResumed(id));
            && Keeps(s, s', id) && !Owing(s'.steers[id])
            && (forall r :: r in s'.receipts && r.steer != id ==> r in s.receipts)
            && (s.steers[id].stage == Failed ==> forall r :: r in s'.receipts ==> r.steer != id)
            && (s.steers[id].stage == Succeeded && !s.closed && |s.receipts| <= 128 ==>
                  Receipt(s.steers[id].key.value, s.steers[id].fingerprint, id, true) in s'.receipts)
  {
    AfterSteersInv(events);
    AfterReceiptsInv(events);
    var s := After(events);
    hide After;
    if s.steers[id].stage.Succeeded? { SettlesReceipt(s, id); } else { ForgetsReceipt(s, id); }
  }

  lemma SettlesReceipt(s: Steering, id: SteerId)
    requires ReceiptsInv(s) && id < |s.steers| && Owing(s.steers[id]) && s.steers[id].stage.Succeeded?
    ensures var s' := Step(s, ReceiptResumed(id));
            && Keeps(s, s', id)
            && (forall r :: r in s'.receipts && r.steer != id ==> r in s.receipts)
            && (!s.closed && |s.receipts| <= 128 ==> Receipt(s.steers[id].key.value, s.steers[id].fingerprint, id, true) in s'.receipts)
  {
    var marked := MarkSettled(s.receipts, id);
    MarkedOthers(s.receipts, id);
    EvictKeeps(marked);
    assert !s.closed ==> Receipt(s.steers[id].key.value, s.steers[id].fingerprint, id, false) in s.receipts;
    hide ReceiptsInv;
    hide Evict;
    hide MarkSettled;
  }

  lemma EvictKeeps(receipts: seq<Receipt>)
    ensures forall r :: r in Evict(receipts) ==> r in receipts
    ensures forall r :: r in receipts && !r.settled ==> r in Evict(receipts)
    ensures |receipts| <= 128 ==> Evict(receipts) == receipts
  {
    EvictExact(receipts);
  }

  lemma MarkedOthers(receipts: seq<Receipt>, id: SteerId)
    ensures |MarkSettled(receipts, id)| == |receipts|
    ensures forall r :: r in receipts && r.steer != id ==> r in MarkSettled(receipts, id)
    ensures forall r :: r in receipts && r.steer == id ==> r.(settled := true) in MarkSettled(receipts, id)
    ensures forall r :: r in MarkSettled(receipts, id) && r.steer != id ==> r in receipts
  {
    var marked := MarkSettled(receipts, id);
    forall r | r in receipts ensures (if r.steer == id then r.(settled := true) else r) in marked {
      var i :| 0 <= i < |receipts| && receipts[i] == r;
      assert marked[i] == if r.steer == id then r.(settled := true) else r;
    }
    forall r | r in marked && r.steer != id ensures r in receipts {
      var i :| 0 <= i < |marked| && marked[i] == r;
      assert receipts[i].steer == r.steer;
    }
  }

  lemma OneReceiptPerKey(receipts: seq<Receipt>, own: Receipt)
    requires KeysDistinct(receipts) && own in receipts
    ensures forall r :: r in receipts && r.key == own.key ==> r == own
  {
    var i :| 0 <= i < |receipts| && receipts[i] == own;
    forall r | r in receipts && r.key == own.key ensures r == own {
      var j :| 0 <= j < |receipts| && receipts[j] == r;
    }
  }

  lemma ForgetsReceipt(s: Steering, id: SteerId)
    requires ReceiptsInv(s) && id < |s.steers| && Owing(s.steers[id]) && s.steers[id].stage.Failed?
    ensures var s' := Step(s, ReceiptResumed(id));
            && Keeps(s, s', id)
            && (forall r :: r in s'.receipts ==> r in s.receipts && r.steer != id)
  {
    var key := s.steers[id].key.value;
    FilterMembers(OtherThan(key), s.receipts);
    if !s.closed {
      var own := Receipt(key, s.steers[id].fingerprint, id, false);
      assert own in s.receipts;
      OneReceiptPerKey(s.receipts, own);
    }
    forall r | r in s.receipts && r.key != key ensures r.steer != id {
      assert ReceiptOk(r, s.steers);
    }
  }
}
