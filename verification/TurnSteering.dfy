/**
 * packages/host-runtime/src/external-turn-steering.ts: replacing a running turn by
 * stopping it and starting another. A steer is an async function suspended at one of its
 * awaits; every function below is what happens between two suspensions. Promise races are
 * resolved by the event, so every order of cancel, terminal, stop, timeout and close is a run.
 */
module TurnSteering {
  import opened Prelude

  type ThreadId = nat
  type Turn = nat
  type MessageId = nat
  type Text = int
  type SteerId = nat

  const MAX_RECEIPTS: nat := 128

  datatype TurnOutcome = Completed | Interrupted | TurnFailed

  // What a steer can see of its thread at the moment it looks.
  datatype Thread = Thread(id: ThreadId, running: bool, activeTurn: Option<Turn>, persistenceError: bool)

  datatype SteerInput = SteerInput(expectedTurn: Turn, message: Option<MessageId>, text: Text)

  // A repeated message identity is recognised per thread; its fingerprint is the whole input.
  type Key = (ThreadId, MessageId)
  type Fingerprint = (Turn, Text)

  datatype Receipt = Receipt(key: Key, fingerprint: Fingerprint, steer: SteerId, settled: bool)

  datatype Stage = AwaitingCancel | AwaitingTerminal | Starting | Succeeded | Failed

  // `cancel`, `terminal` and `failure` are the steer's three promises, settled at most once.
  datatype Steer = Steer(
    thread: ThreadId, turn: Turn, key: Option<Key>, fingerprint: Fingerprint, stage: Stage,
    cancel: Option<bool>, terminal: Option<TurnOutcome>, failure: bool, starts: nat, receiptDone: bool)

  // `terminals` records every terminal event that was ever published.
  datatype Steering = Steering(
    pending: map<ThreadId, SteerId>, receipts: seq<Receipt>, closed: bool,
    steers: seq<Steer>, terminals: set<(ThreadId, Turn, TurnOutcome)>)

  function Idle(): Steering {
    Steering(map[], [], false, [], {})
  }

  predicate Finished(steer: Steer) {
    steer.stage.Succeeded? || steer.stage.Failed?
  }

  // ---- receipts -----------------------------------------------------------------------

  function FindReceipt(receipts: seq<Receipt>, key: Key): Option<Receipt> {
    if receipts == [] then None
    else if receipts[0].key == key then Some(receipts[0])
    else FindReceipt(receipts[1..], key)
  }

  function OtherThan(key: Key): Receipt -> bool {
    (r: Receipt) => r.key != key
  }

  function DeleteKey(receipts: seq<Receipt>, key: Key): seq<Receipt> {
    Filter(OtherThan(key), receipts)
  }

  function DropOldestSettled(receipts: seq<Receipt>): seq<Receipt> {
    if receipts == [] then []
    else if receipts[0].settled then receipts[1..]
    else [receipts[0]] + DropOldestSettled(receipts[1..])
  }

  predicate AnySettled(receipts: seq<Receipt>) {
    exists r :: r in receipts && r.settled
  }

  function Settled(receipts: seq<Receipt>): seq<Receipt> {
    Filter((r: Receipt) => r.settled, receipts)
  }

  function Unsettled(receipts: seq<Receipt>): seq<Receipt> {
    Filter((r: Receipt) => !r.settled, receipts)
  }

  lemma {:induction false} DropOldestSettledExact(receipts: seq<Receipt>)
    requires AnySettled(receipts)
    ensures |DropOldestSettled(receipts)| == |receipts| - 1
    ensures Unsettled(DropOldestSettled(receipts)) == Unsettled(receipts)
    ensures Settled(receipts) != [] && Settled(DropOldestSettled(receipts)) == Settled(receipts)[1..]
    ensures forall r :: r in DropOldestSettled(receipts) ==> r in receipts
    ensures forall r :: r in receipts && !r.settled ==> r in DropOldestSettled(receipts)
  {
    if !receipts[0].settled {
      var rest := DropOldestSettled(receipts[1..]);
      DropOldestSettledExact(receipts[1..]);
      assert DropOldestSettled(receipts)[1..] == rest;
      assert receipts == [receipts[0]] + receipts[1..];
    } else {
      assert receipts == [receipts[0]] + receipts[1..];
    }
  }

  lemma {:induction false} NoSettled(receipts: seq<Receipt>)
    requires !AnySettled(receipts)
    ensures Settled(receipts) == [] && Unsettled(receipts) == receipts
  {
    if receipts != [] {
      assert receipts[0] in receipts && forall r :: r in receipts[1..] ==> r in receipts;
      NoSettled(receipts[1..]);
    }
  }

  /** While over the bound, drop the oldest settled receipt; stop when none is settled. */
  function Evict(receipts: seq<Receipt>): seq<Receipt>
    decreases |receipts|
  {
    if |receipts| <= MAX_RECEIPTS || !AnySettled(receipts) then receipts
    else
      DropOldestSettledExact(receipts);
      Evict(DropOldestSettled(receipts))
  }

  /**
   * Eviction, exactly: no unsettled receipt goes, the settled ones that stay are the newest,
   * and the bound is kept unless unsettled receipts alone exceed it.
   */
  lemma {:induction false} EvictExact(receipts: seq<Receipt>)
    ensures Unsettled(Evict(receipts)) == Unsettled(receipts)
    ensures var gone := |receipts| - |Evict(receipts)|;
            0 <= gone <= |Settled(receipts)| && Settled(Evict(receipts)) == Settled(receipts)[gone..]
    ensures |Evict(receipts)| > MAX_RECEIPTS ==> !AnySettled(Evict(receipts))
    ensures |receipts| > MAX_RECEIPTS ==> |Evict(receipts)| >= MAX_RECEIPTS
    ensures forall r :: r in Evict(receipts) ==> r in receipts
    ensures forall r :: r in receipts && !r.settled ==> r in Evict(receipts)
    decreases |receipts|
  {
    if |receipts| > MAX_RECEIPTS && AnySettled(receipts) {
      DropOldestSettledExact(receipts);
      EvictExact(DropOldestSettled(receipts));
    }
  }

  // ---- run, and what can happen to a pending steer ----------------------------------------

  datatype Reply = Accepted(steer: SteerId) | Joined(steer: SteerId) | Closed | IdentityReused | AlreadyChanging | NoActiveTurn | NotTheActiveTurn

  function KeyOf(thread: ThreadId, input: SteerInput): Option<Key> {
    if input.message.Some? then Some((thread, input.message.value)) else None
  }

  function FingerprintOf(input: SteerInput): Fingerprint {
    (input.expectedTurn, input.text)
  }

  /** `run`, and `#replace` up to its first await: the steer is pending before the cancel goes out. */
  function Run(s: Steering, thread: Thread, input: SteerInput): (Steering, Reply) {
    var key := KeyOf(thread.id, input);
    var receipt := if key.Some? then FindReceipt(s.receipts, key.value) else None;
    if s.closed then (s, Closed)
    else if receipt.Some? then
      (s, if receipt.value.fingerprint == FingerprintOf(input) then Joined(receipt.value.steer) else IdentityReused)
    else if thread.id in s.pending then (s, AlreadyChanging)
    else if !thread.running then (s, NoActiveTurn)
    else if thread.activeTurn != Some(input.expectedTurn) then (s, NotTheActiveTurn)
    else
      var id := |s.steers|;
      var steer := Steer(thread.id, input.expectedTurn, key, FingerprintOf(input), AwaitingCancel, None, None, false, 0, key.None?);
      (s.(pending := s.pending[thread.id := id],
          steers := s.steers + [steer],
          receipts := if key.Some? then s.receipts + [Receipt(key.value, FingerprintOf(input), id, false)] else s.receipts),
       Accepted(id))
  }

  function PutSteer(s: Steering, id: SteerId, steer: Steer): Steering
    requires id < |s.steers|
  {
    s.(steers := s.steers[id := steer])
  }

  /** `pending.reject`: the first reason sticks. */
  function Reject(s: Steering, id: SteerId): Steering
    requires id < |s.steers|
  {
    PutSteer(s, id, s.steers[id].(failure := true))
  }

  function Terminal(s: Steering, thread: ThreadId, turn: Turn, outcome: TurnOutcome): Steering {
    var s1 := s.(terminals := s.terminals + {(thread, turn, outcome)});
    if thread !in s.pending || s.pending[thread] >= |s.steers| then s1
    else
      var id := s.pending[thread];
      var steer := s.steers[id];
      if steer.turn != turn || steer.terminal.Some? then s1 else PutSteer(s1, id, steer.(terminal := Some(outcome)))
  }

  function Fault(s: Steering, thread: ThreadId): Steering {
    if thread in s.pending && s.pending[thread] < |s.steers| then Reject(s, s.pending[thread]) else s
  }

  function Interrupt(s: Steering, thread: ThreadId, turn: Turn): Steering {
    if thread in s.pending && s.pending[thread] < |s.steers| && s.steers[s.pending[thread]].turn == turn then Fault(s, thread) else s
  }

  function Close(s: Steering): Steering {
    s.(closed := true, receipts := [],
       steers := seq(|s.steers|, i requires 0 <= i < |s.steers| =>
         if i in s.pending.Values then s.steers[i].(failure := true) else s.steers[i]))
  }

  /** The timer is armed until the steer stops waiting for the terminal outcome. */
  function Timeout(s: Steering, id: SteerId): Steering {
    if id < |s.steers| && (s.steers[id].stage.AwaitingCancel? || s.steers[id].stage.AwaitingTerminal?) then Reject(s, id) else s
  }

  function CancelSettles(s: Steering, id: SteerId, ok: bool): Steering {
    if id < |s.steers| && s.steers[id].cancel.None? then PutSteer(s, id, s.steers[id].(cancel := Some(ok))) else s
  }

  /** The `finally` of a steer: its pending entry goes if it is still its own. */
  function End(s: Steering, id: SteerId, stage: Stage): Steering
    requires id < |s.steers|
  {
    var thread := s.steers[id].thread;
    PutSteer(s, id, s.steers[id].(stage := stage)).(
      pending := if thread in s.pending && s.pending[thread] == id then map t | t in s.pending && t != thread :: s.pending[t] else s.pending)
  }

  /** The first race: the cancel's result against a failure. */
  function ResumeAfterCancel(s: Steering, id: SteerId, failureWins: bool): Steering {
    if id >= |s.steers| || !s.steers[id].stage.AwaitingCancel? then s
    else
      var steer := s.steers[id];
      if failureWins then (if steer.failure then End(s, id, Failed) else s)
      else if steer.cancel.None? then s
      else if !steer.cancel.value then End(s, id, Failed)
      else PutSteer(s, id, steer.(stage := AwaitingTerminal))
  }

  /** The second race, and the checks that stand between it and the start. */
  function ResumeAfterTerminal(s: Steering, id: SteerId, failureWins: bool, thread: Thread): Steering {
    if id >= |s.steers| || !s.steers[id].stage.AwaitingTerminal? || thread.id != s.steers[id].thread then s
    else
      var steer := s.steers[id];
      if failureWins then (if steer.failure then End(s, id, Failed) else s)
      else if steer.terminal.None? then s
      else if steer.failure || s.closed || steer.terminal == Some(TurnFailed) || thread.persistenceError
              || thread.running || thread.activeTurn.Some? then End(s, id, Failed)
      else PutSteer(s, id, steer.(stage := Starting, starts := steer.starts + 1))
  }

  function StartSettles(s: Steering, id: SteerId, ok: bool): Steering {
    if id >= |s.steers| || !s.steers[id].stage.Starting? then s
    else End(s, id, if ok then Succeeded else Failed)
  }

  function MarkSettled(receipts: seq<Receipt>, id: SteerId): seq<Receipt> {
    seq(|receipts|, i requires 0 <= i < |receipts| =>
      if receipts[i].steer == id then receipts[i].(settled := true) else receipts[i])
  }

  /** The receipt's own continuation, one microtask after the steer ended. */
  function ReceiptSettles(s: Steering, id: SteerId): Steering {
    if id >= |s.steers| || !Finished(s.steers[id]) || s.steers[id].receiptDone || s.steers[id].key.None? then s
    else
      var done := PutSteer(s, id, s.steers[id].(receiptDone := true));
      if s.steers[id].stage.Succeeded? then done.(receipts := Evict(MarkSettled(s.receipts, id)))
      else done.(receipts := DeleteKey(s.receipts, s.steers[id].key.value))
  }

  // ---- runs ----------------------------------------------------------------------------------

  datatype Event =
    | RunCalled(thread: Thread, input: SteerInput)
    | TerminalPublished(threadId: ThreadId, turn: Turn, outcome: TurnOutcome)
    | Interrupted(threadId: ThreadId, turn: Turn)
    | Faulted(threadId: ThreadId)
    | ConnectionClosed
    | TimedOut(id: SteerId)
    | CancelResult(id: SteerId, ok: bool)
    | CancelResumed(id: SteerId, failureWins: bool)
    | TerminalResumed(id: SteerId, failureWins: bool, thread: Thread)
    | StartResult(id: SteerId, ok: bool)
    | ReceiptResumed(id: SteerId)

  function Step(s: Steering, event: Event): Steering {
    match event
    case RunCalled(thread, input) => Run(s, thread, input).0
    case TerminalPublished(thread, turn, outcome) => Terminal(s, thread, turn, outcome)
    case Interrupted(thread, turn) => Interrupt(s, thread, turn)
    case Faulted(thread) => Fault(s, thread)
    case ConnectionClosed => Close(s)
    case TimedOut(id) => Timeout(s, id)
    case CancelResult(id, ok) => CancelSettles(s, id, ok)
    case CancelResumed(id, failureWins) => ResumeAfterCancel(s, id, failureWins)
    case TerminalResumed(id, failureWins, thread) => ResumeAfterTerminal(s, id, failureWins, thread)
    case StartResult(id, ok) => StartSettles(s, id, ok)
    case ReceiptResumed(id) => ReceiptSettles(s, id)
  }

  function After(events: seq<Event>): Steering {
    if events == [] then Idle() else Step(After(events[..|events| - 1]), events[|events| - 1])
  }

  // ---- the steer invariant --------------------------------------------------------------------

  ghost predicate SteerOk(steer: Steer, terminals: set<(ThreadId, Turn, TurnOutcome)>) {
    && (steer.stage.AwaitingCancel? || steer.stage.AwaitingTerminal? ==> steer.starts == 0)
    && (steer.stage.Starting? || steer.stage.Succeeded? ==> steer.starts == 1)
    && steer.starts <= 1
    && (steer.stage.AwaitingTerminal? || steer.starts == 1 ==> steer.cancel == Some(true))
    && (steer.starts == 1 ==> steer.terminal.Some? && steer.terminal != Some(TurnFailed))
    && (steer.terminal.Some? ==> (steer.thread, steer.turn, steer.terminal.value) in terminals)
  }

  ghost predicate SteersInv(s: Steering) {
    && (forall i :: 0 <= i < |s.steers| ==> SteerOk(s.steers[i], s.terminals))
    && (forall i :: 0 <= i < |s.steers| && !Finished(s.steers[i]) ==>
          s.steers[i].thread in s.pending && s.pending[s.steers[i].thread] == i)
    && (forall t :: t in s.pending ==> s.pending[t] < |s.steers| && !Finished(s.steers[s.pending[t]]) && s.steers[s.pending[t]].thread == t)
  }

  lemma PutInv(s: Steering, id: SteerId, steer: Steer)
    requires SteersInv(s) && id < |s.steers| && SteerOk(steer, s.terminals)
    requires steer.thread == s.steers[id].thread && Finished(steer) == Finished(s.steers[id])
    ensures SteersInv(PutSteer(s, id, steer))
  {
  }

  lemma EndInv(s: Steering, id: SteerId, stage: Stage)
    requires SteersInv(s) && id < |s.steers| && !Finished(s.steers[id])
    requires stage.Failed? || (stage.Succeeded? && s.steers[id].starts == 1)
    ensures SteersInv(End(s, id, stage))
  {
  }

  lemma RunSteersInv(s: Steering, thread: Thread, input: SteerInput)
    requires SteersInv(s)
    ensures SteersInv(Run(s, thread, input).0)
  {
  }

  lemma TerminalInv(s: Steering, thread: ThreadId, turn: Turn, outcome: TurnOutcome)
    requires SteersInv(s)
    ensures SteersInv(Terminal(s, thread, turn, outcome))
  {
    var s1 := s.(terminals := s.terminals + {(thread, turn, outcome)});
    assert SteersInv(s1);
    if thread in s.pending {
      var id := s.pending[thread];
      if s.steers[id].turn == turn && s.steers[id].terminal.None? {
        PutInv(s1, id, s.steers[id].(terminal := Some(outcome)));
      }
    }
  }

  lemma RejectInv(s: Steering, id: SteerId)
    requires SteersInv(s) && id < |s.steers|
    ensures SteersInv(Reject(s, id))
  {
    PutInv(s, id, s.steers[id].(failure := true));
  }

  lemma CloseInv(s: Steering)
    requires SteersInv(s)
    ensures SteersInv(Close(s))
  {
  }

  lemma PromiseSteersInv(s: Steering, event: Event)
    requires SteersInv(s)
    requires event.Interrupted? || event.Faulted? || event.TimedOut? || event.CancelResult? || event.ReceiptResumed?
    ensures SteersInv(Step(s, event))
  {
    match event
    case Interrupted(thread, turn) => if thread in s.pending { RejectInv(s, s.pending[thread]); }
    case Faulted(thread) => if thread in s.pending { RejectInv(s, s.pending[thread]); }
    case TimedOut(id) => if id < |s.steers| { RejectInv(s, id); }
    case CancelResult(id, ok) =>
      if id < |s.steers| && s.steers[id].cancel.None? { PutInv(s, id, s.steers[id].(cancel := Some(ok))); }
    case ReceiptResumed(id) =>
      if id < |s.steers| { PutInv(s, id, s.steers[id].(receiptDone := true)); }
  }

  lemma ResumeSteersInv(s: Steering, event: Event)
    requires SteersInv(s)
    requires event.CancelResumed? || event.TerminalResumed? || event.StartResult?
    ensures SteersInv(Step(s, event))
  {
    match event
    case CancelResumed(id, failureWins) =>
      if id < |s.steers| && s.steers[id].stage.AwaitingCancel? {
        EndInv(s, id, Failed);
        if s.steers[id].cancel == Some(true) { PutInv(s, id, s.steers[id].(stage := AwaitingTerminal)); }
      }
    case TerminalResumed(id, failureWins, thread) =>
      if id < |s.steers| && s.steers[id].stage.AwaitingTerminal? {
        EndInv(s, id, Failed);
        if s.steers[id].terminal.Some? && s.steers[id].terminal != Some(TurnFailed) {
          PutInv(s, id, s.steers[id].(stage := Starting, starts := s.steers[id].starts + 1));
        }
      }
    case StartResult(id, ok) =>
      if id < |s.steers| && s.steers[id].stage.Starting? { EndInv(s, id, if ok then Succeeded else Failed); }
  }

  lemma StepSteersInv(s: Steering, event: Event)
    requires SteersInv(s)
    ensures SteersInv(Step(s, event))
  {
    match event
    case RunCalled(thread, input) => RunSteersInv(s, thread, input);
    case TerminalPublished(thread, turn, outcome) => TerminalInv(s, thread, turn, outcome);
    case ConnectionClosed => CloseInv(s);
    case CancelResumed(_, _) => ResumeSteersInv(s, event);
    case TerminalResumed(_, _, _) => ResumeSteersInv(s, event);
    case StartResult(_, _) => ResumeSteersInv(s, event);
    case _ => PromiseSteersInv(s, event);
  }

  lemma {:induction false} AfterSteersInv(events: seq<Event>)
    ensures SteersInv(After(events))
  {
    if events != [] {
      AfterSteersInv(events[..|events| - 1]);
      StepSteersInv(After(events[..|events| - 1]), events[|events| - 1]);
    }
  }

  /** At most one steer per thread is under way, and it is the thread's pending entry. */
  lemma OnePendingSteerPerThread(events: seq<Event>)
    ensures var s := After(events);
            && (forall i, j :: 0 <= i < |s.steers| && 0 <= j < |s.steers| && !Finished(s.steers[i]) && !Finished(s.steers[j]) ==>
                  s.steers[i].thread == s.steers[j].thread ==> i == j)
            && (forall t :: t in s.pending ==> s.pending[t] < |s.steers| && !Finished(s.steers[s.pending[t]]))
  {
    AfterSteersInv(events);
  }

  // A step that leaves receipts, identities and settlement alone.
  predicate Quiet(s: Steering, s': Steering) {
    && s'.receipts == s.receipts && s'.closed == s.closed && |s'.steers| == |s.steers|
    && forall i :: 0 <= i < |s.steers| ==> SameIdentity(s.steers[i], s'.steers[i])
  }

  predicate SameIdentity(a: Steer, b: Steer) {
    && a.key == b.key && a.fingerprint == b.fingerprint && a.receiptDone == b.receiptDone
    && (a.stage.Succeeded? ==> b.stage.Succeeded?)
  }

  predicate SameStarts(s: Steering, s': Steering) {
    |s.steers| <= |s'.steers| && forall i :: 0 <= i < |s.steers| ==> s'.steers[i].starts == s.steers[i].starts
  }

  // A steer whose promises or stage change, but neither identity, starts nor settlement.
  lemma PutQuiet(s: Steering, id: SteerId, steer: Steer)
    requires id < |s.steers| && SameIdentity(s.steers[id], steer) && steer.starts == s.steers[id].starts
    ensures Quiet(s, PutSteer(s, id, steer)) && SameStarts(s, PutSteer(s, id, steer))
  {
  }

  lemma PromiseStepsQuiet(s: Steering, event: Event)
    requires event.TerminalPublished? || event.Faulted? || event.Interrupted? || event.TimedOut? || event.CancelResult?
    ensures Quiet(s, Step(s, event)) && SameStarts(s, Step(s, event))
  {
    hide PutSteer;
    match event
    case TerminalPublished(thread, turn, outcome) => TerminalQuiet(s, thread, turn, outcome);
    case Faulted(thread) => RejectQuiet(s, thread);
    case Interrupted(thread, _) => RejectQuiet(s, thread);
    case TimedOut(id) => if id < |s.steers| { PutQuiet(s, id, s.steers[id].(failure := true)); }
    case CancelResult(id, ok) => if id < |s.steers| { PutQuiet(s, id, s.steers[id].(cancel := Some(ok))); }
  }

  lemma RejectQuiet(s: Steering, thread: ThreadId)
    ensures thread in s.pending && s.pending[thread] < |s.steers| ==>
      Quiet(s, Reject(s, s.pending[thread])) && SameStarts(s, Reject(s, s.pending[thread]))
  {
    if thread in s.pending && s.pending[thread] < |s.steers| {
      PutQuiet(s, s.pending[thread], s.steers[s.pending[thread]].(failure := true));
    }
  }

  lemma TerminalQuiet(s: Steering, thread: ThreadId, turn: Turn, outcome: TurnOutcome)
    ensures Quiet(s, Terminal(s, thread, turn, outcome)) && SameStarts(s, Terminal(s, thread, turn, outcome))
  {
    if thread in s.pending && s.pending[thread] < |s.steers| {
      PutQuiet(s.(terminals := s.terminals + {(thread, turn, outcome)}), s.pending[thread], s.steers[s.pending[thread]].(terminal := Some(outcome)));
    }
  }

  lemma EndQuiet(s: Steering, id: SteerId, stage: Stage)
    requires id < |s.steers| && !s.steers[id].stage.Succeeded?
    ensures Quiet(s, End(s, id, stage)) && SameStarts(s, End(s, id, stage))
  {
    PutQuiet(s, id, s.steers[id].(stage := stage));
  }

  lemma ResumeStepsQuiet(s: Steering, event: Event)
    requires event.CancelResumed? || event.StartResult?
    ensures Quiet(s, Step(s, event)) && SameStarts(s, Step(s, event))
  {
    hide End;
    hide PutSteer;
    match event
    case CancelResumed(id, _) =>
      if id < |s.steers| && s.steers[id].stage.AwaitingCancel? {
        EndQuiet(s, id, Failed);
        PutQuiet(s, id, s.steers[id].(stage := AwaitingTerminal));
      }
    case StartResult(id, ok) =>
      if id < |s.steers| && s.steers[id].stage.Starting? { EndQuiet(s, id, if ok then Succeeded else Failed); }
  }

  lemma TerminalResumedQuiet(s: Steering, id: SteerId, failureWins: bool, thread: Thread)
    requires SteersInv(s)
    ensures Quiet(s, ResumeAfterTerminal(s, id, failureWins, thread))
    ensures |ResumeAfterTerminal(s, id, failureWins, thread).steers| == |s.steers|
    ensures forall i :: 0 <= i < |s.steers| && ResumeAfterTerminal(s, id, failureWins, thread).steers[i].starts != s.steers[i].starts ==>
      i == id && MayStart(s, id, thread)
  {
    var s' := ResumeAfterTerminal(s, id, failureWins, thread);
    if id < |s.steers| && s'.steers[id].starts != s.steers[id].starts {
      assert SteerOk(s.steers[id], s.terminals);
      assert MayStart(s, id, thread);
    }
  }

  lemma OtherStepsStarts(s: Steering, event: Event)
    requires event.RunCalled? || event.ConnectionClosed? || event.ReceiptResumed?
    ensures SameStarts(s, Step(s, event))
  {
  }

  // Everything that must hold when a steer's start is called.
  ghost predicate MayStart(s: Steering, id: SteerId, thread: Thread) {
    && id < |s.steers|
    && var steer := s.steers[id];
       && steer.starts == 0
       && steer.cancel == Some(true)
       && steer.terminal.Some? && !steer.terminal.value.TurnFailed?
       && (steer.thread, steer.turn, steer.terminal.value) in s.terminals
       && !steer.failure && !s.closed
       && thread.id == steer.thread && !thread.running && thread.activeTurn.None? && !thread.persistenceError
  }

  /**
   * A step of any run calls `start` for a steer at most once in its life, and only after
   * its cancel was accepted and its own turn's non-failed outcome arrived, with no failure
   * recorded, the connection open and no turn active.
   */
  lemma StartsOnlyWhenAllowed(events: seq<Event>, event: Event, id: SteerId)
    requires id < |After(events).steers|
    ensures id < |Step(After(events), event).steers|
    ensures Step(After(events), event).steers[id].starts != After(events).steers[id].starts ==>
      event.TerminalResumed? && event.id == id && MayStart(After(events), id, event.thread)
    ensures Step(After(events), event).steers[id].starts <= 1
    ensures After(events).steers[id].stage.AwaitingTerminal? && event.TerminalResumed? && event.id == id && !event.failureWins ==>
      (Step(After(events), event).steers[id].starts == 1 <==> MayStart(After(events), id, event.thread))
  {
    AfterSteersInv(events);
    var s := After(events);
    StepSteersInv(s, event);
    match event
    case TerminalResumed(i, failureWins, thread) => TerminalResumedQuiet(s, i, failureWins, thread);
    case RunCalled(_, _) => OtherStepsStarts(s, event);
    case ConnectionClosed => OtherStepsStarts(s, event);
    case ReceiptResumed(_) => OtherStepsStarts(s, event);
    case CancelResumed(_, _) => ResumeStepsQuiet(s, event);
    case StartResult(_, _) => ResumeStepsQuiet(s, event);
    case _ => PromiseStepsQuiet(s, event);
  }

  // ---- the receipt invariant --------------------------------------------------------------------

  ghost predicate KeysDistinct(receipts: seq<Receipt>) {
    forall i, j :: 0 <= i < j < |receipts| ==> receipts[i].key != receipts[j].key
  }

  ghost predicate ReceiptOk(r: Receipt, steers: seq<Steer>) {
    && r.steer < |steers|
    && steers[r.steer].key == Some(r.key)
    && steers[r.steer].fingerprint == r.fingerprint
    && r.settled == steers[r.steer].receiptDone
    && (r.settled ==> steers[r.steer].stage.Succeeded?)
  }

  predicate Owing(steer: Steer) {
    steer.key.Some? && !steer.receiptDone
  }

  ghost predicate ReceiptsInv(s: Steering) {
    && KeysDistinct(s.receipts)
    && (forall r :: r in s.receipts ==> ReceiptOk(r, s.steers))
    && (s.closed ==> s.receipts == [])
    && (!s.closed ==> forall i :: 0 <= i < |s.steers| && Owing(s.steers[i]) ==>
          Receipt(s.steers[i].key.value, s.steers[i].fingerprint, i, false) in s.receipts)
  }

  lemma {:induction false} FindReceiptExact(receipts: seq<Receipt>, key: Key)
    requires KeysDistinct(receipts)
    ensures forall r :: r in receipts && r.key == key ==> FindReceipt(receipts, key) == Some(r)
    ensures FindReceipt(receipts, key).None? ==> forall r :: r in receipts ==> r.key != key
    ensures FindReceipt(receipts, key).Some? ==> FindReceipt(receipts, key).value in receipts && FindReceipt(receipts, key).value.key == key
  {
    if receipts != [] {
      assert receipts == [receipts[0]] + receipts[1..];
      FindReceiptExact(receipts[1..], key);
    }
  }

  lemma {:induction false} FilterKeysDistinct(p: Receipt -> bool, receipts: seq<Receipt>)
    requires KeysDistinct(receipts)
    ensures KeysDistinct(Filter(p, receipts))
  {
    if receipts != [] {
      FilterKeysDistinct(p, receipts[1..]);
      FilterMembers(p, receipts[1..]);
      assert forall r :: r in receipts[1..] ==> r.key != receipts[0].key;
    }
  }

  lemma TailKeysDistinct(receipts: seq<Receipt>)
    requires receipts != [] && KeysDistinct(receipts)
    ensures KeysDistinct(receipts[1..])
    ensures forall r :: r in receipts[1..] ==> r.key != receipts[0].key
  {
  }

  lemma ConsKeysDistinct(first: Receipt, rest: seq<Receipt>)
    requires KeysDistinct(rest) && forall r :: r in rest ==> r.key != first.key
    ensures KeysDistinct([first] + rest)
  {
  }

  lemma {:induction false} DropKeysDistinct(receipts: seq<Receipt>)
    requires KeysDistinct(receipts)
    ensures KeysDistinct(DropOldestSettled(receipts))
    ensures forall r :: r in DropOldestSettled(receipts) ==> r in receipts
  {
    if receipts != [] {
      TailKeysDistinct(receipts);
      DropKeysDistinct(receipts[1..]);
      if !receipts[0].settled {
        ConsKeysDistinct(receipts[0], DropOldestSettled(receipts[1..]));
      }
    }
  }

  lemma {:induction false} EvictKeysDistinct(receipts: seq<Receipt>)
    requires KeysDistinct(receipts)
    ensures KeysDistinct(Evict(receipts))
    decreases |receipts|
  {
    if |receipts| > MAX_RECEIPTS && AnySettled(receipts) {
      DropOldestSettledExact(receipts);
      DropKeysDistinct(receipts);
      EvictKeysDistinct(DropOldestSettled(receipts));
    }
  }

  lemma QuietReceipts(s: Steering, s': Steering)
    requires ReceiptsInv(s) && Quiet(s, s')
    ensures ReceiptsInv(s')
  {
  }

  lemma RunReceipts(s: Steering, thread: Thread, input: SteerInput)
    requires ReceiptsInv(s)
    ensures ReceiptsInv(Run(s, thread, input).0)
  {
    var key := KeyOf(thread.id, input);
    if key.Some? {
      FindReceiptExact(s.receipts, key.value);
    }
  }

  lemma MarkedMembers(receipts: seq<Receipt>, id: SteerId)
    ensures forall r :: r in MarkSettled(receipts, id) ==>
      if r.steer == id then r.settled && exists was :: was in receipts && was.(settled := true) == r else r in receipts
    ensures forall r :: r in receipts && r.steer != id ==> r in MarkSettled(receipts, id)
  {
    forall r | r in receipts && r.steer != id ensures r in MarkSettled(receipts, id) {
      var i :| 0 <= i < |receipts| && receipts[i] == r;
      assert MarkSettled(receipts, id)[i] == r;
    }
  }

  lemma SettledReceipts(s: Steering, id: SteerId)
    requires ReceiptsInv(s) && id < |s.steers| && s.steers[id].stage.Succeeded? && Owing(s.steers[id])
    ensures ReceiptsInv(ReceiptSettles(s, id))
  {
    var marked := MarkSettled(s.receipts, id);
    assert KeysDistinct(marked);
    EvictKeysDistinct(marked);
    EvictExact(marked);
    MarkedMembers(s.receipts, id);
    var s' := ReceiptSettles(s, id);
    forall r | r in s'.receipts ensures ReceiptOk(r, s'.steers) {
      assert r in marked;
    }
    if !s.closed {
      forall i | 0 <= i < |s'.steers| && Owing(s'.steers[i])
        ensures Receipt(s'.steers[i].key.value, s'.steers[i].fingerprint, i, false) in s'.receipts
      {
        assert Receipt(s.steers[i].key.value, s.steers[i].fingerprint, i, false) in marked;
      }
    }
  }

  lemma ForgottenReceipts(s: Steering, id: SteerId)
    requires ReceiptsInv(s) && id < |s.steers| && s.steers[id].stage.Failed? && Owing(s.steers[id])
    ensures ReceiptsInv(ReceiptSettles(s, id))
  {
    var key := s.steers[id].key.value;
    var keep := OtherThan(key);
    FilterKeysDistinct(keep, s.receipts);
    FilterMembers(keep, s.receipts);
    var s' := ReceiptSettles(s, id);
    if !s.closed {
      var own := Receipt(key, s.steers[id].fingerprint, id, false);
      assert own in s.receipts;
      forall i | 0 <= i < |s'.steers| && Owing(s'.steers[i])
        ensures Receipt(s'.steers[i].key.value, s'.steers[i].fingerprint, i, false) in s'.receipts
      {
        var r := Receipt(s.steers[i].key.value, s.steers[i].fingerprint, i, false);
        assert r in s.receipts;
        var a :| 0 <= a < |s.receipts| && s.receipts[a] == own;
        var b :| 0 <= b < |s.receipts| && s.receipts[b] == r;
        assert a != b;
      }
    }
    forall r | r in s'.receipts ensures ReceiptOk(r, s'.steers) {
      assert r in s.receipts && r.key != key;
    }
  }

  lemma CloseReceipts(s: Steering)
    requires ReceiptsInv(s)
    ensures ReceiptsInv(Close(s))
  {
  }

  lemma StepReceiptsInv(s: Steering, event: Event)
    requires SteersInv(s) && ReceiptsInv(s)
    ensures ReceiptsInv(Step(s, event))
  {
    match event
    case RunCalled(thread, input) => RunReceipts(s, thread, input);
    case ConnectionClosed => CloseReceipts(s);
    case ReceiptResumed(id) =>
      if id < |s.steers| && Owing(s.steers[id]) {
        if s.steers[id].stage.Succeeded? { SettledReceipts(s, id); }
        if s.steers[id].stage.Failed? { ForgottenReceipts(s, id); }
      }
    case TerminalResumed(id, failureWins, thread) =>
      TerminalResumedQuiet(s, id, failureWins, thread);
      QuietReceipts(s, Step(s, event));
    case CancelResumed(_, _) => ResumeStepsQuiet(s, event); QuietReceipts(s, Step(s, event));
    case StartResult(_, _) => ResumeStepsQuiet(s, event); QuietReceipts(s, Step(s, event));
    case _ => PromiseStepsQuiet(s, event); QuietReceipts(s, Step(s, event));
  }

  lemma {:induction false} AfterReceiptsInv(events: seq<Event>)
    ensures ReceiptsInv(After(events))
  {
    if events != [] {
      AfterSteersInv(events[..|events| - 1]);
      AfterReceiptsInv(events[..|events| - 1]);
      StepReceiptsInv(After(events[..|events| - 1]), events[|events| - 1]);
    }
  }

  /**
   * Idempotence: while the connection is open and a steer's result has not been settled,
   * repeating its identity with the same input joins it and changes nothing, and with any
   * other input is refused. Its receipt is therefore never evicted.
   */
  lemma RepeatJoinsFirstResult(events: seq<Event>, id: SteerId, thread: Thread, input: SteerInput)
    requires !After(events).closed && id < |After(events).steers| && Owing(After(events).steers[id])
    requires KeyOf(thread.id, input) == After(events).steers[id].key
    ensures var s := After(events);
            Run(s, thread, input) ==
            (s, if FingerprintOf(input) == s.steers[id].fingerprint then Joined(id) else IdentityReused)
  {
    AfterReceiptsInv(events);
    var s := After(events);
    FindReceiptExact(s.receipts, s.steers[id].key.value);
    assert Receipt(s.steers[id].key.value, s.steers[id].fingerprint, id, false) in s.receipts;
  }

  /** The same for any receipt still kept: a repeat gets the result of the steer it was made for, and a settled one succeeded. */
  lemma RepeatJoinsKeptReceipt(events: seq<Event>, receipt: Receipt, thread: Thread, input: SteerInput)
    requires receipt in After(events).receipts && KeyOf(thread.id, input) == Some(receipt.key)
    ensures !After(events).closed && receipt.steer < |After(events).steers|
    ensures Run(After(events), thread, input) ==
            (After(events), if FingerprintOf(input) == receipt.fingerprint then Joined(receipt.steer) else IdentityReused)
    ensures After(events).steers[receipt.steer].key == Some(receipt.key)
    ensures After(events).steers[receipt.steer].fingerprint == receipt.fingerprint
    ensures receipt.settled ==> After(events).steers[receipt.steer].stage.Succeeded?
  {
    AfterReceiptsInv(events);
    FindReceiptExact(After(events).receipts, receipt.key);
    assert ReceiptOk(receipt, After(events).steers);
  }

  // ---- the object ---------------------------------------------------------------------------------

  class ExternalTurnSteering {
    var pending: map<ThreadId, SteerId>
    var receipts: seq<Receipt>
    var closed: bool
    var steers: seq<Steer>
    ghost var terminals: set<(ThreadId, Turn, TurnOutcome)>

    ghost function View(): Steering
      reads this
    {
      Steering(pending, receipts, closed, steers, terminals)
    }

    constructor ()
      ensures View() == Idle()
    {
      pending, receipts, closed, steers, terminals := map[], [], false, [], {};
    }

    method RunSteer(thread: Thread, input: SteerInput) returns (reply: Reply)
      modifies this
      ensures (View(), reply) == Run(old(View()), thread, input)
    {
      if closed {
        return Closed;
      }
      var key := KeyOf(thread.id, input);
      if key.Some? {
        var receipt := FindReceipt(receipts, key.value);
        if receipt.Some? {
          if receipt.value.fingerprint != FingerprintOf(input) {
            return IdentityReused;
          }
          return Joined(receipt.value.steer);
        }
      }
      if thread.id in pending {
        return AlreadyChanging;
      }
      if !thread.running {
        return NoActiveTurn;
      }
      if thread.activeTurn != Some(input.expectedTurn) {
        return NotTheActiveTurn;
      }
      var id := |steers|;
      steers := steers + [Steer(thread.id, input.expectedTurn, key, FingerprintOf(input), AwaitingCancel, None, None, false, 0, key.None?)];
      pending := pending[thread.id := id];
      if key.Some? {
        receipts := receipts + [Receipt(key.value, FingerprintOf(input), id, false)];
      }
      return Accepted(id);
    }

    method OnTerminal(thread: ThreadId, turn: Turn, outcome: TurnOutcome)
      modifies this
      ensures View() == Terminal(old(View()), thread, turn, outcome)
    {
      terminals := terminals + {(thread, turn, outcome)};
      if thread !in pending || pending[thread] >= |steers| {
        return;
      }
      var id := pending[thread];
      if steers[id].turn == turn && steers[id].terminal.None? {
        steers := steers[id := steers[id].(terminal := Some(outcome))];
      }
    }

    method OnFault(thread: ThreadId)
      modifies this`steers
      ensures View() == Fault(old(View()), thread)
    {
      if thread in pending && pending[thread] < |steers| {
        steers := steers[pending[thread] := steers[pending[thread]].(failure := true)];
      }
    }

    method OnInterrupt(thread: ThreadId, turn: Turn)
      modifies this`steers
      ensures View() == Interrupt(old(View()), thread, turn)
    {
      if thread in pending && pending[thread] < |steers| && steers[pending[thread]].turn == turn {
        OnFault(thread);
      }
    }

    method CloseAll()
      modifies this
      ensures View() == Close(old(View()))
    {
      closed := true;
      var threads := pending.Keys;
      ghost var start := steers;
      while threads != {}
        invariant threads <= pending.Keys && |steers| == |start|
        invariant forall i :: 0 <= i < |steers| ==>
          steers[i] == if exists t :: t in pending.Keys - threads && pending[t] == i then start[i].(failure := true) else start[i]
        decreases threads
        modifies this`steers
      {
        var thread :| thread in threads;
        threads := threads - {thread};
        ghost var before := steers;
        if pending[thread] < |steers| {
          steers := steers[pending[thread] := steers[pending[thread]].(failure := true)];
        }
        forall i | 0 <= i < |steers|
          ensures steers[i] == if exists t :: t in pending.Keys - threads && pending[t] == i then start[i].(failure := true) else start[i]
        {
          if i == pending[thread] {
            assert thread in pending.Keys - threads;
          } else if exists t :: t in pending.Keys - threads && pending[t] == i {
            var t :| t in pending.Keys - threads && pending[t] == i;
            assert t in pending.Keys - (threads + {thread});
          } else {
            assert forall t :: t in pending.Keys - (threads + {thread}) ==> t in pending.Keys - threads;
          }
        }
      }
      receipts := [];
      assert pending.Keys - threads == pending.Keys;
      assert forall i :: i in pending.Values <==> exists t :: t in pending.Keys && pending[t] == i;
      assert steers == Close(old(View())).steers;
    }

    method Finish(id: SteerId, stage: Stage)
      requires id < |steers|
      modifies this`pending, this`steers
      ensures View() == End(old(View()), id, stage)
    {
      var thread := steers[id].thread;
      steers := steers[id := steers[id].(stage := stage)];
      if thread in pending && pending[thread] == id {
        pending := map t | t in pending && t != thread :: pending[t];
      }
    }

    method OnTerminalResumed(id: SteerId, failureWins: bool, thread: Thread) returns (start: bool)
      modifies this
      ensures View() == ResumeAfterTerminal(old(View()), id, failureWins, thread)
      ensures start <==> id < |old(steers)| && steers[id].starts != old(steers)[id].starts
    {
      start := false;
      if id >= |steers| || !steers[id].stage.AwaitingTerminal? || thread.id != steers[id].thread {
        return;
      }
      if failureWins {
        if steers[id].failure {
          Finish(id, Failed);
        }
        return;
      }
      if steers[id].terminal.None? {
        return;
      }
      if steers[id].failure || closed || steers[id].terminal.value.TurnFailed? || thread.persistenceError {
        Finish(id, Failed);
        return;
      }
      if thread.running || thread.activeTurn.Some? {
        Finish(id, Failed);
        return;
      }
      steers := steers[id := steers[id].(stage := Starting, starts := steers[id].starts + 1)];
      start := true;
    }

    method OnReceiptResumed(id: SteerId)
      modifies this
      ensures View() == ReceiptSettles(old(View()), id)
    {
      if id >= |steers| || !Finished(steers[id]) || steers[id].receiptDone || steers[id].key.None? {
        return;
      }
      steers := steers[id := steers[id].(receiptDone := true)];
      if !steers[id].stage.Succeeded? {
        receipts := DeleteKey(receipts, steers[id].key.value);
        return;
      }
      receipts := MarkSettled(receipts, id);
      ghost var marked := receipts;
      while |receipts| > MAX_RECEIPTS
        invariant Evict(marked) == Evict(receipts)
        decreases |receipts|
        modifies this`receipts
      {
        if !AnySettled(receipts) {
          break;
        }
        DropOldestSettledExact(receipts);
        receipts := DropOldestSettled(receipts);
      }
    }
  }
}
