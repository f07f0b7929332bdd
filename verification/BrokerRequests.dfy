/**
 * What becomes of the requests on a session of packages/harness-broker/src/server.ts: which
 * commands its owner gets through, told from what the session was given before, and what an
 * admitted command, its answer and an output leave behind.
 */
module BrokerRequests {
  import opened Prelude
  import opened BrokerLeases
  import opened BootstrapGate

  // The connection is the owner of the open session and names its present generation.
  predicate Owner(s: Broker, conn: Conn, id: Id, generation: nat) {
    && !s.closed && conn !in s.lost && id in s.records && s.records[id].phase == Registered
    && s.records[id].owner == conn && s.records[id].generation == generation
  }

  // A turn was given through `session.execute`, and has not come back as failed.
  ghost predicate HasTurn(s: Broker, id: Id) {
    exists t: Id :: UnfailedTurn(s.executions, t, id)
  }

  ghost predicate HasThisTurn(s: Broker, id: Id, turn: Turn) {
    exists t: Id :: UnfailedTurn(s.executions, t, id) && s.executions[t].command.turn == turn
  }

  // What an unidentified session takes: its first turn, the cancel of that turn, and responses to it.
  ghost predicate FirstTurnOnly(s: Broker, id: Id, command: Command) {
    match command
    case TurnStart(_) => !HasTurn(s, id)
    case TurnCancel(turn) => HasThisTurn(s, id, turn)
    case Respond => HasTurn(s, id)
    case SelectOption => false
  }

  lemma BootstrapIsTheTurn(s: Broker, id: Id)
    requires GateInv(s) && id in s.records && GateOn(s.records[id])
    ensures s.records[id].bootstrap.Some? <==> HasTurn(s, id)
    ensures forall turn: Turn :: s.records[id].bootstrap == Some(turn) <==> HasThisTurn(s, id, turn)
  {
    var bootstrap := s.records[id].bootstrap;
    if bootstrap.Some? {
      var t: Id :| UnfailedTurn(s.executions, t, id) && s.executions[t].command.turn == bootstrap.value;
      assert HasThisTurn(s, id, bootstrap.value);
    }
  }

  /**
   * Admission, exactly, in every reachable state: a command goes through if and only if it comes
   * from the owner and the session has a known identity, or has faulted, or the command is its
   * first turn or belongs to that turn.
   */
  lemma AdmittedExactly(harness: nat, events: seq<Event>, conn: Conn, id: Id, generation: nat, command: Command)
    ensures var s := Run(Empty(harness), events);
            BeginExecute(s, conn, id, generation, command).1 <==>
              Owner(s, conn, id, generation)
              && (s.records[id].nativeRef.Some? || s.records[id].faulted || FirstTurnOnly(s, id, command))
  {
    var s := Run(Empty(harness), events);
    RunInv(harness, events);
    RunGateInv(harness, events);
    hide Run;
    if Owner(s, conn, id, generation) {
      assert Consistent(s.records[id]);
      if s.records[id].nativeRef.None? && !s.records[id].faulted { BootstrapIsTheTurn(s, id); }
    }
  }

  // Nothing changed but the open executions, the ticket counter, and what one record remembers of its first turn.
  ghost predicate OnlyExecutes(s: Broker, s': Broker, id: Id) {
    && id in s.records && id in s'.records
    && s' == s.(nextId := s'.nextId, executions := s'.executions,
                records := s.records[id := s.records[id].(bootstrap := s'.records[id].bootstrap)])
  }

  /**
   * An admitted command is open under a new ticket, as it was sent, and every earlier one is as
   * it was; a refused one leaves no trace.
   */
  lemma AdmittedIsGiven(harness: nat, events: seq<Event>, conn: Conn, id: Id, generation: nat, command: Command)
    ensures var s := Run(Empty(harness), events);
            var (s', admitted) := BeginExecute(s, conn, id, generation, command);
            if admitted then
              && OnlyExecutes(s, s', id)
              && s.nextId !in s.executions && s'.executions.Keys == s.executions.Keys + {s.nextId}
              && s'.executions[s.nextId].record == id && s'.executions[s.nextId].command == command
              && s'.executions[s.nextId].pending && !s'.executions[s.nextId].failed
              && (forall t :: t in s.executions ==> s'.executions[t] == s.executions[t])
              && (s.records[id].nativeRef.Some? ==> s'.records == s.records)
            else s' == s
  {
    RunInv(harness, events);
    hide Run;
    var s := Run(Empty(harness), events);
    if id in s.records { assert Consistent(s.records[id]); }
    hide RecordsConsistent;
    hide WritersExact;
    hide LeaseExact;
    hide PassesGate;
  }

  /** The answer to an open command is its answer, once; a failed first turn is forgotten, and no other. */
  lemma AnswerIsKept(harness: nat, events: seq<Event>, ticket: Id, ok: bool)
    requires ticket in Run(Empty(harness), events).executions && Run(Empty(harness), events).executions[ticket].pending
    ensures var s := Run(Empty(harness), events);
            var s', id := FinishExecute(s, ticket, ok), s.executions[ticket].record;
            && OnlyExecutes(s, s', id) && s'.nextId == s.nextId && s'.executions.Keys == s.executions.Keys
            && !s'.executions[ticket].pending && s'.executions[ticket].failed == !ok
            && s'.executions[ticket].command == s.executions[ticket].command && s'.executions[ticket].record == id
            && (forall t :: t in s.executions && t != ticket ==> s'.executions[t] == s.executions[t])
            && FinishExecute(s', ticket, !ok) == s'
  {
    RunInv(harness, events);
    hide Run;
  }

  /** A harness command of the owner is handed on, whatever is known of the session, if it has commands at all. */
  lemma InvokedExactly(s: Broker, conn: Conn, id: Id, generation: nat, turn: Turn, offered: bool)
    requires IdsFresh(s)
    ensures var (s', admitted) := BeginInvoke(s, conn, id, generation, turn, offered);
            && (admitted <==> offered && Owner(s, conn, id, generation))
            && if admitted then
                 && s' == s.(nextId := s'.nextId, invocations := s'.invocations) && s'.nextId > s.nextId
                 && s'.invocations.Keys == s.invocations.Keys + {s.nextId}
                 && s'.invocations[s.nextId].record == id && s'.invocations[s.nextId].turn == turn
                 && s'.invocations[s.nextId].pending && !s'.invocations[s.nextId].failed
                 && (forall t :: t in s.invocations && t != s.nextId ==> s'.invocations[t] == s.invocations[t])
               else s' == s
  {
  }

  /** Its answer is kept once, and nothing else changes. */
  lemma InvocationAnswered(s: Broker, ticket: Id, ok: bool)
    ensures var s' := FinishInvoke(s, ticket, ok);
            if ticket in s.invocations && s.invocations[ticket].pending then
              && s' == s.(invocations := s'.invocations) && s'.invocations.Keys == s.invocations.Keys
              && s'.invocations[ticket] == s.invocations[ticket].(pending := false, failed := !ok)
              && (forall t :: t in s.invocations && t != ticket ==> s'.invocations[t] == s.invocations[t])
            else s' == s
  {
  }
}
