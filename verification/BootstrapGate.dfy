/**
 * The identity gate of packages/harness-broker/src/server.ts: what a session whose native
 * identity is not yet known may be told to do. The gate stands in `session.execute`;
 * `session.commands.execute` hands a turn of its own to the native session and passes no gate.
 */
module BootstrapGate {
  import opened Prelude
  import opened BrokerLeases

  // An admitted turn of the record that has not come back as failed.
  predicate UnfailedTurn(executions: map<Id, Execution>, ticket: Id, id: Id) {
    && ticket in executions && executions[ticket].record == id
    && executions[ticket].command.TurnStart? && !executions[ticket].failed
  }

  // The turn was given to the record under an earlier ticket.
  predicate TurnBefore(executions: map<Id, Execution>, start: Id, ticket: Id, id: Id) {
    && start < ticket && start in executions && executions[start].record == id && executions[start].command.TurnStart?
  }

  // A cancel is of a turn the record was given before, a response follows some turn of it.
  ghost predicate FollowsItsTurn(executions: map<Id, Execution>, ticket: Id, id: Id)
    requires ticket in executions
  {
    match executions[ticket].command
    case TurnCancel(turn) => exists u: Id :: TurnBefore(executions, u, ticket, id) && executions[u].command.turn == turn
    case Respond => exists u: Id :: TurnBefore(executions, u, ticket, id)
    case _ => true
  }

  // The turn a record remembers was given to it and has not failed.
  ghost predicate TurnKnown(r: Record, executions: map<Id, Execution>, id: Id) {
    r.bootstrap.Some? ==>
      exists t: Id :: UnfailedTurn(executions, t, id) && executions[t].command.turn == r.bootstrap.value
  }

  // While a record's gate is on: nothing but turns, their cancels and responses to their
  // interactions was admitted, and its one unfailed turn is the turn it remembers.
  ghost predicate Gated(r: Record, executions: map<Id, Execution>, id: Id) {
    && (forall t :: t in executions && executions[t].record == id ==> !executions[t].command.SelectOption?)
    && (forall t: Id :: UnfailedTurn(executions, t, id) ==> r.bootstrap == Some(executions[t].command.turn))
    && (forall t: Id, u: Id :: UnfailedTurn(executions, t, id) && UnfailedTurn(executions, u, id) ==> t == u)
    && (forall t: Id :: t in executions && executions[t].record == id ==> FollowsItsTurn(executions, t, id))
    && TurnKnown(r, executions, id)
  }

  ghost predicate GateInv(s: Broker) {
    forall id :: id in s.records && GateOn(s.records[id]) ==> Gated(s.records[id], s.executions, id)
  }

  // Tickets are never given another command, so what followed its turn still does.
  lemma StillFollows(executions: map<Id, Execution>, executions': map<Id, Execution>, ticket: Id, id: Id)
    requires ticket in executions && ticket in executions' && executions'[ticket].command == executions[ticket].command
    requires forall u: Id :: u in executions && executions[u].record == id ==>
               u in executions' && executions'[u].record == id && executions'[u].command == executions[u].command
    requires FollowsItsTurn(executions, ticket, id)
    ensures FollowsItsTurn(executions', ticket, id)
  {
    match executions[ticket].command
    case TurnCancel(turn) =>
      var u: Id :| TurnBefore(executions, u, ticket, id) && executions[u].command.turn == turn;
      assert TurnBefore(executions', u, ticket, id);
    case Respond =>
      var u: Id :| TurnBefore(executions, u, ticket, id);
      assert TurnBefore(executions', u, ticket, id);
    case _ =>
  }

  // A ticket for one record does not touch what is known about another.
  lemma OtherRecordGated(r: Record, executions: map<Id, Execution>, id: Id, ticket: Id, e: Execution)
    requires Gated(r, executions, id) && e.record != id && (ticket in executions ==> executions[ticket].record != id)
    ensures Gated(r, executions[ticket := e], id)
  {
    var executions' := executions[ticket := e];
    forall t | t in executions' && executions'[t].record == id
      ensures t in executions && executions'[t] == executions[t] && FollowsItsTurn(executions', t, id)
    {
      StillFollows(executions, executions', t, id);
    }
    forall t: Id ensures UnfailedTurn(executions', t, id) <==> UnfailedTurn(executions, t, id) {
    }
    TurnStillKnown(r, executions, executions', id);
  }

  lemma TurnStillKnown(r: Record, executions: map<Id, Execution>, executions': map<Id, Execution>, id: Id)
    requires TurnKnown(r, executions, id)
    requires forall u: Id :: UnfailedTurn(executions, u, id) ==> UnfailedTurn(executions', u, id) && executions'[u].command == executions[u].command
    ensures TurnKnown(r, executions', id)
  {
    if r.bootstrap.Some? {
      var t: Id :| UnfailedTurn(executions, t, id) && executions[t].command.turn == r.bootstrap.value;
      assert UnfailedTurn(executions', t, id);
    }
  }

  // What passes the gate is a turn, or follows the turn the record remembers.
  lemma AdmittedFollows(r: Record, executions: map<Id, Execution>, id: Id, ticket: Id, e: Execution)
    requires Gated(r, executions, id) && PassesGate(r, e.command) && e.record == id
    requires forall t :: t in executions ==> t < ticket
    ensures FollowsItsTurn(executions[ticket := e], ticket, id)
  {
    if r.bootstrap.Some? {
      var t: Id :| UnfailedTurn(executions, t, id) && executions[t].command.turn == r.bootstrap.value;
      assert TurnBefore(executions[ticket := e], t, ticket, id);
    }
  }

  lemma AdmittedGated(r: Record, executions: map<Id, Execution>, id: Id, ticket: Id, command: Command)
    requires Gated(r, executions, id) && GateOn(r) && PassesGate(r, command)
    requires forall t :: t in executions ==> t < ticket
    ensures Gated(if command.TurnStart? then r.(bootstrap := Some(command.turn)) else r,
                  executions[ticket := Execution(id, command, true, true, false)], id)
  {
    var e := Execution(id, command, true, true, false);
    var executions' := executions[ticket := e];
    forall t: Id | t != ticket ensures UnfailedTurn(executions', t, id) <==> UnfailedTurn(executions, t, id) {
    }
    forall t | t in executions' && executions'[t].record == id ensures FollowsItsTurn(executions', t, id) {
      if t == ticket { AdmittedFollows(r, executions, id, ticket, e); } else { StillFollows(executions, executions', t, id); }
    }
    if command.TurnStart? { assert UnfailedTurn(executions', ticket, id); } else { TurnStillKnown(r, executions, executions', id); }
  }

  lemma FinishedGated(r: Record, executions: map<Id, Execution>, id: Id, ticket: Id, ok: bool)
    requires Gated(r, executions, id) && r.awaiting
    requires ticket in executions && executions[ticket].record == id && executions[ticket].pending
    requires !executions[ticket].failed
    ensures var e := executions[ticket];
            Gated(if !ok && e.command.TurnStart? && r.bootstrap == Some(e.command.turn) then r.(bootstrap := None) else r,
                  executions[ticket := e.(pending := false, failed := !ok)], id)
  {
    var e := executions[ticket];
    var executions' := executions[ticket := e.(pending := false, failed := !ok)];
    forall t: Id ensures UnfailedTurn(executions', t, id) ==> UnfailedTurn(executions, t, id) {
    }
    if !ok && e.command.TurnStart? {
      assert UnfailedTurn(executions, ticket, id);
    }
    forall t | t in executions' && executions'[t].record == id ensures FollowsItsTurn(executions', t, id) {
      StillFollows(executions, executions', t, id);
    }
    if ok || !e.command.TurnStart? { TurnStillKnown(r, executions, executions', id); }
  }

  // Only unfinished executions finish, and those have not failed.
  ghost predicate PendingUnfailed(executions: map<Id, Execution>) {
    forall t :: t in executions && executions[t].pending ==> !executions[t].failed
  }

  lemma StepPendingUnfailed(s: Broker, event: Event)
    requires PendingUnfailed(s.executions)
    ensures PendingUnfailed(Step(s, event).executions)
  {
    match event
    case ExecuteBegins(conn, id, generation, command) =>
    case ExecuteEnds(ticket, ok) =>
    case _ =>
      hide Step;
      hide PendingUnfailed;
      QuietStepSendsNothing(s, event);
  }

  lemma OpenSendsNothing(s: Broker, conn: Conn, input: OpenInput, id: Id, reply: OpenReply)
    ensures BeginOpen(s, conn, input).0.executions == s.executions
    ensures id in s.opens ==> FinishOpen(s, id, reply).0.executions == s.executions
  {
    hide IdentityAcceptable;
  }

  lemma ForwardSendsNothing(s: Broker, f: Forwarder, output: Output, id: Id)
    ensures Forward(s, f, output).executions == s.executions && FinishClose(s, id).executions == s.executions
  {
    hide IsCurrent;
  }

  lemma QuietStepSendsNothing(s: Broker, event: Event)
    requires !event.ExecuteBegins? && !event.ExecuteEnds?
    ensures Step(s, event).executions == s.executions
  {
    hide BeginOpen;
    hide FinishOpen;
    hide Forward;
    hide FinishClose;
    match event
    case OpenBegins(conn, input) => OpenSendsNothing(s, conn, input, 0, OpenFailed);
    case OpenEnds(id, reply) => OpenSendsNothing(s, 0, Create, id, reply);
    case Forwarded(f, output) => ForwardSendsNothing(s, f, output, 0);
    case CloseEnds(id) => ForwardSendsNothing(s, Forwarder(0, 0, 0, 0), Plain, id);
    case _ =>
  }

  lemma BeginExecuteGateInv(s: Broker, conn: Conn, id: Id, generation: nat, command: Command)
    requires IdsFresh(s) && GateInv(s)
    ensures GateInv(BeginExecute(s, conn, id, generation, command).0)
  {
    var (s', admitted) := BeginExecute(s, conn, id, generation, command);
    if admitted {
      forall other | other in s'.records && GateOn(s'.records[other]) ensures Gated(s'.records[other], s'.executions, other) {
        if other == id {
          AdmittedGated(s.records[id], s.executions, id, s.nextId, command);
        } else {
          OtherRecordGated(s.records[other], s.executions, other, s.nextId, s'.executions[s.nextId]);
        }
      }
    }
  }

  lemma FinishExecuteGateInv(s: Broker, ticket: Id, ok: bool)
    requires GateInv(s) && PendingUnfailed(s.executions)
    ensures GateInv(FinishExecute(s, ticket, ok))
  {
    var s' := FinishExecute(s, ticket, ok);
    if ticket in s.executions && s.executions[ticket].pending && s.executions[ticket].record in s.records {
      var id := s.executions[ticket].record;
      forall other | other in s'.records && GateOn(s'.records[other]) ensures Gated(s'.records[other], s'.executions, other) {
        if other == id {
          FinishedGated(s.records[id], s.executions, id, ticket, ok);
        } else {
          OtherRecordGated(s.records[other], s.executions, other, ticket, s'.executions[ticket]);
        }
      }
    }
  }

  // A gated record was already gated, with the same bootstrap turn.
  predicate GatedBefore(before: map<Id, Record>, after: map<Id, Record>, id: Id) {
    id in after && GateOn(after[id]) ==>
      id in before && GateOn(before[id]) && after[id].bootstrap == before[id].bootstrap
  }

  // A fault or a claimed identity ends the gate of its record, and touches no other.
  lemma ReleasedGate(s: Broker, releasing: Id, id: Id)
    requires releasing in s.records
    ensures GatedBefore(s.records, Fault(s, releasing).records, id)
    ensures forall ref :: GatedBefore(s.records, ReleaseProvisional(Claim(s, releasing, ref), releasing).records, id)
  {
  }

  lemma ForwardKeepsGate(s: Broker, f: Forwarder, output: Output, id: Id)
    ensures GatedBefore(s.records, Forward(s, f, output).records, id)
  {
    hide Fault;
    hide Claim;
    hide ReleaseProvisional;
    if IsCurrent(s, f) { ReleasedGate(s, f.record, id); }
  }

  lemma CloseKeepsGate(s: Broker, closing: Id, id: Id)
    ensures GatedBefore(s.records, BeginClose(s, closing).records, id)
    ensures GatedBefore(s.records, FinishClose(s, closing).records, id)
  {
    if id != closing {
      assert id in FinishClose(s, closing).records ==> id in s.records && FinishClose(s, closing).records[id] == s.records[id];
    }
  }

  lemma ShutdownKeepsGate(s: Broker, conn: Conn, id: Id)
    ensures GatedBefore(s.records, LoseConnection(s, conn).records, id)
    ensures GatedBefore(s.records, CloseServer(s).records, id)
  {
  }

  lemma ReopenKeepsGate(s: Broker, conn: Conn, reopening: Id, generation: nat, reply: OpenReply, id: Id)
    ensures GatedBefore(s.records, BeginReopen(s, conn, reopening, generation).records, id)
    ensures GatedBefore(s.records, FinishReopen(s, reopening, reply).records, id)
  {
  }

  lemma QuietStepKeepsGate(s: Broker, event: Event, id: Id)
    requires !event.ExecuteBegins? && !event.ExecuteEnds?
    requires event.OpenEnds? && event.id in s.opens ==> event.id != id
    ensures GatedBefore(s.records, Step(s, event).records, id)
  {
    match event
    case OpenBegins(conn, input) =>
    case OpenEnds(opening, reply) =>
    case Forwarded(f, output) => ForwardKeepsGate(s, f, output, id);
    case CloseBegins(closing) => CloseKeepsGate(s, closing, id);
    case CloseEnds(closing) => CloseKeepsGate(s, closing, id);
    case ConnectionLost(conn) => ShutdownKeepsGate(s, conn, id);
    case ServerCloses => ShutdownKeepsGate(s, 0, id);
    case ReopenBegins(conn, reopening, generation) => ReopenKeepsGate(s, conn, reopening, generation, OpenFailed, id);
    case ReopenEnds(reopening, reply) => ReopenKeepsGate(s, 0, reopening, 0, reply, id);
    case InvokeBegins(conn, invoking, generation, turn, offered) =>
    case InvokeEnds(ticket, ok) =>
  }

  lemma FreshRecordGated(s: Broker, id: Id, r: Record)
    requires IdsFresh(s) && id in s.opens && r.bootstrap.None?
    ensures Gated(r, s.executions, id)
  {
    assert forall t :: t in s.executions ==> s.executions[t].record != id;
  }

  lemma QuietStepGateInv(s: Broker, event: Event)
    requires IdsFresh(s) && GateInv(s) && !event.ExecuteBegins? && !event.ExecuteEnds?
    ensures GateInv(Step(s, event))
  {
    var records := Step(s, event).records;
    QuietStepSendsNothing(s, event);
    forall id | id in records && GateOn(records[id]) ensures Gated(records[id], s.executions, id) {
      if event.OpenEnds? && event.id in s.opens && event.id == id {
        FreshRecordGated(s, id, records[id]);
      } else {
        QuietStepKeepsGate(s, event, id);
        assert Gated(s.records[id], s.executions, id);
      }
    }
  }

  lemma {:induction false} RunGateInv(harness: nat, events: seq<Event>)
    ensures GateInv(Run(Empty(harness), events)) && PendingUnfailed(Run(Empty(harness), events).executions)
  {
    if events != [] {
      var before, event := events[..|events| - 1], events[|events| - 1];
      var s := Run(Empty(harness), before);
      RunInv(harness, before);
      RunGateInv(harness, before);
      StepPendingUnfailed(s, event);
      match event
      case ExecuteBegins(conn, id, generation, command) => BeginExecuteGateInv(s, conn, id, generation, command);
      case ExecuteEnds(ticket, ok) => FinishExecuteGateInv(s, ticket, ok);
      case _ => QuietStepGateInv(s, event);
    }
  }

  /**
   * A live session of unknown identity is gated exactly while it has not faulted. While it
   * is gated, `session.execute` gave it at most one turn that has not failed; every cancel it
   * was given is of a turn it had been given, every response came after one, and no option changed.
   */
  lemma UnidentifiedSessionIsGated(harness: nat, events: seq<Event>, id: Id)
    requires Live(Run(Empty(harness), events).records, id)
    requires Run(Empty(harness), events).records[id].writerKey.None?
    ensures var s := Run(Empty(harness), events);
            && (GateOn(s.records[id]) <==> !s.records[id].faulted)
            && (!s.records[id].faulted ==> Gated(s.records[id], s.executions, id))
  {
    RunInv(harness, events);
    RunGateInv(harness, events);
    assert Consistent(Run(Empty(harness), events).records[id]);
  }

  // The gate decides: of the commands its owner may send, exactly those that pass it are admitted.
  ghost predicate OnlyBootstrapAdmitted(s: Broker, conn: Conn, id: Id, generation: nat)
    requires id in s.records
  {
    forall command: Command :: BeginExecute(s, conn, id, generation, command).1 <==> PassesGate(s.records[id], command)
  }

  // What an owner may send to a session on either route.
  datatype Request = Execute(command: Command) | Invoke(turn: Turn)

  predicate Admits(s: Broker, conn: Conn, id: Id, generation: nat, request: Request) {
    match request
    case Execute(command) => BeginExecute(s, conn, id, generation, command).1
    case Invoke(turn) => BeginInvoke(s, conn, id, generation, turn, true).1
  }

  // The bootstrap turn, its continuations, and any harness command at all.
  ghost predicate BootstrapOrInvocation(s: Broker, conn: Conn, id: Id, generation: nat)
    requires id in s.records
  {
    forall request: Request ::
      Admits(s, conn, id, generation, request) <==> request.Invoke? || PassesGate(s.records[id], request.command)
  }

  /**
   * The exact condition: in every reachable state the owner of an unidentified session can
   * have only its one bootstrap turn, that turn's cancel and responses admitted by
   * `session.execute` if and only if the session has not faulted. What is admitted on either
   * route is then that or an invocation of a harness command, which is never refused.
   */
  lemma BootstrapOnlyUnlessFaulted(harness: nat, events: seq<Event>, conn: Conn, id: Id, generation: nat)
    requires MayUse(Run(Empty(harness), events), conn, id, generation)
    requires Run(Empty(harness), events).records[id].writerKey.None?
    ensures OnlyBootstrapAdmitted(Run(Empty(harness), events), conn, id, generation)
       <==> !Run(Empty(harness), events).records[id].faulted
    ensures BootstrapOrInvocation(Run(Empty(harness), events), conn, id, generation)
       <==> !Run(Empty(harness), events).records[id].faulted
  {
    hide Run;
    var s := Run(Empty(harness), events);
    UnidentifiedSessionIsGated(harness, events, id);
    if s.records[id].faulted {
      assert BeginExecute(s, conn, id, generation, SelectOption).1 && !PassesGate(s.records[id], SelectOption);
      assert Admits(s, conn, id, generation, Execute(SelectOption));
    }
  }

  // ---- turns given on either route ----------------------------------------------------------------

  predicate UnfailedInvocation(invocations: map<Id, Invocation>, ticket: Id, id: Id) {
    ticket in invocations && invocations[ticket].record == id && !invocations[ticket].failed
  }

  ghost function TurnsStarted(s: Broker, id: Id): set<Id> {
    set t | t in s.executions && UnfailedTurn(s.executions, t, id)
  }

  ghost function TurnsInvoked(s: Broker, id: Id): set<Id> {
    set t | t in s.invocations && UnfailedInvocation(s.invocations, t, id)
  }

  // How many turns the native session of a record was handed that have not failed.
  ghost function TurnsGiven(s: Broker, id: Id): nat {
    |TurnsStarted(s, id)| + |TurnsInvoked(s, id)|
  }

  /**
   * Counting both routes: an unidentified session that has not faulted was given exactly its
   * unfailed invocations and, if it remembers a bootstrap turn, that one. So it was given at
   * most one turn if and only if these are at most one.
   */
  lemma TurnsGivenExactly(harness: nat, events: seq<Event>, id: Id)
    requires Live(Run(Empty(harness), events).records, id)
    requires Run(Empty(harness), events).records[id].writerKey.None? && !Run(Empty(harness), events).records[id].faulted
    ensures var s := Run(Empty(harness), events);
            TurnsGiven(s, id) == |TurnsInvoked(s, id)| + if s.records[id].bootstrap.Some? then 1 else 0
  {
    hide Run;
    UnidentifiedSessionIsGated(harness, events, id);
    var s := Run(Empty(harness), events);
    var bootstrap := s.records[id].bootstrap;
    if bootstrap.Some? {
      var t: Id :| UnfailedTurn(s.executions, t, id) && s.executions[t].command.turn == bootstrap.value;
      assert TurnsStarted(s, id) == {t};
    } else {
      assert TurnsStarted(s, id) == {};
    }
  }

  const CREATE := OpenBegins(7, Create)
  const OPENED := OpenEnds(0, OpenOk(5, None))
  const FAULTED := Forwarded(Forwarder(0, 5, 1, 1), SessionFaulted)
  const FIRST_TURN := ExecuteBegins(7, 0, 1, TurnStart(1))
  const SECOND_TURN := ExecuteBegins(7, 0, 1, TurnStart(2))

  function FaultedUnidentified(): Record {
    Record(7, Registered, 1, 1, 5, None, None, false, false, None, true)
  }

  function Unidentified(): Record {
    Record(7, Registered, 1, 1, 5, None, None, true, true, None, false)
  }

  lemma OpenedReached()
    ensures var s := Run(Empty(0), [CREATE, OPENED]);
            && s.records == map[0 := Unidentified()] && !s.closed && s.lost == {} && s.nextId == 1
            && s.executions == map[] && s.invocations == map[]
  {
    var s1 := Run(Empty(0), [CREATE]);
    RunSnoc(Empty(0), [], CREATE);
    RunSnoc(Empty(0), [CREATE], OPENED);
    assert [] + [CREATE] == [CREATE] && [CREATE] + [OPENED] == [CREATE, OPENED];
    assert s1.opens == map[0 := Opening(7, Create)] && s1.records == map[] && s1.provisional == Some(0);
  }

  lemma FaultedUnidentifiedReached()
    ensures var s := Run(Empty(0), [CREATE, OPENED, FAULTED]);
            s.records == map[0 := FaultedUnidentified()] && !s.closed && s.lost == {} && s.nextId == 1 && s.executions == map[]
  {
    OpenedReached();
    RunSnoc(Empty(0), [CREATE, OPENED], FAULTED);
    hide Run;
    assert [CREATE, OPENED] + [FAULTED] == [CREATE, OPENED, FAULTED];
  }

  /** Once an unidentified session has faulted the gate is off: two unfailed turns get through. */
  lemma FaultedUnidentifiedSessionTakesTwoTurns()
    ensures var s := Run(Empty(0), [CREATE, OPENED, FAULTED, FIRST_TURN, SECOND_TURN]);
            && Live(s.records, 0) && s.records[0].writerKey.None? && s.records[0].faulted
            && UnfailedTurn(s.executions, 1, 0) && UnfailedTurn(s.executions, 2, 0)
  {
    FaultedUnidentifiedReached();
    var s3 := Run(Empty(0), [CREATE, OPENED, FAULTED]);
    var s4 := Run(Empty(0), [CREATE, OPENED, FAULTED, FIRST_TURN]);
    RunSnoc(Empty(0), [CREATE, OPENED, FAULTED], FIRST_TURN);
    RunSnoc(Empty(0), [CREATE, OPENED, FAULTED, FIRST_TURN], SECOND_TURN);
    assert [CREATE, OPENED, FAULTED] + [FIRST_TURN] == [CREATE, OPENED, FAULTED, FIRST_TURN];
    assert [CREATE, OPENED, FAULTED, FIRST_TURN] + [SECOND_TURN] == [CREATE, OPENED, FAULTED, FIRST_TURN, SECOND_TURN];
    assert s4.executions == map[1 := Execution(0, TurnStart(1), false, true, false)] && s4.nextId == 2;
    assert s4.records[0] == FaultedUnidentified();
  }

  const INVOKED := InvokeBegins(7, 0, 1, 3, true)

  /** A session that has not faulted takes a second turn too, when a harness command is invoked in it. */
  lemma InvokedSessionTakesTwoTurns()
    ensures var s := Run(Empty(0), [CREATE, OPENED, INVOKED, FIRST_TURN]);
            && Live(s.records, 0) && GateOn(s.records[0]) && !s.records[0].faulted
            && TurnsInvoked(s, 0) == {1} && TurnsStarted(s, 0) == {2} && TurnsGiven(s, 0) == 2
  {
    OpenedReached();
    RunSnoc(Empty(0), [CREATE, OPENED], INVOKED);
    RunSnoc(Empty(0), [CREATE, OPENED, INVOKED], FIRST_TURN);
    hide Run;
    assert [CREATE, OPENED] + [INVOKED] == [CREATE, OPENED, INVOKED];
    assert [CREATE, OPENED, INVOKED] + [FIRST_TURN] == [CREATE, OPENED, INVOKED, FIRST_TURN];
    var s3, s4 := Run(Empty(0), [CREATE, OPENED, INVOKED]), Run(Empty(0), [CREATE, OPENED, INVOKED, FIRST_TURN]);
    assert s3.invocations == map[1 := Invocation(0, 3, true, false)] && s3.nextId == 2 && s3.records == map[0 := Unidentified()];
    assert s4.executions == map[2 := Execution(0, TurnStart(1), true, true, false)] && s4.invocations == s3.invocations;
  }
}
