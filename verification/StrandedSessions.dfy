/**
 * A session of packages/harness-broker/src/server.ts that is closed while it is being
 * reopened. The reopen does not look its record up again, so it installs a new native
 * session in a record whose key the close has given back.
 */
module StrandedSessions {
  import opened Prelude
  import opened BrokerLeases

  // The reply opens the native session again under its old identity.
  predicate Reopens(s: Broker, id: Id, reply: OpenReply) {
    && id in s.reopening && id in s.records
    && reply.OpenOk? && reply.ref.Some? && reply.ref == s.records[id].nativeRef
  }

  // A close of this record finished while a reopen of it was under way.
  ghost predicate ClosedWhileReopening(harness: nat, events: seq<Event>, id: Id) {
    exists n: nat :: n < |events| && ClosesReopening(harness, events, n, id)
  }

  predicate ClosesReopening(harness: nat, events: seq<Event>, n: nat, id: Id)
    requires n < |events|
  {
    var s := Run(Empty(harness), events[..n]);
    events[n] == CloseEnds(id) && id in s.records && s.records[id].phase.Closing? && id in s.reopening
  }

  // A record stays, and its phase only moves on: to closing, and by the end of its close to gone.
  predicate PhaseMoves(s: Broker, s': Broker, event: Event, id: Id) {
    id in s.records ==>
      && id in s'.records
      && (s'.records[id].phase == s.records[id].phase
          || (s.records[id].phase.Registered? && s'.records[id].phase.Closing?)
          || (s.records[id].phase.Closing? && s'.records[id].phase.Gone? && event == CloseEnds(id)))
  }

  lemma OpenMoves(s: Broker, event: Event, id: Id)
    requires IdsFresh(s) && (event.OpenBegins? || event.OpenEnds?)
    ensures PhaseMoves(s, Step(s, event), event, id) && Step(s, event).reopening == s.reopening
  {
    hide IdentityAcceptable;
  }

  lemma OutputMoves(s: Broker, f: Forwarder, output: Output, event: Event, id: Id)
    ensures PhaseMoves(s, Forward(s, f, output), event, id) && Forward(s, f, output).reopening == s.reopening
  {
    if IsCurrent(s, f) {
      FaultMoves(s, f.record, event, id);
      hide Fault;
      hide ReleaseProvisional;
      hide Claim;
      if output.StateChanged? && output.ref.Some? { ClaimMoves(s, f.record, output.ref.value, event, id); }
    }
  }

  lemma FaultMoves(s: Broker, faulted: Id, event: Event, id: Id)
    requires faulted in s.records
    ensures PhaseMoves(s, Fault(s, faulted), event, id) && Fault(s, faulted).reopening == s.reopening
  {
  }

  lemma ClaimMoves(s: Broker, claiming: Id, ref: NativeRef, event: Event, id: Id)
    requires claiming in s.records
    ensures var s' := ReleaseProvisional(Claim(s, claiming, ref), claiming);
            PhaseMoves(s, s', event, id) && s'.reopening == s.reopening
  {
  }

  lemma CloseMoves(s: Broker, event: Event, id: Id)
    requires event.CloseBegins? || event.CloseEnds? || event.ConnectionLost? || event.ServerCloses?
    ensures PhaseMoves(s, Step(s, event), event, id) && Step(s, event).reopening == s.reopening
  {
  }

  lemma RequestMoves(s: Broker, event: Event, id: Id)
    requires event.ExecuteBegins? || event.ExecuteEnds? || event.InvokeBegins? || event.InvokeEnds?
    ensures PhaseMoves(s, Step(s, event), event, id) && Step(s, event).reopening == s.reopening
  {
    hide PassesGate;
  }

  // Only a registered record starts being reopened.
  lemma ReopenMoves(s: Broker, event: Event, id: Id)
    requires event.ReopenBegins? || event.ReopenEnds?
    ensures PhaseMoves(s, Step(s, event), event, id)
    ensures id in Step(s, event).reopening ==> id in s.reopening || (IsRegistered(s, id) && Step(s, event).records[id].phase.Registered?)
  {
  }

  lemma StepMoves(s: Broker, event: Event, id: Id)
    requires IdsFresh(s)
    ensures PhaseMoves(s, Step(s, event), event, id)
    ensures id in Step(s, event).reopening ==>
              id in s.reopening || (IsRegistered(s, id) && id in Step(s, event).records && Step(s, event).records[id].phase.Registered?)
  {
    match event
    case OpenBegins(_, _) => OpenMoves(s, event, id);
    case OpenEnds(_, _) => OpenMoves(s, event, id);
    case Forwarded(f, output) => OutputMoves(s, f, output, event, id);
    case ReopenBegins(_, _, _) => ReopenMoves(s, event, id);
    case ReopenEnds(_, _) => ReopenMoves(s, event, id);
    case CloseBegins(_) => CloseMoves(s, event, id);
    case CloseEnds(_) => CloseMoves(s, event, id);
    case ConnectionLost(_) => CloseMoves(s, event, id);
    case ServerCloses => CloseMoves(s, event, id);
    case _ => RequestMoves(s, event, id);
  }

  lemma {:induction false} GoneMeansClosed(harness: nat, events: seq<Event>, id: Id)
    requires id in Run(Empty(harness), events).reopening && id in Run(Empty(harness), events).records
    requires Run(Empty(harness), events).records[id].phase.Gone?
    ensures ClosedWhileReopening(harness, events, id)
  {
    if events != [] {
      var front, last := events[..|events| - 1], events[|events| - 1];
      RunInv(harness, front);
      var s := Run(Empty(harness), front);
      StepMoves(s, last, id);
      hide Step;
      assert id in s.reopening && id in s.records;
      if s.records[id].phase.Gone? {
        GoneMeansClosed(harness, front, id);
        var n: nat :| n < |front| && ClosesReopening(harness, front, n, id);
        assert front[..n] == events[..n];
        assert ClosesReopening(harness, events, n, id);
      } else {
        assert ClosesReopening(harness, events, |events| - 1, id);
      }
    }
  }

  lemma {:induction false} ClosedMeansGone(harness: nat, events: seq<Event>, n: nat, id: Id)
    requires n < |events| && ClosesReopening(harness, events, n, id)
    ensures id in Run(Empty(harness), events).records && Run(Empty(harness), events).records[id].phase.Gone?
    decreases |events|
  {
    var front := events[..|events| - 1];
    if n < |events| - 1 {
      assert front[..n] == events[..n];
      ClosedMeansGone(harness, front, n, id);
      RunInv(harness, front);
      StepMoves(Run(Empty(harness), front), events[|events| - 1], id);
    }
  }

  /**
   * Exactly when it happens: a reopen installs a session whose key its record does not own if
   * and only if a close of the record finished while it was being reopened.
   */
  lemma ReopenStrandsExactly(harness: nat, events: seq<Event>, id: Id, reply: OpenReply)
    requires Reopens(Run(Empty(harness), events), id, reply)
    ensures var s' := Run(Empty(harness), events + [ReopenEnds(id, reply)]);
            && id in s'.records && s'.records[id].session == reply.handle && s'.records[id].writerKey.Some?
            && (!OwnsItsKey(s', id) <==> ClosedWhileReopening(harness, events, id))
  {
    RunInv(harness, events);
    RunSnoc(Empty(harness), events, ReopenEnds(id, reply));
    var s := Run(Empty(harness), events);
    hide Run;
    OwnedExactly(s, id, reply);
    if s.records[id].phase.Gone? { GoneMeansClosed(harness, events, id); }
    if ClosedWhileReopening(harness, events, id) {
      var n: nat :| n < |events| && ClosesReopening(harness, events, n, id);
      ClosedMeansGone(harness, events, n, id);
    }
  }

  lemma OwnedExactly(s: Broker, id: Id, reply: OpenReply)
    requires Inv(s) && Reopens(s, id, reply)
    ensures var s' := Step(s, ReopenEnds(id, reply));
            && id in s'.records && s'.records[id].session == reply.handle && s'.records[id].writerKey.Some?
            && (!OwnsItsKey(s', id) <==> s.records[id].phase.Gone?)
  {
    assert Consistent(s.records[id]);
    var key := s.records[id].writerKey.value;
    assert (key in s.writers && s.writers[key] == id) <==> Entitled(s.opens, s.records, key, id);
  }

  const REF := NativeRef(0, 3, 1)

  function Held(owner: Conn, session: Handle): Record {
    Record(owner, Registered, 1, 1, session, Some(REF), Some(3), false, false, None, false)
  }

  lemma Continue(events: seq<Event>, event: Event, s: Broker, s': Broker)
    requires Run(Empty(0), events) == s && Step(s, event) == s'
    ensures Run(Empty(0), events + [event]) == s'
  {
    RunSnoc(Empty(0), events, event);
  }

  const OPEN := OpenBegins(7, Create)
  const OPENED := OpenEnds(0, OpenOk(5, Some(REF)))
  const FAULTED := Forwarded(Forwarder(0, 5, 1, 1), SessionFaulted)
  const REOPEN := ReopenBegins(7, 0, 1)
  const CLOSE := CloseBegins(0)
  const CLOSED := CloseEnds(0)
  const RESUME := OpenBegins(8, Resume(REF))
  const RESUMED := OpenEnds(1, OpenOk(6, Some(REF)))
  const REOPENED := ReopenEnds(0, OpenOk(9, Some(REF)))

  lemma FaultedReached()
    ensures Run(Empty(0), [OPEN, OPENED, FAULTED]) ==
      Empty(0).(nextId := 1, records := map[0 := Held(7, 5).(faulted := true)], writers := map[3 := 0])
  {
    var s1 := Empty(0).(nextId := 1, opens := map[0 := Opening(7, Create)], provisional := Some(0));
    var s2 := Empty(0).(nextId := 1, records := map[0 := Held(7, 5)], writers := map[3 := 0]);
    var s3 := s2.(records := map[0 := Held(7, 5).(faulted := true)]);
    assert [] + [OPEN] == [OPEN] && [OPEN] + [OPENED] == [OPEN, OPENED] && [OPEN, OPENED] + [FAULTED] == [OPEN, OPENED, FAULTED];
    assert Step(s1, OPENED) == s2;
    assert Step(s2, FAULTED) == s3;
    Continue([], OPEN, Empty(0), s1);
    hide Step;
    Continue([OPEN], OPENED, s1, s2);
    Continue([OPEN, OPENED], FAULTED, s2, s3);
  }

  lemma ReopeningReached()
    ensures Run(Empty(0), [OPEN, OPENED, FAULTED, REOPEN]) ==
      Empty(0).(nextId := 1, records := map[0 := Held(7, 5).(faulted := true, epoch := 2)], reopening := {0}, writers := map[3 := 0])
  {
    FaultedReached();
    hide Run;
    var s3 := Empty(0).(nextId := 1, records := map[0 := Held(7, 5).(faulted := true)], writers := map[3 := 0]);
    var s4 := s3.(records := map[0 := Held(7, 5).(faulted := true, epoch := 2)], reopening := {0});
    assert MayUse(s3, 7, 0, 1) && 0 !in s3.reopening;
    assert Step(s3, REOPEN).records == s4.records && Step(s3, REOPEN).reopening == s4.reopening;
    Continue([OPEN, OPENED, FAULTED], REOPEN, s3, s4);
    assert [OPEN, OPENED, FAULTED] + [REOPEN] == [OPEN, OPENED, FAULTED, REOPEN];
  }

  lemma ClosedMeanwhile()
    ensures Run(Empty(0), [OPEN, OPENED, FAULTED, REOPEN, CLOSE, CLOSED]) ==
      Empty(0).(nextId := 1, records := map[0 := Held(7, 5).(faulted := true, epoch := 3, phase := Gone)], reopening := {0})
  {
    ReopeningReached();
    var s4 := Empty(0).(nextId := 1, records := map[0 := Held(7, 5).(faulted := true, epoch := 2)], reopening := {0}, writers := map[3 := 0]);
    var s5 := s4.(records := map[0 := Held(7, 5).(faulted := true, epoch := 3, phase := Closing)]);
    var s6 := s5.(records := map[0 := Held(7, 5).(faulted := true, epoch := 3, phase := Gone)], writers := map[]);
    var events := [OPEN, OPENED, FAULTED, REOPEN];
    assert Step(s4, CLOSE).records == s5.records;
    Continue(events, CLOSE, s4, s5);
    assert Step(s5, CLOSED).records == s6.records && Step(s5, CLOSED).writers == s6.writers;
    Continue(events + [CLOSE], CLOSED, s5, s6);
    assert events + [CLOSE] + [CLOSED] == [OPEN, OPENED, FAULTED, REOPEN, CLOSE, CLOSED];
  }

  /**
   * It happens: the session is closed while it is reopened, another connection resumes the
   * same native session, and then the reopen installs a second live one for the same key.
   */
  lemma TwoSessionsOfOneKey()
    ensures var s := Run(Empty(0), [OPEN, OPENED, FAULTED, REOPEN, CLOSE, CLOSED, RESUME, RESUMED, REOPENED]);
            && 0 in s.records && 1 in s.records && s.records[0].session == 9 && s.records[1].session == 6
            && s.records[0].nativeRef == s.records[1].nativeRef == Some(REF)
            && IsRegistered(s, 1) && s.writers == map[3 := 1]
  {
    ClosedMeanwhile();
    var gone := Held(7, 5).(faulted := true, epoch := 3, phase := Gone);
    var s6 := Empty(0).(nextId := 1, records := map[0 := gone], reopening := {0});
    var s7 := s6.(nextId := 2, opens := map[1 := Opening(8, Resume(REF))], writers := map[3 := 1]);
    var s8 := s7.(opens := map[], records := map[0 := gone, 1 := Held(8, 6)]);
    var s9 := s8.(records := map[0 := gone.(session := 9, generation := 2, faulted := false), 1 := Held(8, 6)], reopening := {});
    var events := [OPEN, OPENED, FAULTED, REOPEN, CLOSE, CLOSED];
    Continue(events, RESUME, s6, s7);
    assert Step(s7, RESUMED).records == s8.records && Step(s7, RESUMED).opens == s8.opens && Step(s7, RESUMED).writers == s8.writers;
    Continue(events + [RESUME], RESUMED, s7, s8);
    assert Step(s8, REOPENED).records == s9.records && Step(s8, REOPENED).reopening == s9.reopening;
    Continue(events + [RESUME] + [RESUMED], REOPENED, s8, s9);
    assert events + [RESUME] + [RESUMED] + [REOPENED] == [OPEN, OPENED, FAULTED, REOPEN, CLOSE, CLOSED, RESUME, RESUMED, REOPENED];
  }
}
