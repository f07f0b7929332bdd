/**
 * Runs of the two-party protocol in BrokerProtocol that exist: from any reachable state of a
 * standing connection everything in flight can still be answered, and the server's frame
 * queue really can overflow under a client that keeps its own limit.
 */
module BrokerRuns {
  import opened Prelude
  import opened BrokerProtocol

  function StepAll(l: Link, events: seq<Event>): Link {
    if events == [] then l else Step(StepAll(l, Front(events)), Last(events))
  }

  lemma {:induction false} StepAllJoins(l: Link, a: seq<Event>, b: seq<Event>)
    ensures StepAll(l, a + b) == StepAll(StepAll(l, a), b)
  {
    if b == [] {
      assert a + b == a;
    } else {
      hide Step;
      StepAllJoins(l, a, Front(b));
      assert Front(a + b) == a + Front(b) && Last(a + b) == Last(b);
    }
  }

  lemma {:induction false} RunIsStepAll(events: seq<Event>)
    ensures Run(events) == StepAll(Connected(), events)
  {
    if events != [] {
      hide Step;
      hide Connected;
      RunIsStepAll(Front(events));
    }
  }

  lemma RunContinues(events: seq<Event>, more: seq<Event>)
    ensures Run(events + more) == StepAll(Run(events), more)
  {
    hide StepAll;
    hide Run;
    RunIsStepAll(events);
    RunIsStepAll(events + more);
    StepAllJoins(Connected(), events, more);
  }

  // ---- everything in flight can still be answered ------------------------------------------------

  ghost predicate Standing(l: Link) {
    Inv(l) && !l.client.failed && !l.server.closed
  }

  // Steps still to be made by what is under way.
  function Work(l: Link): nat {
    6 * |l.toServer| + 5 * |l.server.queue| + (if Unresponded(l.server) then 4 else if Writing(l.server) then 1 else 0) + |l.toClient|
  }

  function NextEvent(l: Link): Event {
    if l.toClient != [] then ClientReceives
    else if Writing(l.server) then ServerFinishes
    else if Unresponded(l.server) then ServerResponds(0)
    else if l.server.queue != [] then ServerStarts
    else ServerReceives
  }

  lemma DeliveredUnfailed(c: Client, frame: ServerFrame)
    requires !c.failed && Receive(c, frame).fault.None?
    ensures !Receive(c, frame).failed && Receive(c, frame).issued == c.issued
  {
  }

  lemma DeliveryStands(l: Link)
    requires Standing(l) && Inv(Step(l, ClientReceives)) && l.toClient != []
    ensures Standing(Step(l, ClientReceives)) && Work(Step(l, ClientReceives)) < Work(l)
    ensures Step(l, ClientReceives).client.issued == l.client.issued
  {
    Unfaulted(Step(l, ClientReceives));
    hide Inv;
    hide Receive;
    DeliveredUnfailed(l.client, l.toClient[0]);
  }

  lemma ServiceStands(l: Link)
    requires Standing(l) && Inv(Step(l, NextEvent(l))) && l.toClient == [] && Work(l) > 0
    ensures Standing(Step(l, NextEvent(l))) && Work(Step(l, NextEvent(l))) < Work(l)
    ensures Step(l, NextEvent(l)).client.issued == l.client.issued
  {
    hide Inv;
    assert !Step(l, NextEvent(l)).server.sequenceFault by { Unfaulted(Step(l, NextEvent(l))); }
  }

  lemma Unfaulted(l: Link)
    requires Inv(l)
    ensures !l.server.sequenceFault && l.client.fault.None?
  {
  }

  lemma {:induction false} WorkEnds(l: Link) returns (more: seq<Event>)
    requires Standing(l)
    ensures Standing(StepAll(l, more)) && Work(StepAll(l, more)) == 0
    ensures StepAll(l, more).client.issued == l.client.issued
    decreases Work(l)
  {
    hide Inv;
    if Work(l) == 0 {
      more := [];
    } else {
      var event := NextEvent(l);
      StepInv(l, event);
      if l.toClient != [] { DeliveryStands(l); } else { ServiceStands(l); }
      hide Step;
      var rest := WorkEnds(Step(l, event));
      more := [event] + rest;
      StepAllJoins(l, [event], rest);
      assert Front([event]) == [] && StepAll(l, [event]) == Step(l, event);
    }
  }

  lemma NothingInFlight(l: Link)
    requires Standing(l) && Work(l) == 0
    ensures l.client.pending == {}
  {
    assert InFlight(l) == [];
    if !l.server.authenticated { OnlyHelloBefore(l); }
    assert Hello !in l.client.pending;
    forall w ensures w !in l.client.pending {
      if w.Waiting? { assert w.id !in InFlight(l); }
    }
  }

  /**
   * From every reachable state in which the connection stands, some continuation without
   * new requests settles all that was asked, each with the server's answer to its own id.
   */
  lemma EveryRequestCanSettle(events: seq<Event>) returns (more: seq<Event>)
    requires !Run(events).client.failed && !Run(events).server.closed
    ensures Run(events + more).client.issued == Run(events).client.issued == Run(events + more).client.settled.Keys
    ensures Run(events + more).client.pending == {} && !Run(events + more).client.failed
    ensures forall id: RequestId :: Waiting(id) in Run(events).client.issued ==>
      id in Run(events + more).server.answers
      && Run(events + more).client.settled[Waiting(id)] == Answered(Run(events + more).server.answers[id])
  {
    RunInv(events);
    hide Run;
    more := WorkEnds(Run(events));
    RunContinues(events, more);
    NothingInFlight(Run(events + more));
    EveryRequestSettlesOnce(events + more);
  }

  // ---- the queue can overflow --------------------------------------------------------------------------

  const HANDSHAKE: seq<Event> := [ServerReceives, ServerStarts, ClientReceives]

  function Repeat(event: Event, n: nat): (events: seq<Event>)
    ensures |events| == n
  {
    if n == 0 then [] else Repeat(event, n - 1) + [event]
  }

  // The hello was served and its answer reached the client; the server's write has not returned.
  ghost predicate HelloStillWriting(l: Link) {
    && !l.client.failed && l.client.received > 0 && Hello !in l.client.pending
    && l.server.authenticated && !l.server.closed && l.server.serving == Some(HelloServed)
  }

  lemma Handshaken()
    ensures HelloStillWriting(StepAll(Connected(), HANDSHAKE))
    ensures StepAll(Connected(), HANDSHAKE).client.pending == {} && StepAll(Connected(), HANDSHAKE).toServer == []
    ensures StepAll(Connected(), HANDSHAKE).server.queue == []
  {
    var l1 := StepAll(Connected(), [ServerReceives]);
    var l2 := StepAll(Connected(), [ServerReceives, ServerStarts]);
    assert Front(HANDSHAKE) == [ServerReceives, ServerStarts] && Front([ServerReceives, ServerStarts]) == [ServerReceives];
    assert Front([ServerReceives]) == [];
    assert l1.server.queue == [HelloFrame(1)] && l1.toServer == [];
    assert l2.server.serving == Some(HelloServed) && l2.toClient == [ReadyFrame(1)];
  }

  // Waiters have ids that were issued, so the next one is new.
  ghost predicate IdsIssued(l: Link) {
    forall id: RequestId :: Waiting(id) in l.client.pending ==> id < l.nextId
  }

  lemma OneMoreRequest(l: Link)
    requires HelloStillWriting(l) && IdsIssued(l) && |l.client.pending| < MAX_PENDING_REQUESTS
    ensures var l' := Step(l, ClientRequests);
            && HelloStillWriting(l') && IdsIssued(l')
            && |l'.client.pending| == |l.client.pending| + 1
            && |l'.toServer| == |l.toServer| + 1 && l'.server == l.server
  {
    assert Waiting(l.nextId) !in l.client.pending;
  }

  lemma {:induction false} Requested(l: Link, n: nat)
    requires HelloStillWriting(l) && IdsIssued(l) && l.client.pending == {} && l.toServer == [] && n <= MAX_PENDING_REQUESTS
    ensures var l' := StepAll(l, Repeat(ClientRequests, n));
            && HelloStillWriting(l') && IdsIssued(l')
            && |l'.client.pending| == n && |l'.toServer| == n && l'.server == l.server
  {
    if n > 0 {
      hide Step;
      Requested(l, n - 1);
      assert Front(Repeat(ClientRequests, n)) == Repeat(ClientRequests, n - 1) && Last(Repeat(ClientRequests, n)) == ClientRequests;
      OneMoreRequest(StepAll(l, Repeat(ClientRequests, n - 1)));
    }
  }

  lemma OneMoreFrame(l: Link)
    requires HelloStillWriting(l) && l.toServer != [] && |l.server.queue| < MAX_PENDING_REQUESTS - 1
    ensures var l' := Step(l, ServerReceives);
            HelloStillWriting(l') && |l'.server.queue| == |l.server.queue| + 1 && |l'.toServer| == |l.toServer| - 1
  {
  }

  lemma {:induction false} Received(l: Link, n: nat)
    requires HelloStillWriting(l) && l.server.queue == [] && n < MAX_PENDING_REQUESTS && n <= |l.toServer|
    ensures var l' := StepAll(l, Repeat(ServerReceives, n));
            HelloStillWriting(l') && |l'.server.queue| == n && |l'.toServer| == |l.toServer| - n
  {
    if n > 0 {
      hide Step;
      Received(l, n - 1);
      assert Front(Repeat(ServerReceives, n)) == Repeat(ServerReceives, n - 1) && Last(Repeat(ServerReceives, n)) == ServerReceives;
      OneMoreFrame(StepAll(l, Repeat(ServerReceives, n - 1)));
    }
  }

  /**
   * The overflow can happen: a client that has its hello answer and sends its 32 requests at
   * once is cut off if the server's write of that answer has not returned by then.
   */
  lemma OverflowReached() returns (events: seq<Event>)
    ensures !Run(events).client.failed && !Run(events).server.closed && Run(events).toServer != []
    ensures |Run(events).client.pending| == MAX_PENDING_REQUESTS
    ensures Step(Run(events), ServerReceives).server.closed
  {
    var requests, frames := Repeat(ClientRequests, MAX_PENDING_REQUESTS), Repeat(ServerReceives, MAX_PENDING_REQUESTS - 1);
    var l := StepAll(Connected(), HANDSHAKE);
    Handshaken();
    hide StepAll;
    hide Run;
    hide Repeat;
    Requested(l, MAX_PENDING_REQUESTS);
    Received(StepAll(l, requests), MAX_PENDING_REQUESTS - 1);
    events := HANDSHAKE + requests + frames;
    StepAllJoins(Connected(), HANDSHAKE, requests);
    StepAllJoins(Connected(), HANDSHAKE + requests, frames);
    RunIsStepAll(events);
    PendingKept(StepAll(l, requests), MAX_PENDING_REQUESTS - 1);
  }

  lemma {:induction false} PendingKept(l: Link, n: nat)
    ensures StepAll(l, Repeat(ServerReceives, n)).client == l.client
  {
    if n > 0 {
      PendingKept(l, n - 1);
      assert Front(Repeat(ServerReceives, n)) == Repeat(ServerReceives, n - 1) && Last(Repeat(ServerReceives, n)) == ServerReceives;
    }
  }
}
