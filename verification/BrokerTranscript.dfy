/**
 * Everything that is said on a broker connection, in order. What either side sends is told
 * from the run alone: the server answers the hello, answers the request it serves and reports
 * outputs; the client asks. BrokerProtocol numbers these sayings without a gap and loses none.
 */
module BrokerTranscript {
  import opened Prelude
  import opened BrokerProtocol

  datatype Saying = SaysReady | SaysAnswer(id: RequestId, value: Value) | SaysOutput

  // What a server in this state says at this event. Outputs go out whenever the client is known and the socket open.
  function Says(s: Server, event: Event): seq<Saying> {
    match event
    case ServerStarts =>
      if !s.closed && !s.authenticated && s.serving.None? && s.queue != [] && s.queue[0] == HelloFrame(1) then [SaysReady] else []
    case ServerResponds(value) =>
      if !s.closed && s.serving.Some? && s.serving.value.RequestServed? && !s.serving.value.responded
      then [SaysAnswer(s.serving.value.id, value)] else []
    case ServerOutputs => if s.authenticated && !s.closed then [SaysOutput] else []
    case _ => []
  }

  function Said(events: seq<Event>): seq<Saying> {
    if events == [] then []
    else Said(events[..|events| - 1]) + Says(Run(events[..|events| - 1]).server, events[|events| - 1])
  }

  // What the client takes off the wire.
  function Hears(l: Link, event: Event): seq<ServerFrame> {
    if event.ClientReceives? && l.toClient != [] then [l.toClient[0]] else []
  }

  function Heard(events: seq<Event>): seq<ServerFrame> {
    if events == [] then []
    else Heard(events[..|events| - 1]) + Hears(Run(events[..|events| - 1]), events[|events| - 1])
  }

  function Framed(saying: Saying, seqno: nat): ServerFrame {
    match saying
    case SaysReady => ReadyFrame(seqno)
    case SaysAnswer(id, value) => ResponseFrame(seqno, id, value)
    case SaysOutput => OutputFrame(seqno)
  }

  ghost predicate FramedInOrder(sayings: seq<Saying>, frames: seq<ServerFrame>) {
    |frames| == |sayings| && forall i :: 0 <= i < |sayings| ==> frames[i] == Framed(sayings[i], i + 1)
  }

  lemma OneMoreSaid(sayings: seq<Saying>, frames: seq<ServerFrame>, more: seq<Saying>, sent: seq<ServerFrame>)
    requires FramedInOrder(sayings, frames) && |more| == |sent| <= 1
    requires more != [] ==> sent[0] == Framed(more[0], |sayings| + 1)
    ensures FramedInOrder(sayings + more, frames + sent)
  {
  }

  // The step sends what it says, under the next number.
  ghost predicate SendsIt(l: Link, event: Event, sent: seq<ServerFrame>) {
    var more, l' := Says(l.server, event), Step(l, event);
    && |sent| == |more| <= 1 && (more != [] ==> sent[0] == Framed(more[0], l.server.sent + 1))
    && l'.server.sent == l.server.sent + |more|
    && Hears(l, event) + l'.toClient == l.toClient + sent
  }

  lemma StepSays(l: Link, event: Event) returns (sent: seq<ServerFrame>)
    requires Inv(l)
    ensures SendsIt(l, event, sent)
  {
    sent := if Says(l.server, event) == [] then [] else [Framed(Says(l.server, event)[0], l.server.sent + 1)];
    hide SendsIt;
    match event
    case ServerStarts => StartSays(l); StartSends(l, sent);
    case ServerResponds(_) => ReportSends(l, event, sent);
    case ServerOutputs => ReportSends(l, event, sent);
    case ClientReceives => ReceiveSends(l, sent);
    case _ => QuietSends(l, event, sent);
  }

  lemma StartSends(l: Link, sent: seq<ServerFrame>)
    requires var more := Says(l.server, ServerStarts); sent == if more == [] then [] else [Framed(more[0], l.server.sent + 1)]
    requires var more, (server, frame) := Says(l.server, ServerStarts), Start(l.server);
             && (frame == if more == [] then None else Some(Framed(more[0], l.server.sent + 1)))
             && |more| <= 1 && server.sent == l.server.sent + |more|
    ensures SendsIt(l, ServerStarts, sent)
  {
    hide Start;
    hide Says;
    assert Hears(l, ServerStarts) == [];
  }

  lemma ReportSends(l: Link, event: Event, sent: seq<ServerFrame>)
    requires event.ServerResponds? || event.ServerOutputs?
    requires var more := Says(l.server, event); sent == if more == [] then [] else [Framed(more[0], l.server.sent + 1)]
    ensures SendsIt(l, event, sent)
  {
    assert Hears(l, event) == [];
  }

  lemma ReceiveSends(l: Link, sent: seq<ServerFrame>)
    requires sent == []
    ensures SendsIt(l, ClientReceives, sent)
  {
    hide Receive;
    assert Says(l.server, ClientReceives) == [];
    if l.toClient != [] { assert l.toClient == [l.toClient[0]] + l.toClient[1..]; }
  }

  lemma QuietSends(l: Link, event: Event, sent: seq<ServerFrame>)
    requires !event.ServerStarts? && !event.ServerResponds? && !event.ServerOutputs? && !event.ClientReceives? && sent == []
    ensures SendsIt(l, event, sent)
  {
    assert Says(l.server, event) == [] && Hears(l, event) == [];
    hide Fail;
    hide Request;
  }

  lemma StartSays(l: Link)
    requires Inv(l)
    ensures var more, (server, frame) := Says(l.server, ServerStarts), Start(l.server);
            && (frame == if more == [] then None else Some(Framed(more[0], l.server.sent + 1)))
            && |more| <= 1 && server.sent == l.server.sent + |more|
  {
    if l.server.queue != [] { assert Pipeline(l)[0] == l.server.queue[0]; }
    hide WaitersInv;
    hide LinkAnswers;
  }

  lemma SaidStep(said: seq<Saying>, heard: seq<ServerFrame>, l: Link, event: Event)
    requires Inv(l) && FramedInOrder(said, heard + l.toClient) && l.server.sent == |said|
    ensures FramedInOrder(said + Says(l.server, event), heard + Hears(l, event) + Step(l, event).toClient)
    ensures Step(l, event).server.sent == |said + Says(l.server, event)|
  {
    var sent := StepSays(l, event);
    hide Step;
    hide Inv;
    hide FramedInOrder;
    hide Says;
    hide Hears;
    OneMoreSaid(said, heard + l.toClient, Says(l.server, event), sent);
    Moved(heard, Hears(l, event), Step(l, event).toClient, l.toClient, sent);
  }

  // What leaves the front of a queue joins what was taken, what joins the queue joins both.
  lemma Moved<T>(taken: seq<T>, leaves: seq<T>, rest: seq<T>, queue: seq<T>, joins: seq<T>)
    requires leaves + rest == queue + joins
    ensures taken + leaves + rest == taken + queue + joins
  {
    SeqAssociates(taken, leaves, rest);
    SeqAssociates(taken, queue, joins);
  }

  /**
   * What the client has heard and what is on its way to it are, in order, exactly what the server
   * said, numbered from one: no answer and no output is dropped, repeated or overtaken.
   */
  lemma {:induction false} NothingSaidIsLost(events: seq<Event>)
    ensures FramedInOrder(Said(events), Heard(events) + Run(events).toClient)
    ensures Run(events).server.sent == |Said(events)|
  {
    if events != [] {
      var before := events[..|events| - 1];
      NothingSaidIsLost(before);
      RunInv(before);
      hide Inv;
      hide Step;
      hide Says;
      hide Hears;
      hide FramedInOrder;
      SaidStep(Said(before), Heard(before), Run(before), events[|events| - 1]);
    }
  }

  // ---- the client's direction ------------------------------------------------------------------

  // The client asks whenever its hello was answered, the connection stands and it has a place left.
  function Asks(l: Link, event: Event): seq<RequestId> {
    if event.ClientRequests? && Hello !in l.client.pending && !l.client.failed && |l.client.pending| < MAX_PENDING_REQUESTS
    then [l.nextId] else []
  }

  function Asked(events: seq<Event>): seq<RequestId> {
    if events == [] then []
    else Asked(events[..|events| - 1]) + Asks(Run(events[..|events| - 1]), events[|events| - 1])
  }

  // The request the server begins to serve.
  function Serves(s: Server, event: Event): seq<RequestId> {
    if event.ServerStarts? && !s.closed && s.serving.None? && s.queue != [] && s.queue[0].RequestFrame? then [s.queue[0].id] else []
  }

  function Served(events: seq<Event>): seq<RequestId> {
    if events == [] then []
    else Served(events[..|events| - 1]) + Serves(Run(events[..|events| - 1]).server, events[|events| - 1])
  }

  lemma AskedStep(l: Link)
    ensures RequestIds(Pipeline(Step(l, ClientRequests))) == RequestIds(Pipeline(l)) + Asks(l, ClientRequests)
  {
    if Asks(l, ClientRequests) != [] {
      var f := RequestFrame(l.client.sent + 1, l.nextId);
      assert Pipeline(Step(l, ClientRequests)) == Pipeline(l) + [f];
      RequestIdsAppend(Pipeline(l), f);
    }
  }

  lemma ServedStep(l: Link)
    requires Inv(l)
    ensures Serves(l.server, ServerStarts) + RequestIds(Pipeline(Step(l, ServerStarts))) == RequestIds(Pipeline(l))
  {
    if !l.server.closed && l.server.serving.None? && l.server.queue != [] {
      assert Pipeline(l)[0] == l.server.queue[0];
      assert Pipeline(Step(l, ServerStarts)) == Pipeline(l)[1..];
    }
    hide WaitersInv;
    hide LinkAnswers;
  }

  lemma OtherStep(l: Link, event: Event)
    requires !event.ClientRequests? && !event.ServerStarts?
    ensures Pipeline(Step(l, event)) == Pipeline(l)
  {
    ArrivedPipeline(l);
    hide Receive;
    hide Fail;
  }

  lemma RequestStep(served: seq<RequestId>, asked: seq<RequestId>, l: Link, event: Event)
    requires Inv(l) && served + RequestIds(Pipeline(l)) == asked
    ensures served + Serves(l.server, event) + RequestIds(Pipeline(Step(l, event))) == asked + Asks(l, event)
  {
    QueueStep(l, event);
    hide Step;
    hide Inv;
    hide RequestIds;
    hide Pipeline;
    hide Serves;
    hide Asks;
    Moved(served, Serves(l.server, event), RequestIds(Pipeline(Step(l, event))), RequestIds(Pipeline(l)), Asks(l, event));
  }

  lemma QueueStep(l: Link, event: Event)
    requires Inv(l)
    ensures Serves(l.server, event) + RequestIds(Pipeline(Step(l, event))) == RequestIds(Pipeline(l)) + Asks(l, event)
  {
    if event.ClientRequests? {
      AskedStep(l);
      assert Serves(l.server, event) == [];
    } else if event.ServerStarts? {
      ServedStep(l);
      assert Asks(l, event) == [];
    } else {
      OtherStep(l, event);
      assert Serves(l.server, event) == [] && Asks(l, event) == [];
    }
    hide Inv;
    hide Step;
    hide RequestIds;
  }

  /**
   * What the server has begun to serve and what is on its way to it are, in order, exactly what
   * the client asked: whenever its hello was answered, the connection stood and it had a place left.
   */
  lemma {:induction false} NothingAskedIsLost(events: seq<Event>)
    ensures Served(events) + RequestIds(Pipeline(Run(events))) == Asked(events)
  {
    if events == [] {
      assert Pipeline(Connected()) == [HelloFrame(1)];
      assert RequestIds([HelloFrame(1)]) == [];
    } else {
      var before := events[..|events| - 1];
      NothingAskedIsLost(before);
      RunInv(before);
      hide Inv;
      hide Step;
      hide Serves;
      hide Asks;
      hide RequestIds;
      hide Pipeline;
      RequestStep(Served(before), Asked(before), Run(before), events[|events| - 1]);
    }
  }
}
