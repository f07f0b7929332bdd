/**
 * packages/harness-broker/src/client.ts and the frame queue of server.ts: one connection
 * as a two-party protocol. Frames travel in order (Framing), none is over the size bound
 * and no request times out; either side may still lose the connection at any moment.
 */
module BrokerProtocol {
  import opened Prelude

  type RequestId = nat
  type Value = int

  const MAX_PENDING_REQUESTS: nat := 32

  // Who waits on the client: the connect call, or one request.
  datatype Waiter = Hello | Waiting(id: RequestId)

  datatype ClientFrame = HelloFrame(seqno: nat) | RequestFrame(seqno: nat, id: RequestId)

  datatype ServerFrame = ReadyFrame(seqno: nat) | ResponseFrame(seqno: nat, id: RequestId, value: Value) | OutputFrame(seqno: nat)

  // How a waiter was settled: by a response, or by the connection's failure.
  datatype Outcome = Ready | Answered(value: Value) | ConnectionFailed

  datatype ClientFault = SequenceMismatch | UnknownResponse

  // `sent` and `received` are the client's two sequence counters; `issued`, `settled` and
  // `settledTwice` record what its callers saw.
  datatype Client = Client(
    sent: nat, received: nat, pending: set<Waiter>, failed: bool, fault: Option<ClientFault>,
    issued: set<Waiter>, settled: map<Waiter, Outcome>, settledTwice: bool)

  // The frame the server is busy with; it stays counted until its answer has been written.
  // The hello's answer is handed to the socket as soon as the hello is served.
  datatype Serving = HelloServed | RequestServed(id: RequestId, responded: bool)

  datatype Server = Server(
    authenticated: bool, received: nat, sent: nat, queue: seq<ClientFrame>, serving: Option<Serving>,
    closed: bool, sequenceFault: bool, answers: map<RequestId, Value>)

  datatype Link = Link(client: Client, server: Server, toServer: seq<ClientFrame>, toClient: seq<ServerFrame>, nextId: RequestId)

  // ---- the client --------------------------------------------------------------------

  /** `#fail`: every waiter is rejected, once. */
  function Fail(c: Client, fault: Option<ClientFault>): Client {
    if c.failed then c
    else c.(failed := true, fault := fault, pending := {},
            settledTwice := c.settledTwice || exists w :: w in c.pending && w in c.settled,
            settled := map w | w in c.settled.Keys + c.pending :: if w in c.pending then ConnectionFailed else c.settled[w])
  }

  function Settle(c: Client, w: Waiter, outcome: Outcome): Client {
    c.(pending := c.pending - {w},
       settledTwice := c.settledTwice || w in c.settled,
       settled := c.settled[w := outcome])
  }

  /** `request` up to its await; None is the closed connection or the exhausted request limit. */
  function Request(c: Client, id: RequestId): (Client, Option<ClientFrame>) {
    if c.failed || |c.pending| >= MAX_PENDING_REQUESTS then (c, None)
    else (c.(sent := c.sent + 1, pending := c.pending + {Waiting(id)}, issued := c.issued + {Waiting(id)}),
          Some(RequestFrame(c.sent + 1, id)))
  }

  /** `#frame` */
  function Receive(c: Client, frame: ServerFrame): Client {
    if c.failed then c
    else if frame.seqno != c.received + 1 then Fail(c, Some(SequenceMismatch))
    else
      var c1 := c.(received := frame.seqno);
      if frame.OutputFrame? then c1
      else if c1.received == 1 then
        if Hello in c1.pending then Settle(c1, Hello, if frame.ReadyFrame? then Ready else Answered(frame.value)) else c1
      else if frame.ResponseFrame? && Waiting(frame.id) in c1.pending then Settle(c1, Waiting(frame.id), Answered(frame.value))
      else Fail(c1, Some(UnknownResponse))
  }

  // ---- the server ----------------------------------------------------------------------

  function QueuedFrames(s: Server): nat {
    |s.queue| + if s.serving.Some? then 1 else 0
  }

  /** A frame arrives; one more than the bound and the socket is destroyed. */
  function Enqueue(s: Server, frame: ClientFrame): Server {
    if s.closed then s
    else if QueuedFrames(s) + 1 > MAX_PENDING_REQUESTS then s.(closed := true)
    else s.(queue := s.queue + [frame])
  }

  /** The next queued frame: the hello, or a request whose sequence number must follow. */
  function Start(s: Server): (Server, Option<ServerFrame>) {
    if s.closed || s.serving.Some? || s.queue == [] then (s, None)
    else
      var frame, s1 := s.queue[0], s.(queue := s.queue[1..]);
      if !s.authenticated then
        if frame.HelloFrame? && frame.seqno == 1 then
          (s1.(authenticated := true, received := 1, sent := s.sent + 1, serving := Some(HelloServed)), Some(ReadyFrame(s.sent + 1)))
        else (s1.(closed := true, sequenceFault := true), None)
      else if frame.RequestFrame? && frame.seqno == s.received + 1 then
        (s1.(received := frame.seqno, serving := Some(RequestServed(frame.id, false))), None)
      else (s1.(closed := true, sequenceFault := true), None)
  }

  predicate Unresponded(s: Server) {
    s.serving.Some? && s.serving.value.RequestServed? && !s.serving.value.responded
  }

  // An answer is on its way to the socket and its frame has not left the queue.
  predicate Writing(s: Server) {
    s.serving.Some? && !Unresponded(s)
  }

  function Respond(s: Server, value: Value): (Server, Option<ServerFrame>) {
    if s.closed || !Unresponded(s) then (s, None)
    else
      var id := s.serving.value.id;
      (s.(sent := s.sent + 1, serving := Some(RequestServed(id, true)), answers := s.answers[id := value]),
       Some(ResponseFrame(s.sent + 1, id, value)))
  }

  /** The answer has been written: its frame leaves the queue. */
  function Finish(s: Server): Server {
    if Writing(s) then s.(serving := None) else s
  }

  function EmitOutput(s: Server): (Server, Option<ServerFrame>) {
    if s.closed || !s.authenticated then (s, None)
    else (s.(sent := s.sent + 1), Some(OutputFrame(s.sent + 1)))
  }

  // ---- the connection -------------------------------------------------------------------

  datatype Event =
    | ClientRequests
    | ServerReceives
    | ServerStarts
    | ServerResponds(value: Value)
    | ServerFinishes
    | ServerOutputs
    | ClientReceives
    | ClientLosesConnection
    | ServerLosesConnection

  /** The client has connected and written its hello. */
  function Connected(): Link {
    Link(Client(1, 0, {Hello}, false, None, {Hello}, map[], false),
         Server(false, 0, 0, [], None, false, false, map[]),
         [HelloFrame(1)], [], 0)
  }

  function Sent<F>(frames: seq<F>, frame: Option<F>): seq<F> {
    if frame.Some? then frames + [frame.value] else frames
  }

  function Step(l: Link, event: Event): Link {
    match event
    case ClientRequests =>
      // Callers get the connection only after the hello was answered.
      if Hello in l.client.pending then l
      else
        var (client, frame) := Request(l.client, l.nextId);
        l.(client := client, toServer := Sent(l.toServer, frame), nextId := l.nextId + 1)
    case ServerReceives =>
      if l.toServer == [] || l.server.closed then l
      else l.(server := Enqueue(l.server, l.toServer[0]), toServer := if Enqueue(l.server, l.toServer[0]).closed then l.toServer else l.toServer[1..])
    case ServerStarts =>
      var (server, frame) := Start(l.server);
      l.(server := server, toClient := Sent(l.toClient, frame))
    case ServerResponds(value) =>
      var (server, frame) := Respond(l.server, value);
      l.(server := server, toClient := Sent(l.toClient, frame))
    case ServerFinishes => l.(server := Finish(l.server))
    case ServerOutputs =>
      var (server, frame) := EmitOutput(l.server);
      l.(server := server, toClient := Sent(l.toClient, frame))
    case ClientReceives =>
      if l.toClient == [] then l
      else l.(client := Receive(l.client, l.toClient[0]), toClient := l.toClient[1..])
    case ClientLosesConnection => l.(client := Fail(l.client, None))
    case ServerLosesConnection => l.(server := l.server.(closed := true))
  }

  function Run(events: seq<Event>): Link {
    if events == [] then Connected() else Step(Run(events[..|events| - 1]), events[|events| - 1])
  }

  // ---- sequence numbers --------------------------------------------------------------------

  // Everything the server has still to start, in order.
  function Pipeline(l: Link): seq<ClientFrame> {
    l.server.queue + l.toServer
  }

  // Frames numbered without a gap from the receiver's counter to the sender's; only the
  // first frame of each direction is the hello or its answer.
  ghost predicate RequestsNumbered(frames: seq<ClientFrame>, received: nat, sent: nat) {
    && |frames| == sent - received
    && forall i :: 0 <= i < |frames| ==> frames[i].seqno == received + 1 + i && (frames[i].HelloFrame? <==> frames[i].seqno == 1)
  }

  ghost predicate RepliesNumbered(frames: seq<ServerFrame>, received: nat, sent: nat) {
    && |frames| == sent - received
    && forall i :: 0 <= i < |frames| ==> frames[i].seqno == received + 1 + i && (frames[i].ReadyFrame? <==> frames[i].seqno == 1)
  }

  ghost predicate SequencesInv(l: Link) {
    && RequestsNumbered(Pipeline(l), l.server.received, l.client.sent)
    && (!l.client.failed ==> RepliesNumbered(l.toClient, l.client.received, l.server.sent))
    && (l.server.authenticated <==> l.server.received >= 1)
    && (l.server.authenticated <==> l.server.sent >= 1)
    && (l.server.serving.Some? ==> l.server.authenticated)
    && l.client.sent >= 1
    && !l.server.sequenceFault
    && l.client.fault != Some(SequenceMismatch)
  }

  lemma StartSequences(l: Link)
    requires SequencesInv(l)
    ensures SequencesInv(Step(l, ServerStarts))
  {
    var l' := Step(l, ServerStarts);
    if !l.server.closed && l.server.serving.None? && l.server.queue != [] {
      assert Pipeline(l)[0] == l.server.queue[0];
      assert Pipeline(l') == Pipeline(l)[1..];
    }
  }

  lemma SendSequences(l: Link, value: Value)
    requires SequencesInv(l)
    ensures SequencesInv(Step(l, ServerResponds(value))) && SequencesInv(Step(l, ServerOutputs)) && SequencesInv(Step(l, ServerFinishes))
  {
    assert Pipeline(Step(l, ServerResponds(value))) == Pipeline(l) == Pipeline(Step(l, ServerOutputs));
  }

  lemma ArriveSequences(l: Link)
    requires SequencesInv(l)
    ensures SequencesInv(Step(l, ServerReceives)) && SequencesInv(Step(l, ServerLosesConnection))
  {
    assert Pipeline(Step(l, ServerReceives)) == Pipeline(l);
  }

  lemma RequestSequences(l: Link)
    requires SequencesInv(l)
    ensures SequencesInv(Step(l, ClientRequests))
  {
    var l' := Step(l, ClientRequests);
    if l'.toServer != l.toServer {
      assert Pipeline(l') == Pipeline(l) + [RequestFrame(l.client.sent + 1, l.nextId)];
    }
  }

  lemma ReceiveSequences(l: Link)
    requires SequencesInv(l)
    ensures SequencesInv(Step(l, ClientReceives)) && SequencesInv(Step(l, ClientLosesConnection))
  {
  }

  lemma StepSequences(l: Link, event: Event)
    requires SequencesInv(l)
    ensures SequencesInv(Step(l, event))
  {
    match event
    case ClientRequests => RequestSequences(l);
    case ServerReceives => ArriveSequences(l);
    case ServerStarts => StartSequences(l);
    case ServerResponds(value) => SendSequences(l, value);
    case ServerFinishes => SendSequences(l, 0);
    case ServerOutputs => SendSequences(l, 0);
    case ClientReceives => ReceiveSequences(l);
    case ClientLosesConnection => ReceiveSequences(l);
    case ServerLosesConnection => ArriveSequences(l);
  }

  // ---- where every request is ----------------------------------------------------------------

  function RequestIds(frames: seq<ClientFrame>): seq<RequestId> {
    if frames == [] then []
    else (if frames[0].RequestFrame? then [frames[0].id] else []) + RequestIds(frames[1..])
  }

  function ResponseIds(frames: seq<ServerFrame>): seq<RequestId> {
    if frames == [] then []
    else (if frames[0].ResponseFrame? then [frames[0].id] else []) + ResponseIds(frames[1..])
  }

  function Unanswered(s: Server): seq<RequestId> {
    if Unresponded(s) then [s.serving.value.id] else []
  }

  // The ids on their way round, oldest first.
  function InFlight(l: Link): seq<RequestId> {
    ResponseIds(l.toClient) + (Unanswered(l.server) + RequestIds(Pipeline(l)))
  }

  lemma {:induction false} RequestIdsAppend(a: seq<ClientFrame>, f: ClientFrame)
    ensures RequestIds(a + [f]) == RequestIds(a) + if f.RequestFrame? then [f.id] else []
  {
    if a != [] {
      assert (a + [f])[0] == a[0] && (a + [f])[1..] == a[1..] + [f];
      RequestIdsAppend(a[1..], f);
    } else {
      assert [f][1..] == [];
    }
  }

  lemma {:induction false} ResponseIdsAppend(a: seq<ServerFrame>, f: ServerFrame)
    ensures ResponseIds(a + [f]) == ResponseIds(a) + if f.ResponseFrame? then [f.id] else []
  {
    if a != [] {
      assert (a + [f])[0] == a[0] && (a + [f])[1..] == a[1..] + [f];
      ResponseIdsAppend(a[1..], f);
    } else {
      assert [f][1..] == [];
    }
  }

  lemma RequestInFlight(l: Link)
    ensures var l' := Step(l, ClientRequests);
            InFlight(l') == if |l'.toServer| > |l.toServer| then InFlight(l) + [l.nextId] else InFlight(l)
  {
    var l' := Step(l, ClientRequests);
    if |l'.toServer| > |l.toServer| {
      var f := RequestFrame(l.client.sent + 1, l.nextId);
      assert Pipeline(l') == Pipeline(l) + [f];
      RequestIdsAppend(Pipeline(l), f);
    }
  }

  lemma StartInFlight(l: Link)
    requires SequencesInv(l)
    ensures InFlight(Step(l, ServerStarts)) == InFlight(l)
  {
    var l' := Step(l, ServerStarts);
    if !l.server.closed && l.server.serving.None? && l.server.queue != [] {
      assert Pipeline(l)[0] == l.server.queue[0] && Pipeline(l') == Pipeline(l)[1..];
      if !l.server.authenticated {
        ResponseIdsAppend(l.toClient, ReadyFrame(l.server.sent + 1));
      }
    }
  }

  lemma RespondInFlight(l: Link, value: Value)
    ensures InFlight(Step(l, ServerResponds(value))) == InFlight(l)
  {
    if !l.server.closed && Unresponded(l.server) {
      var id := l.server.serving.value.id;
      var l' := Step(l, ServerResponds(value));
      ResponseIdsAppend(l.toClient, ResponseFrame(l.server.sent + 1, id, value));
      assert Unanswered(l.server) == [id] && Unanswered(l'.server) == [] && Pipeline(l') == Pipeline(l);
      assert (ResponseIds(l.toClient) + [id]) + ([] + RequestIds(Pipeline(l))) == InFlight(l);
    }
  }

  lemma OutputInFlight(l: Link)
    ensures InFlight(Step(l, ServerOutputs)) == InFlight(l)
  {
    var l' := Step(l, ServerOutputs);
    assert Pipeline(l') == Pipeline(l) && Unanswered(l'.server) == Unanswered(l.server);
    ResponseIdsAppend(l.toClient, OutputFrame(l.server.sent + 1));
  }

  lemma ResponseIdsHead(frames: seq<ServerFrame>)
    requires frames != []
    ensures ResponseIds(frames) == (if frames[0].ResponseFrame? then [frames[0].id] else []) + ResponseIds(frames[1..])
  {
  }

  lemma ReceiveInFlight(l: Link)
    ensures InFlight(Step(l, ClientReceives)) ==
      if l.toClient != [] && l.toClient[0].ResponseFrame? then InFlight(l)[1..] else InFlight(l)
  {
    hide Receive;
    if l.toClient != [] {
      ResponseIdsHead(l.toClient);
      hide ResponseIds;
      hide RequestIds;
      var rest, others := ResponseIds(l.toClient[1..]), Unanswered(l.server) + RequestIds(Pipeline(l));
      if l.toClient[0].ResponseFrame? {
        assert ([l.toClient[0].id] + rest + others)[1..] == rest + others;
      } else {
        assert [] + rest == rest;
      }
    }
  }

  lemma QuietInFlight(l: Link)
    ensures InFlight(Step(l, ServerReceives)) == InFlight(l)
    ensures InFlight(Step(l, ServerFinishes)) == InFlight(l)
    ensures InFlight(Step(l, ServerLosesConnection)) == InFlight(l)
    ensures InFlight(Step(l, ClientLosesConnection)) == InFlight(l)
  {
    hide RequestIds;
    hide ResponseIds;
    hide Fail;
    ArrivedPipeline(l);
  }

  // ---- waiters -----------------------------------------------------------------------------------

  // Waiters on the client: none is both pending and settled, none is settled twice, and
  // while the connection stands the pending requests are exactly the ids in flight.
  ghost predicate WaitersInv(c: Client, flight: seq<RequestId>, nextId: RequestId) {
    FlightInv(c, flight, nextId) && BooksInv(c)
  }

  ghost predicate FlightInv(c: Client, flight: seq<RequestId>, nextId: RequestId) {
    && Distinct(flight)
    && (forall id :: id in flight ==> id < nextId)
    && (forall id: RequestId :: Waiting(id) in c.issued ==> id < nextId)
    && (!c.failed ==> forall id: RequestId :: Waiting(id) in c.pending <==> id in flight)
  }

  ghost predicate BooksInv(c: Client) {
    && c.issued == c.pending + c.settled.Keys
    && c.pending !! c.settled.Keys
    && !c.settledTwice
    && c.fault.None?
    && (c.failed ==> c.pending == {})
    && (!c.failed ==> (Hello in c.pending <==> c.received == 0))
    && (!c.failed && Hello in c.pending ==> c.sent == 1)
    && (!c.failed ==> forall w :: w in c.settled ==> c.settled[w] != ConnectionFailed)
  }

  // The ids the server has received or will receive, and has not answered.
  function Outstanding(l: Link): seq<RequestId> {
    Unanswered(l.server) + RequestIds(Pipeline(l))
  }

  // What was answered is what the client is told.
  ghost predicate AnswersInv(settled: map<Waiter, Outcome>, answers: map<RequestId, Value>, toClient: seq<ServerFrame>,
                             outstanding: seq<RequestId>, nextId: RequestId)
  {
    && (forall id :: id in answers ==> id < nextId && id !in outstanding)
    && (forall f :: f in toClient && f.ResponseFrame? ==> f.id in answers && answers[f.id] == f.value)
    && (forall id: RequestId :: Waiting(id) in settled && settled[Waiting(id)] != ConnectionFailed ==>
          id in answers && settled[Waiting(id)] == Answered(answers[id]))
  }

  ghost predicate LinkAnswers(l: Link) {
    AnswersInv(l.client.settled, l.server.answers, l.toClient, Outstanding(l), l.nextId)
  }

  ghost predicate Inv(l: Link) {
    SequencesInv(l) && WaitersInv(l.client, InFlight(l), l.nextId) && LinkAnswers(l)
  }

  lemma ConnectedInv()
    ensures Inv(Connected())
  {
    assert Pipeline(Connected()) == [HelloFrame(1)];
    assert RequestIds([HelloFrame(1)]) == [] && ResponseIds([]) == [];
    assert InFlight(Connected()) == [];
  }

  lemma FailWaiters(c: Client, fault: Option<ClientFault>, flight: seq<RequestId>, nextId: RequestId)
    requires WaitersInv(c, flight, nextId) && fault.None?
    ensures WaitersInv(Fail(c, fault), flight, nextId)
  {
  }

  lemma DistinctSnoc(flight: seq<RequestId>, id: RequestId)
    requires Distinct(flight) && forall other :: other in flight ==> other < id
    ensures Distinct(flight + [id])
    ensures forall other :: other in flight + [id] <==> other in flight || other == id
  {
    forall i, j | 0 <= i < j < |flight + [id]| ensures (flight + [id])[i] != (flight + [id])[j] {
      assert (flight + [id])[i] == flight[i] && flight[i] in flight;
    }
  }

  lemma IssueWaiter(c: Client, flight: seq<RequestId>, nextId: RequestId)
    requires WaitersInv(c, flight, nextId) && Hello !in c.pending && Request(c, nextId).1.Some?
    ensures WaitersInv(Request(c, nextId).0, flight + [nextId], nextId + 1)
  {
    DistinctSnoc(flight, nextId);
    IssueBooks(c, nextId);
    hide BooksInv;
    hide Distinct;
  }

  lemma IssueBooks(c: Client, id: RequestId)
    requires BooksInv(c) && Hello !in c.pending && Waiting(id) !in c.issued && Request(c, id).1.Some?
    ensures BooksInv(Request(c, id).0)
  {
  }

  lemma OldestIsUnique(flight: seq<RequestId>)
    requires Distinct(flight) && flight != []
    ensures Distinct(flight[1..]) && flight[0] !in flight[1..]
    ensures forall id :: id in flight <==> id == flight[0] || id in flight[1..]
  {
    assert flight == [flight[0]] + flight[1..];
  }

  lemma SettleOldest(c: Client, flight: seq<RequestId>, nextId: RequestId, seqno: nat, value: Value)
    requires WaitersInv(c, flight, nextId) && !c.failed && c.received > 0 && seqno > 0 && flight != []
    ensures Waiting(flight[0]) in c.pending
    ensures WaitersInv(Settle(c.(received := seqno), Waiting(flight[0]), Answered(value)), flight[1..], nextId)
  {
    OldestIsUnique(flight);
  }

  lemma DropOldest(c: Client, flight: seq<RequestId>, nextId: RequestId)
    requires WaitersInv(c, flight, nextId) && c.failed && flight != []
    ensures WaitersInv(c, flight[1..], nextId)
  {
    OldestIsUnique(flight);
  }

  lemma RequestWaiters(l: Link)
    requires Inv(l)
    ensures var l' := Step(l, ClientRequests); WaitersInv(l'.client, InFlight(l'), l'.nextId)
  {
    RequestInFlight(l);
    if Hello !in l.client.pending && Request(l.client, l.nextId).1.Some? {
      IssueWaiter(l.client, InFlight(l), l.nextId);
    }
  }

  lemma RequestOutstanding(l: Link)
    ensures var l' := Step(l, ClientRequests);
            Outstanding(l') == if |l'.toServer| > |l.toServer| then Outstanding(l) + [l.nextId] else Outstanding(l)
  {
    var l' := Step(l, ClientRequests);
    if |l'.toServer| > |l.toServer| {
      var f := RequestFrame(l.client.sent + 1, l.nextId);
      assert Pipeline(l') == Pipeline(l) + [f];
      RequestIdsAppend(Pipeline(l), f);
    }
  }

  lemma ArrivedPipeline(l: Link)
    ensures Pipeline(Step(l, ServerReceives)) == Pipeline(l) && Unanswered(Step(l, ServerReceives).server) == Unanswered(l.server)
  {
  }

  lemma QuietOutstanding(l: Link)
    ensures Outstanding(Step(l, ServerReceives)) == Outstanding(l)
    ensures Outstanding(Step(l, ServerFinishes)) == Outstanding(l)
    ensures Outstanding(Step(l, ServerOutputs)) == Outstanding(l)
    ensures Outstanding(Step(l, ServerLosesConnection)) == Outstanding(l)
    ensures Outstanding(Step(l, ClientReceives)) == Outstanding(l)
    ensures Outstanding(Step(l, ClientLosesConnection)) == Outstanding(l)
  {
    hide RequestIds;
    hide Receive;
    hide Fail;
    ArrivedPipeline(l);
  }

  lemma AnswersGrow(settled: map<Waiter, Outcome>, answers: map<RequestId, Value>, toClient: seq<ServerFrame>,
                    outstanding: seq<RequestId>, nextId: RequestId)
    requires AnswersInv(settled, answers, toClient, outstanding, nextId)
    ensures AnswersInv(settled, answers, toClient, outstanding + [nextId], nextId + 1)
    ensures AnswersInv(settled, answers, toClient, outstanding, nextId + 1)
  {
  }

  lemma RequestAnswers(l: Link)
    requires LinkAnswers(l)
    ensures LinkAnswers(Step(l, ClientRequests))
  {
    RequestOutstanding(l);
    AnswersGrow(l.client.settled, l.server.answers, l.toClient, Outstanding(l), l.nextId);
  }

  lemma {:induction false} FirstResponse(frames: seq<ServerFrame>)
    requires frames != [] && frames[0].ResponseFrame?
    ensures ResponseIds(frames) != [] && ResponseIds(frames)[0] == frames[0].id
  {
  }

  /** The heart of it: the response at the head of the wire is for the oldest pending request. */
  lemma ReceiveWaiters(l: Link)
    requires Inv(l)
    ensures var l' := Step(l, ClientReceives); WaitersInv(l'.client, InFlight(l'), l'.nextId)
  {
    ReceiveInFlight(l);
    if l.toClient != [] {
      var frame := l.toClient[0];
      if frame.ResponseFrame? {
        FirstResponse(l.toClient);
        assert InFlight(l)[0] == frame.id;
        if l.client.failed {
          DropOldest(l.client, InFlight(l), l.nextId);
        } else {
          SettleOldest(l.client, InFlight(l), l.nextId, frame.seqno, frame.value);
        }
      }
    }
  }

  lemma FailAnswers(c: Client, fault: Option<ClientFault>, answers: map<RequestId, Value>, toClient: seq<ServerFrame>,
                    outstanding: seq<RequestId>, nextId: RequestId)
    requires AnswersInv(c.settled, answers, toClient, outstanding, nextId)
    ensures AnswersInv(Fail(c, fault).settled, answers, toClient, outstanding, nextId)
  {
  }

  lemma DeliverAnswers(c: Client, answers: map<RequestId, Value>, toClient: seq<ServerFrame>,
                       outstanding: seq<RequestId>, nextId: RequestId)
    requires AnswersInv(c.settled, answers, toClient, outstanding, nextId) && toClient != []
    ensures AnswersInv(Receive(c, toClient[0]).settled, answers, toClient[1..], outstanding, nextId)
  {
    assert toClient[0] in toClient && forall f :: f in toClient[1..] ==> f in toClient;
    var c1 := c.(received := toClient[0].seqno);
    FailAnswers(c, Some(SequenceMismatch), answers, toClient, outstanding, nextId);
    FailAnswers(c1, Some(UnknownResponse), answers, toClient, outstanding, nextId);
  }

  lemma ReceiveAnswers(l: Link)
    requires LinkAnswers(l)
    ensures LinkAnswers(Step(l, ClientReceives))
  {
    QuietOutstanding(l);
    if l.toClient != [] {
      DeliverAnswers(l.client, l.server.answers, l.toClient, Outstanding(l), l.nextId);
    }
  }

  lemma LostAnswers(l: Link)
    requires LinkAnswers(l)
    ensures LinkAnswers(Step(l, ClientLosesConnection))
  {
    QuietOutstanding(l);
    FailAnswers(l.client, None, l.server.answers, l.toClient, Outstanding(l), l.nextId);
  }

  lemma StartAnswers(l: Link)
    requires SequencesInv(l) && LinkAnswers(l)
    ensures LinkAnswers(Step(l, ServerStarts))
  {
    var l' := Step(l, ServerStarts);
    if !l.server.closed && l.server.serving.None? && l.server.queue != [] {
      assert Pipeline(l)[0] == l.server.queue[0] && Pipeline(l') == Pipeline(l)[1..];
    }
    assert Outstanding(l') == Outstanding(l);
  }

  lemma AnswerOne(settled: map<Waiter, Outcome>, answers: map<RequestId, Value>, toClient: seq<ServerFrame>,
                  outstanding: seq<RequestId>, nextId: RequestId, frame: ServerFrame)
    requires AnswersInv(settled, answers, toClient, outstanding, nextId)
    requires Distinct(outstanding) && frame.ResponseFrame? && outstanding != [] && outstanding[0] == frame.id < nextId
    ensures AnswersInv(settled, answers[frame.id := frame.value], toClient + [frame], outstanding[1..], nextId)
  {
    OldestIsUnique(outstanding);
    assert frame.id in outstanding;
  }

  lemma DistinctTail(a: seq<RequestId>, b: seq<RequestId>)
    requires Distinct(a + b)
    ensures Distinct(b)
  {
    forall i, j | 0 <= i < j < |b| ensures b[i] != b[j] {
      assert (a + b)[|a| + i] == b[i] && (a + b)[|a| + j] == b[j];
    }
  }

  lemma RespondAnswers(l: Link, value: Value)
    requires Inv(l)
    ensures LinkAnswers(Step(l, ServerResponds(value)))
  {
    var l' := Step(l, ServerResponds(value));
    assert Pipeline(l') == Pipeline(l);
    if !l.server.closed && Unresponded(l.server) {
      var id := l.server.serving.value.id;
      DistinctTail(ResponseIds(l.toClient), Outstanding(l));
      assert Outstanding(l)[0] == id && Outstanding(l') == Outstanding(l)[1..];
      assert InFlight(l)[|ResponseIds(l.toClient)|] == id && id in InFlight(l);
      AnswerOne(l.client.settled, l.server.answers, l.toClient, Outstanding(l), l.nextId, ResponseFrame(l.server.sent + 1, id, value));
    } else {
      assert Outstanding(l') == Outstanding(l);
    }
  }

  lemma SentOutputAnswers(settled: map<Waiter, Outcome>, answers: map<RequestId, Value>, toClient: seq<ServerFrame>,
                          outstanding: seq<RequestId>, nextId: RequestId, frame: ServerFrame)
    requires AnswersInv(settled, answers, toClient, outstanding, nextId) && !frame.ResponseFrame?
    ensures AnswersInv(settled, answers, toClient + [frame], outstanding, nextId)
  {
  }

  lemma QuietAnswers(l: Link, event: Event)
    requires LinkAnswers(l) && (event.ServerReceives? || event.ServerLosesConnection? || event.ServerFinishes?)
    ensures LinkAnswers(Step(l, event))
  {
    QuietOutstanding(l);
  }

  lemma OutputAnswers(l: Link)
    requires LinkAnswers(l)
    ensures LinkAnswers(Step(l, ServerOutputs))
  {
    QuietOutstanding(l);
    SentOutputAnswers(l.client.settled, l.server.answers, l.toClient, Outstanding(l), l.nextId, OutputFrame(l.server.sent + 1));
  }

  lemma StepInv(l: Link, event: Event)
    requires Inv(l)
    ensures Inv(Step(l, event))
  {
    StepSequences(l, event);
    match event
    case ClientRequests => RequestWaiters(l); RequestAnswers(l);
    case ServerReceives => QuietInFlight(l); QuietAnswers(l, event);
    case ServerStarts => StartInFlight(l); StartAnswers(l);
    case ServerResponds(value) => RespondInFlight(l, value); RespondAnswers(l, value);
    case ServerFinishes => QuietInFlight(l); QuietAnswers(l, event);
    case ServerOutputs => OutputInFlight(l); OutputAnswers(l);
    case ClientReceives => ReceiveWaiters(l); ReceiveAnswers(l);
    case ClientLosesConnection => QuietInFlight(l); FailWaiters(l.client, None, InFlight(l), l.nextId); LostAnswers(l);
    case ServerLosesConnection => QuietInFlight(l); QuietAnswers(l, event);
  }

  lemma {:induction false} RunInv(events: seq<Event>)
    ensures Inv(Run(events))
  {
    if events == [] {
      ConnectedInv();
    } else {
      RunInv(events[..|events| - 1]);
      StepInv(Run(events[..|events| - 1]), events[|events| - 1]);
    }
  }

  // ---- the protocol theorems ---------------------------------------------------------------------

  /** In no run does a sequence check fire, on either side, or a response name an unknown request. */
  lemma SequenceChecksNeverFire(events: seq<Event>)
    ensures !Run(events).server.sequenceFault && Run(events).client.fault.None?
  {
    RunInv(events);
  }

  /** The first frame the client is sent is the answer to its hello, it settles nothing else, and no later frame is one. */
  lemma FirstServerFrameIsReady(events: seq<Event>)
    ensures var l := Run(events);
            !l.client.failed && l.client.received == 0 && l.toClient != [] ==>
              l.toClient[0] == ReadyFrame(1) && Receive(l.client, l.toClient[0]).settled == l.client.settled[Hello := Ready]
    ensures var l := Run(events);
            !l.client.failed ==> forall i :: 0 <= i < |l.toClient| && (i > 0 || l.client.received > 0) ==> !l.toClient[i].ReadyFrame?
  {
    RunInv(events);
  }

  /**
   * Every waiter is settled at most once and never lost: it is pending or settled, a
   * settled request got the server's answer to its own id or the connection's failure, and
   * nothing is pending once the connection failed or nothing is in flight any more.
   */
  lemma EveryRequestSettlesOnce(events: seq<Event>)
    ensures var l := Run(events);
            && !l.client.settledTwice
            && l.client.issued == l.client.pending + l.client.settled.Keys && l.client.pending !! l.client.settled.Keys
            && (l.client.failed ==> l.client.pending == {})
            && (!l.client.failed ==> forall id: RequestId :: Waiting(id) in l.client.pending <==> id in InFlight(l))
            && (!l.client.failed ==> ConnectionFailed !in l.client.settled.Values)
            && (forall id: RequestId :: Waiting(id) in l.client.settled ==>
                  || l.client.settled[Waiting(id)] == ConnectionFailed
                  || (id in l.server.answers && l.client.settled[Waiting(id)] == Answered(l.server.answers[id])))
  {
    RunInv(events);
  }

  lemma {:induction false} DistinctWithin(ids: seq<RequestId>, waiters: set<Waiter>)
    requires Distinct(ids) && forall id :: id in ids ==> Waiting(id) in waiters
    ensures |ids| <= |waiters|
  {
    if ids != [] {
      var last := Waiting(ids[|ids| - 1]);
      assert ids[|ids| - 1] in ids;
      forall id | id in ids[..|ids| - 1] ensures Waiting(id) in waiters - {last} {
        var k :| 0 <= k < |ids| - 1 && ids[k] == id;
      }
      DistinctWithin(ids[..|ids| - 1], waiters - {last});
    }
  }

  lemma ReceivePending(c: Client, frame: ServerFrame)
    ensures Receive(c, frame).pending <= c.pending
  {
  }

  // Only a request adds to what is pending.
  lemma PendingShrinks(l: Link, event: Event)
    requires !event.ClientRequests?
    ensures Step(l, event).client.pending <= l.client.pending
  {
    if l.toClient != [] { ReceivePending(l.client, l.toClient[0]); }
  }

  // The request limit, which the client's own check keeps.
  lemma {:induction false} PendingBounded(events: seq<Event>)
    ensures |Run(events).client.pending| <= MAX_PENDING_REQUESTS
  {
    if events != [] {
      var l := Run(events[..|events| - 1]);
      PendingBounded(events[..|events| - 1]);
      if !events[|events| - 1].ClientRequests? {
        PendingShrinks(l, events[|events| - 1]);
        SubsetSize(Step(l, events[|events| - 1]).client.pending, l.client.pending);
      }
    }
  }

  lemma {:induction false} AllRequests(frames: seq<ClientFrame>)
    requires forall f :: f in frames ==> f.RequestFrame?
    ensures |RequestIds(frames)| == |frames|
  {
    if frames != [] {
      assert frames[0] in frames && forall f :: f in frames[1..] ==> f in frames;
      AllRequests(frames[1..]);
    }
  }

  // Before the hello was answered nothing but the hello is on its way.
  lemma OnlyHelloBefore(l: Link)
    requires Inv(l) && !l.client.failed && !l.server.authenticated
    ensures |Pipeline(l)| == 1 && l.server.serving.None?
  {
  }

  lemma RequestsBounded(l: Link)
    requires Inv(l) && !l.client.failed && l.server.authenticated && |l.client.pending| <= MAX_PENDING_REQUESTS
    ensures |Unanswered(l.server)| + |Pipeline(l)| <= MAX_PENDING_REQUESTS
  {
    DistinctWithin(InFlight(l), l.client.pending);
    assert forall i :: 0 <= i < |Pipeline(l)| ==> Pipeline(l)[i].RequestFrame?;
    AllRequests(Pipeline(l));
    assert |InFlight(l)| == |ResponseIds(l.toClient)| + |Unanswered(l.server)| + |Pipeline(l)|;
  }

  /**
   * Overflow, exactly: while the connection stands, the next frame of a client within its own
   * limit overflows the server's frame queue if and only if an answer is being written whose
   * frame has not yet left the queue, and all other 31 places are taken.
   */
  lemma OverflowExactly(events: seq<Event>)
    requires var l := Run(events); !l.client.failed && !l.server.closed && l.toServer != []
    ensures Step(Run(events), ServerReceives).server.closed
       <==> Writing(Run(events).server) && |Run(events).server.queue| == MAX_PENDING_REQUESTS - 1
  {
    RunInv(events);
    PendingBounded(events);
    var l := Run(events);
    hide Run;
    if l.server.authenticated { RequestsBounded(l); } else { OnlyHelloBefore(l); }
    assert |Pipeline(l)| == |l.server.queue| + |l.toServer|;
  }

  // ---- the two endpoints as objects ----------------------------------------------------------------

  class BrokerConnection {
    var inputSequence: nat
    var outputSequence: nat
    var pending: set<Waiter>
    var failed: bool
    var fault: Option<ClientFault>
    var issued: set<Waiter>
    var settled: map<Waiter, Outcome>
    var settledTwice: bool

    ghost function View(): Client
      reads this
    {
      Client(inputSequence, outputSequence, pending, failed, fault, issued, settled, settledTwice)
    }

    constructor ()
      ensures View() == Connected().client
    {
      inputSequence, outputSequence, pending, failed, fault := 1, 0, {Hello}, false, None;
      issued, settled, settledTwice := {Hello}, map[], false;
    }

    method SettleWaiter(w: Waiter, outcome: Outcome)
      modifies this`pending, this`settled, this`settledTwice
      ensures View() == Settle(old(View()), w, outcome)
    {
      if w in settled {
        settledTwice := true;
      }
      pending := pending - {w};
      settled := settled[w := outcome];
    }

    method OnFailure(reason: Option<ClientFault>)
      modifies this
      ensures View() == Fail(old(View()), reason)
    {
      if failed {
        return;
      }
      failed := true;
      fault := reason;
      if exists w :: w in pending && w in settled {
        settledTwice := true;
      }
      settled := map w | w in settled.Keys + pending :: if w in pending then ConnectionFailed else settled[w];
      pending := {};
    }

    method SendRequest(id: RequestId) returns (frame: Option<ClientFrame>)
      modifies this
      ensures (View(), frame) == Request(old(View()), id)
    {
      if failed || |pending| >= MAX_PENDING_REQUESTS {
        return None;
      }
      inputSequence := inputSequence + 1;
      pending := pending + {Waiting(id)};
      issued := issued + {Waiting(id)};
      return Some(RequestFrame(inputSequence, id));
    }

    method OnFrame(frame: ServerFrame)
      modifies this
      ensures View() == Receive(old(View()), frame)
    {
      if failed {
        return;
      }
      if frame.seqno != outputSequence + 1 {
        OnFailure(Some(SequenceMismatch));
        return;
      }
      outputSequence := frame.seqno;
      if frame.OutputFrame? {
        return;
      }
      if outputSequence == 1 {
        if Hello in pending {
          SettleWaiter(Hello, if frame.ReadyFrame? then Ready else Answered(frame.value));
        }
        return;
      }
      if frame.ReadyFrame? || Waiting(frame.id) !in pending {
        OnFailure(Some(UnknownResponse));
        return;
      }
      SettleWaiter(Waiting(frame.id), Answered(frame.value));
    }
  }

  class ConnectionState {
    var authenticated: bool
    var inputSequence: nat
    var outputSequence: nat
    var queue: seq<ClientFrame>
    var serving: Option<Serving>
    var closed: bool
    var sequenceFault: bool
    var answers: map<RequestId, Value>

    ghost function View(): Server
      reads this
    {
      Server(authenticated, inputSequence, outputSequence, queue, serving, closed, sequenceFault, answers)
    }

    constructor ()
      ensures View() == Connected().server
    {
      authenticated, inputSequence, outputSequence, queue, serving := false, 0, 0, [], None;
      closed, sequenceFault, answers := false, false, map[];
    }

    method OnFrame(frame: ClientFrame)
      modifies this
      ensures View() == Enqueue(old(View()), frame)
    {
      if closed {
        return;
      }
      var queuedFrames := |queue| + (if serving.Some? then 1 else 0) + 1;
      if queuedFrames > MAX_PENDING_REQUESTS {
        closed := true;
        return;
      }
      queue := queue + [frame];
    }

    method Send(reply: Option<(RequestId, Value)>) returns (frame: ServerFrame)
      modifies this`outputSequence
      ensures outputSequence == old(outputSequence) + 1
      ensures frame == if reply.None? then OutputFrame(outputSequence) else ResponseFrame(outputSequence, reply.value.0, reply.value.1)
    {
      outputSequence := outputSequence + 1;
      frame := if reply.None? then OutputFrame(outputSequence) else ResponseFrame(outputSequence, reply.value.0, reply.value.1);
    }

    method StartNext() returns (frame: Option<ServerFrame>)
      modifies this
      ensures (View(), frame) == Start(old(View()))
    {
      frame := None;
      if closed || serving.Some? || queue == [] {
        return;
      }
      var next := queue[0];
      queue := queue[1..];
      if !authenticated {
        if !next.HelloFrame? || next.seqno != 1 {
          closed, sequenceFault := true, true;
          return;
        }
        authenticated := true;
        inputSequence := 1;
        outputSequence := outputSequence + 1;
        serving := Some(HelloServed);
        return Some(ReadyFrame(outputSequence));
      }
      if next.HelloFrame? || next.seqno != inputSequence + 1 {
        closed, sequenceFault := true, true;
        return;
      }
      inputSequence := next.seqno;
      serving := Some(RequestServed(next.id, false));
    }

    method RespondNow(value: Value) returns (frame: Option<ServerFrame>)
      modifies this
      ensures (View(), frame) == Respond(old(View()), value)
    {
      if closed || serving.None? || serving.value.HelloServed? || serving.value.responded {
        return None;
      }
      var id := serving.value.id;
      answers := answers[id := value];
      serving := Some(RequestServed(id, true));
      var sent := Send(Some((id, value)));
      return Some(sent);
    }

    method OnWritten()
      modifies this`serving
      ensures View() == Finish(old(View()))
    {
      if serving.Some? && (serving.value.HelloServed? || serving.value.responded) {
        serving := None;
      }
    }

    method ForwardOutput() returns (frame: Option<ServerFrame>)
      modifies this
      ensures (View(), frame) == EmitOutput(old(View()))
    {
      if closed || !authenticated {
        return None;
      }
      var sent := Send(None);
      return Some(sent);
    }
  }
}
