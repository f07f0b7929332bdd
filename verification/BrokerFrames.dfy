/**
 * What a frame or a lost connection does to either end of a broker connection, whatever state
 * that end is in: also the frames that BrokerProtocol proves a well-behaved peer never sends.
 */
module BrokerFrames {
  import opened Prelude
  import opened BrokerProtocol

  // The connection has failed: nobody waits any more, and whoever did was told so.
  ghost predicate AllRejected(c: Client, c': Client, fault: Option<ClientFault>) {
    && c'.failed && c'.fault == fault && c'.pending == {}
    && c'.sent == c.sent && c'.issued == c.issued
    && c'.settled.Keys == c.settled.Keys + c.pending
    && (forall w :: w in c.pending ==> c'.settled[w] == ConnectionFailed)
    && (forall w :: w in c.settled && w !in c.pending ==> c'.settled[w] == c.settled[w])
  }

  // One waiter was answered, and the others wait on.
  ghost predicate OneSettled(c: Client, c': Client, w: Waiter, outcome: Outcome) {
    && w in c.pending && c'.pending == c.pending - {w} && c'.settled == c.settled[w := outcome]
    && !c'.failed && c'.fault == c.fault && c'.sent == c.sent && c'.issued == c.issued
  }

  predicate NothingSettled(c: Client, c': Client) {
    c' == c.(received := c'.received)
  }

  /**
   * A frame at the client, exactly: it must carry the next number. Outputs settle nothing; the first other
   * frame answers the hello, and every later one the pending request it names. Anything else fails the
   * connection, and a failed connection takes no notice of frames.
   */
  lemma ClientTakesExactly(c: Client, frame: ServerFrame)
    ensures var c' := Receive(c, frame);
            if c.failed then c' == c
            else if frame.seqno != c.received + 1 then AllRejected(c, c', Some(SequenceMismatch)) && c'.received == c.received
            else
              && c'.received == frame.seqno
              && (frame.OutputFrame? ==> NothingSettled(c, c'))
              && (frame.ReadyFrame? && frame.seqno == 1 ==>
                    if Hello in c.pending then OneSettled(c, c', Hello, Ready) else NothingSettled(c, c'))
              && (frame.ResponseFrame? && frame.seqno == 1 ==>
                    if Hello in c.pending then OneSettled(c, c', Hello, Answered(frame.value)) else NothingSettled(c, c'))
              && (frame.ResponseFrame? && frame.seqno > 1 ==>
                    if Waiting(frame.id) in c.pending then OneSettled(c, c', Waiting(frame.id), Answered(frame.value))
                    else AllRejected(c, c', Some(UnknownResponse)))
              && (frame.ReadyFrame? && frame.seqno > 1 ==> AllRejected(c, c', Some(UnknownResponse)))
  {
  }

  /** Losing the connection rejects every waiter of a client, once, and closes a server. */
  lemma LosesExactly(l: Link)
    ensures var l' := Step(l, ClientLosesConnection);
            && l' == l.(client := l'.client)
            && if l.client.failed then l'.client == l.client else AllRejected(l.client, l'.client, None) && l'.client.received == l.client.received
    ensures var l' := Step(l, ServerLosesConnection);
            l' == l.(server := l'.server) && l'.server.closed && l'.server == l.server.(closed := true)
  {
  }

  // The server has given up on the client, without an answer.
  predicate GivesUp(s: Server, s': Server, frame: Option<ServerFrame>) {
    s.queue != [] && frame == None && s' == s.(queue := s.queue[1..], closed := true, sequenceFault := true)
  }

  /**
   * A frame that the server starts to serve, exactly: the first must be the hello numbered one, and is
   * answered; each later one must be a request with the next number. Anything else closes the socket.
   */
  lemma ServerTakesExactly(s: Server)
    ensures var (s', frame) := Start(s);
            if s.closed || s.serving.Some? || s.queue == [] then s' == s && frame == None
            else if !s.authenticated && s.queue[0] == HelloFrame(1) then
              && frame == Some(ReadyFrame(s.sent + 1))
              && s' == s.(queue := s.queue[1..], authenticated := true, received := 1, sent := s.sent + 1, serving := Some(HelloServed))
            else if s.authenticated && s.queue[0].RequestFrame? && s.queue[0].seqno == s.received + 1 then
              && frame == None
              && s' == s.(queue := s.queue[1..], received := s.received + 1, serving := Some(RequestServed(s.queue[0].id, false)))
            else GivesUp(s, s', frame)
  {
  }

  // Taking a frame or failing keeps what was settled.
  lemma ReceiveKeeps(c: Client, frame: ServerFrame, w: Waiter)
    requires w in c.settled && w !in c.pending
    ensures w in Receive(c, frame).settled && Receive(c, frame).settled[w] == c.settled[w]
    ensures w in Fail(c, None).settled && Fail(c, None).settled[w] == c.settled[w]
  {
    ClientTakesExactly(c, frame);
    hide Receive;
  }

  lemma StepKeeps(l: Link, event: Event, w: Waiter)
    requires w in l.client.settled && w !in l.client.pending
    ensures w in Step(l, event).client.settled && Step(l, event).client.settled[w] == l.client.settled[w]
  {
    ReceiveKeeps(l.client, if l.toClient != [] then l.toClient[0] else OutputFrame(0), w);
    hide Receive;
    hide Fail;
    hide Start;
    hide Respond;
    hide Enqueue;
    hide EmitOutput;
    hide Finish;
  }

  /** What a caller was told is for good: no later step of any run changes it. */
  lemma SettledForGood(events: seq<Event>, event: Event, w: Waiter)
    requires w in Run(events).client.settled
    ensures w in Run(events + [event]).client.settled
    ensures Run(events + [event]).client.settled[w] == Run(events).client.settled[w]
  {
    assert (events + [event])[..|events|] == events;
    EveryRequestSettlesOnce(events);
    hide Step;
    StepKeeps(Run(events), event, w);
  }
}
