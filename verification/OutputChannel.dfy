/**
 * packages/harness-adapter/src/output-channel.ts: values emitted by a harness session, read by
 * one consumer. Readers that come too early wait; values that come too early are kept.
 */
module OutputChannel {
  import opened Prelude

  type Value = int
  type ReaderId = nat

  // What a reader's promise resolves to.
  datatype Next = Item(value: Value) | End

  // `readers` counts the calls of `next` so far; a reader is known by the order it came in.
  datatype Channel = Channel(
    values: seq<Value>, pending: seq<ReaderId>, ended: bool, readers: nat, answers: map<ReaderId, Next>)

  datatype Event = Emit(value: Value) | Read | Close

  function Open(): Channel {
    Channel([], [], false, 0, map[])
  }

  function AnswerAll(answers: map<ReaderId, Next>, waiting: seq<ReaderId>): map<ReaderId, Next> {
    if waiting == [] then answers else AnswerAll(answers, Front(waiting))[Last(waiting) := End]
  }

  /** `emit`; the second result is what it returns. */
  function EmitValue(c: Channel, value: Value): (Channel, bool) {
    if c.ended then (c, false)
    else if c.pending != [] then (c.(pending := c.pending[1..], answers := c.answers[c.pending[0] := Item(value)]), true)
    else (c.(values := c.values + [value]), true)
  }

  function EndOutputs(c: Channel): Channel {
    if c.ended then c
    else if c.values != [] then c.(ended := true)
    else c.(ended := true, pending := [], answers := AnswerAll(c.answers, c.pending))
  }

  function NextOutput(c: Channel): Channel {
    var reader := c.readers;
    var c1 := c.(readers := c.readers + 1);
    if c.values != [] then c1.(values := c.values[1..], answers := c.answers[reader := Item(c.values[0])])
    else if c.ended then c1.(answers := c.answers[reader := End])
    else c1.(pending := c.pending + [reader])
  }

  function Step(c: Channel, event: Event): Channel {
    match event
    case Emit(value) => EmitValue(c, value).0
    case Read => NextOutput(c)
    case Close => EndOutputs(c)
  }

  function Run(events: seq<Event>): Channel {
    if events == [] then Open() else Step(Run(Front(events)), Last(events))
  }

  // ---- the intended meaning, from the calls alone -----------------------------------------------

  predicate Closed(events: seq<Event>) {
    Close in events
  }

  // The values accepted, in order: those emitted before the first end.
  function Accepted(events: seq<Event>): seq<Value> {
    if events == [] then []
    else if Last(events).Emit? && !Closed(Front(events)) then Accepted(Front(events)) + [Last(events).value]
    else Accepted(Front(events))
  }

  function Readers(events: seq<Event>): nat {
    if events == [] then 0 else Readers(Front(events)) + if Last(events).Read? then 1 else 0
  }

  // What the k-th reader gets, if it has been decided.
  function Expected(events: seq<Event>, k: ReaderId): Option<Next> {
    if k >= Readers(events) then None
    else if k < |Accepted(events)| then Some(Item(Accepted(events)[k]))
    else if Closed(events) then Some(End)
    else None
  }

  // ---- the invariant -------------------------------------------------------------------------------

  // The readers from..to, in order.
  function Range(from: nat, to: nat): (r: seq<ReaderId>)
    requires from <= to
    ensures |r| == to - from && forall i :: 0 <= i < |r| ==> r[i] == from + i
  {
    seq(to - from, i => from + i)
  }

  function Least(a: nat, b: nat): nat {
    if a <= b then a else b
  }

  ghost predicate QueuesInv(c: Channel, accepted: seq<Value>) {
    && c.values == accepted[Least(c.readers, |accepted|)..]
    && c.pending == if c.ended then [] else Range(Least(|accepted|, c.readers), c.readers)
  }

  ghost predicate AnswersInv(c: Channel, accepted: seq<Value>) {
    forall k: ReaderId ::
      if k < c.readers && k < |accepted| then k in c.answers && c.answers[k] == Item(accepted[k])
      else if k < c.readers && c.ended then k in c.answers && c.answers[k] == End
      else k !in c.answers
  }

  ghost predicate Inv(c: Channel, accepted: seq<Value>) {
    QueuesInv(c, accepted) && AnswersInv(c, accepted)
  }

  lemma EmitInv(c: Channel, accepted: seq<Value>, value: Value)
    requires Inv(c, accepted)
    ensures Inv(EmitValue(c, value).0, if c.ended then accepted else accepted + [value])
    ensures EmitValue(c, value).1 <==> !c.ended
  {
  }

  lemma ReadInv(c: Channel, accepted: seq<Value>)
    requires Inv(c, accepted)
    ensures Inv(NextOutput(c), accepted)
  {
  }

  lemma {:induction false} AnswerAllExact(answers: map<ReaderId, Next>, waiting: seq<ReaderId>)
    ensures forall k: ReaderId :: k in AnswerAll(answers, waiting) <==> k in answers || k in waiting
    ensures forall k: ReaderId :: k in waiting ==> AnswerAll(answers, waiting)[k] == End
    ensures forall k: ReaderId :: k in answers && k !in waiting ==> AnswerAll(answers, waiting)[k] == answers[k]
  {
    if waiting != [] {
      AnswerAllExact(answers, Front(waiting));
      assert waiting == Front(waiting) + [Last(waiting)];
    }
  }

  lemma EndInv(c: Channel, accepted: seq<Value>)
    requires Inv(c, accepted)
    ensures Inv(EndOutputs(c), accepted)
  {
    AnswerAllExact(c.answers, c.pending);
    if !c.ended && c.values == [] {
      var first := Least(|accepted|, c.readers);
      forall k: ReaderId | first <= k < c.readers ensures k in c.pending {
        assert c.pending[k - first] == k;
      }
    }
  }

  // What the last call adds to the history.
  lemma LastCall(events: seq<Event>)
    requires events != []
    ensures Run(events) == Step(Run(Front(events)), Last(events))
    ensures Accepted(events) == Accepted(Front(events)) +
              (if Last(events).Emit? && !Closed(Front(events)) then [Last(events).value] else [])
    ensures Readers(events) == Readers(Front(events)) + if Last(events).Read? then 1 else 0
    ensures Closed(events) <==> Closed(Front(events)) || Last(events).Close?
  {
    assert events == Front(events) + [Last(events)];
  }

  lemma {:induction false} RunInv(events: seq<Event>)
    ensures Inv(Run(events), Accepted(events))
    ensures Run(events).ended == Closed(events) && Run(events).readers == Readers(events)
  {
    if events != [] {
      RunInv(Front(events));
      LastCall(events);
      hide Run;
      hide Accepted;
      hide Readers;
      hide Closed;
      hide Inv;
      var c, accepted := Run(Front(events)), Accepted(Front(events));
      match Last(events)
      case Emit(value) => EmitInv(c, accepted, value);
      case Read => ReadInv(c, accepted);
      case Close => EndInv(c, accepted);
      assert accepted + [] == accepted;
    }
  }

  // ---- what it guarantees ------------------------------------------------------------------------------

  /**
   * Over every interleaving the k-th reader gets the k-th accepted value, gets the end
   * exactly when fewer were accepted before the channel ended, and otherwise still waits.
   */
  lemma KthReaderGetsKthValue(events: seq<Event>, k: ReaderId)
    ensures (if k in Run(events).answers then Some(Run(events).answers[k]) else None) == Expected(events, k)
    ensures k in Run(events).pending <==> k < Readers(events) && Expected(events, k).None?
  {
    RunInv(events);
    var c := Run(events);
    var first := Least(|Accepted(events)|, c.readers);
    if k < c.readers && first <= k && !c.ended { assert c.pending[k - first] == k; }
  }

  /** Readers never wait while values are kept, and what is kept is exactly what no reader has had. */
  lemma NeverBothWaiting(events: seq<Event>)
    ensures Run(events).values == [] || Run(events).pending == []
    ensures Readers(events) <= |Accepted(events)| ==> Run(events).values == Accepted(events)[Readers(events)..]
    ensures Readers(events) >= |Accepted(events)| ==> Run(events).values == []
  {
    RunInv(events);
  }

  /** `emit` tells the truth: it answers true exactly when the value is among those readers will get. */
  lemma EmitAcceptedExactly(events: seq<Event>, value: Value)
    ensures EmitValue(Run(events), value).1 <==> Accepted(events + [Emit(value)]) == Accepted(events) + [value]
    ensures EmitValue(Run(events), value).1 <==> !Closed(events)
  {
    RunInv(events);
    assert Front(events + [Emit(value)]) == events;
  }

  // ---- the object -----------------------------------------------------------------------------------------

  class HarnessOutputChannel {
    var values: seq<Value>
    var pending: seq<ReaderId>
    var ended: bool
    var readers: nat
    var answers: map<ReaderId, Next>

    ghost function View(): Channel
      reads this
    {
      Channel(values, pending, ended, readers, answers)
    }

    constructor ()
      ensures View() == Open()
    {
      values, pending, ended, readers, answers := [], [], false, 0, map[];
    }

    method EmitOutput(value: Value) returns (accepted: bool)
      modifies this
      ensures (View(), accepted) == EmitValue(old(View()), value)
    {
      if ended {
        return false;
      }
      if |pending| > 0 {
        var reader := pending[0];
        pending := pending[1..];
        answers := answers[reader := Item(value)];
      } else {
        values := values + [value];
      }
      return true;
    }

    method Finish()
      modifies this
      ensures View() == EndOutputs(old(View()))
    {
      if ended {
        return;
      }
      ended := true;
      if |values| != 0 {
        return;
      }
      var waiting := pending;
      pending := [];
      for i := 0 to |waiting|
        invariant answers == AnswerAll(old(answers), waiting[..i])
        modifies this`answers
      {
        assert Front(waiting[..i + 1]) == waiting[..i];
        answers := answers[waiting[i] := End];
      }
      assert waiting[..|waiting|] == waiting;
    }

    method ReadNext() returns (reader: ReaderId)
      modifies this
      ensures View() == NextOutput(old(View())) && reader == old(readers)
    {
      reader := readers;
      readers := readers + 1;
      if |values| > 0 {
        var value := values[0];
        values := values[1..];
        answers := answers[reader := Item(value)];
      } else if ended {
        answers := answers[reader := End];
      } else {
        pending := pending + [reader];
      }
    }
  }
}
