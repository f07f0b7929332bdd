/**
 * The order in which the Host hands out a thread's waiting messages. The queue of
 * packages/host-runtime/src/external-thread-queue.ts is first in, first out for as long as
 * nobody reorders it or takes past its head, and one message is in hand at a time; a
 * message whose start failed goes back to the head and does not lose its turn.
 */
module MessageOrder {
  import opened Prelude
  import opened MessageQueue

  // Ids are issued in order, so a smaller id was added earlier.
  ghost predicate Ascending(ids: seq<Id>) {
    forall i, j :: 0 <= i < j < |ids| ==> ids[i] < ids[j]
  }

  predicate TakenFrom(places: map<Id, Place>, thread: ThreadId, id: Id) {
    id in places && places[id] == Taken(thread)
  }

  // What waits does so in the order of arrival, and the one message in hand came before all of it.
  ghost predicate Lined(ids: seq<Id>, places: map<Id, Place>, thread: ThreadId) {
    && Ascending(ids)
    && (forall a: Id, b: Id :: TakenFrom(places, thread, a) && TakenFrom(places, thread, b) ==> a == b)
    && (forall a: Id, b: Id :: TakenFrom(places, thread, a) && b in ids ==> a < b)
  }

  ghost predicate InOrder(w: World, thread: ThreadId) {
    Lined(Ids(Queue(w.queues, thread)), w.places, thread)
  }

  // Not a reorder of this thread, and a take of it only of the head and with nothing in hand.
  predicate KeepsTurn(w: World, thread: ThreadId, event: Event) {
    match event
    case ReorderAsked(at, ids) => at != thread
    case TakeAsked(at, named) =>
      at == thread ==>
        && InHand(w.places, thread) == {}
        && (named.None? || Queue(w.queues, thread) == [] || Queue(w.queues, thread)[0].id == named.value)
    case _ => true
  }

  ghost predicate Orderly(capacity: nat, events: seq<Event>, thread: ThreadId) {
    events != [] ==> Orderly(capacity, Front(events), thread) && KeepsTurn(Run(capacity, Front(events)), thread, Last(events))
  }

  // Fewer wait, and nothing was handed out.
  lemma FewerLined(ids: seq<Id>, ids': seq<Id>, places: map<Id, Place>, places': map<Id, Place>, thread: ThreadId)
    requires Lined(ids, places, thread) && Ascending(ids') && forall id :: id in ids' ==> id in ids
    requires forall id: Id :: TakenFrom(places', thread, id) ==> TakenFrom(places, thread, id)
    ensures Lined(ids', places', thread)
  {
  }

  lemma AscendingWithout(ids: seq<Id>, index: nat)
    requires Ascending(ids) && index < |ids|
    ensures Ascending(ids[..index] + ids[index + 1..]) && forall id :: id in ids[..index] + ids[index + 1..] ==> id in ids
  {
    var rest := ids[..index] + ids[index + 1..];
    assert forall k :: 0 <= k < |rest| ==> rest[k] == if k < index then ids[k] else ids[k + 1];
  }

  lemma AscendingThen(ids: seq<Id>, last: Id)
    requires Ascending(ids) && forall k :: 0 <= k < |ids| ==> ids[k] < last
    ensures Ascending(ids + [last])
  {
  }

  lemma AscendingAfter(first: Id, ids: seq<Id>)
    requires Ascending(ids) && forall id :: id in ids ==> first < id
    ensures Ascending([first] + ids)
  {
    assert forall k :: 0 <= k < |ids| ==> ids[k] in ids;
  }

  // The thread is not concerned.
  lemma ElsewhereOrder(w: World, w': World, thread: ThreadId)
    requires InOrder(w, thread) && Elsewhere(w, w', thread)
    ensures InOrder(w', thread)
  {
    var ids := Ids(Queue(w.queues, thread));
    FewerLined(ids, ids, w.places, w'.places, thread);
  }

  lemma NewestLined(ids: seq<Id>, places: map<Id, Place>, next: Id, thread: ThreadId)
    requires Lined(ids, places, thread) && (forall id :: id in places ==> id < next) && forall id :: id in ids ==> id in places
    ensures Lined(ids + [next], places[next := Queued(thread)], thread)
  {
    forall k | 0 <= k < |ids| ensures ids[k] < next {
      assert ids[k] in ids;
    }
    AscendingThen(ids, next);
    var places' := places[next := Queued(thread)];
    assert forall id: Id :: TakenFrom(places', thread, id) ==> TakenFrom(places, thread, id) && id in places;
  }

  lemma AddOrder(w: World, capacity: nat, at: ThreadId, message: Option<MessageId>, content: Option<Content>, thread: ThreadId)
    requires Inv(w, capacity) && InOrder(w, thread)
    ensures InOrder(Added(w, capacity, at, message, content), thread)
  {
    var w', queue := Added(w, capacity, at, message, content), Queue(w.queues, thread);
    assert ThreadInv(w, capacity, thread);
    if at == thread && Queue(w'.queues, thread) != queue {
      var s := Last(Queue(w'.queues, thread));
      assert Queue(w'.queues, thread) == queue + [s] && s.id == w.next && w'.places == w.places[w.next := Queued(thread)];
      hide Added;
      hide Queue;
      assert Ids(queue + [s]) == Ids(queue) + [w.next];
      hide Ids;
      hide InHand;
      NewestLined(Ids(queue), w.places, w.next, thread);
    } else {
      assert forall id: Id :: TakenFrom(w'.places, thread, id) ==> TakenFrom(w.places, thread, id);
      FewerLined(Ids(queue), Ids(queue), w.places, w'.places, thread);
    }
  }

  lemma UpdateOrder(w: World, at: ThreadId, id: Option<Id>, content: Option<Content>, thread: ThreadId)
    requires InOrder(w, thread)
    ensures InOrder(w.(queues := Update(w.queues, at, id, content).0), thread)
  {
    if id.Some? { FindIdExact(Queue(w.queues, at), id.value); }
    assert Ids(Queue(Update(w.queues, at, id, content).0, thread)) == Ids(Queue(w.queues, thread));
  }

  lemma DeleteOrder(w: World, at: ThreadId, id: Option<Id>, thread: ThreadId)
    requires InOrder(w, thread)
    ensures InOrder(Dropped(w, at, id), thread)
  {
    var w', queue, ids := Dropped(w, at, id), Queue(w.queues, at), Ids(Queue(w.queues, thread));
    assert forall a: Id :: TakenFrom(w'.places, thread, a) ==> TakenFrom(w.places, thread, a);
    if id.Some? { FindIdExact(queue, id.value); }
    if id.Some? && at == thread && FindId(queue, id.value).Some? {
      var index := FindId(queue, id.value).value;
      assert Queue(w'.queues, thread) == queue[..index] + queue[index + 1..];
      hide Dropped;
      assert Ids(queue[..index] + queue[index + 1..]) == ids[..index] + ids[index + 1..];
      AscendingWithout(ids, index);
      FewerLined(ids, ids[..index] + ids[index + 1..], w.places, w'.places, thread);
    } else {
      assert Queue(w'.queues, thread) == Queue(w.queues, thread);
      FewerLined(ids, ids, w.places, w'.places, thread);
    }
  }

  lemma TakeOrder(w: World, at: ThreadId, named: Option<Id>, thread: ThreadId)
    requires InOrder(w, thread) && KeepsTurn(w, thread, TakeAsked(at, named))
    ensures InOrder(HandedOut(w, at, named), thread)
  {
    var w', queue, ids := HandedOut(w, at, named), Queue(w.queues, at), Ids(Queue(w.queues, thread));
    if named.Some? { FindIdExact(queue, named.value); }
    if TakenIndex(queue, named).Some? {
      TakeStep(w, at, named, TakenIndex(queue, named).value);
      hide HandedOut;
      if at == thread {
        NothingInHand(w.places, thread);
        assert TakenIndex(queue, named) == Some(0) by { if named.Some? { assert queue[0].id == named.value; } }
        assert Queue(w'.queues, thread) == queue[1..] && Ids(queue[1..]) == ids[1..];
        assert ids[0] == queue[0].id && forall k :: 0 <= k < |ids| - 1 ==> ids[1..][k] == ids[k + 1];
        HeadTaken(ids, w.places, thread);
      } else {
        FewerLined(ids, ids, w.places, w'.places, thread);
      }
    }
  }

  lemma NothingInHand(places: map<Id, Place>, thread: ThreadId)
    requires InHand(places, thread) == {}
    ensures forall id: Id :: !TakenFrom(places, thread, id)
  {
    forall id: Id ensures !TakenFrom(places, thread, id) {
      assert id !in InHand(places, thread);
    }
  }

  lemma HeadTaken(ids: seq<Id>, places: map<Id, Place>, thread: ThreadId)
    requires ids != [] && Ascending(ids) && forall id: Id :: !TakenFrom(places, thread, id)
    ensures Lined(ids[1..], places[ids[0] := Taken(thread)], thread)
  {
    var taken := places[ids[0] := Taken(thread)];
    forall id: Id | TakenFrom(taken, thread, id) ensures id == ids[0] {
      assert !TakenFrom(places, thread, id);
    }
    forall b | b in ids[1..] ensures ids[0] < b {
      var k :| 0 <= k < |ids| - 1 && ids[1..][k] == b;
      assert ids[k + 1] == b;
    }
  }

  lemma ReturnedOrder(w: World, id: Id, thread: ThreadId)
    requires PlacesInv(w.next, w.places, w.held) && InOrder(w, thread)
    ensures InOrder(PutBack(w, id), thread) && InOrder(StartedFor(w, id), thread)
  {
    var queue, ids := Queue(w.queues, thread), Ids(Queue(w.queues, thread));
    assert forall a: Id :: TakenFrom(StartedFor(w, id).places, thread, a) ==> TakenFrom(w.places, thread, a);
    FewerLined(ids, ids, w.places, StartedFor(w, id).places, thread);
    hide StartedFor;
    if Holds(w, id) && w.places[id].thread == thread {
      var w' := PutBack(w, id);
      assert TakenFrom(w.places, thread, id);
      assert w'.places == w.places[id := Queued(thread)];
      assert Queue(w'.queues, thread) == [w.held[id]] + queue && w.held[id].id == id;
      hide PutBack;
      assert Ids([w.held[id]] + queue) == [id] + ids;
      AscendingAfter(id, ids);
      forall a: Id ensures !TakenFrom(w'.places, thread, a) {
        assert TakenFrom(w'.places, thread, a) ==> TakenFrom(w.places, thread, a);
      }
    } else {
      assert forall a: Id :: TakenFrom(PutBack(w, id).places, thread, a) ==> TakenFrom(w.places, thread, a);
      FewerLined(ids, ids, w.places, PutBack(w, id).places, thread);
    }
  }

  lemma ClearOrder(w: World, at: ThreadId, thread: ThreadId)
    requires InOrder(w, thread)
    ensures InOrder(Emptied(w, at), thread)
  {
    var ids, w' := Ids(Queue(w.queues, thread)), Emptied(w, at);
    assert forall a: Id :: TakenFrom(w'.places, thread, a) ==> TakenFrom(w.places, thread, a);
    FewerLined(ids, Ids(Queue(w'.queues, thread)), w.places, w'.places, thread);
  }

  lemma StepOrder(w: World, capacity: nat, event: Event, thread: ThreadId)
    requires Inv(w, capacity) && InOrder(w, thread) && KeepsTurn(w, thread, event)
    ensures InOrder(Step(w, capacity, event), thread)
  {
    match event
    case AddAsked(at, message, content) => AddOrder(w, capacity, at, message, content, thread);
    case UpdateAsked(at, id, content) => UpdateOrder(w, at, id, content, thread);
    case DeleteAsked(at, id) => DeleteOrder(w, at, id, thread);
    case ReorderAsked(at, ids) => ElsewhereOrder(w, Step(w, capacity, event), thread);
    case TakeAsked(at, named) => TakeOrder(w, at, named, thread);
    case StartFailed(id) => ReturnedOrder(w, id, thread);
    case StartSucceeded(id) => ReturnedOrder(w, id, thread);
    case ThreadCleared(at) => ClearOrder(w, at, thread);
  }

  lemma {:induction false} WaitingInOrder(capacity: nat, events: seq<Event>, thread: ThreadId)
    requires Orderly(capacity, events, thread)
    ensures InOrder(Run(capacity, events), thread)
  {
    if events != [] {
      WaitingInOrder(capacity, Front(events), thread);
      RunInv(capacity, Front(events));
      StepOrder(Run(capacity, Front(events)), capacity, Last(events), thread);
    }
  }

  predicate Waits(w: World, thread: ThreadId, id: Id) {
    id in w.places && (w.places[id] == Queued(thread) || w.places[id] == Taken(thread))
  }

  /**
   * First in, first out: once a message was handed out, no message added to its thread before
   * it ever waits or is handed out again. Whatever was to become of those has become of them.
   */
  lemma {:induction false} HandedOutInOrder(capacity: nat, events: seq<Event>, n: nat, thread: ThreadId, earlier: Id, later: Id)
    requires Orderly(capacity, events, thread) && n <= |events| && earlier < later
    requires TakenFrom(Run(capacity, events[..n]).places, thread, later)
    ensures earlier < Run(capacity, events).next && !Waits(Run(capacity, events), thread, earlier)
    decreases |events|
  {
    RunInv(capacity, events);
    if n == |events| {
      assert events[..n] == events;
      WaitingInOrder(capacity, events, thread);
      assert ThreadInv(Run(capacity, events), capacity, thread);
      var w := Run(capacity, events);
      assert later in w.places;
      assert Waits(w, thread, earlier) ==> TakenFrom(w.places, thread, earlier) || earlier in Ids(Queue(w.queues, thread));
    } else {
      assert Front(events)[..n] == events[..n];
      HandedOutInOrder(capacity, Front(events), n, thread, earlier, later);
      PlacesChangeOnlyAsAsked(capacity, Front(events), Last(events), earlier);
    }
  }
}
