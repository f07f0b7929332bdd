/**
 * packages/host-runtime/src/external-thread-queue.ts: messages a user sends while a turn is
 * running, kept per thread until the Host can start them. A taken message is in the Host's
 * hands: it is either started for good or put back at the head.
 */
module MessageQueue {
  import opened Prelude

  type ThreadId = nat
  type Id = nat
  type MessageId = nat
  type Content = int

  const QUEUE_CAPACITY: nat := 64

  datatype Submission = Submission(id: Id, content: Content, message: MessageId)

  type Queues = map<ThreadId, seq<Submission>>

  datatype Error = NoMessageId | NoText | Full | BadId | NotFound | BadOrder

  // ---- the operations on values ------------------------------------------------------------

  function Queue(queues: Queues, thread: ThreadId): seq<Submission> {
    if thread in queues then queues[thread] else []
  }

  function Ids(queue: seq<Submission>): (ids: seq<Id>)
    ensures |ids| == |queue|
  {
    Map((s: Submission) => s.id, queue)
  }

  function FindId(queue: seq<Submission>, id: Id): Option<nat> {
    if queue == [] then None
    else if queue[0].id == id then Some(0)
    else match FindId(queue[1..], id)
      case None => None
      case Some(i) => Some(i + 1)
  }

  // An emptied queue leaves the map.
  function Without(queues: Queues, thread: ThreadId, index: nat): Queues
    requires thread in queues && index < |queues[thread]|
  {
    var rest := queues[thread][..index] + queues[thread][index + 1..];
    if rest == [] then queues - {thread} else queues[thread := rest]
  }

  /** `content` is absent when the input holds no text; the entry is created before the size is looked at. */
  function Add(queues: Queues, capacity: nat, thread: ThreadId, id: Id, message: Option<MessageId>, content: Option<Content>)
    : (Queues, Result<Submission, Error>)
  {
    if message.None? then (queues, Err(NoMessageId))
    else if content.None? then (queues, Err(NoText))
    else if |Queue(queues, thread)| >= capacity then (queues[thread := Queue(queues, thread)], Err(Full))
    else
      var submission := Submission(id, content.value, message.value);
      (queues[thread := Queue(queues, thread) + [submission]], Ok(submission))
  }

  function Update(queues: Queues, thread: ThreadId, id: Option<Id>, content: Option<Content>): (Queues, Result<Submission, Error>) {
    if id.None? then (queues, Err(BadId))
    else
      FindIdExact(Queue(queues, thread), id.value);
      match FindId(Queue(queues, thread), id.value)
      case None => (queues, Err(NotFound))
      case Some(i) =>
        if content.None? then (queues, Err(NoText))
        else
          var submission := queues[thread][i].(content := content.value);
          (queues[thread := queues[thread][i := submission]], Ok(submission))
  }

  function Delete(queues: Queues, thread: ThreadId, id: Option<Id>): (Queues, Result<bool, Error>) {
    if id.None? then (queues, Err(BadId))
    else
      FindIdExact(Queue(queues, thread), id.value);
      match FindId(Queue(queues, thread), id.value)
      case None => (queues, Ok(false))
      case Some(i) => (Without(queues, thread, i), Ok(true))
  }

  // The ids name every queued submission exactly once.
  predicate ValidOrder(queue: seq<Submission>, ids: seq<Id>) {
    && |ids| == |queue|
    && |Elements(ids)| == |ids|
    && forall id :: id in ids ==> id in Ids(queue)
  }

  function Reordered(queue: seq<Submission>, ids: seq<Id>): seq<Submission> {
    if ids == [] then []
    else
      FindIdExact(queue, ids[0]);
      match FindId(queue, ids[0])
      case None => Reordered(queue, ids[1..])
      case Some(i) => [queue[i]] + Reordered(queue, ids[1..])
  }

  function Reorder(queues: Queues, thread: ThreadId, ids: Option<seq<Id>>): (Queues, Result<(), Error>) {
    if ids.None? || !ValidOrder(Queue(queues, thread), ids.value) then (queues, Err(BadOrder))
    else if Queue(queues, thread) == [] then (queues, Ok(()))
    else (queues[thread := Reordered(queues[thread], ids.value)], Ok(()))
  }

  /** The head, or the named submission. */
  function Take(queues: Queues, thread: ThreadId, named: Option<Id>): (Queues, Result<Option<Submission>, Error>) {
    if Queue(queues, thread) == [] then (queues, if named.Some? then Err(NotFound) else Ok(None))
    else
      if named.None? then (Without(queues, thread, 0), Ok(Some(queues[thread][0])))
      else
        FindIdExact(queues[thread], named.value);
        match FindId(queues[thread], named.value)
        case None => (queues, Err(NotFound))
        case Some(i) => (Without(queues, thread, i), Ok(Some(queues[thread][i])))
  }

  function Restore(queues: Queues, thread: ThreadId, submission: Submission): Queues {
    queues[thread := [submission] + Queue(queues, thread)]
  }

  function Clear(queues: Queues, thread: ThreadId): Queues {
    queues - {thread}
  }

  lemma {:induction false} FindIdExact(queue: seq<Submission>, id: Id)
    ensures FindId(queue, id).Some? ==> FindId(queue, id).value < |queue| && queue[FindId(queue, id).value].id == id
    ensures FindId(queue, id).None? <==> forall i :: 0 <= i < |queue| ==> queue[i].id != id
  {
    if queue != [] && queue[0].id != id {
      FindIdExact(queue[1..], id);
      assert forall i :: 0 < i < |queue| ==> queue[i] == queue[1..][i - 1];
    }
  }

  // ---- reorder, and take with restore ----------------------------------------------------------

  lemma DistinctFront(ids: seq<Id>)
    requires ids != []
    ensures Distinct(ids) <==> Distinct(Front(ids)) && Last(ids) !in Front(ids)
  {
    if Distinct(ids) {
      forall i | 0 <= i < |Front(ids)| ensures Front(ids)[i] != Last(ids) { assert ids[i] != ids[|ids| - 1]; }
    }
  }

  lemma {:induction false} DistinctSize(ids: seq<Id>)
    ensures |Elements(ids)| <= |ids|
    ensures Distinct(ids) <==> |Elements(ids)| == |ids|
  {
    if ids != [] {
      DistinctSize(Front(ids));
      DistinctFront(ids);
      assert ids == Front(ids) + [Last(ids)];
      assert Elements(ids) == Elements(Front(ids)) + {Last(ids)};
    }
  }

  lemma {:induction false} ReorderedIds(queue: seq<Submission>, ids: seq<Id>)
    requires forall id :: id in ids ==> id in Ids(queue)
    ensures Ids(Reordered(queue, ids)) == ids
    ensures forall s :: s in Reordered(queue, ids) ==> s in queue
  {
    if ids != [] {
      ReorderedIds(queue, ids[1..]);
      var found := ReorderedFirst(queue, ids);
      var rest := Reordered(queue, ids[1..]);
      hide Reordered;
      assert Ids([found] + rest) == [found.id] + Ids(rest);
    }
  }

  lemma ReorderedFirst(queue: seq<Submission>, ids: seq<Id>) returns (found: Submission)
    requires ids != [] && ids[0] in Ids(queue)
    ensures found in queue && found.id == ids[0] && Reordered(queue, ids) == [found] + Reordered(queue, ids[1..])
  {
    FindIdExact(queue, ids[0]);
    var i :| 0 <= i < |queue| && Ids(queue)[i] == ids[0];
    found := queue[FindId(queue, ids[0]).value];
  }

  lemma SameIdSame(queue: seq<Submission>, a: Submission, b: Submission)
    requires Distinct(Ids(queue)) && a in queue && b in queue && a.id == b.id
    ensures a == b
  {
    var i :| 0 <= i < |queue| && queue[i] == a;
    var j :| 0 <= j < |queue| && queue[j] == b;
    assert Ids(queue)[i] == Ids(queue)[j];
  }

  lemma {:induction false} DistinctCount(queue: seq<Submission>)
    requires Distinct(Ids(queue))
    ensures forall s :: multiset(queue)[s] == if s in queue then 1 else 0
  {
    if queue != [] {
      var front := Front(queue);
      assert queue == front + [Last(queue)];
      assert Ids(front) == Ids(queue)[..|front|];
      DistinctCount(front);
      forall i | 0 <= i < |front| ensures front[i] != Last(queue) {
        assert Ids(queue)[i] != Ids(queue)[|front|];
      }
    }
  }

  /** A reorder that is accepted is a permutation of the queue, in exactly the order asked for. */
  lemma ReorderPermutes(queue: seq<Submission>, ids: seq<Id>)
    requires Distinct(Ids(queue)) && ValidOrder(queue, ids)
    ensures Ids(Reordered(queue, ids)) == ids
    ensures multiset(Reordered(queue, ids)) == multiset(queue)
    ensures Distinct(ids)
  {
    ReorderedIds(queue, ids);
    DistinctSize(ids);
    DistinctSize(Ids(queue));
    var result := Reordered(queue, ids);
    DistinctCount(result);
    DistinctCount(queue);
    if Elements(ids) != Elements(Ids(queue)) { SmallerSet(Elements(ids), Elements(Ids(queue))); }
    forall s ensures s in result <==> s in queue {
      if s in queue {
        var i :| 0 <= i < |queue| && queue[i] == s;
        assert Ids(queue)[i] in Elements(Ids(queue)) && s.id in ids;
        var k :| 0 <= k < |ids| && ids[k] == s.id;
        assert Ids(result)[k] == result[k].id;
        SameIdSame(queue, s, result[k]);
      }
    }
  }

  /** An update is accepted exactly for a queued id with text, and changes the content of that submission alone. */
  lemma UpdateExact(queues: Queues, thread: ThreadId, id: Option<Id>, content: Option<Content>)
    ensures Update(queues, thread, id, content).1.Ok? <==>
              id.Some? && content.Some? && exists i :: 0 <= i < |Queue(queues, thread)| && Queue(queues, thread)[i].id == id.value
    ensures Update(queues, thread, id, content).1.Err? ==> Update(queues, thread, id, content).0 == queues
    ensures Update(queues, thread, id, content).1.Ok? && Distinct(Ids(Queue(queues, thread))) ==>
              UpdatedOnly(Queue(queues, thread), Queue(Update(queues, thread, id, content).0, thread), id.value, content.value)
    ensures forall other: ThreadId :: other != thread ==> Queue(Update(queues, thread, id, content).0, other) == Queue(queues, other)
  {
    if id.Some? {
      var queue := Queue(queues, thread);
      FindIdExact(queue, id.value);
      if Update(queues, thread, id, content).1.Ok? && Distinct(Ids(queue)) {
        var found := FindId(queue, id.value).value;
        forall i | 0 <= i < |queue| && i != found ensures queue[i].id != id.value {
          assert Ids(queue)[i] == queue[i].id && Ids(queue)[found] == id.value;
        }
      }
    }
  }

  predicate UpdatedOnly(before: seq<Submission>, after: seq<Submission>, id: Id, content: Content) {
    && |after| == |before|
    && forall i :: 0 <= i < |before| ==>
         after[i] == if before[i].id == id then before[i].(content := content) else before[i]
  }

  /** Taking the head and putting it back changes nothing. */
  lemma TakeThenRestore(queues: Queues, thread: ThreadId)
    requires Queue(queues, thread) != []
    ensures Take(queues, thread, None).1 == Ok(Some(queues[thread][0]))
    ensures Restore(Take(queues, thread, None).0, thread, queues[thread][0]) == queues
  {
    var queue := queues[thread];
    assert queue[..0] + queue[0 + 1..] == queue[1..];
    assert [queue[0]] + queue[1..] == queue;
  }

  // ---- runs ----------------------------------------------------------------------------------------

  // Where a submission that was ever added is now.
  datatype Place = Queued(thread: ThreadId) | Taken(thread: ThreadId) | Started | Deleted | Cleared

  // `held` is what the Host has in hand; ids are issued in order and never reused; `most` is the
  // largest number of a thread's submissions that were ever in the Host's hands at once.
  datatype World = World(
    queues: Queues, next: Id, places: map<Id, Place>, held: map<Id, Submission>, most: map<ThreadId, nat>)

  datatype Event =
    | AddAsked(thread: ThreadId, message: Option<MessageId>, content: Option<Content>)
    | UpdateAsked(thread: ThreadId, id: Option<Id>, content: Option<Content>)
    | DeleteAsked(thread: ThreadId, id: Option<Id>)
    | ReorderAsked(thread: ThreadId, ids: Option<seq<Id>>)
    | TakeAsked(thread: ThreadId, named: Option<Id>)
    | StartFailed(held: Id)
    | StartSucceeded(held: Id)
    | ThreadCleared(thread: ThreadId)

  function InHand(places: map<Id, Place>, thread: ThreadId): set<Id> {
    set id | id in places && places[id] == Taken(thread)
  }

  function Most(most: map<ThreadId, nat>, thread: ThreadId): nat {
    if thread in most then most[thread] else 0
  }

  function Added(w: World, capacity: nat, thread: ThreadId, message: Option<MessageId>, content: Option<Content>): World {
    var (queues, answer) := Add(w.queues, capacity, thread, w.next, message, content);
    if answer.Ok? then w.(queues := queues, next := w.next + 1, places := w.places[w.next := Queued(thread)])
    else w.(queues := queues)
  }

  function Dropped(w: World, thread: ThreadId, id: Option<Id>): World {
    var (queues, answer) := Delete(w.queues, thread, id);
    if answer == Ok(true) then w.(queues := queues, places := w.places[id.value := Deleted]) else w
  }

  function HandedOut(w: World, thread: ThreadId, named: Option<Id>): World {
    var (queues, answer) := Take(w.queues, thread, named);
    if answer.Err? || answer.value.None? then w
    else
      var submission := answer.value.value;
      var places := w.places[submission.id := Taken(thread)];
      var count := |InHand(places, thread)|;
      World(queues, w.next, places, w.held[submission.id := submission],
            w.most[thread := if count > Most(w.most, thread) then count else Most(w.most, thread)])
  }

  predicate Holds(w: World, id: Id) {
    id in w.held && id in w.places && w.places[id].Taken?
  }

  function PutBack(w: World, id: Id): World {
    if !Holds(w, id) then w
    else
      var thread := w.places[id].thread;
      w.(queues := Restore(w.queues, thread, w.held[id]), places := w.places[id := Queued(thread)], held := w.held - {id})
  }

  function StartedFor(w: World, id: Id): World {
    if !Holds(w, id) then w else w.(places := w.places[id := Started], held := w.held - {id})
  }

  function Emptied(w: World, thread: ThreadId): World {
    w.(queues := Clear(w.queues, thread),
       places := map id | id in w.places :: if w.places[id] == Queued(thread) then Cleared else w.places[id])
  }

  function Step(w: World, capacity: nat, event: Event): World {
    match event
    case AddAsked(thread, message, content) => Added(w, capacity, thread, message, content)
    case UpdateAsked(thread, id, content) => w.(queues := Update(w.queues, thread, id, content).0)
    case DeleteAsked(thread, id) => Dropped(w, thread, id)
    case ReorderAsked(thread, ids) => w.(queues := Reorder(w.queues, thread, ids).0)
    case TakeAsked(thread, named) => HandedOut(w, thread, named)
    case StartFailed(id) => PutBack(w, id)
    case StartSucceeded(id) => StartedFor(w, id)
    case ThreadCleared(thread) => Emptied(w, thread)
  }

  function Run(capacity: nat, events: seq<Event>): World {
    if events == [] then World(map[], 0, map[], map[], map[]) else Step(Run(capacity, Front(events)), capacity, Last(events))
  }

  // ---- the invariant ----------------------------------------------------------------------------------

  // One thread's queue holds exactly the ids placed in it, each once.
  ghost predicate QueueInv(queue: seq<Submission>, places: map<Id, Place>, thread: ThreadId) {
    && Distinct(Ids(queue))
    && (forall id: Id :: id in Ids(queue) <==> id in places && places[id] == Queued(thread))
  }

  ghost predicate PlacesInv(next: Id, places: map<Id, Place>, held: map<Id, Submission>) {
    && (forall id: Id :: id in places <==> id < next)
    && (forall id :: id in held <==> id in places && places[id].Taken?)
    && (forall id :: id in held ==> held[id].id == id)
  }

  ghost predicate BoundInv(w: World, capacity: nat, thread: ThreadId) {
    && |InHand(w.places, thread)| <= Most(w.most, thread)
    && |Queue(w.queues, thread)| + |InHand(w.places, thread)| <= capacity + Most(w.most, thread)
  }

  ghost predicate ThreadInv(w: World, capacity: nat, thread: ThreadId) {
    QueueInv(Queue(w.queues, thread), w.places, thread) && BoundInv(w, capacity, thread)
  }

  ghost predicate Inv(w: World, capacity: nat) {
    && PlacesInv(w.next, w.places, w.held)
    && forall thread: ThreadId :: ThreadInv(w, capacity, thread)
  }

  // What a step leaves alone for a thread it does not concern.
  predicate Elsewhere(w: World, w': World, thread: ThreadId) {
    && Queue(w'.queues, thread) == Queue(w.queues, thread)
    && (forall id :: id in w.places && (w.places[id] == Queued(thread) || w.places[id] == Taken(thread)) ==>
          id in w'.places && w'.places[id] == w.places[id])
    && (forall id :: id in w'.places && (w'.places[id] == Queued(thread) || w'.places[id] == Taken(thread)) ==>
          id in w.places && w'.places[id] == w.places[id])
    && Most(w'.most, thread) == Most(w.most, thread)
  }

  lemma ElsewhereInv(w: World, w': World, capacity: nat, thread: ThreadId)
    requires ThreadInv(w, capacity, thread) && Elsewhere(w, w', thread)
    ensures ThreadInv(w', capacity, thread)
  {
    assert InHand(w'.places, thread) == InHand(w.places, thread);
  }

  // ---- one queue changing

  lemma QueueAppended(queue: seq<Submission>, places: map<Id, Place>, thread: ThreadId, s: Submission)
    requires QueueInv(queue, places, thread) && s.id !in places
    ensures QueueInv(queue + [s], places[s.id := Queued(thread)], thread)
  {
    assert Ids(queue + [s]) == Ids(queue) + [s.id];
    assert s.id !in Ids(queue);
  }

  lemma QueuePrepended(queue: seq<Submission>, places: map<Id, Place>, thread: ThreadId, s: Submission)
    requires QueueInv(queue, places, thread) && s.id in places && places[s.id] != Queued(thread)
    ensures QueueInv([s] + queue, places[s.id := Queued(thread)], thread)
  {
    assert Ids([s] + queue) == [s.id] + Ids(queue);
    assert s.id !in Ids(queue);
  }

  lemma DistinctWithout(ids: seq<Id>, index: nat)
    requires Distinct(ids) && index < |ids|
    ensures Distinct(ids[..index] + ids[index + 1..])
    ensures forall id :: id in ids[..index] + ids[index + 1..] <==> id in ids && id != ids[index]
  {
    assert ids == ids[..index] + [ids[index]] + ids[index + 1..];
  }

  lemma RemovedIds(queue: seq<Submission>, index: nat)
    requires Distinct(Ids(queue)) && index < |queue|
    ensures Distinct(Ids(queue[..index] + queue[index + 1..]))
    ensures forall id :: id in Ids(queue[..index] + queue[index + 1..]) <==> id in Ids(queue) && id != queue[index].id
  {
    DistinctWithout(Ids(queue), index);
    assert Ids(queue)[index] == queue[index].id;
    assert Ids(queue[..index] + queue[index + 1..]) == Ids(queue)[..index] + Ids(queue)[index + 1..];
  }

  lemma QueueRemoved(queue: seq<Submission>, places: map<Id, Place>, thread: ThreadId, index: nat, place: Place)
    requires QueueInv(queue, places, thread) && index < |queue| && place != Queued(thread)
    ensures QueueInv(queue[..index] + queue[index + 1..], places[queue[index].id := place], thread)
    ensures queue[index].id in places && places[queue[index].id] == Queued(thread)
  {
    RemovedIds(queue, index);
    assert Ids(queue)[index] == queue[index].id;
  }

  // ---- the bound, as the queue and the Host's hands change

  lemma BoundKept(w: World, w': World, capacity: nat, thread: ThreadId)
    requires BoundInv(w, capacity, thread) && Most(w'.most, thread) == Most(w.most, thread)
    requires forall id :: id in InHand(w'.places, thread) <==> id in InHand(w.places, thread)
    requires |Queue(w'.queues, thread)| <= |Queue(w.queues, thread)| || |Queue(w'.queues, thread)| <= capacity
    ensures BoundInv(w', capacity, thread)
  {
    assert InHand(w'.places, thread) == InHand(w.places, thread);
  }

  lemma BoundTaken(w: World, w': World, capacity: nat, thread: ThreadId, id: Id)
    requires BoundInv(w, capacity, thread) && id !in InHand(w.places, thread)
    requires forall i :: i in InHand(w'.places, thread) <==> i in InHand(w.places, thread) || i == id
    requires |Queue(w'.queues, thread)| == |Queue(w.queues, thread)| - 1
    requires Most(w'.most, thread) >= Most(w.most, thread) && Most(w'.most, thread) >= |InHand(w'.places, thread)|
    ensures BoundInv(w', capacity, thread)
  {
    assert InHand(w'.places, thread) == InHand(w.places, thread) + {id};
  }

  lemma BoundReturned(w: World, w': World, capacity: nat, thread: ThreadId, id: Id)
    requires BoundInv(w, capacity, thread) && id in InHand(w.places, thread)
    requires forall i :: i in InHand(w'.places, thread) <==> i in InHand(w.places, thread) && i != id
    requires |Queue(w'.queues, thread)| <= |Queue(w.queues, thread)| + 1 && Most(w'.most, thread) == Most(w.most, thread)
    ensures BoundInv(w', capacity, thread)
  {
    assert InHand(w'.places, thread) == InHand(w.places, thread) - {id};
  }

  // ---- each operation

  // An add, seen from its thread and from any other.
  lemma AddStep(w: World, capacity: nat, at: ThreadId, message: Option<MessageId>, content: Option<Content>)
    ensures var w' := Added(w, capacity, at, message, content);
            && w'.most == w.most && w'.held == w.held
            && (w'.next == w.next ==> w'.places == w.places)
            && (forall thread: ThreadId :: thread != at || w'.next == w.next ==> Queue(w'.queues, thread) == Queue(w.queues, thread))
            && (w'.next != w.next ==>
                  && w'.places == w.places[w.next := Queued(at)]
                  && |Queue(w.queues, at)| < capacity
                  && exists s: Submission :: s.id == w.next && Queue(w'.queues, at) == Queue(w.queues, at) + [s])
  {
  }

  lemma AddInv(w: World, capacity: nat, at: ThreadId, message: Option<MessageId>, content: Option<Content>, thread: ThreadId)
    requires Inv(w, capacity)
    ensures ThreadInv(Added(w, capacity, at, message, content), capacity, thread)
  {
    var w' := Added(w, capacity, at, message, content);
    assert ThreadInv(w, capacity, thread);
    AddStep(w, capacity, at, message, content);
    if thread != at || w'.next == w.next {
      ElsewhereInv(w, w', capacity, thread);
    } else {
      var s: Submission :| s.id == w.next && Queue(w'.queues, thread) == Queue(w.queues, thread) + [s];
      QueueAppended(Queue(w.queues, thread), w.places, thread, s);
      BoundKept(w, w', capacity, thread);
    }
  }

  lemma UpdateInv(w: World, capacity: nat, at: ThreadId, id: Option<Id>, content: Option<Content>, thread: ThreadId)
    requires Inv(w, capacity)
    ensures ThreadInv(Step(w, capacity, UpdateAsked(at, id, content)), capacity, thread)
  {
    var w' := Step(w, capacity, UpdateAsked(at, id, content));
    assert ThreadInv(w, capacity, thread);
    if id.Some? { FindIdExact(Queue(w.queues, at), id.value); }
    assert Ids(Queue(w'.queues, thread)) == Ids(Queue(w.queues, thread));
  }

  lemma DeleteInv(w: World, capacity: nat, at: ThreadId, id: Option<Id>, thread: ThreadId)
    requires Inv(w, capacity)
    ensures ThreadInv(Dropped(w, at, id), capacity, thread)
  {
    var w', queue := Dropped(w, at, id), Queue(w.queues, at);
    assert ThreadInv(w, capacity, thread) && ThreadInv(w, capacity, at);
    if w' != w {
      FindIdExact(queue, id.value);
      QueueRemoved(queue, w.places, at, FindId(queue, id.value).value, Deleted);
      if thread != at { ElsewhereInv(w, w', capacity, thread); } else { BoundKept(w, w', capacity, thread); }
    }
  }

  lemma SameIds(a: seq<Submission>, b: seq<Submission>, id: Id)
    requires multiset(a) == multiset(b)
    ensures id in Ids(a) <==> id in Ids(b)
  {
    if id in Ids(a) {
      var i :| 0 <= i < |a| && Ids(a)[i] == id;
      assert a[i] in multiset(b);
      var j :| 0 <= j < |b| && b[j] == a[i];
      assert Ids(b)[j] == id;
    }
    if id in Ids(b) {
      var i :| 0 <= i < |b| && Ids(b)[i] == id;
      assert b[i] in multiset(a);
      var j :| 0 <= j < |a| && a[j] == b[i];
      assert Ids(a)[j] == id;
    }
  }

  lemma ReorderInv(w: World, capacity: nat, at: ThreadId, ids: Option<seq<Id>>, thread: ThreadId)
    requires Inv(w, capacity)
    ensures ThreadInv(Step(w, capacity, ReorderAsked(at, ids)), capacity, thread)
  {
    var w' := Step(w, capacity, ReorderAsked(at, ids));
    assert ThreadInv(w, capacity, thread) && ThreadInv(w, capacity, at);
    if w' != w && thread == at {
      var queue := Queue(w.queues, thread);
      ReorderPermutes(queue, ids.value);
      forall id ensures id in ids.value <==> id in Ids(queue) {
        SameIds(queue, Reordered(queue, ids.value), id);
      }
      assert |multiset(queue)| == |queue| && |multiset(Reordered(queue, ids.value))| == |Reordered(queue, ids.value)|;
    }
  }

  // Which index a take removes.
  function TakenIndex(queue: seq<Submission>, named: Option<Id>): Option<nat> {
    if queue == [] then None else if named.None? then Some(0) else FindId(queue, named.value)
  }

  // A take, seen from its thread and from any other.
  lemma TakeStep(w: World, at: ThreadId, named: Option<Id>, index: nat)
    requires TakenIndex(Queue(w.queues, at), named) == Some(index) && index < |Queue(w.queues, at)|
    ensures var queue := Queue(w.queues, at);
            var w' := HandedOut(w, at, named);
            && w'.places == w.places[queue[index].id := Taken(at)]
            && Queue(w'.queues, at) == queue[..index] + queue[index + 1..]
            && Most(w'.most, at) >= Most(w.most, at)
            && Most(w'.most, at) >= |InHand(w'.places, at)|
            && forall thread: ThreadId :: thread != at ==>
                 Queue(w'.queues, thread) == Queue(w.queues, thread) && Most(w'.most, thread) == Most(w.most, thread)
  {
  }

  lemma TakenHere(w: World, w': World, capacity: nat, thread: ThreadId, index: nat)
    requires ThreadInv(w, capacity, thread) && index < |Queue(w.queues, thread)|
    requires w'.places == w.places[Queue(w.queues, thread)[index].id := Taken(thread)]
    requires Queue(w'.queues, thread) == Queue(w.queues, thread)[..index] + Queue(w.queues, thread)[index + 1..]
    requires Most(w'.most, thread) >= Most(w.most, thread) && Most(w'.most, thread) >= |InHand(w'.places, thread)|
    ensures ThreadInv(w', capacity, thread)
  {
    QueueRemoved(Queue(w.queues, thread), w.places, thread, index, Taken(thread));
    BoundTaken(w, w', capacity, thread, Queue(w.queues, thread)[index].id);
  }

  lemma TakeInv(w: World, capacity: nat, at: ThreadId, named: Option<Id>, thread: ThreadId)
    requires Inv(w, capacity)
    ensures ThreadInv(HandedOut(w, at, named), capacity, thread)
  {
    var w', queue := HandedOut(w, at, named), Queue(w.queues, at);
    assert ThreadInv(w, capacity, thread) && ThreadInv(w, capacity, at);
    if named.Some? { FindIdExact(queue, named.value); }
    if TakenIndex(queue, named).Some? {
      var index := TakenIndex(queue, named).value;
      TakeStep(w, at, named, index);
      if thread == at {
        TakenHere(w, w', capacity, thread, index);
      } else {
        QueueRemoved(queue, w.places, at, index, Taken(at));
        ElsewhereInv(w, w', capacity, thread);
      }
    }
  }

  lemma StartedInv(w: World, capacity: nat, id: Id, thread: ThreadId)
    requires Inv(w, capacity)
    ensures ThreadInv(StartedFor(w, id), capacity, thread) && ThreadInv(PutBack(w, id), capacity, thread)
  {
    assert ThreadInv(w, capacity, thread);
    if Holds(w, id) {
      if thread != w.places[id].thread {
        ElsewhereInv(w, StartedFor(w, id), capacity, thread);
        ElsewhereInv(w, PutBack(w, id), capacity, thread);
      } else {
        BoundReturned(w, StartedFor(w, id), capacity, thread, id);
        BoundReturned(w, PutBack(w, id), capacity, thread, id);
        QueuePrepended(Queue(w.queues, thread), w.places, thread, w.held[id]);
      }
    }
  }

  lemma ClearInv(w: World, capacity: nat, at: ThreadId, thread: ThreadId)
    requires Inv(w, capacity)
    ensures ThreadInv(Emptied(w, at), capacity, thread)
  {
    assert ThreadInv(w, capacity, thread);
    if thread != at { ElsewhereInv(w, Emptied(w, at), capacity, thread); } else { BoundKept(w, Emptied(w, at), capacity, thread); }
  }

  // What leaves a queue was placed there.
  lemma RemovedWasQueued(w: World, capacity: nat, thread: ThreadId, named: Option<Id>)
    requires Inv(w, capacity)
    ensures var index := TakenIndex(Queue(w.queues, thread), named);
            index.Some? ==>
              && index.value < |Queue(w.queues, thread)|
              && Queue(w.queues, thread)[index.value].id in w.places
              && w.places[Queue(w.queues, thread)[index.value].id] == Queued(thread)
  {
    var queue := Queue(w.queues, thread);
    assert ThreadInv(w, capacity, thread);
    if named.Some? { FindIdExact(queue, named.value); }
    if TakenIndex(queue, named).Some? { QueueRemoved(queue, w.places, thread, TakenIndex(queue, named).value, Started); }
  }

  lemma PlacesKept(w: World, capacity: nat, event: Event)
    requires Inv(w, capacity)
    ensures PlacesInv(Step(w, capacity, event).next, Step(w, capacity, event).places, Step(w, capacity, event).held)
  {
    hide Add;
    hide ThreadInv;
    match event
    case AddAsked(thread, message, content) => AddedPlaces(w, capacity, thread, message, content);
    case DeleteAsked(thread, id) =>
      RemovedWasQueued(w, capacity, thread, id);
      if id.Some? { FindIdExact(Queue(w.queues, thread), id.value); }
    case TakeAsked(thread, named) => RemovedWasQueued(w, capacity, thread, named);
    case _ =>
  }

  lemma AddedPlaces(w: World, capacity: nat, thread: ThreadId, message: Option<MessageId>, content: Option<Content>)
    requires PlacesInv(w.next, w.places, w.held)
    ensures var w' := Added(w, capacity, thread, message, content); PlacesInv(w'.next, w'.places, w'.held)
  {
    hide Add;
  }

  lemma StepInv(w: World, capacity: nat, event: Event)
    requires Inv(w, capacity)
    ensures Inv(Step(w, capacity, event), capacity)
  {
    PlacesKept(w, capacity, event);
    forall thread: ThreadId ensures ThreadInv(Step(w, capacity, event), capacity, thread) {
      match event
      case AddAsked(at, message, content) => AddInv(w, capacity, at, message, content, thread);
      case UpdateAsked(at, id, content) => UpdateInv(w, capacity, at, id, content, thread);
      case DeleteAsked(at, id) => DeleteInv(w, capacity, at, id, thread);
      case ReorderAsked(at, ids) => ReorderInv(w, capacity, at, ids, thread);
      case TakeAsked(at, named) => TakeInv(w, capacity, at, named, thread);
      case StartFailed(id) => StartedInv(w, capacity, id, thread);
      case StartSucceeded(id) => StartedInv(w, capacity, id, thread);
      case ThreadCleared(at) => ClearInv(w, capacity, at, thread);
    }
  }

  lemma {:induction false} RunInv(capacity: nat, events: seq<Event>)
    ensures Inv(Run(capacity, events), capacity)
  {
    if events != [] {
      RunInv(capacity, Front(events));
      StepInv(Run(capacity, Front(events)), capacity, Last(events));
    }
  }

  // ---- what it guarantees --------------------------------------------------------------------------------

  /**
   * Conservation: every submission ever added is in exactly one place. It is in a thread's
   * queue exactly if its place says so, once and in no other queue, and in the Host's hands
   * exactly if it was taken and neither started nor put back.
   */
  lemma EverySubmissionInOnePlace(capacity: nat, events: seq<Event>, id: Id)
    ensures id in Run(capacity, events).places <==> id < Run(capacity, events).next
    ensures forall thread: ThreadId :: id in Ids(Queue(Run(capacity, events).queues, thread)) <==>
              id < Run(capacity, events).next && Run(capacity, events).places[id] == Queued(thread)
    ensures forall thread: ThreadId :: Distinct(Ids(Queue(Run(capacity, events).queues, thread)))
    ensures id in Run(capacity, events).held <==> id < Run(capacity, events).next && Run(capacity, events).places[id].Taken?
  {
    RunInv(capacity, events);
    var w := Run(capacity, events);
    forall thread: ThreadId
      ensures QueueInv(Queue(w.queues, thread), w.places, thread)
    {
      assert ThreadInv(w, capacity, thread);
    }
  }

  /** The bound: queued plus in hand never exceeds the capacity plus the most ever in hand at once. */
  lemma QueueBounded(capacity: nat, events: seq<Event>, thread: ThreadId)
    ensures var w := Run(capacity, events);
            |Queue(w.queues, thread)| + |InHand(w.places, thread)| <= capacity + Most(w.most, thread)
  {
    RunInv(capacity, events);
    assert ThreadInv(Run(capacity, events), capacity, thread);
  }

  // A take of this very submission: by name, or unnamed while it is the head.
  predicate TakeNames(w: World, thread: ThreadId, event: Event, id: Id) {
    || event == TakeAsked(thread, Some(id))
    || (event == TakeAsked(thread, None) && Queue(w.queues, thread) != [] && Queue(w.queues, thread)[0].id == id)
  }

  /** A place is left only by the operation that names it, and started, deleted and cleared are final. */
  lemma PlacesChangeOnlyAsAsked(capacity: nat, events: seq<Event>, event: Event, id: Id)
    requires id < Run(capacity, events).next
    ensures id in Run(capacity, events).places && id in Step(Run(capacity, events), capacity, event).places
    ensures var before := Run(capacity, events).places[id];
            var after := Step(Run(capacity, events), capacity, event).places[id];
            || after == before
            || (before.Queued? && after == Taken(before.thread) && TakeNames(Run(capacity, events), before.thread, event, id))
            || (before.Queued? && after == Deleted && event == DeleteAsked(before.thread, Some(id)))
            || (before.Queued? && after == Cleared && event == ThreadCleared(before.thread))
            || (before.Taken? && after == Queued(before.thread) && event == StartFailed(id))
            || (before.Taken? && after == Started && event == StartSucceeded(id))
  {
    RunInv(capacity, events);
    var w := Run(capacity, events);
    PlacesKept(w, capacity, event);
    match event
    case DeleteAsked(thread, at) =>
      RemovedWasQueued(w, capacity, thread, at);
      if at.Some? { FindIdExact(Queue(w.queues, thread), at.value); }
    case TakeAsked(thread, named) =>
      RemovedWasQueued(w, capacity, thread, named);
      if named.Some? { FindIdExact(Queue(w.queues, thread), named.value); }
    case _ =>
  }

  // ---- the object -------------------------------------------------------------------------------------------

  class ExternalThreadQueue {
    var queues: Queues
    const capacity: nat

    constructor (capacity: nat := QUEUE_CAPACITY)
      ensures queues == map[] && this.capacity == capacity
    {
      queues := map[];
      this.capacity := capacity;
    }

    method AddSubmission(thread: ThreadId, id: Id, message: Option<MessageId>, content: Option<Content>)
      returns (answer: Result<Submission, Error>)
      modifies this
      ensures (queues, answer) == Add(old(queues), capacity, thread, id, message, content)
    {
      if message.None? {
        return Err(NoMessageId);
      }
      if content.None? {
        return Err(NoText);
      }
      if thread !in queues {
        queues := queues[thread := []];
      }
      if |queues[thread]| >= capacity {
        assert queues == old(queues)[thread := Queue(old(queues), thread)];
        return Err(Full);
      }
      var submission := Submission(id, content.value, message.value);
      queues := queues[thread := queues[thread] + [submission]];
      assert queues == old(queues)[thread := Queue(old(queues), thread) + [submission]];
      return Ok(submission);
    }

    method UpdateSubmission(thread: ThreadId, id: Option<Id>, content: Option<Content>) returns (answer: Result<Submission, Error>)
      modifies this
      ensures (queues, answer) == Update(old(queues), thread, id, content)
    {
      if id.None? {
        return Err(BadId);
      }
      var queue := if thread in queues then queues[thread] else [];
      var index := FindId(queue, id.value);
      if index.None? {
        return Err(NotFound);
      }
      if content.None? {
        return Err(NoText);
      }
      FindIdExact(queue, id.value);
      var submission := queue[index.value].(content := content.value);
      queues := queues[thread := queue[index.value := submission]];
      return Ok(submission);
    }

    method Splice(thread: ThreadId, index: nat) returns (submission: Submission)
      requires thread in queues && index < |queues[thread]|
      modifies this
      ensures queues == Without(old(queues), thread, index) && submission == old(queues)[thread][index]
    {
      submission := queues[thread][index];
      var rest := queues[thread][..index] + queues[thread][index + 1..];
      queues := queues[thread := rest];
      if |rest| == 0 {
        queues := queues - {thread};
      }
    }

    method DeleteSubmission(thread: ThreadId, id: Option<Id>) returns (answer: Result<bool, Error>)
      modifies this
      ensures (queues, answer) == Delete(old(queues), thread, id)
    {
      if id.None? {
        return Err(BadId);
      }
      if thread !in queues {
        return Ok(false);
      }
      var index := FindId(queues[thread], id.value);
      if index.None? {
        return Ok(false);
      }
      FindIdExact(queues[thread], id.value);
      var _ := Splice(thread, index.value);
      return Ok(true);
    }

    method ReorderSubmissions(thread: ThreadId, ids: Option<seq<Id>>) returns (answer: Result<(), Error>)
      modifies this
      ensures (queues, answer) == Reorder(old(queues), thread, ids)
    {
      var queue := if thread in queues then queues[thread] else [];
      if ids.None? || !ValidOrder(queue, ids.value) {
        return Err(BadOrder);
      }
      if |queue| == 0 {
        return Ok(());
      }
      queues := queues[thread := Reordered(queue, ids.value)];
      return Ok(());
    }

    method TakeSubmission(thread: ThreadId, named: Option<Id>) returns (answer: Result<Option<Submission>, Error>)
      modifies this
      ensures (queues, answer) == Take(old(queues), thread, named)
    {
      if thread !in queues || |queues[thread]| == 0 {
        return if named.Some? then Err(NotFound) else Ok(None);
      }
      var index := 0;
      if named.Some? {
        var found := FindId(queues[thread], named.value);
        if found.None? {
          return Err(NotFound);
        }
        FindIdExact(queues[thread], named.value);
        index := found.value;
      }
      var submission := Splice(thread, index);
      return Ok(Some(submission));
    }

    method RestoreSubmission(thread: ThreadId, submission: Submission)
      modifies this
      ensures queues == Restore(old(queues), thread, submission)
    {
      if thread !in queues {
        queues := queues[thread := []];
      }
      queues := queues[thread := [submission] + queues[thread]];
    }

    method ClearThread(thread: ThreadId)
      modifies this
      ensures queues == Clear(old(queues), thread)
    {
      queues := queues - {thread};
    }
  }
}
