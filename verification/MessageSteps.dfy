/**
 * What each operation of MessageQueue answers and leaves behind, told from the queue it is asked
 * for: one list of submissions with distinct ids. No operation touches another thread's queue.
 */
module MessageSteps {
  import opened Prelude
  import opened MessageQueue

  ghost predicate OthersSame(queues: Queues, queues': Queues, thread: ThreadId) {
    forall other: ThreadId :: other != thread ==> Queue(queues', other) == Queue(queues, other)
  }

  // The submission with this id stands at place i.
  predicate At(queue: seq<Submission>, id: Id, i: nat) {
    i < |queue| && queue[i].id == id
  }

  predicate InQueue(queue: seq<Submission>, id: Id) {
    exists s :: s in queue && s.id == id
  }

  lemma FoundAt(queue: seq<Submission>, id: Id)
    requires Distinct(Ids(queue))
    ensures FindId(queue, id).Some? <==> InQueue(queue, id)
    ensures FindId(queue, id).Some? ==> At(queue, id, FindId(queue, id).value)
    ensures forall i: nat :: At(queue, id, i) ==> FindId(queue, id) == Some(i)
  {
    FindIdExact(queue, id);
    forall i: nat | At(queue, id, i) ensures FindId(queue, id) == Some(i) {
      assert Ids(queue)[i] == id;
      if FindId(queue, id).Some? { assert Ids(queue)[FindId(queue, id).value] == id; }
    }
    if s :| s in queue && s.id == id {
      var i :| 0 <= i < |queue| && queue[i] == s;
      assert At(queue, id, i);
    }
  }

  // What is left once the submission at a place was taken out.
  lemma LeftWithout(queues: Queues, thread: ThreadId, i: nat)
    requires thread in queues && i < |queues[thread]|
    ensures Queue(Without(queues, thread, i), thread) == queues[thread][..i] + queues[thread][i + 1..]
    ensures OthersSame(queues, Without(queues, thread, i), thread) && (thread in Without(queues, thread, i) <==> |queues[thread]| > 1)
  {
  }

  /** A submission needs a message id and text and a place in the queue, and is refused for the first it lacks; else it goes to the end. */
  lemma AddsExactly(queues: Queues, capacity: nat, thread: ThreadId, id: Id, message: Option<MessageId>, content: Option<Content>)
    ensures var (queues', answer) := Add(queues, capacity, thread, id, message, content);
            && OthersSame(queues, queues', thread)
            && (answer == Err(NoMessageId) <==> message == None)
            && (answer == Err(NoText) <==> message != None && content == None)
            && (answer == Err(Full) <==> message != None && content != None && |Queue(queues, thread)| >= capacity)
            && (answer.Err? ==> Queue(queues', thread) == Queue(queues, thread) && answer.error in {NoMessageId, NoText, Full})
            && (answer.Ok? ==> answer.value == Submission(id, content.value, message.value))
            && (answer.Ok? ==> Queue(queues', thread) == Queue(queues, thread) + [answer.value])
  {
  }

  /** An update needs an id, a queued submission and text, and is refused for the first it lacks; else it changes its content in its place. */
  lemma UpdatesExactly(queues: Queues, thread: ThreadId, id: Option<Id>, content: Option<Content>)
    requires Distinct(Ids(Queue(queues, thread)))
    ensures var (queues', answer), queue := Update(queues, thread, id, content), Queue(queues, thread);
            && OthersSame(queues, queues', thread)
            && (answer == Err(BadId) <==> id == None)
            && (answer == Err(NotFound) <==> id.Some? && !InQueue(queue, id.value))
            && (answer == Err(NoText) <==> id.Some? && InQueue(queue, id.value) && content == None)
            && (answer.Err? ==> queues' == queues && answer.error in {BadId, NotFound, NoText})
            && (forall i: nat :: answer.Ok? && At(queue, id.value, i) ==>
                  && answer.value == Submission(queue[i].id, content.value, queue[i].message)
                  && Queue(queues', thread) == queue[i := answer.value])
  {
    if id.Some? { FoundAt(Queue(queues, thread), id.value); }
  }

  /** A delete takes the named submission out, the others keep their order; the answer says whether it was there. */
  lemma DeletesExactly(queues: Queues, thread: ThreadId, id: Option<Id>)
    requires Distinct(Ids(Queue(queues, thread)))
    ensures var (queues', answer), queue := Delete(queues, thread, id), Queue(queues, thread);
            && OthersSame(queues, queues', thread)
            && (id == None ==> answer == Err(BadId) && queues' == queues)
            && (id.Some? && !InQueue(queue, id.value) ==> answer == Ok(false) && queues' == queues)
            && (forall i: nat :: id.Some? && At(queue, id.value, i) ==>
                  answer == Ok(true) && Queue(queues', thread) == queue[..i] + queue[i + 1..] && (thread in queues' <==> |queue| > 1))
  {
    var queue := Queue(queues, thread);
    if id.Some? {
      FoundAt(queue, id.value);
      if FindId(queue, id.value).Some? { LeftWithout(queues, thread, FindId(queue, id.value).value); }
    }
    hide Without;
    hide FindId;
    hide Ids;
  }

  // Every queued submission is named exactly once.
  ghost predicate NamesAll(queue: seq<Submission>, ids: seq<Id>) {
    && |ids| == |queue| && Distinct(ids) && forall id :: id in ids ==> InQueue(queue, id)
  }

  /** A reorder is accepted exactly if it names every queued submission once, and then they stand in that order. */
  lemma ReordersExactly(queues: Queues, thread: ThreadId, ids: Option<seq<Id>>)
    requires Distinct(Ids(Queue(queues, thread)))
    ensures var (queues', answer), queue := Reorder(queues, thread, ids), Queue(queues, thread);
            && OthersSame(queues, queues', thread)
            && (answer.Ok? <==> ids.Some? && NamesAll(queue, ids.value))
            && (answer.Err? ==> answer == Err(BadOrder) && queues' == queues)
            && (answer.Ok? ==> Ids(Queue(queues', thread)) == ids.value && multiset(Queue(queues', thread)) == multiset(queue))
  {
    var queue := Queue(queues, thread);
    if ids.Some? {
      forall id ensures id in Ids(queue) <==> InQueue(queue, id) {
        FoundAt(queue, id);
        FindIdExact(queue, id);
      }
      DistinctSize(ids.value);
      if ValidOrder(queue, ids.value) { ReorderPermutes(queue, ids.value); }
      if queue == [] && ids.value == [] { assert Ids(queue) == ids.value; }
    }
    hide Reordered;
  }

  /** A take gives the head, or the named submission wherever it stands; the others keep their order. */
  lemma TakesExactly(queues: Queues, thread: ThreadId, named: Option<Id>)
    requires Distinct(Ids(Queue(queues, thread)))
    ensures var (queues', answer), queue := Take(queues, thread, named), Queue(queues, thread);
            && OthersSame(queues, queues', thread)
            && (named == None && queue == [] ==> answer == Ok(None) && queues' == queues)
            && (named == None && queue != [] ==>
                  answer == Ok(Some(queue[0])) && Queue(queues', thread) == queue[1..] && (thread in queues' <==> |queue| > 1))
            && (named.Some? && !InQueue(queue, named.value) ==> answer == Err(NotFound) && queues' == queues)
            && (forall i: nat :: named.Some? && At(queue, named.value, i) ==>
                  answer == Ok(Some(queue[i])) && Queue(queues', thread) == queue[..i] + queue[i + 1..] && (thread in queues' <==> |queue| > 1))
  {
    var queue := Queue(queues, thread);
    if queue != [] { TakenFrom(queues, thread, named); }
    hide Without;
    hide FindId;
    hide Ids;
  }

  lemma TakenFrom(queues: Queues, thread: ThreadId, named: Option<Id>)
    requires Queue(queues, thread) != [] && Distinct(Ids(Queue(queues, thread)))
    ensures var (queues', answer), queue := Take(queues, thread, named), Queue(queues, thread);
            && OthersSame(queues, queues', thread)
            && (named == None ==> answer == Ok(Some(queue[0])) && Queue(queues', thread) == queue[1..] && (thread in queues' <==> |queue| > 1))
            && (named.Some? && !InQueue(queue, named.value) ==> answer == Err(NotFound) && queues' == queues)
            && (forall i: nat :: named.Some? && At(queue, named.value, i) ==>
                  answer == Ok(Some(queue[i])) && Queue(queues', thread) == queue[..i] + queue[i + 1..] && (thread in queues' <==> |queue| > 1))
  {
    var queue := Queue(queues, thread);
    if named.None? {
      LeftWithout(queues, thread, 0);
      assert queue[..0] + queue[0 + 1..] == queue[1..];
    } else {
      FoundAt(queue, named.value);
      if FindId(queue, named.value).Some? { LeftWithout(queues, thread, FindId(queue, named.value).value); }
    }
    hide Without;
    hide FindId;
    hide Ids;
  }

  /** What is put back is the head again; a cleared thread has nothing queued. */
  lemma RestoresAndClears(queues: Queues, thread: ThreadId, submission: Submission)
    ensures Queue(Restore(queues, thread, submission), thread) == [submission] + Queue(queues, thread)
    ensures OthersSame(queues, Restore(queues, thread, submission), thread)
    ensures thread !in Clear(queues, thread) && OthersSame(queues, Clear(queues, thread), thread)
  {
  }

  // ---- over runs -----------------------------------------------------------------------------------

  /** What is asked of a submission happens to it: the converse of PlacesChangeOnlyAsAsked. */
  lemma PlacesChangeAsAsked(capacity: nat, events: seq<Event>, event: Event, id: Id)
    requires id < Run(capacity, events).next
    ensures id in Run(capacity, events).places && id in Step(Run(capacity, events), capacity, event).places
    ensures var before := Run(capacity, events).places[id];
            var after := Step(Run(capacity, events), capacity, event).places[id];
            && (before.Queued? && TakeNames(Run(capacity, events), before.thread, event, id) ==> after == Taken(before.thread))
            && (before.Queued? && event == DeleteAsked(before.thread, Some(id)) ==> after == Deleted)
            && (before.Queued? && event == ThreadCleared(before.thread) ==> after == Cleared)
            && (before.Taken? && event == StartFailed(id) ==> after == Queued(before.thread))
            && (before.Taken? && event == StartSucceeded(id) ==> after == Started)
  {
    RunInv(capacity, events);
    PlacesChangeOnlyAsAsked(capacity, events, event, id);
    var w := Run(capacity, events);
    hide Run;
    var before := w.places[id];
    if before.Queued? {
      var queue := Queue(w.queues, before.thread);
      assert ThreadInv(w, capacity, before.thread);
      FoundAt(queue, id);
      assert id in Ids(queue);
      FindIdExact(queue, id);
    }
    hide BoundInv;
    hide InHand;
  }

  /** A submission that is accepted waits in its thread's queue from then on; one that is not adds nothing. */
  lemma AddedOrNot(capacity: nat, events: seq<Event>, thread: ThreadId, message: Option<MessageId>, content: Option<Content>)
    ensures var w := Run(capacity, events);
            var w' := Step(w, capacity, AddAsked(thread, message, content));
            if message.Some? && content.Some? && |Queue(w.queues, thread)| < capacity
            then w'.next == w.next + 1 && w.next in w'.places && w'.places[w.next] == Queued(thread) && OthersSame(w.queues, w'.queues, thread)
            else w'.next == w.next && w'.places == w.places && forall other: ThreadId :: Queue(w'.queues, other) == Queue(w.queues, other)
  {
    hide Run;
  }
}
