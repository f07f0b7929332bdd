/**
 * That queued requests run. RequestQueue says what may not happen before what; here is what does
 * happen at each step, and that from anywhere every request can still be run to its end.
 */
module QueueProgress {
  import opened Prelude
  import opened RequestQueue

  // Every earlier request of its thread is over. A request without a thread waits for nothing.
  ghost predicate ItsTurn(q: Queue, id: TaskId)
    requires id < |q.tasks|
  {
    forall k: TaskId :: k < id && q.tasks[k].thread.Some? && q.tasks[k].thread == q.tasks[id].thread ==> q.tasks[k].status.Settled?
  }

  // The request, and no other, comes to this status.
  ghost predicate Becomes(q: Queue, q': Queue, id: TaskId, status: Status) {
    && id < |q.tasks| && |q'.tasks| == |q.tasks| && q'.tasks[id] == Task(q.tasks[id].thread, q.tasks[id].previous, status)
    && forall k: TaskId :: k < |q.tasks| && k != id ==> q'.tasks[k] == q.tasks[k]
  }

  /**
   * Every step, exactly, in every reachable state: a call adds one waiting request of its thread;
   * a request starts when it has its turn and ends when it runs, whatever its result; and is
   * forgotten only after it ended. Nothing else happens to it.
   */
  lemma StepsExactly(events: seq<Event>, event: Event)
    ensures var q := RunFrom(Empty(), events);
            var q' := Step(q, event);
            match event
            case RunCalled(thread) =>
              && |q'.tasks| == |q.tasks| + 1 && q'.tasks[..|q.tasks|] == q.tasks
              && q'.tasks[|q.tasks|].thread == thread && q'.tasks[|q.tasks|].status == Queued
              && q'.pending == q.pending + {|q.tasks|}
            case Starts(id) =>
              && q'.pending == q.pending
              && if id < |q.tasks| && q.tasks[id].status == Queued && ItsTurn(q, id) then Becomes(q, q', id, Running) else q' == q
            case Settles(id, ok) =>
              && q'.pending == q.pending
              && if id < |q.tasks| && q.tasks[id].status == Running then Becomes(q, q', id, Settled(ok)) else q' == q
            case CleansUp(id) =>
              && q'.tasks == q.tasks
              && q'.pending == if id < |q.tasks| && q.tasks[id].status.Settled? then q.pending - {id} else q.pending
  {
    var q := RunFrom(Empty(), events);
    RunInv(events);
    if event.Starts? && event.task < |q.tasks| && q.tasks[event.task].status.Queued? {
      StartsExactlyInTurn(events, event.task);
      TurnIsTurn(q, event.task);
    }
    hide RunFrom;
    hide TasksInv;
    hide HasTurn;
    hide ItsTurn;
  }

  lemma TurnIsTurn(q: Queue, id: TaskId)
    requires id < |q.tasks|
    ensures HasTurn(q.tasks, id) <==> ItsTurn(q, id)
  {
    assert forall k: TaskId :: k < id ==> (SameThread(q.tasks, k, id) <==> q.tasks[k].thread.Some? && q.tasks[k].thread == q.tasks[id].thread);
  }

  // ---- progress ---------------------------------------------------------------------------------

  lemma After(events: seq<Event>, event: Event)
    ensures RunFrom(Empty(), events + [event]) == Step(RunFrom(Empty(), events), event)
  {
    assert Front(events + [event]) == events;
  }

  ghost predicate SettledUpTo(q: Queue, n: nat) {
    n <= |q.tasks| && forall k: TaskId :: k < n ==> q.tasks[k].status.Settled?
  }

  // The oldest request that is not over can run to its end.
  lemma NextSettles(events: seq<Event>, n: nat) returns (more: seq<Event>)
    requires n < |RunFrom(Empty(), events).tasks| && SettledUpTo(RunFrom(Empty(), events), n)
    ensures forall event :: event in more ==> !event.RunCalled?
    ensures |RunFrom(Empty(), events + more).tasks| == |RunFrom(Empty(), events).tasks|
    ensures SettledUpTo(RunFrom(Empty(), events + more), n + 1)
  {
    var q := RunFrom(Empty(), events);
    if q.tasks[n].status.Settled? {
      more := [];
      assert events + more == events;
    } else if q.tasks[n].status.Running? {
      more := [Settles(n, true)];
      After(events, Settles(n, true));
      StepsExactly(events, Settles(n, true));
    } else {
      more := [Starts(n), Settles(n, true)];
      After(events, Starts(n));
      StepsExactly(events, Starts(n));
      After(events + [Starts(n)], Settles(n, true));
      StepsExactly(events + [Starts(n)], Settles(n, true));
      assert events + more == events + [Starts(n)] + [Settles(n, true)];
    }
  }

  lemma AllSettle(events: seq<Event>, n: nat) returns (more: seq<Event>)
    requires SettledUpTo(RunFrom(Empty(), events), n)
    ensures forall event :: event in more ==> !event.RunCalled?
    ensures |RunFrom(Empty(), events + more).tasks| == |RunFrom(Empty(), events).tasks|
    ensures SettledUpTo(RunFrom(Empty(), events + more), |RunFrom(Empty(), events).tasks|)
    decreases |RunFrom(Empty(), events).tasks| - n
  {
    if n == |RunFrom(Empty(), events).tasks| {
      more := [];
      assert events + more == events;
    } else {
      var first := NextSettles(events, n);
      var rest := AllSettle(events + first, n + 1);
      more := first + rest;
      assert events + more == events + first + rest;
    }
  }

  // Once all are over, each can be forgotten.
  lemma {:induction false} AllForgotten(events: seq<Event>, left: set<TaskId>) returns (more: seq<Event>)
    requires left == RunFrom(Empty(), events).pending
    requires SettledUpTo(RunFrom(Empty(), events), |RunFrom(Empty(), events).tasks|)
    ensures forall event :: event in more ==> !event.RunCalled?
    ensures RunFrom(Empty(), events + more).tasks == RunFrom(Empty(), events).tasks
    ensures RunFrom(Empty(), events + more).pending == {}
    decreases left
  {
    if left == {} {
      more := [];
      assert events + more == events;
    } else {
      var id :| id in left;
      RunInv(events);
      After(events, CleansUp(id));
      StepsExactly(events, CleansUp(id));
      var rest := AllForgotten(events + [CleansUp(id)], left - {id});
      more := [CleansUp(id)] + rest;
      assert events + more == events + [CleansUp(id)] + rest;
    }
  }

  /**
   * From every reachable state some continuation without a new call runs every request to its end,
   * in order, and then keeps nothing: no request can be left waiting for good.
   */
  lemma EveryRequestCanRun(events: seq<Event>) returns (more: seq<Event>)
    ensures forall event :: event in more ==> !event.RunCalled?
    ensures var q, q' := RunFrom(Empty(), events), RunFrom(Empty(), events + more);
            && |q'.tasks| == |q.tasks| && (forall k: TaskId :: k < |q'.tasks| ==> q'.tasks[k].status.Settled?)
            && q'.pending == {} && q'.threads == map[]
  {
    hide Step;
    var first := AllSettle(events, 0);
    hide RunFrom;
    var rest := AllForgotten(events + first, RunFrom(Empty(), events + first).pending);
    more := first + rest;
    assert events + more == events + first + rest;
    NothingPendingNothingKept(events + more);
  }
}
