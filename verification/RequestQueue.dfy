/**
 * packages/host-runtime/src/desktop-request-queue.ts: requests of one thread run one after
 * the other, requests of different threads do not wait for each other. A task is a promise
 * chain; what happens to it between two suspensions is one step here.
 */
module RequestQueue {
  import opened Prelude

  type ThreadId = nat
  type TaskId = nat

  datatype Status = Queued | Running | Settled(ok: bool)

  // `previous` is the entry whose settlement this one was chained to.
  datatype Task = Task(thread: Option<ThreadId>, previous: Option<TaskId>, status: Status)

  // `threads` holds the newest task of each thread; `pending` every task not yet cleaned up.
  datatype Queue = Queue(tasks: seq<Task>, threads: map<ThreadId, TaskId>, pending: set<TaskId>)

  datatype Event =
    | RunCalled(thread: Option<ThreadId>)
    | Starts(task: TaskId)
    | Settles(task: TaskId, ok: bool)
    | CleansUp(task: TaskId)

  function Empty(): Queue {
    Queue([], map[], {})
  }

  function Enqueue(q: Queue, thread: Option<ThreadId>): Queue {
    var id := |q.tasks|;
    var previous := if thread.Some? && thread.value in q.threads then Some(q.threads[thread.value]) else None;
    Queue(q.tasks + [Task(thread, previous, Queued)],
          if thread.Some? then q.threads[thread.value := id] else q.threads,
          q.pending + {id})
  }

  /** The chained `then` fires: the request is waiting and what it waits for has settled, however it ended. */
  predicate Startable(q: Queue, id: TaskId) {
    && id < |q.tasks|
    && q.tasks[id].status.Queued?
    && match q.tasks[id].previous
       case None => true
       case Some(previous) => previous < |q.tasks| && q.tasks[previous].status.Settled?
  }

  function Start(q: Queue, id: TaskId): Queue {
    if Startable(q, id) then q.(tasks := q.tasks[id := q.tasks[id].(status := Running)]) else q
  }

  function Settle(q: Queue, id: TaskId, ok: bool): Queue {
    if id < |q.tasks| && q.tasks[id].status.Running? then q.(tasks := q.tasks[id := q.tasks[id].(status := Settled(ok))]) else q
  }

  function CleanUp(q: Queue, id: TaskId): Queue {
    if id >= |q.tasks| || !q.tasks[id].status.Settled? || id !in q.pending then q
    else
      var thread := q.tasks[id].thread;
      Queue(q.tasks,
            if thread.Some? && thread.value in q.threads && q.threads[thread.value] == id then q.threads - {thread.value} else q.threads,
            q.pending - {id})
  }

  function Step(q: Queue, event: Event): Queue {
    match event
    case RunCalled(thread) => Enqueue(q, thread)
    case Starts(id) => Start(q, id)
    case Settles(id, ok) => Settle(q, id, ok)
    case CleansUp(id) => CleanUp(q, id)
  }

  function RunFrom(q: Queue, events: seq<Event>): Queue {
    if events == [] then q else Step(RunFrom(q, Front(events)), Last(events))
  }

  // ---- the invariant ------------------------------------------------------------------------

  predicate SameThread(tasks: seq<Task>, i: TaskId, j: TaskId)
    requires i < |tasks| && j < |tasks|
  {
    tasks[i].thread.Some? && tasks[i].thread == tasks[j].thread
  }

  // Every earlier task of the same thread has settled.
  predicate HasTurn(tasks: seq<Task>, id: TaskId)
    requires id < |tasks|
  {
    forall k: TaskId :: k < id && SameThread(tasks, k, id) ==> tasks[k].status.Settled?
  }

  // A task is chained to the nearest earlier task of its thread, unless all those have settled.
  predicate Chained(tasks: seq<Task>, id: TaskId)
    requires id < |tasks|
  {
    match tasks[id].previous
    case None => HasTurn(tasks, id)
    case Some(previous) =>
      && previous < id && SameThread(tasks, previous, id)
      && forall k: TaskId :: previous < k < id ==> !SameThread(tasks, k, id)
  }

  predicate InOrder(tasks: seq<Task>, id: TaskId)
    requires id < |tasks|
  {
    Chained(tasks, id) && (!tasks[id].status.Queued? ==> HasTurn(tasks, id))
  }

  ghost predicate TasksInv(tasks: seq<Task>) {
    forall id: TaskId :: id < |tasks| ==> InOrder(tasks, id)
  }

  // The entry of a thread is its newest task; without one, nothing of the thread is unsettled.
  ghost predicate ThreadsInv(tasks: seq<Task>, threads: map<ThreadId, TaskId>, pending: set<TaskId>) {
    && (forall t :: t in threads ==>
          && threads[t] in pending && threads[t] < |tasks| && tasks[threads[t]].thread == Some(t)
          && forall k: TaskId :: threads[t] < k < |tasks| ==> tasks[k].thread != Some(t))
    && (forall k: TaskId :: k < |tasks| && tasks[k].thread.Some? && tasks[k].thread.value !in threads ==> tasks[k].status.Settled?)
    && (forall k: TaskId :: k < |tasks| && !tasks[k].status.Settled? ==> k in pending)
    && (forall k :: k in pending ==> k < |tasks|)
  }

  ghost predicate Inv(q: Queue) {
    TasksInv(q.tasks) && ThreadsInv(q.tasks, q.threads, q.pending)
  }

  // If what a request is chained to has settled, so has everything before that.
  lemma TurnOfStarted(tasks: seq<Task>, id: TaskId)
    requires TasksInv(tasks) && id < |tasks| && tasks[id].previous.Some?
    requires tasks[id].previous.value < |tasks| && tasks[tasks[id].previous.value].status.Settled?
    ensures HasTurn(tasks, id)
  {
    var previous := tasks[id].previous.value;
    assert InOrder(tasks, id) && InOrder(tasks, previous);
    forall k: TaskId | k < id && SameThread(tasks, k, id) ensures tasks[k].status.Settled? {
      if k < previous { assert SameThread(tasks, k, previous); }
    }
  }

  // What a task waits for depends on the tasks up to it, and on no more than whether those settled.
  lemma OrderKept(tasks: seq<Task>, tasks': seq<Task>, id: TaskId)
    requires id < |tasks| <= |tasks'| && Chained(tasks, id)
    requires forall k: TaskId :: k <= id ==> tasks'[k].thread == tasks[k].thread && tasks'[k].previous == tasks[k].previous
    requires forall k: TaskId :: k < id && tasks[k].status.Settled? ==> tasks'[k].status.Settled?
    ensures Chained(tasks', id) && (HasTurn(tasks, id) ==> HasTurn(tasks', id))
  {
    assert forall k: TaskId :: k <= id ==> SameThread(tasks', k, id) == SameThread(tasks, k, id);
  }

  lemma EnqueueInv(q: Queue, thread: Option<ThreadId>)
    requires Inv(q)
    ensures TasksInv(Enqueue(q, thread).tasks)
  {
    var tasks' := Enqueue(q, thread).tasks;
    forall id: TaskId | id < |tasks'| ensures InOrder(tasks', id) {
      if id < |q.tasks| {
        assert InOrder(q.tasks, id);
        OrderKept(q.tasks, tasks', id);
      }
    }
  }

  lemma EnqueueThreadsInv(q: Queue, thread: Option<ThreadId>)
    requires ThreadsInv(q.tasks, q.threads, q.pending)
    ensures ThreadsInv(Enqueue(q, thread).tasks, Enqueue(q, thread).threads, Enqueue(q, thread).pending)
  {
    var q' := Enqueue(q, thread);
    assert forall k: TaskId :: k < |q.tasks| ==> q'.tasks[k] == q.tasks[k];
    assert q'.tasks[|q.tasks|].thread == thread;
    hide Enqueue;
  }

  // Moving one request forward keeps the order, if it has its turn.
  lemma AdvanceInv(tasks: seq<Task>, id: TaskId, status: Status)
    requires TasksInv(tasks) && id < |tasks| && HasTurn(tasks, id)
    requires !status.Queued? && (tasks[id].status.Settled? ==> status.Settled?)
    ensures TasksInv(tasks[id := tasks[id].(status := status)])
  {
    var tasks' := tasks[id := tasks[id].(status := status)];
    forall i: TaskId | i < |tasks'| ensures InOrder(tasks', i) {
      assert InOrder(tasks, i);
      OrderKept(tasks, tasks', i);
    }
  }

  lemma CleanUpInv(q: Queue, id: TaskId)
    requires Inv(q)
    ensures Inv(CleanUp(q, id))
  {
    var q' := CleanUp(q, id);
    if q' != q {
      assert InOrder(q.tasks, id);
      forall k: TaskId | k < |q.tasks| && q.tasks[k].thread.Some? && q.tasks[k].thread.value !in q'.threads
        ensures q.tasks[k].status.Settled?
      {
        if k < id && q.tasks[k].thread.value in q.threads { assert SameThread(q.tasks, k, id); }
      }
    }
  }

  lemma StepInv(q: Queue, event: Event)
    requires Inv(q)
    ensures Inv(Step(q, event))
  {
    match event
    case RunCalled(thread) => EnqueueInv(q, thread); EnqueueThreadsInv(q, thread);
    case Starts(id) =>
      if Startable(q, id) {
        assert InOrder(q.tasks, id);
        if q.tasks[id].previous.Some? { TurnOfStarted(q.tasks, id); }
        AdvanceInv(q.tasks, id, Running);
      }
    case Settles(id, ok) =>
      if id < |q.tasks| && q.tasks[id].status.Running? {
        assert InOrder(q.tasks, id);
        AdvanceInv(q.tasks, id, Settled(ok));
      }
    case CleansUp(id) => CleanUpInv(q, id);
  }

  lemma {:induction false} RunInv(events: seq<Event>)
    ensures Inv(RunFrom(Empty(), events))
  {
    if events != [] {
      RunInv(Front(events));
      StepInv(RunFrom(Empty(), Front(events)), Last(events));
    }
  }

  // ---- what it guarantees ---------------------------------------------------------------------

  /**
   * Exact admission: in every reachable state a waiting task may start if and only if every
   * earlier task of its thread has settled. Nothing else delays it: not another thread, not
   * the failure of an earlier request. Requests without a thread never wait.
   */
  lemma StartsExactlyInTurn(events: seq<Event>, id: TaskId)
    requires id < |RunFrom(Empty(), events).tasks| && RunFrom(Empty(), events).tasks[id].status.Queued?
    ensures Startable(RunFrom(Empty(), events), id) <==> HasTurn(RunFrom(Empty(), events).tasks, id)
  {
    RunInv(events);
    var q := RunFrom(Empty(), events);
    assert InOrder(q.tasks, id);
    if Startable(q, id) && q.tasks[id].previous.Some? { TurnOfStarted(q.tasks, id); }
    if HasTurn(q.tasks, id) && q.tasks[id].previous.Some? { assert SameThread(q.tasks, q.tasks[id].previous.value, id); }
  }

  /** Order over whole runs: a task of a thread has started only if all its earlier ones are over. */
  lemma OneAtATimeInOrder(events: seq<Event>, i: TaskId, j: TaskId)
    requires i < j < |RunFrom(Empty(), events).tasks| && SameThread(RunFrom(Empty(), events).tasks, i, j)
    ensures !RunFrom(Empty(), events).tasks[j].status.Queued? ==> RunFrom(Empty(), events).tasks[i].status.Settled?
  {
    RunInv(events);
    var q := RunFrom(Empty(), events);
    assert InOrder(q.tasks, j);
  }

  /** No thread entry outlives its tasks: once nothing is pending the map is empty and all have settled. */
  lemma NothingPendingNothingKept(events: seq<Event>)
    requires RunFrom(Empty(), events).pending == {}
    ensures RunFrom(Empty(), events).threads == map[]
    ensures forall task :: task in RunFrom(Empty(), events).tasks ==> task.status.Settled?
  {
    RunInv(events);
    var q := RunFrom(Empty(), events);
    assert forall t :: t in q.threads ==> q.threads[t] in q.pending;
  }

  lemma {:induction false} SettledStays(q: Queue, events: seq<Event>)
    ensures |q.tasks| <= |RunFrom(q, events).tasks|
    ensures forall k: TaskId :: k < |q.tasks| && q.tasks[k].status.Settled? ==> RunFrom(q, events).tasks[k] == q.tasks[k]
    ensures (forall e :: e in events ==> !e.RunCalled?) ==> |RunFrom(q, events).tasks| == |q.tasks|
  {
    if events != [] {
      assert forall e :: e in Front(events) ==> e in events;
      SettledStays(q, Front(events));
    }
  }

  /** `drain`: once everything pending when it was called has settled, with no admission since, nothing is left. */
  lemma DrainCoversEverything(before: seq<Event>, during: seq<Event>)
    requires forall e :: e in during ==> !e.RunCalled?
    requires forall id :: id in RunFrom(Empty(), before).pending ==>
               id < |RunFrom(RunFrom(Empty(), before), during).tasks|
               && RunFrom(RunFrom(Empty(), before), during).tasks[id].status.Settled?
    ensures forall task :: task in RunFrom(RunFrom(Empty(), before), during).tasks ==> task.status.Settled?
  {
    RunInv(before);
    var q := RunFrom(Empty(), before);
    SettledStays(q, during);
    forall id: TaskId | id < |q.tasks| ensures RunFrom(q, during).tasks[id].status.Settled? {
      if !q.tasks[id].status.Settled? { assert id in q.pending; }
    }
  }

  // ---- the object -------------------------------------------------------------------------------

  class DesktopRequestQueue {
    var tasks: seq<Task>
    var threads: map<ThreadId, TaskId>
    var pending: set<TaskId>

    ghost function View(): Queue
      reads this
    {
      Queue(tasks, threads, pending)
    }

    constructor ()
      ensures View() == Empty()
    {
      tasks, threads, pending := [], map[], {};
    }

    method Run(thread: Option<ThreadId>) returns (task: TaskId)
      modifies this
      ensures View() == Enqueue(old(View()), thread) && task == |old(tasks)|
    {
      var previous := None;
      if thread.Some? && thread.value in threads {
        previous := Some(threads[thread.value]);
      }
      task := |tasks|;
      tasks := tasks + [Task(thread, previous, Queued)];
      pending := pending + {task};
      if thread.Some? {
        threads := threads[thread.value := task];
      }
    }

    method OnStart(task: TaskId)
      modifies this`tasks
      ensures View() == Start(old(View()), task)
    {
      if task >= |tasks| || !tasks[task].status.Queued? {
        return;
      }
      var previous := tasks[task].previous;
      if previous.Some? && !(previous.value < |tasks| && tasks[previous.value].status.Settled?) {
        return;
      }
      tasks := tasks[task := tasks[task].(status := Running)];
    }

    method OnSettled(task: TaskId, ok: bool)
      modifies this`tasks
      ensures View() == Settle(old(View()), task, ok)
    {
      if task < |tasks| && tasks[task].status.Running? {
        tasks := tasks[task := tasks[task].(status := Settled(ok))];
      }
    }

    method OnCleanUp(task: TaskId)
      modifies this`threads, this`pending
      ensures View() == CleanUp(old(View()), task)
    {
      if task >= |tasks| || !tasks[task].status.Settled? || task !in pending {
        return;
      }
      pending := pending - {task};
      var thread := tasks[task].thread;
      if thread.Some? && thread.value in threads && threads[thread.value] == task {
        threads := threads - {thread.value};
      }
    }
  }
}
