/**
 * Idle release and the request queue put together, as `check` in
 * packages/host-runtime/src/external-thread-idle-release.ts does: a release is a task of its
 * thread's queue, so the queue's order decides what may run while the thread closes.
 */
module QueuedRelease {
  import opened Prelude
  import R = IdleRelease
  import Q = RequestQueue

  // `tasks` names the queue task each release attempt was given.
  datatype Joint = Joint(world: R.World, queue: Q.Queue, tasks: seq<Q.TaskId>)

  // `ReleaseEvent` is anything else that can happen to the release or its environment.
  datatype Event =
    | Requested(thread: Option<Q.ThreadId>)
    | Checked(threads: seq<R.Instance>)
    | TaskStarts(task: Q.TaskId)
    | TaskSettles(task: Q.TaskId, ok: bool)
    | TaskCleansUp(task: Q.TaskId)
    | ReleaseEvent(event: R.Event)

  function AttemptOf(tasks: seq<Q.TaskId>, task: Q.TaskId): (a: Option<nat>)
    ensures a.Some? ==> a.value < |tasks| && tasks[a.value] == task
    ensures a.None? ==> task !in tasks
  {
    if tasks == [] then None
    else if Last(tasks) == task then Some(|tasks| - 1)
    else AttemptOf(Front(tasks), task)
  }

  /** One thread of a check: the release it may get is queued behind the thread's requests. */
  function CheckOne(j: Joint, instance: R.Instance): Joint {
    var own := R.Schedule(j.world.own, j.world.env, instance);
    if |own.attempts| == |j.world.own.attempts| then j
    else Joint(R.World(own, j.world.env), Q.Enqueue(j.queue, Some(instance.id)), j.tasks + [|j.queue.tasks|])
  }

  function CheckAll(j: Joint, threads: seq<R.Instance>): Joint {
    if threads == [] then j else CheckOne(CheckAll(j, Front(threads)), Last(threads))
  }

  /** The queue gives a task its turn; a release decides there whether to close. */
  function StartTask(j: Joint, task: Q.TaskId): Joint {
    if !Q.Startable(j.queue, task) then j
    else
      var a := AttemptOf(j.tasks, task);
      Joint(if a.Some? then R.World(R.Begin(j.world.own, j.world.env, a.value), j.world.env) else j.world,
            Q.Start(j.queue, task), j.tasks)
  }

  // A release's task settles when its close has returned, or when there was nothing to close.
  predicate MaySettle(j: Joint, task: Q.TaskId) {
    var a := AttemptOf(j.tasks, task);
    a.None? || R.InPhase(j.world.own, a.value, R.Leaving)
  }

  function Step(j: Joint, event: Event): Joint {
    match event
    case Requested(thread) => j.(queue := Q.Enqueue(j.queue, thread))
    case Checked(threads) => CheckAll(j, threads)
    case TaskStarts(task) => StartTask(j, task)
    case TaskSettles(task, ok) => if MaySettle(j, task) then j.(queue := Q.Settle(j.queue, task, ok)) else j
    case TaskCleansUp(task) => j.(queue := Q.CleanUp(j.queue, task))
    case ReleaseEvent(e) =>
      // Checks and starts happen through the queue, and a release leaves once its task has settled.
      if e.Checked? || e.ReleaseStarted? then j
      else if e.ReleaseLeft? && !(e.attempt < |j.tasks| && j.tasks[e.attempt] < |j.queue.tasks| && j.queue.tasks[j.tasks[e.attempt]].status.Settled?)
      then j
      else j.(world := R.Step(j.world, e))
  }

  function After(settings: R.Settings, env: R.Env, events: seq<Event>): Joint {
    if events == [] then Joint(R.World(R.Initial(settings), env), Q.Empty(), [])
    else Step(After(settings, env, Front(events)), Last(events))
  }

  // ---- the invariant -----------------------------------------------------------------------

  // A release is queued exactly while its task is, and closes only while its task runs.
  predicate Paired(attempt: R.Attempt, task: Q.Task) {
    && task.thread == Some(attempt.instance.id)
    && (attempt.phase.Queued? <==> task.status.Queued?)
    && (R.Listed(attempt) ==> task.status.Running?)
  }

  ghost predicate PairsInv(attempts: seq<R.Attempt>, tasks: seq<Q.TaskId>, queued: seq<Q.Task>) {
    && |tasks| == |attempts| && Distinct(tasks)
    && forall a :: 0 <= a < |tasks| ==> tasks[a] < |queued| && Paired(attempts[a], queued[tasks[a]])
  }

  ghost predicate Inv(j: Joint) {
    R.Inv(j.world.own) && Q.Inv(j.queue) && PairsInv(j.world.own.attempts, j.tasks, j.queue.tasks)
  }

  // Tasks that move without changing thread, and not those of a release, keep every pair.
  lemma PairsKept(attempts: seq<R.Attempt>, tasks: seq<Q.TaskId>, queued: seq<Q.Task>, queued': seq<Q.Task>)
    requires PairsInv(attempts, tasks, queued) && |queued| <= |queued'|
    requires forall k: Q.TaskId :: k in tasks && k < |queued| ==> queued'[k] == queued[k]
    ensures PairsInv(attempts, tasks, queued')
  {
    forall a | 0 <= a < |tasks| ensures tasks[a] < |queued'| && Paired(attempts[a], queued'[tasks[a]]) {
      assert tasks[a] in tasks;
    }
  }

  // One attempt and its task move together.
  lemma PairMoves(attempts: seq<R.Attempt>, tasks: seq<Q.TaskId>, queued: seq<Q.Task>, a: nat, phase: R.Phase, status: Q.Status)
    requires PairsInv(attempts, tasks, queued) && a < |attempts|
    requires Paired(attempts[a].(phase := phase), queued[tasks[a]].(status := status))
    ensures PairsInv(attempts[a := attempts[a].(phase := phase)], tasks, queued[tasks[a] := queued[tasks[a]].(status := status)])
  {
  }

  lemma CheckOneInv(j: Joint, instance: R.Instance)
    requires Inv(j)
    ensures Inv(CheckOne(j, instance))
  {
    hide R.Eligible;
    R.ScheduleInv(j.world.own, j.world.env, instance);
    var j' := CheckOne(j, instance);
    if j' != j {
      Q.StepInv(j.queue, Q.RunCalled(Some(instance.id)));
      NewTaskUnknown(j);
      PairsKept(j.world.own.attempts, j.tasks, j.queue.tasks, j'.queue.tasks);
    }
  }

  lemma NewTaskUnknown(j: Joint)
    requires Inv(j)
    ensures |j.queue.tasks| !in j.tasks
  {
  }

  lemma {:induction false} CheckAllInv(j: Joint, threads: seq<R.Instance>)
    requires Inv(j)
    ensures Inv(CheckAll(j, threads))
  {
    if threads != [] {
      CheckAllInv(j, Front(threads));
      hide Inv;
      CheckOneInv(CheckAll(j, Front(threads)), Last(threads));
    }
  }

  lemma StartTaskInv(j: Joint, task: Q.TaskId)
    requires Inv(j)
    ensures Inv(StartTask(j, task))
  {
    if Q.Startable(j.queue, task) {
      hide R.Inv;
      hide Q.Inv;
      hide R.Eligible;
      Q.StepInv(j.queue, Q.Starts(task));
      var a := AttemptOf(j.tasks, task);
      if a.Some? {
        var instance := j.world.own.attempts[a.value].instance;
        R.BeginInv(j.world.own, j.world.env, a.value);
        var phase := if R.Eligible(j.world.own, j.world.env, instance) then R.Closing else R.Leaving;
        PairMoves(j.world.own.attempts, j.tasks, j.queue.tasks, a.value, phase, Q.Running);
      } else {
        PairsKept(j.world.own.attempts, j.tasks, j.queue.tasks, Q.Start(j.queue, task).tasks);
      }
    }
  }

  lemma SettleInv(j: Joint, task: Q.TaskId, ok: bool)
    requires Inv(j) && MaySettle(j, task)
    ensures Inv(j.(queue := Q.Settle(j.queue, task, ok)))
  {
    hide R.Inv;
    hide Q.Inv;
    Q.StepInv(j.queue, Q.Settles(task, ok));
    var a := AttemptOf(j.tasks, task);
    if task < |j.queue.tasks| && j.queue.tasks[task].status.Running? {
      if a.Some? {
        PairMoves(j.world.own.attempts, j.tasks, j.queue.tasks, a.value, R.Leaving, Q.Settled(ok));
        assert j.world.own.attempts[a.value].(phase := R.Leaving) == j.world.own.attempts[a.value];
      } else {
        PairsKept(j.world.own.attempts, j.tasks, j.queue.tasks, Q.Settle(j.queue, task, ok).tasks);
      }
    }
  }

  // Apart from starting, an attempt only moves on from closing to returning to leaving to over.
  predicate MovesOn(before: R.Attempt, after: R.Attempt) {
    && after.instance == before.instance
    && (after.phase == before.phase || (R.Listed(before) && !after.phase.Queued? && !after.phase.Closing?) || (before.phase.Leaving? && after.phase.Over?))
  }

  lemma CloseMovesOn(s: R.Release, env: R.Env, attempt: R.AttemptId, a: nat)
    requires a < |s.attempts|
    ensures |R.Confirm(s, env, attempt).0.attempts| == |R.Fail(s, attempt).attempts| == |s.attempts|
    ensures MovesOn(s.attempts[a], R.Confirm(s, env, attempt).0.attempts[a])
    ensures MovesOn(s.attempts[a], R.Fail(s, attempt).attempts[a])
  {
    hide R.Confirmed;
    if R.InPhase(s, attempt, R.Closing) {
      assert R.MarkCloseFailed(s, s.attempts[attempt].instance).attempts == s.attempts;
    }
  }

  lemma LeaveMovesOn(s: R.Release, attempt: R.AttemptId, a: nat)
    requires a < |s.attempts|
    ensures |R.Return(s, attempt).attempts| == |R.Unschedule(s, attempt).attempts| == |s.attempts|
    ensures MovesOn(s.attempts[a], R.Return(s, attempt).attempts[a])
    ensures MovesOn(s.attempts[a], R.Unschedule(s, attempt).attempts[a])
  {
  }

  lemma ReleaseMovesOn(s: R.Release, env: R.Env, e: R.Event, a: nat)
    requires !e.Checked? && !e.ReleaseStarted? && a < |s.attempts|
    ensures |R.OwnStep(s, env, e).attempts| == |s.attempts|
    ensures MovesOn(s.attempts[a], R.OwnStep(s, env, e).attempts[a])
  {
    match e
    case CloseConfirmed(attempt) => CloseMovesOn(s, env, attempt, a);
    case CloseFailed(attempt) => CloseMovesOn(s, env, attempt, a);
    case CloseReturned(attempt) => LeaveMovesOn(s, attempt, a);
    case ReleaseLeft(attempt) => LeaveMovesOn(s, attempt, a);
    case TaskEnded(task) => R.FinishKeepsAttempts(s, env, task);
    case _ =>
  }

  lemma ReleaseEventInv(j: Joint, e: R.Event)
    requires Inv(j) && !e.Checked? && !e.ReleaseStarted?
    ensures Inv(j.(world := R.Step(j.world, e)))
  {
    hide R.Inv;
    hide Q.Inv;
    hide R.OwnStep;
    R.StepInv(j.world.own, j.world.env, e);
    var attempts, attempts' := j.world.own.attempts, R.OwnStep(j.world.own, j.world.env, e).attempts;
    R.OnlyChecksAttempt(j.world.own, j.world.env, e);
    assert |attempts'| == |attempts|;
    forall a | 0 <= a < |j.tasks| ensures Paired(attempts'[a], j.queue.tasks[j.tasks[a]]) {
      ReleaseMovesOn(j.world.own, j.world.env, e, a);
    }
  }

  lemma StepInv(j: Joint, event: Event)
    requires Inv(j)
    ensures Inv(Step(j, event))
  {
    match event
    case Requested(thread) =>
      Q.StepInv(j.queue, Q.RunCalled(thread));
      PairsKept(j.world.own.attempts, j.tasks, j.queue.tasks, Q.Enqueue(j.queue, thread).tasks);
    case Checked(threads) => CheckAllInv(j, threads);
    case TaskStarts(task) => StartTaskInv(j, task);
    case TaskSettles(task, ok) => if MaySettle(j, task) { SettleInv(j, task, ok); }
    case TaskCleansUp(task) => Q.StepInv(j.queue, Q.CleansUp(task));
    case ReleaseEvent(e) => if !e.Checked? && !e.ReleaseStarted? { ReleaseEventInv(j, e); }
  }

  lemma {:induction false} AfterInv(settings: R.Settings, env: R.Env, events: seq<Event>)
    ensures Inv(After(settings, env, events))
  {
    if events != [] {
      AfterInv(settings, env, Front(events));
      hide Step;
      hide Inv;
      StepInv(After(settings, env, Front(events)), Last(events));
    }
  }

  // ---- what the two guarantee together ------------------------------------------------------------

  // The thread's queue is held by one task: all before it are over, all after it wait.
  ghost predicate HeldBy(q: Q.Queue, thread: Q.ThreadId, task: Q.TaskId) {
    && task < |q.tasks| && q.tasks[task].thread == Some(thread) && q.tasks[task].status.Running?
    && (forall k: Q.TaskId :: k < task && q.tasks[k].thread == Some(thread) ==> q.tasks[k].status.Settled?)
    && (forall k: Q.TaskId :: task < k < |q.tasks| && q.tasks[k].thread == Some(thread) ==> q.tasks[k].status.Queued?)
  }

  lemma RunningHolds(q: Q.Queue, thread: Q.ThreadId, task: Q.TaskId)
    requires Q.Inv(q) && task < |q.tasks| && q.tasks[task].thread == Some(thread) && q.tasks[task].status.Running?
    ensures HeldBy(q, thread, task)
  {
    assert Q.InOrder(q.tasks, task);
    forall k: Q.TaskId | k < task && q.tasks[k].thread == Some(thread) ensures q.tasks[k].status.Settled? {
      assert Q.SameThread(q.tasks, k, task);
    }
    forall k: Q.TaskId | task < k < |q.tasks| && q.tasks[k].thread == Some(thread) ensures q.tasks[k].status.Queued? {
      assert Q.InOrder(q.tasks, k) && Q.SameThread(q.tasks, task, k);
    }
  }

  /**
   * While a thread closes, its release holds the thread's queue: every request queued before
   * it is over, every request queued after it waits, and none runs.
   */
  lemma ClosingHoldsTheQueue(settings: R.Settings, env: R.Env, events: seq<Event>, id: R.ThreadId)
    requires id in After(settings, env, events).world.own.closing
    ensures After(settings, env, events).world.own.closing[id] < |After(settings, env, events).tasks|
    ensures HeldBy(After(settings, env, events).queue, id,
                   After(settings, env, events).tasks[After(settings, env, events).world.own.closing[id]])
  {
    AfterInv(settings, env, events);
    hide After;
    var j := After(settings, env, events);
    var a := j.world.own.closing[id];
    assert R.Listed(j.world.own.attempts[a]) && Paired(j.world.own.attempts[a], j.queue.tasks[j.tasks[a]]);
    RunningHolds(j.queue, id, j.tasks[a]);
  }

  ghost predicate OnlyItsReleaseRuns(j: Joint, id: R.ThreadId) {
    forall k: Q.TaskId :: k < |j.queue.tasks| && j.queue.tasks[k].thread == Some(id) && j.queue.tasks[k].status.Running? ==> k in j.tasks
  }

  /** And no operation admitted past the queue is under way either. */
  lemma ClosingExcludesEverything(settings: R.Settings, env: R.Env, events: seq<Event>, id: R.ThreadId)
    requires id in After(settings, env, events).world.own.closing
    ensures forall task :: task in After(settings, env, events).world.own.tasks ==> !(task.id == Some(id) && task.drain && !task.done)
    ensures OnlyItsReleaseRuns(After(settings, env, events), id)
  {
    ClosingHoldsTheQueue(settings, env, events, id);
    AfterInv(settings, env, events);
    hide After;
    NoOperation(After(settings, env, events).world.own, id);
  }

  lemma NoOperation(own: R.Release, id: R.ThreadId)
    requires R.Inv(own) && id in own.closing
    ensures forall task :: task in own.tasks ==> !(task.id == Some(id) && task.drain && !task.done)
  {
    assert forall task :: task in own.tasks && task.drain ==> !R.Unfinished(task, id);
  }
}
