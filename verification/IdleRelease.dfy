/**
 * packages/host-runtime/src/external-thread-idle-release.ts: closing the session of a thread
 * that has been idle long enough, without closing it under an operation. Operations, output
 * tasks and release attempts are promises; each function below is what happens between two
 * suspensions. The registry of threads, their state and the clock belong to the environment,
 * which may change them between any two steps.
 */
module IdleRelease {
  import opened Prelude

  type ThreadId = nat
  type TaskId = nat
  type AttemptId = nat

  // One loaded session of a thread; a thread loaded again is another instance.
  datatype Instance = Instance(id: ThreadId, serial: nat)

  datatype Facts = Facts(
    running: bool, activeTurn: bool, persistenceError: bool, subagent: bool, ready: bool, identified: bool, background: bool)

  datatype Env = Env(registry: map<ThreadId, Instance>, facts: Instance -> Facts, now: nat)

  datatype Activity = Activity(lastActivity: nat, outputFailed: bool, closeFailed: bool)

  datatype Settings = Settings(enabled: bool, timeout: nat)

  // `drain` marks a task of runOperation; an output task is consumed even while closing.
  datatype Task = Task(id: Option<ThreadId>, drain: bool, done: bool)

  // Queued behind the thread's requests; closing; closed but still listed as closing; left; over.
  datatype Phase = Queued | Closing | Returning | Leaving | Over

  datatype Attempt = Attempt(instance: Instance, phase: Phase)

  datatype Release = Release(
    activity: map<Instance, Activity>, operations: map<ThreadId, int>, closing: map<ThreadId, AttemptId>,
    scheduled: set<ThreadId>, settings: Settings, stopped: bool, tasks: seq<Task>, attempts: seq<Attempt>)

  function Initial(settings: Settings): Release {
    Release(map[], map[], map[], {}, settings, false, [], [])
  }

  // ---- operations ---------------------------------------------------------------------------

  function Touched(activity: map<Instance, Activity>, instance: Instance, now: nat): map<Instance, Activity> {
    activity[instance :=
      if instance in activity then activity[instance].(lastActivity := now) else Activity(now, false, false)]
  }

  function Touch(s: Release, instance: Instance, now: nat): Release {
    s.(activity := Touched(s.activity, instance, now))
  }

  function FailOutput(s: Release, instance: Instance, now: nat): Release {
    var activity := Touched(s.activity, instance, now);
    s.(activity := activity[instance := activity[instance].(outputFailed := true)])
  }

  function Track(s: Release, id: Option<ThreadId>, drain: bool): Release {
    s.(tasks := s.tasks + [Task(id, drain, false)],
       operations :=
         if id.None? then s.operations
         else s.operations[id.value := (if id.value in s.operations then s.operations[id.value] else 0) + 1])
  }

  /** The last turn of `runOperation`'s waiting loop: track the operation unless it must wait or is refused. */
  function Admit(s: Release, id: Option<ThreadId>): Release {
    if s.stopped || (id.Some? && id.value in s.closing) then s else Track(s, id, true)
  }

  function ConsumeOutput(s: Release, instance: Instance, now: nat): Release {
    Track(Touch(s, instance, now), Some(instance.id), false)
  }

  function FinishTask(s: Release, env: Env, task: TaskId): Release {
    if task >= |s.tasks| || s.tasks[task].done then s
    else
      var s1 := s.(tasks := s.tasks[task := s.tasks[task].(done := true)]);
      match s.tasks[task].id
      case None => s1
      case Some(id) =>
        var remaining := (if id in s.operations then s.operations[id] else 1) - 1;
        if remaining != 0 then s1.(operations := s.operations[id := remaining])
        else
          s1.(operations := s.operations - {id},
              activity := if id in env.registry then Touched(s.activity, env.registry[id], env.now) else s.activity)
  }

  // ---- releasing ------------------------------------------------------------------------------

  predicate Eligible(s: Release, env: Env, instance: Instance) {
    var facts := env.facts(instance);
    && !s.stopped && s.settings.enabled
    && instance in s.activity && !s.activity[instance].outputFailed && !s.activity[instance].closeFailed
    && instance.id in env.registry && env.registry[instance.id] == instance
    && instance.id !in s.closing && instance.id !in s.operations
    && !facts.subagent && facts.ready && facts.identified && !facts.persistenceError
    && !facts.running && !facts.activeTurn && !facts.background
    && env.now - s.activity[instance].lastActivity >= s.settings.timeout
  }

  /** What one round of `check` does with one thread. */
  function Schedule(s: Release, env: Env, instance: Instance): Release {
    if instance.id in s.scheduled || !Eligible(s, env, instance) then s
    else s.(scheduled := s.scheduled + {instance.id}, attempts := s.attempts + [Attempt(instance, Queued)])
  }

  function Check(s: Release, env: Env, threads: seq<Instance>): Release {
    if threads == [] then s else Schedule(Check(s, env, Front(threads)), env, Last(threads))
  }

  predicate InPhase(s: Release, attempt: AttemptId, phase: Phase) {
    attempt < |s.attempts| && s.attempts[attempt].phase == phase
  }

  function SetPhase(s: Release, attempt: AttemptId, phase: Phase): Release
    requires attempt < |s.attempts|
  {
    s.(attempts := s.attempts[attempt := s.attempts[attempt].(phase := phase)])
  }

  /** The queued release gets its turn; requests and settings may have changed meanwhile. */
  function Begin(s: Release, env: Env, attempt: AttemptId): Release {
    if !InPhase(s, attempt, Queued) then s
    else if !Eligible(s, env, s.attempts[attempt].instance) then SetPhase(s, attempt, Leaving)
    else SetPhase(s, attempt, Closing).(closing := s.closing[s.attempts[attempt].instance.id := attempt])
  }

  function MarkCloseFailed(s: Release, instance: Instance): Release {
    if instance in s.activity then s.(activity := s.activity[instance := s.activity[instance].(closeFailed := true)]) else s
  }

  // History and identity are known to be stored, and the instance is still the thread's current one.
  predicate Confirmed(s: Release, env: Env, instance: Instance) {
    var facts := env.facts(instance);
    && !(instance in s.activity && s.activity[instance].outputFailed)
    && !facts.persistenceError && facts.ready && facts.identified
    && instance.id in env.registry && env.registry[instance.id] == instance
  }

  /** The close finished in time. The second result is the thread to remove from the registry, if any. */
  function Confirm(s: Release, env: Env, attempt: AttemptId): (Release, Option<ThreadId>) {
    if !InPhase(s, attempt, Closing) then (s, None)
    else
      var instance := s.attempts[attempt].instance;
      if Confirmed(s, env, instance) then (SetPhase(s, attempt, Returning), Some(instance.id))
      else (SetPhase(MarkCloseFailed(s, instance), attempt, Returning), None)
  }

  /** The close threw, or its time ran out first. */
  function Fail(s: Release, attempt: AttemptId): Release {
    if !InPhase(s, attempt, Closing) then s
    else SetPhase(MarkCloseFailed(s, s.attempts[attempt].instance), attempt, Returning)
  }

  function Return(s: Release, attempt: AttemptId): Release {
    if !InPhase(s, attempt, Returning) then s
    else SetPhase(s, attempt, Leaving).(closing := s.closing - {s.attempts[attempt].instance.id})
  }

  function Unschedule(s: Release, attempt: AttemptId): Release {
    if !InPhase(s, attempt, Leaving) then s
    else SetPhase(s, attempt, Over).(scheduled := s.scheduled - {s.attempts[attempt].instance.id})
  }

  // ---- runs --------------------------------------------------------------------------------------

  datatype World = World(own: Release, env: Env)

  datatype Event =
    | OperationAsked(target: Option<ThreadId>)
    | OutputArrived(instance: Instance)
    | OutputBroke(instance: Instance)
    | ThreadTouched(instance: Instance)
    | TaskEnded(task: TaskId)
    | Checked(threads: seq<Instance>)
    | ReleaseStarted(attempt: AttemptId)
    | CloseConfirmed(attempt: AttemptId)
    | CloseFailed(attempt: AttemptId)
    | CloseReturned(attempt: AttemptId)
    | ReleaseLeft(attempt: AttemptId)
    | Configured(settings: Settings)
    | Disabled
    | Stopped
    | TimePassed(ticks: nat)
    | ThreadChanged(instance: Instance, facts: Facts)
    | Registered(instance: Instance)
    | Unregistered(id: ThreadId)

  function OwnStep(s: Release, env: Env, event: Event): Release {
    match event
    case OperationAsked(id) => Admit(s, id)
    case OutputArrived(instance) => ConsumeOutput(s, instance, env.now)
    case OutputBroke(instance) => FailOutput(s, instance, env.now)
    case ThreadTouched(instance) => Touch(s, instance, env.now)
    case TaskEnded(task) => FinishTask(s, env, task)
    case Checked(threads) => Check(s, env, threads)
    case ReleaseStarted(attempt) => Begin(s, env, attempt)
    case CloseConfirmed(attempt) => Confirm(s, env, attempt).0
    case CloseFailed(attempt) => Fail(s, attempt)
    case CloseReturned(attempt) => Return(s, attempt)
    case ReleaseLeft(attempt) => Unschedule(s, attempt)
    case Configured(settings) => if s.stopped then s else s.(settings := settings)
    case Disabled => s.(settings := s.settings.(enabled := false))
    case Stopped => s.(settings := s.settings.(enabled := false), stopped := true)
    case _ => s
  }

  function EnvStep(s: Release, env: Env, event: Event): Env {
    match event
    case CloseConfirmed(attempt) =>
      var removed := Confirm(s, env, attempt).1;
      if removed.Some? then env.(registry := env.registry - {removed.value}) else env
    case TimePassed(ticks) => env.(now := env.now + ticks)
    case ThreadChanged(instance, facts) => env.(facts := (i: Instance) => if i == instance then facts else env.facts(i))
    case Registered(instance) => env.(registry := env.registry[instance.id := instance])
    case Unregistered(id) => env.(registry := env.registry - {id})
    case _ => env
  }

  function Step(w: World, event: Event): World {
    World(OwnStep(w.own, w.env, event), EnvStep(w.own, w.env, event))
  }

  function After(settings: Settings, env: Env, events: seq<Event>): World {
    if events == [] then World(Initial(settings), env) else Step(After(settings, env, Front(events)), Last(events))
  }

  // ---- the operation count -------------------------------------------------------------------------

  predicate Unfinished(task: Task, id: ThreadId) {
    task.id == Some(id) && !task.done
  }

  function Count(tasks: seq<Task>, id: ThreadId): nat {
    if tasks == [] then 0 else Count(Front(tasks), id) + if Unfinished(Last(tasks), id) then 1 else 0
  }

  lemma {:induction false} CountFinished(tasks: seq<Task>, task: TaskId, id: ThreadId)
    requires task < |tasks| && !tasks[task].done
    ensures Count(tasks[task := tasks[task].(done := true)], id) == Count(tasks, id) - if tasks[task].id == Some(id) then 1 else 0
  {
    var tasks' := tasks[task := tasks[task].(done := true)];
    if task == |tasks| - 1 {
      assert Front(tasks') == Front(tasks);
    } else {
      assert Front(tasks') == Front(tasks)[task := tasks[task].(done := true)];
      CountFinished(Front(tasks), task, id);
    }
  }

  lemma {:induction false} CountPositive(tasks: seq<Task>, id: ThreadId)
    ensures Count(tasks, id) > 0 <==> exists k :: 0 <= k < |tasks| && Unfinished(tasks[k], id)
  {
    if tasks != [] {
      CountPositive(Front(tasks), id);
      if Unfinished(Last(tasks), id) {
        assert Unfinished(tasks[|tasks| - 1], id);
      } else if k :| 0 <= k < |tasks| && Unfinished(tasks[k], id) {
        assert Front(tasks)[k] == tasks[k];
      }
    }
  }

  predicate Counted(operations: map<ThreadId, int>, tasks: seq<Task>, id: ThreadId) {
    if Count(tasks, id) == 0 then id !in operations else id in operations && operations[id] == Count(tasks, id)
  }

  ghost predicate CountInv(operations: map<ThreadId, int>, tasks: seq<Task>) {
    forall id: ThreadId :: Counted(operations, tasks, id)
  }

  lemma TrackCount(s: Release, id: Option<ThreadId>, drain: bool)
    requires CountInv(s.operations, s.tasks)
    ensures CountInv(Track(s, id, drain).operations, Track(s, id, drain).tasks)
  {
    var s' := Track(s, id, drain);
    forall i: ThreadId ensures Counted(s'.operations, s'.tasks, i) {
      assert Counted(s.operations, s.tasks, i);
      assert Front(s'.tasks) == s.tasks;
    }
  }

  // What finishing a task of a thread does to the thread's count and to others'.
  lemma FinishedOperations(s: Release, env: Env, task: TaskId, id: ThreadId)
    requires task < |s.tasks| && !s.tasks[task].done && Counted(s.operations, s.tasks, id)
    requires s.tasks[task].id == Some(id) ==> Count(s.tasks, id) > 0
    ensures var operations := FinishTask(s, env, task).operations;
            var count := Count(s.tasks, id) - if s.tasks[task].id == Some(id) then 1 else 0;
            if count == 0 then id !in operations else id in operations && operations[id] == count
  {
    hide Count;
  }

  lemma FinishCount(s: Release, env: Env, task: TaskId)
    requires CountInv(s.operations, s.tasks)
    ensures CountInv(FinishTask(s, env, task).operations, FinishTask(s, env, task).tasks)
  {
    var s' := FinishTask(s, env, task);
    if task < |s.tasks| && !s.tasks[task].done {
      assert s'.tasks == s.tasks[task := s.tasks[task].(done := true)];
      hide FinishTask;
      forall i: ThreadId ensures Counted(s'.operations, s'.tasks, i) {
        assert Counted(s.operations, s.tasks, i);
        CountFinished(s.tasks, task, i);
        FinishedOperations(s, env, task, i);
      }
    }
  }

  // ---- the release attempts --------------------------------------------------------------------------

  predicate Live(attempt: Attempt) {
    !attempt.phase.Over?
  }

  predicate Listed(attempt: Attempt) {
    attempt.phase.Closing? || attempt.phase.Returning?
  }

  ghost predicate AttemptsInv(attempts: seq<Attempt>, scheduled: set<ThreadId>, closing: map<ThreadId, AttemptId>) {
    && (forall a :: 0 <= a < |attempts| && Live(attempts[a]) ==> attempts[a].instance.id in scheduled)
    && (forall a, b :: 0 <= a < b < |attempts| && Live(attempts[a]) && Live(attempts[b]) ==> attempts[a].instance.id != attempts[b].instance.id)
    && (forall a :: 0 <= a < |attempts| && Listed(attempts[a]) ==>
          attempts[a].instance.id in closing && closing[attempts[a].instance.id] == a)
    && (forall id :: id in closing ==>
          closing[id] < |attempts| && Listed(attempts[closing[id]]) && attempts[closing[id]].instance.id == id)
  }

  // No runOperation task of a closing thread is unfinished.
  ghost predicate ExclusionInv(closing: map<ThreadId, AttemptId>, tasks: seq<Task>) {
    forall k, id :: 0 <= k < |tasks| && id in closing && tasks[k].drain ==> !Unfinished(tasks[k], id)
  }

  // Whoever is being closed has not failed to close before.
  ghost predicate FreshInv(attempts: seq<Attempt>, activity: map<Instance, Activity>) {
    forall a :: 0 <= a < |attempts| && attempts[a].phase.Closing? ==>
      attempts[a].instance in activity && !activity[attempts[a].instance].closeFailed
  }

  ghost predicate Inv(s: Release) {
    && CountInv(s.operations, s.tasks)
    && AttemptsInv(s.attempts, s.scheduled, s.closing)
    && ExclusionInv(s.closing, s.tasks)
    && FreshInv(s.attempts, s.activity)
  }

  lemma ScheduleInv(s: Release, env: Env, instance: Instance)
    requires Inv(s)
    ensures Inv(Schedule(s, env, instance))
  {
  }

  lemma {:induction false} CheckInv(s: Release, env: Env, threads: seq<Instance>)
    requires Inv(s)
    ensures Inv(Check(s, env, threads))
  {
    if threads != [] {
      CheckInv(s, env, Front(threads));
      ScheduleInv(Check(s, env, Front(threads)), env, Last(threads));
    }
  }

  lemma MovedFresh(attempts: seq<Attempt>, activity: map<Instance, Activity>, attempt: AttemptId, phase: Phase)
    requires FreshInv(attempts, activity) && attempt < |attempts|
    requires phase.Closing? ==> attempts[attempt].instance in activity && !activity[attempts[attempt].instance].closeFailed
    ensures FreshInv(attempts[attempt := attempts[attempt].(phase := phase)], activity)
  {
  }

  lemma TouchedFresh(attempts: seq<Attempt>, activity: map<Instance, Activity>, instance: Instance, now: nat)
    requires FreshInv(attempts, activity)
    ensures FreshInv(attempts, Touched(activity, instance, now))
  {
  }

  // A failed close marks the instance of the one attempt that was closing it.
  lemma FailedFresh(s: Release, attempt: AttemptId)
    requires AttemptsInv(s.attempts, s.scheduled, s.closing) && FreshInv(s.attempts, s.activity) && InPhase(s, attempt, Closing)
    ensures FreshInv(SetPhase(s, attempt, Returning).attempts, MarkCloseFailed(s, s.attempts[attempt].instance).activity)
  {
    var attempts' := SetPhase(s, attempt, Returning).attempts;
    forall a | 0 <= a < |attempts'| && attempts'[a].phase.Closing? ensures attempts'[a].instance.id != s.attempts[attempt].instance.id {
      assert Live(s.attempts[a]) && Live(s.attempts[attempt]);
    }
  }

  // Closing to returning, or any move that leaves the lists alone.
  lemma MovedAttempts(attempts: seq<Attempt>, scheduled: set<ThreadId>, closing: map<ThreadId, AttemptId>, attempt: AttemptId, phase: Phase)
    requires AttemptsInv(attempts, scheduled, closing) && attempt < |attempts|
    requires Live(attempts[attempt]) && !phase.Over? && phase != Closing
    requires Listed(attempts[attempt]) <==> phase.Returning?
    ensures AttemptsInv(attempts[attempt := attempts[attempt].(phase := phase)], scheduled, closing)
  {
  }

  lemma BeginAttempts(s: Release, attempt: AttemptId)
    requires AttemptsInv(s.attempts, s.scheduled, s.closing) && InPhase(s, attempt, Queued)
    requires s.attempts[attempt].instance.id !in s.closing
    ensures AttemptsInv(SetPhase(s, attempt, Closing).attempts, s.scheduled, s.closing[s.attempts[attempt].instance.id := attempt])
  {
  }

  lemma ReturnAttempts(s: Release, attempt: AttemptId)
    requires AttemptsInv(s.attempts, s.scheduled, s.closing) && InPhase(s, attempt, Returning)
    ensures AttemptsInv(SetPhase(s, attempt, Leaving).attempts, s.scheduled, s.closing - {s.attempts[attempt].instance.id})
  {
    assert Listed(s.attempts[attempt]);
  }

  lemma UnscheduleAttempts(s: Release, attempt: AttemptId)
    requires AttemptsInv(s.attempts, s.scheduled, s.closing) && InPhase(s, attempt, Leaving)
    ensures AttemptsInv(SetPhase(s, attempt, Over).attempts, s.scheduled - {s.attempts[attempt].instance.id}, s.closing)
  {
    assert Live(s.attempts[attempt]);
  }

  lemma BeginInv(s: Release, env: Env, attempt: AttemptId)
    requires Inv(s)
    ensures Inv(Begin(s, env, attempt))
  {
    if InPhase(s, attempt, Queued) {
      var instance := s.attempts[attempt].instance;
      if Eligible(s, env, instance) {
        assert Counted(s.operations, s.tasks, instance.id);
        CountPositive(s.tasks, instance.id);
        BeginAttempts(s, attempt);
        MovedFresh(s.attempts, s.activity, attempt, Closing);
      } else {
        MovedAttempts(s.attempts, s.scheduled, s.closing, attempt, Leaving);
        MovedFresh(s.attempts, s.activity, attempt, Leaving);
      }
    }
  }

  lemma ConfirmInv(s: Release, env: Env, attempt: AttemptId)
    requires Inv(s)
    ensures Inv(Confirm(s, env, attempt).0) && Inv(Fail(s, attempt))
  {
    if InPhase(s, attempt, Closing) {
      MovedAttempts(s.attempts, s.scheduled, s.closing, attempt, Returning);
      MovedFresh(s.attempts, s.activity, attempt, Returning);
      FailedFresh(s, attempt);
    }
  }

  lemma LeaveInv(s: Release, attempt: AttemptId)
    requires Inv(s)
    ensures Inv(Return(s, attempt)) && Inv(Unschedule(s, attempt))
  {
    if InPhase(s, attempt, Returning) {
      ReturnAttempts(s, attempt);
      MovedFresh(s.attempts, s.activity, attempt, Leaving);
    }
    if InPhase(s, attempt, Leaving) {
      UnscheduleAttempts(s, attempt);
      MovedFresh(s.attempts, s.activity, attempt, Over);
    }
  }

  lemma ActivityInv(s: Release, instance: Instance, now: nat)
    requires Inv(s)
    ensures Inv(Touch(s, instance, now)) && Inv(FailOutput(s, instance, now))
  {
  }

  lemma AdmitInv(s: Release, id: Option<ThreadId>)
    requires Inv(s)
    ensures Inv(Admit(s, id))
  {
    TrackCount(s, id, true);
  }

  lemma OutputInv(s: Release, instance: Instance, now: nat)
    requires Inv(s)
    ensures Inv(ConsumeOutput(s, instance, now))
  {
    ActivityInv(s, instance, now);
    TrackCount(Touch(s, instance, now), Some(instance.id), false);
  }

  lemma FinishTouches(s: Release, env: Env, task: TaskId)
    requires FreshInv(s.attempts, s.activity)
    ensures FreshInv(FinishTask(s, env, task).attempts, FinishTask(s, env, task).activity)
  {
    hide FreshInv;
    hide Touched;
    if task < |s.tasks| && s.tasks[task].id.Some? && s.tasks[task].id.value in env.registry {
      TouchedFresh(s.attempts, s.activity, env.registry[s.tasks[task].id.value], env.now);
    }
  }

  lemma FinishExcludes(s: Release, env: Env, task: TaskId)
    requires ExclusionInv(s.closing, s.tasks)
    ensures ExclusionInv(FinishTask(s, env, task).closing, FinishTask(s, env, task).tasks)
  {
  }

  lemma FinishInv(s: Release, env: Env, task: TaskId)
    requires Inv(s)
    ensures Inv(FinishTask(s, env, task))
  {
    hide CountInv;
    hide FreshInv;
    hide ExclusionInv;
    hide AttemptsInv;
    FinishCount(s, env, task);
    FinishTouches(s, env, task);
    FinishExcludes(s, env, task);
    FinishKeepsAttempts(s, env, task);
  }

  lemma ReleaseStepInv(s: Release, env: Env, event: Event)
    requires Inv(s)
    requires event.ReleaseStarted? || event.CloseConfirmed? || event.CloseFailed? || event.CloseReturned? || event.ReleaseLeft?
    ensures Inv(OwnStep(s, env, event))
  {
    match event
    case ReleaseStarted(attempt) => BeginInv(s, env, attempt);
    case CloseConfirmed(attempt) => ConfirmInv(s, env, attempt);
    case CloseFailed(attempt) => ConfirmInv(s, env, attempt);
    case CloseReturned(attempt) => LeaveInv(s, attempt);
    case ReleaseLeft(attempt) => LeaveInv(s, attempt);
  }

  lemma TaskStepInv(s: Release, env: Env, event: Event)
    requires Inv(s)
    requires event.OperationAsked? || event.OutputArrived? || event.TaskEnded? || event.Checked?
    ensures Inv(OwnStep(s, env, event))
  {
    match event
    case OperationAsked(id) => AdmitInv(s, id);
    case OutputArrived(instance) => OutputInv(s, instance, env.now);
    case TaskEnded(task) => FinishInv(s, env, task);
    case Checked(threads) => CheckInv(s, env, threads);
  }

  lemma StepInv(s: Release, env: Env, event: Event)
    requires Inv(s)
    ensures Inv(OwnStep(s, env, event))
  {
    match event
    case OutputBroke(instance) => ActivityInv(s, instance, env.now);
    case ThreadTouched(instance) => ActivityInv(s, instance, env.now);
    case Configured(_) =>
    case Disabled =>
    case Stopped =>
    case TimePassed(_) =>
    case ThreadChanged(_, _) =>
    case Registered(_) =>
    case Unregistered(_) =>
    case OperationAsked(_) => TaskStepInv(s, env, event);
    case OutputArrived(_) => TaskStepInv(s, env, event);
    case TaskEnded(_) => TaskStepInv(s, env, event);
    case Checked(_) => TaskStepInv(s, env, event);
    case _ => ReleaseStepInv(s, env, event);
  }

  lemma {:induction false} AfterInv(settings: Settings, env: Env, events: seq<Event>)
    ensures Inv(After(settings, env, events).own)
  {
    if events != [] {
      AfterInv(settings, env, Front(events));
      var w := After(settings, env, Front(events));
      StepInv(w.own, w.env, Last(events));
    }
  }

  // ---- what it guarantees ------------------------------------------------------------------------------

  /** Exclusion, in every reachable state: a thread being closed has no operation under way. */
  lemma ClosingExcludesOperations(settings: Settings, env: Env, events: seq<Event>, id: ThreadId)
    requires id in After(settings, env, events).own.closing
    ensures forall task :: task in After(settings, env, events).own.tasks ==> !(task.id == Some(id) && task.drain && !task.done)
  {
    AfterInv(settings, env, events);
    assert forall task :: task in After(settings, env, events).own.tasks && task.drain ==> !Unfinished(task, id);
  }

  /** The count of a thread is the number of its unfinished tasks, and is absent exactly at zero. */
  lemma OperationCountExact(settings: Settings, env: Env, events: seq<Event>, id: ThreadId)
    ensures id in After(settings, env, events).own.operations <==>
              exists task :: task in After(settings, env, events).own.tasks && Unfinished(task, id)
    ensures id in After(settings, env, events).own.operations ==>
              After(settings, env, events).own.operations[id] == Count(After(settings, env, events).own.tasks, id)
  {
    AfterInv(settings, env, events);
    var s := After(settings, env, events).own;
    assert Counted(s.operations, s.tasks, id);
    CountPositive(s.tasks, id);
    if exists task :: task in s.tasks && Unfinished(task, id) {
      var task :| task in s.tasks && Unfinished(task, id);
      var k :| 0 <= k < |s.tasks| && s.tasks[k] == task;
      assert Unfinished(s.tasks[k], id);
    }
  }

  /** At most one release per thread is under way, and a thread is listed as closing exactly while one of its releases closes. */
  lemma OneReleasePerThread(settings: Settings, env: Env, events: seq<Event>, a: AttemptId, b: AttemptId)
    requires a < |After(settings, env, events).own.attempts| && b < |After(settings, env, events).own.attempts|
    requires Live(After(settings, env, events).own.attempts[a]) && Live(After(settings, env, events).own.attempts[b])
    requires After(settings, env, events).own.attempts[a].instance.id == After(settings, env, events).own.attempts[b].instance.id
    ensures a == b
    ensures Listed(After(settings, env, events).own.attempts[a]) <==>
              After(settings, env, events).own.attempts[a].instance.id in After(settings, env, events).own.closing
  {
    AfterInv(settings, env, events);
  }

  // The event counts as activity of the instance: an output, a touch, or its thread's last task ending.
  predicate TouchedBy(w: World, event: Event, instance: Instance) {
    match event
    case OutputArrived(i) => i == instance
    case OutputBroke(i) => i == instance
    case ThreadTouched(i) => i == instance
    case TaskEnded(task) =>
      && task < |w.own.tasks| && w.own.tasks[task].id.Some? && !w.own.tasks[task].done
      && Count(w.own.tasks, w.own.tasks[task].id.value) == 1
      && w.own.tasks[task].id.value in w.env.registry && w.env.registry[w.own.tasks[task].id.value] == instance
    case _ => false
  }

  // When the instance was last active, from the history alone.
  function LastActive(settings: Settings, env: Env, events: seq<Event>, instance: Instance): Option<nat> {
    if events == [] then None
    else
      var w := After(settings, env, Front(events));
      if TouchedBy(w, Last(events), instance) then Some(w.env.now) else LastActive(settings, env, Front(events), instance)
  }

  predicate ActivityIs(activity: map<Instance, Activity>, instance: Instance, at: Option<nat>) {
    match at
    case None => instance !in activity
    case Some(time) => instance in activity && activity[instance].lastActivity == time
  }

  lemma FinishActivity(w: World, task: TaskId, instance: Instance, at: Option<nat>)
    requires Inv(w.own) && ActivityIs(w.own.activity, instance, at)
    ensures ActivityIs(FinishTask(w.own, w.env, task).activity, instance,
                       if TouchedBy(w, TaskEnded(task), instance) then Some(w.env.now) else at)
  {
    if task < |w.own.tasks| && w.own.tasks[task].id.Some? {
      assert Counted(w.own.operations, w.own.tasks, w.own.tasks[task].id.value);
      CountPositive(w.own.tasks, w.own.tasks[task].id.value);
      if !w.own.tasks[task].done { assert Unfinished(w.own.tasks[task], w.own.tasks[task].id.value); }
    }
  }

  lemma CloseActivity(s: Release, env: Env, attempt: AttemptId, instance: Instance, at: Option<nat>)
    requires ActivityIs(s.activity, instance, at)
    ensures ActivityIs(Confirm(s, env, attempt).0.activity, instance, at) && ActivityIs(Fail(s, attempt).activity, instance, at)
  {
  }

  // The events that leave the recorded activity alone.
  lemma QuietActivity(s: Release, env: Env, event: Event)
    requires event.OperationAsked? || event.Checked? || event.ReleaseStarted? || event.CloseReturned? || event.ReleaseLeft?
          || event.Configured? || event.Disabled? || event.Stopped?
    ensures OwnStep(s, env, event).activity == s.activity
  {
    if event.Checked? { CheckKeeps(s, env, event.threads); }
  }

  lemma ActivityStep(w: World, event: Event, instance: Instance, at: Option<nat>)
    requires Inv(w.own) && ActivityIs(w.own.activity, instance, at)
    ensures ActivityIs(OwnStep(w.own, w.env, event).activity, instance, if TouchedBy(w, event, instance) then Some(w.env.now) else at)
  {
    hide FinishTask;
    hide Confirm;
    hide Fail;
    hide Inv;
    hide Count;
    match event
    case TaskEnded(task) => FinishActivity(w, task, instance, at);
    case CloseConfirmed(attempt) => CloseActivity(w.own, w.env, attempt, instance, at);
    case CloseFailed(attempt) => CloseActivity(w.own, w.env, attempt, instance, at);
    case OutputArrived(_) =>
    case OutputBroke(_) =>
    case ThreadTouched(_) =>
    case TimePassed(_) =>
    case ThreadChanged(_, _) =>
    case Registered(_) =>
    case Unregistered(_) =>
    case _ => QuietActivity(w.own, w.env, event);
  }

  lemma {:induction false} LastActiveExact(settings: Settings, env: Env, events: seq<Event>, instance: Instance)
    ensures ActivityIs(After(settings, env, events).own.activity, instance, LastActive(settings, env, events, instance))
  {
    if events != [] {
      LastActiveExact(settings, env, Front(events), instance);
      AfterInv(settings, env, Front(events));
      ActivityStep(After(settings, env, Front(events)), Last(events), instance, LastActive(settings, env, Front(events), instance));
    }
  }

  // What makes a release wrong to begin, whatever was true when it was queued.
  predicate MayBegin(w: World, instance: Instance) {
    && !w.own.stopped && w.own.settings.enabled
    && instance.id in w.env.registry && w.env.registry[instance.id] == instance
    && !HasFailed(w.own, instance)
    && !w.env.facts(instance).running && !w.env.facts(instance).activeTurn && !w.env.facts(instance).background
    && !w.env.facts(instance).subagent && !w.env.facts(instance).persistenceError
    && w.env.facts(instance).ready && w.env.facts(instance).identified
  }

  /**
   * A thread starts closing only in one way: a queued release gets its turn while the thread
   * is the current instance at rest, none of its tasks is unfinished, and the whole timeout
   * has passed since the history last shows it active.
   */
  lemma ClosingStartsOnlyAtRest(settings: Settings, env: Env, events: seq<Event>, event: Event, id: ThreadId)
    requires id !in After(settings, env, events).own.closing && id in Step(After(settings, env, events), event).own.closing
    ensures var w := After(settings, env, events);
            && event.ReleaseStarted? && InPhase(w.own, event.attempt, Queued)
            && w.own.attempts[event.attempt].instance.id == id
            && MayBegin(w, w.own.attempts[event.attempt].instance)
            && (forall task :: task in w.own.tasks ==> !Unfinished(task, id))
            && LastActive(settings, env, events, w.own.attempts[event.attempt].instance).Some?
            && w.env.now >= LastActive(settings, env, events, w.own.attempts[event.attempt].instance).value + w.own.settings.timeout
  {
    var w := After(settings, env, events);
    OnlyBeginCloses(w.own, w.env, event, id);
    LastActiveExact(settings, env, events, w.own.attempts[event.attempt].instance);
    OperationCountExact(settings, env, events, id);
  }

  lemma OnlyBeginCloses(s: Release, env: Env, event: Event, id: ThreadId)
    requires id !in s.closing && id in OwnStep(s, env, event).closing
    ensures event.ReleaseStarted? && InPhase(s, event.attempt, Queued)
    ensures s.attempts[event.attempt].instance.id == id && Eligible(s, env, s.attempts[event.attempt].instance)
  {
    if event.Checked? { CheckKeeps(s, env, event.threads); }
  }

  predicate TouchesRegistry(event: Event) {
    event.Registered? || event.Unregistered?
  }

  /**
   * Nothing but a confirmed close takes a thread away: its instance is still the current one
   * and was closing, its history and identity are stored, and no operation is under way.
   */
  lemma RemovalNeedsConfirmedClose(settings: Settings, env: Env, events: seq<Event>, event: Event, id: ThreadId)
    requires !TouchesRegistry(event) && id in After(settings, env, events).env.registry
    ensures var w := After(settings, env, events);
            var registry' := Step(w, event).env.registry;
            (id in registry' && registry'[id] == w.env.registry[id])
            || (&& id !in registry'
                && event.CloseConfirmed? && InPhase(w.own, event.attempt, Closing)
                && w.own.attempts[event.attempt].instance == w.env.registry[id]
                && id in w.own.closing
                && w.env.facts(w.env.registry[id]).ready && w.env.facts(w.env.registry[id]).identified
                && !w.env.facts(w.env.registry[id]).persistenceError
                && w.env.registry[id] in w.own.activity
                && !w.own.activity[w.env.registry[id]].outputFailed && !w.own.activity[w.env.registry[id]].closeFailed
                && forall task :: task in w.own.tasks ==> !(task.id == Some(id) && task.drain && !task.done))
  {
    AfterInv(settings, env, events);
    var w := After(settings, env, events);
    if id in w.own.closing { ClosingExcludesOperations(settings, env, events, id); }
  }

  predicate HasFailed(s: Release, instance: Instance) {
    instance in s.activity && s.activity[instance].closeFailed
  }

  // No new attempt for the instance, and none of its attempts is closing.
  ghost predicate NotReleasedAgain(s: Release, s': Release, instance: Instance) {
    forall a :: 0 <= a < |s'.attempts| && s'.attempts[a].instance == instance ==> a < |s.attempts| && !s'.attempts[a].phase.Closing?
  }

  lemma {:induction false} CheckKeeps(s: Release, env: Env, threads: seq<Instance>)
    ensures Check(s, env, threads).activity == s.activity && Check(s, env, threads).closing == s.closing
    ensures |s.attempts| <= |Check(s, env, threads).attempts|
    ensures forall a :: 0 <= a < |s.attempts| ==> Check(s, env, threads).attempts[a] == s.attempts[a]
    ensures forall a :: |s.attempts| <= a < |Check(s, env, threads).attempts| ==>
              Check(s, env, threads).attempts[a].phase.Queued? && !HasFailed(s, Check(s, env, threads).attempts[a].instance)
  {
    if threads != [] {
      CheckKeeps(s, env, Front(threads));
    }
  }

  lemma FailureMarkStays(s: Release, env: Env, event: Event, instance: Instance)
    requires HasFailed(s, instance)
    ensures HasFailed(OwnStep(s, env, event), instance)
  {
    hide FinishTask;
    hide Confirm;
    hide Fail;
    hide Begin;
    hide Check;
    match event
    case Checked(threads) => CheckKeeps(s, env, threads);
    case TaskEnded(task) => FinishKeepsFailure(s, env, task, instance);
    case CloseConfirmed(attempt) => CloseKeepsFailure(s, env, attempt, instance);
    case CloseFailed(attempt) => CloseKeepsFailure(s, env, attempt, instance);
    case ReleaseStarted(_) => QuietActivity(s, env, event);
    case _ =>
  }

  lemma FinishKeepsFailure(s: Release, env: Env, task: TaskId, instance: Instance)
    requires HasFailed(s, instance)
    ensures HasFailed(FinishTask(s, env, task), instance)
  {
  }

  lemma CloseKeepsFailure(s: Release, env: Env, attempt: AttemptId, instance: Instance)
    requires HasFailed(s, instance)
    ensures HasFailed(Confirm(s, env, attempt).0, instance) && HasFailed(Fail(s, attempt), instance)
  {
    hide Confirmed;
  }

  lemma OnlyChecksAttempt(s: Release, env: Env, event: Event)
    requires !event.Checked?
    ensures |OwnStep(s, env, event).attempts| == |s.attempts|
  {
    match event
    case TaskEnded(task) => FinishKeepsAttempts(s, env, task);
    case CloseConfirmed(attempt) => CloseKeepsAttempts(s, env, attempt);
    case CloseFailed(attempt) => CloseKeepsAttempts(s, env, attempt);
    case _ =>
  }

  lemma FinishKeepsAttempts(s: Release, env: Env, task: TaskId)
    ensures FinishTask(s, env, task).attempts == s.attempts
    ensures FinishTask(s, env, task).scheduled == s.scheduled && FinishTask(s, env, task).closing == s.closing
  {
  }

  lemma CloseKeepsAttempts(s: Release, env: Env, attempt: AttemptId)
    ensures |Confirm(s, env, attempt).0.attempts| == |s.attempts| == |Fail(s, attempt).attempts|
  {
  }

  /**
   * A failed release is final: the mark stays, the instance is never scheduled or closed
   * again, and unless the environment itself drops it, it stays registered.
   */
  lemma FailedReleaseIsFinal(settings: Settings, env: Env, events: seq<Event>, event: Event, instance: Instance)
    requires HasFailed(After(settings, env, events).own, instance)
    ensures HasFailed(Step(After(settings, env, events), event).own, instance)
    ensures NotReleasedAgain(After(settings, env, events).own, Step(After(settings, env, events), event).own, instance)
    ensures !TouchesRegistry(event) && instance in After(settings, env, events).env.registry.Values ==>
              instance in Step(After(settings, env, events), event).env.registry.Values
  {
    AfterInv(settings, env, events);
    var w := After(settings, env, events);
    StepInv(w.own, w.env, event);
    FailureMarkStays(w.own, w.env, event, instance);
    if event.Checked? { CheckKeeps(w.own, w.env, event.threads); } else { OnlyChecksAttempt(w.own, w.env, event); }
    if !TouchesRegistry(event) && instance in w.env.registry.Values {
      var id :| id in w.env.registry && w.env.registry[id] == instance;
      RemovalNeedsConfirmedClose(settings, env, events, event, id);
      assert id in Step(w, event).env.registry;
    }
  }

  // ---- the object ------------------------------------------------------------------------------------------

  class ExternalThreadIdleRelease {
    var activity: map<Instance, Activity>
    var operations: map<ThreadId, int>
    var closing: map<ThreadId, AttemptId>
    var scheduled: set<ThreadId>
    var settings: Settings
    var stopped: bool
    var tasks: seq<Task>
    var attempts: seq<Attempt>

    ghost function View(): Release
      reads this
    {
      Release(activity, operations, closing, scheduled, settings, stopped, tasks, attempts)
    }

    constructor (defaults: Settings)
      ensures View() == Initial(defaults)
    {
      activity, operations, closing, scheduled := map[], map[], map[], {};
      settings, stopped, tasks, attempts := defaults, false, [], [];
    }

    method MarkActive(instance: Instance, now: nat)
      modifies this`activity
      ensures View() == Touch(old(View()), instance, now)
    {
      if instance in activity {
        activity := activity[instance := activity[instance].(lastActivity := now)];
      } else {
        activity := activity[instance := Activity(now, false, false)];
      }
    }

    method MarkOutputFailed(instance: Instance, now: nat)
      modifies this`activity
      ensures View() == FailOutput(old(View()), instance, now)
    {
      MarkActive(instance, now);
      activity := activity[instance := activity[instance].(outputFailed := true)];
    }

    method TrackTask(id: Option<ThreadId>, drain: bool) returns (task: TaskId)
      modifies this`operations, this`tasks
      ensures View() == Track(old(View()), id, drain) && task == |old(tasks)|
    {
      if id.Some? {
        var running := if id.value in operations then operations[id.value] else 0;
        operations := operations[id.value := running + 1];
      }
      task := |tasks|;
      tasks := tasks + [Task(id, drain, false)];
    }

    method RunOperation(id: Option<ThreadId>) returns (admitted: bool)
      modifies this`operations, this`tasks
      ensures View() == Admit(old(View()), id)
      ensures admitted <==> !stopped && (id.None? || id.value !in closing)
    {
      if stopped || (id.Some? && id.value in closing) {
        return false;
      }
      var _ := TrackTask(id, true);
      return true;
    }

    method OnOutput(instance: Instance, now: nat) returns (task: TaskId)
      modifies this
      ensures View() == ConsumeOutput(old(View()), instance, now)
    {
      MarkActive(instance, now);
      task := TrackTask(Some(instance.id), false);
    }

    method OnTaskEnded(task: TaskId, env: Env)
      modifies this
      ensures View() == FinishTask(old(View()), env, task)
    {
      if task >= |tasks| || tasks[task].done {
        return;
      }
      var id := tasks[task].id;
      tasks := tasks[task := tasks[task].(done := true)];
      if id.Some? {
        var remaining := (if id.value in operations then operations[id.value] else 1) - 1;
        if remaining != 0 {
          operations := operations[id.value := remaining];
        } else {
          operations := operations - {id.value};
          if id.value in env.registry {
            MarkActive(env.registry[id.value], env.now);
          }
        }
      }
    }

    method CheckAll(env: Env, threads: seq<Instance>)
      modifies this`scheduled, this`attempts
      ensures View() == Check(old(View()), env, threads)
    {
      for i := 0 to |threads|
        invariant View() == Check(old(View()), env, threads[..i])
      {
        assert Front(threads[..i + 1]) == threads[..i] && Last(threads[..i + 1]) == threads[i];
        var instance := threads[i];
        if instance.id !in scheduled && Eligible(Release(activity, operations, closing, scheduled, settings, stopped, tasks, attempts), env, instance) {
          scheduled := scheduled + {instance.id};
          attempts := attempts + [Attempt(instance, Queued)];
        }
      }
      assert threads[..|threads|] == threads;
    }

    method OnReleaseStarted(attempt: AttemptId, env: Env)
      modifies this`closing, this`attempts
      ensures View() == Begin(old(View()), env, attempt)
    {
      if attempt >= |attempts| || !attempts[attempt].phase.Queued? {
        return;
      }
      var instance := attempts[attempt].instance;
      if Eligible(Release(activity, operations, closing, scheduled, settings, stopped, tasks, attempts), env, instance) {
        attempts := attempts[attempt := Attempt(instance, Closing)];
        closing := closing[instance.id := attempt];
      } else {
        attempts := attempts[attempt := Attempt(instance, Leaving)];
      }
    }

    method OnClosed(attempt: AttemptId, env: Env) returns (removed: Option<ThreadId>)
      modifies this`activity, this`attempts
      ensures (View(), removed) == Confirm(old(View()), env, attempt)
    {
      removed := None;
      if attempt >= |attempts| || !attempts[attempt].phase.Closing? {
        return;
      }
      var instance := attempts[attempt].instance;
      var facts := env.facts(instance);
      attempts := attempts[attempt := Attempt(instance, Returning)];
      if (instance in activity && activity[instance].outputFailed) || facts.persistenceError || !facts.ready || !facts.identified {
        FailClose(instance);
      } else if instance.id !in env.registry || env.registry[instance.id] != instance {
        FailClose(instance);
      } else {
        removed := Some(instance.id);
      }
    }

    method FailClose(instance: Instance)
      modifies this`activity
      ensures View() == MarkCloseFailed(old(View()), instance)
    {
      if instance in activity {
        activity := activity[instance := activity[instance].(closeFailed := true)];
      }
    }

    method OnCloseFailed(attempt: AttemptId)
      modifies this`activity, this`attempts
      ensures View() == Fail(old(View()), attempt)
    {
      if attempt < |attempts| && attempts[attempt].phase.Closing? {
        var instance := attempts[attempt].instance;
        attempts := attempts[attempt := Attempt(instance, Returning)];
        FailClose(instance);
      }
    }

    method OnCloseReturned(attempt: AttemptId)
      modifies this`closing, this`attempts
      ensures View() == Return(old(View()), attempt)
    {
      if attempt < |attempts| && attempts[attempt].phase.Returning? {
        closing := closing - {attempts[attempt].instance.id};
        attempts := attempts[attempt := attempts[attempt].(phase := Leaving)];
      }
    }

    method OnReleaseLeft(attempt: AttemptId)
      modifies this`scheduled, this`attempts
      ensures View() == Unschedule(old(View()), attempt)
    {
      if attempt < |attempts| && attempts[attempt].phase.Leaving? {
        scheduled := scheduled - {attempts[attempt].instance.id};
        attempts := attempts[attempt := attempts[attempt].(phase := Over)];
      }
    }
  }
}
