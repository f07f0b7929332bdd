/**
 * What idle release (IdleRelease) does and not only what it avoids: which threads a check
 * schedules, which releases close when their turn comes, how a close ends, and which
 * operations are tracked. The recorded marks are told from the history of events.
 */
module ReleaseOutcomes {
  import opened Prelude
  import opened IdleRelease

  // ---- the marks ------------------------------------------------------------------------------

  ghost predicate OutputBrokeIn(events: seq<Event>, instance: Instance) {
    OutputBroke(instance) in events
  }

  // The instance is still the thread's own, and what it did is known to be stored.
  ghost predicate Kept(w: World, events: seq<Event>, instance: Instance) {
    && !OutputBrokeIn(events, instance)
    && !w.env.facts(instance).persistenceError && w.env.facts(instance).ready && w.env.facts(instance).identified
    && instance.id in w.env.registry && w.env.registry[instance.id] == instance
  }

  // The event is the end of a close of the instance that did not work out.
  ghost predicate ClosesBadly(w: World, events: seq<Event>, event: Event, instance: Instance) {
    && (event.CloseFailed? || event.CloseConfirmed?)
    && event.attempt < |w.own.attempts| && w.own.attempts[event.attempt] == Attempt(instance, Closing)
    && (event.CloseFailed? || !Kept(w, events, instance))
  }

  ghost predicate FailedIn(settings: Settings, env: Env, events: seq<Event>, instance: Instance) {
    && events != []
    && (FailedIn(settings, env, Front(events), instance)
        || ClosesBadly(After(settings, env, Front(events)), Front(events), Last(events), instance))
  }

  ghost predicate MarksAre(activity: map<Instance, Activity>, instance: Instance, broke: bool, failed: bool) {
    if instance in activity then activity[instance].outputFailed == broke && activity[instance].closeFailed == failed
    else !broke && !failed
  }

  lemma FinishMarks(s: Release, env: Env, task: TaskId, instance: Instance, broke: bool, failed: bool)
    requires MarksAre(s.activity, instance, broke, failed)
    ensures MarksAre(FinishTask(s, env, task).activity, instance, broke, failed)
  {
  }

  lemma EndMarks(w: World, events: seq<Event>, event: Event, instance: Instance, failed: bool)
    requires Inv(w.own) && MarksAre(w.own.activity, instance, OutputBrokeIn(events, instance), failed)
    requires event.CloseFailed? || event.CloseConfirmed?
    requires forall other: Instance :: other in w.own.activity ==> w.own.activity[other].outputFailed == OutputBrokeIn(events, other)
    ensures MarksAre(OwnStep(w.own, w.env, event).activity, instance, OutputBrokeIn(events, instance),
                     failed || ClosesBadly(w, events, event, instance))
  {
    if InPhase(w.own, event.attempt, Closing) {
      var closing := w.own.attempts[event.attempt].instance;
      assert closing in w.own.activity;
    }
  }

  lemma OtherMarks(w: World, event: Event, instance: Instance, broke: bool, failed: bool)
    requires MarksAre(w.own.activity, instance, broke, failed) && !event.CloseFailed? && !event.CloseConfirmed?
    ensures MarksAre(OwnStep(w.own, w.env, event).activity, instance, broke || event == OutputBroke(instance), failed)
  {
    hide FinishTask;
    match event
    case TaskEnded(task) => FinishMarks(w.own, w.env, task, instance, broke, failed);
    case Checked(threads) => CheckKeeps(w.own, w.env, threads);
    case _ =>
  }

  /**
   * The marks, exactly: an instance's output is marked as failed if and only if an output of it
   * broke, and its close as failed if and only if a close of it threw or ran out of time, or
   * finished while its history or identity was not stored or it was no longer the current one.
   */
  lemma {:induction false} MarksExact(settings: Settings, env: Env, events: seq<Event>, instance: Instance)
    ensures MarksAre(After(settings, env, events).own.activity, instance,
                     OutputBrokeIn(events, instance), FailedIn(settings, env, events, instance))
    ensures HasFailed(After(settings, env, events).own, instance) <==> FailedIn(settings, env, events, instance)
  {
    if events != [] {
      var before, event := Front(events), Last(events);
      var w := After(settings, env, before);
      MarksExact(settings, env, before, instance);
      AfterInv(settings, env, before);
      assert events == before + [event];
      if event.CloseFailed? || event.CloseConfirmed? {
        forall other: Instance | other in w.own.activity ensures w.own.activity[other].outputFailed == OutputBrokeIn(before, other) {
          MarksExact(settings, env, before, other);
        }
        EndMarks(w, before, event, instance, FailedIn(settings, env, before, instance));
      } else {
        OtherMarks(w, event, instance, OutputBrokeIn(before, instance), FailedIn(settings, env, before, instance));
      }
    }
  }

  // ---- when a release may go ahead -----------------------------------------------------------------

  // The thread is at rest and has been for the whole timeout, told from the history.
  ghost predicate AtRest(settings: Settings, env: Env, events: seq<Event>, instance: Instance) {
    var w := After(settings, env, events);
    && !w.own.stopped && w.own.settings.enabled
    && instance.id in w.env.registry && w.env.registry[instance.id] == instance
    && !OutputBrokeIn(events, instance) && !FailedIn(settings, env, events, instance)
    && (forall task :: task in w.own.tasks ==> task.id != Some(instance.id) || task.done)
    && !w.env.facts(instance).running && !w.env.facts(instance).activeTurn && !w.env.facts(instance).background
    && !w.env.facts(instance).subagent && !w.env.facts(instance).persistenceError
    && w.env.facts(instance).ready && w.env.facts(instance).identified
    && LastActive(settings, env, events, instance).Some?
    && w.env.now >= LastActive(settings, env, events, instance).value + w.own.settings.timeout
  }

  lemma EligibleAtRest(settings: Settings, env: Env, events: seq<Event>, instance: Instance)
    ensures Eligible(After(settings, env, events).own, After(settings, env, events).env, instance) <==>
      AtRest(settings, env, events, instance) && instance.id !in After(settings, env, events).own.closing
  {
    var w := After(settings, env, events);
    MarksExact(settings, env, events, instance);
    LastActiveExact(settings, env, events, instance);
    AfterInv(settings, env, events);
    hide After;
    assert Counted(w.own.operations, w.own.tasks, instance.id);
    CountPositive(w.own.tasks, instance.id);
    UnfinishedOrDone(w.own.tasks, instance.id);
  }

  lemma UnfinishedOrDone(tasks: seq<Task>, id: ThreadId)
    ensures (exists k :: 0 <= k < |tasks| && Unfinished(tasks[k], id)) <==> !forall task :: task in tasks ==> task.id != Some(id) || task.done
  {
    if task :| task in tasks && task.id == Some(id) && !task.done {
      var k :| 0 <= k < |tasks| && tasks[k] == task;
      assert Unfinished(tasks[k], id);
    }
  }

  // ---- scheduling --------------------------------------------------------------------------------

  // The check found the thread ready to go and without a release under way.
  predicate Picks(s: Release, env: Env, threads: seq<Instance>, instance: Instance) {
    instance in threads && Eligible(s, env, instance) && instance.id !in s.scheduled
  }

  // Which threads the check schedules, and the new attempts it makes for them.
  ghost predicate PicksExactly(s: Release, env: Env, threads: seq<Instance>, s': Release, picked: seq<Attempt>) {
    && s' == s.(scheduled := s'.scheduled, attempts := s.attempts + picked)
    && (forall i: Instance :: Picks(s, env, threads, i) <==> Attempt(i, Queued) in picked)
    && (forall attempt :: attempt in picked ==> attempt.phase == Queued && attempt.instance.id in s'.scheduled)
    && (forall id :: id in s.scheduled ==> id in s'.scheduled)
    && (forall id :: id in s'.scheduled ==> id in s.scheduled || exists attempt :: attempt in picked && attempt.instance.id == id)
  }

  lemma {:induction false} CheckPicks(s: Release, env: Env, threads: seq<Instance>) returns (picked: seq<Attempt>)
    ensures PicksExactly(s, env, threads, Check(s, env, threads), picked)
  {
    if threads == [] {
      picked := [];
      assert s.attempts + [] == s.attempts;
    } else {
      var earlier := CheckPicks(s, env, Front(threads));
      var s1, instance := Check(s, env, Front(threads)), Last(threads);
      assert threads == Front(threads) + [instance];
      hide Check;
      assert Eligible(s1, env, instance) == Eligible(s, env, instance);
      if instance.id in s1.scheduled || !Eligible(s, env, instance) {
        picked := earlier;
        assert Check(s, env, threads) == s1;
        PickedBefore(s, env, threads, s1, earlier);
      } else {
        picked := earlier + [Attempt(instance, Queued)];
        assert Check(s, env, threads) == s1.(scheduled := s1.scheduled + {instance.id}, attempts := s1.attempts + [Attempt(instance, Queued)]);
        assert s.attempts + earlier + [Attempt(instance, Queued)] == s.attempts + picked;
        assert Picks(s, env, threads, instance);
      }
    }
  }

  // A thread scheduled earlier in the same check was scheduled for the same instance.
  lemma PickedBefore(s: Release, env: Env, threads: seq<Instance>, s1: Release, earlier: seq<Attempt>)
    requires threads != [] && PicksExactly(s, env, Front(threads), s1, earlier)
    requires Last(threads).id in s1.scheduled || !Eligible(s, env, Last(threads))
    ensures PicksExactly(s, env, threads, s1, earlier)
  {
    var instance := Last(threads);
    assert threads == Front(threads) + [instance];
    if Picks(s, env, threads, instance) {
      var attempt :| attempt in earlier && attempt.instance.id == instance.id;
      assert attempt == Attempt(attempt.instance, Queued) && Picks(s, env, Front(threads), attempt.instance);
      assert attempt.instance == env.registry[instance.id] == instance;
    }
  }

  /**
   * A check schedules exactly the threads it was given that are at rest, are not being closed and
   * have no release under way; each gets one attempt, queued behind its requests.
   */
  lemma ChecksExactly(settings: Settings, env: Env, events: seq<Event>, threads: seq<Instance>) returns (picked: seq<Attempt>)
    ensures var w := After(settings, env, events);
            var s' := Step(w, Checked(threads)).own;
            && s' == w.own.(scheduled := s'.scheduled, attempts := w.own.attempts + picked)
            && forall i: Instance :: Attempt(i, Queued) in picked <==>
                 i in threads && AtRest(settings, env, events, i) && i.id !in w.own.closing && i.id !in w.own.scheduled
  {
    var w := After(settings, env, events);
    picked := CheckPicks(w.own, w.env, threads);
    forall i: Instance ensures Eligible(w.own, w.env, i) <==> AtRest(settings, env, events, i) && i.id !in w.own.closing {
      EligibleAtRest(settings, env, events, i);
    }
    hide After;
    hide AtRest;
    hide Eligible;
  }

  // ---- closing -------------------------------------------------------------------------------------

  // Only this attempt moved, to the given phase.
  ghost predicate Moves(s: Release, s': Release, attempt: AttemptId, phase: Phase) {
    && attempt < |s.attempts| && s'.attempts == s.attempts[attempt := Attempt(s.attempts[attempt].instance, phase)]
  }

  /** When a queued release gets its turn it closes its thread if and only if the thread is at rest, and is over otherwise. */
  lemma TurnTakenExactly(settings: Settings, env: Env, events: seq<Event>, attempt: AttemptId)
    requires InPhase(After(settings, env, events).own, attempt, Queued)
    ensures var w := After(settings, env, events);
            var s', instance := Step(w, ReleaseStarted(attempt)).own, w.own.attempts[attempt].instance;
            var closes := AtRest(settings, env, events, instance) && instance.id !in w.own.closing;
            && Moves(w.own, s', attempt, if closes then Closing else Leaving)
            && s' == w.own.(attempts := s'.attempts, closing := if closes then w.own.closing[instance.id := attempt] else w.own.closing)
  {
    EligibleAtRest(settings, env, events, After(settings, env, events).own.attempts[attempt].instance);
    hide After;
    hide AtRest;
    hide Eligible;
  }

  /**
   * How a close ends. One that threw or ran out of time marks its instance and leaves it
   * registered. One that finished takes the thread away if the instance was kept, and marks it
   * if not. Either way the attempt goes on to leave the list of what is closing.
   */
  lemma CloseEndsExactly(settings: Settings, env: Env, events: seq<Event>, event: Event)
    requires event.CloseFailed? || event.CloseConfirmed?
    requires InPhase(After(settings, env, events).own, event.attempt, Closing)
    ensures var w := After(settings, env, events);
            var w', instance := Step(w, event), w.own.attempts[event.attempt].instance;
            var removed := event.CloseConfirmed? && Kept(w, events, instance);
            && Moves(w.own, w'.own, event.attempt, Returning)
            && (HasFailed(w'.own, instance) <==> !removed)
            && w'.env == w.env.(registry := if removed then w.env.registry - {instance.id} else w.env.registry)
            && w'.own == w.own.(attempts := w'.own.attempts, activity := w'.own.activity)
            && (forall other: Instance :: other != instance ==> (HasFailed(w'.own, other) <==> HasFailed(w.own, other)))
  {
    var w := After(settings, env, events);
    var instance := w.own.attempts[event.attempt].instance;
    MarksExact(settings, env, events, instance);
    AfterInv(settings, env, events);
    hide After;
  }

  /** After its close a release leaves the list of closing threads, and then the list of scheduled ones. */
  lemma LeavesExactly(settings: Settings, env: Env, events: seq<Event>, attempt: AttemptId)
    ensures var w := After(settings, env, events);
            && (InPhase(w.own, attempt, Returning) ==>
                  var s' := Step(w, CloseReturned(attempt)).own;
                  Moves(w.own, s', attempt, Leaving) && w.own.attempts[attempt].instance.id !in s'.closing
                  && forall id :: id != w.own.attempts[attempt].instance.id ==>
                       (id in s'.closing <==> id in w.own.closing) && (id in s'.closing ==> s'.closing[id] == w.own.closing[id]))
            && (InPhase(w.own, attempt, Leaving) ==>
                  var s' := Step(w, ReleaseLeft(attempt)).own;
                  Moves(w.own, s', attempt, Over) && s'.scheduled == w.own.scheduled - {w.own.attempts[attempt].instance.id})
  {
  }

  // ---- finality over runs ------------------------------------------------------------------------------

  lemma {:induction false} FailureIsForGood(settings: Settings, env: Env, events: seq<Event>, more: seq<Event>, instance: Instance)
    requires FailedIn(settings, env, events, instance)
    ensures FailedIn(settings, env, events + more, instance)
    decreases |more|
  {
    if more == [] {
      assert events + more == events;
    } else {
      assert Front(events + more) == events + Front(more);
      FailureIsForGood(settings, env, events, Front(more), instance);
    }
  }

  /**
   * A close that fails is the last one of its instance: whatever happens afterwards, the instance
   * is never scheduled or closed again, and stays registered if only the environment leaves it.
   */
  lemma FailedCloseIsTheLast(
    settings: Settings, env: Env, events: seq<Event>, event: Event, more: seq<Event>, next: Event, instance: Instance)
    requires ClosesBadly(After(settings, env, events), events, event, instance)
    ensures var w := After(settings, env, events + [event] + more);
            && HasFailed(w.own, instance) && !AtRest(settings, env, events + [event] + more, instance)
            && NotReleasedAgain(w.own, Step(w, next).own, instance)
            && (!TouchesRegistry(next) && instance in w.env.registry.Values ==> instance in Step(w, next).env.registry.Values)
  {
    assert Front(events + [event]) == events && Last(events + [event]) == event;
    assert FailedIn(settings, env, events + [event], instance);
    FailureIsForGood(settings, env, events + [event], more, instance);
    MarksExact(settings, env, events + [event] + more, instance);
    hide After;
    hide Step;
    hide FailedIn;
    FailedReleaseIsFinal(settings, env, events + [event] + more, next, instance);
  }

  // ---- operations ---------------------------------------------------------------------------------------

  /**
   * What counts as under way: an operation from when it is admitted, which is exactly when the Host
   * is not stopping and the thread not closing, and an output always; either until it ends.
   */
  lemma TracksExactly(settings: Settings, env: Env, events: seq<Event>, event: Event)
    ensures var w := After(settings, env, events);
            Step(w, event).own.tasks ==
              match event
              case OperationAsked(id) =>
                if !w.own.stopped && (id.None? || id.value !in w.own.closing) then w.own.tasks + [Task(id, true, false)] else w.own.tasks
              case OutputArrived(instance) => w.own.tasks + [Task(Some(instance.id), false, false)]
              case TaskEnded(task) =>
                if task < |w.own.tasks| then w.own.tasks[task := Task(w.own.tasks[task].id, w.own.tasks[task].drain, true)] else w.own.tasks
              case _ => w.own.tasks
  {
    hide After;
    var w := After(settings, env, events);
    if event.Checked? { var _ := CheckPicks(w.own, w.env, event.threads); }
    if event.TaskEnded? && event.task < |w.own.tasks| && w.own.tasks[event.task].done {
      assert w.own.tasks[event.task := w.own.tasks[event.task]] == w.own.tasks;
    }
  }

  /** Settings take effect until the Host stops; stopping and disabling end all releasing. */
  lemma SettingsExact(settings: Settings, env: Env, events: seq<Event>, event: Event)
    ensures var w := After(settings, env, events);
            var s' := Step(w, event).own;
            && (s'.stopped <==> w.own.stopped || event == Stopped)
            && s'.settings.timeout == (if event.Configured? && !w.own.stopped then event.settings.timeout else w.own.settings.timeout)
            && (s'.settings.enabled <==>
                  if event.Configured? && !w.own.stopped then event.settings.enabled else w.own.settings.enabled && event != Disabled && event != Stopped)
  {
    hide After;
    var w := After(settings, env, events);
    if event.Checked? { var _ := CheckPicks(w.own, w.env, event.threads); }
  }
}
