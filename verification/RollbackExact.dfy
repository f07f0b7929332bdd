/**
 * When a rollback (Rollback) goes through, and why it does not. The conditions are told from what
 * is stored and what the adapter answered; the record a rollback works on is the stored one.
 */
module RollbackExact {
  import opened Prelude
  import opened Rollback

  // The thread was read as it is stored.
  ghost predicate Fresh(store: Store, record: Record) {
    record.id in store && store[record.id] == record && Valid(record)
  }

  // A new session of the harness with n distinct turns of its own.
  ghost predicate Delivers(given: Opened, harness: HarnessId, n: int) {
    && given.session.Some? && given.session.value.harness == harness
    && given.snapshot.Some? && |given.snapshot.value| == n
    && (forall turn :: turn in given.snapshot.value ==> OfSession(turn, given.session.value))
    && (forall i, j :: 0 <= i < j < n ==> given.snapshot.value[i].native != given.snapshot.value[j].native)
  }

  predicate OfSession(turn: SnapshotTurn, session: SessionRef) {
    && turn.native.harness == session.harness && turn.native.session == session.session
    && (turn.checkpoint.Some? ==> turn.checkpoint.value.harness == session.harness && turn.checkpoint.value.session == session.session)
  }

  // The records kept under their host ids are valid as soon as the native turns are.
  lemma ReplacedIsValid(record: Record, given: Opened, n: nat, mappings: seq<Mapping>, next: Record)
    requires Valid(record) && n <= |record.mappings| && given.session.Some? && given.snapshot.Some?
    requires given.session.value.harness == record.harness && |given.snapshot.value| == n
    requires Remap(given.snapshot.value, record.mappings, record.harness, given.session.value.session) == Ok(mappings)
    requires next.mappings == mappings && next.session == given.session && next.harness == record.harness
    ensures Valid(next) <==> Delivers(given, record.harness, n)
    ensures KeepsPrefix(mappings, record.mappings) && |mappings| == n
  {
    var snapshot := given.snapshot.value;
    assert forall i :: 0 <= i < n ==> mappings[i].hostTurn == record.mappings[i].hostTurn && mappings[i].native == snapshot[i].native;
    forall turn | turn in snapshot ensures OfSession(turn, given.session.value) {
      assert TurnBelongs(turn, record.harness, given.session.value.session);
    }
    forall mapping | mapping in mappings ensures MappingBelongs(mapping, next) {
      var i :| 0 <= i < n && mappings[i] == mapping;
      assert snapshot[i] in snapshot && TurnBelongs(snapshot[i], record.harness, given.session.value.session);
    }
    if Valid(next) {
      forall i, j | 0 <= i < j < n ensures snapshot[i].native != snapshot[j].native {
        assert mappings[i].native != mappings[j].native;
      }
    }
  }

  lemma RemapsExactly(record: Record, given: Opened)
    requires given.session.Some? && given.snapshot.Some? && given.session.value.harness == record.harness
    ensures Remap(given.snapshot.value, record.mappings, record.harness, given.session.value.session).Ok? <==>
              |given.snapshot.value| <= |record.mappings| && forall turn :: turn in given.snapshot.value ==> OfSession(turn, given.session.value)
  {
    var snapshot := given.snapshot.value;
    if turn :| turn in snapshot && !OfSession(turn, given.session.value) {
      assert !TurnBelongs(turn, record.harness, given.session.value.session);
    }
    if forall turn :: turn in snapshot ==> OfSession(turn, given.session.value) {
      forall turn | turn in snapshot ensures TurnBelongs(turn, record.harness, given.session.value.session) {
        assert OfSession(turn, given.session.value);
      }
    }
  }

  // ---- dropping the last turn ---------------------------------------------------------------------

  // The thread is at rest and its newest turn is the expected one.
  predicate Boundary(thread: Thread, request: Request) {
    && !thread.running
    && (request.expectedLastTurn.Some? ==>
          thread.record.mappings != [] && Last(thread.record.mappings).hostTurn == request.expectedLastTurn.value)
  }

  /**
   * Dropping the last turn goes through exactly if the thread is at rest at the expected turn, has
   * one, and its harness opens a session with one turn less under the same configuration.
   */
  lemma LastTurnCommitsExactly(store: Store, thread: Thread, source: Option<Thread>, request: Request, answer: Option<Opened>, storable: bool)
    requires Fresh(store, thread.record) && request.numTurns == 1 && thread.canRollbackLastTurn
    ensures RollBack(store, thread, source, request, answer, storable).Committed? <==>
              && Boundary(thread, request) && thread.record.mappings != []
              && thread.record.ready && thread.hasAdapter
              && answer.Some? && Delivers(answer.value, thread.record.harness, |thread.record.mappings| - 1) && answer.value.configurationKept
              && storable
  {
    var record := thread.record;
    if Boundary(thread, request) && record.mappings != [] && record.session.Some? && answer.Some?
       && answer.value.session.Some? && answer.value.snapshot.Some? && answer.value.session.value.harness == record.harness
    {
      var given := answer.value;
      RemapsExactly(record, given);
      var remapped := Remap(given.snapshot.value, record.mappings, record.harness, given.session.value.session);
      if remapped.Ok? && |given.snapshot.value| == |record.mappings| - 1 {
        ReplacedIsValid(record, given, |record.mappings| - 1, remapped.value,
                        record.(session := given.session, mappings := remapped.value, revision := record.revision + 1));
      }
      hide Remap;
      hide Valid;
    }
  }

  // ---- forking again ---------------------------------------------------------------------------------

  // The source may be forked for this thread.
  predicate MayFork(derived: Thread, source: Thread) {
    && source.record.id != derived.record.id && source.record.harness == derived.record.harness
    && source.canFork && (source.cwd == derived.cwd || source.canForkAcrossCwd)
  }

  // How many turns a rollback by n leaves. A turn the source has begun since counts among the n.
  predicate Leaves(derived: Thread, source: Thread, numTurns: nat, k: int) {
    if source.running || |source.record.mappings| > |derived.record.mappings|
    then |derived.record.mappings| - k == numTurns - 1
    else |derived.record.mappings| - k == numTurns
  }

  /**
   * A rollback by fork goes through exactly if the thread has just the turns up to its fork turn,
   * the turn that is to be its last has a checkpoint in the source, at least one turn and fewer than
   * all stay, and the harness forks a session of its own with that many turns.
   */
  lemma ForkCommitsExactly(store: Store, derived: Thread, source: Thread, request: Request, answer: Option<Opened>, storable: bool, k: int)
    requires Fresh(store, derived.record) && Valid(source.record) && Leaves(derived, source, request.numTurns, k)
    requires request.numTurns != 1 || !derived.canRollbackLastTurn
    ensures RollBack(store, derived, Some(source), request, answer, storable).Committed? <==>
              && Boundary(derived, request) && MayFork(derived, source) && source.hasAdapter
              && derived.record.ready && source.record.ready && Capable(derived.record, source.record)
              && 1 <= k < |derived.record.mappings|
              && source.record.mappings[k - 1].checkpoint.Some?
              && answer.Some? && Delivers(answer.value, derived.record.harness, k)
              && answer.value.session.value.session != derived.record.session.value.session
              && answer.value.session.value.session != source.record.session.value.session
              && storable
  {
    var record := derived.record;
    assert RetainedCount(record, source.record, source.running, request.numTurns) == k;
    if answer.Some? && answer.value.session.Some? && answer.value.snapshot.Some? && answer.value.session.value.harness == record.harness
       && 1 <= k < |record.mappings| && |source.record.mappings| >= k
    {
      var given := answer.value;
      RemapsExactly(record, given);
      var remapped := Remap(given.snapshot.value, record.mappings, record.harness, given.session.value.session);
      if remapped.Ok? && |given.snapshot.value| == k {
        ReplacedIsValid(record, given, k, remapped.value,
                        record.(session := given.session, mappings := remapped.value, revision := record.revision + 1,
                                forkSource := Some(ForkSource(source.record.id, source.record.mappings[k - 1].hostTurn))));
      }
    }
    hide Remap;
    hide Valid;
    hide FindTurn;
    hide RetainedCount;
  }

  /** Nothing is to be done exactly if such a rollback, once it may be planned, leaves every turn. */
  lemma UnchangedExactly(store: Store, derived: Thread, source: Thread, request: Request, answer: Option<Opened>, storable: bool, k: int)
    requires Leaves(derived, source, request.numTurns, k)
    requires request.numTurns != 1 || !derived.canRollbackLastTurn
    requires derived.record.forkSource.Some? ==> derived.record.forkSource.value.thread == source.record.id
    ensures RollBack(store, derived, Some(source), request, answer, storable).Unchanged? <==>
              Boundary(derived, request) && MayFork(derived, source) && Capable(derived.record, source.record) && k == |derived.record.mappings|
  {
    assert RetainedCount(derived.record, source.record, source.running, request.numTurns) == k;
    hide CommitForkRollback;
    hide RetainedCount;
  }

  // ---- refusals ---------------------------------------------------------------------------------------

  // What a refusal says is so.
  ghost predicate Holds(error: Error, thread: Thread, source: Option<Thread>, request: Request, answer: Option<Opened>) {
    var record, byLastTurn := thread.record, request.numTurns == 1 && thread.canRollbackLastTurn;
    match error
    case ActiveTurn => thread.running
    case BoundaryUnavailable => !thread.running && !Boundary(thread, request)
    case NoTurn => byLastTurn && record.mappings == []
    case NotForkDerived => !byLastTurn && (record.forkSource.None? || (source.Some? && !HasItsTurns(record, source.value.record)))
    case SourceUnavailable => !byLastTurn && record.forkSource.Some? && source.None?
    case LineageUnsupported => !byLastTurn && source.Some? && !MayFork(thread, source.value)
    case CheckpointUnavailable =>
      !byLastTurn && source.Some? && forall k: nat :: Leaves(thread, source.value, request.numTurns, k) && 1 <= k <= |source.value.record.mappings| ==>
        source.value.record.mappings[k - 1].checkpoint.None?
    case SessionUnavailable =>
      if byLastTurn then record.session.None? || !thread.hasAdapter else source.Some? && (source.value.record.session.None? || !source.value.hasAdapter)
    case OpenFailed =>
      answer.None? || (byLastTurn && (answer.value.session.None? || answer.value.session.value.harness != record.harness))
    case NotDistinct =>
      && !byLastTurn && answer.Some? && source.Some?
      && (answer.value.session.None? || SameSession(answer.value.session, source.value.record.session) || SameSession(answer.value.session, record.session))
    case ReadFailed => answer.Some? && answer.value.snapshot.None?
    case WrongLength =>
      && answer.Some? && answer.value.snapshot.Some?
      && if byLastTurn then |answer.value.snapshot.value| != |record.mappings| - 1
         else source.Some? && !Leaves(thread, source.value, request.numTurns, |answer.value.snapshot.value|)
    case ConfigurationChanged => byLastTurn && answer.Some? && !answer.value.configurationKept
    case NotPersisted => answer.Some? && answer.value.session.Some? && answer.value.snapshot.Some?
  }

  predicate SameSession(a: Option<SessionRef>, b: Option<SessionRef>) {
    a.Some? && b.Some? && a.value.session == b.value.session
  }

  // The fork turn is the source's turn at the thread's own length, and none before it.
  ghost predicate HasItsTurns(record: Record, source: Record) {
    && record.forkSource.Some?
    && 0 < |record.mappings| <= |source.mappings|
    && source.mappings[|record.mappings| - 1].hostTurn == record.forkSource.value.turn
    && forall i :: 0 <= i < |record.mappings| - 1 ==> source.mappings[i].hostTurn != record.forkSource.value.turn
  }

  lemma LastTurnRefusedForAReason(store: Store, thread: Thread, source: Option<Thread>, request: Request, answer: Option<Opened>, storable: bool)
    requires ByLastTurn(thread, request) && RollBackLastTurn(store, thread, answer, storable).Refused?
    ensures Holds(RollBackLastTurn(store, thread, answer, storable).error, thread, source, request, answer)
  {
    CommitRefuses(store, thread, source, answer, storable);
    hide CommitForkRollback;
    hide CommitLastTurnRollback;
  }

  lemma ForkRefusedForAReason(store: Store, thread: Thread, source: Option<Thread>, request: Request, answer: Option<Opened>, storable: bool)
    requires !ByLastTurn(thread, request) && RollBackByFork(store, thread, source, request.numTurns, answer, storable).Refused?
    ensures Holds(RollBackByFork(store, thread, source, request.numTurns, answer, storable).error, thread, source, request, answer)
  {
    if thread.record.forkSource.Some? && source.Some? {
      TurnsFound(thread.record, source.value.record);
      if MayFork(thread, source.value) && HasItsTurns(thread.record, source.value.record) {
        OpenRefusedForAReason(store, thread, source.value, request, answer, storable);
      } else {
        PlanRefusedForAReason(store, thread, source.value, request, answer, storable);
      }
    }
    hide RollBackByFork;
    hide Holds;
    if thread.record.forkSource.None? || source.None? { NoSourceRefused(store, thread, source, request, answer, storable); }
  }

  lemma NoSourceRefused(store: Store, thread: Thread, source: Option<Thread>, request: Request, answer: Option<Opened>, storable: bool)
    requires !ByLastTurn(thread, request) && (thread.record.forkSource.None? || source.None?)
    ensures var outcome := RollBackByFork(store, thread, source, request.numTurns, answer, storable);
            outcome.Refused? && Holds(outcome.error, thread, source, request, answer)
  {
    hide CommitForkRollback;
    hide FindTurn;
    hide HasItsTurns;
  }

  lemma PlanRefusedForAReason(store: Store, thread: Thread, source: Thread, request: Request, answer: Option<Opened>, storable: bool)
    requires !ByLastTurn(thread, request) && thread.record.forkSource.Some?
    requires !MayFork(thread, source) || !HasItsTurns(thread.record, source.record)
    ensures var outcome := RollBackByFork(store, thread, Some(source), request.numTurns, answer, storable);
            outcome.Refused? && Holds(outcome.error, thread, Some(source), request, answer)
  {
    TurnsFound(thread.record, source.record);
    hide CommitForkRollback;
    hide FindTurn;
    hide HasItsTurns;
    hide RetainedCount;
    hide Leaves;
  }

  lemma OpenRefusedForAReason(store: Store, thread: Thread, source: Thread, request: Request, answer: Option<Opened>, storable: bool)
    requires !ByLastTurn(thread, request) && MayFork(thread, source) && HasItsTurns(thread.record, source.record)
    requires RollBackByFork(store, thread, Some(source), request.numTurns, answer, storable).Refused?
    ensures Holds(RollBackByFork(store, thread, Some(source), request.numTurns, answer, storable).error, thread, Some(source), request, answer)
  {
    CommitRefuses(store, thread, Some(source), answer, storable);
    LeavesRetained(thread, source, request.numTurns);
    TurnsFound(thread.record, source.record);
    hide CommitForkRollback;
    hide FindTurn;
    hide RetainedCount;
    hide Leaves;
  }

  lemma LeavesRetained(derived: Thread, source: Thread, numTurns: nat)
    ensures forall k: int :: Leaves(derived, source, numTurns, k) <==> k == RetainedCount(derived.record, source.record, source.running, numTurns)
  {
  }

  lemma TurnsFound(record: Record, source: Record)
    requires record.forkSource.Some?
    ensures HasItsTurns(record, source) ==>
              FindTurn(source.mappings, record.forkSource.value.turn) == Some(|record.mappings| - 1)
    ensures FindTurn(source.mappings, record.forkSource.value.turn) == Some(|record.mappings| - 1) ==> HasItsTurns(record, source)
  {
    FindTurnExact(source.mappings, record.forkSource.value.turn);
    if HasItsTurns(record, source) { FindTurnAt(source.mappings, |record.mappings| - 1); }
  }

  /** No rollback is refused for a reason that does not hold. */
  lemma RefusedForAReason(store: Store, thread: Thread, source: Option<Thread>, request: Request, answer: Option<Opened>, storable: bool)
    requires RollBack(store, thread, source, request, answer, storable).Refused?
    ensures Holds(RollBack(store, thread, source, request, answer, storable).error, thread, source, request, answer)
  {
    hide RollBackLastTurn;
    hide RollBackByFork;
    hide Leaves;
    hide HasItsTurns;
    if Boundary(thread, request) {
      if ByLastTurn(thread, request) { LastTurnRefusedForAReason(store, thread, source, request, answer, storable); }
      else { ForkRefusedForAReason(store, thread, source, request, answer, storable); }
    }
  }

  // The commits refuse in one way only.
  lemma CommitRefuses(store: Store, thread: Thread, source: Option<Thread>, answer: Option<Opened>, storable: bool)
    ensures answer.Some? && answer.value.session.Some? && answer.value.snapshot.Some? ==>
              && (var r := CommitLastTurnRollback(store, thread.record, answer.value.session.value, answer.value.snapshot.value, storable);
                  r.Err? ==> r.error == NotPersisted)
              && (source.Some? ==>
                    var r := CommitForkRollback(store, thread.record, source.value.record, answer.value.session.value, answer.value.snapshot.value, storable);
                    r.Err? ==> r.error == NotPersisted)
  {
    hide Valid;
  }
}
