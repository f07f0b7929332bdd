/**
 * Rolling back an external thread: packages/host-runtime/src/external-thread-rollback.ts plans
 * it, packages/host-runtime/src/external-thread-repository.ts turns the snapshot of the new
 * native session into turn mappings, and packages/mapping-store/src/mapping-store.ts replaces
 * the stored record in one guarded write. A thread derived by a fork can be rolled back by
 * forking its source again at an earlier turn; some harnesses can instead drop the last turn.
 */
module Rollback {
  import opened Prelude

  type ThreadId = nat
  type TurnId = nat
  type HarnessId = nat
  type SessionId = nat

  datatype SessionRef = SessionRef(harness: HarnessId, session: SessionId)

  // A native turn or checkpoint.
  datatype Ref = Ref(harness: HarnessId, session: SessionId, key: nat)

  datatype Mapping = Mapping(hostTurn: TurnId, native: Ref, checkpoint: Option<Ref>)

  datatype ForkSource = ForkSource(thread: ThreadId, turn: TurnId)

  datatype Record = Record(
    id: ThreadId, revision: nat, harness: HarnessId, ready: bool, session: Option<SessionRef>,
    forkSource: Option<ForkSource>, mappings: seq<Mapping>)

  datatype SnapshotTurn = SnapshotTurn(native: Ref, checkpoint: Option<Ref>)

  type Snapshot = seq<SnapshotTurn>

  type Store = map<ThreadId, Record>

  datatype Error =
    | ActiveTurn | BoundaryUnavailable | NotForkDerived | SourceUnavailable | LineageUnsupported
    | CheckpointUnavailable | SessionUnavailable | OpenFailed | NotDistinct | ReadFailed
    | WrongLength | ConfigurationChanged | NoTurn | NotPersisted

  // ---- records -------------------------------------------------------------------------------

  function HostIds(mappings: seq<Mapping>): (ids: seq<TurnId>)
    ensures |ids| == |mappings|
  {
    Map((mapping: Mapping) => mapping.hostTurn, mappings)
  }

  predicate Belongs(ref: Ref, harness: HarnessId, session: SessionId) {
    ref.harness == harness && ref.session == session
  }

  predicate MappingBelongs(mapping: Mapping, record: Record) {
    && mapping.native.harness == record.harness
    && (mapping.checkpoint.Some? ==> mapping.checkpoint.value.harness == record.harness)
    && (record.session.Some? ==> mapping.native.session == record.session.value.session)
    && (record.session.Some? && mapping.checkpoint.Some? ==> mapping.checkpoint.value.session == record.session.value.session)
  }

  // No host turn and no native turn is mapped twice.
  predicate OneToOne(mappings: seq<Mapping>) {
    forall i, j :: 0 <= i < j < |mappings| ==> mappings[i].hostTurn != mappings[j].hostTurn && mappings[i].native != mappings[j].native
  }

  /** The stored-record schema. */
  predicate Valid(record: Record) {
    && (record.ready ==> record.session.Some?)
    && (record.session.Some? ==> record.session.value.harness == record.harness)
    && OneToOne(record.mappings)
    && (forall mapping :: mapping in record.mappings ==> MappingBelongs(mapping, record))
  }

  function FindTurn(mappings: seq<Mapping>, turn: TurnId): (index: Option<nat>)
    ensures index.Some? ==> index.value < |mappings|
  {
    if mappings == [] then None
    else if mappings[0].hostTurn == turn then Some(0)
    else match FindTurn(mappings[1..], turn)
      case None => None
      case Some(i) => Some(i + 1)
  }

  function FindNative(mappings: seq<Mapping>, native: Ref): (index: Option<nat>)
    ensures index.Some? ==> index.value < |mappings|
    ensures index.None? <==> forall mapping :: mapping in mappings ==> mapping.native != native
  {
    if mappings == [] then None
    else if mappings[0].native == native then Some(0)
    else match FindNative(mappings[1..], native)
      case None => assert mappings == [mappings[0]] + mappings[1..]; None
      case Some(i) => Some(i + 1)
  }

  // ---- the guarded writes -----------------------------------------------------------------------

  predicate KeepsPrefix(mappings: seq<Mapping>, current: seq<Mapping>) {
    |mappings| <= |current| && forall i :: 0 <= i < |mappings| ==> mappings[i].hostTurn == current[i].hostTurn
  }

  /** `#update`: `storable` covers the store-wide checks and the write itself. */
  function Write(store: Store, next: Record, storable: bool): Result<Store, Error> {
    var stored := next.(revision := next.revision + 1);
    if storable && Valid(stored) then Ok(store[next.id := stored]) else Err(NotPersisted)
  }

  predicate ExpectedRecord(store: Store, expected: Record) {
    && expected.id in store
    && store[expected.id].id == expected.id
    && store[expected.id].ready && store[expected.id].session.Some?
    && store[expected.id].revision == expected.revision
    && store[expected.id].session == expected.session
  }

  function ReplaceReadySession(
    store: Store, expected: Record, session: SessionRef, mappings: seq<Mapping>, forkSource: ForkSource, storable: bool): Result<Store, Error>
  {
    if !ExpectedRecord(store, expected) then Err(NotPersisted)
    else
      var current := store[expected.id];
      if current.forkSource.None? || current.forkSource.value.thread != forkSource.thread
         || current.session.value.session == session.session
         || |mappings| < 1 || |mappings| >= |current.mappings| || !KeepsPrefix(mappings, current.mappings)
      then Err(NotPersisted)
      else Write(store, current.(session := Some(session), mappings := mappings, forkSource := Some(forkSource)), storable)
  }

  function ReplaceReadySessionAfterLastTurn(
    store: Store, expected: Record, session: SessionRef, mappings: seq<Mapping>, storable: bool): Result<Store, Error>
  {
    if !ExpectedRecord(store, expected) then Err(NotPersisted)
    else
      var current := store[expected.id];
      if |mappings| != |current.mappings| - 1 || !KeepsPrefix(mappings, current.mappings) then Err(NotPersisted)
      else Write(store, current.(session := Some(session), mappings := mappings), storable)
  }

  // ---- the repository ------------------------------------------------------------------------------

  predicate TurnBelongs(turn: SnapshotTurn, harness: HarnessId, session: SessionId) {
    && Belongs(turn.native, harness, session)
    && (turn.checkpoint.Some? ==> Belongs(turn.checkpoint.value, harness, session))
  }

  /** The new native turns under the host turn ids that were there before. */
  function Remap(snapshot: Snapshot, previous: seq<Mapping>, harness: HarnessId, session: SessionId): Result<seq<Mapping>, Error> {
    if |snapshot| > |previous| || exists turn :: turn in snapshot && !TurnBelongs(turn, harness, session) then Err(NotPersisted)
    else Ok(seq(|snapshot|, i requires 0 <= i < |snapshot| => Mapping(previous[i].hostTurn, snapshot[i].native, snapshot[i].checkpoint)))
  }

  function CommitForkRollback(
    store: Store, derived: Record, source: Record, session: SessionRef, snapshot: Snapshot, storable: bool): Result<Store, Error>
  {
    if !derived.ready || derived.session.None? || !source.ready || source.session.None?
       || derived.forkSource.None? || derived.forkSource.value.thread != source.id || derived.harness != source.harness
    then Err(NotPersisted)
    else
      var boundary := FindTurn(source.mappings, derived.forkSource.value.turn);
      var retained := |snapshot|;
      if boundary.None? || |derived.mappings| != boundary.value + 1 || retained < 1 || retained >= |derived.mappings|
         || retained > |source.mappings| || source.mappings[retained - 1].checkpoint.None?
         || session.harness != derived.harness || session.session == derived.session.value.session
         || session.session == source.session.value.session
      then Err(NotPersisted)
      else
        match Remap(snapshot, derived.mappings, derived.harness, session.session)
        case Err(e) => Err(e)
        case Ok(mappings) =>
          ReplaceReadySession(store, derived, session, mappings, ForkSource(source.id, source.mappings[retained - 1].hostTurn), storable)
  }

  function CommitLastTurnRollback(
    store: Store, current: Record, session: SessionRef, snapshot: Snapshot, storable: bool): Result<Store, Error>
  {
    if !current.ready || current.session.None? || session.harness != current.harness || |snapshot| != |current.mappings| - 1
    then Err(NotPersisted)
    else
      match Remap(snapshot, current.mappings, current.harness, session.session)
      case Err(e) => Err(e)
      case Ok(mappings) => ReplaceReadySessionAfterLastTurn(store, current, session, mappings, storable)
  }

  /** `#mergeMappings` for one turn: a new one goes to the end, a known one may learn its checkpoint. */
  function Merge(current: seq<Mapping>, update: Mapping): Result<seq<Mapping>, Error> {
    var host, native := FindTurn(current, update.hostTurn), FindNative(current, update.native);
    if host.None? && native.None? then Ok(current + [update])
    else if host.None? || host != native then Err(NotPersisted)
    else
      var known := current[host.value];
      if known.checkpoint.Some? && update.checkpoint.Some? && known.checkpoint != update.checkpoint then Err(NotPersisted)
      else Ok(current[host.value := if known.checkpoint.Some? then known else known.(checkpoint := update.checkpoint)])
  }

  /** `persistTurn`: a turn of the live session is added to the stored thread, whatever its revision. */
  function PersistTurn(store: Store, record: Record, update: Mapping, storable: bool): Result<Store, Error> {
    if !record.ready || record.session.None? || !MappingBelongs(update, record)
       || record.id !in store || store[record.id].id != record.id
    then Err(NotPersisted)
    else
      match Merge(store[record.id].mappings, update)
      case Err(e) => Err(e)
      case Ok(mappings) => Write(store, store[record.id].(mappings := mappings), storable)
  }

  // What an alignment says of a turn does not contradict what is stored.
  predicate Agrees(current: seq<Mapping>, update: Mapping) {
    var host, native := FindTurn(current, update.hostTurn), FindNative(current, update.native);
    host.Some? || native.Some? ==> host == native
  }

  /** `reconcileTurnMappings`: the turns a refresh found in the native session replace the stored ones. */
  function ReconcileTurns(store: Store, id: ThreadId, mappings: seq<Mapping>, storable: bool): Result<Store, Error> {
    if id !in store || store[id].id != id || !store[id].ready || store[id].session.None?
       || (exists update :: update in mappings && !Agrees(store[id].mappings, update)) || !OneToOne(mappings)
    then Err(NotPersisted)
    else if mappings == store[id].mappings then Ok(store)
    else Write(store, store[id].(mappings := mappings), storable)
  }

  // ---- the rollback request ----------------------------------------------------------------------------

  // A loaded thread, after its record was refreshed.
  datatype Thread = Thread(
    record: Record, running: bool, cwd: nat, canFork: bool, canForkAcrossCwd: bool, canRollbackLastTurn: bool, hasAdapter: bool)

  datatype Request = Request(numTurns: nat, expectedLastTurn: Option<TurnId>)

  // What the adapter gave back: the new session's identity, its snapshot, whether the configuration was carried over.
  datatype Opened = Opened(session: Option<SessionRef>, snapshot: Option<Snapshot>, configurationKept: bool)

  datatype Outcome = Refused(error: Error) | Unchanged | Committed(store: Store)

  function Persist(result: Result<Store, Error>): Outcome {
    match result
    case Ok(store) => Committed(store)
    case Err(e) => Refused(e)
  }

  /** How many turns stay: a turn the source has begun since counts among those to drop. */
  function RetainedCount(derived: Record, source: Record, sourceRunning: bool, numTurns: nat): int {
    |derived.mappings| - numTurns + if sourceRunning || |source.mappings| > |derived.mappings| then 1 else 0
  }

  function RollBackLastTurn(store: Store, thread: Thread, answer: Option<Opened>, storable: bool): Outcome {
    var record := thread.record;
    if record.mappings == [] then Refused(NoTurn)
    else if record.session.None? || !thread.hasAdapter then Refused(SessionUnavailable)
    else if answer.None? then Refused(OpenFailed)
    else if answer.value.session.None? || answer.value.session.value.harness != record.harness then Refused(OpenFailed)
    else if answer.value.snapshot.None? then Refused(ReadFailed)
    else if |answer.value.snapshot.value| != |record.mappings| - 1 then Refused(WrongLength)
    else if !answer.value.configurationKept then Refused(ConfigurationChanged)
    else Persist(CommitLastTurnRollback(store, record, answer.value.session.value, answer.value.snapshot.value, storable))
  }

  function RollBackByFork(
    store: Store, derived: Thread, source: Option<Thread>, numTurns: nat, answer: Option<Opened>, storable: bool): Outcome
  {
    var record := derived.record;
    if record.forkSource.None? then Refused(NotForkDerived)
    else if source.None? then Refused(SourceUnavailable)
    else
      var from := source.value.record;
      if from.id == record.id || from.harness != record.harness || !source.value.canFork
         || (source.value.cwd != derived.cwd && !source.value.canForkAcrossCwd)
      then Refused(LineageUnsupported)
      else
        var boundary := FindTurn(from.mappings, record.forkSource.value.turn);
        if boundary.None? || |record.mappings| != boundary.value + 1 then Refused(NotForkDerived)
        else
          var retained := RetainedCount(record, from, source.value.running, numTurns);
          if retained == |record.mappings| then Unchanged
          else if retained < 1 || retained > |from.mappings| || from.mappings[retained - 1].checkpoint.None? then Refused(CheckpointUnavailable)
          else if from.session.None? || !source.value.hasAdapter then Refused(SessionUnavailable)
          else if answer.None? then Refused(OpenFailed)
          else if answer.value.session.None? || answer.value.session.value.session == from.session.value.session
                  || (record.session.Some? && answer.value.session.value.session == record.session.value.session)
          then Refused(NotDistinct)
          else if answer.value.snapshot.None? then Refused(ReadFailed)
          else if |answer.value.snapshot.value| != retained then Refused(WrongLength)
          else Persist(CommitForkRollback(store, record, from, answer.value.session.value, answer.value.snapshot.value, storable))
  }

  predicate ByLastTurn(thread: Thread, request: Request) {
    request.numTurns == 1 && thread.canRollbackLastTurn
  }

  /** `executeExternalThreadRollback`. */
  function RollBack(store: Store, thread: Thread, source: Option<Thread>, request: Request, answer: Option<Opened>, storable: bool): Outcome {
    var mappings := thread.record.mappings;
    if thread.running then Refused(ActiveTurn)
    else if request.expectedLastTurn.Some? && (mappings == [] || Last(mappings).hostTurn != request.expectedLastTurn.value)
    then Refused(BoundaryUnavailable)
    else if ByLastTurn(thread, request) then RollBackLastTurn(store, thread, answer, storable)
    else RollBackByFork(store, thread, source, request.numTurns, answer, storable)
  }

  // ---- one rollback -----------------------------------------------------------------------------------------

  // The thread still has exactly the turns up to the one it was forked at.
  predicate Capable(derived: Record, source: Record) {
    && derived.forkSource.Some? && derived.forkSource.value.thread == source.id
    && FindTurn(source.mappings, derived.forkSource.value.turn).Some?
    && |derived.mappings| == FindTurn(source.mappings, derived.forkSource.value.turn).value + 1
  }

  lemma {:induction false} FindTurnExact(mappings: seq<Mapping>, turn: TurnId)
    ensures FindTurn(mappings, turn).Some? ==>
              FindTurn(mappings, turn).value < |mappings| && mappings[FindTurn(mappings, turn).value].hostTurn == turn
    ensures FindTurn(mappings, turn).Some? ==>
              forall i :: 0 <= i < FindTurn(mappings, turn).value ==> mappings[i].hostTurn != turn
    ensures FindTurn(mappings, turn).None? ==> forall i :: 0 <= i < |mappings| ==> mappings[i].hostTurn != turn
  {
    if mappings != [] && mappings[0].hostTurn != turn {
      FindTurnExact(mappings[1..], turn);
      assert forall i :: 0 < i < |mappings| ==> mappings[i] == mappings[1..][i - 1];
    }
  }

  // The first occurrence of a turn that starts nowhere earlier.
  lemma FindTurnAt(mappings: seq<Mapping>, i: nat)
    requires i < |mappings| && forall k :: 0 <= k < i ==> mappings[k].hostTurn != mappings[i].hostTurn
    ensures FindTurn(mappings, mappings[i].hostTurn) == Some(i)
  {
    FindTurnExact(mappings, mappings[i].hostTurn);
  }

  lemma FindTurnGrown(mappings: seq<Mapping>, grown: seq<Mapping>, turn: TurnId)
    requires HostIds(mappings) <= HostIds(grown) && FindTurn(mappings, turn).Some?
    ensures FindTurn(grown, turn) == FindTurn(mappings, turn)
  {
    FindTurnExact(mappings, turn);
    var i := FindTurn(mappings, turn).value;
    forall k | 0 <= k <= i ensures grown[k].hostTurn == mappings[k].hostTurn {
      assert HostIds(grown)[k] == HostIds(mappings)[k];
    }
    FindTurnAt(grown, i);
  }

  // The stored record after a rollback that kept k turns.
  ghost predicate Shortened(before: Record, after: Record, k: nat) {
    && k < |before.mappings|
    && HostIds(after.mappings) == HostIds(before.mappings)[..k]
    && after.id == before.id && after.revision == before.revision + 1
    && after.ready && after.session.Some? && Valid(after)
  }

  // Each kept turn now refers to the snapshot's native turn at its place.
  predicate RefersTo(record: Record, snapshot: Snapshot) {
    && |record.mappings| == |snapshot|
    && forall i :: 0 <= i < |snapshot| ==>
         record.mappings[i].native == snapshot[i].native && record.mappings[i].checkpoint == snapshot[i].checkpoint
  }

  ghost predicate OnlyChanged(store: Store, store': Store, id: ThreadId) {
    id in store && id in store' && forall other :: other != id ==> (other in store <==> other in store') && (other in store ==> store'[other] == store[other])
  }

  lemma CommittedFork(store: Store, derived: Record, source: Record, session: SessionRef, snapshot: Snapshot, storable: bool)
    requires CommitForkRollback(store, derived, source, session, snapshot, storable).Ok?
    ensures var store' := CommitForkRollback(store, derived, source, session, snapshot, storable).value;
            && OnlyChanged(store, store', derived.id) && Shortened(store[derived.id], store'[derived.id], |snapshot|)
            && 1 <= |snapshot| <= |source.mappings|
            && RefersTo(store'[derived.id], snapshot)
            && store'[derived.id].session == Some(session)
            && store'[derived.id].forkSource == Some(ForkSource(source.id, source.mappings[|snapshot| - 1].hostTurn))
            && store[derived.id].revision == derived.revision
  {
  }

  lemma CommittedLastTurn(store: Store, current: Record, session: SessionRef, snapshot: Snapshot, storable: bool)
    requires CommitLastTurnRollback(store, current, session, snapshot, storable).Ok?
    ensures var store' := CommitLastTurnRollback(store, current, session, snapshot, storable).value;
            && OnlyChanged(store, store', current.id)
            && Shortened(store[current.id], store'[current.id], |store[current.id].mappings| - 1)
            && RefersTo(store'[current.id], snapshot)
            && store'[current.id].session == Some(session)
            && store'[current.id].forkSource == store[current.id].forkSource
            && store[current.id].revision == current.revision
  {
  }

  /**
   * A rollback that commits leaves an exact, strictly shorter prefix of the stored host turns
   * and touches no other thread. Dropping the last turn drops exactly one. By fork, the
   * number kept is the asked-for one, at least one turn stays, and the session is new.
   */
  lemma CommittedRollback(store: Store, thread: Thread, source: Option<Thread>, request: Request, answer: Option<Opened>, storable: bool)
    requires RollBack(store, thread, source, request, answer, storable).Committed?
    ensures OnlyChanged(store, RollBack(store, thread, source, request, answer, storable).store, thread.record.id)
    ensures ByLastTurn(thread, request) ==>
              Shortened(store[thread.record.id], RollBack(store, thread, source, request, answer, storable).store[thread.record.id],
                        |store[thread.record.id].mappings| - 1)
    ensures !ByLastTurn(thread, request) ==>
              && source.Some?
              && 1 <= RetainedCount(thread.record, source.value.record, source.value.running, request.numTurns)
              && Shortened(store[thread.record.id], RollBack(store, thread, source, request, answer, storable).store[thread.record.id],
                           RetainedCount(thread.record, source.value.record, source.value.running, request.numTurns))
              && RollBack(store, thread, source, request, answer, storable).store[thread.record.id].session != store[thread.record.id].session
  {
    var given := answer.value;
    if ByLastTurn(thread, request) {
      CommittedLastTurn(store, thread.record, given.session.value, given.snapshot.value, storable);
    } else {
      CommittedFork(store, thread.record, source.value.record, given.session.value, given.snapshot.value, storable);
    }
  }

  /**
   * Lineage: a committed fork rollback re-establishes that the thread has exactly the turns
   * up to its fork turn if and only if the selected source turn has no earlier duplicate.
   */
  lemma ForkRollbackLineage(store: Store, derived: Record, source: Record, session: SessionRef, snapshot: Snapshot, storable: bool)
    requires CommitForkRollback(store, derived, source, session, snapshot, storable).Ok?
    ensures 1 <= |snapshot| <= |source.mappings|
    ensures Capable(CommitForkRollback(store, derived, source, session, snapshot, storable).value[derived.id], source)
      <==> source.mappings[|snapshot| - 1].hostTurn !in HostIds(source.mappings[..|snapshot| - 1])
  {
    CommittedFork(store, derived, source, session, snapshot, storable);
    var k := |snapshot| - 1;
    var turn := source.mappings[k].hostTurn;
    FindTurnExact(source.mappings, turn);
    assert forall i :: 0 <= i < k ==> HostIds(source.mappings[..k])[i] == source.mappings[i].hostTurn;
    if turn !in HostIds(source.mappings[..k]) {
      forall i | 0 <= i < k ensures source.mappings[i].hostTurn != turn {
        assert HostIds(source.mappings[..k])[i] in HostIds(source.mappings[..k]);
      }
      FindTurnAt(source.mappings, k);
    } else {
      var i :| 0 <= i < k && HostIds(source.mappings[..k])[i] == turn;
      assert source.mappings[i].hostTurn == turn;
      assert FindTurn(source.mappings, turn).value <= i;
    }
  }

  /** The schema makes turn ids unique, so for a valid source record the lineage always holds again. */
  lemma ValidSourceKeepsLineage(store: Store, derived: Record, source: Record, session: SessionRef, snapshot: Snapshot, storable: bool)
    requires Valid(source) && CommitForkRollback(store, derived, source, session, snapshot, storable).Ok?
    ensures Capable(CommitForkRollback(store, derived, source, session, snapshot, storable).value[derived.id], source)
  {
    CommittedFork(store, derived, source, session, snapshot, storable);
    FindTurnAt(source.mappings, |snapshot| - 1);
  }

  /** Without that lineage a fork rollback is refused, whatever the adapter would have answered. */
  lemma IncapableIsRefused(store: Store, derived: Thread, source: Thread, numTurns: nat, answer: Option<Opened>, storable: bool)
    requires derived.record.forkSource.Some? ==> derived.record.forkSource.value.thread == source.record.id
    ensures !Capable(derived.record, source.record) ==> RollBackByFork(store, derived, Some(source), numTurns, answer, storable).Refused?
  {
  }
}
