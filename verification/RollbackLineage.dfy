/**
 * A derived thread and its source over time: rollbacks of either (Rollback), turns persisted
 * while their sessions go on, and refreshes that find the native history longer or shorter.
 * When can the derived thread still be rolled back by fork, and what does that do to it?
 */
module RollbackLineage {
  import opened Prelude
  import opened Rollback

  // How far two lists of turns agree.
  function Common(a: seq<TurnId>, b: seq<TurnId>): (n: nat)
    ensures n <= |a| && n <= |b| && a[..n] == b[..n]
    ensures n < |a| && n < |b| ==> a[n] != b[n]
  {
    if a == [] || b == [] || a[0] != b[0] then 0
    else
      var n := Common(a[1..], b[1..]) + 1;
      assert a[..n] == [a[0]] + a[1..][..n - 1] && b[..n] == [b[0]] + b[1..][..n - 1];
      n
  }

  /**
   * A derived thread and its source in the store. `dropped` and `gained` count the turns the
   * derived thread lost at its end, other than by fork rollbacks, and got there since it was
   * forked; `fewest` is how many of its turns were there all the time. `known` are the host
   * turn ids the two threads ever had, `versions` their records at any time.
   */
  datatype World = World(store: Store, dropped: nat, gained: nat, fewest: nat, known: set<TurnId>, versions: set<Record>)

  // A rollback of either thread, or of any other; a turn of a live session; what a refresh found.
  datatype Event =
    | RolledBack(thread: Thread, source: Option<Thread>, request: Request, answer: Option<Opened>, storable: bool)
    | TurnPersisted(record: Record, update: Mapping, storable: bool)
    | Reconciled(id: ThreadId, mappings: seq<Mapping>, storable: bool)

  // Records are read some time before the rollback commits, so they need not be what is stored by then.
  predicate Read(w: World, derivedId: ThreadId, sourceId: ThreadId, thread: Thread) {
    thread.record.id == derivedId || thread.record.id == sourceId ==> thread.record in w.versions
  }

  predicate Readable(w: World, derivedId: ThreadId, sourceId: ThreadId, event: Event) {
    event.RolledBack? ==>
      && Read(w, derivedId, sourceId, event.thread)
      && (event.source.Some? ==> Read(w, derivedId, sourceId, event.source.value))
  }

  function Outcomes(store: Store, event: Event): Option<Store> {
    match event
    case RolledBack(thread, source, request, answer, storable) =>
      var outcome := RollBack(store, thread, source, request, answer, storable);
      if outcome.Committed? then Some(outcome.store) else None
    case TurnPersisted(record, update, storable) =>
      var stored := PersistTurn(store, record, update, storable);
      if stored.Ok? then Some(stored.value) else None
    case Reconciled(id, mappings, storable) =>
      var stored := ReconcileTurns(store, id, mappings, storable);
      if stored.Ok? then Some(stored.value) else None
  }

  // New host turn ids are random, and stand behind the turns that stay.
  predicate FreshTurns(ids: seq<TurnId>, ids': seq<TurnId>, known: set<TurnId>) {
    forall i :: Common(ids, ids') <= i < |ids'| ==> ids'[i] !in known
  }

  predicate IsForkRollback(event: Event, id: ThreadId) {
    event.RolledBack? && event.thread.record.id == id && !ByLastTurn(event.thread, event.request)
  }

  function Account(w: World, store': Store, derivedId: ThreadId, sourceId: ThreadId, byFork: bool): World
    requires {derivedId, sourceId} <= w.store.Keys && {derivedId, sourceId} <= store'.Keys
  {
    var ids, ids' := HostIds(w.store[derivedId].mappings), HostIds(store'[derivedId].mappings);
    var n := Common(ids, ids');
    World(store',
          w.dropped + if byFork then 0 else |ids| - n,
          w.gained + if byFork then 0 else |ids'| - n,
          if n < w.fewest then n else w.fewest,
          w.known + Elements(ids') + Elements(HostIds(store'[sourceId].mappings)),
          w.versions + {store'[derivedId], store'[sourceId]})
  }

  function Step(w: World, derivedId: ThreadId, sourceId: ThreadId, event: Event): World {
    if !Readable(w, derivedId, sourceId, event) || Outcomes(w.store, event).None? then w
    else
      var store' := Outcomes(w.store, event).value;
      if {derivedId, sourceId} <= w.store.Keys && {derivedId, sourceId} <= store'.Keys
         && FreshTurns(HostIds(w.store[derivedId].mappings), HostIds(store'[derivedId].mappings), w.known)
         && FreshTurns(HostIds(w.store[sourceId].mappings), HostIds(store'[sourceId].mappings), w.known)
      then Account(w, store', derivedId, sourceId, IsForkRollback(event, derivedId))
      else w
  }

  function Begin(store: Store, derivedId: ThreadId, sourceId: ThreadId): World
    requires {derivedId, sourceId} <= store.Keys
  {
    World(store, 0, 0, |store[derivedId].mappings|,
          Elements(HostIds(store[derivedId].mappings)) + Elements(HostIds(store[sourceId].mappings)),
          {store[derivedId], store[sourceId]})
  }

  function Run(store: Store, derivedId: ThreadId, sourceId: ThreadId, events: seq<Event>): World
    requires {derivedId, sourceId} <= store.Keys
  {
    if events == [] then Begin(store, derivedId, sourceId)
    else Step(Run(store, derivedId, sourceId, Front(events)), derivedId, sourceId, Last(events))
  }

  // ---- one write ----------------------------------------------------------------------------------------------

  // What any write makes of a record: nothing, or a valid record of the next revision.
  predicate Develops(before: Record, after: Record) {
    after == before || (after.id == before.id && after.revision == before.revision + 1 && Valid(after))
  }

  ghost predicate Developed(store: Store, store': Store, id: ThreadId) {
    && id in store && id in store' && store[id].id == id
    && Develops(store[id], store'[id])
    && forall other :: other != id ==> (other in store <==> other in store') && (other in store ==> store'[other] == store[other])
  }

  // The stored record after a turn was persisted: its turns stay, and at most the new one joins them.
  lemma PersistedTurn(store: Store, record: Record, update: Mapping, storable: bool)
    requires PersistTurn(store, record, update, storable).Ok?
    ensures var store' := PersistTurn(store, record, update, storable).value;
            && OnlyChanged(store, store', record.id) && Developed(store, store', record.id)
            && store'[record.id].forkSource == store[record.id].forkSource
            && HostIds(store'[record.id].mappings) == HostIds(store[record.id].mappings) +
                 if update.hostTurn in HostIds(store[record.id].mappings) then [] else [update.hostTurn]
  {
    var current := store[record.id].mappings;
    FindTurnExact(current, update.hostTurn);
    hide Valid;
    if FindTurn(current, update.hostTurn).Some? {
      var i := FindTurn(current, update.hostTurn).value;
      assert HostIds(current)[i] == update.hostTurn;
      assert HostIds(Merge(current, update).value) == HostIds(current);
    } else {
      forall turn | turn in HostIds(current) ensures turn != update.hostTurn {
        var i :| 0 <= i < |current| && HostIds(current)[i] == turn;
        assert current[i].hostTurn == turn;
      }
      assert HostIds(current + [update]) == HostIds(current) + [update.hostTurn];
    }
  }

  lemma ReconciledTurns(store: Store, id: ThreadId, mappings: seq<Mapping>, storable: bool)
    requires ReconcileTurns(store, id, mappings, storable).Ok?
    ensures var store' := ReconcileTurns(store, id, mappings, storable).value;
            Developed(store, store', id) && store'[id].mappings == mappings && store'[id].forkSource == store[id].forkSource
  {
    hide Valid;
  }

  lemma CommittedDevelops(store: Store, thread: Thread, source: Option<Thread>, request: Request, answer: Option<Opened>, storable: bool)
    requires RollBack(store, thread, source, request, answer, storable).Committed?
    ensures var id, store' := thread.record.id, RollBack(store, thread, source, request, answer, storable).store;
            && Developed(store, store', id) && HostIds(store'[id].mappings) <= HostIds(store[id].mappings)
            && (ByLastTurn(thread, request) ==> store'[id].forkSource == store[id].forkSource)
  {
    CommittedRollback(store, thread, source, request, answer, storable);
    if ByLastTurn(thread, request) {
      CommittedLastTurn(store, thread.record, answer.value.session.value, answer.value.snapshot.value, storable);
    }
  }

  // Whatever is written, both threads develop, and only a fork rollback changes the fork turn.
  lemma OutcomeDevelops(store: Store, event: Event, id: ThreadId)
    requires Outcomes(store, event).Some? && id in store && store[id].id == id
    ensures var store' := Outcomes(store, event).value;
            && id in store' && Develops(store[id], store'[id])
            && (IsForkRollback(event, id) || store'[id].forkSource == store[id].forkSource)
  {
    match event
    case RolledBack(thread, source, request, answer, storable) =>
      CommittedDevelops(store, thread, source, request, answer, storable);
    case TurnPersisted(record, update, storable) => PersistedTurn(store, record, update, storable);
    case Reconciled(at, mappings, storable) => ReconciledTurns(store, at, mappings, storable);
  }

  // ---- the invariant ------------------------------------------------------------------------------------------

  // The first `fewest` turns are the original ones, and no other turn is.
  ghost predicate Originals(ids: seq<TurnId>, original: seq<TurnId>, fewest: nat, known: set<TurnId>) {
    && fewest <= |ids| && fewest <= |original|
    && ids[..fewest] == original[..fewest]
    && (forall i :: fewest <= i < |ids| ==> ids[i] !in original)
    && (forall turn :: turn in original ==> turn in known)
  }

  // Each turn comes with the turns up to it: they are the same wherever the turn is found.
  ghost predicate Placed(ids: seq<TurnId>, paths: map<TurnId, seq<TurnId>>) {
    forall i :: 0 <= i < |ids| ==> ids[i] in paths && paths[ids[i]] == ids[..i + 1]
  }

  ghost predicate AllPlaced(w: World, sourceId: ThreadId, paths: map<TurnId, seq<TurnId>>) {
    && (forall turn :: turn in paths ==> turn in w.known)
    && (forall record :: record in w.versions && record.id == sourceId ==> Placed(HostIds(record.mappings), paths))
  }

  // A revision names one version of a stored record, and none is newer than what is stored.
  ghost predicate Current(w: World, id: ThreadId) {
    && id in w.store && w.store[id].id == id && w.store[id] in w.versions
    && forall record :: record in w.versions && record.id == id ==>
         record == w.store[id] || record.revision < w.store[id].revision
  }

  // The fork turn is one of the source's turns at the time of the fork, and the length of the thread tells its place.
  ghost predicate Lineage(w: World, derived: Record, sourceId: ThreadId, paths: map<TurnId, seq<TurnId>>, forkedFrom: seq<TurnId>) {
    && derived.forkSource.Some? && derived.forkSource.value.thread == sourceId && derived.forkSource.value.turn in paths
    && paths[derived.forkSource.value.turn] <= forkedFrom
    && |derived.mappings| + w.dropped == |paths[derived.forkSource.value.turn]| + w.gained
  }

  ghost predicate RunInv(
    w: World, derivedId: ThreadId, sourceId: ThreadId, original: seq<TurnId>, forkedFrom: seq<TurnId>, paths: map<TurnId, seq<TurnId>>)
  {
    && derivedId != sourceId && Current(w, derivedId) && Current(w, sourceId)
    && AllPlaced(w, sourceId, paths)
    && Lineage(w, w.store[derivedId], sourceId, paths, forkedFrom)
    && Originals(HostIds(w.store[derivedId].mappings), original, w.fewest, w.known)
    && (w.gained == 0 ==> w.fewest == |w.store[derivedId].mappings|)
  }

  lemma CommonOfPrefix(ids: seq<TurnId>, ids': seq<TurnId>)
    requires ids' <= ids
    ensures Common(ids, ids') == |ids'|
  {
  }

  lemma OriginalsDevelop(ids: seq<TurnId>, ids': seq<TurnId>, original: seq<TurnId>, fewest: nat, known: set<TurnId>, more: set<TurnId>)
    requires Originals(ids, original, fewest, known) && FreshTurns(ids, ids', known)
    ensures Originals(ids', original, if Common(ids, ids') < fewest then Common(ids, ids') else fewest, known + more)
  {
    var n := Common(ids, ids');
    var least := if n < fewest then n else fewest;
    assert ids'[..least] == ids'[..n][..least] == ids[..n][..least] == ids[..fewest][..least] == original[..fewest][..least] == original[..least];
    forall i | least <= i < |ids'| ensures ids'[i] !in original {
      if i < n { assert ids'[i] == ids'[..n][i] == ids[..n][i] == ids[i]; }
    }
  }

  // Paths for a list of turns that continues a placed one with new turns.
  lemma {:induction false} PlaceMore(
    ids: seq<TurnId>, ids': seq<TurnId>, paths: map<TurnId, seq<TurnId>>, known: set<TurnId>) returns (paths': map<TurnId, seq<TurnId>>)
    requires Placed(ids, paths) && FreshTurns(ids, ids', known) && Distinct(ids')
    requires forall turn :: turn in paths ==> turn in known
    ensures Placed(ids', paths')
    ensures forall turn :: turn in paths ==> turn in paths' && paths'[turn] == paths[turn]
    ensures forall turn :: turn in paths' ==> turn in paths || turn in ids'
  {
    var n := Common(ids, ids');
    var more := map i | n <= i < |ids'| :: ids'[i] := ids'[..i + 1];
    paths' := paths + more;
    forall i | 0 <= i < |ids'| ensures ids'[i] in paths' && paths'[ids'[i]] == ids'[..i + 1] {
      if i < n {
        assert ids'[i] == ids'[..n][i] == ids[i] && ids'[..i + 1] == ids'[..n][..i + 1] == ids[..i + 1];
        assert ids'[i] in paths && ids'[i] !in more;
      }
    }
  }

  lemma FoundPlaced(mappings: seq<Mapping>, turn: TurnId, paths: map<TurnId, seq<TurnId>>)
    requires Placed(HostIds(mappings), paths)
    ensures FindTurn(mappings, turn).Some? <==> turn in HostIds(mappings)
    ensures FindTurn(mappings, turn).Some? ==>
              turn in paths && paths[turn] == HostIds(mappings)[..FindTurn(mappings, turn).value + 1]
  {
    FindTurnExact(mappings, turn);
    var ids := HostIds(mappings);
    if FindTurn(mappings, turn).Some? {
      assert ids[FindTurn(mappings, turn).value] == turn;
    } else {
      forall i | 0 <= i < |ids| ensures ids[i] != turn {
        assert ids[i] == mappings[i].hostTurn;
      }
    }
  }

  lemma ValidIsDistinct(record: Record)
    requires Valid(record)
    ensures Distinct(HostIds(record.mappings))
  {
  }

  lemma StillCurrent(w: World, store': Store, derivedId: ThreadId, sourceId: ThreadId, byFork: bool, id: ThreadId)
    requires derivedId != sourceId && (id == derivedId || id == sourceId) && Current(w, derivedId) && Current(w, sourceId)
    requires derivedId in store' && sourceId in store'
    requires Develops(w.store[derivedId], store'[derivedId]) && Develops(w.store[sourceId], store'[sourceId])
    ensures Current(Account(w, store', derivedId, sourceId, byFork), id)
  {
  }

  lemma StillPlaced(w: World, store': Store, derivedId: ThreadId, sourceId: ThreadId, byFork: bool, paths: map<TurnId, seq<TurnId>>)
    returns (paths': map<TurnId, seq<TurnId>>)
    requires derivedId in w.store && derivedId in store' && sourceId in store' && derivedId != sourceId
    requires store'[derivedId].id == derivedId
    requires Current(w, sourceId) && AllPlaced(w, sourceId, paths) && Develops(w.store[sourceId], store'[sourceId])
    requires FreshTurns(HostIds(w.store[sourceId].mappings), HostIds(store'[sourceId].mappings), w.known)
    ensures AllPlaced(Account(w, store', derivedId, sourceId, byFork), sourceId, paths')
    ensures forall turn :: turn in paths ==> turn in paths' && paths'[turn] == paths[turn]
  {
    var ids, ids' := HostIds(w.store[sourceId].mappings), HostIds(store'[sourceId].mappings);
    if store'[sourceId] == w.store[sourceId] {
      paths' := paths;
    } else {
      ValidIsDistinct(store'[sourceId]);
      paths' := PlaceMore(ids, ids', paths, w.known);
    }
    hide HostIds;
    var w' := Account(w, store', derivedId, sourceId, byFork);
    forall record | record in w'.versions && record.id == sourceId ensures Placed(HostIds(record.mappings), paths') {
      if record != store'[sourceId] { assert Placed(HostIds(record.mappings), paths); }
    }
    assert forall turn :: turn in ids' ==> turn in Elements(ids');
  }

  // A write that is no fork rollback of the thread.
  lemma DevelopInv(w: World, store': Store, derivedId: ThreadId, sourceId: ThreadId,
                   original: seq<TurnId>, forkedFrom: seq<TurnId>, paths: map<TurnId, seq<TurnId>>)
    returns (paths': map<TurnId, seq<TurnId>>)
    requires RunInv(w, derivedId, sourceId, original, forkedFrom, paths)
    requires derivedId in store' && sourceId in store'
    requires Develops(w.store[derivedId], store'[derivedId]) && Develops(w.store[sourceId], store'[sourceId])
    requires store'[derivedId].forkSource == w.store[derivedId].forkSource
    requires FreshTurns(HostIds(w.store[derivedId].mappings), HostIds(store'[derivedId].mappings), w.known)
    requires FreshTurns(HostIds(w.store[sourceId].mappings), HostIds(store'[sourceId].mappings), w.known)
    ensures RunInv(Account(w, store', derivedId, sourceId, false), derivedId, sourceId, original, forkedFrom, paths')
  {
    StillCurrent(w, store', derivedId, sourceId, false, derivedId);
    StillCurrent(w, store', derivedId, sourceId, false, sourceId);
    paths' := StillPlaced(w, store', derivedId, sourceId, false, paths);
    var w' := Account(w, store', derivedId, sourceId, false);
    OriginalsDevelop(HostIds(w.store[derivedId].mappings), HostIds(store'[derivedId].mappings), original, w.fewest, w.known,
                     Elements(HostIds(store'[derivedId].mappings)) + Elements(HostIds(store'[sourceId].mappings)));
    assert w.known + Elements(HostIds(store'[derivedId].mappings)) + Elements(HostIds(store'[sourceId].mappings))
        == w.known + (Elements(HostIds(store'[derivedId].mappings)) + Elements(HostIds(store'[sourceId].mappings)));
    hide Current;
    hide AllPlaced;
    hide Originals;
    hide HostIds;
  }

  // A committed fork rollback of the thread: which source it read, and what it left.
  ghost predicate ForkedAgain(w: World, store': Store, derivedId: ThreadId, sourceId: ThreadId, from: Record, snapshot: Snapshot) {
    && derivedId in w.store && derivedId in store' && sourceId in w.store && sourceId in store'
    && from in w.versions && from.id == sourceId && store'[sourceId] == w.store[sourceId]
    && 1 <= |snapshot| < |w.store[derivedId].mappings| <= |from.mappings|
    && Develops(w.store[derivedId], store'[derivedId])
    && store'[derivedId].forkSource == Some(ForkSource(sourceId, from.mappings[|snapshot| - 1].hostTurn))
    && HostIds(store'[derivedId].mappings) == HostIds(w.store[derivedId].mappings)[..|snapshot|]
    && RefersTo(store'[derivedId], snapshot)
  }

  lemma ForkReads(w: World, derivedId: ThreadId, sourceId: ThreadId, event: Event,
                  original: seq<TurnId>, forkedFrom: seq<TurnId>, paths: map<TurnId, seq<TurnId>>)
    requires RunInv(w, derivedId, sourceId, original, forkedFrom, paths)
    requires IsForkRollback(event, derivedId) && Readable(w, derivedId, sourceId, event) && Outcomes(w.store, event).Some?
    ensures event.source.Some? && event.answer.Some? && event.answer.value.snapshot.Some?
    ensures ForkedAgain(w, Outcomes(w.store, event).value, derivedId, sourceId, event.source.value.record, event.answer.value.snapshot.value)
    ensures w.gained == w.dropped
    ensures var turn := w.store[derivedId].forkSource.value.turn;
            turn in paths && paths[turn] == HostIds(event.source.value.record.mappings)[..|w.store[derivedId].mappings|]
  {
    var given, from := event.answer.value, event.source.value.record;
    CommittedFork(w.store, event.thread.record, from, given.session.value, given.snapshot.value, event.storable);
    CommittedDevelops(w.store, event.thread, event.source, event.request, event.answer, event.storable);
    assert event.thread.record == w.store[derivedId];
    FoundPlaced(from.mappings, w.store[derivedId].forkSource.value.turn, paths);
  }

  lemma ForkInv(w: World, store': Store, derivedId: ThreadId, sourceId: ThreadId, from: Record, snapshot: Snapshot,
                original: seq<TurnId>, forkedFrom: seq<TurnId>, paths: map<TurnId, seq<TurnId>>)
    returns (paths': map<TurnId, seq<TurnId>>)
    requires RunInv(w, derivedId, sourceId, original, forkedFrom, paths) && w.gained == w.dropped
    requires ForkedAgain(w, store', derivedId, sourceId, from, snapshot)
    requires paths[w.store[derivedId].forkSource.value.turn] == HostIds(from.mappings)[..|w.store[derivedId].mappings|]
    ensures RunInv(Account(w, store', derivedId, sourceId, true), derivedId, sourceId, original, forkedFrom, paths')
    ensures HostIds(from.mappings)[..|snapshot|] <= forkedFrom
  {
    var ids, ids', fromIds, k := HostIds(w.store[derivedId].mappings), HostIds(store'[derivedId].mappings), HostIds(from.mappings), |snapshot|;
    CommonOfPrefix(ids, ids');
    CommonOfPrefix(HostIds(w.store[sourceId].mappings), HostIds(store'[sourceId].mappings));
    StillCurrent(w, store', derivedId, sourceId, true, derivedId);
    StillCurrent(w, store', derivedId, sourceId, true, sourceId);
    paths' := StillPlaced(w, store', derivedId, sourceId, true, paths);
    var more := Elements(ids') + Elements(HostIds(store'[sourceId].mappings));
    OriginalsDevelop(ids, ids', original, w.fewest, w.known, more);
    assert w.known + Elements(ids') + Elements(HostIds(store'[sourceId].mappings)) == w.known + more;
    assert Placed(fromIds, paths) && fromIds[k - 1] == from.mappings[k - 1].hostTurn;
    assert paths'[fromIds[k - 1]] == fromIds[..k] == fromIds[..|ids|][..k] <= forkedFrom;
    hide Current;
    hide AllPlaced;
    hide Originals;
    hide HostIds;
  }

  lemma StepKeepsInv(w: World, derivedId: ThreadId, sourceId: ThreadId, event: Event,
                     original: seq<TurnId>, forkedFrom: seq<TurnId>, paths: map<TurnId, seq<TurnId>>)
    returns (paths': map<TurnId, seq<TurnId>>)
    requires RunInv(w, derivedId, sourceId, original, forkedFrom, paths)
    ensures RunInv(Step(w, derivedId, sourceId, event), derivedId, sourceId, original, forkedFrom, paths')
  {
    paths' := paths;
    if Step(w, derivedId, sourceId, event) != w {
      var store' := Outcomes(w.store, event).value;
      OutcomeDevelops(w.store, event, derivedId);
      OutcomeDevelops(w.store, event, sourceId);
      if IsForkRollback(event, derivedId) {
        ForkReads(w, derivedId, sourceId, event, original, forkedFrom, paths);
        hide Outcomes;
        hide RunInv;
        paths' := ForkInv(w, store', derivedId, sourceId, event.source.value.record, event.answer.value.snapshot.value, original, forkedFrom, paths);
      } else {
        hide Outcomes;
        paths' := DevelopInv(w, store', derivedId, sourceId, original, forkedFrom, paths);
      }
    }
  }

  // A valid source, and a thread forked from it that could be rolled back by fork.
  ghost predicate ForkDerived(store: Store, derivedId: ThreadId, sourceId: ThreadId) {
    && derivedId != sourceId && derivedId in store && sourceId in store
    && store[derivedId].id == derivedId && store[sourceId].id == sourceId
    && Valid(store[sourceId]) && Capable(store[derivedId], store[sourceId])
  }

  lemma BeginInv(store: Store, derivedId: ThreadId, sourceId: ThreadId) returns (paths: map<TurnId, seq<TurnId>>)
    requires ForkDerived(store, derivedId, sourceId)
    ensures RunInv(Begin(store, derivedId, sourceId), derivedId, sourceId,
                   HostIds(store[derivedId].mappings), HostIds(store[sourceId].mappings), paths)
  {
    var derived, source := store[derivedId], store[sourceId];
    ValidIsDistinct(source);
    paths := PlaceMore([], HostIds(source.mappings), map[], {});
    FoundPlaced(source.mappings, derived.forkSource.value.turn, paths);
    var w := Begin(store, derivedId, sourceId);
    forall record | record in w.versions && record.id == sourceId ensures Placed(HostIds(record.mappings), paths) {
      assert record == source;
    }
    hide HostIds;
    hide FindTurn;
  }

  lemma {:induction false} RunKeepsInv(store: Store, derivedId: ThreadId, sourceId: ThreadId, events: seq<Event>)
    returns (paths: map<TurnId, seq<TurnId>>)
    requires ForkDerived(store, derivedId, sourceId)
    ensures RunInv(Run(store, derivedId, sourceId, events), derivedId, sourceId,
                   HostIds(store[derivedId].mappings), HostIds(store[sourceId].mappings), paths)
  {
    hide RunInv;
    if events == [] {
      paths := BeginInv(store, derivedId, sourceId);
    } else {
      paths := RunKeepsInv(store, derivedId, sourceId, Front(events));
      hide Step;
      paths := StepKeepsInv(Run(store, derivedId, sourceId, Front(events)), derivedId, sourceId, Last(events),
                            HostIds(store[derivedId].mappings), HostIds(store[sourceId].mappings), paths);
    }
  }

  // ---- what becomes of a fork -----------------------------------------------------------------------------------

  /**
   * Over any run of rollbacks, new turns and refreshes of the thread and of its source, with
   * records read at any earlier time: a thread that was rollback-capable is so if and only if
   * its source still has the fork turn and the thread has gained as many turns as it has
   * dropped, because the test for an untouched fork only compares lengths. While it gained
   * none, its host turns are a prefix of the original ones.
   */
  lemma CapableExactlyInBalance(store: Store, derivedId: ThreadId, sourceId: ThreadId, events: seq<Event>)
    requires ForkDerived(store, derivedId, sourceId)
    ensures var w := Run(store, derivedId, sourceId, events);
            && derivedId in w.store && sourceId in w.store && w.store[derivedId].forkSource.Some?
            && (Capable(w.store[derivedId], w.store[sourceId]) <==>
                  w.gained == w.dropped && w.store[derivedId].forkSource.value.turn in HostIds(w.store[sourceId].mappings))
            && (w.gained == 0 ==> HostIds(w.store[derivedId].mappings) <= HostIds(store[derivedId].mappings))
  {
    var paths := RunKeepsInv(store, derivedId, sourceId, events);
    hide Run;
    BalanceDecides(Run(store, derivedId, sourceId, events), derivedId, sourceId,
                   HostIds(store[derivedId].mappings), HostIds(store[sourceId].mappings), paths);
  }

  lemma BalanceDecides(w: World, derivedId: ThreadId, sourceId: ThreadId,
                       original: seq<TurnId>, forkedFrom: seq<TurnId>, paths: map<TurnId, seq<TurnId>>)
    requires RunInv(w, derivedId, sourceId, original, forkedFrom, paths)
    ensures Capable(w.store[derivedId], w.store[sourceId]) <==>
              w.gained == w.dropped && w.store[derivedId].forkSource.value.turn in HostIds(w.store[sourceId].mappings)
    ensures w.gained == 0 ==> HostIds(w.store[derivedId].mappings) <= original
  {
    FoundPlaced(w.store[sourceId].mappings, w.store[derivedId].forkSource.value.turn, paths);
    hide FindTurn;
    var ids := HostIds(w.store[derivedId].mappings);
    if w.gained == 0 { assert ids == ids[..w.fewest] == original[..w.fewest]; }
  }

  /** A turn is the original one at its place if and only if it was there all the time. */
  lemma OriginalTurnsExactly(store: Store, derivedId: ThreadId, sourceId: ThreadId, events: seq<Event>, i: nat)
    requires ForkDerived(store, derivedId, sourceId)
    ensures derivedId in Run(store, derivedId, sourceId, events).store
    ensures var w, original := Run(store, derivedId, sourceId, events), HostIds(store[derivedId].mappings);
            i < |w.store[derivedId].mappings| ==>
              (i < |original| && HostIds(w.store[derivedId].mappings)[i] == original[i] <==> i < w.fewest)
  {
    var _ := RunKeepsInv(store, derivedId, sourceId, events);
    var w, original := Run(store, derivedId, sourceId, events), HostIds(store[derivedId].mappings);
    var ids := HostIds(w.store[derivedId].mappings);
    hide Run;
    if i < w.fewest { assert ids[i] == ids[..w.fewest][i] == original[..w.fewest][i]; }
  }

  /**
   * What a committed fork rollback means. It happens only in balance and keeps it; the turns
   * it copies from the source are those the thread was forked from, whatever the source has
   * become; the kept turns refer to these copies. The kept turns are the ones that were
   * forked from them if and only if no more are kept than were there all the time: else a
   * turn the thread gained since is mapped onto a turn of the source. The thread is
   * rollback-capable again if and only if the source still has the selected turn.
   */
  lemma ForkRollbackMeaning(store: Store, derivedId: ThreadId, sourceId: ThreadId, events: seq<Event>, event: Event)
    requires ForkDerived(store, derivedId, sourceId) && IsForkRollback(event, derivedId)
    requires Readable(Run(store, derivedId, sourceId, events), derivedId, sourceId, event)
    requires Outcomes(Run(store, derivedId, sourceId, events).store, event).Some?
    ensures event.source.Some? && event.answer.Some? && event.answer.value.snapshot.Some?
    ensures var w, from := Run(store, derivedId, sourceId, events), event.source.value.record;
            var w', snapshot := Step(w, derivedId, sourceId, event), event.answer.value.snapshot.value;
            && w.gained == w.dropped && w'.gained == w'.dropped
            && ForkedAgain(w, w'.store, derivedId, sourceId, from, snapshot)
            && HostIds(from.mappings)[..|snapshot|] <= HostIds(store[sourceId].mappings)
            && (HostIds(w'.store[derivedId].mappings) <= HostIds(store[derivedId].mappings) <==> |snapshot| <= w.fewest)
            && (Capable(w'.store[derivedId], w'.store[sourceId]) <==>
                  from.mappings[|snapshot| - 1].hostTurn in HostIds(w.store[sourceId].mappings))
  {
    var original, forkedFrom := HostIds(store[derivedId].mappings), HostIds(store[sourceId].mappings);
    var paths := RunKeepsInv(store, derivedId, sourceId, events);
    var w := Run(store, derivedId, sourceId, events);
    hide Run;
    ForkReads(w, derivedId, sourceId, event, original, forkedFrom, paths);
    var store', from, snapshot := Outcomes(w.store, event).value, event.source.value.record, event.answer.value.snapshot.value;
    hide Outcomes;
    var paths' := ForkInv(w, store', derivedId, sourceId, from, snapshot, original, forkedFrom, paths);
    ForkSteps(w, derivedId, sourceId, event);
    hide Step;
    BalanceDecides(Account(w, store', derivedId, sourceId, true), derivedId, sourceId, original, forkedFrom, paths');
    KeptOriginals(HostIds(w.store[derivedId].mappings), original, w.fewest, w.known, |snapshot|);
  }

  // The guards of a step let every committed fork rollback through.
  lemma ForkSteps(w: World, derivedId: ThreadId, sourceId: ThreadId, event: Event)
    requires IsForkRollback(event, derivedId) && Readable(w, derivedId, sourceId, event) && Outcomes(w.store, event).Some?
    requires derivedId in w.store && sourceId in w.store && derivedId != sourceId
    ensures {derivedId, sourceId} <= Outcomes(w.store, event).value.Keys
    ensures Step(w, derivedId, sourceId, event) == Account(w, Outcomes(w.store, event).value, derivedId, sourceId, true)
  {
    CommittedDevelops(w.store, event.thread, event.source, event.request, event.answer, event.storable);
    var store' := Outcomes(w.store, event).value;
    CommonOfPrefix(HostIds(w.store[derivedId].mappings), HostIds(store'[derivedId].mappings));
    CommonOfPrefix(HostIds(w.store[sourceId].mappings), HostIds(store'[sourceId].mappings));
  }

  lemma KeptOriginals(ids: seq<TurnId>, original: seq<TurnId>, fewest: nat, known: set<TurnId>, k: nat)
    requires Originals(ids, original, fewest, known) && k <= |ids|
    ensures ids[..k] <= original <==> k <= fewest
  {
    if k <= fewest {
      assert ids[..k] == ids[..fewest][..k] == original[..fewest][..k] == original[..k];
    } else {
      assert ids[..k][fewest] == ids[fewest];
      assert ids[..k][fewest] !in original;
    }
  }
}
