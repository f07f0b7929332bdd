/**
 * The guards behind a rollback, each on its own: what the store and the repository of Rollback ask
 * for before they replace a session, persist a turn or take over the turns a refresh found. They hold
 * whoever calls them, also where the rollback request has asked the same before.
 */
module RollbackGuards {
  import opened Prelude
  import opened Rollback
  import opened RollbackExact

  // A native reference of the record's harness and, once it has one, of its session.
  predicate OwnRef(ref: Ref, record: Record) {
    ref.harness == record.harness && (record.session.Some? ==> ref.session == record.session.value.session)
  }

  /** The schema: what a record must be to be stored, whatever wrote it. */
  lemma ValidExactly(record: Record)
    ensures Valid(record) <==>
      && (record.ready ==> record.session.Some?)
      && (record.session.Some? ==> record.session.value.harness == record.harness)
      && (forall i, j :: 0 <= i < j < |record.mappings| ==> record.mappings[i].hostTurn != record.mappings[j].hostTurn)
      && (forall i, j :: 0 <= i < j < |record.mappings| ==> record.mappings[i].native != record.mappings[j].native)
      && (forall i :: 0 <= i < |record.mappings| ==> OwnRef(record.mappings[i].native, record))
      && (forall i :: 0 <= i < |record.mappings| && record.mappings[i].checkpoint.Some? ==> OwnRef(record.mappings[i].checkpoint.value, record))
  {
    forall i | 0 <= i < |record.mappings|
      ensures MappingBelongs(record.mappings[i], record) <==>
        OwnRef(record.mappings[i].native, record) && (record.mappings[i].checkpoint.Some? ==> OwnRef(record.mappings[i].checkpoint.value, record))
    {
    }
  }

  // The stored record is still the one that was read.
  predicate StillStored(store: Store, record: Record) {
    && record.id in store && store[record.id].id == record.id && store[record.id].ready && store[record.id].session.Some?
    && store[record.id].revision == record.revision && store[record.id].session == record.session
  }

  ghost predicate SameTurnsFirst(mappings: seq<Mapping>, current: seq<Mapping>) {
    HostIds(mappings) <= HostIds(current)
  }

  lemma PrefixExactly(mappings: seq<Mapping>, current: seq<Mapping>)
    ensures KeepsPrefix(mappings, current) <==> SameTurnsFirst(mappings, current)
  {
    if SameTurnsFirst(mappings, current) {
      forall i | 0 <= i < |mappings| ensures mappings[i].hostTurn == current[i].hostTurn {
        assert HostIds(mappings)[i] == HostIds(current)[i];
      }
    }
  }

  /**
   * The store takes a shorter session in place of the one that was read exactly if that is still stored,
   * was forked from the same thread, is another native session, and keeps at least one turn and not all.
   */
  lemma ReplacesExactly(store: Store, expected: Record, session: SessionRef, mappings: seq<Mapping>, forkSource: ForkSource, storable: bool)
    ensures var r := ReplaceReadySession(store, expected, session, mappings, forkSource, storable);
            && (r.Ok? <==>
                  && StillStored(store, expected)
                  && var current := store[expected.id];
                     var next := current.(session := Some(session), mappings := mappings, forkSource := Some(forkSource), revision := current.revision + 1);
                     && current.forkSource.Some? && current.forkSource.value.thread == forkSource.thread
                     && current.session.value.session != session.session
                     && 1 <= |mappings| < |current.mappings| && SameTurnsFirst(mappings, current.mappings)
                     && storable && Valid(next))
            && (r.Ok? ==>
                  var current := store[expected.id];
                  r.value == store[expected.id := current.(session := Some(session), mappings := mappings, forkSource := Some(forkSource), revision := current.revision + 1)])
  {
    if expected.id in store { PrefixExactly(mappings, store[expected.id].mappings); }
    hide Valid;
  }

  /** The same for a session with exactly one turn less. */
  lemma ReplacesAfterLastTurnExactly(store: Store, expected: Record, session: SessionRef, mappings: seq<Mapping>, storable: bool)
    ensures var r := ReplaceReadySessionAfterLastTurn(store, expected, session, mappings, storable);
            && (r.Ok? <==>
                  && StillStored(store, expected)
                  && var current := store[expected.id];
                     && |mappings| + 1 == |current.mappings| && SameTurnsFirst(mappings, current.mappings)
                     && storable && Valid(current.(session := Some(session), mappings := mappings, revision := current.revision + 1)))
            && (r.Ok? ==>
                  var current := store[expected.id];
                  r.value == store[expected.id := current.(session := Some(session), mappings := mappings, revision := current.revision + 1)])
  {
    if expected.id in store { PrefixExactly(mappings, store[expected.id].mappings); }
    hide Valid;
  }

  /** What the repository asks of a fork rollback on its own, before the store does. */
  lemma CommitAsksExactly(store: Store, derived: Record, source: Record, session: SessionRef, snapshot: Snapshot, storable: bool)
    ensures var r := CommitForkRollback(store, derived, source, session, snapshot, storable);
            r.Ok? <==>
              && derived.ready && derived.session.Some? && source.ready && source.session.Some?
              && Capable(derived, source) && derived.harness == source.harness
              && 1 <= |snapshot| < |derived.mappings| && |snapshot| <= |source.mappings| && source.mappings[|snapshot| - 1].checkpoint.Some?
              && session.harness == derived.harness
              && session.session != derived.session.value.session && session.session != source.session.value.session
              && (forall turn :: turn in snapshot ==> OfSession(turn, session))
              && ReplaceReadySession(store, derived, session, Renamed(snapshot, derived.mappings),
                                     ForkSource(source.id, source.mappings[|snapshot| - 1].hostTurn), storable).Ok?
  {
    if session.harness == derived.harness { RemapExactly(derived.mappings, derived.harness, session, snapshot); }
    FindTurnInside(source.mappings, derived);
    hide ReplaceReadySession;
    hide Remap;
    hide FindTurn;
  }

  lemma FindTurnInside(mappings: seq<Mapping>, derived: Record)
    ensures derived.forkSource.Some? && FindTurn(mappings, derived.forkSource.value.turn).Some? ==>
              FindTurn(mappings, derived.forkSource.value.turn).value < |mappings|
  {
  }

  /** And of dropping the last turn. */
  lemma CommitLastTurnAsksExactly(store: Store, current: Record, session: SessionRef, snapshot: Snapshot, storable: bool)
    ensures CommitLastTurnRollback(store, current, session, snapshot, storable).Ok? <==>
              && current.ready && current.session.Some? && session.harness == current.harness && |snapshot| + 1 == |current.mappings|
              && (forall turn :: turn in snapshot ==> OfSession(turn, session))
              && ReplaceReadySessionAfterLastTurn(store, current, session, Renamed(snapshot, current.mappings), storable).Ok?
  {
    if session.harness == current.harness { RemapExactly(current.mappings, current.harness, session, snapshot); }
    hide ReplaceReadySessionAfterLastTurn;
    hide Remap;
  }

  // The snapshot's turns under the host ids of the turns at their places.
  function Renamed(snapshot: Snapshot, previous: seq<Mapping>): seq<Mapping> {
    seq(|snapshot|, i requires 0 <= i < |snapshot| =>
      Mapping(if i < |previous| then previous[i].hostTurn else 0, snapshot[i].native, snapshot[i].checkpoint))
  }

  lemma RemapExactly(previous: seq<Mapping>, harness: HarnessId, session: SessionRef, snapshot: Snapshot)
    requires session.harness == harness
    ensures Remap(snapshot, previous, harness, session.session).Ok? <==>
              |snapshot| <= |previous| && forall turn :: turn in snapshot ==> OfSession(turn, session)
    ensures Remap(snapshot, previous, harness, session.session).Ok? ==>
              Remap(snapshot, previous, harness, session.session).value == Renamed(snapshot, previous)
    ensures Remap(snapshot, previous, harness, session.session).Err? ==> Remap(snapshot, previous, harness, session.session).error == NotPersisted
  {
    if turn :| turn in snapshot && !OfSession(turn, session) {
      assert !TurnBelongs(turn, harness, session.session);
    }
    if forall turn :: turn in snapshot ==> OfSession(turn, session) {
      forall turn | turn in snapshot ensures TurnBelongs(turn, harness, session.session) {
        assert OfSession(turn, session);
      }
    }
  }

  // ---- turns that are persisted ----------------------------------------------------------------------------

  // The update's host turn and native turn stand at one place, or neither is known.
  predicate KnownAt(mappings: seq<Mapping>, update: Mapping, i: nat) {
    i < |mappings| && mappings[i].hostTurn == update.hostTurn && mappings[i].native == update.native
  }

  predicate Unknown(mappings: seq<Mapping>, update: Mapping) {
    forall mapping :: mapping in mappings ==> mapping.hostTurn != update.hostTurn && mapping.native != update.native
  }

  lemma {:induction false} FindNativeExact(mappings: seq<Mapping>, native: Ref)
    ensures var found := FindNative(mappings, native);
            && (found.Some? ==> mappings[found.value].native == native && forall i :: 0 <= i < found.value ==> mappings[i].native != native)
            && (found.None? ==> forall i :: 0 <= i < |mappings| ==> mappings[i].native != native)
  {
    if mappings != [] && mappings[0].native != native {
      FindNativeExact(mappings[1..], native);
      assert forall i :: 0 < i < |mappings| ==> mappings[i] == mappings[1..][i - 1];
    }
  }

  lemma Located(mappings: seq<Mapping>, update: Mapping)
    requires OneToOne(mappings)
    ensures FindTurn(mappings, update.hostTurn).None? && FindNative(mappings, update.native).None? <==> Unknown(mappings, update)
    ensures forall i: nat :: KnownAt(mappings, update, i) ==>
              FindTurn(mappings, update.hostTurn) == Some(i) && FindNative(mappings, update.native) == Some(i)
    ensures FindTurn(mappings, update.hostTurn).Some? && FindTurn(mappings, update.hostTurn) == FindNative(mappings, update.native) ==>
              KnownAt(mappings, update, FindTurn(mappings, update.hostTurn).value)
  {
    FindTurnExact(mappings, update.hostTurn);
    FindNativeExact(mappings, update.native);
    if Unknown(mappings, update) {
      assert forall i :: 0 <= i < |mappings| ==> mappings[i] in mappings;
    }
  }

  /**
   * A persisted turn that is unknown goes to the end. A known one may learn its checkpoint, and no more;
   * one whose host turn or native turn is known under another partner, or whose checkpoint differs, is refused.
   */
  lemma MergesExactly(mappings: seq<Mapping>, update: Mapping)
    requires OneToOne(mappings)
    ensures Unknown(mappings, update) ==> Merge(mappings, update) == Ok(mappings + [update])
    ensures forall i: nat :: KnownAt(mappings, update, i) ==>
              var known := mappings[i].checkpoint;
              Merge(mappings, update) ==
                if known.Some? && update.checkpoint.Some? && known != update.checkpoint then Err(NotPersisted)
                else Ok(mappings[i := mappings[i].(checkpoint := if known.Some? then known else update.checkpoint)])
    ensures !Unknown(mappings, update) && (forall i: nat :: !KnownAt(mappings, update, i)) ==> Merge(mappings, update) == Err(NotPersisted)
  {
    Located(mappings, update);
    hide FindTurn;
    hide FindNative;
    hide OneToOne;
    hide Unknown;
  }

  /** A turn is persisted exactly if it belongs to the session it is reported for and the stored record can take it. */
  lemma PersistsExactly(store: Store, record: Record, update: Mapping, storable: bool)
    ensures var r := PersistTurn(store, record, update, storable);
            && (r.Ok? <==>
                  && record.ready && record.session.Some? && OwnRef(update.native, record)
                  && (update.checkpoint.Some? ==> OwnRef(update.checkpoint.value, record))
                  && record.id in store && store[record.id].id == record.id
                  && Merge(store[record.id].mappings, update).Ok? && storable
                  && Valid(store[record.id].(mappings := Merge(store[record.id].mappings, update).value, revision := store[record.id].revision + 1)))
            && (r.Ok? ==> r.value == store[record.id := store[record.id].(mappings := Merge(store[record.id].mappings, update).value,
                                                                         revision := store[record.id].revision + 1)])
  {
    hide Valid;
    hide Merge;
  }

  /** A refresh replaces the turns of a ready thread exactly if it contradicts none that is stored and names none twice. */
  lemma ReconcilesExactly(store: Store, id: ThreadId, mappings: seq<Mapping>, storable: bool)
    requires id in store && OneToOne(store[id].mappings)
    ensures var r := ReconcileTurns(store, id, mappings, storable);
            && (r.Ok? <==>
                  && store[id].id == id && store[id].ready && store[id].session.Some? && OneToOne(mappings)
                  && (forall update :: update in mappings ==> Unknown(store[id].mappings, update) || exists i: nat :: KnownAt(store[id].mappings, update, i))
                  && (mappings == store[id].mappings || (storable && Valid(store[id].(mappings := mappings, revision := store[id].revision + 1)))))
            && (r.Ok? && mappings == store[id].mappings ==> r.value == store)
            && (r.Ok? && mappings != store[id].mappings ==> r.value == store[id := store[id].(mappings := mappings, revision := store[id].revision + 1)])
  {
    forall update ensures Agrees(store[id].mappings, update) <==>
      Unknown(store[id].mappings, update) || exists i: nat :: KnownAt(store[id].mappings, update, i)
    {
      Located(store[id].mappings, update);
    }
    hide Valid;
    hide Agrees;
    hide OneToOne;
    hide Unknown;
  }
}
