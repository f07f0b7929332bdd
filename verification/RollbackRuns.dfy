/**
 * Runs of RollbackLineage that exist: a derived thread and a source that lose turns and go on,
 * and what becomes of the lineage.
 */
module RollbackRuns {
  import opened Prelude
  import opened Rollback
  import opened RollbackLineage

  // Thread 1, with turns that can be forked at.
  function Source(revision: nat, session: SessionId, turns: seq<TurnId>): Record {
    Record(1, revision, 0, true, Some(SessionRef(0, session)), None,
           seq(|turns|, i requires 0 <= i < |turns| => Mapping(turns[i], Ref(0, session, i + 1), Some(Ref(0, session, i + 11)))))
  }

  // Thread 2, forked from it at a turn.
  function Forked(revision: nat, session: SessionId, turns: seq<TurnId>, at: TurnId): Record {
    Record(2, revision, 0, true, Some(SessionRef(0, session)), Some(ForkSource(1, at)),
           seq(|turns|, i requires 0 <= i < |turns| => Mapping(turns[i], Ref(0, session, i + 1), Some(Ref(0, session, i + 11)))))
  }

  // An adapter's answer: a new session with so many turns.
  function Answer(session: SessionId, n: nat): Option<Opened> {
    Some(Opened(Some(SessionRef(0, session)),
                Some(seq(n, i requires 0 <= i < n => SnapshotTurn(Ref(0, session, i + 1), Some(Ref(0, session, i + 11))))), true))
  }

  function AtRest(record: Record): Thread {
    Thread(record, false, 0, true, false, true, true)
  }

  function DropLast(record: Record, session: SessionId): Event {
    RolledBack(AtRest(record), None, Request(1, None), Answer(session, if record.mappings == [] then 0 else |record.mappings| - 1), true)
  }

  lemma RecordsAreValid(revision: nat, session: SessionId, turns: seq<TurnId>, at: TurnId)
    requires Distinct(turns)
    ensures Valid(Forked(revision, session, turns, at)) && HostIds(Forked(revision, session, turns, at).mappings) == turns
    ensures Valid(Source(revision, session, turns)) && HostIds(Source(revision, session, turns).mappings) == turns
  {
  }

  lemma Remapped(revision: nat, session: SessionId, next: SessionId, turns: seq<TurnId>, n: nat)
    requires n <= |turns|
    ensures Remap(Answer(next, n).value.snapshot.value, Source(revision, session, turns).mappings, 0, next)
         == Ok(Source(revision + 1, next, turns[..n]).mappings)
  {
    var snapshot := Answer(next, n).value.snapshot.value;
    assert forall turn :: turn in snapshot ==> TurnBelongs(turn, 0, next);
    var remapped := Remap(snapshot, Source(revision, session, turns).mappings, 0, next);
    assert remapped.Ok? && remapped.value == Source(revision + 1, next, turns[..n]).mappings;
  }

  // Where a run stands; host turn ids from `next` on are new.
  ghost predicate At(w: World, derived: Record, source: Record, dropped: nat, gained: nat, fewest: nat, next: TurnId) {
    && w.store == map[1 := source, 2 := derived]
    && derived in w.versions && source in w.versions
    && w.dropped == dropped && w.gained == gained && w.fewest == fewest
    && AllBelow(w.known, next) && IdsBelow(derived, next) && IdsBelow(source, next)
  }

  ghost predicate AllBelow(known: set<TurnId>, next: TurnId) {
    forall turn :: turn in known ==> turn < next
  }

  ghost predicate IdsBelow(record: Record, next: TurnId) {
    forall turn :: turn in HostIds(record.mappings) ==> turn < next
  }

  // Turns that stay, and at most one new turn behind them.
  lemma StaysFresh(ids: seq<TurnId>, ids': seq<TurnId>, known: set<TurnId>)
    requires ids' <= ids || (|ids'| == |ids| + 1 && ids <= ids' && Last(ids') !in known)
    ensures FreshTurns(ids, ids', known) && Common(ids, ids') == if |ids'| <= |ids| then |ids'| else |ids|
  {
    if ids' <= ids { CommonOfPrefix(ids, ids'); } else { assert ids == ids'[..|ids|]; }
  }

  lemma BelowCut(before: Record, after: Record, next: TurnId)
    requires IdsBelow(before, next) && HostIds(after.mappings) <= HostIds(before.mappings)
    ensures IdsBelow(after, next)
  {
    var ids, ids' := HostIds(before.mappings), HostIds(after.mappings);
    forall turn | turn in ids' ensures turn < next {
      var i :| 0 <= i < |ids'| && ids'[i] == turn;
      assert ids[i] == turn && turn in ids;
    }
  }

  lemma Accounted(w: World, event: Event, store': Store)
    requires Readable(w, 2, 1, event) && Outcomes(w.store, event) == Some(store')
    requires {2, 1} <= w.store.Keys && {2, 1} <= store'.Keys
    requires FreshTurns(HostIds(w.store[2].mappings), HostIds(store'[2].mappings), w.known)
    requires FreshTurns(HostIds(w.store[1].mappings), HostIds(store'[1].mappings), w.known)
    ensures Step(w, 2, 1, event) == Account(w, store', 2, 1, IsForkRollback(event, 2))
  {
  }

  // A write to the derived thread that keeps n of its turns.
  lemma DerivedStep(w: World, event: Event, derived: Record, derived': Record, source: Record,
                    dropped: nat, gained: nat, fewest: nat, next: TurnId, n: nat, next': TurnId)
    requires At(w, derived, source, dropped, gained, fewest, next) && next <= next' && Readable(w, 2, 1, event)
    requires Outcomes(w.store, event) == Some(w.store[2 := derived']) && IdsBelow(derived', next')
    requires FreshTurns(HostIds(derived.mappings), HostIds(derived'.mappings), w.known)
    requires Common(HostIds(derived.mappings), HostIds(derived'.mappings)) == n
    ensures var fork := IsForkRollback(event, 2);
            At(Step(w, 2, 1, event), derived', source,
               dropped + if fork then 0 else |derived.mappings| - n, gained + if fork then 0 else |derived'.mappings| - n,
               if n < fewest then n else fewest, next')
    ensures w.versions <= Step(w, 2, 1, event).versions
  {
    StaysFresh(HostIds(source.mappings), HostIds(source.mappings), w.known);
    Accounted(w, event, w.store[2 := derived']);
    hide Outcomes;
    hide HostIds;
    hide Common;
    hide Readable;
    hide FreshTurns;
    hide IsForkRollback;
    hide Step;
  }

  // A write to the source that drops turns of it.
  lemma SourceStep(w: World, event: Event, derived: Record, source: Record, source': Record,
                   dropped: nat, gained: nat, fewest: nat, next: TurnId)
    requires At(w, derived, source, dropped, gained, fewest, next) && Readable(w, 2, 1, event) && fewest <= |derived.mappings|
    requires Outcomes(w.store, event) == Some(w.store[1 := source']) && HostIds(source'.mappings) <= HostIds(source.mappings)
    ensures At(Step(w, 2, 1, event), derived, source', dropped, gained, fewest, next) && w.versions <= Step(w, 2, 1, event).versions
  {
    StaysFresh(HostIds(source.mappings), HostIds(source'.mappings), w.known);
    StaysFresh(HostIds(derived.mappings), HostIds(derived.mappings), w.known);
    BelowCut(source, source', next);
    Accounted(w, event, w.store[1 := source']);
    hide Outcomes;
    hide HostIds;
    hide Common;
    hide Readable;
    hide FreshTurns;
    hide IsForkRollback;
    hide Step;
  }

  lemma DropStep(w: World, revision: nat, session: SessionId, next: SessionId, turns: seq<TurnId>, at: TurnId, source: Record,
                 dropped: nat, gained: nat, fewest: nat, bound: TurnId)
    requires At(w, Forked(revision, session, turns, at), source, dropped, gained, fewest, bound) && turns != [] && Distinct(turns)
    ensures At(Step(w, 2, 1, DropLast(Forked(revision, session, turns, at), next)),
               Forked(revision + 1, next, Front(turns), at), source, dropped + 1, gained, if |turns| - 1 < fewest then |turns| - 1 else fewest, bound)
  {
    var derived, event := Forked(revision, session, turns, at), DropLast(Forked(revision, session, turns, at), next);
    var after := Forked(revision + 1, next, Front(turns), at);
    Remapped(revision, session, next, turns, |turns| - 1);
    RecordsAreValid(revision, session, turns, at);
    RecordsAreValid(revision + 1, next, Front(turns), at);
    StaysFresh(turns, Front(turns), w.known);
    hide Remap;
    hide Valid;
    hide HostIds;
    hide Distinct;
    assert RollBack(w.store, event.thread, None, event.request, event.answer, true) == Committed(w.store[2 := after]);
    hide RollBack;
    BelowCut(derived, after, bound);
    DerivedStep(w, event, derived, after, source, dropped, gained, fewest, bound, |after.mappings|, bound);
  }

  lemma DropSourceStep(w: World, revision: nat, session: SessionId, next: SessionId, turns: seq<TurnId>, derived: Record,
                       dropped: nat, gained: nat, fewest: nat, bound: TurnId)
    requires At(w, derived, Source(revision, session, turns), dropped, gained, fewest, bound) && turns != [] && Distinct(turns)
    requires fewest <= |derived.mappings|
    ensures var w' := Step(w, 2, 1, DropLast(Source(revision, session, turns), next));
            At(w', derived, Source(revision + 1, next, Front(turns)), dropped, gained, fewest, bound) && w.versions <= w'.versions
  {
    var source, event := Source(revision, session, turns), DropLast(Source(revision, session, turns), next);
    var after := Source(revision + 1, next, Front(turns));
    Remapped(revision, session, next, turns, |turns| - 1);
    RecordsAreValid(revision, session, turns, 0);
    RecordsAreValid(revision + 1, next, Front(turns), 0);
    hide Remap;
    hide Valid;
    hide HostIds;
    hide Distinct;
    assert RollBack(w.store, event.thread, None, event.request, event.answer, true) == Committed(w.store[1 := after]);
    hide RollBack;
    SourceStep(w, event, derived, source, after, dropped, gained, fewest, bound);
  }

  function Gain(derived: Record, turn: TurnId): Event
    requires derived.session.Some?
  {
    var session, i := derived.session.value.session, |derived.mappings|;
    TurnPersisted(derived, Mapping(turn, Ref(0, session, i + 1), Some(Ref(0, session, i + 11))), true)
  }

  lemma Persists(store: Store, revision: nat, session: SessionId, turns: seq<TurnId>, turn: TurnId, at: TurnId)
    requires 2 in store && store[2] == Forked(revision, session, turns, at) && Distinct(turns + [turn]) && turn !in turns
    ensures Outcomes(store, Gain(store[2], turn)) == Some(store[2 := Forked(revision + 1, session, turns + [turn], at)])
  {
    var derived, event, after := store[2], Gain(store[2], turn), Forked(revision + 1, session, turns + [turn], at);
    RecordsAreValid(revision + 1, session, turns + [turn], at);
    FindTurnExact(derived.mappings, turn);
    hide Valid;
    hide HostIds;
    assert forall i :: 0 <= i < |turns| ==> derived.mappings[i].hostTurn == turns[i];
    assert Merge(derived.mappings, event.update).Ok?;
    assert derived.mappings + [event.update] == after.mappings;
    assert PersistTurn(store, derived, event.update, true) == Ok(store[2 := after]);
  }

  lemma OneMore(turns: seq<TurnId>, turn: TurnId)
    requires Distinct(turns) && forall known :: known in turns ==> known < turn
    ensures Distinct(turns + [turn]) && turn !in turns && forall known :: known in turns + [turn] ==> known < turn + 1
  {
    assert forall i :: 0 <= i < |turns| ==> (turns + [turn])[i] == turns[i] && turns[i] in turns;
    forall known | known in turns + [turn] ensures known < turn + 1 {
      assert known in turns || known == turn;
    }
  }

  lemma GainStep(w: World, revision: nat, session: SessionId, turns: seq<TurnId>, turn: TurnId, at: TurnId, source: Record,
                 dropped: nat, gained: nat, fewest: nat)
    requires At(w, Forked(revision, session, turns, at), source, dropped, gained, fewest, turn) && Distinct(turns)
    requires fewest <= |turns|
    ensures At(Step(w, 2, 1, Gain(Forked(revision, session, turns, at), turn)),
               Forked(revision + 1, session, turns + [turn], at), source, dropped, gained + 1, fewest, turn + 1)
  {
    var derived, after := Forked(revision, session, turns, at), Forked(revision + 1, session, turns + [turn], at);
    RecordsAreValid(revision, session, turns, at);
    OneMore(turns, turn);
    RecordsAreValid(revision + 1, session, turns + [turn], at);
    Persists(w.store, revision, session, turns, turn, at);
    StaysFresh(turns, turns + [turn], w.known);
    hide HostIds;
    hide Outcomes;
    hide Valid;
    hide Common;
    hide Step;
    DerivedStep(w, Gain(derived, turn), derived, after, source, dropped, gained, fewest, turn, |turns|, turn + 1);
  }

  const SOURCE := Source(0, 10, [101, 102, 103])
  const FORKED := Forked(0, 20, [201, 202, 203], 103)
  const START := map[1 := SOURCE, 2 := FORKED]

  // A fork rollback by two turns that read the source as it was first, running its next turn.
  function ForkAgain(derived: Record, session: SessionId): Event {
    RolledBack(AtRest(derived), Some(AtRest(SOURCE).(running := true)), Request(2, None), Answer(session, 2), true)
  }

  lemma SourceTurns()
    ensures Valid(SOURCE) && FindTurn(SOURCE.mappings, 102) == Some(1) && FindTurn(SOURCE.mappings, 103) == Some(2)
    ensures Valid(FORKED) && HostIds(SOURCE.mappings) == [101, 102, 103] && HostIds(FORKED.mappings) == [201, 202, 203]
  {
    RecordsAreValid(0, 10, [101, 102, 103], 0);
    RecordsAreValid(0, 20, [201, 202, 203], 103);
    FindTurnAt(SOURCE.mappings, 1);
    FindTurnAt(SOURCE.mappings, 2);
  }

  lemma ForkStep(w: World, revision: nat, session: SessionId, next: SessionId, turns: seq<TurnId>, source: Record,
                 dropped: nat, gained: nat, fewest: nat, bound: TurnId)
    requires At(w, Forked(revision, session, turns, 103), source, dropped, gained, fewest, bound) && SOURCE in w.versions
    requires |turns| == 3 && Distinct(turns) && next != session && next != 10
    ensures At(Step(w, 2, 1, ForkAgain(Forked(revision, session, turns, 103), next)),
               Forked(revision + 1, next, turns[..2], 102), source, dropped, gained, if 2 < fewest then 2 else fewest, bound)
  {
    var derived, event := Forked(revision, session, turns, 103), ForkAgain(Forked(revision, session, turns, 103), next);
    var after := Forked(revision + 1, next, turns[..2], 102);
    SourceTurns();
    Remapped(revision, session, next, turns, 2);
    RecordsAreValid(revision, session, turns, 103);
    RecordsAreValid(revision + 1, next, turns[..2], 102);
    StaysFresh(turns, turns[..2], w.known);
    hide Remap;
    hide Valid;
    hide FindTurn;
    hide HostIds;
    hide Distinct;
    assert RollBack(w.store, event.thread, event.source, event.request, event.answer, true) == Committed(w.store[2 := after]);
    hide RollBack;
    BelowCut(derived, after, bound);
    DerivedStep(w, event, derived, after, source, dropped, gained, fewest, bound, |after.mappings|, bound);
  }

  lemma Continue(events: seq<Event>, event: Event)
    ensures Run(START, 2, 1, events + [event]) == Step(Run(START, 2, 1, events), 2, 1, event)
  {
    assert Front(events + [event]) == events;
  }

  lemma Started()
    ensures At(Run(START, 2, 1, []), FORKED, SOURCE, 0, 0, 3, 204) && ForkDerived(START, 2, 1)
  {
    SourceTurns();
    StaysFresh([], [], {});
    hide FindTurn;
    hide HostIds;
    hide Valid;
  }

  const DROP_1 := DropLast(FORKED, 30)
  const DROP_2 := DropLast(Forked(1, 30, [201, 202], 103), 40)
  const GAIN_1 := Gain(Forked(2, 40, [201], 103), 204)
  const GAIN_2 := Gain(Forked(3, 40, [201, 204], 103), 205)
  const FORK_AGAIN := ForkAgain(Forked(4, 40, [201, 204, 205], 103), 50)
  const SOURCE_DROP_1 := DropLast(SOURCE, 60)
  const SOURCE_DROP_2 := DropLast(Source(1, 60, [101, 102]), 70)
  const STALE_FORK := ForkAgain(FORKED, 50)

  // ---- the thread itself ---------------------------------------------------------------------------------

  lemma OneDropped()
    ensures At(Run(START, 2, 1, [DROP_1]), Forked(1, 30, [201, 202], 103), SOURCE, 1, 0, 2, 204)
  {
    Started();
    SourceTurns();
    Continue([], DROP_1);
    hide Run;
    DropStep(Run(START, 2, 1, []), 0, 20, 30, [201, 202, 203], 103, SOURCE, 0, 0, 3, 204);
    hide Step;
    hide Forked;
    hide Source;
    hide HostIds;
    hide Gain;
    hide DropLast;
    assert Front([201, 202, 203]) == [201, 202] && [] + [DROP_1] == [DROP_1];
  }

  /** A committed last-turn rollback of a thread that could be rolled back by fork, and it no longer can. */
  lemma LastTurnRollbackEndsLineage()
    ensures Valid(SOURCE) && Valid(FORKED) && Capable(FORKED, SOURCE)
    ensures var w := Run(START, 2, 1, [DROP_1]);
            && w.store == map[1 := SOURCE, 2 := Forked(1, 30, [201, 202], 103)] && w.dropped == 1 && w.gained == 0
            && !Capable(w.store[2], w.store[1])
  {
    SourceTurns();
    OneDropped();
    hide Run;
    hide FindTurn;
  }

  lemma BothDropped()
    ensures At(Run(START, 2, 1, [DROP_1, DROP_2]), Forked(2, 40, [201], 103), SOURCE, 2, 0, 1, 204)
  {
    OneDropped();
    SourceTurns();
    Continue([DROP_1], DROP_2);
    hide Run;
    DropStep(Run(START, 2, 1, [DROP_1]), 1, 30, 40, [201, 202], 103, SOURCE, 1, 0, 2, 204);
    hide Step;
    hide Forked;
    hide Source;
    hide HostIds;
    hide Gain;
    hide DropLast;
    assert Front([201, 202]) == [201] && [DROP_1] + [DROP_2] == [DROP_1, DROP_2];
  }

  lemma OneGained()
    ensures At(Run(START, 2, 1, [DROP_1, DROP_2, GAIN_1]), Forked(3, 40, [201, 204], 103), SOURCE, 2, 1, 1, 205)
  {
    BothDropped();
    SourceTurns();
    Continue([DROP_1, DROP_2], GAIN_1);
    hide Run;
    GainStep(Run(START, 2, 1, [DROP_1, DROP_2]), 2, 40, [201], 204, 103, SOURCE, 2, 0, 1);
    hide Step;
    hide Forked;
    hide Source;
    hide HostIds;
    hide Gain;
    hide DropLast;
    assert [201] + [204] == [201, 204] && [DROP_1, DROP_2] + [GAIN_1] == [DROP_1, DROP_2, GAIN_1];
  }

  lemma BothGained()
    ensures At(Run(START, 2, 1, [DROP_1, DROP_2, GAIN_1, GAIN_2]), Forked(4, 40, [201, 204, 205], 103), SOURCE, 2, 2, 1, 206)
  {
    OneGained();
    Continue([DROP_1, DROP_2, GAIN_1], GAIN_2);
    hide Run;
    GainStep(Run(START, 2, 1, [DROP_1, DROP_2, GAIN_1]), 3, 40, [201, 204], 205, 103, SOURCE, 2, 1, 1);
    hide Step;
    hide Forked;
    hide Source;
    hide HostIds;
    hide Gain;
    hide DropLast;
    assert [201, 204] + [205] == [201, 204, 205] && [DROP_1, DROP_2, GAIN_1] + [GAIN_2] == [DROP_1, DROP_2, GAIN_1, GAIN_2];
  }

  /** Two turns dropped and two gained: the thread passes for an untouched fork again. */
  lemma GainedTurnsRestoreLineage()
    ensures var w := Run(START, 2, 1, [DROP_1, DROP_2, GAIN_1, GAIN_2]);
            && w.store == map[1 := SOURCE, 2 := Forked(4, 40, [201, 204, 205], 103)] && w.dropped == 2 && w.gained == 2
            && Capable(w.store[2], w.store[1])
  {
    BothGained();
    SourceTurns();
    hide Run;
    hide FindTurn;
  }

  /** And a fork rollback of it to two turns maps a turn it gained onto the copy of the source's second turn. */
  lemma GainedTurnBecomesSourceTurn()
    ensures var w := Run(START, 2, 1, [DROP_1, DROP_2, GAIN_1, GAIN_2, FORK_AGAIN]);
            && 2 in w.store && HostIds(w.store[2].mappings) == [201, 204]
            && w.store[2].mappings[1].native == Ref(0, 50, 2)
            && w.store[2].forkSource == Some(ForkSource(1, SOURCE.mappings[1].hostTurn))
  {
    BothGained();
    Continue([DROP_1, DROP_2, GAIN_1, GAIN_2], FORK_AGAIN);
    hide Run;
    ForkStep(Run(START, 2, 1, [DROP_1, DROP_2, GAIN_1, GAIN_2]), 4, 40, 50, [201, 204, 205], SOURCE, 2, 2, 1, 206);
    hide Step;
    assert [201, 204, 205][..2] == [201, 204];
    assert [DROP_1, DROP_2, GAIN_1, GAIN_2] + [FORK_AGAIN] == [DROP_1, DROP_2, GAIN_1, GAIN_2, FORK_AGAIN];
    RecordsAreValid(5, 50, [201, 204], 102);
  }

  // ---- the source -----------------------------------------------------------------------------------------

  lemma SourceDropped()
    ensures At(Run(START, 2, 1, [SOURCE_DROP_1]), FORKED, Source(1, 60, [101, 102]), 0, 0, 3, 204)
    ensures SOURCE in Run(START, 2, 1, [SOURCE_DROP_1]).versions
  {
    Started();
    Continue([], SOURCE_DROP_1);
    hide Run;
    DropSourceStep(Run(START, 2, 1, []), 0, 10, 60, [101, 102, 103], FORKED, 0, 0, 3, 204);
    hide Step;
    hide Forked;
    hide Source;
    hide HostIds;
    hide Gain;
    hide DropLast;
    assert Front([101, 102, 103]) == [101, 102] && [] + [SOURCE_DROP_1] == [SOURCE_DROP_1];
  }

  /** A rollback of the source takes the fork turn with it: the thread itself is untouched, and cannot be rolled back by fork. */
  lemma SourceRollbackEndsLineage()
    ensures var w := Run(START, 2, 1, [SOURCE_DROP_1]);
            && w.store == map[1 := Source(1, 60, [101, 102]), 2 := FORKED] && w.dropped == 0 && w.gained == 0
            && !Capable(w.store[2], w.store[1])
  {
    SourceDropped();
    hide Run;
    FindTurnExact(Source(1, 60, [101, 102]).mappings, 103);
  }

  lemma SourceDroppedTwice()
    ensures At(Run(START, 2, 1, [SOURCE_DROP_1, SOURCE_DROP_2]), FORKED, Source(2, 70, [101]), 0, 0, 3, 204)
    ensures SOURCE in Run(START, 2, 1, [SOURCE_DROP_1, SOURCE_DROP_2]).versions
  {
    SourceDropped();
    Continue([SOURCE_DROP_1], SOURCE_DROP_2);
    hide Run;
    DropSourceStep(Run(START, 2, 1, [SOURCE_DROP_1]), 1, 60, 70, [101, 102], FORKED, 0, 0, 3, 204);
    hide Step;
    hide Forked;
    hide Source;
    hide HostIds;
    hide Gain;
    hide DropLast;
    assert Front([101, 102]) == [101] && [SOURCE_DROP_1] + [SOURCE_DROP_2] == [SOURCE_DROP_1, SOURCE_DROP_2];
  }

  /** A fork rollback that read the source before that still commits, and leaves a fork turn the source no longer has. */
  lemma StaleForkEndsLineage()
    ensures var w := Run(START, 2, 1, [SOURCE_DROP_1, SOURCE_DROP_2, STALE_FORK]);
            && w.store == map[1 := Source(2, 70, [101]), 2 := Forked(1, 50, [201, 202], 102)] && w.dropped == 0 && w.gained == 0
            && !Capable(w.store[2], w.store[1])
  {
    SourceDroppedTwice();
    Continue([SOURCE_DROP_1, SOURCE_DROP_2], STALE_FORK);
    hide Run;
    ForkStep(Run(START, 2, 1, [SOURCE_DROP_1, SOURCE_DROP_2]), 0, 20, 50, [201, 202, 203], Source(2, 70, [101]), 0, 0, 3, 204);
    hide Step;
    assert [201, 202, 203][..2] == [201, 202];
    assert [SOURCE_DROP_1, SOURCE_DROP_2] + [STALE_FORK] == [SOURCE_DROP_1, SOURCE_DROP_2, STALE_FORK];
    FindTurnExact(Source(2, 70, [101]).mappings, 102);
  }
}
