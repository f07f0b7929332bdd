/**
 * The session a thread belongs to is the root of its chain of subagent parents and fork
 * sources. packages/host-runtime/src/external-thread-repository.ts walks the chain record by
 * record; packages/host-runtime/src/external-thread-list.ts resolves a whole list at once
 * with a memo. Both are proved equal to one definition that mentions neither loop.
 */
module SessionTree {
  import opened Prelude
  import opened RecordChain

  datatype Error = Cycle

  function SourceId(record: Record): Option<Id> {
    if record.subagentParent.Some? then record.subagentParent else record.forkSource
  }

  function ById(records: seq<Record>): Store {
    if records == [] then map[] else ById(Front(records))[Last(records).id := Last(records)]
  }

  // ---- the plain walk ------------------------------------------------------------------------------

  /** `sessionTreeId`. Which answer is given says exactly whether the chain is cyclic. */
  method SessionTreeId(store: Store, record: Record) returns (r: Result<Id, Error>)
    requires Consistent(store, record)
    ensures r.Ok? ==> RootIs(store, SourceId, record, r.value)
    ensures r.Err? <==> Cyclic(store, SourceId, record)
  {
    RootOrCycle(store, SourceId, record);
    var current := record;
    var visited: set<Id> := {};
    ghost var n: nat := 0;
    while current.subagentParent.Some? || current.forkSource.Some?
      invariant Ancestor(store, SourceId, record, n) == Some(current)
      invariant visited == Met(store, SourceId, record, n)
      decreases store.Keys + {record.id} - visited
    {
      if current.id in visited {
        ghost var k: nat :| k < n && Ancestor(store, SourceId, record, k).Some? && Ancestor(store, SourceId, record, k).value.id == current.id;
        SameIdSameRecord(store, SourceId, record, k, n);
        return Err(Cycle);
      }
      visited := visited + {current.id};
      var sourceId := SourceId(current);
      if sourceId.None? || sourceId.value !in store {
        break;
      }
      current := store[sourceId.value];
      n := n + 1;
      assert Met(store, SourceId, record, n) == Met(store, SourceId, record, n - 1) + {Ancestor(store, SourceId, record, n - 1).value.id};
    }
    assert EndsAt(store, SourceId, record, n);
    assert RootIs(store, SourceId, record, current.id);
    return Ok(current.id);
  }

  // ---- the memoised resolution ------------------------------------------------------------------------

  // Every remembered answer is the root of the record it is remembered for.
  ghost predicate MemoSound(store: Store, resolved: map<Id, Id>) {
    forall id :: id in resolved ==> id in store && RootIs(store, SourceId, store[id], resolved[id])
  }

  // A path climbed from its first record: each next record is the parent of the one before.
  ghost predicate Climb(store: Store, path: seq<Record>) {
    && (forall i :: 0 <= i < |path| ==> path[i].id in store && store[path[i].id] == path[i])
    && (forall i :: 0 < i < |path| ==> Parent(store, SourceId, path[i - 1]) == Some(path[i]))
  }

  // Every record of a climb has the root its last record has.
  lemma {:induction false} RootOfClimb(store: Store, path: seq<Record>, root: Id)
    requires path != [] && Climb(store, path) && RootIs(store, SourceId, Last(path), root)
    ensures forall record :: record in path ==> RootIs(store, SourceId, record, root)
  {
    if |path| > 1 {
      var front := Front(path);
      RootOfParent(store, SourceId, Last(front), root);
      RootOfClimb(store, front, root);
      assert path == front + [Last(path)];
    }
  }

  lemma {:induction false} ClimbAncestors(store: Store, path: seq<Record>, k: nat)
    requires Climb(store, path) && k < |path|
    ensures Ancestor(store, SourceId, path[0], k) == Some(path[k])
  {
    if k > 0 { ClimbAncestors(store, path, k - 1); }
  }

  function RememberAll(resolved: map<Id, Id>, path: seq<Record>, root: Id): map<Id, Id> {
    if path == [] then resolved else RememberAll(resolved, Front(path), root)[Last(path).id := root]
  }

  method Remember(resolved: map<Id, Id>, path: seq<Record>, root: Id) returns (r: map<Id, Id>)
    ensures r == RememberAll(resolved, path, root)
  {
    r := resolved;
    for i := 0 to |path|
      invariant r == RememberAll(resolved, path[..i], root)
    {
      assert Front(path[..i + 1]) == path[..i];
      r := r[path[i].id := root];
    }
    assert path[..|path|] == path;
  }

  lemma {:induction false} RememberedSound(store: Store, resolved: map<Id, Id>, path: seq<Record>, root: Id)
    requires MemoSound(store, resolved)
    requires forall record :: record in path ==> record.id in store && store[record.id] == record && RootIs(store, SourceId, record, root)
    ensures MemoSound(store, RememberAll(resolved, path, root))
    ensures RememberAll(resolved, path, root).Keys == resolved.Keys + (set record | record in path :: record.id)
  {
    if path != [] {
      assert path == Front(path) + [Last(path)];
      RememberedSound(store, resolved, Front(path), root);
    }
  }

  lemma RootWithoutParent(store: Store, record: Record)
    requires Parent(store, SourceId, record).None?
    ensures RootIs(store, SourceId, record, record.id)
  {
    assert EndsAt(store, SourceId, record, 0);
  }

  // A climb that comes back to a record it passed.
  lemma ClimbCycles(store: Store, path: seq<Record>, current: Record, k: nat)
    requires Climb(store, path + [current]) && k < |path| && path[k] == current
    ensures Cyclic(store, SourceId, (path + [current])[0])
  {
    var climb := path + [current];
    ClimbAncestors(store, climb, k);
    ClimbAncestors(store, climb, |path|);
    assert climb[k] == path[k] && Repeats(store, SourceId, climb[0], k, |path|);
  }

  // What a path resolves to is remembered for all of it.
  lemma RememberPath(store: Store, resolved: map<Id, Id>, path: seq<Record>, root: Id)
    requires MemoSound(store, resolved) && Climb(store, path)
    requires path != [] ==> RootIs(store, SourceId, Last(path), root)
    ensures MemoSound(store, RememberAll(resolved, path, root))
    ensures resolved.Keys <= RememberAll(resolved, path, root).Keys
    ensures path != [] ==> path[0].id in RememberAll(resolved, path, root)
  {
    hide RootIs;
    if path != [] {
      RootOfClimb(store, path, root);
      assert path[0] in path;
    }
    RememberedSound(store, resolved, path, root);
  }

  // A path climbs to a remembered record: the record below it has the same root.
  lemma RootBelow(store: Store, path: seq<Record>, current: Record, root: Id)
    requires Climb(store, path + [current]) && RootIs(store, SourceId, current, root)
    ensures Climb(store, path) && (path != [] ==> RootIs(store, SourceId, Last(path), root))
  {
    var climb := path + [current];
    RootOfClimb(store, climb, root);
    hide RootIs;
    assert forall i :: 0 <= i < |path| ==> climb[i] == path[i];
    if path != [] { assert climb[|path| - 1] in climb; }
  }

  /** `resolve`: the root of one record, using and extending the memo. */
  method Resolve(store: Store, resolved: map<Id, Id>, start: Record) returns (r: Result<map<Id, Id>, Error>)
    requires WellKeyed(store) && start.id in store && store[start.id] == start
    requires MemoSound(store, resolved)
    ensures r.Ok? ==> MemoSound(store, r.value) && resolved.Keys <= r.value.Keys && start.id in r.value
    ensures r.Err? ==> Cyclic(store, SourceId, start)
  {
    if start.id in resolved {
      return Ok(resolved);
    }
    hide RootIs;
    hide Cyclic;
    var path: seq<Record> := [];
    var visited: set<Id> := {};
    var current := start;
    while true
      invariant Climb(store, path + [current]) && (path + [current])[0] == start
      invariant visited == set record | record in path :: record.id
      decreases store.Keys - visited
    {
      ghost var climb := path + [current];
      assert climb[|path|] == current && current.id in store && (path != [] ==> path[0] == climb[0]);
      if current.id in resolved {
        RootBelow(store, path, current, resolved[current.id]);
        RememberPath(store, resolved, path, resolved[current.id]);
        var memo := Remember(resolved, path, resolved[current.id]);
        return Ok(memo);
      }
      if current.id in visited {
        var k :| 0 <= k < |path| && path[k].id == current.id;
        assert climb[k] == path[k];
        ClimbCycles(store, path, current, k);
        return Err(Cycle);
      }
      visited := visited + {current.id};
      path := path + [current];
      var sourceId := SourceId(current);
      if sourceId.None? || sourceId.value !in store {
        RootWithoutParent(store, current);
        RememberPath(store, resolved, path, current.id);
        var memo := Remember(resolved, path, current.id);
        return Ok(memo);
      }
      current := store[sourceId.value];
    }
  }

  ghost predicate DistinctIds(records: seq<Record>) {
    forall i, j :: 0 <= i < j < |records| ==> records[i].id != records[j].id
  }

  lemma {:induction false} ByIdExact(records: seq<Record>)
    requires DistinctIds(records)
    ensures WellKeyed(ById(records))
    ensures forall record :: record in records ==> record.id in ById(records) && ById(records)[record.id] == record
    ensures forall id :: id in ById(records) ==> ById(records)[id] in records
  {
    if records != [] {
      assert records == Front(records) + [Last(records)];
      ByIdExact(Front(records));
    }
  }

  /**
   * `resolveExternalSessionTreeIds`: every record gets the root of its own chain, which is
   * what `SessionTreeId` answers, and resolution fails exactly when some chain is cyclic.
   */
  method ResolveExternalSessionTreeIds(records: seq<Record>) returns (r: Result<map<Id, Id>, Error>)
    requires DistinctIds(records)
    ensures r.Ok? ==> forall record :: record in records ==>
      record.id in r.value && RootIs(ById(records), SourceId, record, r.value[record.id])
    ensures r.Ok? ==> forall id :: id in r.value ==> id in ById(records)
    ensures r.Err? <==> exists record :: record in records && Cyclic(ById(records), SourceId, record)
  {
    ByIdExact(records);
    ghost var store := ById(records);
    var byId := ById(records);
    var resolved: map<Id, Id> := map[];
    for i := 0 to |records|
      invariant MemoSound(store, resolved)
      invariant forall k :: 0 <= k < i ==> records[k].id in resolved
    {
      var step := Resolve(byId, resolved, records[i]);
      if step.Err? {
        return Err(Cycle);
      }
      resolved := step.value;
    }
    forall record | record in records ensures !Cyclic(store, SourceId, record) {
      assert RootIs(store, SourceId, record, resolved[record.id]);
      RootOrCycle(store, SourceId, record);
    }
    return Ok(resolved);
  }

  /**
   * Which session a thread belongs to: that of the thread it is a subagent of, even if it was also
   * forked, else that of the thread it was forked from; its own if it has neither or the store
   * does not have that thread.
   */
  lemma RootFromParent(store: Store, record: Record, root: Id)
    ensures record.subagentParent.Some? && record.subagentParent.value in store ==>
              (RootIs(store, SourceId, record, root) <==> RootIs(store, SourceId, store[record.subagentParent.value], root))
    ensures record.subagentParent.Some? && record.subagentParent.value !in store ==>
              (RootIs(store, SourceId, record, root) <==> root == record.id)
    ensures record.subagentParent.None? && record.forkSource.Some? && record.forkSource.value in store ==>
              (RootIs(store, SourceId, record, root) <==> RootIs(store, SourceId, store[record.forkSource.value], root))
    ensures record.subagentParent.None? && (record.forkSource.Some? ==> record.forkSource.value !in store) ==>
              (RootIs(store, SourceId, record, root) <==> root == record.id)
  {
    RootOfParent(store, SourceId, record, root);
  }
}
