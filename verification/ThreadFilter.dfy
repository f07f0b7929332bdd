/**
 * The two parent walks of `includesExternalRecord` in
 * packages/host-runtime/src/external-thread-list.ts: a record is listed only if its whole
 * chain of subagent parents still belongs to one native session, and a query can ask for the
 * descendants of one thread. Either walk may meet a cycle, and then stops.
 */
module ThreadFilter {
  import opened Prelude
  import opened RecordChain

  function SubagentParent(record: Record): Option<Id> {
    record.subagentParent
  }

  // ---- still owned ---------------------------------------------------------------------------

  // The parent is there, ready, of the same harness, and bound to the same native session.
  predicate BoundToParent(store: Store, record: Record) {
    match Parent(store, SubagentParent, record)
    case None => false
    case Some(parent) => parent.ready && parent.harness == record.harness && parent.session == record.session
  }

  // Some ancestor is no subagent, and every subagent below it is bound to its parent.
  ghost predicate OwnedUpTo(store: Store, record: Record, n: nat) {
    && Ancestor(store, SubagentParent, record, n).Some?
    && Ancestor(store, SubagentParent, record, n).value.subagentParent.None?
    && BoundBelow(store, record, n)
  }

  ghost predicate BoundBelow(store: Store, record: Record, n: nat) {
    forall k: nat :: k < n && Ancestor(store, SubagentParent, record, k).Some? ==>
      BoundToParent(store, Ancestor(store, SubagentParent, record, k).value)
  }

  ghost predicate Owned(store: Store, record: Record) {
    exists n: nat :: OwnedUpTo(store, record, n)
  }

  // A subagent whose parent binding is broken lies on the chain before any end.
  lemma BrokenIsNotOwned(store: Store, record: Record, k: nat)
    requires Ancestor(store, SubagentParent, record, k).Some?
    requires Ancestor(store, SubagentParent, record, k).value.subagentParent.Some?
    requires !BoundToParent(store, Ancestor(store, SubagentParent, record, k).value)
    ensures !Owned(store, record)
  {
    forall n: nat ensures !OwnedUpTo(store, record, n) {
      if n <= k && Ancestor(store, SubagentParent, record, n).Some? && Ancestor(store, SubagentParent, record, n).value.subagentParent.None? {
        if n < k { AncestorPrefix(store, SubagentParent, record, n + 1, k); }
      }
    }
  }

  lemma CycleIsNotOwned(store: Store, record: Record, i: nat, j: nat)
    requires Repeats(store, SubagentParent, record, i, j)
    ensures !Owned(store, record)
  {
    forall n: nat ensures !OwnedUpTo(store, record, n) {
      CycleNeverEnds(store, SubagentParent, record, i, j, n + 1);
    }
  }

  /** Listed only while owned: exactly the records whose chain ends, unbroken, at a thread that is no subagent. */
  method BelongsToCurrentSession(store: Store, record: Record) returns (owned: bool)
    requires Consistent(store, record)
    ensures owned <==> Owned(store, record)
  {
    var current := record;
    var owners: set<Id> := {};
    ghost var n: nat := 0;
    while current.subagentParent.Some?
      invariant Ancestor(store, SubagentParent, record, n) == Some(current)
      invariant owners == Met(store, SubagentParent, record, n)
      invariant BoundBelow(store, record, n)
      decreases store.Keys + {record.id} - owners
    {
      if current.id in owners {
        ghost var k: nat :| k < n && Ancestor(store, SubagentParent, record, k).Some? && Ancestor(store, SubagentParent, record, k).value.id == current.id;
        SameIdSameRecord(store, SubagentParent, record, k, n);
        CycleIsNotOwned(store, record, k, n);
        return false;
      }
      owners := owners + {current.id};
      var parentId := current.subagentParent.value;
      if parentId !in store || !store[parentId].ready || store[parentId].harness != current.harness
         || store[parentId].session != current.session
      {
        BrokenIsNotOwned(store, record, n);
        return false;
      }
      current := store[parentId];
      n := n + 1;
      assert Met(store, SubagentParent, record, n) == Met(store, SubagentParent, record, n - 1) + {Ancestor(store, SubagentParent, record, n - 1).value.id};
    }
    assert OwnedUpTo(store, record, n);
    return true;
  }

  // The parent is stored, ready, of one harness and one native session with the record.
  predicate OneWithParent(store: Store, record: Record) {
    match record.subagentParent
    case None => false
    case Some(id) =>
      id in store && store[id].ready && store[id].harness == record.harness && store[id].session == record.session
  }

  /** A thread that is no subagent is owned; a subagent is while it is one with its parent, and its parent is owned. */
  lemma OwnedThroughParent(store: Store, record: Record)
    ensures record.subagentParent.None? ==> Owned(store, record)
    ensures record.subagentParent.Some? ==>
              (Owned(store, record) <==> OneWithParent(store, record) && Owned(store, store[record.subagentParent.value]))
  {
    if record.subagentParent.None? {
      assert OwnedUpTo(store, record, 0);
    } else if OneWithParent(store, record) {
      var parent := store[record.subagentParent.value];
      forall n: nat ensures OwnedUpTo(store, record, n + 1) <==> OwnedUpTo(store, parent, n) {
        OwnedShift(store, record, parent, n);
      }
      if Owned(store, record) {
        var n: nat :| OwnedUpTo(store, record, n);
        assert n > 0 && OwnedUpTo(store, parent, n - 1);
      }
      if Owned(store, parent) {
        var n: nat :| OwnedUpTo(store, parent, n);
        assert OwnedUpTo(store, record, n + 1);
      }
    } else {
      forall n: nat ensures !OwnedUpTo(store, record, n) {
        assert Ancestor(store, SubagentParent, record, 0) == Some(record);
      }
    }
  }

  lemma OwnedShift(store: Store, record: Record, parent: Record, n: nat)
    requires OneWithParent(store, record) && parent == store[record.subagentParent.value]
    ensures OwnedUpTo(store, record, n + 1) <==> OwnedUpTo(store, parent, n)
  {
    forall k: nat ensures Ancestor(store, SubagentParent, record, k + 1) == Ancestor(store, SubagentParent, parent, k) {
      AncestorOfParent(store, SubagentParent, record, k);
    }
    assert Ancestor(store, SubagentParent, record, 0) == Some(record) && BoundToParent(store, record);
    if BoundBelow(store, parent, n) {
      forall k: nat | k < n + 1 && Ancestor(store, SubagentParent, record, k).Some?
        ensures BoundToParent(store, Ancestor(store, SubagentParent, record, k).value)
      {
        if k > 0 { assert Ancestor(store, SubagentParent, record, k) == Ancestor(store, SubagentParent, parent, k - 1); }
      }
    }
    if BoundBelow(store, record, n + 1) {
      forall k: nat | k < n && Ancestor(store, SubagentParent, parent, k).Some?
        ensures BoundToParent(store, Ancestor(store, SubagentParent, parent, k).value)
      {
        assert Ancestor(store, SubagentParent, record, k + 1) == Ancestor(store, SubagentParent, parent, k);
      }
    }
  }

  // ---- descends from ------------------------------------------------------------------------------

  // The n-th ancestor names the thread as its parent. The thread itself need not be stored.
  ghost predicate NamesAt(store: Store, record: Record, ancestor: Id, n: nat) {
    && Ancestor(store, SubagentParent, record, n).Some?
    && Ancestor(store, SubagentParent, record, n).value.subagentParent == Some(ancestor)
  }

  ghost predicate Descends(store: Store, record: Record, ancestor: Id) {
    record.id != ancestor && exists n: nat :: NamesAt(store, record, ancestor, n)
  }

  // Nothing up to the n-th ancestor names it, and there is nothing beyond.
  lemma NotAboveEnd(store: Store, record: Record, ancestor: Id, n: nat)
    requires forall k: nat :: k <= n ==> !NamesAt(store, record, ancestor, k)
    requires Ancestor(store, SubagentParent, record, n + 1).None?
    ensures !Descends(store, record, ancestor)
  {
    forall m: nat ensures !NamesAt(store, record, ancestor, m) {
      if m > n && Ancestor(store, SubagentParent, record, m).Some? { AncestorPrefix(store, SubagentParent, record, n + 1, m); }
    }
  }

  lemma NotOnCycle(store: Store, record: Record, ancestor: Id, i: nat, n: nat)
    requires forall k: nat :: k <= n ==> !NamesAt(store, record, ancestor, k)
    requires Repeats(store, SubagentParent, record, i, n + 1)
    ensures !Descends(store, record, ancestor)
  {
    forall m: nat ensures !NamesAt(store, record, ancestor, m) {
      var k := AllMet(store, SubagentParent, record, i, n + 1, m);
      assert NamesAt(store, record, ancestor, m) ==> NamesAt(store, record, ancestor, k);
    }
  }

  // The next parent is one that was met, or is not stored.
  lemma BackToMet(store: Store, record: Record, ancestor: Id, n: nat)
    requires Consistent(store, record) && Ancestor(store, SubagentParent, record, n).Some?
    requires Ancestor(store, SubagentParent, record, n).value.subagentParent.Some?
    requires Ancestor(store, SubagentParent, record, n).value.subagentParent.value in Met(store, SubagentParent, record, n + 1)
    requires forall k: nat :: k <= n ==> !NamesAt(store, record, ancestor, k)
    ensures !Descends(store, record, ancestor)
  {
    var parentId := Ancestor(store, SubagentParent, record, n).value.subagentParent.value;
    if parentId in store {
      var i: nat :| i < n + 1 && Ancestor(store, SubagentParent, record, i).Some? && Ancestor(store, SubagentParent, record, i).value.id == parentId;
      SameIdSameRecord(store, SubagentParent, record, i, n + 1);
      NotOnCycle(store, record, ancestor, i, n);
    } else {
      NotAboveEnd(store, record, ancestor, n);
    }
  }

  lemma MetNext(store: Store, record: Record, n: nat)
    requires Ancestor(store, SubagentParent, record, n).Some?
    ensures Met(store, SubagentParent, record, n + 1)
         == Met(store, SubagentParent, record, n) + {Ancestor(store, SubagentParent, record, n).value.id}
  {
  }

  /** The ancestor query: exactly the records with that thread somewhere up their chain of subagent parents. */
  method DescendsFrom(store: Store, record: Record, ancestor: Id) returns (descends: bool)
    requires Consistent(store, record) && record.id in store
    ensures descends <==> Descends(store, record, ancestor)
  {
    var parentId := record.subagentParent;
    var visited := {record.id};
    ghost var n: nat := 0;
    MetNext(store, record, 0);
    while parentId.Some? && parentId.value != ancestor && parentId.value !in visited
      invariant Ancestor(store, SubagentParent, record, n).Some?
      invariant parentId.Some? ==> parentId == Ancestor(store, SubagentParent, record, n).value.subagentParent
      invariant parentId.Some? ==> visited == Met(store, SubagentParent, record, n + 1)
      invariant parentId.None? ==> Ancestor(store, SubagentParent, record, n + 1).None? && !NamesAt(store, record, ancestor, n)
      invariant forall k: nat :: k < n ==> !NamesAt(store, record, ancestor, k)
      decreases if parentId.Some? then 1 else 0, store.Keys - visited
    {
      visited := visited + {parentId.value};
      if parentId.value in store {
        n := n + 1;
        MetNext(store, record, n);
        parentId := store[parentId.value].subagentParent;
      } else {
        parentId := None;
      }
    }
    if parentId.Some? && parentId.value == ancestor {
      assert NamesAt(store, record, ancestor, n);
    } else if parentId.None? {
      NotAboveEnd(store, record, ancestor, n);
    } else {
      BackToMet(store, record, ancestor, n);
    }
    return !(record.id == ancestor || parentId != Some(ancestor));
  }
}
