/**
 * Walking from a stored thread record along one of its links: to the record it descends
 * from, to that one's, and so on. A chain over a finite store ends or repeats.
 */
module RecordChain {
  import opened Prelude

  type Id = nat

  // What walks look at in a stored record; ids are never empty.
  datatype Record = Record(
    id: Id, subagentParent: Option<Id>, forkSource: Option<Id>, ready: bool, harness: nat, session: Option<nat>)

  // Which other record a walk goes on to.
  type Link = Record -> Option<Id>

  type Store = map<Id, Record>

  ghost predicate WellKeyed(store: Store) {
    forall id :: id in store ==> store[id].id == id
  }

  // The walk starts from a record as stored, or from one that is not stored.
  ghost predicate Consistent(store: Store, start: Record) {
    WellKeyed(store) && (start.id in store ==> store[start.id] == start)
  }

  function Parent(store: Store, link: Link, record: Record): Option<Record> {
    match link(record)
    case None => None
    case Some(id) => if id in store then Some(store[id]) else None
  }

  // The n-th ancestor, if the chain is that long.
  function Ancestor(store: Store, link: Link, start: Record, n: nat): Option<Record> {
    if n == 0 then Some(start)
    else
      match Ancestor(store, link, start, n - 1)
      case None => None
      case Some(record) => Parent(store, link, record)
  }

  ghost predicate EndsAt(store: Store, link: Link, start: Record, n: nat) {
    Ancestor(store, link, start, n).Some? && Parent(store, link, Ancestor(store, link, start, n).value).None?
  }

  ghost predicate RootIs(store: Store, link: Link, start: Record, root: Id) {
    exists n: nat :: EndsAt(store, link, start, n) && Ancestor(store, link, start, n).value.id == root
  }

  ghost predicate Repeats(store: Store, link: Link, start: Record, i: nat, j: nat) {
    i < j && Ancestor(store, link, start, i).Some? && Ancestor(store, link, start, i) == Ancestor(store, link, start, j)
  }

  ghost predicate Cyclic(store: Store, link: Link, start: Record) {
    exists i: nat, j: nat :: Repeats(store, link, start, i, j)
  }

  // ---- facts about chains ---------------------------------------------------------------------

  lemma {:induction false} AncestorPrefix(store: Store, link: Link, start: Record, n: nat, m: nat)
    requires n <= m && Ancestor(store, link, start, m).Some?
    ensures Ancestor(store, link, start, n).Some?
    decreases m
  {
    if n < m { AncestorPrefix(store, link, start, n, m - 1); }
  }

  lemma {:induction false} AncestorShift(store: Store, link: Link, start: Record, i: nat, j: nat, k: nat)
    requires Ancestor(store, link, start, i) == Ancestor(store, link, start, j)
    ensures Ancestor(store, link, start, i + k) == Ancestor(store, link, start, j + k)
    decreases k
  {
    if k > 0 { AncestorShift(store, link, start, i, j, k - 1); }
  }

  lemma {:induction false} CycleNeverEnds(store: Store, link: Link, start: Record, i: nat, j: nat, n: nat)
    requires Repeats(store, link, start, i, j)
    ensures Ancestor(store, link, start, n).Some?
    decreases n
  {
    if n <= j {
      AncestorPrefix(store, link, start, n, j);
    } else {
      AncestorShift(store, link, start, i, j, n - j);
      CycleNeverEnds(store, link, start, i, j, i + (n - j));
    }
  }

  // Two ancestors with one id are the same record.
  lemma SameIdSameRecord(store: Store, link: Link, start: Record, i: nat, j: nat)
    requires Consistent(store, start) && i < j
    requires Ancestor(store, link, start, i).Some? && Ancestor(store, link, start, j).Some?
    requires Ancestor(store, link, start, i).value.id == Ancestor(store, link, start, j).value.id
    ensures Repeats(store, link, start, i, j)
  {
    AncestorPrefix(store, link, start, j - 1, j);
  }

  lemma EndsOnce(store: Store, link: Link, start: Record, m: nat, n: nat)
    requires EndsAt(store, link, start, m) && EndsAt(store, link, start, n)
    ensures m == n
  {
    if m < n { AncestorPrefix(store, link, start, m + 1, n); }
    if n < m { AncestorPrefix(store, link, start, n + 1, m); }
  }

  /** A chain has at most one root. */
  lemma RootUnique(store: Store, link: Link, start: Record, a: Id, b: Id)
    requires RootIs(store, link, start, a) && RootIs(store, link, start, b)
    ensures a == b
  {
    var m: nat :| EndsAt(store, link, start, m) && Ancestor(store, link, start, m).value.id == a;
    var n: nat :| EndsAt(store, link, start, n) && Ancestor(store, link, start, n).value.id == b;
    EndsOnce(store, link, start, m, n);
  }

  // Ids met on the first n steps.
  ghost function Met(store: Store, link: Link, start: Record, n: nat): set<Id> {
    set k | 0 <= k < n && Ancestor(store, link, start, k).Some? :: Ancestor(store, link, start, k).value.id
  }

  lemma {:induction false} EndOrRepeat(store: Store, link: Link, start: Record, n: nat)
    requires Consistent(store, start) && Ancestor(store, link, start, n).Some?
    ensures Cyclic(store, link, start) || exists m: nat :: EndsAt(store, link, start, m)
    decreases store.Keys + {start.id} - Met(store, link, start, n)
  {
    var id := Ancestor(store, link, start, n).value.id;
    if EndsAt(store, link, start, n) {
    } else if id in Met(store, link, start, n) {
      var k: nat :| k < n && Ancestor(store, link, start, k).Some? && Ancestor(store, link, start, k).value.id == id;
      SameIdSameRecord(store, link, start, k, n);
    } else {
      assert Met(store, link, start, n + 1) == Met(store, link, start, n) + {id};
      EndOrRepeat(store, link, start, n + 1);
    }
  }

  /** Over any finite store a chain either has a root or is cyclic, and never both. */
  lemma RootOrCycle(store: Store, link: Link, start: Record)
    requires Consistent(store, start)
    ensures (exists root :: RootIs(store, link, start, root)) <==> !Cyclic(store, link, start)
  {
    EndOrRepeat(store, link, start, 0);
    if m: nat :| EndsAt(store, link, start, m) {
      assert RootIs(store, link, start, Ancestor(store, link, start, m).value.id);
      if i: nat, j: nat :| Repeats(store, link, start, i, j) {
        CycleNeverEnds(store, link, start, i, j, m + 1);
      }
    }
  }

  lemma {:induction false} AncestorOfParent(store: Store, link: Link, start: Record, n: nat)
    requires Parent(store, link, start).Some?
    ensures Ancestor(store, link, start, n + 1) == Ancestor(store, link, Parent(store, link, start).value, n)
  {
    if n > 0 { AncestorOfParent(store, link, start, n - 1); }
  }

  // Once a chain repeats, everything on it was met before.
  lemma {:induction false} AllMet(store: Store, link: Link, start: Record, i: nat, j: nat, n: nat) returns (k: nat)
    requires Repeats(store, link, start, i, j)
    ensures k < j && Ancestor(store, link, start, n) == Ancestor(store, link, start, k)
    decreases n
  {
    if n < j {
      k := n;
    } else {
      AncestorShift(store, link, start, i, j, n - j);
      k := AllMet(store, link, start, i, j, i + (n - j));
    }
  }

  // The root of a record is its parent's.
  lemma RootOfParent(store: Store, link: Link, start: Record, root: Id)
    ensures Parent(store, link, start).None? ==> (RootIs(store, link, start, root) <==> root == start.id)
    ensures Parent(store, link, start).Some? ==>
              (RootIs(store, link, start, root) <==> RootIs(store, link, Parent(store, link, start).value, root))
  {
    if Parent(store, link, start).None? {
      assert EndsAt(store, link, start, 0);
      forall n: nat | n > 0 ensures !EndsAt(store, link, start, n) {
        if Ancestor(store, link, start, n).Some? { AncestorPrefix(store, link, start, 1, n); }
      }
    } else {
      var parent := Parent(store, link, start).value;
      forall n: nat ensures EndsAt(store, link, start, n + 1) <==> EndsAt(store, link, parent, n) {
        AncestorOfParent(store, link, start, n);
      }
      if RootIs(store, link, start, root) {
        var n: nat :| EndsAt(store, link, start, n) && Ancestor(store, link, start, n).value.id == root;
        assert n > 0;
        AncestorOfParent(store, link, start, n - 1);
        assert EndsAt(store, link, parent, n - 1);
      }
      if RootIs(store, link, parent, root) {
        var n: nat :| EndsAt(store, link, parent, n) && Ancestor(store, link, parent, n).value.id == root;
        AncestorOfParent(store, link, start, n);
        assert EndsAt(store, link, start, n + 1);
      }
    }
  }
}
