/**
 * crates/platform/src/process.rs: the ownership ledger of a supervised process tree.
 * `Observe` is the value-level meaning of one frame; `ObservedProcessTree` is the
 * object that updates its ledger in place.
 */
module ProcessTree {
  import opened Prelude
  import opened Lineage

  datatype ProcessSnapshot =
    ProcessSnapshot(id: nat, parentId: nat, groupId: nat, executable: string, startedAt: nat)

  datatype RootPolicy = Fixed | FollowSameProcess

  datatype Platform = MacOS | Linux

  datatype ObserveError =
    | RootReused(id: nat)
    | RootExecutableChanged(id: nat)
    | ForeignGroupMember(id: nat)

  datatype Ledger = Ledger(
    root: ProcessSnapshot, known: seq<ProcessSnapshot>,
    group: Option<nat>, groupStart: nat, policy: RootPolicy)

  type Observation = Result<seq<ProcessSnapshot>, ObserveError>

  // PID plus start time is a process instance; the executable is not part of it.
  predicate SameInstance(expected: ProcessSnapshot, current: ProcessSnapshot) {
    expected.id == current.id && expected.startedAt == current.startedAt
  }

  function Ids(snaps: seq<ProcessSnapshot>): set<nat> {
    set s | s in snaps :: s.id
  }

  function LinksOf(snaps: seq<ProcessSnapshot>): Links {
    set s | s in snaps :: (s.id, s.parentId)
  }

  ghost predicate DistinctIds(snaps: seq<ProcessSnapshot>) {
    forall i, j :: 0 <= i < j < |snaps| ==> snaps[i].id != snaps[j].id
  }

  /** `iter().find(|process| process.id == id)`: the first match in enumeration order. */
  function FindId(snaps: seq<ProcessSnapshot>, id: nat): (r: Option<ProcessSnapshot>)
    ensures r.Some? ==> r.value in snaps && r.value.id == id
    ensures r.None? ==> id !in Ids(snaps)
  {
    if snaps == [] then None
    else
      var earlier := FindId(Front(snaps), id);
      if earlier.Some? then earlier else if Last(snaps).id == id then Some(Last(snaps)) else None
  }

  /** The first snapshot of the same process instance. */
  function FindInstance(snaps: seq<ProcessSnapshot>, expected: ProcessSnapshot): (r: Option<ProcessSnapshot>)
    ensures r.Some? ==> r.value in snaps && SameInstance(expected, r.value)
    ensures r.None? ==> forall s :: s in snaps ==> !SameInstance(expected, s)
  {
    if snaps == [] then None
    else
      var earlier := FindInstance(Front(snaps), expected);
      if earlier.Some? then earlier
      else if SameInstance(expected, Last(snaps)) then Some(Last(snaps)) else None
  }

  // Index i is where a search for the id, or for the instance, must stop.
  ghost predicate FirstWithId(snaps: seq<ProcessSnapshot>, id: nat, i: int) {
    0 <= i < |snaps| && snaps[i].id == id && forall j :: 0 <= j < i ==> snaps[j].id != id
  }

  ghost predicate FirstInstance(snaps: seq<ProcessSnapshot>, expected: ProcessSnapshot, i: int) {
    0 <= i < |snaps| && SameInstance(expected, snaps[i]) && forall j :: 0 <= j < i ==> !SameInstance(expected, snaps[j])
  }

  /** Both searches return the first match in enumeration order. */
  lemma {:induction false} FindsFirst(snaps: seq<ProcessSnapshot>, id: nat, expected: ProcessSnapshot)
    ensures forall i :: FirstWithId(snaps, id, i) ==> FindId(snaps, id) == Some(snaps[i])
    ensures forall i :: FirstInstance(snaps, expected, i) ==> FindInstance(snaps, expected) == Some(snaps[i])
  {
    if snaps != [] {
      FindsFirst(Front(snaps), id, expected);
      forall i | FirstWithId(snaps, id, i) ensures FindId(snaps, id) == Some(snaps[i]) {
        if i < |snaps| - 1 {
          assert FirstWithId(Front(snaps), id, i);
        }
      }
      forall i | FirstInstance(snaps, expected, i) ensures FindInstance(snaps, expected) == Some(snaps[i]) {
        if i < |snaps| - 1 {
          assert FirstInstance(Front(snaps), expected, i);
        }
      }
    }
  }

  // ---- descendant_snapshots -------------------------------------------------

  /** One pass over the snapshots: the ids owned afterwards and the snapshots it adds. */
  function Sweep(owned: set<nat>, snaps: seq<ProcessSnapshot>): (set<nat>, seq<ProcessSnapshot>) {
    if snaps == [] then (owned, [])
    else
      var pass := Sweep(owned, Front(snaps));
      var s := Last(snaps);
      if s.id !in pass.0 && s.parentId in pass.0 then (pass.0 + {s.id}, pass.1 + [s]) else pass
  }

  lemma {:induction false} SweepAdds(owned: set<nat>, snaps: seq<ProcessSnapshot>)
    ensures Sweep(owned, snaps).0 == owned + Ids(Sweep(owned, snaps).1)
    ensures forall s :: s in Sweep(owned, snaps).1 ==> s in snaps && s.id !in owned
  {
    if snaps != [] {
      SweepAdds(owned, Front(snaps));
      assert snaps == Front(snaps) + [Last(snaps)];
    }
  }

  lemma PassShrinks(owned: set<nat>, snaps: seq<ProcessSnapshot>)
    requires Sweep(owned, snaps).1 != []
    ensures |Ids(snaps) - Sweep(owned, snaps).0| < |Ids(snaps) - owned|
  {
    SweepAdds(owned, snaps);
    var pass := Sweep(owned, snaps);
    assert pass.1[0].id in Ids(snaps) - owned;
    SmallerSet(Ids(snaps) - pass.0, Ids(snaps) - owned);
  }

  /** Passes repeated until one adds nothing. */
  function Descendants(owned: set<nat>, snaps: seq<ProcessSnapshot>): (r: seq<ProcessSnapshot>)
    decreases |Ids(snaps) - owned|
  {
    var pass := Sweep(owned, snaps);
    if pass.1 == [] then []
    else
      PassShrinks(owned, snaps);
      pass.1 + Descendants(pass.0, snaps)
  }

  /** The fixpoint loop itself, over the growing vectors of the original. */
  method DescendantSnapshots(roots: seq<nat>, snaps: seq<ProcessSnapshot>) returns (descendants: seq<ProcessSnapshot>)
    ensures descendants == Descendants(Elements(roots), snaps)
  {
    var ownedIds := roots;
    descendants := [];
    ghost var owned := Elements(roots);
    while true
      invariant owned == Elements(ownedIds)
      invariant Descendants(Elements(roots), snaps) == descendants + Descendants(owned, snaps)
      decreases |Ids(snaps) - owned|
    {
      var changed := false;
      ghost var before, found, done := owned, [], descendants;
      for i := 0 to |snaps|
        invariant owned == Elements(ownedIds)
        invariant descendants == done + found
        invariant changed <==> found != []
        invariant (owned, found) == Sweep(before, snaps[..i])
      {
        assert Front(snaps[..i + 1]) == snaps[..i] && Last(snaps[..i + 1]) == snaps[i];
        if snaps[i].id !in ownedIds && snaps[i].parentId in ownedIds {
          ownedIds := ownedIds + [snaps[i].id];
          descendants := descendants + [snaps[i]];
          changed := true;
          SeqAssociates(done, found, [snaps[i]]);
          owned, found := owned + {snaps[i].id}, found + [snaps[i]];
        }
      }
      assert snaps[..|snaps|] == snaps;
      if !changed {
        return;
      }
      PassShrinks(before, snaps);
      SeqAssociates(done, found, Descendants(owned, snaps));
    }
  }

  // ---- what the closure contains ---------------------------------------------

  /** Every element comes after its parent, which is a root or an earlier element. */
  ghost predicate ParentFirst(owned: set<nat>, out: seq<ProcessSnapshot>) {
    forall k :: 0 <= k < |out| ==>
      out[k].parentId in owned || exists j :: 0 <= j < k && out[j].id == out[k].parentId
  }

  lemma ParentFirstConcat(owned: set<nat>, a: seq<ProcessSnapshot>, b: seq<ProcessSnapshot>)
    requires ParentFirst(owned, a) && ParentFirst(owned + Ids(a), b)
    ensures ParentFirst(owned, a + b)
  {
    forall k | 0 <= k < |a + b|
      ensures (a + b)[k].parentId in owned || exists j :: 0 <= j < k && (a + b)[j].id == (a + b)[k].parentId
    {
      if k < |a| {
        if a[k].parentId !in owned {
          var j :| 0 <= j < k && a[j].id == a[k].parentId;
          assert (a + b)[j] == a[j];
        }
      } else if b[k - |a|].parentId !in owned {
        if b[k - |a|].parentId in Ids(a) {
          var j :| 0 <= j < |a| && a[j].id == b[k - |a|].parentId;
          assert (a + b)[j] == a[j];
        } else {
          var j :| 0 <= j < k - |a| && b[j].id == b[k - |a|].parentId;
          assert (a + b)[|a| + j] == b[j];
        }
      }
    }
  }

  lemma {:induction false} SweepShape(owned: set<nat>, snaps: seq<ProcessSnapshot>)
    ensures DistinctIds(Sweep(owned, snaps).1) && ParentFirst(owned, Sweep(owned, snaps).1)
    ensures Sweep(owned, snaps).1 == [] ==>
      forall s :: s in snaps && s.parentId in owned ==> s.id in owned
  {
    if snaps != [] {
      SweepShape(owned, Front(snaps));
      SweepAdds(owned, Front(snaps));
      var pass := Sweep(owned, Front(snaps));
      var s := Last(snaps);
      assert snaps == Front(snaps) + [s];
      if s.id !in pass.0 && s.parentId in pass.0 {
        ParentFirstConcat(owned, pass.1, [s]);
        DistinctConcat(pass.1, [s]);
      }
    }
  }

  lemma DistinctConcat(a: seq<ProcessSnapshot>, b: seq<ProcessSnapshot>)
    requires DistinctIds(a) && DistinctIds(b)
    requires forall s :: s in b ==> s.id !in Ids(a)
    ensures DistinctIds(a + b)
  {
    forall i, j | 0 <= i < j < |a + b| ensures (a + b)[i].id != (a + b)[j].id {
      if i < |a| <= j {
        assert b[j - |a|] in b && a[i].id in Ids(a);
      }
    }
  }

  // A list of non-owned snapshots with unique ids, parents first.
  ghost predicate Discovery(owned: set<nat>, snaps: seq<ProcessSnapshot>, out: seq<ProcessSnapshot>) {
    && DistinctIds(out)
    && ParentFirst(owned, out)
    && forall s :: s in out ==> s in snaps && s.id !in owned
  }

  lemma DiscoveryConcat(owned: set<nat>, snaps: seq<ProcessSnapshot>, a: seq<ProcessSnapshot>, b: seq<ProcessSnapshot>)
    requires Discovery(owned, snaps, a) && Discovery(owned + Ids(a), snaps, b)
    ensures Discovery(owned, snaps, a + b)
    ensures owned + Ids(a + b) == owned + Ids(a) + Ids(b)
  {
    ParentFirstConcat(owned, a, b);
    DistinctConcat(a, b);
  }

  lemma {:induction false} DescendantsShape(owned: set<nat>, snaps: seq<ProcessSnapshot>)
    ensures Discovery(owned, snaps, Descendants(owned, snaps))
    ensures forall s :: s in snaps && s.parentId in owned + Ids(Descendants(owned, snaps)) ==>
      s.id in owned + Ids(Descendants(owned, snaps))
    decreases |Ids(snaps) - owned|
  {
    SweepShape(owned, snaps);
    SweepAdds(owned, snaps);
    var pass := Sweep(owned, snaps);
    if pass.1 == [] {
      assert owned + Ids([]) == owned;
    } else {
      PassShrinks(owned, snaps);
      DescendantsShape(pass.0, snaps);
      DiscoveryConcat(owned, snaps, pass.1, Descendants(pass.0, snaps));
    }
  }

  lemma {:induction false} ParentFirstReachable(owned: set<nat>, snaps: seq<ProcessSnapshot>, out: seq<ProcessSnapshot>, k: nat)
    requires ParentFirst(owned, out) && (forall s :: s in out ==> s in snaps) && k < |out|
    ensures Reachable(owned, LinksOf(snaps), out[k].id)
    decreases k
  {
    var s := out[k];
    assert s in snaps && (s.id, s.parentId) in LinksOf(snaps);
    if s.parentId in owned {
      RootReachable(owned, LinksOf(snaps), s.parentId);
    } else {
      var j :| 0 <= j < k && out[j].id == s.parentId;
      ParentFirstReachable(owned, snaps, out, j);
    }
    StepReachable(owned, LinksOf(snaps), s.id, s.parentId);
  }

  /**
   * The closure is exact: with the roots it holds precisely the ids reachable by parent
   * links, each id once, never a root, and each process after its parent.
   */
  lemma DescendantsExact(owned: set<nat>, snaps: seq<ProcessSnapshot>)
    ensures DistinctIds(Descendants(owned, snaps)) && ParentFirst(owned, Descendants(owned, snaps))
    ensures forall s :: s in Descendants(owned, snaps) ==> s in snaps && s.id !in owned
    ensures forall id :: id in owned || id in Ids(Descendants(owned, snaps)) <==> Reachable(owned, LinksOf(snaps), id)
  {
    DescendantsShape(owned, snaps);
    var out := Descendants(owned, snaps);
    forall id | id in owned + Ids(out) ensures Reachable(owned, LinksOf(snaps), id) {
      if id in owned {
        RootReachable(owned, LinksOf(snaps), id);
      } else {
        var k :| 0 <= k < |out| && out[k].id == id;
        ParentFirstReachable(owned, snaps, out, k);
      }
    }
    ClosedReachableExact(owned, LinksOf(snaps), owned + Ids(out));
  }

  /** With distinct ids the closure is the set of non-root reachable snapshots themselves. */
  lemma DescendantsExactWhenDistinct(owned: set<nat>, snaps: seq<ProcessSnapshot>)
    requires DistinctIds(snaps)
    ensures DistinctIds(Descendants(owned, snaps))
    ensures forall s :: s in Descendants(owned, snaps) <==>
      s in snaps && s.id !in owned && Reachable(owned, LinksOf(snaps), s.id)
  {
    DescendantsExact(owned, snaps);
    var out := Descendants(owned, snaps);
    forall s | s in snaps && s.id !in owned && Reachable(owned, LinksOf(snaps), s.id) ensures s in out {
      assert s.id in Ids(out);
      var t :| t in out && t.id == s.id;
      assert t in snaps;
    }
    forall s | s in out ensures Reachable(owned, LinksOf(snaps), s.id) {
      assert s.id in Ids(out);
    }
  }

  // ---- observe_snapshots -------------------------------------------------------

  /** The root check: the root to go on with, or the error that stops the frame. */
  function CheckRoot(l: Ledger, current: Option<ProcessSnapshot>): Result<ProcessSnapshot, ObserveError> {
    if current.None? then Ok(l.root)
    else if !SameInstance(l.root, current.value) then Err(RootReused(l.root.id))
    else if current.value.executable == l.root.executable then Ok(l.root)
    else if l.policy.Fixed? then Err(RootExecutableChanged(l.root.id))
    else Ok(l.root.(executable := current.value.executable))
  }

  /** The ledger entries still alive in this frame; the root entry always stays. */
  function Refresh(known: seq<ProcessSnapshot>, rootId: nat, current: Option<ProcessSnapshot>, snaps: seq<ProcessSnapshot>)
    : seq<ProcessSnapshot>
  {
    if known == [] then []
    else
      var refreshed := Refresh(Front(known), rootId, current, snaps);
      var expected := Last(known);
      var found := FindInstance(snaps, expected);
      if expected.id == rootId then refreshed + [if current.Some? then current.value else expected]
      else if found.Some? then refreshed + [found.value]
      else refreshed
  }

  predicate InGroup(group: Option<nat>, start: nat, s: ProcessSnapshot) {
    group.Some? && s.startedAt >= start && s.groupId == group.value
  }

  function GroupMembers(group: Option<nat>, start: nat, snaps: seq<ProcessSnapshot>): seq<ProcessSnapshot> {
    if snaps == [] then []
    else
      var earlier := GroupMembers(group, start, Front(snaps));
      if InGroup(group, start, Last(snaps)) then earlier + [Last(snaps)] else earlier
  }

  predicate Attributed(known: seq<ProcessSnapshot>, permitted: seq<ProcessSnapshot>, s: ProcessSnapshot) {
    || (exists k :: k in known && SameInstance(k, s))
    || (exists d :: d in permitted && SameInstance(d, s))
  }

  function FirstForeign(observed: seq<ProcessSnapshot>, known: seq<ProcessSnapshot>, permitted: seq<ProcessSnapshot>)
    : (r: Option<ProcessSnapshot>)
    ensures r.Some? ==> r.value in observed && !Attributed(known, permitted, r.value)
    ensures r.None? ==> forall s :: s in observed ==> Attributed(known, permitted, s)
  {
    if observed == [] then None
    else
      var earlier := FirstForeign(Front(observed), known, permitted);
      if earlier.Some? then earlier
      else if !Attributed(known, permitted, Last(observed)) then Some(Last(observed)) else None
  }

  ghost predicate FirstUnattributed(observed: seq<ProcessSnapshot>, known: seq<ProcessSnapshot>, permitted: seq<ProcessSnapshot>, i: int) {
    && 0 <= i < |observed| && !Attributed(known, permitted, observed[i])
    && forall j :: 0 <= j < i ==> Attributed(known, permitted, observed[j])
  }

  /** The reported process is the first group member without lineage. */
  lemma {:induction false} ReportsFirstForeign(observed: seq<ProcessSnapshot>, known: seq<ProcessSnapshot>, permitted: seq<ProcessSnapshot>)
    ensures forall i :: FirstUnattributed(observed, known, permitted, i) ==> FirstForeign(observed, known, permitted) == Some(observed[i])
  {
    if observed != [] {
      ReportsFirstForeign(Front(observed), known, permitted);
      forall i | FirstUnattributed(observed, known, permitted, i) ensures FirstForeign(observed, known, permitted) == Some(observed[i]) {
        if i < |observed| - 1 {
          assert FirstUnattributed(Front(observed), known, permitted, i);
        }
      }
    }
  }

  /** Push every observed process whose id the ledger does not hold yet. */
  function Adopt(known: seq<ProcessSnapshot>, observed: seq<ProcessSnapshot>): seq<ProcessSnapshot>
    decreases |observed|
  {
    if observed == [] then known
    else
      var grown := Adopt(known, Front(observed));
      if Last(observed).id in Ids(grown) then grown else grown + [Last(observed)]
  }

  /** The current snapshot of every ledger entry that is alive in this frame. */
  function Present(known: seq<ProcessSnapshot>, snaps: seq<ProcessSnapshot>): seq<ProcessSnapshot> {
    if known == [] then []
    else
      var earlier := Present(Front(known), snaps);
      var found := FindInstance(snaps, Last(known));
      if found.Some? then earlier + [found.value] else earlier
  }

  /**
   * One frame. The root errors leave the ledger alone; the Linux foreign-member error
   * comes after the root was followed and the ledger refreshed.
   */
  function Observe(platform: Platform, l: Ledger, snaps: seq<ProcessSnapshot>): (Ledger, Observation) {
    var current := FindId(snaps, l.root.id);
    match CheckRoot(l, current)
    case Err(e) => (l, Err(e))
    case Ok(root) =>
      var refreshed := Refresh(l.known, l.root.id, current, snaps);
      var l1 := l.(root := root, known := refreshed);
      var descendants := Descendants(Ids(refreshed), snaps);
      var members := GroupMembers(l.group, l.groupStart, snaps);
      var foreign := FirstForeign(members, refreshed, descendants);
      if platform.Linux? && l.group.Some? && foreign.Some? then
        (l1, Err(ForeignGroupMember(foreign.value.id)))
      else
        var known := Adopt(refreshed, members + descendants);
        (l1.(known := known), Ok(Present(known, snaps)))
  }

  // ---- the object ----------------------------------------------------------------

  class ObservedProcessTree {
    var root: ProcessSnapshot
    var known: seq<ProcessSnapshot>
    var processGroupId: Option<nat>
    var processGroupStartedAt: nat
    var policy: RootPolicy

    ghost function View(): Ledger
      reads this
    {
      Ledger(root, known, processGroupId, processGroupStartedAt, policy)
    }

    constructor NewWithOwnedProcesses(root: ProcessSnapshot, group: Option<nat>, groupStart: Option<nat>, owned: seq<ProcessSnapshot>)
      ensures View() == InitialLedger(root, group, groupStart, owned)
    {
      this.root := root;
      this.known := if exists k :: k in owned && SameInstance(k, root) then owned else owned + [root];
      this.processGroupId := group;
      this.processGroupStartedAt := if groupStart.Some? then groupStart.value else root.startedAt;
      this.policy := Fixed;
    }

    method RefreshKnown(current: Option<ProcessSnapshot>, snaps: seq<ProcessSnapshot>) returns (refreshed: seq<ProcessSnapshot>)
      ensures refreshed == Refresh(known, root.id, current, snaps)
    {
      refreshed := [];
      for i := 0 to |known|
        invariant refreshed == Refresh(known[..i], root.id, current, snaps)
      {
        var expected := known[i];
        assert Front(known[..i + 1]) == known[..i] && Last(known[..i + 1]) == expected;
        if expected.id == root.id {
          refreshed := refreshed + [if current.Some? then current.value else expected];
        } else {
          var found := FindInstance(snaps, expected);
          if found.Some? {
            refreshed := refreshed + [found.value];
          }
        }
      }
      assert known[..|known|] == known;
    }

    method ObserveSnapshots(platform: Platform, snaps: seq<ProcessSnapshot>) returns (observation: Observation)
      modifies this
      ensures (View(), observation) == Observe(platform, old(View()), snaps)
    {
      var current := FindId(snaps, root.id);
      if current.Some? {
        if !SameInstance(root, current.value) {
          return Err(RootReused(root.id));
        }
        if current.value.executable != root.executable {
          if policy.Fixed? {
            return Err(RootExecutableChanged(root.id));
          }
          root := root.(executable := current.value.executable);
        }
      }
      var refreshed := RefreshKnown(current, snaps);
      known := refreshed;
      var knownIds: seq<nat> := seq(|refreshed|, i requires 0 <= i < |refreshed| => refreshed[i].id);
      assert Elements(knownIds) == Ids(refreshed) by {
        forall id | id in Ids(refreshed) ensures id in knownIds {
          var i :| 0 <= i < |refreshed| && refreshed[i].id == id;
          assert knownIds[i] == id;
        }
      }
      var observed := GroupMembers(processGroupId, processGroupStartedAt, snaps);
      if platform.Linux? && processGroupId.Some? {
        var permitted := DescendantSnapshots(knownIds, snaps);
        var foreign := FirstForeign(observed, known, permitted);
        if foreign.Some? {
          return Err(ForeignGroupMember(foreign.value.id));
        }
      }
      var descendants := DescendantSnapshots(knownIds, snaps);
      observed := observed + descendants;
      for i := 0 to |observed|
        invariant known == Adopt(refreshed, observed[..i])
        modifies `known
      {
        assert Front(observed[..i + 1]) == observed[..i] && Last(observed[..i + 1]) == observed[i];
        if !exists k :: k in known && k.id == observed[i].id {
          known := known + [observed[i]];
        }
      }
      assert observed[..|observed|] == observed;
      observation := Ok(Present(known, snaps));
    }
  }

  /** `new_with_owned_processes`: the root joins the ledger unless its instance is already there. */
  function InitialLedger(root: ProcessSnapshot, group: Option<nat>, groupStart: Option<nat>, owned: seq<ProcessSnapshot>): Ledger {
    Ledger(
      root,
      if exists k :: k in owned && SameInstance(k, root) then owned else owned + [root],
      group,
      if groupStart.Some? then groupStart.value else root.startedAt,
      Fixed)
  }
}
