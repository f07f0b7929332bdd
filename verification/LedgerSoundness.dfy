/**
 * What the ownership ledger of ProcessTree guarantees, for one frame and over whole
 * runs: it holds exactly the survivors of the previous ledger, the members of the owned
 * process group, and whatever parent links reach from the survivors.
 */
module LedgerSoundness {
  import opened Prelude
  import opened Lineage
  import opened ProcessTree

  // Ids are unique and the root's own instance is in the ledger.
  ghost predicate Sound(l: Ledger) {
    && DistinctIds(l.known)
    && exists k :: k in l.known && SameInstance(l.root, k)
  }

  lemma InitialLedgerSound(root: ProcessSnapshot, group: Option<nat>, groupStart: Option<nat>, owned: seq<ProcessSnapshot>)
    ensures Sound(InitialLedger(root, group, groupStart, owned)) <==>
      DistinctIds(owned) && forall k :: k in owned && k.id == root.id ==> SameInstance(k, root)
  {
    var l := InitialLedger(root, group, groupStart, owned);
    if exists k :: k in owned && SameInstance(k, root) {
      var k :| k in owned && SameInstance(k, root);
      assert SameInstance(root, k);
    } else {
      assert l.known == owned + [root];
      assert l.known[|owned|] == root && SameInstance(root, root);
      if DistinctIds(owned) && forall k :: k in owned && k.id == root.id ==> SameInstance(k, root) {
        DistinctConcat(owned, [root]);
      }
      if DistinctIds(owned + [root]) {
        forall i, j | 0 <= i < j < |owned| ensures owned[i].id != owned[j].id {
          assert (owned + [root])[i].id != (owned + [root])[j].id;
        }
        forall k | k in owned ensures k.id != root.id {
          var i :| 0 <= i < |owned| && owned[i] == k;
          assert (owned + [root])[i].id != (owned + [root])[|owned|].id;
        }
      }
    }
  }

  // The ids a frame keeps from the ledger: the root, and every entry whose very
  // instance is still running.
  ghost function SurvivingIds(l: Ledger, snaps: seq<ProcessSnapshot>): set<nat> {
    set k | k in l.known && (k.id == l.root.id || exists s :: s in snaps && SameInstance(k, s)) :: k.id
  }

  // Why a frame may own a snapshot that was not in the ledger.
  ghost predicate Claimed(l: Ledger, snaps: seq<ProcessSnapshot>, s: ProcessSnapshot) {
    InGroup(l.group, l.groupStart, s) || Reachable(SurvivingIds(l, snaps), LinksOf(snaps), s.id)
  }

  // A returned process: an instance the ledger already held, or one claimed in this frame.
  ghost predicate Owned(l: Ledger, snaps: seq<ProcessSnapshot>, p: ProcessSnapshot) {
    || (exists k :: k in l.known && SameInstance(k, p))
    || (exists s :: s in snaps && SameInstance(s, p) && Claimed(l, snaps, s))
  }

  // ---- the pieces of one frame ---------------------------------------------------

  // How a ledger entry k turns into x in this frame.
  ghost predicate Survives(k: ProcessSnapshot, x: ProcessSnapshot, rootId: nat, current: Option<ProcessSnapshot>, snaps: seq<ProcessSnapshot>) {
    && k.id == x.id
    && if k.id == rootId then x == (if current.Some? then current.value else k) else FindInstance(snaps, k) == Some(x)
  }

  lemma RefreshStep(known: seq<ProcessSnapshot>, rootId: nat, current: Option<ProcessSnapshot>, snaps: seq<ProcessSnapshot>)
    requires known != [] && (current.Some? ==> current.value.id == rootId)
    ensures var r0, r := Refresh(Front(known), rootId, current, snaps), Refresh(known, rootId, current, snaps);
            if Last(known).id == rootId || FindInstance(snaps, Last(known)).Some?
            then r != [] && r == r0 + [Last(r)] && Survives(Last(known), Last(r), rootId, current, snaps)
            else r == r0
  {
  }

  lemma {:induction false} RefreshedFrom(
    known: seq<ProcessSnapshot>, rootId: nat, current: Option<ProcessSnapshot>, snaps: seq<ProcessSnapshot>, x: ProcessSnapshot)
    requires (current.Some? ==> current.value.id == rootId) && x in Refresh(known, rootId, current, snaps)
    ensures exists k :: k in known && Survives(k, x, rootId, current, snaps)
  {
    if known != [] {
      RefreshStep(known, rootId, current, snaps);
      hide Survives;
      var r0, r := Refresh(Front(known), rootId, current, snaps), Refresh(known, rootId, current, snaps);
      hide Refresh;
      if x in r0 {
        RefreshedFrom(Front(known), rootId, current, snaps, x);
      } else {
        assert r == r0 + [Last(r)] && Last(known) in known && Survives(Last(known), x, rootId, current, snaps);
      }
    }
  }

  lemma {:induction false} RefreshKeeps(
    known: seq<ProcessSnapshot>, rootId: nat, current: Option<ProcessSnapshot>, snaps: seq<ProcessSnapshot>, k: ProcessSnapshot)
    requires (current.Some? ==> current.value.id == rootId)
    requires k in known && (k.id == rootId || FindInstance(snaps, k).Some?)
    ensures k.id in Ids(Refresh(known, rootId, current, snaps))
  {
    RefreshStep(known, rootId, current, snaps);
    var r0, r := Refresh(Front(known), rootId, current, snaps), Refresh(known, rootId, current, snaps);
    hide Refresh;
    if k == Last(known) {
      assert Last(r) in r && Last(r).id == k.id;
    } else {
      assert known == Front(known) + [Last(known)];
      RefreshKeeps(Front(known), rootId, current, snaps, k);
      var x :| x in r0 && x.id == k.id;
      assert x in r;
    }
  }

  lemma {:induction false} RefreshDistinct(known: seq<ProcessSnapshot>, rootId: nat, current: Option<ProcessSnapshot>, snaps: seq<ProcessSnapshot>)
    requires (current.Some? ==> current.value.id == rootId) && DistinctIds(known)
    ensures DistinctIds(Refresh(known, rootId, current, snaps))
  {
    if known != [] {
      RefreshStep(known, rootId, current, snaps);
      RefreshDistinct(Front(known), rootId, current, snaps);
      var r0, r := Refresh(Front(known), rootId, current, snaps), Refresh(known, rootId, current, snaps);
      if r != r0 {
        forall x | x in r0 ensures x.id != Last(r).id {
          RefreshedFrom(Front(known), rootId, current, snaps, x);
          var k :| k in Front(known) && Survives(k, x, rootId, current, snaps);
          var i :| 0 <= i < |Front(known)| && Front(known)[i] == k;
          assert known[i].id != known[|known| - 1].id;
        }
        hide Refresh;
        DistinctConcat(r0, [Last(r)]);
      }
    }
  }

  lemma RefreshFacts(known: seq<ProcessSnapshot>, rootId: nat, current: Option<ProcessSnapshot>, snaps: seq<ProcessSnapshot>)
    requires current.Some? ==> current.value.id == rootId
    ensures forall x :: x in Refresh(known, rootId, current, snaps) ==>
      exists k :: k in known && Survives(k, x, rootId, current, snaps)
    ensures forall k :: k in known && (k.id == rootId || FindInstance(snaps, k).Some?) ==>
      k.id in Ids(Refresh(known, rootId, current, snaps))
    ensures DistinctIds(known) ==> DistinctIds(Refresh(known, rootId, current, snaps))
  {
    hide Refresh;
    hide Survives;
    forall x | x in Refresh(known, rootId, current, snaps) ensures exists k :: k in known && Survives(k, x, rootId, current, snaps) {
      RefreshedFrom(known, rootId, current, snaps, x);
    }
    forall k | k in known && (k.id == rootId || FindInstance(snaps, k).Some?) ensures k.id in Ids(Refresh(known, rootId, current, snaps)) {
      RefreshKeeps(known, rootId, current, snaps, k);
    }
    if DistinctIds(known) { RefreshDistinct(known, rootId, current, snaps); }
  }

  lemma {:induction false} GroupMembersExact(group: Option<nat>, start: nat, snaps: seq<ProcessSnapshot>)
    ensures forall s :: s in GroupMembers(group, start, snaps) <==> s in snaps && InGroup(group, start, s)
  {
    if snaps != [] {
      GroupMembersExact(group, start, Front(snaps));
      assert snaps == Front(snaps) + [Last(snaps)];
    }
  }

  lemma AdoptStep(known: seq<ProcessSnapshot>, observed: seq<ProcessSnapshot>)
    requires observed != []
    ensures var r0 := Adopt(known, Front(observed));
            Adopt(known, observed) == if Last(observed).id in Ids(r0) then r0 else r0 + [Last(observed)]
  {
  }

  lemma IdsSnoc(a: seq<ProcessSnapshot>, s: ProcessSnapshot)
    ensures Ids(a + [s]) == Ids(a) + {s.id}
  {
  }

  lemma {:induction false} AdoptFacts(known: seq<ProcessSnapshot>, observed: seq<ProcessSnapshot>)
    ensures known <= Adopt(known, observed)
    ensures Ids(Adopt(known, observed)) == Ids(known) + Ids(observed)
    ensures forall s :: s in Adopt(known, observed) ==> s in known || s in observed
    ensures DistinctIds(known) ==> DistinctIds(Adopt(known, observed))
    decreases |observed|
  {
    if observed != [] {
      AdoptStep(known, observed);
      hide Adopt;
      AdoptFacts(known, Front(observed));
      var r0, last := Adopt(known, Front(observed)), Last(observed);
      assert observed == Front(observed) + [last];
      IdsSnoc(Front(observed), last);
      IdsSnoc(r0, last);
      hide Ids;
      if last.id !in Ids(r0) && DistinctIds(known) { DistinctOneMore(r0, last); }
    }
  }

  lemma DistinctOneMore(known: seq<ProcessSnapshot>, s: ProcessSnapshot)
    requires DistinctIds(known) && s.id !in Ids(known)
    ensures DistinctIds(known + [s])
  {
    DistinctConcat(known, [s]);
  }

  lemma {:induction false} PresentFacts(known: seq<ProcessSnapshot>, snaps: seq<ProcessSnapshot>)
    ensures forall p :: p in Present(known, snaps) ==> exists k :: k in known && FindInstance(snaps, k) == Some(p)
    ensures forall k :: k in known && FindInstance(snaps, k).Some? ==> FindInstance(snaps, k).value in Present(known, snaps)
    ensures DistinctIds(known) ==> DistinctIds(Present(known, snaps))
  {
    if known != [] {
      PresentFacts(Front(known), snaps);
      assert known == Front(known) + [Last(known)];
      var r0, r := Present(Front(known), snaps), Present(known, snaps);
      var found := FindInstance(snaps, Last(known));
      forall p | p in r ensures exists k :: k in known && FindInstance(snaps, k) == Some(p) {
        if p in r0 {
          var k :| k in Front(known) && FindInstance(snaps, k) == Some(p);
          assert k in known;
        } else {
          assert Last(known) in known && FindInstance(snaps, Last(known)) == Some(p);
        }
      }
      if DistinctIds(known) && found.Some? {
        forall p | p in r0 ensures p.id != found.value.id {
          var k :| k in Front(known) && FindInstance(snaps, k) == Some(p);
          var i :| 0 <= i < |Front(known)| && Front(known)[i] == k;
          assert known[i].id != known[|known| - 1].id;
        }
        DistinctConcat(r0, [found.value]);
      }
    }
  }

  lemma RefreshedIds(l: Ledger, snaps: seq<ProcessSnapshot>)
    ensures Ids(Refresh(l.known, l.root.id, FindId(snaps, l.root.id), snaps)) == SurvivingIds(l, snaps)
  {
    var current := FindId(snaps, l.root.id);
    RefreshFacts(l.known, l.root.id, current, snaps);
    var r := Refresh(l.known, l.root.id, current, snaps);
    forall id | id in Ids(r) ensures id in SurvivingIds(l, snaps) {
      var x :| x in r && x.id == id;
      var k :| k in l.known && Survives(k, x, l.root.id, current, snaps);
      if k.id != l.root.id {
        assert x in snaps && SameInstance(k, x);
      }
    }
    forall id | id in SurvivingIds(l, snaps) ensures id in Ids(r) {
      var k :| k in l.known && k.id == id && (k.id == l.root.id || exists s :: s in snaps && SameInstance(k, s));
    }
  }

  // ---- one frame -------------------------------------------------------------------

  /** Every frame, failing or not, keeps ids distinct and the root in the ledger. */
  lemma ObserveKeepsSound(platform: Platform, l: Ledger, snaps: seq<ProcessSnapshot>)
    requires Sound(l)
    ensures Sound(Observe(platform, l, snaps).0)
    ensures SameInstance(l.root, Observe(platform, l, snaps).0.root)
  {
    hide Refresh;
    hide Adopt;
    hide GroupMembers;
    hide Descendants;
    hide Present;
    hide FirstForeign;
    var current := FindId(snaps, l.root.id);
    if CheckRoot(l, current).Ok? {
      var root := CheckRoot(l, current).value;
      RefreshFacts(l.known, l.root.id, current, snaps);
      var refreshed := Refresh(l.known, l.root.id, current, snaps);
      var k :| k in l.known && SameInstance(l.root, k);
      assert l.root.id in Ids(refreshed);
      var x :| x in refreshed && x.id == l.root.id;
      assert SameInstance(root, x) by {
        var k' :| k' in l.known && Survives(k', x, l.root.id, current, snaps);
        assert k' == k;
      }
      AdoptFacts(refreshed, GroupMembers(l.group, l.groupStart, snaps) + Descendants(Ids(refreshed), snaps));
    }
  }

  /**
   * A successful frame, exactly: the ledger holds the ids reachable by parent links from
   * the survivors together with the owned group's members, and the frame returns one live
   * snapshot for each of them (the root only if it is running).
   */
  lemma ObserveExact(platform: Platform, l: Ledger, snaps: seq<ProcessSnapshot>)
    requires Sound(l) && Observe(platform, l, snaps).1.Ok?
    ensures var (l', r) := Observe(platform, l, snaps);
            && (forall id :: id in Ids(l'.known) <==>
                  || Reachable(SurvivingIds(l, snaps), LinksOf(snaps), id)
                  || exists s :: s in snaps && s.id == id && InGroup(l.group, l.groupStart, s))
            && DistinctIds(r.value)
            && Ids(r.value) == Ids(l'.known) - (if l.root.id in Ids(snaps) then {} else {l.root.id})
            && (forall p :: p in r.value ==> p in snaps && Owned(l, snaps, p))
  {
    ObserveKeepsSound(platform, l, snaps);
    hide Refresh;
    hide Adopt;
    hide GroupMembers;
    hide Descendants;
    hide Present;
    hide FirstForeign;
    hide Owned;
    var refreshed := Refresh(l.known, l.root.id, FindId(snaps, l.root.id), snaps);
    var surviving := SurvivingIds(l, snaps);
    RefreshedIds(l, snaps);
    var members, descendants := GroupMembers(l.group, l.groupStart, snaps), Descendants(surviving, snaps);
    GroupMembersExact(l.group, l.groupStart, snaps);
    DescendantsExact(surviving, snaps);
    AdoptFacts(refreshed, members + descendants);
    var (l', r) := Observe(platform, l, snaps);
    PresentFacts(l'.known, snaps);
    assert Ids(members + descendants) == Ids(members) + Ids(descendants);
    forall x | x in l'.known && (x.id != l.root.id || l.root.id in Ids(snaps)) ensures FindInstance(snaps, x).Some? {
      LedgerEntryRuns(l, snaps, x, refreshed, members + descendants);
    }
    forall p | p in r.value ensures p in snaps && Owned(l, snaps, p) {
      var x :| x in l'.known && FindInstance(snaps, x) == Some(p);
      EntryOwned(l, snaps, x, p, refreshed, members, descendants);
    }
    RootOnlyIfRunning(l'.known, r.value, l.root.id, snaps);
  }

  // What a frame returns for a ledger entry is owned.
  lemma EntryOwned(l: Ledger, snaps: seq<ProcessSnapshot>, x: ProcessSnapshot, p: ProcessSnapshot,
                   refreshed: seq<ProcessSnapshot>, members: seq<ProcessSnapshot>, descendants: seq<ProcessSnapshot>)
    requires Sound(l) && CheckRoot(l, FindId(snaps, l.root.id)).Ok?
    requires refreshed == Refresh(l.known, l.root.id, FindId(snaps, l.root.id), snaps)
    requires members == GroupMembers(l.group, l.groupStart, snaps) && descendants == Descendants(SurvivingIds(l, snaps), snaps)
    requires x in refreshed || x in members || x in descendants
    requires FindInstance(snaps, x) == Some(p)
    ensures p in snaps && Owned(l, snaps, p)
  {
    hide Refresh;
    hide GroupMembers;
    hide Descendants;
    if x in refreshed {
      RefreshedInstance(l, snaps, x);
      var k :| k in l.known && SameInstance(k, x);
      assert SameInstance(k, p);
    } else {
      GroupMembersExact(l.group, l.groupStart, snaps);
      DescendantsExact(SurvivingIds(l, snaps), snaps);
      assert x in snaps && SameInstance(x, p);
      if x in descendants { assert x.id in Ids(descendants); }
      assert Claimed(l, snaps, x);
    }
  }

  lemma RootOnlyIfRunning(known: seq<ProcessSnapshot>, present: seq<ProcessSnapshot>, rootId: nat, snaps: seq<ProcessSnapshot>)
    requires present == Present(known, snaps)
    requires forall x :: x in known && (x.id != rootId || rootId in Ids(snaps)) ==> FindInstance(snaps, x).Some?
    ensures Ids(present) == Ids(known) - (if rootId in Ids(snaps) then {} else {rootId})
  {
    PresentFacts(known, snaps);
    forall id | id in Ids(known) && (id != rootId || rootId in Ids(snaps)) ensures id in Ids(present) {
      var x :| x in known && x.id == id;
      assert FindInstance(snaps, x).value in present;
    }
    forall id | id in Ids(present) ensures id in Ids(known) && id in Ids(snaps) {
      var p :| p in present && p.id == id;
      var k :| k in known && FindInstance(snaps, k) == Some(p);
    }
  }

  // A refreshed entry is the same instance as the ledger entry it replaced.
  lemma RefreshedInstance(l: Ledger, snaps: seq<ProcessSnapshot>, x: ProcessSnapshot)
    requires Sound(l) && CheckRoot(l, FindId(snaps, l.root.id)).Ok?
    requires x in Refresh(l.known, l.root.id, FindId(snaps, l.root.id), snaps)
    ensures exists k :: k in l.known && SameInstance(k, x)
    ensures x in snaps || (x.id == l.root.id && l.root.id !in Ids(snaps))
  {
    var current := FindId(snaps, l.root.id);
    RefreshFacts(l.known, l.root.id, current, snaps);
    var k :| k in l.known && Survives(k, x, l.root.id, current, snaps);
    if k.id == l.root.id && current.Some? {
      var rootEntry :| rootEntry in l.known && SameInstance(l.root, rootEntry);
      assert SameInstance(rootEntry, x);
    } else {
      assert SameInstance(k, x);
    }
  }

  lemma LedgerEntryRuns(l: Ledger, snaps: seq<ProcessSnapshot>, x: ProcessSnapshot, refreshed: seq<ProcessSnapshot>, observed: seq<ProcessSnapshot>)
    requires Sound(l) && CheckRoot(l, FindId(snaps, l.root.id)).Ok?
    requires refreshed == Refresh(l.known, l.root.id, FindId(snaps, l.root.id), snaps)
    requires forall s :: s in observed ==> s in snaps
    requires x in Adopt(refreshed, observed) && (x.id != l.root.id || l.root.id in Ids(snaps))
    ensures FindInstance(snaps, x).Some?
  {
    AdoptFacts(refreshed, observed);
    if x in refreshed {
      RefreshedInstance(l, snaps, x);
    }
    assert x in snaps && SameInstance(x, x);
  }

  /** A PID reused by a process that nothing attributes to the tree leaves the ledger. */
  lemma ReusedPidDropped(platform: Platform, l: Ledger, snaps: seq<ProcessSnapshot>, k: ProcessSnapshot)
    requires Sound(l) && Observe(platform, l, snaps).1.Ok?
    requires k in l.known && k.id != l.root.id
    requires forall s :: s in snaps ==> !SameInstance(k, s)
    requires forall s :: s in snaps && s.id == k.id ==> !Claimed(l, snaps, s)
    ensures k.id !in Ids(Observe(platform, l, snaps).0.known)
  {
    ObserveExact(platform, l, snaps);
    var surviving, links := SurvivingIds(l, snaps), LinksOf(snaps);
    assert k.id !in surviving by {
      assert forall e :: e in l.known && e.id == k.id ==> e == k;
    }
    if Reachable(surviving, links, k.id) {
      ReachableLastStep(surviving, links, k.id);
    }
  }

  /**
   * The Linux rule with one snapshot per PID: once the root passes, a frame is refused
   * exactly when some owned-group member is not reachable from the surviving ledger.
   */
  lemma LinuxRefusesExactlyForeignMembers(l: Ledger, snaps: seq<ProcessSnapshot>)
    requires Sound(l) && DistinctIds(snaps) && CheckRoot(l, FindId(snaps, l.root.id)).Ok?
    ensures Observe(Linux, l, snaps).1.Err? <==>
      exists s :: s in snaps && InGroup(l.group, l.groupStart, s) &&
        !Reachable(SurvivingIds(l, snaps), LinksOf(snaps), s.id)
  {
    var current := FindId(snaps, l.root.id);
    var refreshed := Refresh(l.known, l.root.id, current, snaps);
    var surviving, links := SurvivingIds(l, snaps), LinksOf(snaps);
    RefreshedIds(l, snaps);
    GroupMembersExact(l.group, l.groupStart, snaps);
    DescendantsExact(surviving, snaps);
    var descendants := Descendants(surviving, snaps);
    forall s | s in snaps ensures Attributed(refreshed, descendants, s) <==> Reachable(surviving, links, s.id) {
      AttributedMeansReachable(l, snaps, refreshed, s);
    }
  }

  /**
   * The half that safety rests on needs no such condition: whatever PIDs a frame repeats, a
   * successful Linux frame means that every owned-group member is reachable from the survivors.
   */
  lemma LinuxSuccessMeansLineage(l: Ledger, snaps: seq<ProcessSnapshot>, s: ProcessSnapshot)
    requires Sound(l) && Observe(Linux, l, snaps).1.Ok?
    requires s in snaps && InGroup(l.group, l.groupStart, s)
    ensures Reachable(SurvivingIds(l, snaps), LinksOf(snaps), s.id)
  {
    var refreshed := Refresh(l.known, l.root.id, FindId(snaps, l.root.id), snaps);
    var descendants := Descendants(SurvivingIds(l, snaps), snaps);
    RefreshedIds(l, snaps);
    GroupMembersExact(l.group, l.groupStart, snaps);
    DescendantsExact(SurvivingIds(l, snaps), snaps);
    assert Attributed(refreshed, descendants, s);
    assert s.id in Ids(refreshed) || s.id in Ids(descendants);
  }

  lemma AttributedMeansReachable(l: Ledger, snaps: seq<ProcessSnapshot>, refreshed: seq<ProcessSnapshot>, s: ProcessSnapshot)
    requires Sound(l) && DistinctIds(snaps) && CheckRoot(l, FindId(snaps, l.root.id)).Ok?
    requires s in snaps
    requires refreshed == Refresh(l.known, l.root.id, FindId(snaps, l.root.id), snaps)
    ensures Attributed(refreshed, Descendants(SurvivingIds(l, snaps), snaps), s) <==>
      Reachable(SurvivingIds(l, snaps), LinksOf(snaps), s.id)
  {
    hide Refresh;
    hide Descendants;
    hide Reachable;
    hide Attributed;
    var descendants := Descendants(SurvivingIds(l, snaps), snaps);
    RefreshedIds(l, snaps);
    DescendantsExact(SurvivingIds(l, snaps), snaps);
    forall x | x in descendants && x.id == s.id ensures x == s {
      SameById(snaps, x, s);
    }
    forall x | x in refreshed && x.id == s.id ensures x == s {
      RefreshedIsCurrent(l, snaps, x, s);
    }
    AttributedById(refreshed, descendants, s);
  }

  lemma SameById(snaps: seq<ProcessSnapshot>, x: ProcessSnapshot, s: ProcessSnapshot)
    requires DistinctIds(snaps) && x in snaps && s in snaps && x.id == s.id
    ensures x == s
  {
  }

  lemma RefreshedIsCurrent(l: Ledger, snaps: seq<ProcessSnapshot>, x: ProcessSnapshot, s: ProcessSnapshot)
    requires Sound(l) && DistinctIds(snaps) && CheckRoot(l, FindId(snaps, l.root.id)).Ok?
    requires x in Refresh(l.known, l.root.id, FindId(snaps, l.root.id), snaps)
    requires s in snaps && x.id == s.id
    ensures x == s
  {
    RefreshedInstance(l, snaps, x);
  }

  lemma AttributedById(known: seq<ProcessSnapshot>, permitted: seq<ProcessSnapshot>, s: ProcessSnapshot)
    requires forall x :: x in known && x.id == s.id ==> x == s
    requires forall x :: x in permitted && x.id == s.id ==> x == s
    ensures Attributed(known, permitted, s) <==> s.id in Ids(known) || s.id in Ids(permitted)
  {
    if s.id in Ids(known) {
      assert s in known && SameInstance(s, s);
    } else if s.id in Ids(permitted) {
      assert s in permitted && SameInstance(s, s);
    }
  }

  // ---- whole runs --------------------------------------------------------------------

  function LedgerAfter(platform: Platform, l: Ledger, frames: seq<seq<ProcessSnapshot>>): Ledger {
    if frames == [] then l
    else Observe(platform, LedgerAfter(platform, l, Front(frames)), Last(frames)).0
  }

  /** From a sound ledger, every ledger of every run is sound and keeps the root's instance. */
  lemma {:induction false} RunKeepsSound(platform: Platform, l: Ledger, frames: seq<seq<ProcessSnapshot>>)
    requires Sound(l)
    ensures Sound(LedgerAfter(platform, l, frames))
    ensures SameInstance(l.root, LedgerAfter(platform, l, frames).root)
  {
    if frames != [] {
      RunKeepsSound(platform, l, Front(frames));
      ObserveKeepsSound(platform, LedgerAfter(platform, l, Front(frames)), Last(frames));
    }
  }
}
