/**
 * crates/platform/src/macos_process_observation.rs: the full-system scan is narrowed to
 * possible tree members before paths are read. The narrowing over-approximates, so it
 * must not change any result, error or ledger; that is proved here for every frame
 * sequence, with any enumeration order, repeated PIDs and unreadable paths.
 */
module ScanRefinement {
  import opened Prelude
  import opened Lineage
  import opened ProcessTree

  datatype ProcessIdentity = ProcessIdentity(id: nat, parentId: nat, groupId: nat, startedAt: nat)

  // One moment of the system: the identities in enumeration order, and the executable
  // path of every PID whose path can be read.
  datatype Frame = Frame(identities: seq<ProcessIdentity>, paths: map<nat, string>)

  function IdentityIds(identities: seq<ProcessIdentity>): set<nat> {
    set p | p in identities :: p.id
  }

  function IdentityLinks(identities: seq<ProcessIdentity>): Links {
    set p | p in identities :: (p.id, p.parentId)
  }

  predicate IdentityInGroup(group: Option<nat>, start: nat, p: ProcessIdentity) {
    group.Some? && p.groupId == group.value && p.startedAt >= start
  }

  function Snapshot(p: ProcessIdentity, path: string): ProcessSnapshot {
    ProcessSnapshot(p.id, p.parentId, p.groupId, path, p.startedAt)
  }

  /** Complete snapshots of the given identities: those whose path cannot be read drop out. */
  function Readable(identities: seq<ProcessIdentity>, paths: map<nat, string>): seq<ProcessSnapshot> {
    if identities == [] then []
    else
      var p := Last(identities);
      var earlier := Readable(Front(identities), paths);
      if p.id in paths then earlier + [Snapshot(p, paths[p.id])] else earlier
  }

  function OnlyIds(identities: seq<ProcessIdentity>, ids: set<nat>): seq<ProcessIdentity> {
    if identities == [] then []
    else
      var earlier := OnlyIds(Front(identities), ids);
      if Last(identities).id in ids then earlier + [Last(identities)] else earlier
  }

  function Seeds(l: Ledger, identities: seq<ProcessIdentity>): set<nat> {
    Ids(l.known) + {l.root.id} +
    set p | p in identities && IdentityInGroup(l.group, l.groupStart, p) :: p.id
  }

  /** The closure starts from what the ledger knows, the root, and the members of the owned group that are not older than it, and from no other process. */
  lemma SeedsExactly(l: Ledger, identities: seq<ProcessIdentity>, id: nat)
    ensures id in Seeds(l, identities) <==>
      || id == l.root.id
      || (exists k :: k in l.known && k.id == id)
      || (exists p :: p in identities && p.id == id && l.group == Some(p.groupId) && p.startedAt >= l.groupStart)
  {
    if p :| p in identities && p.id == id && l.group == Some(p.groupId) && p.startedAt >= l.groupStart {
      assert IdentityInGroup(l.group, l.groupStart, p);
    }
  }

  // Every id that parent links reach from the ledger, the root and the owned group.
  ghost function CandidateIds(l: Ledger, identities: seq<ProcessIdentity>): set<nat> {
    set id | id in Seeds(l, identities) + IdentityIds(identities) &&
             Reachable(Seeds(l, identities), IdentityLinks(identities), id)
  }

  // The first n identities lead nowhere outside the set.
  ghost predicate ClosedUpTo(identities: seq<ProcessIdentity>, n: nat, ids: set<nat>)
    requires n <= |identities|
  {
    forall j :: 0 <= j < n && identities[j].parentId in ids ==> identities[j].id in ids
  }

  /** The repeat-until-unchanged loop; `limit` is any closed set the seeds lie in. */
  method CloseOverParents(identities: seq<ProcessIdentity>, seeds: set<nat>, ghost limit: set<nat>) returns (candidates: set<nat>)
    requires seeds <= limit && ClosedUpTo(identities, |identities|, limit)
    ensures seeds <= candidates <= limit
    ensures ClosedUpTo(identities, |identities|, candidates)
  {
    candidates := seeds;
    var changed := true;
    while changed
      invariant seeds <= candidates <= limit
      invariant !changed ==> ClosedUpTo(identities, |identities|, candidates)
      decreases |limit - candidates|, changed
    {
      changed := false;
      ghost var before := candidates;
      for i := 0 to |identities|
        invariant before <= candidates <= limit
        invariant if changed then before < candidates else before == candidates
        invariant !changed ==> ClosedUpTo(identities, i, before)
      {
        var p := identities[i];
        if p.parentId in candidates && p.id !in candidates {
          changed, candidates := true, candidates + {p.id};
        }
      }
      if changed {
        SmallerSet(limit - candidates, limit - before);
      }
    }
  }

  lemma CandidatesClosed(l: Ledger, identities: seq<ProcessIdentity>)
    ensures Seeds(l, identities) <= CandidateIds(l, identities)
    ensures ClosedUpTo(identities, |identities|, CandidateIds(l, identities))
  {
    var seeds, links := Seeds(l, identities), IdentityLinks(identities);
    forall id | id in seeds ensures id in CandidateIds(l, identities) {
      RootReachable(seeds, links, id);
    }
    forall j | 0 <= j < |identities| && identities[j].parentId in CandidateIds(l, identities)
      ensures identities[j].id in CandidateIds(l, identities)
    {
      assert (identities[j].id, identities[j].parentId) in links;
      StepReachable(seeds, links, identities[j].id, identities[j].parentId);
    }
  }

  lemma CandidatesLeast(l: Ledger, identities: seq<ProcessIdentity>, ids: set<nat>)
    requires Seeds(l, identities) <= ids && ClosedUpTo(identities, |identities|, ids)
    ensures CandidateIds(l, identities) <= ids
  {
    var seeds, links := Seeds(l, identities), IdentityLinks(identities);
    forall id | id in CandidateIds(l, identities) ensures id in ids {
      var path :| IsPath(seeds, links, path) && path[|path| - 1] == id;
      PathStaysClosed(seeds, links, ids, path);
    }
  }

  /** `resolve_tree_candidates`: close the candidate set, then read the paths of its members only. */
  method ResolveTreeCandidates(identities: seq<ProcessIdentity>, l: Ledger, paths: map<nat, string>)
    returns (selected: seq<ProcessSnapshot>)
    ensures selected == Readable(OnlyIds(identities, CandidateIds(l, identities)), paths)
  {
    var candidates := Ids(l.known);
    candidates := candidates + {l.root.id};
    candidates := candidates + set p | p in identities && IdentityInGroup(l.group, l.groupStart, p) :: p.id;
    assert candidates == Seeds(l, identities);
    CandidatesClosed(l, identities);
    candidates := CloseOverParents(identities, candidates, CandidateIds(l, identities));
    CandidatesLeast(l, identities, candidates);
    assert candidates == CandidateIds(l, identities);
    selected := Readable(OnlyIds(identities, candidates), paths);
  }

  // ---- narrowing snapshots ---------------------------------------------------------

  function Keep(snaps: seq<ProcessSnapshot>, ids: set<nat>): seq<ProcessSnapshot> {
    if snaps == [] then []
    else
      var earlier := Keep(Front(snaps), ids);
      if Last(snaps).id in ids then earlier + [Last(snaps)] else earlier
  }

  lemma ReadableExtend(identities: seq<ProcessIdentity>, p: ProcessIdentity, paths: map<nat, string>)
    ensures var earlier := Readable(identities, paths);
            Readable(identities + [p], paths) == if p.id in paths then earlier + [Snapshot(p, paths[p.id])] else earlier
  {
    assert Front(identities + [p]) == identities;
  }

  lemma KeepExtend(snaps: seq<ProcessSnapshot>, s: ProcessSnapshot, ids: set<nat>)
    ensures Keep(snaps + [s], ids) == if s.id in ids then Keep(snaps, ids) + [s] else Keep(snaps, ids)
  {
    assert Front(snaps + [s]) == snaps;
  }

  /** Filtering identities before reading paths is filtering the readable snapshots. */
  lemma {:induction false} NarrowBeforeReading(identities: seq<ProcessIdentity>, ids: set<nat>, paths: map<nat, string>)
    ensures Readable(OnlyIds(identities, ids), paths) == Keep(Readable(identities, paths), ids)
  {
    if identities != [] {
      var p := Last(identities);
      NarrowBeforeReading(Front(identities), ids, paths);
      if p.id in ids {
        ReadableExtend(OnlyIds(Front(identities), ids), p, paths);
      }
      if p.id in paths {
        KeepExtend(Readable(Front(identities), paths), Snapshot(p, paths[p.id]), ids);
      }
    }
  }

  // A set of ids the narrowing may keep without the observer noticing.
  ghost predicate Covers(ids: set<nat>, l: Ledger, snaps: seq<ProcessSnapshot>) {
    && Ids(l.known) <= ids
    && l.root.id in ids
    && (forall s :: s in snaps && InGroup(l.group, l.groupStart, s) ==> s.id in ids)
    && (forall s :: s in snaps && s.parentId in ids ==> s.id in ids)
  }

  lemma {:induction false} KeepFindId(snaps: seq<ProcessSnapshot>, ids: set<nat>, id: nat)
    requires id in ids
    ensures FindId(Keep(snaps, ids), id) == FindId(snaps, id)
  {
    if snaps != [] {
      KeepFindId(Front(snaps), ids, id);
      assert Front(Keep(Front(snaps), ids) + [Last(snaps)]) == Keep(Front(snaps), ids);
    }
  }

  lemma {:induction false} KeepFindInstance(snaps: seq<ProcessSnapshot>, ids: set<nat>, e: ProcessSnapshot)
    requires e.id in ids
    ensures FindInstance(Keep(snaps, ids), e) == FindInstance(snaps, e)
  {
    if snaps != [] {
      KeepFindInstance(Front(snaps), ids, e);
      assert Front(Keep(Front(snaps), ids) + [Last(snaps)]) == Keep(Front(snaps), ids);
    }
  }

  lemma {:induction false} KeepRefresh(known: seq<ProcessSnapshot>, rootId: nat, current: Option<ProcessSnapshot>, snaps: seq<ProcessSnapshot>, ids: set<nat>)
    requires Ids(known) <= ids
    ensures Refresh(known, rootId, current, Keep(snaps, ids)) == Refresh(known, rootId, current, snaps)
  {
    if known != [] {
      assert Last(known) in known && forall k :: k in Front(known) ==> k in known;
      KeepRefresh(Front(known), rootId, current, snaps, ids);
      KeepFindInstance(snaps, ids, Last(known));
    }
  }

  lemma {:induction false} KeepPresent(known: seq<ProcessSnapshot>, snaps: seq<ProcessSnapshot>, ids: set<nat>)
    requires Ids(known) <= ids
    ensures Present(known, Keep(snaps, ids)) == Present(known, snaps)
  {
    if known != [] {
      assert Last(known) in known && forall k :: k in Front(known) ==> k in known;
      KeepPresent(Front(known), snaps, ids);
      KeepFindInstance(snaps, ids, Last(known));
    }
  }

  lemma {:induction false} KeepGroupMembers(group: Option<nat>, start: nat, snaps: seq<ProcessSnapshot>, ids: set<nat>)
    requires forall s :: s in snaps && InGroup(group, start, s) ==> s.id in ids
    ensures GroupMembers(group, start, Keep(snaps, ids)) == GroupMembers(group, start, snaps)
    ensures Ids(GroupMembers(group, start, snaps)) <= ids
  {
    if snaps != [] {
      assert Last(snaps) in snaps && forall s :: s in Front(snaps) ==> s in snaps;
      KeepGroupMembers(group, start, Front(snaps), ids);
      assert Front(Keep(Front(snaps), ids) + [Last(snaps)]) == Keep(Front(snaps), ids);
    }
  }

  lemma {:induction false} KeepSweep(owned: set<nat>, snaps: seq<ProcessSnapshot>, ids: set<nat>)
    requires owned <= ids
    requires forall s :: s in snaps && s.parentId in ids ==> s.id in ids
    ensures Sweep(owned, Keep(snaps, ids)) == Sweep(owned, snaps)
    ensures Sweep(owned, snaps).0 <= ids
  {
    if snaps != [] {
      assert Last(snaps) in snaps && forall s :: s in Front(snaps) ==> s in snaps;
      KeepSweep(owned, Front(snaps), ids);
      assert Front(Keep(Front(snaps), ids) + [Last(snaps)]) == Keep(Front(snaps), ids);
    }
  }

  lemma {:induction false} KeepDescendants(owned: set<nat>, snaps: seq<ProcessSnapshot>, ids: set<nat>)
    requires owned <= ids
    requires forall s :: s in snaps && s.parentId in ids ==> s.id in ids
    ensures Descendants(owned, Keep(snaps, ids)) == Descendants(owned, snaps)
    ensures Ids(Descendants(owned, snaps)) <= ids
    decreases |Ids(snaps) - owned|
  {
    KeepSweep(owned, snaps, ids);
    SweepAdds(owned, snaps);
    var pass := Sweep(owned, snaps);
    if pass.1 != [] {
      PassShrinks(owned, snaps);
      KeepDescendants(pass.0, snaps, ids);
    }
  }

  lemma {:induction false} RefreshedIdsCovered(
    known: seq<ProcessSnapshot>, rootId: nat, current: Option<ProcessSnapshot>, snaps: seq<ProcessSnapshot>, ids: set<nat>)
    requires Ids(known) <= ids
    requires current.Some? ==> current.value.id == rootId
    ensures Ids(Refresh(known, rootId, current, snaps)) <= ids
  {
    if known != [] {
      assert Last(known) in known && forall k :: k in Front(known) ==> k in known;
      assert Last(known).id in Ids(known);
      RefreshedIdsCovered(Front(known), rootId, current, snaps, ids);
    }
  }

  lemma {:induction false} AdoptedIdsCovered(known: seq<ProcessSnapshot>, observed: seq<ProcessSnapshot>, ids: set<nat>)
    requires Ids(known) <= ids && Ids(observed) <= ids
    ensures Ids(Adopt(known, observed)) <= ids
    decreases |observed|
  {
    if observed != [] {
      assert Last(observed) in observed && forall s :: s in Front(observed) ==> s in observed;
      assert Last(observed).id in Ids(observed);
      AdoptedIdsCovered(known, Front(observed), ids);
    }
  }

  /** Observing only the covered snapshots is observing them all. */
  lemma ObserveKept(platform: Platform, l: Ledger, snaps: seq<ProcessSnapshot>, ids: set<nat>)
    requires Covers(ids, l, snaps)
    ensures Observe(platform, l, Keep(snaps, ids)) == Observe(platform, l, snaps)
  {
    KeepFindId(snaps, ids, l.root.id);
    var current := FindId(snaps, l.root.id);
    KeepRefresh(l.known, l.root.id, current, snaps, ids);
    RefreshedIdsCovered(l.known, l.root.id, current, snaps, ids);
    var refreshed := Refresh(l.known, l.root.id, current, snaps);
    KeepDescendants(Ids(refreshed), snaps, ids);
    KeepGroupMembers(l.group, l.groupStart, snaps, ids);
    var observed := GroupMembers(l.group, l.groupStart, snaps) + Descendants(Ids(refreshed), snaps);
    AdoptedIdsCovered(refreshed, observed, ids);
    KeepPresent(Adopt(refreshed, observed), snaps, ids);
  }

  // ---- the refinement ----------------------------------------------------------------

  function FullScan(frame: Frame): seq<ProcessSnapshot> {
    Readable(frame.identities, frame.paths)
  }

  ghost function NarrowScan(l: Ledger, frame: Frame): seq<ProcessSnapshot> {
    Readable(OnlyIds(frame.identities, CandidateIds(l, frame.identities)), frame.paths)
  }

  lemma {:induction false} ReadableComesFromIdentity(identities: seq<ProcessIdentity>, paths: map<nat, string>, s: ProcessSnapshot)
    requires s in Readable(identities, paths)
    ensures exists p :: p in identities && s.id == p.id && s.parentId == p.parentId && s.groupId == p.groupId && s.startedAt == p.startedAt
  {
    if s in Readable(Front(identities), paths) {
      ReadableComesFromIdentity(Front(identities), paths, s);
    } else {
      assert Last(identities) in identities;
    }
  }

  lemma CandidatesCover(l: Ledger, frame: Frame)
    ensures Covers(CandidateIds(l, frame.identities), l, FullScan(frame))
  {
    CandidatesClosed(l, frame.identities);
    forall s | s in FullScan(frame)
      ensures InGroup(l.group, l.groupStart, s) ==> s.id in CandidateIds(l, frame.identities)
      ensures s.parentId in CandidateIds(l, frame.identities) ==> s.id in CandidateIds(l, frame.identities)
    {
      ReadableComesFromIdentity(frame.identities, frame.paths, s);
      var p :| p in frame.identities && s.id == p.id && s.parentId == p.parentId && s.groupId == p.groupId && s.startedAt == p.startedAt;
      assert IdentityInGroup(l.group, l.groupStart, p) ==> p.id in Seeds(l, frame.identities);
    }
  }

  /** One frame: same returned list, same error, same root, same ledger. */
  lemma NarrowScanRefinesFullScan(platform: Platform, l: Ledger, frame: Frame)
    ensures Observe(platform, l, NarrowScan(l, frame)) == Observe(platform, l, FullScan(frame))
  {
    var ids := CandidateIds(l, frame.identities);
    NarrowBeforeReading(frame.identities, ids, frame.paths);
    CandidatesCover(l, frame);
    ObserveKept(platform, l, FullScan(frame), ids);
  }

  // A run: the final ledger and what every frame returned.
  datatype Run = Run(ledger: Ledger, observations: seq<Observation>)

  function FullRun(platform: Platform, l: Ledger, frames: seq<Frame>): Run {
    if frames == [] then Run(l, [])
    else
      var before := FullRun(platform, l, Front(frames));
      var (ledger, observation) := Observe(platform, before.ledger, FullScan(Last(frames)));
      Run(ledger, before.observations + [observation])
  }

  ghost function NarrowRun(platform: Platform, l: Ledger, frames: seq<Frame>): Run {
    if frames == [] then Run(l, [])
    else
      var before := NarrowRun(platform, l, Front(frames));
      var (ledger, observation) := Observe(platform, before.ledger, NarrowScan(before.ledger, Last(frames)));
      Run(ledger, before.observations + [observation])
  }

  /** Any number of frames, from any ledger: the two observers can never be told apart. */
  lemma {:induction false} NarrowRunRefinesFullRun(platform: Platform, l: Ledger, frames: seq<Frame>)
    ensures NarrowRun(platform, l, frames) == FullRun(platform, l, frames)
  {
    if frames != [] {
      NarrowRunRefinesFullRun(platform, l, Front(frames));
      NarrowScanRefinesFullScan(platform, FullRun(platform, l, Front(frames)).ledger, Last(frames));
    }
  }

  /** `observe` on macOS: the object that scans narrowly meets the full scan's specification. */
  method ObserveNarrowly(tree: ObservedProcessTree, frame: Frame) returns (observation: Observation)
    modifies tree
    ensures (tree.View(), observation) == Observe(MacOS, old(tree.View()), FullScan(frame))
  {
    ghost var before := tree.View();
    var selected := ResolveTreeCandidates(frame.identities,
      Ledger(tree.root, tree.known, tree.processGroupId, tree.processGroupStartedAt, tree.policy), frame.paths);
    observation := tree.ObserveSnapshots(MacOS, selected);
    NarrowScanRefinesFullScan(MacOS, before, frame);
  }
}
