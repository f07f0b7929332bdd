/**
 * Reachability through parent links: the meaning that every process-tree loop in
 * the platform crate and the Shim is measured against. It is stated with explicit
 * paths and knows nothing about sweeps, candidate sets or enumeration order.
 */
module Lineage {

  // (child, parent) process ids.
  type Links = set<(nat, nat)>

  ghost predicate IsPath(roots: set<nat>, links: Links, path: seq<nat>) {
    && |path| > 0
    && path[0] in roots
    && forall k :: 0 < k < |path| ==> (path[k], path[k - 1]) in links
  }

  ghost predicate Reachable(roots: set<nat>, links: Links, id: nat) {
    exists path: seq<nat> :: IsPath(roots, links, path) && path[|path| - 1] == id
  }

  ghost predicate Closed(ids: set<nat>, links: Links) {
    forall link :: link in links && link.1 in ids ==> link.0 in ids
  }

  lemma RootReachable(roots: set<nat>, links: Links, id: nat)
    requires id in roots
    ensures Reachable(roots, links, id)
  {
    assert IsPath(roots, links, [id]);
  }

  lemma StepReachable(roots: set<nat>, links: Links, child: nat, parent: nat)
    requires (child, parent) in links && Reachable(roots, links, parent)
    ensures Reachable(roots, links, child)
  {
    var path :| IsPath(roots, links, path) && path[|path| - 1] == parent;
    assert IsPath(roots, links, path + [child]);
  }

  lemma ReachableLastStep(roots: set<nat>, links: Links, id: nat)
    requires Reachable(roots, links, id)
    ensures id in roots || exists parent :: (id, parent) in links && Reachable(roots, links, parent)
  {
    var path :| IsPath(roots, links, path) && path[|path| - 1] == id;
    if |path| > 1 {
      assert IsPath(roots, links, path[..|path| - 1]);
      assert (id, path[|path| - 2]) in links;
    }
  }

  lemma {:induction false} PathStaysClosed(roots: set<nat>, links: Links, ids: set<nat>, path: seq<nat>)
    requires roots <= ids && Closed(ids, links) && IsPath(roots, links, path)
    ensures path[|path| - 1] in ids
  {
    if |path| > 1 {
      var prefix := path[..|path| - 1];
      assert IsPath(roots, links, prefix);
      PathStaysClosed(roots, links, ids, prefix);
      assert (path[|path| - 1], path[|path| - 2]) in links;
    }
  }

  /** A closed set of reachable ids that contains the roots is exactly the reachable set. */
  lemma ClosedReachableExact(roots: set<nat>, links: Links, ids: set<nat>)
    requires roots <= ids && Closed(ids, links)
    requires forall id :: id in ids ==> Reachable(roots, links, id)
    ensures forall id :: id in ids <==> Reachable(roots, links, id)
  {
    forall id | Reachable(roots, links, id) ensures id in ids {
      var path :| IsPath(roots, links, path) && path[|path| - 1] == id;
      PathStaysClosed(roots, links, ids, path);
    }
  }
}
