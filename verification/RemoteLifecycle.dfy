/**
 * crates/shim/src/remote_lifecycle.rs: stopping the process tree of a remote listener.
 * The Shim computes its own closure; it is the same closure as the supervisor's, and
 * the order in which signals go out follows from that.
 */
module RemoteLifecycle {
  import opened Prelude
  import opened Lineage
  import opened ProcessTree

  /** `descendants`: the root first, then every snapshot its parent links lead to. */
  method SelectTree(root: ProcessSnapshot, snaps: seq<ProcessSnapshot>) returns (selected: seq<ProcessSnapshot>)
    ensures selected == [root] + Descendants({root.id}, snaps)
  {
    selected := [root];
    var selectedIds := {root.id};
    ghost var tree := [root] + Descendants({root.id}, snaps);
    while true
      invariant tree == selected + Descendants(selectedIds, snaps)
      decreases |Ids(snaps) - selectedIds|
    {
      var changed := false;
      ghost var before, found, done := selectedIds, [], selected;
      for i := 0 to |snaps|
        invariant selected == done + found
        invariant changed <==> found != []
        invariant (selectedIds, found) == Sweep(before, snaps[..i])
      {
        assert Front(snaps[..i + 1]) == snaps[..i] && Last(snaps[..i + 1]) == snaps[i];
        if snaps[i].id !in selectedIds && snaps[i].parentId in selectedIds {
          SeqAssociates(done, found, [snaps[i]]);
          selectedIds := selectedIds + {snaps[i].id};
          selected := selected + [snaps[i]];
          changed := true;
          found := found + [snaps[i]];
        }
      }
      assert snaps[..|snaps|] == snaps;
      if !changed {
        return;
      }
      PassShrinks(before, snaps);
      SeqAssociates(done, found, Descendants(selectedIds, snaps));
    }
  }

  /** A stable sort by the key `process.id == rootId`: false sorts before true. */
  function SortRootLast(rootId: nat, tree: seq<ProcessSnapshot>): seq<ProcessSnapshot> {
    Filter((p: ProcessSnapshot) => p.id != rootId, tree) + Filter((p: ProcessSnapshot) => p.id == rootId, tree)
  }

  lemma {:induction false} FilterAll<T>(p: T -> bool, xs: seq<T>)
    requires forall x :: x in xs ==> p(x)
    ensures Filter(p, xs) == xs
  {
    if xs != [] {
      assert xs[0] in xs && forall x :: x in xs[1..] ==> x in xs;
      FilterAll(p, xs[1..]);
    }
  }

  lemma {:induction false} FilterNone<T>(p: T -> bool, xs: seq<T>)
    requires forall x :: x in xs ==> !p(x)
    ensures Filter(p, xs) == []
  {
    if xs != [] {
      assert xs[0] in xs && forall x :: x in xs[1..] ==> x in xs;
      FilterNone(p, xs[1..]);
    }
  }

  /** The root moves from first to last; every other process keeps its place. */
  lemma SortedRootIsLast(root: ProcessSnapshot, snaps: seq<ProcessSnapshot>)
    ensures SortRootLast(root.id, [root] + Descendants({root.id}, snaps)) == Descendants({root.id}, snaps) + [root]
  {
    var rest := Descendants({root.id}, snaps);
    DescendantsExact({root.id}, snaps);
    var other, isRoot := (p: ProcessSnapshot) => p.id != root.id, (p: ProcessSnapshot) => p.id == root.id;
    FilterAll(other, rest);
    FilterNone(isRoot, rest);
    FilterAppend(other, [root], rest);
    FilterAppend(isRoot, [root], rest);
    assert Filter(other, [root]) == [] && Filter(isRoot, [root]) == [root];
    assert Filter(other, [root] + rest) == rest && Filter(isRoot, [root] + rest) == [root];
  }

  datatype Signal = Signal(process: ProcessSnapshot, force: bool)

  datatype StopResult = Stopped | SignalFailed | DidNotExit

  function ForcedSignals(tree: seq<ProcessSnapshot>, live: set<ProcessSnapshot>): seq<Signal> {
    if tree == [] then []
    else
      var earlier := ForcedSignals(Front(tree), live);
      if Last(tree) in live then earlier + [Signal(Last(tree), true)] else earlier
  }

  function PoliteSignals(tree: seq<ProcessSnapshot>): (r: seq<Signal>)
    ensures |r| == |tree| && forall i :: 0 <= i < |tree| ==> r[i] == Signal(tree[i], false)
  {
    seq(|tree|, i requires 0 <= i < |tree| => Signal(tree[i], false))
  }

  function Force(process: ProcessSnapshot): Signal {
    Signal(process, true)
  }

  /** The forced pass is for the processes found running, and only those, in the order of the tree. */
  lemma {:induction false} ForcedInOrder(tree: seq<ProcessSnapshot>, live: set<ProcessSnapshot>)
    ensures ForcedSignals(tree, live) == Map(Force, Filter((p: ProcessSnapshot) => p in live, tree))
  {
    var running := (p: ProcessSnapshot) => p in live;
    if tree != [] {
      ForcedInOrder(Front(tree), live);
      FilterAppend(running, Front(tree), [Last(tree)]);
      assert tree == Front(tree) + [Last(tree)] && [Last(tree)][1..] == [];
      assert Filter((p: ProcessSnapshot) => p in live, Front(tree)) == Filter(running, Front(tree));
    }
  }

  /** Signals go out in order up to and including the first one that cannot be delivered. */
  method SendInOrder(plan: seq<Signal>, refused: set<Signal>) returns (sent: seq<Signal>, ok: bool)
    ensures sent <= plan
    ensures ok ==> sent == plan && forall s :: s in plan ==> s !in refused
    ensures !ok ==> sent != [] && Last(sent) in refused && forall s :: s in Front(sent) ==> s !in refused
  {
    for i := 0 to |plan|
      invariant forall j :: 0 <= j < i ==> plan[j] !in refused
    {
      if plan[i] in refused {
        assert Front(plan[..i + 1]) == plan[..i];
        return plan[..i + 1], false;
      }
    }
    return plan, true;
  }

  /**
   * `terminate_tree`: a polite pass, a wait, a forced pass over the survivors, a wait.
   * `refused` are the signals the system will not deliver; `live` are the processes found
   * running when the forced pass reaches them, which asks about each one once; `stuck` are
   * those still running after the last wait.
   */
  method TerminateTree(root: ProcessSnapshot, snaps: seq<ProcessSnapshot>, refused: set<Signal>, live: set<ProcessSnapshot>, stuck: set<ProcessSnapshot>)
    returns (polite: seq<Signal>, forced: seq<Signal>, result: StopResult)
    ensures polite <= PoliteSignals(Descendants({root.id}, snaps) + [root])
    ensures forced <= ForcedSignals(Descendants({root.id}, snaps) + [root], live)
    ensures forced != [] ==> polite == PoliteSignals(Descendants({root.id}, snaps) + [root])
    ensures result.SignalFailed? <==> exists s :: s in polite + forced && s in refused
    ensures !result.SignalFailed? ==>
      && polite == PoliteSignals(Descendants({root.id}, snaps) + [root])
      && forced == ForcedSignals(Descendants({root.id}, snaps) + [root], live)
      && (result.DidNotExit? <==> exists p :: p in Descendants({root.id}, snaps) + [root] && p in stuck)
  {
    var tree := SelectTree(root, snaps);
    tree := SortRootLast(root.id, tree);
    SortedRootIsLast(root, snaps);
    forced := [];
    var ok;
    polite, ok := SendInOrder(PoliteSignals(tree), refused);
    if !ok {
      assert Last(polite) in polite + forced;
      return polite, forced, SignalFailed;
    }
    forced, ok := SendInOrder(ForcedSignals(tree, live), refused);
    if !ok {
      assert Last(forced) in polite + forced;
      return polite, forced, SignalFailed;
    }
    result := if exists p :: p in tree && p in stuck then DidNotExit else Stopped;
  }
}
