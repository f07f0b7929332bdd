/**
 * How one frame of ProcessTree ends: which root it goes on with or why it stops there, which
 * group member stops it on Linux, what the ledger is then, and in which order processes are
 * reported. Everything is told from the fields of the snapshots.
 */
module LedgerOutcomes {
  import opened Prelude
  import opened Lineage
  import opened ProcessTree
  import opened LedgerSoundness

  // ---- the root ---------------------------------------------------------------------------------

  // The frame's first snapshot with the root's PID.
  ghost predicate RootSeen(l: Ledger, snaps: seq<ProcessSnapshot>, i: int) {
    0 <= i < |snaps| && snaps[i].id == l.root.id && forall j :: 0 <= j < i ==> snaps[j].id != l.root.id
  }

  ghost predicate RootReplaced(l: Ledger, snaps: seq<ProcessSnapshot>) {
    exists i :: RootSeen(l, snaps, i) && snaps[i].startedAt != l.root.startedAt
  }

  ghost predicate RootExecuted(l: Ledger, snaps: seq<ProcessSnapshot>) {
    exists i :: RootSeen(l, snaps, i) && snaps[i].startedAt == l.root.startedAt && snaps[i].executable != l.root.executable
  }

  lemma {:induction false} RootSeenSomewhere(l: Ledger, snaps: seq<ProcessSnapshot>)
    ensures FindId(snaps, l.root.id).Some? <==> exists i :: RootSeen(l, snaps, i)
    ensures forall i :: RootSeen(l, snaps, i) ==> FindId(snaps, l.root.id) == Some(snaps[i])
  {
    if snaps != [] {
      RootSeenSomewhere(l, Front(snaps));
      if FindId(Front(snaps), l.root.id).Some? {
        var i :| RootSeen(l, Front(snaps), i);
        assert RootSeen(l, snaps, i);
      } else if Last(snaps).id == l.root.id {
        forall j | 0 <= j < |snaps| - 1 ensures snaps[j].id != l.root.id {
          assert Front(snaps)[j] in Front(snaps);
        }
        assert RootSeen(l, snaps, |snaps| - 1);
      }
      forall i | RootSeen(l, snaps, i) ensures FindId(snaps, l.root.id) == Some(snaps[i]) {
        if i < |snaps| - 1 { assert RootSeen(l, Front(snaps), i); }
      }
    }
  }

  /**
   * The root, exactly. A PID that now belongs to a process started at another time stops the
   * frame, and so does another executable of the very process if the executable is fixed; both
   * leave the ledger as it was. Otherwise the frame goes on with the root as it is seen now, or
   * as it was known if it is not seen, and nothing but the known processes can change.
   */
  lemma RootDecidedExactly(platform: Platform, l: Ledger, snaps: seq<ProcessSnapshot>)
    ensures var (l', r) := Observe(platform, l, snaps);
            && (RootReplaced(l, snaps) ==> (l', r) == (l, Err(RootReused(l.root.id))))
            && (RootExecuted(l, snaps) && l.policy == Fixed ==> (l', r) == (l, Err(RootExecutableChanged(l.root.id))))
            && (!RootReplaced(l, snaps) && !(RootExecuted(l, snaps) && l.policy == Fixed) ==>
                  && (r.Err? ==> r.error.ForeignGroupMember?)
                  && (forall i :: RootSeen(l, snaps, i) ==> l'.root == l.root.(executable := snaps[i].executable))
                  && (!(exists i :: RootSeen(l, snaps, i)) ==> l'.root == l.root)
                  && l' == l.(root := l'.root, known := l'.known))
  {
    RootSeenSomewhere(l, snaps);
    hide Refresh;
    hide Adopt;
    hide GroupMembers;
    hide Descendants;
    hide Present;
    hide FirstForeign;
  }

  // ---- the process group -----------------------------------------------------------------------------

  function Member(group: Option<nat>, start: nat): ProcessSnapshot -> bool {
    (s: ProcessSnapshot) => group == Some(s.groupId) && s.startedAt >= start
  }

  /** The owned group's members are those of its id that started no earlier, in enumeration order. */
  lemma {:induction false} MembersInOrder(group: Option<nat>, start: nat, snaps: seq<ProcessSnapshot>)
    ensures GroupMembers(group, start, snaps) == Filter(Member(group, start), snaps)
  {
    if snaps != [] {
      MembersInOrder(group, start, Front(snaps));
      assert snaps == Front(snaps) + [Last(snaps)];
      FilterAppend(Member(group, start), Front(snaps), [Last(snaps)]);
      assert Filter(Member(group, start), [Last(snaps)]) == if Member(group, start)(Last(snaps)) then [Last(snaps)] else [] by {
        assert [Last(snaps)][1..] == [];
      }
    }
  }

  // What is left of the ledger when the frame has been compared with it: the root entry as it is seen
  // now or was known, and of the others those whose very process still runs, as it is seen now.
  ghost predicate SurvivorsOf(l: Ledger, snaps: seq<ProcessSnapshot>, known: seq<ProcessSnapshot>) {
    && (forall x :: x in known ==>
          (exists k :: k in l.known && k.id == x.id && (k.id == l.root.id || k.startedAt == x.startedAt)) && (x.id != l.root.id ==> x in snaps))
    && (forall k :: k in l.known && (k.id == l.root.id || exists s :: s in snaps && s.id == k.id && s.startedAt == k.startedAt) ==>
          exists x :: x in known && x.id == k.id)
  }

  lemma RefreshSurvivors(l: Ledger, snaps: seq<ProcessSnapshot>)
    ensures SurvivorsOf(l, snaps, Refresh(l.known, l.root.id, FindId(snaps, l.root.id), snaps))
  {
    var current := FindId(snaps, l.root.id);
    var known := Refresh(l.known, l.root.id, current, snaps);
    RefreshFacts(l.known, l.root.id, current, snaps);
    forall x | x in known
      ensures (exists k :: k in l.known && k.id == x.id && (k.id == l.root.id || k.startedAt == x.startedAt)) && (x.id != l.root.id ==> x in snaps)
    {
      var k :| k in l.known && Survives(k, x, l.root.id, current, snaps);
      assert k.id == x.id && (k.id == l.root.id || k.startedAt == x.startedAt);
    }
    forall k | k in l.known && (k.id == l.root.id || exists s :: s in snaps && s.id == k.id && s.startedAt == k.startedAt)
      ensures exists x :: x in known && x.id == k.id
    {
      if k.id != l.root.id {
        var s :| s in snaps && s.id == k.id && s.startedAt == k.startedAt;
        assert SameInstance(k, s);
      }
      RefreshedIds(l, snaps);
      assert k.id in SurvivingIds(l, snaps) && k.id in Ids(known);
    }
  }

  // No survivor and no descendant of one is this very process.
  ghost predicate Foreign(known: seq<ProcessSnapshot>, snaps: seq<ProcessSnapshot>, s: ProcessSnapshot) {
    && (forall k :: k in known ==> k.id != s.id || k.startedAt != s.startedAt)
    && (forall d :: d in Descendants(Ids(known), snaps) ==> d.id != s.id || d.startedAt != s.startedAt)
  }

  // The first group member of an enumeration that is foreign to the frame.
  ghost predicate FirstForeignAt(l: Ledger, known: seq<ProcessSnapshot>, frame: seq<ProcessSnapshot>, snaps: seq<ProcessSnapshot>, i: int) {
    && 0 <= i < |snaps| && Member(l.group, l.groupStart)(snaps[i]) && Foreign(known, frame, snaps[i])
    && NoneForeign(l, known, frame, snaps[..i])
  }

  ghost predicate NoneForeign(l: Ledger, known: seq<ProcessSnapshot>, frame: seq<ProcessSnapshot>, snaps: seq<ProcessSnapshot>) {
    forall s :: s in snaps && Member(l.group, l.groupStart)(s) ==> !Foreign(known, frame, s)
  }

  // What a search for a foreign member among the first snapshots must return.
  ghost predicate FoundForeign(l: Ledger, known: seq<ProcessSnapshot>, frame: seq<ProcessSnapshot>, snaps: seq<ProcessSnapshot>, found: Option<ProcessSnapshot>) {
    match found
    case None => NoneForeign(l, known, frame, snaps)
    case Some(s) => exists i :: FirstForeignAt(l, known, frame, snaps, i) && snaps[i] == s
  }

  lemma FilterSnoc(p: ProcessSnapshot -> bool, snaps: seq<ProcessSnapshot>)
    requires snaps != []
    ensures Filter(p, snaps) == Filter(p, Front(snaps)) + if p(Last(snaps)) then [Last(snaps)] else []
  {
    assert snaps == Front(snaps) + [Last(snaps)];
    FilterAppend(p, Front(snaps), [Last(snaps)]);
    assert [Last(snaps)][1..] == [];
  }

  lemma {:induction false} ForeignFound(l: Ledger, known: seq<ProcessSnapshot>, frame: seq<ProcessSnapshot>, snaps: seq<ProcessSnapshot>)
    ensures FoundForeign(l, known, frame, snaps,
                         FirstForeign(Filter(Member(l.group, l.groupStart), snaps), known, Descendants(Ids(known), frame)))
  {
    if snaps != [] {
      var last, permitted := Last(snaps), Descendants(Ids(known), frame);
      ForeignFound(l, known, frame, Front(snaps));
      SearchStep(Member(l.group, l.groupStart), snaps, known, permitted);
      assert Attributed(known, permitted, last) <==> !Foreign(known, frame, last);
      hide Foreign;
      hide Attributed;
      hide Filter;
      hide FirstForeign;
      OneMoreSearched(l, known, frame, snaps, FirstForeign(Filter(Member(l.group, l.groupStart), Front(snaps)), known, permitted));
    }
  }

  lemma SearchStep(member: ProcessSnapshot -> bool, snaps: seq<ProcessSnapshot>, known: seq<ProcessSnapshot>, permitted: seq<ProcessSnapshot>)
    requires snaps != []
    ensures var earlier, last := FirstForeign(Filter(member, Front(snaps)), known, permitted), Last(snaps);
            FirstForeign(Filter(member, snaps), known, permitted) ==
              if earlier.Some? then earlier else if member(last) && !Attributed(known, permitted, last) then Some(last) else None
  {
    FilterSnoc(member, snaps);
    hide Filter;
    hide Attributed;
    if member(Last(snaps)) {
      assert Front(Filter(member, snaps)) == Filter(member, Front(snaps)) && Last(Filter(member, snaps)) == Last(snaps);
    } else {
      assert Filter(member, snaps) == Filter(member, Front(snaps));
    }
  }

  lemma OneMoreSearched(l: Ledger, known: seq<ProcessSnapshot>, frame: seq<ProcessSnapshot>, snaps: seq<ProcessSnapshot>, earlier: Option<ProcessSnapshot>)
    requires snaps != [] && FoundForeign(l, known, frame, Front(snaps), earlier)
    ensures var member, last := Member(l.group, l.groupStart), Last(snaps);
            FoundForeign(l, known, frame, snaps,
                         if earlier.Some? then earlier else if member(last) && Foreign(known, frame, last) then Some(last) else None)
  {
    hide Foreign;
    var front, last := Front(snaps), Last(snaps);
    assert snaps == front + [last];
    if earlier.Some? {
      var i :| FirstForeignAt(l, known, frame, front, i) && front[i] == earlier.value;
      assert snaps[..i] == front[..i] && FirstForeignAt(l, known, frame, snaps, i);
    } else {
      assert snaps[..|front|] == front && snaps[|front|] == last;
      assert Member(l.group, l.groupStart)(last) && Foreign(known, frame, last) ==> FirstForeignAt(l, known, frame, snaps, |front|);
    }
  }

  /**
   * Once the root is decided, exactly: a frame is refused on Linux alone, for an owned group alone,
   * and then for the first member of it that is neither a survivor nor a descendant of one; the
   * ledger is then what survived. On any other platform it is never refused.
   */
  lemma GroupDecidedExactly(platform: Platform, l: Ledger, snaps: seq<ProcessSnapshot>) returns (survivors: seq<ProcessSnapshot>)
    requires !RootReplaced(l, snaps) && !(RootExecuted(l, snaps) && l.policy == Fixed)
    ensures SurvivorsOf(l, snaps, survivors)
    ensures var (l', r) := Observe(platform, l, snaps);
            && (r.Err? <==> platform == Linux && exists i :: FirstForeignAt(l, survivors, snaps, snaps, i))
            && (forall i :: r.Err? && FirstForeignAt(l, survivors, snaps, snaps, i) ==> r.error == ForeignGroupMember(snaps[i].id))
            && (r.Err? ==> l'.known == survivors)
            && (r.Ok? ==> survivors <= l'.known)
  {
    var current := FindId(snaps, l.root.id);
    survivors := Refresh(l.known, l.root.id, current, snaps);
    RootSeenSomewhere(l, snaps);
    assert CheckRoot(l, current).Ok?;
    RefreshSurvivors(l, snaps);
    MembersInOrder(l.group, l.groupStart, snaps);
    ForeignFound(l, survivors, snaps, snaps);
    ObserveEnds(platform, l, snaps, survivors);
    OneFirstForeign(l, survivors, snaps, snaps);
    hide Observe;
    hide SurvivorsOf;
    hide Refresh;
    hide Filter;
    hide GroupMembers;
    hide Descendants;
    hide FirstForeign;
    hide FirstForeignAt;
    hide NoneForeign;
  }

  // How the frame ends once the root is decided, from what the search for a foreign member found.
  lemma ObserveEnds(platform: Platform, l: Ledger, snaps: seq<ProcessSnapshot>, survivors: seq<ProcessSnapshot>)
    requires CheckRoot(l, FindId(snaps, l.root.id)).Ok? && survivors == Refresh(l.known, l.root.id, FindId(snaps, l.root.id), snaps)
    ensures var (l', r) := Observe(platform, l, snaps);
            var found := FirstForeign(GroupMembers(l.group, l.groupStart, snaps), survivors, Descendants(Ids(survivors), snaps));
            && (r.Err? <==> platform == Linux && found.Some?)
            && (r.Err? ==> r.error == ForeignGroupMember(found.value.id) && l'.known == survivors)
            && (r.Ok? ==> survivors <= l'.known)
  {
    var members := GroupMembers(l.group, l.groupStart, snaps);
    GroupMembersExact(l.group, l.groupStart, snaps);
    assert l.group.None? ==> members == [] by {
      if members != [] { assert members[0] in members; }
    }
    AdoptFacts(survivors, members + Descendants(Ids(survivors), snaps));
    hide Refresh;
    hide Adopt;
    hide GroupMembers;
    hide Descendants;
    hide Present;
    hide InGroup;
  }

  lemma OneFirstForeign(l: Ledger, known: seq<ProcessSnapshot>, frame: seq<ProcessSnapshot>, snaps: seq<ProcessSnapshot>)
    ensures forall i, j :: FirstForeignAt(l, known, frame, snaps, i) && FirstForeignAt(l, known, frame, snaps, j) ==> i == j
    ensures NoneForeign(l, known, frame, snaps) ==> !exists i :: FirstForeignAt(l, known, frame, snaps, i)
  {
    hide Foreign;
    assert forall i, j :: 0 <= i < j < |snaps| ==> snaps[..j][i] == snaps[i];
  }

  // ---- what is reported ---------------------------------------------------------------------------------

  function Running(snaps: seq<ProcessSnapshot>): ProcessSnapshot -> bool {
    (k: ProcessSnapshot) => exists s :: s in snaps && s.id == k.id && s.startedAt == k.startedAt
  }

  // One after the other, the same processes.
  ghost predicate SameProcesses(a: seq<ProcessSnapshot>, b: seq<ProcessSnapshot>) {
    |a| == |b| && forall i :: 0 <= i < |a| ==> a[i].id == b[i].id && a[i].startedAt == b[i].startedAt
  }

  lemma {:induction false} PresentInOrder(known: seq<ProcessSnapshot>, snaps: seq<ProcessSnapshot>)
    ensures SameProcesses(Present(known, snaps), Filter(Running(snaps), known))
  {
    if known != [] {
      PresentInOrder(Front(known), snaps);
      FilterSnoc(Running(snaps), known);
      var found := FindInstance(snaps, Last(known));
      if found.Some? { assert found.value in snaps && Running(snaps)(Last(known)); }
      if Running(snaps)(Last(known)) {
        var s :| s in snaps && s.id == Last(known).id && s.startedAt == Last(known).startedAt;
        assert SameInstance(Last(known), s);
      }
    }
  }

  /** A successful frame reports the running processes of the new ledger, in the ledger's order. */
  lemma ReportedInLedgerOrder(platform: Platform, l: Ledger, snaps: seq<ProcessSnapshot>)
    requires Observe(platform, l, snaps).1.Ok?
    ensures SameProcesses(Observe(platform, l, snaps).1.value, Filter(Running(snaps), Observe(platform, l, snaps).0.known))
    ensures forall p :: p in Observe(platform, l, snaps).1.value ==> p in snaps
  {
    var known := Observe(platform, l, snaps).0.known;
    PresentInOrder(known, snaps);
    PresentFacts(known, snaps);
    hide Refresh;
    hide Adopt;
    hide GroupMembers;
    hide Descendants;
    hide Filter;
  }

  /** Before any frame: the group counts from the given start or else from the root's own, and the executable is fixed. */
  lemma FirstLedger(root: ProcessSnapshot, group: Option<nat>, groupStart: Option<nat>, owned: seq<ProcessSnapshot>)
    ensures var l := InitialLedger(root, group, groupStart, owned);
            && l.root == root && l.group == group && l.policy == Fixed
            && (forall start :: groupStart == Some(start) ==> l.groupStart == start)
            && (groupStart == None ==> (Member(group, l.groupStart)(root) <==> group == Some(root.groupId)))
            && (groupStart == None ==> forall s :: Member(group, l.groupStart)(s) ==> s.startedAt >= root.startedAt)
            && owned <= l.known <= owned + [root] && exists k :: k in l.known && k.id == root.id && k.startedAt == root.startedAt
  {
    InitialLedgerHasRoot(root, group, groupStart, owned);
  }

  lemma InitialLedgerHasRoot(root: ProcessSnapshot, group: Option<nat>, groupStart: Option<nat>, owned: seq<ProcessSnapshot>)
    ensures exists k :: k in InitialLedger(root, group, groupStart, owned).known && k.id == root.id && k.startedAt == root.startedAt
  {
    if k :| k in owned && SameInstance(k, root) {
      assert k in InitialLedger(root, group, groupStart, owned).known;
    } else {
      assert (owned + [root])[|owned|] == root;
    }
  }
}
