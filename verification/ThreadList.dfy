/**
 * packages/host-runtime/src/external-thread-list.ts: the order of thread rows and the paging
 * of the external ones. A page is everything after an anchor, cut at a limit; the anchor of
 * the next page is the last row of this one.
 */
module ThreadList {
  import opened Prelude

  // Host thread ids are compared as JavaScript strings: code unit by code unit.
  type ThreadId = seq<nat>

  datatype Direction = Ascending | Descending

  datatype Source = External | Official

  datatype Entry = Entry(source: Source, id: ThreadId, timestamp: int)

  datatype Anchor = Anchor(timestamp: int, id: ThreadId)

  datatype Page = Page(data: seq<Entry>, hasMore: bool)

  // ---- comparing ------------------------------------------------------------------------

  predicate IdBefore(a: ThreadId, b: ThreadId) {
    if b == [] then false
    else if a == [] then true
    else if a[0] != b[0] then a[0] < b[0]
    else IdBefore(a[1..], b[1..])
  }

  function CompareTimestamp(left: int, right: int, direction: Direction): int {
    if left == right then 0 else if direction.Ascending? then left - right else right - left
  }

  function CompareIds(a: ThreadId, b: ThreadId): int {
    if a == b then 0 else if IdBefore(a, b) then -1 else 1
  }

  function CompareEntries(left: Entry, right: Entry, direction: Direction): int {
    var byTimestamp := CompareTimestamp(left.timestamp, right.timestamp, direction);
    if byTimestamp != 0 then byTimestamp
    else if left.source != right.source then (if left.source.External? then -1 else 1)
    else if left.source.Official? then 0
    else CompareIds(left.id, right.id)
  }

  function CompareAnchor(entry: Entry, anchor: Anchor, direction: Direction): int {
    var byTimestamp := CompareTimestamp(entry.timestamp, anchor.timestamp, direction);
    if byTimestamp != 0 then byTimestamp else CompareIds(entry.id, anchor.id)
  }

  function ExternalAnchor(entry: Entry): Anchor
    requires entry.source.External?
  {
    Anchor(entry.timestamp, entry.id)
  }

  lemma {:induction false} IdTotal(a: ThreadId, b: ThreadId)
    ensures a != b ==> IdBefore(a, b) != IdBefore(b, a)
    ensures a == b ==> !IdBefore(a, b)
  {
    if a != [] && b != [] && a[0] == b[0] {
      assert a == [a[0]] + a[1..] && b == [b[0]] + b[1..];
      IdTotal(a[1..], b[1..]);
    }
  }

  lemma {:induction false} IdTransitive(a: ThreadId, b: ThreadId, c: ThreadId)
    requires IdBefore(a, b) && IdBefore(b, c)
    ensures IdBefore(a, c)
  {
    if a != [] && a[0] == b[0] == c[0] {
      IdTransitive(a[1..], b[1..], c[1..]);
    }
  }

  /** Swapping the rows swaps the sign. */
  lemma CompareSwaps(a: Entry, b: Entry, direction: Direction)
    ensures CompareEntries(a, b, direction) < 0 <==> CompareEntries(b, a, direction) > 0
    ensures CompareEntries(a, b, direction) == 0 <==> CompareEntries(b, a, direction) == 0
  {
    IdTotal(a.id, b.id);
  }

  /** The comparison is a strict weak order: transitive, and so is being tied. */
  lemma CompareTransitive(a: Entry, b: Entry, c: Entry, direction: Direction)
    requires CompareEntries(a, b, direction) <= 0 && CompareEntries(b, c, direction) <= 0
    ensures CompareEntries(a, c, direction) <= 0
    ensures CompareEntries(a, c, direction) == 0 <==> CompareEntries(a, b, direction) == 0 && CompareEntries(b, c, direction) == 0
  {
    IdTotal(a.id, b.id);
    IdTotal(b.id, c.id);
    IdTotal(a.id, c.id);
    if IdBefore(a.id, b.id) && IdBefore(b.id, c.id) { IdTransitive(a.id, b.id, c.id); }
  }

  /** Rows tie exactly when both are official with one timestamp, or external with one timestamp and id. */
  lemma TiesExactly(a: Entry, b: Entry, direction: Direction)
    ensures CompareEntries(a, b, direction) == 0
      <==> a.timestamp == b.timestamp && a.source == b.source && (a.source.External? ==> a.id == b.id)
  {
    IdTotal(a.id, b.id);
  }

  // The ids agree up to a place where the first one ends or has the smaller code unit.
  ghost predicate LexicographicAt(a: ThreadId, b: ThreadId, k: nat) {
    && k <= |a| && k < |b| && a[..k] == b[..k] && (k < |a| ==> a[k] < b[k])
  }

  lemma {:induction false} IdOrderExact(a: ThreadId, b: ThreadId)
    ensures IdBefore(a, b) <==> exists k: nat :: LexicographicAt(a, b, k)
  {
    if a != [] && b != [] && a[0] == b[0] {
      IdOrderExact(a[1..], b[1..]);
      if IdBefore(a[1..], b[1..]) {
        var k: nat :| LexicographicAt(a[1..], b[1..], k);
        assert a[..k + 1] == [a[0]] + a[1..][..k] && b[..k + 1] == [b[0]] + b[1..][..k];
        assert LexicographicAt(a, b, k + 1);
      }
      if k: nat :| LexicographicAt(a, b, k) {
        assert k > 0;
        assert a[1..][..k - 1] == a[..k][1..] && b[1..][..k - 1] == b[..k][1..];
        assert LexicographicAt(a[1..], b[1..], k - 1);
      }
    } else if b != [] {
      if a == [] || a[0] < b[0] {
        assert LexicographicAt(a, b, 0);
      } else {
        forall k: nat ensures !LexicographicAt(a, b, k) {
          if k > 0 && k <= |a| && k < |b| { assert a[..k][0] == a[0] && b[..k][0] == b[0]; }
        }
      }
    }
  }

  /**
   * Which of two rows comes first: ascending the older, descending the newer one; at one time an
   * external one before an official one, and of two external ones the one with the smaller id.
   */
  lemma ComesFirstExactly(a: Entry, b: Entry, direction: Direction)
    ensures CompareEntries(a, b, direction) < 0 <==>
      if a.timestamp != b.timestamp then (direction == Ascending <==> a.timestamp < b.timestamp)
      else if a.source != b.source then a.source == External
      else a.source == External && exists k: nat :: LexicographicAt(a.id, b.id, k)
  {
    IdOrderExact(a.id, b.id);
    IdTotal(a.id, b.id);
  }

  /** Against the anchor of an external row, external rows compare as against the row itself. */
  lemma AnchorStandsForRow(entry: Entry, row: Entry, direction: Direction)
    requires entry.source.External? && row.source.External?
    ensures CompareAnchor(entry, ExternalAnchor(row), direction) == CompareEntries(entry, row, direction)
  {
  }

  // ---- sorting -------------------------------------------------------------------------------

  ghost predicate Sorted(rows: seq<Entry>, direction: Direction) {
    forall i, j :: 0 <= i < j < |rows| ==> CompareEntries(rows[i], rows[j], direction) <= 0
  }

  function Insert(row: Entry, rows: seq<Entry>, direction: Direction): seq<Entry> {
    if rows == [] || CompareEntries(row, rows[0], direction) < 0 then [row] + rows
    else [rows[0]] + Insert(row, rows[1..], direction)
  }

  /** Insertion sort by `CompareEntries`; `SortedUnique` says that for external rows any other sort agrees. */
  function Sort(rows: seq<Entry>, direction: Direction): seq<Entry> {
    if rows == [] then [] else Insert(Last(rows), Sort(Front(rows), direction), direction)
  }

  lemma {:induction false} InsertMembers(row: Entry, rows: seq<Entry>, direction: Direction)
    ensures multiset(Insert(row, rows, direction)) == multiset(rows) + multiset{row}
  {
    if !(rows == [] || CompareEntries(row, rows[0], direction) < 0) {
      InsertMembers(row, rows[1..], direction);
      assert rows == [rows[0]] + rows[1..];
    }
  }

  lemma SortedTail(rows: seq<Entry>, direction: Direction)
    requires rows != [] && Sorted(rows, direction)
    ensures Sorted(rows[1..], direction)
    ensures forall r :: r in rows[1..] ==> CompareEntries(rows[0], r, direction) <= 0
  {
  }

  lemma SortedCons(first: Entry, rest: seq<Entry>, direction: Direction)
    requires Sorted(rest, direction) && forall r :: r in rest ==> CompareEntries(first, r, direction) <= 0
    ensures Sorted([first] + rest, direction)
  {
  }

  lemma {:induction false} InsertSorted(row: Entry, rows: seq<Entry>, direction: Direction)
    requires Sorted(rows, direction)
    ensures Sorted(Insert(row, rows, direction), direction)
  {
    if rows == [] {
    } else if CompareEntries(row, rows[0], direction) < 0 {
      SortedTail(rows, direction);
      forall r | r in rows ensures CompareEntries(row, r, direction) <= 0 {
        assert rows == [rows[0]] + rows[1..];
        CompareTransitive(row, rows[0], r, direction);
      }
      SortedCons(row, rows, direction);
    } else {
      SortedTail(rows, direction);
      InsertSorted(row, rows[1..], direction);
      InsertMembers(row, rows[1..], direction);
      forall r | r in Insert(row, rows[1..], direction) ensures CompareEntries(rows[0], r, direction) <= 0 {
        assert r in multiset(Insert(row, rows[1..], direction));
        CompareSwaps(row, rows[0], direction);
      }
      SortedCons(rows[0], Insert(row, rows[1..], direction), direction);
    }
  }

  lemma {:induction false} SortExact(rows: seq<Entry>, direction: Direction)
    ensures Sorted(Sort(rows, direction), direction)
    ensures multiset(Sort(rows, direction)) == multiset(rows)
  {
    if rows != [] {
      SortExact(Front(rows), direction);
      InsertSorted(Last(rows), Sort(Front(rows), direction), direction);
      InsertMembers(Last(rows), Sort(Front(rows), direction), direction);
      assert rows == Front(rows) + [Last(rows)];
    }
  }

  ghost predicate DistinctRows(rows: seq<Entry>) {
    && (forall r :: r in rows ==> r.source.External?)
    && forall i, j :: 0 <= i < j < |rows| ==> rows[i].id != rows[j].id
  }

  // Among rows with distinct ids no two tie, so the order is strict.
  ghost predicate StrictlySorted(rows: seq<Entry>, direction: Direction) {
    forall i, j :: 0 <= i < j < |rows| ==> CompareEntries(rows[i], rows[j], direction) < 0
  }

  lemma DistinctByCount(rows: seq<Entry>)
    requires DistinctRows(rows)
    ensures forall r :: multiset(rows)[r] <= 1
    decreases rows
  {
    if rows != [] {
      assert rows == Front(rows) + [Last(rows)];
      DistinctByCount(Front(rows));
      assert Last(rows) !in Front(rows);
    }
  }

  lemma CountOfTwo(rows: seq<Entry>, i: nat, j: nat)
    requires i < j < |rows| && rows[i] == rows[j]
    ensures multiset(rows)[rows[i]] >= 2
  {
    assert rows == rows[..j] + rows[j..];
    assert rows[i] in rows[..j] && rows[j] in rows[j..];
    assert multiset(rows) == multiset(rows[..j]) + multiset(rows[j..]);
  }

  lemma SameMembers(a: seq<Entry>, b: seq<Entry>)
    requires multiset(a) == multiset(b)
    ensures |a| == |b| && forall r :: r in a <==> r in b
  {
    assert |multiset(a)| == |a| && |multiset(b)| == |b|;
    assert forall r :: (r in a <==> r in multiset(a)) && (r in b <==> r in multiset(b));
  }

  // Two places of a permutation of distinct rows hold rows with different ids.
  lemma PermutedApart(rows: seq<Entry>, permuted: seq<Entry>, i: nat, j: nat)
    requires DistinctRows(rows) && multiset(permuted) == multiset(rows) && i < j < |permuted|
    ensures permuted[i].id != permuted[j].id
  {
    DistinctByCount(rows);
    SameMembers(rows, permuted);
    if permuted[i] == permuted[j] { CountOfTwo(permuted, i, j); }
    assert permuted[i] in rows && permuted[j] in rows;
    var a :| 0 <= a < |rows| && rows[a] == permuted[i];
    var b :| 0 <= b < |rows| && rows[b] == permuted[j];
    assert a != b;
  }

  /** Sorting external rows with distinct ids leaves no ties: their order is strict and total. */
  lemma SortStrict(rows: seq<Entry>, direction: Direction)
    requires DistinctRows(rows)
    ensures StrictlySorted(Sort(rows, direction), direction)
    ensures |Sort(rows, direction)| == |rows| && forall r :: r in Sort(rows, direction) <==> r in rows
  {
    var sorted := Sort(rows, direction);
    SortExact(rows, direction);
    SameMembers(sorted, rows);
    forall i, j | 0 <= i < j < |sorted| ensures CompareEntries(sorted[i], sorted[j], direction) < 0 {
      PermutedApart(rows, sorted, i, j);
      TiesExactly(sorted[i], sorted[j], direction);
    }
  }

  lemma TailMembers(rows: seq<Entry>)
    requires rows != []
    ensures multiset(rows[1..]) == multiset(rows) - multiset{rows[0]}
  {
    assert rows == [rows[0]] + rows[1..];
  }

  /** Whatever algorithm sorts them, the result is the same: the strictly sorted rows are unique. */
  lemma {:induction false} SortedUnique(a: seq<Entry>, b: seq<Entry>, direction: Direction)
    requires StrictlySorted(a, direction) && StrictlySorted(b, direction)
    requires multiset(a) == multiset(b)
    ensures a == b
  {
    SameMembers(a, b);
    if a != [] {
      FirstIsLeast(a, b, direction);
      TailMembers(a);
      TailMembers(b);
      SortedUnique(a[1..], b[1..], direction);
      assert a == [a[0]] + a[1..] && b == [b[0]] + b[1..];
    }
  }

  lemma FirstIsLeast(a: seq<Entry>, b: seq<Entry>, direction: Direction)
    requires a != [] && b != [] && StrictlySorted(a, direction) && StrictlySorted(b, direction)
    requires multiset(a) == multiset(b)
    ensures a[0] == b[0]
  {
    SameMembers(a, b);
    assert a[0] in b && b[0] in a;
    var i :| 0 <= i < |b| && b[i] == a[0];
    var j :| 0 <= j < |a| && a[j] == b[0];
    if i > 0 && j > 0 { CompareSwaps(a[0], a[j], direction); }
  }

  // ---- paging -----------------------------------------------------------------------------------

  function After(rows: seq<Entry>, anchor: Option<Anchor>, direction: Direction): seq<Entry> {
    match anchor
    case None => rows
    case Some(at) => Filter((row: Entry) => CompareAnchor(row, at, direction) > 0, rows)
  }

  /** The page `listExternalThreadMetadata` cuts from the rows that match its query. */
  function ListPage(matching: seq<Entry>, anchor: Option<Anchor>, limit: nat, direction: Direction): Page {
    var rows := After(Sort(matching, direction), anchor, direction);
    Page(if limit <= |rows| then rows[..limit] else rows, |rows| > limit)
  }

  // A reader who lists again after the last row of each page until no more are announced.
  datatype Listing = More(data: seq<Entry>) | Done(data: seq<Entry>)

  function NextAnchor(data: seq<Entry>): Option<Anchor> {
    if data == [] || Last(data).source.Official? then None else Some(ExternalAnchor(Last(data)))
  }

  function ListOn(listing: Listing, matching: seq<Entry>, limit: nat, direction: Direction): Listing {
    if listing.Done? then listing
    else
      var page := ListPage(matching, NextAnchor(listing.data), limit, direction);
      if page.hasMore then More(listing.data + page.data) else Done(listing.data + page.data)
  }

  function ListAll(matching: seq<Entry>, limits: seq<nat>, direction: Direction): Listing {
    if limits == [] then More([]) else ListOn(ListAll(matching, Front(limits), direction), matching, Last(limits), direction)
  }

  lemma {:induction false} FilterFrom<T>(p: T -> bool, xs: seq<T>, k: nat)
    requires k <= |xs|
    requires forall i :: 0 <= i < k ==> !p(xs[i])
    requires forall i :: k <= i < |xs| ==> p(xs[i])
    ensures Filter(p, xs) == xs[k..]
  {
    if xs == [] {
    } else if k == 0 {
      FilterFrom(p, xs[1..], 0);
    } else {
      FilterFrom(p, xs[1..], k - 1);
    }
  }

  lemma AfterRow(rows: seq<Entry>, k: nat, direction: Direction)
    requires StrictlySorted(rows, direction) && (forall r :: r in rows ==> r.source.External?) && k < |rows|
    ensures After(rows, Some(ExternalAnchor(rows[k])), direction) == rows[k + 1..]
  {
    var at := ExternalAnchor(rows[k]);
    forall i | 0 <= i < |rows| ensures CompareAnchor(rows[i], at, direction) > 0 <==> i > k {
      AnchorStandsForRow(rows[i], rows[k], direction);
      CompareSwaps(rows[i], rows[k], direction);
      TiesExactly(rows[k], rows[k], direction);
    }
    FilterFrom((row: Entry) => CompareAnchor(row, at, direction) > 0, rows, k + 1);
  }

  lemma NextRows(matching: seq<Entry>, data: seq<Entry>, direction: Direction)
    requires DistinctRows(matching) && data <= Sort(matching, direction)
    ensures After(Sort(matching, direction), NextAnchor(data), direction) == Sort(matching, direction)[|data|..]
  {
    var rows := Sort(matching, direction);
    SortStrict(matching, direction);
    if data != [] {
      assert Last(data) == rows[|data| - 1];
      AfterRow(rows, |data| - 1, direction);
    }
  }

  lemma OnePage(matching: seq<Entry>, data: seq<Entry>, limit: nat, direction: Direction)
    requires DistinctRows(matching) && data <= Sort(matching, direction)
    ensures var rows := Sort(matching, direction);
            ListOn(More(data), matching, limit, direction)
            == if |data| + limit < |rows| then More(rows[..|data| + limit]) else Done(rows)
  {
    var rows := Sort(matching, direction);
    NextRows(matching, data, direction);
    if |data| + limit <= |rows| {
      assert rows[|data|..][..limit] == rows[|data|..|data| + limit];
      assert data + rows[|data|..|data| + limit] == rows[..|data| + limit];
    }
    assert data + rows[|data|..] == rows;
  }

  /**
   * Over unchanged records, in either direction and under any positive limits, the pages put
   * together are always a prefix of the one sorted list, all of it once no more are
   * announced, and that happens within as many pages as there are rows.
   */
  lemma {:induction false} PagingIsExact(matching: seq<Entry>, limits: seq<nat>, direction: Direction)
    requires DistinctRows(matching) && forall limit :: limit in limits ==> limit > 0
    ensures ListAll(matching, limits, direction).data <= Sort(matching, direction)
    ensures ListAll(matching, limits, direction).Done? ==> ListAll(matching, limits, direction).data == Sort(matching, direction)
    ensures ListAll(matching, limits, direction).More? ==> |limits| <= |ListAll(matching, limits, direction).data|
    ensures ListAll(matching, limits, direction).More? && limits != [] ==> |ListAll(matching, limits, direction).data| < |matching|
  {
    if limits != [] {
      assert forall limit :: limit in Front(limits) ==> limit in limits;
      PagingIsExact(matching, Front(limits), direction);
      SortStrict(matching, direction);
      assert Last(limits) in limits;
      hide Sort;
      hide ListOn;
      hide DistinctRows;
      hide StrictlySorted;
      OneMorePage(matching, ListAll(matching, Front(limits), direction), |limits| - 1, Last(limits), direction);
    }
  }

  // A listing that is exact so far is so after one more page.
  lemma OneMorePage(matching: seq<Entry>, listing: Listing, pages: nat, limit: nat, direction: Direction)
    requires DistinctRows(matching) && limit > 0 && |Sort(matching, direction)| == |matching|
    requires listing.data <= Sort(matching, direction) && (listing.Done? ==> listing.data == Sort(matching, direction))
    requires listing.More? ==> pages <= |listing.data|
    ensures var next := ListOn(listing, matching, limit, direction);
            && next.data <= Sort(matching, direction) && (next.Done? ==> next.data == Sort(matching, direction))
            && (next.More? ==> pages + 1 <= |next.data| < |matching|)
  {
    if listing.More? { OnePage(matching, listing.data, limit, direction); } else { DoneStays(listing, matching, limit, direction); }
    hide Sort;
    hide ListOn;
    hide DistinctRows;
  }

  lemma DoneStays(listing: Listing, matching: seq<Entry>, limit: nat, direction: Direction)
    requires listing.Done?
    ensures ListOn(listing, matching, limit, direction) == listing
  {
  }
}
