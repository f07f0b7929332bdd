/**
 * packages/host-runtime/src/external-thread-history.ts: reading a thread's turns or items
 * page by page. A page request carries a cursor naming an entry; between two requests the
 * history may have grown at its end. A filter narrows the rows of a page but not the
 * position a cursor stands for, which is one of the whole history. `PageEntries` answers
 * one request; a walk is a reader who sends the `nextCursor` of each page with the next
 * request, and a walk's delivered rows are compared with the plain filtered history.
 */
module HistoryPaging {
  import opened Prelude

  const DEFAULT_PAGE_SIZE: int := 25
  const MAX_PAGE_SIZE: int := 100
  const MAX_SAFE_INTEGER: int := 0x1F_FFFF_FFFF_FFFF

  datatype Direction = Ascending | Descending

  datatype Cursor<+K> = Cursor(anchor: K, includeAnchor: bool)

  // A request field as it arrives: left out, not of the expected form, or a value.
  datatype Field<+T> = Absent | Invalid | Given(value: T)

  datatype Error = BadDirection | BadCursor | AnchorGone | BadLimit

  datatype Page<+T, +K> = Page(data: seq<T>, nextCursor: Option<Cursor<K>>, backwardsCursor: Option<Cursor<K>>)

  // ---- one page ---------------------------------------------------------------------------

  function PageSize(limit: Field<int>): Result<int, Error> {
    match limit
    case Absent => Ok(DEFAULT_PAGE_SIZE)
    case Invalid => Err(BadLimit)
    case Given(n) =>
      if n > MAX_SAFE_INTEGER || n < 0 then Err(BadLimit)
      else Ok(if n < 1 then 1 else if n > MAX_PAGE_SIZE then MAX_PAGE_SIZE else n)
  }

  function DirectionOf(direction: Field<Direction>, fallback: Direction): Result<Direction, Error> {
    match direction
    case Absent => Ok(fallback)
    case Invalid => Err(BadDirection)
    case Given(d) => Ok(d)
  }

  function Ordered<T>(values: seq<T>, direction: Direction): seq<T> {
    if direction.Ascending? then values else Reverse(values)
  }

  function FindIndex<T, K(==)>(values: seq<T>, key: T -> K, anchor: K): Option<nat> {
    if values == [] then None
    else if key(values[0]) == anchor then Some(0)
    else match FindIndex(values[1..], key, anchor)
      case None => None
      case Some(i) => Some(i + 1)
  }

  // Where a cursor points in an ordered history.
  function StartOf<T, K(==)>(ordered: seq<T>, key: T -> K, cursor: Option<Cursor<K>>): Result<nat, Error> {
    match cursor
    case None => Ok(0)
    case Some(Cursor(anchor, includeAnchor)) =>
      match FindIndex(ordered, key, anchor)
      case None => Err(AnchorGone)
      case Some(i) => Ok(if includeAnchor then i else i + 1)
  }

  lemma {:induction false} FindIndexExact<T, K>(values: seq<T>, key: T -> K, anchor: K)
    ensures FindIndex(values, key, anchor).Some? ==>
              FindIndex(values, key, anchor).value < |values| && key(values[FindIndex(values, key, anchor).value]) == anchor
    ensures FindIndex(values, key, anchor).None? <==> forall i :: 0 <= i < |values| ==> key(values[i]) != anchor
  {
    if values != [] && key(values[0]) != anchor {
      FindIndexExact(values[1..], key, anchor);
      assert forall i :: 0 < i < |values| ==> values[i] == values[1..][i - 1];
    }
  }

  lemma StartInside<T, K>(ordered: seq<T>, key: T -> K, cursor: Option<Cursor<K>>)
    ensures StartOf(ordered, key, cursor).Ok? ==> StartOf(ordered, key, cursor).value <= |ordered|
  {
    if cursor.Some? { FindIndexExact(ordered, key, cursor.value.anchor); }
  }

  function CutPage<T, K>(eligible: seq<T>, key: T -> K, limit: int): Page<T, K>
    requires limit >= 1
  {
    var data := if limit <= |eligible| then eligible[..limit] else eligible;
    Page(data,
         if |data| < |eligible| && |data| > 0 then Some(Cursor(key(data[|data| - 1]), false)) else None,
         if |data| > 0 then Some(Cursor(key(data[0]), true)) else None)
  }

  /** `pageEntries`, with its refusals in the order in which they are made. */
  function PageEntries<T, K(==)>(
    values: seq<T>, key: T -> K, cursor: Field<Cursor<K>>, limit: Field<int>,
    direction: Field<Direction>, fallback: Direction, filter: T -> bool): Result<Page<T, K>, Error>
  {
    match DirectionOf(direction, fallback)
    case Err(e) => Err(e)
    case Ok(d) =>
      if cursor.Invalid? then Err(BadCursor)
      else
        var ordered := Ordered(values, d);
        match StartOf(ordered, key, if cursor.Given? then Some(cursor.value) else None)
        case Err(e) => Err(e)
        case Ok(start) =>
          StartInside(ordered, key, if cursor.Given? then Some(cursor.value) else None);
          match PageSize(limit)
          case Err(e) => Err(e)
          case Ok(size) => Ok(CutPage(Filter(filter, ordered[start..]), key, size))
  }

  // How many rows a well-formed limit allows: 25 if none is given, and between 1 and 100 in any case.
  predicate Allows(limit: Field<int>, size: int) {
    match limit
    case Absent => size == 25
    case Invalid => false
    case Given(n) => 0 <= n <= 0x1F_FFFF_FFFF_FFFF && 1 <= size <= 100 && (size != n ==> if n < 1 then size == 1 else n > 100 && size == 100)
  }

  lemma SizeExactly(limit: Field<int>, size: int)
    ensures Allows(limit, size) <==> PageSize(limit) == Ok(size)
  {
  }

  // The page is the first of these matches, as many as fit, and its cursors stand behind and on it.
  ghost predicate FirstOf<T, K>(page: Page<T, K>, matches: seq<T>, key: T -> K, size: int) {
    && |page.data| == (if |matches| < size then |matches| else size) && page.data <= matches
    && page.nextCursor == (if page.data != [] && |page.data| < |matches| then Some(Cursor(key(Last(page.data)), false)) else None)
    && page.backwardsCursor == (if page.data == [] then None else Some(Cursor(key(page.data[0]), true)))
  }

  lemma CutExactly<T, K>(matches: seq<T>, key: T -> K, size: int)
    requires size >= 1
    ensures FirstOf(CutPage(matches, key, size), matches, key, size)
  {
  }

  predicate NewestFirst(direction: Field<Direction>, fallback: Direction) {
    (if direction.Given? then direction.value else fallback) == Descending
  }

  function Read<T>(values: seq<T>, newestFirst: bool): seq<T> {
    if newestFirst then Reverse(values) else values
  }

  /**
   * One page, exactly. It holds the first matches from the cursor's place on, as many as the limit
   * allows; it announces more exactly when matches are left, and then the next cursor stands behind
   * its last row; the cursor back stands on its first row.
   */
  lemma PageExactly<T, K>(
    values: seq<T>, key: T -> K, cursor: Option<Cursor<K>>, limit: Field<int>, direction: Field<Direction>, fallback: Direction,
    filter: T -> bool, start: nat, size: int)
    requires direction != Invalid && Allows(limit, size)
    requires StartOf(Read(values, NewestFirst(direction, fallback)), key, cursor) == Ok(start)
    ensures start <= |values|
    ensures var matches := Filter(filter, Read(values, NewestFirst(direction, fallback))[start..]);
            var r := PageEntries(values, key, if cursor.Some? then Given(cursor.value) else Absent, limit, direction, fallback, filter);
            r.Ok? && FirstOf(r.value, matches, key, size)
  {
    var ordered := Read(values, NewestFirst(direction, fallback));
    StartInside(ordered, key, cursor);
    SizeExactly(limit, size);
    CutExactly(Filter(filter, ordered[start..]), key, size);
    hide Filter;
    hide StartOf;
    hide PageSize;
    hide CutPage;
    hide FirstOf;
    hide Allows;
    hide Reverse;
  }

  /** Where a cursor points: the start without one, else the first entry it names or the one behind it. */
  lemma StartExactly<T, K>(ordered: seq<T>, key: T -> K, anchor: K, i: nat)
    requires i < |ordered| && key(ordered[i]) == anchor && forall j :: 0 <= j < i ==> key(ordered[j]) != anchor
    ensures StartOf(ordered, key, Some(Cursor(anchor, true))) == Ok(i)
    ensures StartOf(ordered, key, Some(Cursor(anchor, false))) == Ok(i + 1)
    ensures StartOf(ordered, key, None) == Ok(0)
  {
    FindIndexExact(ordered, key, anchor);
    FindIndexFirst(ordered, key, anchor, i);
  }

  lemma {:induction false} FindIndexFirst<T, K>(ordered: seq<T>, key: T -> K, anchor: K, i: nat)
    requires i < |ordered| && key(ordered[i]) == anchor && forall j :: 0 <= j < i ==> key(ordered[j]) != anchor
    ensures FindIndex(ordered, key, anchor) == Some(i)
  {
    if i > 0 {
      assert forall j :: 0 <= j < i - 1 ==> ordered[1..][j] == ordered[j + 1];
      FindIndexFirst(ordered[1..], key, anchor, i - 1);
    }
  }

  /** What is refused, in this order: the direction, the form of the cursor, an anchor that is gone, the limit. */
  lemma RefusedExactly<T, K>(
    values: seq<T>, key: T -> K, cursor: Field<Cursor<K>>, limit: Field<int>, direction: Field<Direction>, fallback: Direction, filter: T -> bool)
    ensures var r := PageEntries(values, key, cursor, limit, direction, fallback, filter);
            && (r == Err(BadDirection) <==> direction == Invalid)
            && (r == Err(BadCursor) <==> direction != Invalid && cursor == Invalid)
            && (r == Err(BadLimit) ==> direction != Invalid && cursor != Invalid && forall size :: !Allows(limit, size))
            && (r.Ok? ==> direction != Invalid && cursor != Invalid && exists size :: Allows(limit, size))
  {
    var size := if limit.Absent? then 25 else if limit.Given? then (if limit.value < 1 then 1 else if limit.value > 100 then 100 else limit.value) else 0;
    assert Allows(limit, size) <==> PageSize(limit).Ok?;
    hide Filter;
    hide StartOf;
    hide CutPage;
  }

  ghost predicate Missing<T(!new), K>(values: seq<T>, key: T -> K, anchor: K) {
    forall i {:trigger key(values[i])} :: 0 <= i < |values| ==> key(values[i]) != anchor
  }

  lemma MissingInReverse<T(!new), K>(values: seq<T>, key: T -> K, anchor: K)
    requires Missing(values, key, anchor)
    ensures Missing(Reverse(values), key, anchor)
  {
  }

  lemma MissingBothWays<T(!new), K>(values: seq<T>, key: T -> K, anchor: K)
    requires Missing(Reverse(values), key, anchor)
    ensures Missing(values, key, anchor)
  {
    forall i | 0 <= i < |values| ensures key(values[i]) != anchor {
      assert key(Reverse(values)[|values| - 1 - i]) != anchor;
    }
  }

  /** A well-formed request is refused for its cursor exactly when no entry carries its anchor, in either direction. */
  lemma AnchorGoneExactly<T(!new), K>(
    values: seq<T>, key: T -> K, cursor: Cursor<K>, limit: Field<int>, direction: Field<Direction>, fallback: Direction, filter: T -> bool)
    requires !direction.Invalid?
    ensures PageEntries(values, key, Given(cursor), limit, direction, fallback, filter) == Err(AnchorGone)
      <==> Missing(values, key, cursor.anchor)
  {
    FindIndexExact(Ordered(values, DirectionOf(direction, fallback).value), key, cursor.anchor);
    if Missing(values, key, cursor.anchor) { MissingInReverse(values, key, cursor.anchor); }
    if Missing(Reverse(values), key, cursor.anchor) { MissingBothWays(values, key, cursor.anchor); }
  }

  // ---- a walk ---------------------------------------------------------------------------------

  // One request of a reader who follows `nextCursor`: the history as it was then, and a limit.
  datatype Request<+T> = Request(values: seq<T>, limit: Field<int>)

  datatype Walk<+T, +K> =
    | Walking(data: seq<T>, cursor: Option<Cursor<K>>)
    | Finished(data: seq<T>)
    | Refused(error: Error)

  function Follow<T, K(==)>(walk: Walk<T, K>, request: Request<T>, key: T -> K, direction: Direction, filter: T -> bool): Walk<T, K> {
    if !walk.Walking? then walk
    else
      var cursor := if walk.cursor.Some? then Given(walk.cursor.value) else Absent;
      match PageEntries(request.values, key, cursor, request.limit, Given(direction), direction, filter)
      case Err(e) => Refused(e)
      case Ok(page) =>
        if page.nextCursor.None? then Finished(walk.data + page.data)
        else Walking(walk.data + page.data, page.nextCursor)
  }

  function WalkFrom<T, K(==)>(
    cursor: Option<Cursor<K>>, requests: seq<Request<T>>, key: T -> K, direction: Direction, filter: T -> bool): Walk<T, K>
  {
    if requests == [] then Walking([], cursor)
    else Follow(WalkFrom(cursor, Front(requests), key, direction, filter), Last(requests), key, direction, filter)
  }

  ghost predicate DistinctKeys<T(!new), K>(values: seq<T>, key: T -> K) {
    forall i, j {:trigger key(values[i]), key(values[j])} :: 0 <= i < j < |values| ==> key(values[i]) != key(values[j])
  }

  // The history only grows at its end, keys are unique and limits are acceptable.
  ghost predicate Growing<T(!new), K>(requests: seq<Request<T>>, key: T -> K) {
    && (forall i, j :: 0 <= i < j < |requests| ==> requests[i].values <= requests[j].values)
    && (forall i :: 0 <= i < |requests| ==> DistinctKeys(requests[i].values, key))
    && (forall i :: 0 <= i < |requests| ==> PageSize(requests[i].limit).Ok?)
  }

  // What a walk of n requests must come to: never refused, exactly the wanted entries once it
  // is over, and on the way a part of them that grows with every request.
  ghost predicate Delivers<T(!new), K>(walk: Walk<T, K>, n: nat, wanted: seq<T>) {
    && !walk.Refused?
    && (walk.Finished? ==> walk.data == wanted)
    && (walk.Walking? ==> walk.data < wanted && n <= |walk.data| < |wanted|)
  }

  // ---- facts about filtering and lookup ---------------------------------------------------------

  lemma FilterHead<T>(filter: T -> bool, xs: seq<T>)
    requires xs != []
    ensures Filter(filter, xs) == Filter(filter, [xs[0]]) + Filter(filter, xs[1..])
    ensures Filter(filter, [xs[0]]) == if filter(xs[0]) then [xs[0]] else []
  {
  }

  // The first k matches end at some entry, and are the matches up to it.
  lemma {:induction false} MatchesUpTo<T>(filter: T -> bool, xs: seq<T>, k: nat) returns (q: nat)
    requires 0 < k <= |Filter(filter, xs)|
    ensures q < |xs| && xs[q] == Filter(filter, xs)[k - 1]
    ensures Filter(filter, xs[..q + 1]) == Filter(filter, xs)[..k]
  {
    FilterHead(filter, xs);
    hide Filter;
    var head := Filter(filter, [xs[0]]);
    if k == |head| {
      q := 0;
      assert xs[..1] == [xs[0]];
      assert Filter(filter, xs)[..k] == head;
    } else {
      var rest := MatchesUpTo(filter, xs[1..], k - |head|);
      q := rest + 1;
      assert xs[..q + 1] == [xs[0]] + xs[1..][..rest + 1];
      FilterAppend(filter, [xs[0]], xs[1..][..rest + 1]);
      assert Filter(filter, xs)[..k] == head + Filter(filter, xs[1..])[..k - |head|];
    }
  }

  lemma FindIndexAt<T(!new), K>(values: seq<T>, key: T -> K, i: nat)
    requires DistinctKeys(values, key) && i < |values|
    ensures FindIndex(values, key, key(values[i])) == Some(i)
  {
    FindIndexExact(values, key, key(values[i]));
  }

  lemma ReversedKeys<T(!new), K>(values: seq<T>, key: T -> K)
    requires DistinctKeys(values, key)
    ensures DistinctKeys(Reverse(values), key)
  {
  }

  // ---- the shape of a walk --------------------------------------------------------------------------

  // Of an ordered history, a walk has delivered the matches in [from, to), and more are to come.
  ghost predicate Delivered<T(!new), K>(walk: Walk<T, K>, ordered: seq<T>, from: nat, to: nat, key: T -> K, filter: T -> bool) {
    && walk.Walking? && from < to <= |ordered|
    && walk.cursor == Some(Cursor(key(ordered[to - 1]), false))
    && walk.data == Filter(filter, ordered[from..to])
    && Filter(filter, ordered[to..]) != []
  }

  lemma SplitMatches<T>(filter: T -> bool, xs: seq<T>, a: nat, b: nat, c: nat)
    requires a <= b <= c <= |xs|
    ensures Filter(filter, xs[a..c]) == Filter(filter, xs[a..b]) + Filter(filter, xs[b..c])
  {
    assert xs[a..c] == xs[a..b] + xs[b..c];
    FilterAppend(filter, xs[a..b], xs[b..c]);
  }

  lemma SplitTail<T>(filter: T -> bool, xs: seq<T>, a: nat, b: nat)
    requires a <= b <= |xs|
    ensures Filter(filter, xs[a..]) == Filter(filter, xs[a..b]) + Filter(filter, xs[b..])
  {
    assert xs[a..] == xs[a..b] + xs[b..];
    FilterAppend(filter, xs[a..b], xs[b..]);
  }

  // The first k matches from `to` on, and where they end.
  lemma MatchesFrom<T>(filter: T -> bool, xs: seq<T>, to: nat, k: nat) returns (next: nat)
    requires to <= |xs| && 0 < k <= |Filter(filter, xs[to..])|
    ensures to < next <= |xs| && xs[next - 1] == Filter(filter, xs[to..])[k - 1]
    ensures Filter(filter, xs[to..next]) == Filter(filter, xs[to..])[..k]
  {
    var q := MatchesUpTo(filter, xs[to..], k);
    next := to + q + 1;
    assert xs[to..][..q + 1] == xs[to..next];
  }

  // The walk after taking a page: over with all the matches, or further on.
  ghost predicate Taken<T(!new), K>(
    data: seq<T>, walk: Walk<T, K>, ordered: seq<T>, from: nat, next: nat, key: T -> K, filter: T -> bool)
  {
    || (from <= |ordered| && walk == Finished(Filter(filter, ordered[from..])))
    || (Delivered(walk, ordered, from, next, key, filter) && |walk.data| > |data|)
  }

  function Take<T, K>(data: seq<T>, page: Page<T, K>): Walk<T, K> {
    if page.nextCursor.None? then Finished(data + page.data) else Walking(data + page.data, page.nextCursor)
  }

  lemma LastPage<T(!new), K>(data: seq<T>, ordered: seq<T>, from: nat, to: nat, key: T -> K, filter: T -> bool, size: nat)
    requires from <= to <= |ordered| && data == Filter(filter, ordered[from..to])
    requires 1 <= size && |Filter(filter, ordered[to..])| <= size
    ensures Take(data, CutPage(Filter(filter, ordered[to..]), key, size)) == Finished(Filter(filter, ordered[from..]))
  {
    var eligible := Filter(filter, ordered[to..]);
    SplitTail(filter, ordered, from, to);
    if size == |eligible| { assert eligible[..size] == eligible; }
  }

  lemma FullPage<T(!new), K>(data: seq<T>, ordered: seq<T>, from: nat, to: nat, next: nat, key: T -> K, filter: T -> bool)
    requires from <= to < next <= |ordered| && data == Filter(filter, ordered[from..to])
    requires |Filter(filter, ordered[to..next])| < |Filter(filter, ordered[to..])|
    ensures Delivered(Walking(data + Filter(filter, ordered[to..next]), Some(Cursor(key(ordered[next - 1]), false))), ordered, from, next, key, filter)
  {
    SplitMatches(filter, ordered, from, to, next);
    SplitTail(filter, ordered, to, next);
  }

  lemma PageFrom<T(!new), K>(
    data: seq<T>, ordered: seq<T>, from: nat, to: nat, key: T -> K, filter: T -> bool, size: nat) returns (next: nat)
    requires size >= 1 && from <= to <= |ordered| && data == Filter(filter, ordered[from..to])
    ensures Taken(data, Take(data, CutPage(Filter(filter, ordered[to..]), key, size)), ordered, from, next, key, filter)
  {
    hide Filter;
    var eligible := Filter(filter, ordered[to..]);
    if size < |eligible| {
      next := MatchesFrom(filter, ordered, to, size);
      FullPage(data, ordered, from, to, next, key, filter);
      assert Take(data, CutPage(eligible, key, size)) == Walking(data + eligible[..size], Some(Cursor(key(eligible[size - 1]), false)));
    } else {
      next := to;
      LastPage(data, ordered, from, to, key, filter, size);
    }
  }

  lemma FollowTakes<T(!new), K>(
    walk: Walk<T, K>, request: Request<T>, ordered: seq<T>, start: nat, key: T -> K, direction: Direction, filter: T -> bool)
    requires walk.Walking? && ordered == Ordered(request.values, direction) && PageSize(request.limit).Ok?
    requires StartOf(ordered, key, walk.cursor) == Ok(start) && start <= |ordered|
    ensures Follow(walk, request, key, direction, filter)
         == Take(walk.data, CutPage(Filter(filter, ordered[start..]), key, PageSize(request.limit).value))
  {
  }

  // The next page of a walk that has delivered [from, to) starts at `to`, wherever the history has grown.
  lemma NextPage<T(!new), K>(
    walk: Walk<T, K>, request: Request<T>, ordered: seq<T>, from: nat, to: nat,
    key: T -> K, direction: Direction, filter: T -> bool) returns (next: nat)
    requires ordered == Ordered(request.values, direction) && DistinctKeys(ordered, key) && PageSize(request.limit).Ok?
    requires Delivered(walk, ordered, from, to, key, filter)
    ensures Taken(walk.data, Follow(walk, request, key, direction, filter), ordered, from, next, key, filter)
  {
    FindIndexAt(ordered, key, to - 1);
    FollowTakes(walk, request, ordered, to, key, direction, filter);
    next := PageFrom(walk.data, ordered, from, to, key, filter, PageSize(request.limit).value);
  }

  lemma NothingDelivered<T>(ordered: seq<T>, from: nat, filter: T -> bool)
    requires from <= |ordered|
    ensures Filter(filter, ordered[from..from]) == []
  {
  }

  lemma FirstPage<T(!new), K>(
    cursor: Option<Cursor<K>>, request: Request<T>, ordered: seq<T>, from: nat, key: T -> K, direction: Direction, filter: T -> bool)
    returns (next: nat)
    requires ordered == Ordered(request.values, direction) && PageSize(request.limit).Ok?
    requires StartOf(ordered, key, cursor) == Ok(from)
    ensures Taken([], Follow(Walking([], cursor), request, key, direction, filter), ordered, from, next, key, filter)
  {
    hide Filter;
    hide Follow;
    hide StartOf;
    StartInside(ordered, key, cursor);
    NothingDelivered(ordered, from, filter);
    FollowTakes(Walking([], cursor), request, ordered, from, key, direction, filter);
    next := PageFrom([], ordered, from, from, key, filter, PageSize(request.limit).value);
  }

  // What was delivered of a history is still what was delivered once entries are added at either end.
  lemma DeliveredAfterAppend<T(!new), K>(
    walk: Walk<T, K>, ordered: seq<T>, grown: seq<T>, from: nat, to: nat, key: T -> K, filter: T -> bool)
    requires Delivered(walk, ordered, from, to, key, filter) && ordered <= grown
    ensures Delivered(walk, grown, from, to, key, filter)
  {
    assert grown[from..to] == ordered[from..to];
    assert grown[to..] == ordered[to..] + grown[|ordered|..];
    FilterAppend(filter, ordered[to..], grown[|ordered|..]);
  }

  lemma DeliveredAfterPrepend<T(!new), K>(
    walk: Walk<T, K>, newer: seq<T>, older: seq<T>, ordered: seq<T>, from: nat, to: nat, key: T -> K, filter: T -> bool)
    requires Delivered(walk, older, from, to, key, filter) && ordered == newer + older
    ensures Delivered(walk, ordered, |newer| + from, |newer| + to, key, filter)
  {
    assert ordered[|newer| + from..|newer| + to] == older[from..to];
    assert ordered[|newer| + to..] == older[to..];
  }

  lemma TakenBehind<T(!new), K>(
    data: seq<T>, walk: Walk<T, K>, newer: seq<T>, older: seq<T>, ordered: seq<T>, from: nat, at: nat, key: T -> K, filter: T -> bool)
    returns (next: nat)
    requires Taken(data, walk, ordered, |newer| + from, at, key, filter) && ordered == newer + older && from <= |older|
    ensures Taken(data, walk, older, from, next, key, filter)
  {
    assert ordered[|newer| + from..] == older[from..];
    next := 0;
    if walk.Walking? {
      next := at - |newer|;
      assert ordered[|newer| + from..at] == older[from..next];
      assert ordered[at..] == older[next..];
    }
  }

  lemma ReverseGrown<T>(older: seq<T>, newer: seq<T>)
    requires older <= newer
    ensures Reverse(newer) == Reverse(newer[|older|..]) + Reverse(older)
  {
    assert newer == older + newer[|older|..];
    ReverseAppend(older, newer[|older|..]);
  }

  lemma GrowingFront<T(!new), K>(requests: seq<Request<T>>, key: T -> K)
    requires Growing(requests, key) && requests != []
    ensures Growing(Front(requests), key)
  {
  }

  // ---- ascending ------------------------------------------------------------------------------------------

  // Where a walk of n requests over one ordered history stands.
  ghost predicate Standing<T(!new), K>(
    walk: Walk<T, K>, n: nat, ordered: seq<T>, from: nat, to: nat, key: T -> K, filter: T -> bool)
  {
    || (Delivered(walk, ordered, from, to, key, filter) && |walk.data| >= n)
    || (from <= |ordered| && walk == Finished(Filter(filter, ordered[from..])))
  }

  lemma StandingDelivers<T(!new), K>(
    walk: Walk<T, K>, n: nat, ordered: seq<T>, from: nat, to: nat, key: T -> K, filter: T -> bool)
    requires Standing(walk, n, ordered, from, to, key, filter) && from <= |ordered|
    ensures Delivers(walk, n, Filter(filter, ordered[from..]))
  {
    hide Filter;
    if walk.Walking? { SplitTail(filter, ordered, from, to); }
  }

  lemma {:induction false} AscendingShape<T(!new), K>(
    cursor: Option<Cursor<K>>, requests: seq<Request<T>>, key: T -> K, filter: T -> bool, from: nat) returns (to: nat)
    requires requests != [] && Growing(requests, key) && StartOf(requests[0].values, key, cursor) == Ok(from)
    ensures !WalkFrom(cursor, requests, key, Ascending, filter).Refused?
    ensures WalkFrom(cursor, Front(requests), key, Ascending, filter).Walking? ==>
      Standing(WalkFrom(cursor, requests, key, Ascending, filter), |requests|, Last(requests).values, from, to, key, filter)
  {
    hide Filter;
    hide StartOf;
    hide Follow;
    if |requests| == 1 {
      assert Front(requests) == [];
      to := FirstPage(cursor, requests[0], requests[0].values, from, key, Ascending, filter);
    } else {
      GrowingFront(requests, key);
      assert Front(requests)[0] == requests[0];
      to := AscendingShape(cursor, Front(requests), key, filter, from);
      var walk := WalkFrom(cursor, Front(requests), key, Ascending, filter);
      var earlier := WalkFrom(cursor, Front(Front(requests)), key, Ascending, filter);
      if !walk.Walking? {
        StillOver(walk, Last(requests), key, Ascending, filter);
      } else {
        if !earlier.Walking? { StillOver(earlier, Last(Front(requests)), key, Ascending, filter); }
        assert Last(Front(requests)) == requests[|requests| - 2];
        to := NextNewerPage(walk, requests[|requests| - 2].values, Last(requests), from, to, key, filter);
      }
    }
  }

  lemma StillOver<T, K>(walk: Walk<T, K>, request: Request<T>, key: T -> K, direction: Direction, filter: T -> bool)
    requires !walk.Walking?
    ensures Follow(walk, request, key, direction, filter) == walk
  {
  }

  lemma NextNewerPage<T(!new), K>(
    walk: Walk<T, K>, before: seq<T>, request: Request<T>, from: nat, to: nat, key: T -> K, filter: T -> bool) returns (next: nat)
    requires before <= request.values && DistinctKeys(request.values, key) && PageSize(request.limit).Ok?
    requires Delivered(walk, before, from, to, key, filter)
    ensures Taken(walk.data, Follow(walk, request, key, Ascending, filter), request.values, from, next, key, filter)
  {
    hide Filter;
    DeliveredAfterAppend(walk, before, request.values, from, to, key, filter);
    next := NextPage(walk, request, request.values, from, to, key, Ascending, filter);
  }

  lemma FirstBeforeLast<T(!new), K>(requests: seq<Request<T>>, key: T -> K)
    requires requests != [] && Growing(requests, key)
    ensures requests[0].values <= Last(requests).values
  {
  }

  /**
   * Ascending, following `nextCursor` over a history that grows between pages, under any
   * limits: no page is refused; when the last page comes, everything delivered is exactly the
   * matching history as of that page, each entry once; and the walk has ended before it has
   * made more requests than the history has matches.
   */
  lemma AscendingWalk<T(!new), K>(cursor: Option<Cursor<K>>, requests: seq<Request<T>>, key: T -> K, filter: T -> bool, from: nat)
    requires requests != [] && Growing(requests, key) && StartOf(requests[0].values, key, cursor) == Ok(from)
    ensures from <= |requests[0].values| <= |Last(requests).values|
    ensures !WalkFrom(cursor, requests, key, Ascending, filter).Refused?
    ensures WalkFrom(cursor, Front(requests), key, Ascending, filter).Walking? ==>
      Delivers(WalkFrom(cursor, requests, key, Ascending, filter), |requests|, Filter(filter, Last(requests).values[from..]))
  {
    StartInside(requests[0].values, key, cursor);
    FirstBeforeLast(requests, key);
    hide Filter;
    hide WalkFrom;
    hide StartOf;
    var to := AscendingShape(cursor, requests, key, filter, from);
    if WalkFrom(cursor, Front(requests), key, Ascending, filter).Walking? {
      StandingDelivers(WalkFrom(cursor, requests, key, Ascending, filter), |requests|, Last(requests).values, from, to, key, filter);
    }
  }

  // ---- descending ------------------------------------------------------------------------------------------

  lemma {:induction false} DescendingShape<T(!new), K>(
    cursor: Option<Cursor<K>>, requests: seq<Request<T>>, key: T -> K, filter: T -> bool, first: seq<T>, from: nat) returns (to: nat)
    requires requests != [] && Growing(requests, key) && first == requests[0].values
    requires StartOf(Reverse(first), key, cursor) == Ok(from)
    ensures Standing(WalkFrom(cursor, requests, key, Descending, filter), |requests|, Reverse(first), from, to, key, filter)
  {
    hide Filter;
    hide StartOf;
    hide Follow;
    hide Reverse;
    if |requests| == 1 {
      assert Front(requests) == [];
      to := FirstPage(cursor, requests[0], Reverse(first), from, key, Descending, filter);
    } else {
      GrowingFront(requests, key);
      FirstBeforeLast(requests, key);
      assert Front(requests)[0] == requests[0];
      to := DescendingShape(cursor, Front(requests), key, filter, first, from);
      var walk := WalkFrom(cursor, Front(requests), key, Descending, filter);
      if walk.Walking? {
        to := NextOlderPage(walk, first, Last(requests), from, to, key, filter);
      } else {
        StillOver(walk, Last(requests), key, Descending, filter);
      }
    }
  }

  // Entries appended since the first page are read before the anchor, so they never show up.
  lemma NextOlderPage<T(!new), K>(
    walk: Walk<T, K>, first: seq<T>, request: Request<T>, from: nat, to: nat, key: T -> K, filter: T -> bool) returns (next: nat)
    requires first <= request.values && DistinctKeys(request.values, key) && PageSize(request.limit).Ok?
    requires Delivered(walk, Reverse(first), from, to, key, filter)
    ensures Taken(walk.data, Follow(walk, request, key, Descending, filter), Reverse(first), from, next, key, filter)
  {
    ReversedKeys(request.values, key);
    ReverseGrown(first, request.values);
    next := PageBehind(walk, request, Reverse(request.values[|first|..]), Reverse(first), Reverse(request.values), from, to, key, filter);
  }

  lemma PageBehind<T(!new), K>(
    walk: Walk<T, K>, request: Request<T>, newer: seq<T>, older: seq<T>, ordered: seq<T>, from: nat, to: nat, key: T -> K, filter: T -> bool)
    returns (next: nat)
    requires ordered == newer + older && ordered == Ordered(request.values, Descending)
    requires DistinctKeys(ordered, key) && PageSize(request.limit).Ok?
    requires Delivered(walk, older, from, to, key, filter)
    ensures Taken(walk.data, Follow(walk, request, key, Descending, filter), older, from, next, key, filter)
  {
    DeliveredAfterPrepend(walk, newer, older, ordered, from, to, key, filter);
    var at := NextPage(walk, request, ordered, |newer| + from, |newer| + to, key, Descending, filter);
    next := TakenBehind(walk.data, Follow(walk, request, key, Descending, filter), newer, older, ordered, from, at, key, filter);
  }

  /**
   * Descending: what is delivered is exactly the matching history as it was at the first
   * page, newest first and each entry once, whatever is appended in between.
   */
  lemma DescendingWalk<T(!new), K>(cursor: Option<Cursor<K>>, requests: seq<Request<T>>, key: T -> K, filter: T -> bool, from: nat)
    requires requests != [] && Growing(requests, key) && StartOf(Reverse(requests[0].values), key, cursor) == Ok(from)
    ensures from <= |Reverse(requests[0].values)|
    ensures Delivers(WalkFrom(cursor, requests, key, Descending, filter), |requests|, Filter(filter, Reverse(requests[0].values)[from..]))
  {
    StartInside(Reverse(requests[0].values), key, cursor);
    hide Filter;
    hide WalkFrom;
    hide StartOf;
    hide Reverse;
    var to := DescendingShape(cursor, requests, key, filter, requests[0].values, from);
    StandingDelivers(WalkFrom(cursor, requests, key, Descending, filter), |requests|, Reverse(requests[0].values), from, to, key, filter);
  }

  // ---- turning round -----------------------------------------------------------------------------------------

  lemma MirrorIndex<T(!new), K>(values: seq<T>, key: T -> K, i: nat)
    requires DistinctKeys(values, key) && i < |values|
    ensures StartOf(Reverse(values), key, Some(Cursor(key(values[i]), true))) == Ok(|values| - 1 - i)
  {
    ReversedKeys(values, key);
    assert Reverse(values)[|values| - 1 - i] == values[i];
    FindIndexAt(Reverse(values), key, |values| - 1 - i);
  }

  lemma MirrorTail<T>(values: seq<T>, i: nat)
    requires i < |values|
    ensures Reverse(values)[|values| - 1 - i..] == Reverse(values[..i + 1])
  {
    var early, late := values[..i + 1], values[i + 1..];
    assert values == early + late;
    ReverseAppend(early, late);
    assert |Reverse(late)| == |values| - 1 - i;
  }

  // What a descending page starting at an entry still stands for once the history has grown.
  lemma MirrorGrown<T(!new), K>(values: seq<T>, grown: seq<T>, key: T -> K, i: nat, filter: T -> bool)
    requires values <= grown && DistinctKeys(grown, key) && i < |values|
    ensures StartOf(Reverse(grown), key, Some(Cursor(key(values[i]), true))) == Ok(|grown| - 1 - i)
    ensures Filter(filter, Reverse(grown)[|grown| - 1 - i..]) == Reverse(Filter(filter, values[..i + 1]))
  {
    assert grown[i] == values[i] && grown[..i + 1] == values[..i + 1];
    MirrorIndex(grown, key, i);
    MirrorTail(grown, i);
    FilterReverse(filter, grown[..i + 1]);
  }

  /**
   * Reading backwards: from the `backwardsCursor` of any ascending page, a descending walk
   * delivers exactly the matches up to and including that page's first entry, newest first,
   * even if the history has grown since the page or grows during the walk.
   */
  lemma BackwardsFromAscendingPage<T(!new), K>(
    values: seq<T>, key: T -> K, page: Page<T, K>, cursor: Field<Cursor<K>>, limit: Field<int>, filter: T -> bool, requests: seq<Request<T>>)
    returns (i: nat)
    requires requests != [] && Growing(requests, key) && values <= requests[0].values
    requires PageEntries(values, key, cursor, limit, Given(Ascending), Ascending, filter) == Ok(page) && page.data != []
    ensures i < |values| && values[i] == page.data[0]
    ensures Delivers(WalkFrom(page.backwardsCursor, requests, key, Descending, filter), |requests|, Reverse(Filter(filter, values[..i + 1])))
  {
    hide Filter;
    hide WalkFrom;
    hide PageEntries;
    i := FirstOfPage(values, key, page, cursor, limit, Ascending, filter);
    MirrorGrown(values, requests[0].values, key, i, filter);
    DescendingWalk(page.backwardsCursor, requests, key, filter, |requests[0].values| - 1 - i);
  }

  // An entry stands where it stood once the history has grown.
  lemma EntryAt<T(!new), K>(values: seq<T>, grown: seq<T>, key: T -> K, i: nat)
    requires values <= grown && DistinctKeys(grown, key) && i < |values|
    ensures StartOf(grown, key, Some(Cursor(key(values[i]), true))) == Ok(i)
  {
    assert grown[i] == values[i];
    FindIndexAt(grown, key, i);
  }

  /** And from a descending page, an ascending walk delivers everything from that page's first entry on. */
  lemma BackwardsFromDescendingPage<T(!new), K>(
    values: seq<T>, key: T -> K, page: Page<T, K>, cursor: Field<Cursor<K>>, limit: Field<int>, filter: T -> bool, requests: seq<Request<T>>)
    returns (i: nat)
    requires requests != [] && Growing(requests, key) && values <= requests[0].values
    requires PageEntries(values, key, cursor, limit, Given(Descending), Descending, filter) == Ok(page) && page.data != []
    ensures i < |values| && values[i] == page.data[0]
    ensures i < |Last(requests).values|
    ensures !WalkFrom(page.backwardsCursor, requests, key, Ascending, filter).Refused?
    ensures WalkFrom(page.backwardsCursor, Front(requests), key, Ascending, filter).Walking? ==>
      Delivers(WalkFrom(page.backwardsCursor, requests, key, Ascending, filter), |requests|, Filter(filter, Last(requests).values[i..]))
  {
    hide Filter;
    hide WalkFrom;
    hide PageEntries;
    var j := FirstOfPage(values, key, page, cursor, limit, Descending, filter);
    i := |values| - 1 - j;
    EntryAt(values, requests[0].values, key, i);
    FirstBeforeLast(requests, key);
    AscendingWalk(page.backwardsCursor, requests, key, filter, i);
  }

  // The first entry of a page is an entry of the history it was cut from, and its backwards cursor names it.
  lemma FirstOfPage<T(!new), K>(
    values: seq<T>, key: T -> K, page: Page<T, K>, cursor: Field<Cursor<K>>, limit: Field<int>, direction: Direction, filter: T -> bool)
    returns (i: nat)
    requires PageEntries(values, key, cursor, limit, Given(direction), direction, filter) == Ok(page) && page.data != []
    ensures i < |values| && Ordered(values, direction)[i] == page.data[0]
    ensures page.backwardsCursor == Some(Cursor(key(page.data[0]), true))
  {
    var start, size := PageShape(values, key, cursor, limit, direction, filter);
    hide Filter;
    i := FirstMatch(Ordered(values, direction), start, key, filter, size);
  }

  lemma FirstMatch<T, K>(ordered: seq<T>, start: nat, key: T -> K, filter: T -> bool, size: nat) returns (i: nat)
    requires size >= 1 && start <= |ordered| && CutPage(Filter(filter, ordered[start..]), key, size).data != []
    ensures i < |ordered| && ordered[i] == CutPage(Filter(filter, ordered[start..]), key, size).data[0]
  {
    var next := MatchesFrom(filter, ordered, start, 1);
    i := next - 1;
  }

  lemma PageShape<T, K>(
    values: seq<T>, key: T -> K, cursor: Field<Cursor<K>>, limit: Field<int>, direction: Direction, filter: T -> bool)
    returns (start: nat, size: nat)
    requires PageEntries(values, key, cursor, limit, Given(direction), direction, filter).Ok?
    ensures size >= 1 && start <= |Ordered(values, direction)|
    ensures PageEntries(values, key, cursor, limit, Given(direction), direction, filter)
         == Ok(CutPage(Filter(filter, Ordered(values, direction)[start..]), key, size))
  {
    var at := if cursor.Given? then Some(cursor.value) else None;
    StartInside(Ordered(values, direction), key, at);
    start, size := StartOf(Ordered(values, direction), key, at).value, PageSize(limit).value;
  }

  // ---- items ---------------------------------------------------------------------------------------------------

  type TurnId = nat
  type ItemId = nat

  // What stands in a turn's item list; anything but an object is skipped.
  datatype RawItem = Item(id: ItemId, payload: int) | NotAnObject

  datatype Turn = Turn(id: TurnId, items: Option<seq<RawItem>>)

  datatype ItemEntry = ItemEntry(key: (TurnId, ItemId), turnId: TurnId, item: RawItem)

  function EntriesOf(turnId: TurnId, items: seq<RawItem>): seq<ItemEntry> {
    if items == [] then []
    else if Last(items).Item? then EntriesOf(turnId, Front(items)) + [ItemEntry((turnId, Last(items).id), turnId, Last(items))]
    else EntriesOf(turnId, Front(items))
  }

  function ItemEntries(turns: seq<Turn>): seq<ItemEntry> {
    if turns == [] then []
    else ItemEntries(Front(turns)) + if Last(turns).items.None? then [] else EntriesOf(Last(turns).id, Last(turns).items.value)
  }

  function EntryKey(entry: ItemEntry): (TurnId, ItemId) {
    entry.key
  }

  ghost predicate DistinctItems(items: seq<RawItem>) {
    forall i, j :: 0 <= i < j < |items| && items[i].Item? && items[j].Item? ==> items[i].id != items[j].id
  }

  ghost predicate WellFormed(turns: seq<Turn>) {
    && (forall i, j :: 0 <= i < j < |turns| ==> turns[i].id != turns[j].id)
    && (forall turn :: turn in turns && turn.items.Some? ==> DistinctItems(turn.items.value))
  }

  lemma {:induction false} EntriesExact(turnId: TurnId, items: seq<RawItem>)
    requires DistinctItems(items)
    ensures DistinctKeys(EntriesOf(turnId, items), EntryKey)
    ensures forall e :: e in EntriesOf(turnId, items) <==> e.item in items && e.item.Item? && e.turnId == turnId && e.key == (turnId, e.item.id)
  {
    if items != [] {
      assert items == Front(items) + [Last(items)];
      EntriesExact(turnId, Front(items));
    }
  }

  /** Item keys pair the turn with the item, so they are unique across the whole thread. */
  lemma {:induction false} ItemKeysDistinct(turns: seq<Turn>)
    requires WellFormed(turns)
    ensures DistinctKeys(ItemEntries(turns), EntryKey)
    ensures forall e :: e in ItemEntries(turns) ==>
              e.key.0 == e.turnId && exists turn :: turn in turns && turn.id == e.turnId && turn.items.Some? && e.item in turn.items.value
  {
    if turns != [] {
      assert turns == Front(turns) + [Last(turns)];
      ItemKeysDistinct(Front(turns));
      if Last(turns).items.Some? {
        EntriesExact(Last(turns).id, Last(turns).items.value);
        assert forall e :: e in ItemEntries(Front(turns)) ==> e.key.0 != Last(turns).id;
      }
    }
  }
}
