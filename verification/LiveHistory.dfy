/**
 * Paging a history whose entries also change in place: the message of a running turn is
 * rewritten while a reader is between two pages. What packages/host-runtime/src/external-thread-history.ts
 * delivers is then the right entries by key, each in the version its own page saw. Everything
 * here follows from HistoryPaging, because a page depends on an entry only through its key.
 */
module LiveHistory {
  import opened Prelude
  import opened HistoryPaging

  function Same<K>(k: K): K {
    k
  }

  function KeysOf<T, K>(values: seq<T>, key: T -> K): seq<K> {
    Map(key, values)
  }

  // Among these entries the filter can be told from the key, as the turn filter of item listings can.
  ghost predicate ByKey<T, K>(values: seq<T>, key: T -> K, filter: T -> bool, wanted: K -> bool) {
    forall v :: v in values ==> filter(v) == wanted(key(v))
  }

  ghost predicate AllByKey<T, K>(requests: seq<Request<T>>, key: T -> K, filter: T -> bool, wanted: K -> bool) {
    forall i :: 0 <= i < |requests| ==> ByKey(requests[i].values, key, filter, wanted)
  }

  // The keys only grow at their end; the entries behind them may differ from page to page.
  ghost predicate KeysGrow<T, K(!new)>(requests: seq<Request<T>>, key: T -> K) {
    && (forall i, j :: 0 <= i < j < |requests| ==> KeysOf(requests[i].values, key) <= KeysOf(requests[j].values, key))
    && (forall i :: 0 <= i < |requests| ==> Distinct(KeysOf(requests[i].values, key)))
    && (forall i :: 0 <= i < |requests| ==> PageSize(requests[i].limit).Ok?)
  }

  // ---- reading keys instead of entries ---------------------------------------------------------

  function KeyRequest<T, K>(request: Request<T>, key: T -> K): Request<K> {
    Request(KeysOf(request.values, key), request.limit)
  }

  function KeyRequests<T, K>(requests: seq<Request<T>>, key: T -> K): (r: seq<Request<K>>)
    ensures |r| == |requests|
    ensures forall i :: 0 <= i < |requests| ==> r[i] == KeyRequest(requests[i], key)
  {
    seq(|requests|, i requires 0 <= i < |requests| => KeyRequest(requests[i], key))
  }

  function KeyPage<T, K>(page: Page<T, K>, key: T -> K): Page<K, K> {
    Page(KeysOf(page.data, key), page.nextCursor, page.backwardsCursor)
  }

  function KeyWalk<T, K>(walk: Walk<T, K>, key: T -> K): Walk<K, K> {
    match walk
    case Walking(data, cursor) => Walking(KeysOf(data, key), cursor)
    case Finished(data) => Finished(KeysOf(data, key))
    case Refused(error) => Refused(error)
  }

  lemma KeysAppend<T, K>(a: seq<T>, b: seq<T>, key: T -> K)
    ensures KeysOf(a + b, key) == KeysOf(a, key) + KeysOf(b, key)
  {
  }

  lemma KeysFrom<T, K>(values: seq<T>, key: T -> K, n: nat)
    requires n <= |values|
    ensures KeysOf(values[n..], key) == KeysOf(values, key)[n..]
    ensures KeysOf(values[..n], key) == KeysOf(values, key)[..n]
  {
  }

  lemma KeysOrdered<T, K>(values: seq<T>, key: T -> K, direction: Direction)
    ensures KeysOf(Ordered(values, direction), key) == Ordered(KeysOf(values, key), direction)
  {
  }

  lemma {:induction false} KeysFiltered<T(!new), K>(values: seq<T>, key: T -> K, filter: T -> bool, wanted: K -> bool)
    requires ByKey(values, key, filter, wanted)
    ensures KeysOf(Filter(filter, values), key) == Filter(wanted, KeysOf(values, key))
  {
    if values != [] {
      var head := if filter(values[0]) then [values[0]] else [];
      KeysFiltered(values[1..], key, filter, wanted);
      KeysAppend(head, Filter(filter, values[1..]), key);
      KeysFrom(values, key, 1);
      assert KeysOf(head, key) == if wanted(key(values[0])) then [key(values[0])] else [];
    }
  }

  lemma {:induction false} FindByKey<T, K>(values: seq<T>, key: T -> K, anchor: K)
    ensures FindIndex(values, key, anchor) == FindIndex(KeysOf(values, key), Same, anchor)
  {
    if values != [] {
      FindByKey(values[1..], key, anchor);
      KeysFrom(values, key, 1);
    }
  }

  lemma CutByKey<T, K>(eligible: seq<T>, key: T -> K, limit: int)
    requires limit >= 1
    ensures KeyPage(CutPage(eligible, key, limit), key) == CutPage(KeysOf(eligible, key), Same, limit)
  {
    if limit <= |eligible| { KeysFrom(eligible, key, limit); }
  }

  lemma StartByKey<T, K>(ordered: seq<T>, key: T -> K, at: Option<Cursor<K>>)
    ensures StartOf(ordered, key, at) == StartOf(KeysOf(ordered, key), Same, at)
    ensures StartOf(ordered, key, at).Ok? ==> StartOf(ordered, key, at).value <= |ordered|
  {
    StartInside(ordered, key, at);
    if at.Some? { FindByKey(ordered, key, at.value.anchor); }
  }

  lemma CutPageByKey<T(!new), K>(ordered: seq<T>, start: nat, size: int, key: T -> K, filter: T -> bool, wanted: K -> bool)
    requires ByKey(ordered, key, filter, wanted) && start <= |ordered| && size >= 1
    ensures KeyPage(CutPage(Filter(filter, ordered[start..]), key, size), key)
         == CutPage(Filter(wanted, KeysOf(ordered, key)[start..]), Same, size)
  {
    KeysFrom(ordered, key, start);
    KeysFiltered(ordered[start..], key, filter, wanted);
    CutByKey(Filter(filter, ordered[start..]), key, size);
  }

  /** A page of entries, read as keys, is the page of the keys. */
  lemma PageByKey<T(!new), K>(
    values: seq<T>, key: T -> K, cursor: Field<Cursor<K>>, limit: Field<int>, direction: Direction, filter: T -> bool, wanted: K -> bool)
    requires ByKey(values, key, filter, wanted)
    ensures PageEntries(KeysOf(values, key), Same, cursor, limit, Given(direction), direction, wanted) ==
      match PageEntries(values, key, cursor, limit, Given(direction), direction, filter)
      case Ok(page) => Ok(KeyPage(page, key))
      case Err(e) => Err(e)
  {
    var ordered := Ordered(values, direction);
    var at := if cursor.Given? then Some(cursor.value) else None;
    KeysOrdered(values, key, direction);
    StartByKey(ordered, key, at);
    if StartOf(ordered, key, at).Ok? && PageSize(limit).Ok? {
      CutPageByKey(ordered, StartOf(ordered, key, at).value, PageSize(limit).value, key, filter, wanted);
    }
  }

  lemma FollowByKey<T(!new), K>(
    walk: Walk<T, K>, request: Request<T>, key: T -> K, direction: Direction, filter: T -> bool, wanted: K -> bool)
    requires ByKey(request.values, key, filter, wanted)
    ensures KeyWalk(Follow(walk, request, key, direction, filter), key)
         == Follow(KeyWalk(walk, key), KeyRequest(request, key), Same, direction, wanted)
  {
    if walk.Walking? {
      var cursor := if walk.cursor.Some? then Given(walk.cursor.value) else Absent;
      PageByKey(request.values, key, cursor, request.limit, direction, filter, wanted);
      var page := PageEntries(request.values, key, cursor, request.limit, Given(direction), direction, filter);
      if page.Ok? { KeysAppend(walk.data, page.value.data, key); }
    }
  }

  lemma KeyRequestsFront<T, K>(requests: seq<Request<T>>, key: T -> K)
    requires requests != []
    ensures KeyRequests(Front(requests), key) == Front(KeyRequests(requests, key))
  {
  }

  /** And so a whole walk over entries, read as keys, is the walk over the keys. */
  lemma {:induction false} WalkByKey<T(!new), K>(
    cursor: Option<Cursor<K>>, requests: seq<Request<T>>, key: T -> K, direction: Direction, filter: T -> bool, wanted: K -> bool)
    requires AllByKey(requests, key, filter, wanted)
    ensures KeyWalk(WalkFrom(cursor, requests, key, direction, filter), key)
         == WalkFrom(cursor, KeyRequests(requests, key), Same, direction, wanted)
  {
    if requests == [] {
      assert KeyRequests(requests, key) == [];
    } else {
      WalkByKey(cursor, Front(requests), key, direction, filter, wanted);
      KeyRequestsFront(requests, key);
      FollowByKey(WalkFrom(cursor, Front(requests), key, direction, filter), Last(requests), key, direction, filter, wanted);
    }
  }

  lemma KeysGrowing<T, K(!new)>(requests: seq<Request<T>>, key: T -> K)
    requires KeysGrow(requests, key)
    ensures Growing(KeyRequests(requests, key), Same)
  {
    var keyed := KeyRequests(requests, key);
    forall i | 0 <= i < |keyed| ensures DistinctKeys(keyed[i].values, Same) {
      assert Distinct(KeysOf(requests[i].values, key));
    }
    forall i, j | 0 <= i < j < |keyed| ensures keyed[i].values <= keyed[j].values {
      assert KeysOf(requests[i].values, key) <= KeysOf(requests[j].values, key);
    }
  }

  // ---- what a reader gets --------------------------------------------------------------------------

  /** What a page adds to a walk are entries of the history as that page saw it. */
  lemma PageDeliversItsVersion<T(!new), K>(walk: Walk<T, K>, request: Request<T>, key: T -> K, direction: Direction, filter: T -> bool)
    requires walk.Walking? && !Follow(walk, request, key, direction, filter).Refused?
    ensures walk.data <= Follow(walk, request, key, direction, filter).data
    ensures forall v :: v in Follow(walk, request, key, direction, filter).data[|walk.data|..] ==> v in request.values && filter(v)
  {
    var cursor := if walk.cursor.Some? then Given(walk.cursor.value) else Absent;
    var start, size := PageShape(request.values, key, cursor, request.limit, direction, filter);
    EligibleFromHistory(request.values, direction, start, filter);
    hide Filter;
    hide PageEntries;
    assert forall v :: v in CutPage(Filter(filter, Ordered(request.values, direction)[start..]), key, size).data ==> v in request.values && filter(v);
  }

  lemma EligibleFromHistory<T(!new)>(values: seq<T>, direction: Direction, start: nat, filter: T -> bool)
    requires start <= |Ordered(values, direction)|
    ensures forall v :: v in Filter(filter, Ordered(values, direction)[start..]) ==> v in values && filter(v)
  {
    hide Filter;
    hide Ordered;
    var rest := Ordered(values, direction)[start..];
    FilterMembers(filter, rest);
    forall v | v in Filter(filter, rest) ensures v in values && filter(v) {
      assert v in rest;
      OrderedMember(values, direction, start, v);
    }
  }

  lemma OrderedMember<T>(values: seq<T>, direction: Direction, start: nat, v: T)
    requires start <= |Ordered(values, direction)| && v in Ordered(values, direction)[start..]
    ensures v in values
  {
    var ordered := Ordered(values, direction);
    var i :| start <= i < |ordered| && ordered[i] == v;
    assert v == if direction.Ascending? then values[i] else values[|values| - 1 - i];
  }

  /**
   * Ascending over a history that grows and changes in place: no page is refused, the walk
   * ends within as many pages as there are matches, and by key it delivers exactly the
   * matching history as of its last page, each entry once.
   */
  lemma AscendingLiveWalk<T(!new), K(!new)>(
    cursor: Option<Cursor<K>>, requests: seq<Request<T>>, key: T -> K, filter: T -> bool, wanted: K -> bool, from: nat)
    requires requests != [] && KeysGrow(requests, key) && AllByKey(requests, key, filter, wanted)
    requires StartOf(KeysOf(requests[0].values, key), Same, cursor) == Ok(from)
    ensures from <= |KeysOf(Last(requests).values, key)|
    ensures !WalkFrom(cursor, requests, key, Ascending, filter).Refused?
    ensures WalkFrom(cursor, Front(requests), key, Ascending, filter).Walking? ==>
      Delivers(KeyWalk(WalkFrom(cursor, requests, key, Ascending, filter), key), |requests|,
               Filter(wanted, KeysOf(Last(requests).values, key)[from..]))
  {
    hide Filter;
    hide WalkFrom;
    hide StartOf;
    KeysGrowing(requests, key);
    KeyRequestsFront(requests, key);
    WalkByKey(cursor, requests, key, Ascending, filter, wanted);
    WalkByKey(cursor, Front(requests), key, Ascending, filter, wanted);
    AscendingWalk(cursor, KeyRequests(requests, key), Same, wanted, from);
  }

  /** Descending, it delivers by key exactly the matching history as of its first page. */
  lemma DescendingLiveWalk<T(!new), K(!new)>(
    cursor: Option<Cursor<K>>, requests: seq<Request<T>>, key: T -> K, filter: T -> bool, wanted: K -> bool, from: nat)
    requires requests != [] && KeysGrow(requests, key) && AllByKey(requests, key, filter, wanted)
    requires StartOf(Reverse(KeysOf(requests[0].values, key)), Same, cursor) == Ok(from)
    ensures from <= |Reverse(KeysOf(requests[0].values, key))|
    ensures Delivers(KeyWalk(WalkFrom(cursor, requests, key, Descending, filter), key), |requests|,
                     Filter(wanted, Reverse(KeysOf(requests[0].values, key))[from..]))
  {
    KeysGrowing(requests, key);
    hide Filter;
    hide WalkFrom;
    hide StartOf;
    WalkByKey(cursor, requests, key, Descending, filter, wanted);
    DescendingWalk(cursor, KeyRequests(requests, key), Same, wanted, from);
  }

  /**
   * Turning round on a page: whatever was added or rewritten since, a descending walk from
   * the `backwardsCursor` of an ascending page delivers by key exactly the matches up to and
   * including that page's first entry.
   */
  lemma BackwardsOverLiveHistory<T(!new), K(!new)>(
    values: seq<T>, key: T -> K, page: Page<T, K>, cursor: Field<Cursor<K>>, limit: Field<int>, filter: T -> bool, wanted: K -> bool,
    requests: seq<Request<T>>)
    returns (i: nat)
    requires requests != [] && KeysGrow(requests, key) && AllByKey(requests, key, filter, wanted)
    requires ByKey(values, key, filter, wanted) && KeysOf(values, key) <= KeysOf(requests[0].values, key)
    requires PageEntries(values, key, cursor, limit, Given(Ascending), Ascending, filter) == Ok(page) && page.data != []
    ensures i < |values| && key(values[i]) == key(page.data[0])
    ensures Delivers(KeyWalk(WalkFrom(page.backwardsCursor, requests, key, Descending, filter), key), |requests|,
                     Reverse(Filter(wanted, KeysOf(values, key)[..i + 1])))
  {
    PageByKey(values, key, cursor, limit, Ascending, filter, wanted);
    KeysGrowing(requests, key);
    hide Filter;
    hide WalkFrom;
    hide PageEntries;
    i := BackwardsFromAscendingPage(KeysOf(values, key), Same, KeyPage(page, key), cursor, limit, wanted, KeyRequests(requests, key));
    WalkByKey(page.backwardsCursor, requests, key, Descending, filter, wanted);
  }

  // ---- items ------------------------------------------------------------------------------------------

  function ItemKeys(turns: seq<Turn>): seq<(TurnId, ItemId)> {
    KeysOf(ItemEntries(turns), EntryKey)
  }

  // The same places hold objects with the same ids; what they say may differ.
  predicate SameIds(items: seq<RawItem>, later: seq<RawItem>) {
    && |items| == |later|
    && forall i :: 0 <= i < |items| ==>
         (items[i].Item? <==> later[i].Item?) && (items[i].Item? ==> items[i].id == later[i].id)
  }

  // A turn may be rewritten, but keeps its id and the ids of its items.
  predicate SameTurn(turn: Turn, later: Turn) {
    && turn.id == later.id && (turn.items.Some? <==> later.items.Some?)
    && (turn.items.Some? ==> SameIds(turn.items.value, later.items.value))
  }

  // The last turn may also gain items.
  predicate GrownTurn(turn: Turn, later: Turn) {
    && turn.id == later.id
    && (turn.items.Some? ==>
          later.items.Some? && |turn.items.value| <= |later.items.value|
          && SameIds(turn.items.value, later.items.value[..|turn.items.value|]))
  }

  // How a thread's turns develop between two pages.
  predicate TurnsDevelop(turns: seq<Turn>, later: seq<Turn>) {
    && |turns| <= |later|
    && (forall i :: 0 <= i < |turns| - 1 ==> SameTurn(turns[i], later[i]))
    && (turns != [] ==> GrownTurn(Last(turns), later[|turns| - 1]))
  }

  lemma {:induction false} SameIdsSameKeys(id: TurnId, items: seq<RawItem>, later: seq<RawItem>)
    requires SameIds(items, later)
    ensures KeysOf(EntriesOf(id, items), EntryKey) == KeysOf(EntriesOf(id, later), EntryKey)
  {
    if items != [] { SameIdsSameKeys(id, Front(items), Front(later)); }
  }

  lemma {:induction false} MoreItemsMoreKeys(id: TurnId, items: seq<RawItem>, n: nat)
    requires n <= |items|
    ensures KeysOf(EntriesOf(id, items[..n]), EntryKey) <= KeysOf(EntriesOf(id, items), EntryKey)
    decreases |items|
  {
    if n == |items| {
      assert items[..n] == items;
    } else {
      assert Front(items)[..n] == items[..n];
      MoreItemsMoreKeys(id, Front(items), n);
    }
  }

  lemma {:induction false} MoreTurnsMoreKeys(turns: seq<Turn>, n: nat)
    requires n <= |turns|
    ensures ItemKeys(turns[..n]) <= ItemKeys(turns)
    decreases |turns|
  {
    if n == |turns| {
      assert turns[..n] == turns;
    } else {
      assert Front(turns)[..n] == turns[..n];
      MoreTurnsMoreKeys(Front(turns), n);
    }
  }

  lemma LastTurnKeys(turns: seq<Turn>)
    requires turns != []
    ensures ItemKeys(turns) == ItemKeys(Front(turns)) +
      if Last(turns).items.None? then [] else KeysOf(EntriesOf(Last(turns).id, Last(turns).items.value), EntryKey)
  {
  }

  lemma {:induction false} SameTurnsSameKeys(turns: seq<Turn>, later: seq<Turn>)
    requires |turns| == |later| && forall i :: 0 <= i < |turns| ==> SameTurn(turns[i], later[i])
    ensures ItemKeys(turns) == ItemKeys(later)
  {
    if turns != [] {
      SameTurnsSameKeys(Front(turns), Front(later));
      assert SameTurn(Last(turns), Last(later));
      if Last(turns).items.Some? { SameIdsSameKeys(Last(turns).id, Last(turns).items.value, Last(later).items.value); }
      LastTurnKeys(turns);
      LastTurnKeys(later);
    }
  }

  /**
   * A thread whose turns and items are rewritten in place, whose last turn gains items and
   * which gains turns has item keys that only grow.
   */
  lemma ItemHistoryGrows(turns: seq<Turn>, later: seq<Turn>)
    requires TurnsDevelop(turns, later)
    ensures ItemKeys(turns) <= ItemKeys(later)
  {
    if turns != [] {
      var n := |turns|;
      var last, grown := Last(turns), later[n - 1];
      SameTurnsSameKeys(Front(turns), later[..n - 1]);
      assert Front(later[..n]) == later[..n - 1] && Last(later[..n]) == grown;
      LastTurnKeys(turns);
      LastTurnKeys(later[..n]);
      hide ItemKeys;
      hide KeysOf;
      hide EntriesOf;
      if last.items.Some? {
        SameIdsSameKeys(last.id, last.items.value, grown.items.value[..|last.items.value|]);
        MoreItemsMoreKeys(last.id, grown.items.value, |last.items.value|);
      }
      MoreTurnsMoreKeys(later, n);
    }
  }

  // ---- listing items ----------------------------------------------------------------------------------

  // The filter of an item listing: all items, or those of one turn.
  function OfTurn(turn: Option<TurnId>): ItemEntry -> bool {
    (entry: ItemEntry) => turn.None? || entry.turnId == turn.value
  }

  function KeyOfTurn(turn: Option<TurnId>): ((TurnId, ItemId)) -> bool {
    (key: (TurnId, ItemId)) => turn.None? || key.0 == turn.value
  }

  /** The key of an item entry names its turn, so a listing's filter can be told from the key. */
  lemma {:induction false} TurnFilterByKey(turns: seq<Turn>, turn: Option<TurnId>)
    ensures ByKey(ItemEntries(turns), EntryKey, OfTurn(turn), KeyOfTurn(turn))
  {
    if turns != [] {
      TurnFilterByKey(Front(turns), turn);
      if Last(turns).items.Some? { EntriesByTurn(Last(turns).id, Last(turns).items.value, turn); }
    }
  }

  lemma {:induction false} EntriesByTurn(id: TurnId, items: seq<RawItem>, turn: Option<TurnId>)
    ensures ByKey(EntriesOf(id, items), EntryKey, OfTurn(turn), KeyOfTurn(turn))
  {
    if items != [] { EntriesByTurn(id, Front(items), turn); }
  }

  // Each request finds the thread as it is at its time.
  ghost predicate Listings(threads: seq<seq<Turn>>, requests: seq<Request<ItemEntry>>) {
    && |threads| == |requests|
    && (forall i :: 0 <= i < |requests| ==> ItemEntries(threads[i]) == requests[i].values)
    && (forall i :: 0 <= i < |requests| ==> WellFormed(threads[i]) && PageSize(requests[i].limit).Ok?)
    && (forall i, j :: 0 <= i < j < |threads| ==> TurnsDevelop(threads[i], threads[j]))
  }

  lemma ListingsGrow(threads: seq<seq<Turn>>, requests: seq<Request<ItemEntry>>, turn: Option<TurnId>)
    requires Listings(threads, requests)
    ensures KeysGrow(requests, EntryKey) && AllByKey(requests, EntryKey, OfTurn(turn), KeyOfTurn(turn))
  {
    forall i | 0 <= i < |requests|
      ensures Distinct(KeysOf(requests[i].values, EntryKey)) && ByKey(requests[i].values, EntryKey, OfTurn(turn), KeyOfTurn(turn))
    {
      ItemKeysDistinct(threads[i]);
      TurnFilterByKey(threads[i], turn);
    }
    forall i, j | 0 <= i < j < |requests| ensures KeysOf(requests[i].values, EntryKey) <= KeysOf(requests[j].values, EntryKey) {
      ItemHistoryGrows(threads[i], threads[j]);
    }
  }

  /**
   * Listing the items of a thread, or of one turn of it, while the thread develops: following
   * nextCursor is never refused, and delivers by key exactly the items asked for as of the
   * last page.
   */
  lemma ItemListing(
    threads: seq<seq<Turn>>, requests: seq<Request<ItemEntry>>, turn: Option<TurnId>, cursor: Option<Cursor<(TurnId, ItemId)>>, from: nat)
    requires requests != [] && Listings(threads, requests)
    requires StartOf(ItemKeys(threads[0]), Same, cursor) == Ok(from)
    ensures from <= |ItemKeys(Last(threads))|
    ensures !WalkFrom(cursor, requests, EntryKey, Ascending, OfTurn(turn)).Refused?
    ensures WalkFrom(cursor, Front(requests), EntryKey, Ascending, OfTurn(turn)).Walking? ==>
      Delivers(KeyWalk(WalkFrom(cursor, requests, EntryKey, Ascending, OfTurn(turn)), EntryKey), |requests|,
               Filter(KeyOfTurn(turn), ItemKeys(Last(threads))[from..]))
  {
    ListingsGrow(threads, requests, turn);
    AscendingLiveWalk(cursor, requests, EntryKey, OfTurn(turn), KeyOfTurn(turn), from);
  }

  /** Newest first, a listing delivers by key exactly the items asked for as of its first page. */
  lemma ItemListingNewestFirst(
    threads: seq<seq<Turn>>, requests: seq<Request<ItemEntry>>, turn: Option<TurnId>, cursor: Option<Cursor<(TurnId, ItemId)>>, from: nat)
    requires requests != [] && Listings(threads, requests)
    requires StartOf(Reverse(ItemKeys(threads[0])), Same, cursor) == Ok(from)
    ensures from <= |Reverse(ItemKeys(threads[0]))|
    ensures Delivers(KeyWalk(WalkFrom(cursor, requests, EntryKey, Descending, OfTurn(turn)), EntryKey), |requests|,
                     Filter(KeyOfTurn(turn), Reverse(ItemKeys(threads[0]))[from..]))
  {
    ListingsGrow(threads, requests, turn);
    DescendingLiveWalk(cursor, requests, EntryKey, OfTurn(turn), KeyOfTurn(turn), from);
  }

  /**
   * Turning round on a page of items: from its `backwardsCursor` a listing newest first
   * delivers by key exactly the items asked for up to the page's first, however the thread
   * has developed since the page.
   */
  lemma ItemListingTurnedRound(
    thread: seq<Turn>, page: Page<ItemEntry, (TurnId, ItemId)>, cursor: Field<Cursor<(TurnId, ItemId)>>, limit: Field<int>, turn: Option<TurnId>,
    threads: seq<seq<Turn>>, requests: seq<Request<ItemEntry>>)
    returns (i: nat)
    requires requests != [] && Listings(threads, requests) && TurnsDevelop(thread, threads[0])
    requires PageEntries(ItemEntries(thread), EntryKey, cursor, limit, Given(Ascending), Ascending, OfTurn(turn)) == Ok(page) && page.data != []
    ensures i < |ItemKeys(thread)| && ItemKeys(thread)[i] == EntryKey(page.data[0])
    ensures Delivers(KeyWalk(WalkFrom(page.backwardsCursor, requests, EntryKey, Descending, OfTurn(turn)), EntryKey), |requests|,
                     Reverse(Filter(KeyOfTurn(turn), ItemKeys(thread)[..i + 1])))
  {
    ListingsGrow(threads, requests, turn);
    TurnFilterByKey(thread, turn);
    ItemHistoryGrows(thread, threads[0]);
    i := BackwardsOverLiveHistory(ItemEntries(thread), EntryKey, page, cursor, limit, OfTurn(turn), KeyOfTurn(turn), requests);
  }
}
