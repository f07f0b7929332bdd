/**
 * The read-only history of a subagent thread: packages/host-runtime/src/external-thread-runtime.ts
 * merges each snapshot it reads into the last one, so that what was once seen is not lost
 * when a native session reports less of it.
 */
module Snapshots {
  import opened Prelude

  // The native turn reference, as the text the merge keys by.
  type TurnKey = nat
  type ItemId = nat

  datatype Item = Item(id: ItemId, content: int)

  datatype Turn = Turn(
    key: TurnKey, input: seq<int>, items: seq<Item>, outcome: int,
    checkpoint: Option<int>, model: Option<int>, startedAt: Option<int>, completedAt: Option<int>)

  datatype Snapshot = Snapshot(turns: seq<Turn>, state: Option<int>)

  // ---- the merge --------------------------------------------------------------------------

  function TurnKeys(turns: seq<Turn>): (keys: seq<TurnKey>)
    ensures |keys| == |turns|
  {
    Map((turn: Turn) => turn.key, turns)
  }

  function ItemIds(items: seq<Item>): (ids: seq<ItemId>)
    ensures |ids| == |items|
  {
    Map((item: Item) => item.id, items)
  }

  // A later entry with the same key replaces an earlier one, as in a map built from the list.
  function TurnOf(turns: seq<Turn>, key: TurnKey): Option<Turn> {
    if turns == [] then None else if Last(turns).key == key then Some(Last(turns)) else TurnOf(Front(turns), key)
  }

  function ItemOf(items: seq<Item>, id: ItemId): Option<Item> {
    if items == [] then None else if Last(items).id == id then Some(Last(items)) else ItemOf(Front(items), id)
  }

  function Or<T>(a: Option<T>, b: Option<T>): Option<T> {
    if a.Some? then a else b
  }

  function UpdateItem(item: Item, update: seq<Item>): Item {
    match ItemOf(update, item.id)
    case None => item
    case Some(updated) => updated
  }

  function NewItems(known: seq<Item>, update: seq<Item>): seq<Item> {
    if update == [] then []
    else if Last(update).id in ItemIds(known) then NewItems(known, Front(update))
    else NewItems(known, Front(update)) + [Last(update)]
  }

  function MergeItems(items: seq<Item>, update: seq<Item>): seq<Item> {
    seq(|items|, i requires 0 <= i < |items| => UpdateItem(items[i], update)) + NewItems(items, update)
  }

  function MergeTurn(turn: Turn, update: Turn): Turn {
    Turn(update.key, if |update.input| > 0 then update.input else turn.input, MergeItems(turn.items, update.items), update.outcome,
         Or(update.checkpoint, turn.checkpoint), Or(update.model, turn.model),
         Or(update.startedAt, turn.startedAt), Or(update.completedAt, turn.completedAt))
  }

  function UpdateTurn(turn: Turn, next: seq<Turn>): Turn {
    match TurnOf(next, turn.key)
    case None => turn
    case Some(update) => MergeTurn(turn, update)
  }

  function NewTurns(known: seq<Turn>, next: seq<Turn>): seq<Turn> {
    if next == [] then []
    else if Last(next).key in TurnKeys(known) then NewTurns(known, Front(next))
    else NewTurns(known, Front(next)) + [Last(next)]
  }

  /** `mergeReadonlySnapshot`. */
  function Merge(previous: Snapshot, next: Snapshot): Snapshot {
    Snapshot(
      seq(|previous.turns|, i requires 0 <= i < |previous.turns| => UpdateTurn(previous.turns[i], next.turns))
        + NewTurns(previous.turns, next.turns),
      Or(next.state, previous.state))
  }

  // ---- lookups ------------------------------------------------------------------------------

  lemma {:induction false} ItemOfExact(items: seq<Item>, id: ItemId)
    ensures ItemOf(items, id).Some? ==> ItemOf(items, id).value in items && ItemOf(items, id).value.id == id
    ensures ItemOf(items, id).None? <==> id !in ItemIds(items)
  {
    if items != [] {
      ItemOfExact(Front(items), id);
      assert items == Front(items) + [Last(items)];
      assert ItemIds(items) == ItemIds(Front(items)) + [Last(items).id];
    }
  }

  lemma {:induction false} TurnOfExact(turns: seq<Turn>, key: TurnKey)
    ensures TurnOf(turns, key).Some? ==> TurnOf(turns, key).value in turns && TurnOf(turns, key).value.key == key
    ensures TurnOf(turns, key).None? <==> key !in TurnKeys(turns)
  {
    if turns != [] {
      TurnOfExact(Front(turns), key);
      assert turns == Front(turns) + [Last(turns)];
      assert TurnKeys(turns) == TurnKeys(Front(turns)) + [Last(turns).key];
    }
  }

  lemma {:induction false} ItemOfMember(items: seq<Item>, item: Item)
    requires Distinct(ItemIds(items)) && item in items
    ensures ItemOf(items, item.id) == Some(item)
  {
    if item != Last(items) {
      assert items == Front(items) + [Last(items)];
      assert ItemIds(Front(items)) == ItemIds(items)[..|items| - 1];
      var i :| 0 <= i < |items| - 1 && items[i] == item;
      assert ItemIds(items)[i] != ItemIds(items)[|items| - 1];
      ItemOfMember(Front(items), item);
    }
  }

  lemma {:induction false} TurnOfMember(turns: seq<Turn>, turn: Turn)
    requires Distinct(TurnKeys(turns)) && turn in turns
    ensures TurnOf(turns, turn.key) == Some(turn)
  {
    if turn != Last(turns) {
      assert turns == Front(turns) + [Last(turns)];
      assert TurnKeys(Front(turns)) == TurnKeys(turns)[..|turns| - 1];
      var i :| 0 <= i < |turns| - 1 && turns[i] == turn;
      assert TurnKeys(turns)[i] != TurnKeys(turns)[|turns| - 1];
      TurnOfMember(Front(turns), turn);
    }
  }

  // ---- what is new --------------------------------------------------------------------------------

  lemma {:induction false} NewItemsExact(known: seq<Item>, update: seq<Item>)
    ensures forall item :: item in NewItems(known, update) <==> item in update && item.id !in ItemIds(known)
    ensures Distinct(ItemIds(update)) ==> Distinct(ItemIds(NewItems(known, update)))
  {
    if update != [] {
      NewItemsExact(known, Front(update));
      assert update == Front(update) + [Last(update)];
      assert ItemIds(update) == ItemIds(Front(update)) + [Last(update).id];
      assert ItemIds(Front(update)) == ItemIds(update)[..|update| - 1];
      var older := NewItems(known, Front(update));
      if Distinct(ItemIds(update)) && Last(update).id !in ItemIds(known) {
        assert ItemIds(older + [Last(update)]) == ItemIds(older) + [Last(update).id];
        forall i | 0 <= i < |older| ensures ItemIds(older)[i] != Last(update).id {
          assert older[i] in Front(update);
          var j :| 0 <= j < |Front(update)| && Front(update)[j] == older[i];
          assert ItemIds(update)[j] != ItemIds(update)[|update| - 1];
        }
      }
    }
  }

  lemma {:induction false} NewTurnsExact(known: seq<Turn>, next: seq<Turn>)
    ensures forall turn :: turn in NewTurns(known, next) <==> turn in next && turn.key !in TurnKeys(known)
    ensures Distinct(TurnKeys(next)) ==> Distinct(TurnKeys(NewTurns(known, next)))
  {
    if next != [] {
      NewTurnsExact(known, Front(next));
      assert next == Front(next) + [Last(next)];
      assert TurnKeys(next) == TurnKeys(Front(next)) + [Last(next).key];
      assert TurnKeys(Front(next)) == TurnKeys(next)[..|next| - 1];
      var older := NewTurns(known, Front(next));
      if Distinct(TurnKeys(next)) && Last(next).key !in TurnKeys(known) {
        assert TurnKeys(older + [Last(next)]) == TurnKeys(older) + [Last(next).key];
        forall i | 0 <= i < |older| ensures TurnKeys(older)[i] != Last(next).key {
          assert older[i] in Front(next);
          var j :| 0 <= j < |Front(next)| && Front(next)[j] == older[i];
          assert TurnKeys(next)[j] != TurnKeys(next)[|next| - 1];
        }
      }
    }
  }

  // ---- growth -------------------------------------------------------------------------------------------

  lemma MergedItemIds(items: seq<Item>, update: seq<Item>)
    ensures ItemIds(MergeItems(items, update)) == ItemIds(items) + ItemIds(NewItems(items, update))
  {
    forall i | 0 <= i < |items| ensures UpdateItem(items[i], update).id == items[i].id {
      ItemOfExact(update, items[i].id);
    }
  }

  lemma UpdatedTurnKey(turn: Turn, next: seq<Turn>)
    ensures UpdateTurn(turn, next).key == turn.key
    ensures ItemIds(turn.items) <= ItemIds(UpdateTurn(turn, next).items)
  {
    TurnOfExact(next, turn.key);
    if TurnOf(next, turn.key).Some? { MergedItemIds(turn.items, TurnOf(next, turn.key).value.items); }
  }

  lemma MergedTurnKeys(previous: Snapshot, next: Snapshot)
    ensures TurnKeys(Merge(previous, next).turns) == TurnKeys(previous.turns) + TurnKeys(NewTurns(previous.turns, next.turns))
  {
    forall i | 0 <= i < |previous.turns| ensures UpdateTurn(previous.turns[i], next.turns).key == previous.turns[i].key {
      UpdatedTurnKey(previous.turns[i], next.turns);
    }
  }

  // The turns of one snapshot are the first turns of the other, and so are the items of each turn.
  ghost predicate Extends(later: Snapshot, earlier: Snapshot) {
    && TurnKeys(earlier.turns) <= TurnKeys(later.turns)
    && forall i :: 0 <= i < |earlier.turns| ==> ItemIds(earlier.turns[i].items) <= ItemIds(later.turns[i].items)
  }

  /** One read only extends what was known: no turn and no item goes, or changes its place. */
  lemma MergeExtends(previous: Snapshot, next: Snapshot)
    ensures Extends(Merge(previous, next), previous)
  {
    MergedTurnKeys(previous, next);
    forall i | 0 <= i < |previous.turns|
      ensures ItemIds(previous.turns[i].items) <= ItemIds(Merge(previous, next).turns[i].items)
    {
      UpdatedTurnKey(previous.turns[i], next.turns);
    }
  }

  function Reads(first: Snapshot, seen: seq<Snapshot>): Snapshot {
    if seen == [] then first else Merge(Reads(first, Front(seen)), Last(seen))
  }

  lemma ExtendsTransitive(a: Snapshot, b: Snapshot, c: Snapshot)
    requires Extends(b, a) && Extends(c, b)
    ensures Extends(c, a)
  {
    assert |TurnKeys(a.turns)| <= |TurnKeys(b.turns)|;
    forall i | 0 <= i < |a.turns| ensures ItemIds(a.turns[i].items) <= ItemIds(c.turns[i].items) {
      assert ItemIds(a.turns[i].items) <= ItemIds(b.turns[i].items) <= ItemIds(c.turns[i].items);
    }
  }

  /** Over any number of reads, every later result extends every earlier one. */
  lemma {:induction false} ReadsExtend(first: Snapshot, seen: seq<Snapshot>, n: nat)
    requires n <= |seen|
    ensures Extends(Reads(first, seen), Reads(first, seen[..n]))
  {
    if n == |seen| {
      assert seen[..n] == seen;
    } else {
      assert Front(seen)[..n] == seen[..n];
      ReadsExtend(first, Front(seen), n);
      MergeExtends(Reads(first, Front(seen)), Last(seen));
      ExtendsTransitive(Reads(first, seen[..n]), Reads(first, Front(seen)), Reads(first, seen));
    }
  }

  // ---- uniqueness, completeness, idempotence -----------------------------------------------------------------

  ghost predicate WellFormed(snapshot: Snapshot) {
    && Distinct(TurnKeys(snapshot.turns))
    && forall turn :: turn in snapshot.turns ==> Distinct(ItemIds(turn.items))
  }

  lemma DistinctJoin(a: seq<nat>, b: seq<nat>)
    requires Distinct(a) && Distinct(b) && forall x: nat :: x in b ==> x !in a
    ensures Distinct(a + b)
  {
    assert forall j :: |a| <= j < |a + b| ==> (a + b)[j] in b;
  }

  lemma MergedItemsDistinct(items: seq<Item>, update: seq<Item>)
    requires Distinct(ItemIds(items)) && Distinct(ItemIds(update))
    ensures Distinct(ItemIds(MergeItems(items, update)))
  {
    MergedItemIds(items, update);
    NewItemsExact(items, update);
    var added := NewItems(items, update);
    forall x | x in ItemIds(added) ensures x !in ItemIds(items) {
      var i :| 0 <= i < |added| && ItemIds(added)[i] == x;
      assert added[i] in added;
    }
    DistinctJoin(ItemIds(items), ItemIds(added));
  }

  /** Merging keeps turn keys and item ids unique. */
  lemma MergeWellFormed(previous: Snapshot, next: Snapshot)
    requires WellFormed(previous) && WellFormed(next)
    ensures WellFormed(Merge(previous, next))
  {
    MergedTurnKeys(previous, next);
    NewTurnsExact(previous.turns, next.turns);
    var added := NewTurns(previous.turns, next.turns);
    forall x | x in TurnKeys(added) ensures x !in TurnKeys(previous.turns) {
      var i :| 0 <= i < |added| && TurnKeys(added)[i] == x;
      assert added[i] in added;
    }
    DistinctJoin(TurnKeys(previous.turns), TurnKeys(added));
    forall i | 0 <= i < |previous.turns| ensures Distinct(ItemIds(UpdateTurn(previous.turns[i], next.turns).items)) {
      var turn := previous.turns[i];
      TurnOfExact(next.turns, turn.key);
      if TurnOf(next.turns, turn.key).Some? { MergedItemsDistinct(turn.items, TurnOf(next.turns, turn.key).value.items); }
    }
    forall turn | turn in Merge(previous, next).turns ensures Distinct(ItemIds(turn.items)) {
      var i :| 0 <= i < |Merge(previous, next).turns| && Merge(previous, next).turns[i] == turn;
      if i < |previous.turns| { assert turn == UpdateTurn(previous.turns[i], next.turns); } else { assert turn in added; }
    }
  }

  /**
   * Merged items, exactly: the known ids in their places, then the new ones; each has the
   * update's content if the update has it and the known content otherwise.
   */
  lemma MergedItemsExact(items: seq<Item>, update: seq<Item>, item: Item)
    requires Distinct(ItemIds(items)) && Distinct(ItemIds(update))
    ensures item in MergeItems(items, update) <==> item in update || (item in items && item.id !in ItemIds(update))
  {
    NewItemsExact(items, update);
    if item in update {
      ItemOfMember(update, item);
      if item.id in ItemIds(items) {
        var i :| 0 <= i < |items| && ItemIds(items)[i] == item.id;
        assert MergeItems(items, update)[i] == item;
      }
    } else {
      ItemOfExact(update, item.id);
      if item in items && item.id !in ItemIds(update) {
        var i :| 0 <= i < |items| && items[i] == item;
        assert MergeItems(items, update)[i] == item;
      }
      if item in MergeItems(items, update) {
        var i :| 0 <= i < |MergeItems(items, update)| && MergeItems(items, update)[i] == item;
        if i < |items| { ItemOfExact(update, items[i].id); }
      }
    }
  }

  // The turn says whatever the update says.
  ghost predicate Reflects(turn: Turn, update: Turn) {
    && turn.key == update.key && turn.outcome == update.outcome
    && (update.input != [] ==> turn.input == update.input)
    && (update.checkpoint.Some? ==> turn.checkpoint == update.checkpoint)
    && (update.model.Some? ==> turn.model == update.model)
    && (update.startedAt.Some? ==> turn.startedAt == update.startedAt)
    && (update.completedAt.Some? ==> turn.completedAt == update.completedAt)
    && forall item :: item in update.items ==> item in turn.items
  }

  // Whatever the update leaves out is still as it was known.
  ghost predicate Retains(turn: Turn, known: Turn, update: Option<Turn>) {
    && (update.None? ==> turn == known)
    && (update.Some? ==>
          && (update.value.input == [] ==> turn.input == known.input)
          && (update.value.checkpoint.None? ==> turn.checkpoint == known.checkpoint)
          && (update.value.model.None? ==> turn.model == known.model)
          && (update.value.startedAt.None? ==> turn.startedAt == known.startedAt)
          && (update.value.completedAt.None? ==> turn.completedAt == known.completedAt)
          && forall item :: item in known.items && item.id !in ItemIds(update.value.items) ==> item in turn.items)
  }

  /** Every turn of the new snapshot is reflected in the result, with all its items. */
  lemma MergeReflectsUpdate(previous: Snapshot, next: Snapshot, update: Turn)
    requires WellFormed(previous) && WellFormed(next) && update in next.turns
    ensures exists turn :: turn in Merge(previous, next).turns && Reflects(turn, update)
  {
    var merged := Merge(previous, next).turns;
    if update.key in TurnKeys(previous.turns) {
      var i :| 0 <= i < |previous.turns| && TurnKeys(previous.turns)[i] == update.key;
      TurnOfMember(next.turns, update);
      forall item | item in update.items ensures item in merged[i].items {
        MergedItemsExact(previous.turns[i].items, update.items, item);
      }
      assert merged[i] in merged && Reflects(merged[i], update);
    } else {
      NewTurnsExact(previous.turns, next.turns);
      assert update in merged && Reflects(update, update);
    }
  }

  /** Every known turn keeps its place and what the new snapshot does not say about it. */
  lemma MergeRetainsKnown(previous: Snapshot, next: Snapshot, i: nat)
    requires WellFormed(previous) && WellFormed(next) && i < |previous.turns|
    ensures Retains(Merge(previous, next).turns[i], previous.turns[i], TurnOf(next.turns, previous.turns[i].key))
  {
    var known := previous.turns[i];
    TurnOfExact(next.turns, known.key);
    if TurnOf(next.turns, known.key).Some? {
      var update := TurnOf(next.turns, known.key).value;
      forall item | item in known.items && item.id !in ItemIds(update.items) ensures item in MergeTurn(known, update).items {
        MergedItemsExact(known.items, update.items, item);
      }
    }
  }

  function UnknownTurn(known: seq<Turn>): Turn -> bool {
    (turn: Turn) => forall k :: k in known ==> k.key != turn.key
  }

  function UnknownItem(known: seq<Item>): Item -> bool {
    (item: Item) => forall k :: k in known ==> k.id != item.id
  }

  lemma {:induction false} NewItemsInOrder(known: seq<Item>, update: seq<Item>)
    ensures NewItems(known, update) == Filter(UnknownItem(known), update)
  {
    if update != [] {
      NewItemsInOrder(known, Front(update));
      FilterAppend(UnknownItem(known), Front(update), [Last(update)]);
      assert update == Front(update) + [Last(update)] && [Last(update)][1..] == [];
      assert UnknownItem(known)(Last(update)) <==> Last(update).id !in ItemIds(known) by {
        assert forall i :: 0 <= i < |known| ==> ItemIds(known)[i] == known[i].id;
      }
    }
  }

  lemma {:induction false} NewTurnsInOrder(known: seq<Turn>, next: seq<Turn>)
    ensures NewTurns(known, next) == Filter(UnknownTurn(known), next)
  {
    if next != [] {
      NewTurnsInOrder(known, Front(next));
      FilterAppend(UnknownTurn(known), Front(next), [Last(next)]);
      assert next == Front(next) + [Last(next)] && [Last(next)][1..] == [];
      assert UnknownTurn(known)(Last(next)) <==> Last(next).key !in TurnKeys(known) by {
        assert forall i :: 0 <= i < |known| ==> TurnKeys(known)[i] == known[i].key;
      }
    }
  }

  /** What joins the result joins it at the end, in the order of the new snapshot; its state is the newest one known. */
  lemma MergeInOrder(previous: Snapshot, next: Snapshot)
    ensures |Merge(previous, next).turns| >= |previous.turns|
    ensures Merge(previous, next).turns[|previous.turns|..] == Filter(UnknownTurn(previous.turns), next.turns)
    ensures next.state.Some? ==> Merge(previous, next).state == next.state
    ensures next.state.None? ==> Merge(previous, next).state == previous.state
  {
    NewTurnsInOrder(previous.turns, next.turns);
  }

  // The last entry for its key.
  ghost predicate LastTurn(turns: seq<Turn>, j: nat) {
    j < |turns| && forall k :: j < k < |turns| ==> turns[k].key != turns[j].key
  }

  ghost predicate LastItem(items: seq<Item>, j: nat) {
    j < |items| && forall k :: j < k < |items| ==> items[k].id != items[j].id
  }

  lemma {:induction false} LastTurnFound(turns: seq<Turn>, j: nat)
    requires LastTurn(turns, j)
    ensures TurnOf(turns, turns[j].key) == Some(turns[j])
  {
    if j < |turns| - 1 { LastTurnFound(Front(turns), j); }
  }

  lemma {:induction false} LastItemFound(items: seq<Item>, j: nat)
    requires LastItem(items, j)
    ensures ItemOf(items, items[j].id) == Some(items[j])
  {
    if j < |items| - 1 { LastItemFound(Front(items), j); }
  }

  /**
   * If a snapshot names a turn or an item more than once, its last word counts. The items of a
   * known turn stay in their places, and those it gains follow in the order of the snapshot.
   */
  lemma LastWordCounts(previous: Snapshot, next: Snapshot, i: nat, j: nat)
    requires i < |previous.turns| && LastTurn(next.turns, j) && next.turns[j].key == previous.turns[i].key
    ensures i < |Merge(previous, next).turns|
    ensures var known, update, turn := previous.turns[i], next.turns[j], Merge(previous, next).turns[i];
            && turn.key == known.key && turn.outcome == update.outcome
            && turn.input == (if update.input == [] then known.input else update.input)
            && |turn.items| >= |known.items| && turn.items[|known.items|..] == Filter(UnknownItem(known.items), update.items)
            && (forall m :: 0 <= m < |known.items| ==> turn.items[m].id == known.items[m].id)
            && (forall m, n: nat :: 0 <= m < |known.items| && LastItem(update.items, n) && update.items[n].id == known.items[m].id ==>
                  turn.items[m] == update.items[n])
  {
    var known, update := previous.turns[i], next.turns[j];
    LastTurnFound(next.turns, j);
    NewItemsInOrder(known.items, update.items);
    forall m | 0 <= m < |known.items| ensures MergeTurn(known, update).items[m].id == known.items[m].id {
      ItemOfExact(update.items, known.items[m].id);
    }
    forall m, n: nat | 0 <= m < |known.items| && LastItem(update.items, n) && update.items[n].id == known.items[m].id
      ensures MergeTurn(known, update).items[m] == update.items[n]
    {
      LastItemFound(update.items, n);
    }
  }

  lemma NothingNew(known: seq<Item>, update: seq<Item>)
    requires forall item :: item in update ==> item.id in ItemIds(known)
    ensures NewItems(known, update) == []
  {
    NewItemsExact(known, update);
    if NewItems(known, update) != [] { assert NewItems(known, update)[0] in NewItems(known, update); }
  }

  lemma NoNewTurns(known: seq<Turn>, next: seq<Turn>)
    requires forall turn :: turn in next ==> turn.key in TurnKeys(known)
    ensures NewTurns(known, next) == []
  {
    NewTurnsExact(known, next);
    if NewTurns(known, next) != [] { assert NewTurns(known, next)[0] in NewTurns(known, next); }
  }

  // Items that already carry the update are left as they are.
  lemma ItemsSettled(items: seq<Item>, update: seq<Item>)
    requires forall i :: 0 <= i < |items| ==> UpdateItem(items[i], update) == items[i]
    requires forall item :: item in update ==> item.id in ItemIds(items)
    ensures MergeItems(items, update) == items
  {
    NothingNew(items, update);
  }

  lemma MergeItemsTwice(items: seq<Item>, update: seq<Item>)
    requires Distinct(ItemIds(update))
    ensures MergeItems(MergeItems(items, update), update) == MergeItems(items, update)
  {
    var merged := MergeItems(items, update);
    NewItemsExact(items, update);
    MergedItemIds(items, update);
    forall i | 0 <= i < |merged| ensures UpdateItem(merged[i], update) == merged[i] {
      if i < |items| {
        ItemOfExact(update, items[i].id);
      } else {
        assert merged[i] in NewItems(items, update);
        ItemOfMember(update, merged[i]);
      }
    }
    forall item | item in update ensures item.id in ItemIds(merged) {
      if item.id !in ItemIds(items) {
        var k :| 0 <= k < |NewItems(items, update)| && NewItems(items, update)[k] == item;
        assert ItemIds(NewItems(items, update))[k] == item.id;
      }
    }
    ItemsSettled(merged, update);
  }

  lemma MergeItemsWithSelf(items: seq<Item>)
    requires Distinct(ItemIds(items))
    ensures MergeItems(items, items) == items
  {
    forall i | 0 <= i < |items| ensures UpdateItem(items[i], items) == items[i] {
      ItemOfMember(items, items[i]);
    }
    forall item | item in items ensures item.id in ItemIds(items) {
      var i :| 0 <= i < |items| && items[i] == item;
      assert ItemIds(items)[i] == item.id;
    }
    ItemsSettled(items, items);
  }

  lemma UpdateTurnTwice(turn: Turn, next: Snapshot)
    requires WellFormed(next)
    ensures UpdateTurn(UpdateTurn(turn, next.turns), next.turns) == UpdateTurn(turn, next.turns)
  {
    TurnOfExact(next.turns, turn.key);
    if TurnOf(next.turns, turn.key).Some? {
      MergeItemsTwice(turn.items, TurnOf(next.turns, turn.key).value.items);
    }
  }

  lemma UpdateOwnTurn(turn: Turn, next: Snapshot)
    requires WellFormed(next) && turn in next.turns
    ensures UpdateTurn(turn, next.turns) == turn
  {
    TurnOfMember(next.turns, turn);
    MergeItemsWithSelf(turn.items);
  }

  /** Reading the same snapshot twice is reading it once, if its own keys are unique. */
  lemma MergeIdempotent(previous: Snapshot, next: Snapshot)
    requires WellFormed(next)
    ensures Merge(Merge(previous, next), next) == Merge(previous, next)
  {
    var merged := Merge(previous, next);
    NewTurnsExact(previous.turns, next.turns);
    MergedTurnKeys(previous, next);
    forall i | 0 <= i < |merged.turns| ensures UpdateTurn(merged.turns[i], next.turns) == merged.turns[i] {
      if i < |previous.turns| {
        UpdateTurnTwice(previous.turns[i], next);
      } else {
        assert merged.turns[i] in NewTurns(previous.turns, next.turns);
        UpdateOwnTurn(merged.turns[i], next);
      }
    }
    forall turn | turn in next.turns ensures turn.key in TurnKeys(merged.turns) {
      if turn.key !in TurnKeys(previous.turns) {
        var added := NewTurns(previous.turns, next.turns);
        var k :| 0 <= k < |added| && added[k] == turn;
        assert TurnKeys(added)[k] == turn.key;
      }
    }
    NoNewTurns(merged.turns, next.turns);
  }

  // ---- the object ------------------------------------------------------------------------------------------------

  method MergeReadonlySnapshot(previous: Snapshot, next: Snapshot) returns (merged: Snapshot)
    ensures merged == Merge(previous, next)
  {
    var turns: seq<Turn> := [];
    var retained: set<TurnKey> := {};
    for i := 0 to |previous.turns|
      invariant |turns| == i
      invariant forall k :: 0 <= k < i ==> turns[k] == UpdateTurn(previous.turns[k], next.turns)
      invariant retained == Elements(TurnKeys(previous.turns)[..i])
    {
      var turn := previous.turns[i];
      retained := retained + {turn.key};
      var update := TurnOf(next.turns, turn.key);
      if update.None? {
        turns := turns + [turn];
      } else {
        var items := MergeTurnItems(turn.items, update.value.items);
        turns := turns + [MergeTurn(turn, update.value).(items := items)];
      }
      assert TurnKeys(previous.turns)[..i + 1] == TurnKeys(previous.turns)[..i] + [turn.key];
    }
    assert TurnKeys(previous.turns)[..|previous.turns|] == TurnKeys(previous.turns);
    ghost var kept := turns;
    for i := 0 to |next.turns|
      invariant turns == kept + NewTurns(previous.turns, next.turns[..i])
    {
      assert Front(next.turns[..i + 1]) == next.turns[..i];
      if next.turns[i].key !in retained {
        turns := turns + [next.turns[i]];
      }
    }
    assert next.turns[..|next.turns|] == next.turns;
    return Snapshot(turns, if next.state.Some? then next.state else previous.state);
  }

  method MergeTurnItems(known: seq<Item>, update: seq<Item>) returns (items: seq<Item>)
    ensures items == MergeItems(known, update)
  {
    items := [];
    var retained: set<ItemId> := {};
    for i := 0 to |known|
      invariant |items| == i
      invariant forall k :: 0 <= k < i ==> items[k] == UpdateItem(known[k], update)
      invariant retained == Elements(ItemIds(known)[..i])
    {
      retained := retained + {known[i].id};
      var updated := ItemOf(update, known[i].id);
      items := items + [if updated.Some? then updated.value else known[i]];
      assert ItemIds(known)[..i + 1] == ItemIds(known)[..i] + [known[i].id];
    }
    assert ItemIds(known)[..|known|] == ItemIds(known);
    ghost var kept := items;
    for i := 0 to |update|
      invariant items == kept + NewItems(known, update[..i])
    {
      assert Front(update[..i + 1]) == update[..i];
      if update[i].id !in retained {
        items := items + [update[i]];
      }
    }
    assert update[..|update|] == update;
  }

  class ReadonlySnapshotSession {
    var lastSnapshot: Snapshot

    constructor (initial: Snapshot)
      ensures lastSnapshot == Reads(initial, [])
    {
      lastSnapshot := initial;
    }

    /** A failed read changes nothing; a successful one returns what is now known. */
    method ReadSnapshot(answer: Result<Snapshot, int>) returns (r: Result<Snapshot, int>)
      modifies this
      ensures answer.Err? ==> r == answer && lastSnapshot == old(lastSnapshot)
      ensures answer.Ok? ==> lastSnapshot == Merge(old(lastSnapshot), answer.value) && r == Ok(lastSnapshot)
      ensures Extends(lastSnapshot, old(lastSnapshot))
    {
      if answer.Err? {
        return answer;
      }
      MergeExtends(lastSnapshot, answer.value);
      lastSnapshot := MergeReadonlySnapshot(lastSnapshot, answer.value);
      return Ok(lastSnapshot);
    }
  }
}
