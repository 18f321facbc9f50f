/**
 * The shopping-list ledger (endpoints/shopping-list/shopping-list.js): the
 * name projection, bulk append, clear, merge-add with a note, and
 * decrement-or-remove, each as a pure function from the store and the
 * request to the new store and the status sent.
 */
module ShoppingLists {
  import opened Common
  import opened Store

  /** `notes[i]`: a hole or a position past the end reads as `undefined`. */
  function NoteAt(notes: seq<Note>, i: nat): Note {
    if i < |notes| then notes[i] else None
  }

  /** `notes[i] = v`: a position past the end grows the array, leaving holes. */
  function SetNote(notes: seq<Note>, i: nat, v: Note): (r: seq<Note>)
    ensures |r| == if i < |notes| then |notes| else i + 1
    ensures NoteAt(r, i) == v
    ensures forall j: nat :: j != i ==> NoteAt(r, j) == NoteAt(notes, j)
  {
    if i < |notes| then notes[i := v]
    else notes + seq(i - |notes|, _ => None) + [v]
  }

  /** No item id occurs twice. */
  predicate Distinct(xs: seq<int>) {
    forall i, j :: 0 <= i < j < |xs| ==> xs[i] != xs[j]
  }

  /** The rest of the store is as before; only the list of `bid` may differ. */
  predicate OnlyListChanged(s: Store, s2: Store, bid: BusinessId) {
    bid in s2.lists && s2 == s.(lists := s.lists[bid := s2.lists[bid]])
  }

  // ---------------------------------------------------------------- GET /

  /** `itemNameMap[id] || 'Unknown'`; the lookup is over every business's rows. */
  function ItemName(s: Store, id: int): string {
    if id in s.inventory.rows && Truthy(s.inventory.rows[id].itemName)
    then s.inventory.rows[id].itemName.value
    else "Unknown"
  }

  /** GET `/`: the display name of every line, in list order. */
  function ListNames(s: Store, bid: BusinessId): (r: Result<seq<string>>)
    ensures bid == 0 ==> r == Failure(BadRequest)
    ensures bid != 0 && bid !in s.lists ==> r == Failure(NotFound)
    ensures bid != 0 && bid in s.lists ==>
      && r.Success?
      && |r.value| == |s.lists[bid].itemIds|
      && forall i :: 0 <= i < |r.value| ==>
           var id := s.lists[bid].itemIds[i];
           && (id in s.inventory.rows && Truthy(s.inventory.rows[id].itemName) ==>
                 r.value[i] == s.inventory.rows[id].itemName.value)
           && (!(id in s.inventory.rows && Truthy(s.inventory.rows[id].itemName)) ==> r.value[i] == "Unknown")
  {
    if bid == 0 then Failure(BadRequest)
    else if bid !in s.lists then Failure(NotFound)
    else
      var ids := s.lists[bid].itemIds;
      Success(seq(|ids|, i requires 0 <= i < |ids| => ItemName(s, ids[i])))
  }

  // ---------------------------------------------------------------- PUT /

  /**
   * PUT `/`: append the given arrays to the list (creating it when absent),
   * without de-duplication and without comparing their lengths. A missing
   * array fails the request (spreading `undefined`, or a null into a
   * not-null column).
   */
  function AppendToList(s: Store, bid: BusinessId, itemIds: Option<seq<int>>, quantities: Option<seq<int>>)
    : (r: Response)
    ensures bid == 0 ==> r == Response(s, BadRequest)
    ensures bid != 0 && (itemIds.None? || quantities.None?) ==> r == Response(s, ServerError)
    ensures bid != 0 && itemIds.Some? && quantities.Some? ==>
      && r.status == OK
      && OnlyListChanged(s, r.store, bid)
      && var l, l2 := ListOf(s, bid), ListOf(r.store, bid);
      && |l2.itemIds| == |l.itemIds| + |itemIds.value|
      && |l2.quantities| == |l.quantities| + |quantities.value|
      && l2.itemIds[..|l.itemIds|] == l.itemIds
      && l2.itemIds[|l.itemIds|..] == itemIds.value
      && l2.quantities[..|l.quantities|] == l.quantities
      && l2.quantities[|l.quantities|..] == quantities.value
      && l2.notes == l.notes
      && (l.Aligned() ==> (l2.Aligned() <==> |itemIds.value| == |quantities.value|))
  {
    if bid == 0 then Response(s, BadRequest)
    else if itemIds.None? || quantities.None? then Response(s, ServerError)
    else
      var l := ListOf(s, bid);
      var l2 := l.(itemIds := l.itemIds + itemIds.value, quantities := l.quantities + quantities.value);
      Response(s.(lists := s.lists[bid := l2]), OK)
  }

  /** Ids appended by PUT `/` are named after the names already listed, in the order given. */
  lemma AppendExtendsNames(s: Store, bid: BusinessId, itemIds: seq<int>, quantities: seq<int>)
    requires bid != 0
    ensures var before := if bid in s.lists then ListNames(s, bid).value else [];
      ListNames(AppendToList(s, bid, Some(itemIds), Some(quantities)).store, bid)
      == Success(before + seq(|itemIds|, i requires 0 <= i < |itemIds| => ItemName(s, itemIds[i])))
  {
    var s2 := AppendToList(s, bid, Some(itemIds), Some(quantities)).store;
    var l, l2 := ListOf(s, bid), ListOf(s2, bid);
    var before := if bid in s.lists then ListNames(s, bid).value else [];
    var added := seq(|itemIds|, i requires 0 <= i < |itemIds| => ItemName(s, itemIds[i]));
    var names := ListNames(s2, bid).value;
    assert s2.inventory == s.inventory;
    assert l2.itemIds == l.itemIds + itemIds;
    assert |before| == |l.itemIds|;
    forall i | 0 <= i < |names| ensures names[i] == (before + added)[i] {
      assert names[i] == ItemName(s, l2.itemIds[i]);
      if i < |before| {
        assert before[i] == ItemName(s, l.itemIds[i]);
      }
    }
    assert |names| == |before + added|;
    assert names == before + added;
  }

  // ---------------------------------------------------------------- PUT /clear

  /** PUT `/clear`: empty the item ids and quantities of an existing list; notes stay. */
  function ClearList(s: Store, bid: BusinessId): (r: Response)
    ensures bid == 0 ==> r == Response(s, BadRequest)
    ensures bid != 0 && bid !in s.lists ==> r == Response(s, NotFound)
    ensures bid != 0 && bid in s.lists ==>
      && r.status == OK
      && OnlyListChanged(s, r.store, bid)
      && r.store.lists[bid].itemIds == []
      && r.store.lists[bid].quantities == []
      && r.store.lists[bid].notes == s.lists[bid].notes
  {
    if bid == 0 then Response(s, BadRequest)
    else if bid !in s.lists then Response(s, NotFound)
    else Response(s.(lists := s.lists[bid := s.lists[bid].(itemIds := [], quantities := [])]), OK)
  }

  /** Clearing twice leaves the same store as clearing once. */
  lemma ClearIdempotent(s: Store, bid: BusinessId)
    ensures ClearList(ClearList(s, bid).store, bid).store == ClearList(s, bid).store
  {
  }

  /** Lines appended by PUT `/` are discarded by a later clear of an existing list. */
  lemma ClearDiscardsAppended(s: Store, bid: BusinessId, itemIds: seq<int>, quantities: seq<int>)
    requires bid in s.lists
    ensures ClearList(AppendToList(s, bid, Some(itemIds), Some(quantities)).store, bid)
         == ClearList(s, bid)
  {
  }

  // ---------------------------------------------------------------- POST /:id/shopping-list

  /**
   * `l2` is `l` with `q` added to line `k`, the first line for `id`; the note
   * of that line is set to `note` only when it was empty, and nothing else moves.
   */
  ghost predicate MergedAt(l: ShoppingList, l2: ShoppingList, id: int, q: int, note: Note, k: int)
  {
    && l.Aligned()
    && IsFirst(l.itemIds, id, k)
    && l2.itemIds == l.itemIds
    && |l2.quantities| == |l.quantities|
    && l2.quantities[k] == l.quantities[k] + q
    && (forall j :: 0 <= j < |l.quantities| && j != k ==> l2.quantities[j] == l.quantities[j])
    && NoteAt(l2.notes, k) == (if Truthy(NoteAt(l.notes, k)) then NoteAt(l.notes, k) else note)
    && (forall j: nat :: j != k ==> NoteAt(l2.notes, j) == NoteAt(l.notes, j))
    && |l2.notes| == (if k < |l.notes| then |l.notes| else k + 1)
  }

  /** `l2` is `l` with one more line `(id, q, note)` at the end of each array. */
  ghost predicate AppendedLine(l: ShoppingList, l2: ShoppingList, id: int, q: int, note: Note)
  {
    && |l2.itemIds| == |l.itemIds| + 1
    && |l2.quantities| == |l.quantities| + 1
    && |l2.notes| == |l.notes| + 1
    && (forall j :: 0 <= j < |l.itemIds| ==> l2.itemIds[j] == l.itemIds[j])
    && (forall j :: 0 <= j < |l.quantities| ==> l2.quantities[j] == l.quantities[j])
    && (forall j :: 0 <= j < |l.notes| ==> l2.notes[j] == l.notes[j])
    && l2.itemIds[|l.itemIds|] == id
    && l2.quantities[|l.quantities|] == q
    && l2.notes[|l.notes|] == note
  }

  /**
   * POST `/:id/shopping-list`: add `quantity` of inventory item `id` with a
   * note. The item must be an inventory row of the caller's business; a
   * missing list is first created empty.
   */
  function AddToList(s: Store, bid: BusinessId, id: int, quantity: int, note: Note): (r: Response)
    requires ListOf(s, bid).Aligned()
    ensures bid == 0 ==> r == Response(s, BadRequest)
    ensures bid != 0 && !OwnsInventory(s, bid, id) ==> r == Response(s, NotFound)
    ensures bid != 0 && OwnsInventory(s, bid, id) ==>
      && r.status == OK
      && OnlyListChanged(s, r.store, bid)
      && var l, l2 := ListOf(s, bid), ListOf(r.store, bid);
      && l2.Aligned()
      && id in l2.itemIds
      && (id in l.itemIds ==> forall k :: IsFirst(l.itemIds, id, k) ==> MergedAt(l, l2, id, quantity, note, k))
      && (id !in l.itemIds ==> AppendedLine(l, l2, id, quantity, note))
  {
    if bid == 0 then Response(s, BadRequest)
    else if !OwnsInventory(s, bid, id) then Response(s, NotFound)
    else
      var l := ListOf(s, bid);
      var l2 := match FindFirst(l.itemIds, id)
        case Some(k) =>
          ShoppingList(
            l.itemIds,
            l.quantities[k := l.quantities[k] + quantity],
            if Truthy(NoteAt(l.notes, k)) then l.notes else SetNote(l.notes, k, note))
        case None =>
          ShoppingList(l.itemIds + [id], l.quantities + [quantity], l.notes + [note]);
      assert l2.Aligned();
      Response(s.(lists := s.lists[bid := l2]), OK)
  }

  /** Unlike PUT `/`, adding never puts an id on the list twice. */
  lemma AddKeepsDistinct(s: Store, bid: BusinessId, id: int, quantity: int, note: Note)
    requires ListOf(s, bid).Aligned() && Distinct(ListOf(s, bid).itemIds)
    ensures Distinct(ListOf(AddToList(s, bid, id, quantity, note).store, bid).itemIds)
  {
  }

  // ---------------------------------------------------------------- DELETE /:itemId

  /**
   * `l2` is `l` after taking `q` off line `k`: the line stays with the rest
   * when something is left, and is spliced out of the item ids and quantities
   * otherwise. Notes are never touched.
   */
  ghost predicate DecrementedAt(l: ShoppingList, l2: ShoppingList, k: int, q: int)
  {
    && l.Aligned()
    && 0 <= k < |l.itemIds|
    && l2.notes == l.notes
    && (l.quantities[k] - q > 0 ==>
          && l2.itemIds == l.itemIds
          && |l2.quantities| == |l.quantities|
          && l2.quantities[k] == l.quantities[k] - q
          && forall j :: 0 <= j < |l.quantities| && j != k ==> l2.quantities[j] == l.quantities[j])
    && (l.quantities[k] - q <= 0 ==>
          && |l2.itemIds| == |l.itemIds| - 1
          && |l2.quantities| == |l.quantities| - 1
          && (forall j :: 0 <= j < k ==> l2.itemIds[j] == l.itemIds[j] && l2.quantities[j] == l.quantities[j])
          && (forall j :: k <= j < |l2.itemIds| ==>
                l2.itemIds[j] == l.itemIds[j + 1] && l2.quantities[j] == l.quantities[j + 1]))
  }

  /**
   * DELETE `/:itemId`: take `quantity` off the first line for `itemId`,
   * removing the line when nothing is left.
   */
  function RemoveFromList(s: Store, bid: BusinessId, itemId: int, quantity: Option<int>): (r: Response)
    requires ListOf(s, bid).Aligned()
    ensures bid == 0 || quantity.None? || quantity.value <= 0 ==> r == Response(s, BadRequest)
    ensures bid != 0 && quantity.Some? && quantity.value > 0 ==>
      if bid !in s.lists || itemId !in s.lists[bid].itemIds then r == Response(s, NotFound)
      else
        && r.status == OK
        && OnlyListChanged(s, r.store, bid)
        && r.store.lists[bid].Aligned()
        && forall k :: IsFirst(s.lists[bid].itemIds, itemId, k) ==>
             DecrementedAt(s.lists[bid], r.store.lists[bid], k, quantity.value)
  {
    if bid == 0 then Response(s, BadRequest)
    else if quantity.None? || quantity.value <= 0 then Response(s, BadRequest)
    else if bid !in s.lists then Response(s, NotFound)
    else
      var l := s.lists[bid];
      match FindFirst(l.itemIds, itemId)
      case None => Response(s, NotFound)
      case Some(k) =>
        var left := l.quantities[k] - quantity.value;
        var l2 :=
          if left <= 0 then ShoppingList(RemoveAt(l.itemIds, k), RemoveAt(l.quantities, k), l.notes)
          else l.(quantities := l.quantities[k := left]);
        Response(s.(lists := s.lists[bid := l2]), OK)
  }

  /** Removing keeps the item ids free of duplicates. */
  lemma RemoveKeepsDistinct(s: Store, bid: BusinessId, itemId: int, quantity: Option<int>)
    requires ListOf(s, bid).Aligned() && Distinct(ListOf(s, bid).itemIds)
    ensures Distinct(ListOf(RemoveFromList(s, bid, itemId, quantity).store, bid).itemIds)
  {
  }

  /**
   * Adding a new item and then removing the same positive quantity restores
   * the item ids and quantities; the pushed note stays behind, because
   * removal never touches notes.
   */
  lemma AddNewThenRemove(s: Store, bid: BusinessId, id: int, q: int, note: Note)
    requires bid != 0 && OwnsInventory(s, bid, id) && q > 0
    requires ListOf(s, bid).Aligned() && id !in ListOf(s, bid).itemIds
    ensures var s1 := AddToList(s, bid, id, q, note).store;
            var s2 := RemoveFromList(s1, bid, id, Some(q)).store;
            && ListOf(s2, bid).itemIds == ListOf(s, bid).itemIds
            && ListOf(s2, bid).quantities == ListOf(s, bid).quantities
            && ListOf(s2, bid).notes == ListOf(s, bid).notes + [note]
  {
    var l := ListOf(s, bid);
    var s1 := AddToList(s, bid, id, q, note).store;
    var l1 := ListOf(s1, bid);
    var n := |l.itemIds|;
    assert IsFirst(l1.itemIds, id, n);
    var l2 := ListOf(RemoveFromList(s1, bid, id, Some(q)).store, bid);
    assert DecrementedAt(l1, l2, n, q);
    assert l2.itemIds == l.itemIds;
    assert l2.quantities == l.quantities;
  }

  /**
   * Adding `q` to a line that already holds a positive quantity and then
   * removing `q` again restores the item ids and quantities.
   */
  lemma AddExistingThenRemove(s: Store, bid: BusinessId, id: int, q: int, note: Note, k: nat)
    requires bid != 0 && OwnsInventory(s, bid, id) && q > 0
    requires ListOf(s, bid).Aligned() && IsFirst(ListOf(s, bid).itemIds, id, k)
    requires ListOf(s, bid).quantities[k] > 0
    ensures var s1 := AddToList(s, bid, id, q, note).store;
            var s2 := RemoveFromList(s1, bid, id, Some(q)).store;
            && ListOf(s2, bid).itemIds == ListOf(s, bid).itemIds
            && ListOf(s2, bid).quantities == ListOf(s, bid).quantities
  {
    var l := ListOf(s, bid);
    var s1 := AddToList(s, bid, id, q, note).store;
    var l1 := ListOf(s1, bid);
    assert MergedAt(l, l1, id, q, note, k);
    assert IsFirst(l1.itemIds, id, k);
    var l2 := ListOf(RemoveFromList(s1, bid, id, Some(q)).store, bid);
    assert DecrementedAt(l1, l2, k, q);
    assert l2.quantities == l.quantities;
  }
}
