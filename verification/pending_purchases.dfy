/**
 * The pending-purchase lifecycle (endpoints/pending-purchases/pending-purchases.js):
 * create, complete, fold the shortfall between ordered and confirmed
 * quantities back into the shopping list, and restock inventory.
 */
module PendingPurchases {
  import opened Common
  import opened Store

  // ---------------------------------------------------------------- POST /

  /** The new purchase row a valid create request inserts. */
  function NewPurchase(bid: BusinessId, itemIds: seq<int>, quantities: seq<int>, totalPrice: Option<Money>)
    : PendingPurchase
  {
    PendingPurchase(bid, itemIds, quantities, Pending, totalPrice)
  }

  /**
   * POST `/`: record a purchase of `itemIds[i]` x `quantities[i]`. Both arrays
   * must be present and of equal length.
   */
  function CreatePurchase(s: Store, bid: BusinessId, itemIds: Option<seq<int>>, quantities: Option<seq<int>>,
                          totalPrice: Option<Money>): (r: Response)
    ensures r.status == Created <==>
      bid != 0 && itemIds.Some? && quantities.Some? && |itemIds.value| == |quantities.value|
    ensures r.status != Created ==> r == Response(s, BadRequest)
    ensures r.status == Created ==>
      && r.store == s.(purchases := r.store.purchases)
      && r.store.purchases.rows
         == s.purchases.rows[s.purchases.next := NewPurchase(bid, itemIds.value, quantities.value, totalPrice)]
      && (s.purchases.Valid() ==> r.store.purchases.Valid() && s.purchases.next !in s.purchases.rows)
  {
    if bid == 0 then Response(s, BadRequest)
    else if itemIds.None? || quantities.None? || |itemIds.value| != |quantities.value| then Response(s, BadRequest)
    else
      var p := NewPurchase(bid, itemIds.value, quantities.value, totalPrice);
      Response(s.(purchases := s.purchases.Insert(p)), Created)
  }

  // ---------------------------------------------------------------- PUT /:id/complete

  /** PUT `/:id/complete`: mark an owned purchase completed and replace its total price. */
  function CompletePurchase(s: Store, bid: BusinessId, id: int, totalPrice: Option<Money>): (r: Response)
    ensures bid == 0 ==> r == Response(s, BadRequest)
    ensures bid != 0 && !OwnsPurchase(s, bid, id) ==> r == Response(s, NotFound)
    ensures bid != 0 && OwnsPurchase(s, bid, id) ==>
      && r.status == OK
      && r.store == s.(purchases := r.store.purchases)
      && r.store.purchases.next == s.purchases.next
      && r.store.purchases.rows.Keys == s.purchases.rows.Keys
      && (forall k :: k in s.purchases.rows && k != id ==> r.store.purchases.rows[k] == s.purchases.rows[k])
      && var p, p2 := s.purchases.rows[id], r.store.purchases.rows[id];
      && p2.status == Completed
      && p2.totalPrice == totalPrice
      && p2.businessId == p.businessId && p2.itemIds == p.itemIds && p2.quantities == p.quantities
  {
    if bid == 0 then Response(s, BadRequest)
    else if !OwnsPurchase(s, bid, id) then Response(s, NotFound)
    else
      var p := s.purchases.rows[id];
      var p2 := p.(status := Completed, totalPrice := totalPrice);
      Response(s.(purchases := s.purchases.(rows := s.purchases.rows[id := p2])), OK)
  }

  /** Completing twice with the same price is the same as completing once. */
  lemma CompleteIdempotent(s: Store, bid: BusinessId, id: int, totalPrice: Option<Money>)
    ensures var s1 := CompletePurchase(s, bid, id, totalPrice).store;
            CompletePurchase(s1, bid, id, totalPrice).store == s1
  {
  }

  // ---------------------------------------------------------------- POST /:id/diff-to-shopping-list

  /** Position `i` has a positive shortfall (a position past the quantities reads NaN). */
  predicate Short(itemIds: seq<int>, initial: seq<int>, confirmed: seq<int>, i: int)
    requires |initial| == |confirmed|
  {
    0 <= i < |itemIds| && i < |initial| && initial[i] - confirmed[i] > 0
  }

  /**
   * The diff loop: walk `itemIds` by position and keep `initial[i] -
   * confirmed[i]` when it is positive.
   */
  function DiffLines(itemIds: seq<int>, initial: seq<int>, confirmed: seq<int>): (out: seq<Line>)
    requires |initial| == |confirmed|
    ensures |out| <= |itemIds|
    ensures forall j :: 0 <= j < |out| ==> out[j].quantity > 0
  {
    if |itemIds| == 0 then []
    else
      var n := |itemIds| - 1;
      DiffLines(itemIds[..n], initial, confirmed)
      + (if Short(itemIds, initial, confirmed, n) then [Line(itemIds[n], initial[n] - confirmed[n])] else [])
  }

  /**
   * The diff holds exactly the positions with a positive shortfall, in their
   * original order, each with its shortfall: `ix` lists those positions.
   */
  lemma {:induction false} DiffLinesExact(itemIds: seq<int>, initial: seq<int>, confirmed: seq<int>)
    returns (ix: seq<nat>)
    requires |initial| == |confirmed|
    ensures |ix| == |DiffLines(itemIds, initial, confirmed)|
    ensures forall a, b :: 0 <= a < b < |ix| ==> ix[a] < ix[b]
    ensures forall a :: 0 <= a < |ix| ==>
      && Short(itemIds, initial, confirmed, ix[a])
      && DiffLines(itemIds, initial, confirmed)[a]
         == Line(itemIds[ix[a]], initial[ix[a]] - confirmed[ix[a]])
    ensures forall i :: Short(itemIds, initial, confirmed, i) ==> i in ix
  {
    if |itemIds| == 0 {
      ix := [];
    } else {
      var n := |itemIds| - 1;
      var pre := itemIds[..n];
      var ix0 := DiffLinesExact(pre, initial, confirmed);
      assert forall i :: Short(pre, initial, confirmed, i) <==> Short(itemIds, initial, confirmed, i) && i < n;
      if Short(itemIds, initial, confirmed, n) {
        ix := ix0 + [n];
      } else {
        ix := ix0;
      }
      forall i | Short(itemIds, initial, confirmed, i) ensures i in ix {
        if i < n {
          assert Short(pre, initial, confirmed, i);
        }
      }
    }
  }

  /** When the confirmed quantities equal the ordered ones there is no shortfall. */
  lemma {:induction false} NoDiffWhenConfirmedAsOrdered(itemIds: seq<int>, qs: seq<int>)
    ensures DiffLines(itemIds, qs, qs) == []
  {
    if |itemIds| > 0 {
      NoDiffWhenConfirmedAsOrdered(itemIds[..|itemIds| - 1], qs);
    }
  }

  /** One step of the merge loop: add to the first line for the id, or append. */
  function MergeLine(l: ShoppingList, ln: Line): (l2: ShoppingList)
    requires l.Aligned()
    ensures l2.Aligned() && l2.notes == l.notes
    ensures l2.itemIds == if ln.itemId in l.itemIds then l.itemIds else l.itemIds + [ln.itemId]
    ensures forall i :: 0 <= i < |l.itemIds| ==>
      l2.quantities[i] == l.quantities[i] + (if IsFirst(l.itemIds, ln.itemId, i) then ln.quantity else 0)
    ensures ln.itemId !in l.itemIds ==> l2.quantities[|l.itemIds|] == ln.quantity
  {
    match FindFirst(l.itemIds, ln.itemId)
    case Some(k) => l.(quantities := l.quantities[k := l.quantities[k] + ln.quantity])
    case None => l.(itemIds := l.itemIds + [ln.itemId], quantities := l.quantities + [ln.quantity])
  }

  /** The merge loop over the diff lines, in order. */
  function MergeLines(l: ShoppingList, lines: seq<Line>): (l2: ShoppingList)
    requires l.Aligned()
    ensures l2.Aligned() && l2.notes == l.notes
    ensures |l2.itemIds| >= |l.itemIds| && l2.itemIds[..|l.itemIds|] == l.itemIds
  {
    if |lines| == 0 then l
    else MergeLine(MergeLines(l, lines[..|lines| - 1]), lines[|lines| - 1])
  }

  /** One merge step adds the line's quantity to its id's total and to no other. */
  lemma MergeLineConserves(m: ShoppingList, ln: Line, x: int)
    requires m.Aligned()
    ensures var l2 := MergeLine(m, ln);
      QtyOf(l2.itemIds, l2.quantities, x)
      == QtyOf(m.itemIds, m.quantities, x) + (if ln.itemId == x then ln.quantity else 0)
  {
    match FindFirst(m.itemIds, ln.itemId)
    case Some(k) => QtyOfBump(m.itemIds, m.quantities, k, ln.quantity, x);
    case None => QtyOfAppend(m.itemIds, m.quantities, ln.itemId, ln.quantity, x);
  }

  /** The totals of a batch of lines split off its last line. */
  lemma LinesQtyLast(lines: seq<Line>, x: int)
    requires |lines| > 0
    ensures var n := |lines| - 1;
      QtyOf(LineIds(lines), LineQuantities(lines), x)
      == QtyOf(LineIds(lines[..n]), LineQuantities(lines[..n]), x)
         + (if lines[n].itemId == x then lines[n].quantity else 0)
  {
    var n := |lines| - 1;
    assert LineIds(lines)[..n] == LineIds(lines[..n]);
    assert LineQuantities(lines)[..n] == LineQuantities(lines[..n]);
  }

  /**
   * Merging conserves quantity per item: every id's total on the list grows
   * by exactly the diff quantities for that id, and by nothing else.
   */
  lemma {:induction false} MergeConserves(l: ShoppingList, lines: seq<Line>, x: int)
    requires l.Aligned()
    ensures var l2 := MergeLines(l, lines);
      QtyOf(l2.itemIds, l2.quantities, x)
      == QtyOf(l.itemIds, l.quantities, x) + QtyOf(LineIds(lines), LineQuantities(lines), x)
  {
    if |lines| > 0 {
      var n := |lines| - 1;
      MergeConserves(l, lines[..n], x);
      LinesQtyLast(lines, x);
      MergeLineConserves(MergeLines(l, lines[..n]), lines[n], x);
    }
  }

  /** Every id of the diff is on the merged list. */
  lemma {:induction false} MergeHasDiffIds(l: ShoppingList, lines: seq<Line>)
    requires l.Aligned()
    ensures forall k :: 0 <= k < |lines| ==> lines[k].itemId in MergeLines(l, lines).itemIds
  {
    if |lines| > 0 {
      var n := |lines| - 1;
      var pre := lines[..n];
      var ln := lines[n];
      MergeHasDiffIds(l, pre);
      var m := MergeLines(l, pre);
      var l2 := MergeLine(m, ln);
      assert MergeLines(l, lines) == l2;
      forall k | 0 <= k < |lines| ensures lines[k].itemId in l2.itemIds {
        if k < n {
          assert lines[k] == pre[k];
          var i :| 0 <= i < |m.itemIds| && m.itemIds[i] == pre[k].itemId;
          assert l2.itemIds[i] == m.itemIds[i];
        } else if ln.itemId !in m.itemIds {
          assert l2.itemIds[|m.itemIds|] == ln.itemId;
        }
      }
    }
  }

  /** Only the first line of an id in the diff changes quantity. */
  lemma {:induction false} MergeKeepsQuantities(l: ShoppingList, lines: seq<Line>)
    requires l.Aligned()
    ensures forall i :: 0 <= i < |l.itemIds| && (l.itemIds[i] !in LineIds(lines) || !IsFirst(l.itemIds, l.itemIds[i], i)) ==>
      MergeLines(l, lines).quantities[i] == l.quantities[i]
  {
    if |lines| > 0 {
      var n := |lines| - 1;
      var pre := lines[..n];
      MergeKeepsQuantities(l, pre);
      var m := MergeLines(l, pre);
      var ln := lines[n];
      var l2 := MergeLine(m, ln);
      assert MergeLines(l, lines) == l2;
      assert LineIds(lines) == LineIds(pre) + [ln.itemId];
      forall i | 0 <= i < |l.itemIds| && (l.itemIds[i] !in LineIds(lines) || !IsFirst(l.itemIds, l.itemIds[i], i))
        ensures l2.quantities[i] == l.quantities[i]
      {
        assert m.itemIds[i] == m.itemIds[..|l.itemIds|][i] == l.itemIds[i];
        assert l.itemIds[i] !in LineIds(pre) || !IsFirst(l.itemIds, l.itemIds[i], i);
      }
    }
  }

  /**
   * Merging keeps every existing line where it was, and changes the quantity
   * of a line only when it is the first line for an id in the diff; ids not
   * yet on the list are appended.
   */
  lemma MergeKeepsOthers(l: ShoppingList, lines: seq<Line>)
    requires l.Aligned()
    ensures var l2 := MergeLines(l, lines);
      && |l2.itemIds| >= |l.itemIds|
      && l2.itemIds[..|l.itemIds|] == l.itemIds
      && (forall i :: 0 <= i < |l.itemIds| && (l.itemIds[i] !in LineIds(lines) || !IsFirst(l.itemIds, l.itemIds[i], i))
            ==> l2.quantities[i] == l.quantities[i])
      && (forall j :: 0 <= j < |lines| ==> lines[j].itemId in l2.itemIds)
  {
    MergeKeepsQuantities(l, lines);
    MergeHasDiffIds(l, lines);
  }

  /** The diff total of `x`: the sum of the quantities of the lines for `x`. */
  function DiffQty(lines: seq<Line>, x: int): int {
    QtyOf(LineIds(lines), LineQuantities(lines), x)
  }

  /**
   * `ids2` extends `ids` by a tail of distinct ids, none of them in `ids`,
   * all of them in `from`.
   */
  predicate FreshTail(ids: seq<int>, ids2: seq<int>, from: seq<int>) {
    && |ids2| >= |ids|
    && (forall j :: |ids| <= j < |ids2| ==> ids2[j] !in ids && ids2[j] in from)
    && (forall i, j :: |ids| <= i < j < |ids2| ==> ids2[i] != ids2[j])
  }

  /** Appending an id only when it is missing keeps the tail fresh. */
  lemma FreshTailStep(ids: seq<int>, m: seq<int>, from: seq<int>, x: int)
    requires |m| >= |ids| && m[..|ids|] == ids && FreshTail(ids, m, from)
    ensures FreshTail(ids, if x in m then m else m + [x], from + [x])
  {
    var m2 := if x in m then m else m + [x];
    forall j | |ids| <= j < |m2| ensures m2[j] !in ids && m2[j] in from + [x] {
      if j < |m| {
        assert m2[j] == m[j];
      } else {
        forall i | 0 <= i < |ids| ensures ids[i] != x {
          assert m[..|ids|][i] == ids[i];
        }
      }
    }
  }

  /**
   * The merge appends every id not yet on the list exactly once: the tail
   * after the old lines holds distinct ids from the diff, none of them on
   * the old list.
   */
  lemma {:induction false} MergeAppendsOnce(l: ShoppingList, lines: seq<Line>)
    requires l.Aligned()
    ensures FreshTail(l.itemIds, MergeLines(l, lines).itemIds, LineIds(lines))
  {
    if |lines| > 0 {
      var n := |lines| - 1;
      var pre := lines[..n];
      var ln := lines[n];
      MergeAppendsOnce(l, pre);
      var m := MergeLines(l, pre);
      AppendsOnceStep(l.itemIds, m, LineIds(pre), ln);
      assert MergeLines(l, lines) == MergeLine(m, ln);
      assert LineIds(lines) == LineIds(pre) + [ln.itemId];
    }
  }

  /** One line of the merge keeps the appended tail fresh. */
  lemma AppendsOnceStep(ids: seq<int>, m: ShoppingList, from: seq<int>, ln: Line)
    requires m.Aligned() && |m.itemIds| >= |ids| && m.itemIds[..|ids|] == ids
    requires FreshTail(ids, m.itemIds, from)
    ensures FreshTail(ids, MergeLine(m, ln).itemIds, from + [ln.itemId])
  {
    assert MergeLine(m, ln).itemIds == if ln.itemId in m.itemIds then m.itemIds else m.itemIds + [ln.itemId];
    FreshTailStep(ids, m.itemIds, from, ln.itemId);
  }

  /** The first line of an id already on the list gains exactly that id's diff total. */
  lemma {:induction false} MergeAddsToFirst(l: ShoppingList, lines: seq<Line>)
    requires l.Aligned()
    ensures var l2 := MergeLines(l, lines);
      forall i :: 0 <= i < |l.itemIds| && IsFirst(l.itemIds, l.itemIds[i], i) ==>
        l2.quantities[i] == l.quantities[i] + DiffQty(lines, l.itemIds[i])
  {
    if |lines| > 0 {
      var n := |lines| - 1;
      var pre := lines[..n];
      var ln := lines[n];
      MergeAddsToFirst(l, pre);
      var m := MergeLines(l, pre);
      var L := |l.itemIds|;
      forall i | 0 <= i < L && IsFirst(l.itemIds, l.itemIds[i], i)
        ensures MergeLine(m, ln).quantities[i] == l.quantities[i] + DiffQty(lines, l.itemIds[i])
      {
        LinesQtyLast(lines, l.itemIds[i]);
        forall j | 0 <= j <= i ensures m.itemIds[j] == l.itemIds[j] {
          assert m.itemIds[..L][j] == l.itemIds[j];
        }
        assert IsFirst(m.itemIds, ln.itemId, i) <==> l.itemIds[i] == ln.itemId;
      }
    }
  }

  /** One appended position after one more merge step, on a list whose fresh tail holds the totals so far. */
  lemma TailTotalStep(ids: seq<int>, m: ShoppingList, pre: seq<Line>, ln: Line, j: int)
    requires m.Aligned() && |m.itemIds| >= |ids| && m.itemIds[..|ids|] == ids
    requires FreshTail(ids, m.itemIds, LineIds(pre))
    requires forall k :: 0 <= k < |pre| ==> pre[k].itemId in m.itemIds
    requires forall j :: |ids| <= j < |m.itemIds| ==> m.quantities[j] == DiffQty(pre, m.itemIds[j])
    requires |ids| <= j < |MergeLine(m, ln).itemIds|
    ensures MergeLine(m, ln).quantities[j] == DiffQty(pre + [ln], MergeLine(m, ln).itemIds[j])
  {
    var lines := pre + [ln];
    var m2 := MergeLine(m, ln);
    var L := |ids|;
    assert lines[..|pre|] == pre;
    LinesQtyLast(lines, m2.itemIds[j]);
    if j < |m.itemIds| {
      assert m2.itemIds[j] == m.itemIds[j];
      if m.itemIds[j] == ln.itemId {
        forall j' | 0 <= j' < j ensures m.itemIds[j'] != ln.itemId {
          if j' < L {
            assert m.itemIds[j'] == m.itemIds[..L][j'];
          }
        }
        assert IsFirst(m.itemIds, ln.itemId, j);
      }
    } else {
      assert ln.itemId !in m.itemIds;
      forall k | 0 <= k < |pre| ensures LineIds(pre)[k] != ln.itemId {
        assert pre[k].itemId in m.itemIds;
      }
      QtyOfAbsent(LineIds(pre), LineQuantities(pre), ln.itemId);
    }
  }

  /** One more merge step keeps every appended line at its diff total. */
  lemma AppendedTotalsStep(ids: seq<int>, m: ShoppingList, pre: seq<Line>, ln: Line)
    requires m.Aligned() && |m.itemIds| >= |ids| && m.itemIds[..|ids|] == ids
    requires FreshTail(ids, m.itemIds, LineIds(pre))
    requires forall k :: 0 <= k < |pre| ==> pre[k].itemId in m.itemIds
    requires forall j :: |ids| <= j < |m.itemIds| ==> m.quantities[j] == DiffQty(pre, m.itemIds[j])
    ensures forall j :: |ids| <= j < |MergeLine(m, ln).itemIds| ==>
      MergeLine(m, ln).quantities[j] == DiffQty(pre + [ln], MergeLine(m, ln).itemIds[j])
  {
    forall j | |ids| <= j < |MergeLine(m, ln).itemIds|
      ensures MergeLine(m, ln).quantities[j] == DiffQty(pre + [ln], MergeLine(m, ln).itemIds[j])
    {
      TailTotalStep(ids, m, pre, ln, j);
    }
  }

  /** Each appended line holds its id's diff total. */
  lemma {:induction false} MergeAppendedTotals(l: ShoppingList, lines: seq<Line>)
    requires l.Aligned()
    ensures forall j :: |l.itemIds| <= j < |MergeLines(l, lines).itemIds| ==>
      MergeLines(l, lines).quantities[j] == DiffQty(lines, MergeLines(l, lines).itemIds[j])
  {
    if |lines| > 0 {
      var n := |lines| - 1;
      var pre := lines[..n];
      var ln := lines[n];
      MergeAppendedTotals(l, pre);
      MergeAppendsOnce(l, pre);
      MergeHasDiffIds(l, pre);
      AppendedTotalsStep(l.itemIds, MergeLines(l, pre), pre, ln);
      assert pre + [ln] == lines;
    }
  }

  /** The rank of `x` in `from`: its first position, or `|from|` when it is absent. */
  function Rank(from: seq<int>, x: int): nat {
    FindFirst(from, x).GetOr(|from|)
  }

  /** The ids of `ids2` after the first `|ids|` come in the order of their first occurrence in `from`. */
  predicate AppendedInOrder(ids: seq<int>, ids2: seq<int>, from: seq<int>) {
    forall i, j :: |ids| <= i < j < |ids2| ==> Rank(from, ids2[i]) < Rank(from, ids2[j])
  }

  /** Appending to `from` keeps the rank of every id already in it, and ranks a new id last. */
  lemma RankAppend(from: seq<int>, x: int, y: int)
    ensures y in from ==> Rank(from + [x], y) == Rank(from, y) < |from|
    ensures y !in from && y == x ==> Rank(from + [x], y) == |from|
  {
    var f2 := from + [x];
    if y in from {
      var k := FindFirst(from, y).value;
      var k2 := FindFirst(f2, y).value;
      assert f2[k] == y;
      assert k2 <= k;
      assert from[k2] == y;
    } else if y == x {
      assert f2[|from|] == y;
    }
  }

  /** Appending an id only when it is missing keeps the tail in first-occurrence order. */
  lemma AppendedInOrderStep(ids: seq<int>, m: seq<int>, from: seq<int>, x: int)
    requires FreshTail(ids, m, from) && AppendedInOrder(ids, m, from)
    requires forall k :: 0 <= k < |from| ==> from[k] in m
    ensures AppendedInOrder(ids, if x in m then m else m + [x], from + [x])
  {
    var m2 := if x in m then m else m + [x];
    forall i, j | |ids| <= i < j < |m2| ensures Rank(from + [x], m2[i]) < Rank(from + [x], m2[j]) {
      assert m2[i] == m[i] && m[i] in from;
      RankAppend(from, x, m2[i]);
      RankAppend(from, x, m2[j]);
      if j < |m| {
        assert m2[j] == m[j];
      }
    }
  }

  /**
   * The merge appends new ids in the order of their first lines in the
   * diff, as the loop pushes them.
   */
  lemma {:induction false} MergeAppendsInOrder(l: ShoppingList, lines: seq<Line>)
    requires l.Aligned()
    ensures AppendedInOrder(l.itemIds, MergeLines(l, lines).itemIds, LineIds(lines))
  {
    if |lines| > 0 {
      var n := |lines| - 1;
      var pre := lines[..n];
      var ln := lines[n];
      MergeAppendsInOrder(l, pre);
      MergeAppendsOnce(l, pre);
      MergeHasDiffIds(l, pre);
      var m := MergeLines(l, pre);
      InOrderStep(l.itemIds, m, pre, ln);
      assert MergeLines(l, lines) == MergeLine(m, ln);
      assert LineIds(lines) == LineIds(pre) + [ln.itemId];
    }
  }

  /** One line of the merge keeps the appended tail in first-occurrence order. */
  lemma InOrderStep(ids: seq<int>, m: ShoppingList, pre: seq<Line>, ln: Line)
    requires m.Aligned()
    requires FreshTail(ids, m.itemIds, LineIds(pre)) && AppendedInOrder(ids, m.itemIds, LineIds(pre))
    requires forall k :: 0 <= k < |pre| ==> pre[k].itemId in m.itemIds
    ensures AppendedInOrder(ids, MergeLine(m, ln).itemIds, LineIds(pre) + [ln.itemId])
  {
    assert MergeLine(m, ln).itemIds == if ln.itemId in m.itemIds then m.itemIds else m.itemIds + [ln.itemId];
    AppendedInOrderStep(ids, m.itemIds, LineIds(pre), ln.itemId);
  }

  /** Two new ids are appended in diff order; the reverse order breaks AppendedInOrder. */
  lemma MergeOrderExample()
    ensures MergeLines(ShoppingList([], [], []), [Line(7, 1), Line(8, 1)]).itemIds == [7, 8]
    ensures !AppendedInOrder([], [8, 7], LineIds([Line(7, 1), Line(8, 1)]))
  {
    var lines := [Line(7, 1), Line(8, 1)];
    assert lines[..1] == [Line(7, 1)];
    assert LineIds(lines) == [7, 8];
    var ids: seq<int> := [7, 8];
    assert ids[1..] == [8];
    assert FindFirst(ids, 8) == Some(1) && FindFirst(ids, 7) == Some(0);
    var alt: seq<int> := [8, 7];
    assert Rank(ids, alt[0]) > Rank(ids, alt[1]);
  }

  /**
   * POST `/:id/diff-to-shopping-list`: for a completed purchase, replace its
   * quantities by the confirmed ones and add every positive shortfall to the
   * business's list (merging into existing lines), or create the list from
   * the shortfalls when the business has none.
   */
  function DiffToShoppingList(s: Store, bid: BusinessId, id: int, confirmed: Option<seq<int>>): (r: Response)
    requires ListOf(s, bid).Aligned()
    ensures bid == 0 ==> r == Response(s, BadRequest)
    ensures bid != 0 && !OwnsPurchase(s, bid, id) ==> r == Response(s, NotFound)
    ensures bid != 0 && OwnsPurchase(s, bid, id) && s.purchases.rows[id].status != Completed
            ==> r == Response(s, BadRequest)
    ensures bid != 0 && OwnsPurchase(s, bid, id) && s.purchases.rows[id].status == Completed ==>
      var p := s.purchases.rows[id];
      if confirmed.None? || |p.quantities| != |confirmed.value| then r == Response(s, BadRequest)
      else
        var lines := DiffLines(p.itemIds, p.quantities, confirmed.value);
        && r.status == OK
        && r.store == s.(purchases := r.store.purchases, lists := r.store.lists)
        && r.store.purchases == s.purchases.(rows := s.purchases.rows[id := p.(quantities := confirmed.value)])
        && r.store.lists.Keys == s.lists.Keys + {bid}
        && (forall b :: b in s.lists && b != bid ==> r.store.lists[b] == s.lists[b])
        && r.store.lists[bid]
           == if bid in s.lists then MergeLines(s.lists[bid], lines)
              else ShoppingList(LineIds(lines), LineQuantities(lines), [])
  {
    if bid == 0 then Response(s, BadRequest)
    else if !OwnsPurchase(s, bid, id) then Response(s, NotFound)
    else
      var p := s.purchases.rows[id];
      if p.status != Completed then Response(s, BadRequest)
      else if confirmed.None? || |p.quantities| != |confirmed.value| then Response(s, BadRequest)
      else
        var lines := DiffLines(p.itemIds, p.quantities, confirmed.value);
        var purchases := s.purchases.(rows := s.purchases.rows[id := p.(quantities := confirmed.value)]);
        var l :=
          if bid in s.lists then MergeLines(s.lists[bid], lines)
          else ShoppingList(LineIds(lines), LineQuantities(lines), []);
        Response(s.(purchases := purchases, lists := s.lists[bid := l]), OK)
  }

  /** After completing a purchase, a diff with matching length is accepted. */
  lemma CompleteEnablesDiff(s: Store, bid: BusinessId, id: int, totalPrice: Option<Money>, confirmed: seq<int>)
    requires bid != 0 && OwnsPurchase(s, bid, id)
    requires |confirmed| == |s.purchases.rows[id].quantities|
    requires ListOf(s, bid).Aligned()
    ensures DiffToShoppingList(CompletePurchase(s, bid, id, totalPrice).store, bid, id, Some(confirmed)).status == OK
  {
  }

  /**
   * Replaying the same confirmation adds nothing more: the purchase already
   * holds the confirmed quantities, so the second diff is empty.
   */
  lemma DiffReplayAddsNothing(s: Store, bid: BusinessId, id: int, confirmed: seq<int>)
    requires ListOf(s, bid).Aligned()
    requires DiffToShoppingList(s, bid, id, Some(confirmed)).status == OK
    ensures var s1 := DiffToShoppingList(s, bid, id, Some(confirmed)).store;
            ListOf(s1, bid).Aligned()
            && DiffToShoppingList(s1, bid, id, Some(confirmed)).store == s1
  {
    var s1 := DiffToShoppingList(s, bid, id, Some(confirmed)).store;
    var p1 := s1.purchases.rows[id];
    NoDiffWhenConfirmedAsOrdered(p1.itemIds, confirmed);
    assert s1.purchases.rows[id := p1.(quantities := confirmed)] == s1.purchases.rows;
  }

  // ---------------------------------------------------------------- POST /:id/update-inventory

  /** One iteration of the restock loop: add `q` to an owned row, skip anything else. */
  function RestockOne(inv: Table<InventoryRow>, bid: BusinessId, id: int, q: int): (inv2: Table<InventoryRow>)
    ensures inv2.rows.Keys == inv.rows.Keys && inv2.next == inv.next
    ensures forall k :: k in inv.rows && (k != id || inv.rows[k].businessId != bid) ==> inv2.rows[k] == inv.rows[k]
    ensures id in inv.rows && inv.rows[id].businessId == bid ==>
      && inv2.rows[id].quantityInStock.Some?
      && inv2.rows[id].quantityInStock.value == inv.rows[id].quantityInStock.GetOr(0) + q
      && inv2.rows[id] == inv.rows[id].(quantityInStock := inv2.rows[id].quantityInStock)
  {
    if id in inv.rows && inv.rows[id].businessId == bid then
      var row := inv.rows[id];
      inv.(rows := inv.rows[id := row.(quantityInStock := Some(row.quantityInStock.GetOr(0) + q))])
    else inv
  }

  /** The restock loop over `itemIds[i]`, `quantities[i]` in order. */
  function Restock(inv: Table<InventoryRow>, bid: BusinessId, itemIds: seq<int>, quantities: seq<int>)
    : (inv2: Table<InventoryRow>)
    requires |itemIds| == |quantities|
    ensures inv2.rows.Keys == inv.rows.Keys && inv2.next == inv.next
  {
    if |itemIds| == 0 then inv
    else
      var n := |itemIds| - 1;
      RestockOne(Restock(inv, bid, itemIds[..n], quantities[..n]), bid, itemIds[n], quantities[n])
  }

  /**
   * Restocking adds, to each row of the business that the request names, the
   * sum of all quantities given for it (a repeated id adds repeatedly), with
   * a null stock counting as 0. Unnamed rows and rows of other businesses
   * are left alone.
   */
  lemma {:induction false} RestockTotals(inv: Table<InventoryRow>, bid: BusinessId, itemIds: seq<int>,
                                         quantities: seq<int>, id: int)
    requires |itemIds| == |quantities| && id in inv.rows
    ensures var row, row2 := inv.rows[id], Restock(inv, bid, itemIds, quantities).rows[id];
      if row.businessId == bid && id in itemIds then
        row2 == row.(quantityInStock := Some(row.quantityInStock.GetOr(0) + QtyOf(itemIds, quantities, id)))
      else row2 == row
  {
    if |itemIds| > 0 {
      var n := |itemIds| - 1;
      var pre, qpre := itemIds[..n], quantities[..n];
      RestockTotals(inv, bid, pre, qpre, id);
      if id !in pre {
        QtyOfAbsent(pre, qpre, id);
      }
      if id in itemIds && id !in pre {
        assert itemIds[n] == id by {
          var i :| 0 <= i < |itemIds| && itemIds[i] == id;
          assert i == n;
        }
      }
      if id in pre {
        var i :| 0 <= i < n && pre[i] == id;
        assert itemIds[i] == id;
      }
    }
  }

  /**
   * POST `/:id/update-inventory`: add each given quantity to the stock of the
   * named inventory row of the caller's business. The purchase id in the
   * path is not consulted.
   */
  function UpdateInventory(s: Store, bid: BusinessId, itemIds: Option<seq<int>>, quantities: Option<seq<int>>)
    : (r: Response)
    ensures bid == 0 ==> r == Response(s, BadRequest)
    ensures bid != 0 && (itemIds.None? || quantities.None? || |itemIds.value| != |quantities.value|)
            ==> r == Response(s, BadRequest)
    ensures bid != 0 && itemIds.Some? && quantities.Some? && |itemIds.value| == |quantities.value| ==>
      && r.status == OK
      && r.store == s.(inventory := Restock(s.inventory, bid, itemIds.value, quantities.value))
  {
    if bid == 0 then Response(s, BadRequest)
    else if itemIds.None? || quantities.None? || |itemIds.value| != |quantities.value| then Response(s, BadRequest)
    else Response(s.(inventory := Restock(s.inventory, bid, itemIds.value, quantities.value)), OK)
  }
}
