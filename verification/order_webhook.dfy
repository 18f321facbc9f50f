/**
 * The order-updated webhook (endpoints/inventory/order.js): validate the
 * payload, find the business by merchant id, skip orders already processed,
 * act only on completed orders, mark the order processed, then put every
 * catalog item that fell below its threshold on the business's shopping list.
 *
 * The point-of-sale order fetch is an input (`None` when it fails); the price
 * lookup it makes per line is a foreign call and is not part of this model.
 */
module OrderWebhook {
  import opened Common
  import opened Store

  datatype OrderUpdated = OrderUpdated(orderId: Option<string>, state: Option<string>)

  /** The webhook body: `type`, `merchant_id` and `data.object.order_updated`. */
  datatype Event = Event(eventType: Option<string>, merchantId: string, orderUpdated: Option<OrderUpdated>)

  datatype LineItem = LineItem(name: string)

  /** The fetched order; a missing `line_items` reads as `[]`. */
  datatype Order = Order(lineItems: seq<LineItem>)

  /** How the webhook ends, with the HTTP status it sends. */
  datatype Outcome = InvalidPayload | BusinessNotFound | AlreadyProcessed | Received | Failed
  {
    function Code(): int {
      match this
      case InvalidPayload => 400
      case BusinessNotFound => 404
      case AlreadyProcessed => 200
      case Received => 200
      case Failed => 500
    }
  }

  datatype Reply = Reply(store: Store, outcome: Outcome)

  const OrderUpdatedType := "order.updated"
  const CompletedState := "COMPLETED"

  /** The payload names an `order.updated` event with a non-empty order id. */
  predicate ValidPayload(e: Event) {
    e.eventType == Some(OrderUpdatedType) && e.orderUpdated.Some? && Truthy(e.orderUpdated.value.orderId)
  }

  function OrderIdOf(e: Event): string
    requires ValidPayload(e)
  {
    e.orderUpdated.value.orderId.value
  }

  /** `Business.findOne({ where: { squareMerchantId } })`: the first matching row. */
  function FindBusiness(bs: seq<Business>, merchantId: string): (r: Option<Business>)
    ensures r.Some? ==> r.value in bs && r.value.merchantId == Some(merchantId)
    ensures r.None? <==> forall b :: b in bs ==> b.merchantId != Some(merchantId)
  {
    if |bs| == 0 then None
    else if bs[0].merchantId == Some(merchantId) then Some(bs[0])
    else FindBusiness(bs[1..], merchantId)
  }

  /** The business the event is for, when it exists and is connected. */
  predicate KnownBusiness(s: Store, e: Event) {
    var b := FindBusiness(s.businesses, e.merchantId);
    b.Some? && Truthy(b.value.accessToken)
  }

  /** The catalog lookup by item name within the business: the first matching row. */
  function FindCatalogItem(catalog: seq<CatalogItem>, name: string, bid: BusinessId): (r: Option<CatalogItem>)
    ensures r.Some? ==> r.value in catalog && r.value.itemName == name && r.value.businessId == bid
    ensures r.None? <==> forall c :: c in catalog ==> !(c.itemName == name && c.businessId == bid)
  {
    if |catalog| == 0 then None
    else if catalog[0].itemName == name && catalog[0].businessId == bid then Some(catalog[0])
    else FindCatalogItem(catalog[1..], name, bid)
  }

  /** The threshold rule: how many to buy to bring `stock` back up to `threshold`. */
  function Need(stock: int, threshold: int): (n: int)
    ensures n >= 0
    ensures n > 0 <==> stock < threshold
    ensures n > 0 ==> stock + n == threshold
  {
    if stock < threshold then threshold - stock else 0
  }

  /** What one line item contributes: nothing when unmatched or not needed. */
  function LineFor(item: LineItem, catalog: seq<CatalogItem>, bid: BusinessId): (ls: seq<Line>)
    ensures |ls| <= 1
    ensures |ls| == 1 <==>
      && FindCatalogItem(catalog, item.name, bid).Some?
      && FindCatalogItem(catalog, item.name, bid).value.quantityInStock < FindCatalogItem(catalog, item.name, bid).value.threshold
    ensures |ls| == 1 ==> ls[0].itemId == FindCatalogItem(catalog, item.name, bid).value.itemId && ls[0].quantity > 0
  {
    match FindCatalogItem(catalog, item.name, bid)
    case None => []
    case Some(c) =>
      var n := Need(c.quantityInStock, c.threshold);
      if n <= 0 then [] else [Line(c.itemId, n)]
  }

  /** The line-item loop: the lines to add, in line-item order. */
  function Collect(items: seq<LineItem>, catalog: seq<CatalogItem>, bid: BusinessId): (out: seq<Line>)
    ensures |out| <= |items|
    ensures forall j :: 0 <= j < |out| ==> out[j].quantity > 0
  {
    if |items| == 0 then []
    else Collect(items[..|items| - 1], catalog, bid) + LineFor(items[|items| - 1], catalog, bid)
  }

  /** The loop processes line items independently: collecting a concatenation concatenates. */
  lemma {:induction false} CollectConcat(a: seq<LineItem>, b: seq<LineItem>, catalog: seq<CatalogItem>,
                                         bid: BusinessId)
    ensures Collect(a + b, catalog, bid) == Collect(a, catalog, bid) + Collect(b, catalog, bid)
  {
    if |b| == 0 {
      assert a + b == a;
    } else {
      var n := |b| - 1;
      assert (a + b)[..|a + b| - 1] == a + b[..n];
      assert (a + b)[|a + b| - 1] == b[n];
      CollectConcat(a, b[..n], catalog, bid);
    }
  }

  /** A single line item contributes what its own lookup gives. */
  lemma CollectOne(x: LineItem, catalog: seq<CatalogItem>, bid: BusinessId)
    ensures Collect([x], catalog, bid) == LineFor(x, catalog, bid)
  {
    assert [x][..0] == [];
  }

  /** A line item with no catalog row is skipped, and the ones after it still count. */
  lemma UnmatchedSkipped(a: seq<LineItem>, x: LineItem, b: seq<LineItem>, catalog: seq<CatalogItem>,
                         bid: BusinessId)
    requires FindCatalogItem(catalog, x.name, bid).None?
    ensures Collect(a + [x] + b, catalog, bid) == Collect(a, catalog, bid) + Collect(b, catalog, bid)
  {
    var ax := a + [x];
    CollectConcat(ax, b, catalog, bid);
    CollectConcat(a, [x], catalog, bid);
    CollectOne(x, catalog, bid);
  }

  /** A matched line item below its threshold contributes exactly its need. */
  lemma MatchedBelowThreshold(x: LineItem, catalog: seq<CatalogItem>, bid: BusinessId, c: CatalogItem)
    requires FindCatalogItem(catalog, x.name, bid) == Some(c)
    requires c.quantityInStock < c.threshold
    ensures Collect([x], catalog, bid) == [Line(c.itemId, c.threshold - c.quantityInStock)]
  {
    CollectOne(x, catalog, bid);
  }

  /** `l` with the lines appended to its item ids and quantities. */
  function AppendLines(l: ShoppingList, lines: seq<Line>): ShoppingList {
    l.(itemIds := l.itemIds + LineIds(lines), quantities := l.quantities + LineQuantities(lines))
  }

  /** Where the handler stops before touching the store, or what it proceeds with. */
  datatype Gate = Stop(outcome: Outcome) | Proceed(orderId: string, business: Business, order: Order)

  /** Everything up to and including the order fetch. */
  function Admit(s: Store, e: Event, fetched: Option<Order>): (g: Gate)
    ensures !ValidPayload(e) ==> g == Stop(InvalidPayload)
    ensures ValidPayload(e) && !KnownBusiness(s, e) ==> g == Stop(BusinessNotFound)
    ensures ValidPayload(e) && KnownBusiness(s, e) ==>
      if OrderIdOf(e) in s.processed then g == Stop(AlreadyProcessed)
      else if e.orderUpdated.value.state != Some(CompletedState) then g == Stop(Received)
      else if fetched.None? then g == Stop(Failed)
      else g == Proceed(OrderIdOf(e), FindBusiness(s.businesses, e.merchantId).value, fetched.value)
  {
    if !ValidPayload(e) then Stop(InvalidPayload)
    else
      var orderId := OrderIdOf(e);
      match FindBusiness(s.businesses, e.merchantId)
      case None => Stop(BusinessNotFound)
      case Some(b) =>
        if !Truthy(b.accessToken) then Stop(BusinessNotFound)
        else if orderId in s.processed then Stop(AlreadyProcessed)
        else if e.orderUpdated.value.state != Some(CompletedState) then Stop(Received)
        else if fetched.None? then Stop(Failed)
        else Proceed(orderId, b, fetched.value)
  }

  /**
   * POST `/webhook/order-updated`. Every early exit leaves the store as it
   * was; a completed, newly seen, successfully fetched order is marked
   * processed and the lines it needs are appended to the business's list.
   */
  function Reconcile(s: Store, e: Event, fetched: Option<Order>): (r: Reply)
    ensures !ValidPayload(e) ==> r == Reply(s, InvalidPayload)
    ensures ValidPayload(e) && !KnownBusiness(s, e) ==> r == Reply(s, BusinessNotFound)
    ensures ValidPayload(e) && KnownBusiness(s, e) && OrderIdOf(e) in s.processed
            ==> r == Reply(s, AlreadyProcessed)
    ensures ValidPayload(e) && KnownBusiness(s, e) && OrderIdOf(e) !in s.processed ==>
      if e.orderUpdated.value.state != Some(CompletedState) then r == Reply(s, Received)
      else if fetched.None? then r == Reply(s, Failed)
      else
        var bid := FindBusiness(s.businesses, e.merchantId).value.id;
        var lines := Collect(fetched.value.lineItems, s.catalog, bid);
        var l, l2 := ListOf(s, bid), ListOf(r.store, bid);
        && r.outcome == Received
        && r.store == s.(processed := s.processed + {OrderIdOf(e)}, lists := r.store.lists)
        && r.store.lists == s.lists[bid := l2]
        && l2.itemIds == l.itemIds + LineIds(lines)
        && l2.quantities == l.quantities + LineQuantities(lines)
        && l2.notes == l.notes
  {
    match Admit(s, e, fetched)
    case Stop(o) => Reply(s, o)
    case Proceed(orderId, b, order) =>
      var marked := s.(processed := s.processed + {orderId});
      var lines := Collect(order.lineItems, s.catalog, b.id);
      Reply(marked.(lists := marked.lists[b.id := AppendLines(ListOf(marked, b.id), lines)]), Received)
  }

  /** Once an order has been marked, any redelivery is acknowledged and changes nothing. */
  lemma RedeliveryIsNoop(s: Store, e: Event, fetched: Option<Order>, refetched: Option<Order>)
    requires ValidPayload(e) && OrderIdOf(e) in Reconcile(s, e, fetched).store.processed
    requires KnownBusiness(s, e)
    ensures var s1 := Reconcile(s, e, fetched).store;
            Reconcile(s1, e, refetched) == Reply(s1, AlreadyProcessed)
  {
  }

  /** Delivering the same event twice leaves the store as delivering it once. */
  lemma ReconcileTwiceIsOnce(s: Store, e: Event, fetched: Option<Order>)
    ensures var s1 := Reconcile(s, e, fetched).store;
            Reconcile(s1, e, fetched).store == s1
  {
    var s1 := Reconcile(s, e, fetched).store;
    if ValidPayload(e) && KnownBusiness(s, e) && OrderIdOf(e) !in s.processed
       && e.orderUpdated.value.state == Some(CompletedState) && fetched.Some? {
      assert s1.businesses == s.businesses;
      assert OrderIdOf(e) in s1.processed;
    }
  }

  // ---------------------------------------------------------------- the handler as written

  /**
   * The handler as the source has it: the catalog lookup names `Item`, which
   * order.js never imports, so the first line item throws after the order
   * was marked processed; and an existing list is updated by spreading the
   * `cheapestUnitPrice`, `vendor` and `totalPrice` arrays, which the list
   * model no longer has, which throws as well.
   */
  function ReconcileAsWritten(s: Store, e: Event, fetched: Option<Order>): (r: Reply)
    ensures Admit(s, e, fetched).Stop? ==> r == Reply(s, Admit(s, e, fetched).outcome)
  {
    match Admit(s, e, fetched)
    case Stop(o) => Reply(s, o)
    case Proceed(orderId, b, order) =>
      var marked := s.(processed := s.processed + {orderId});
      if |order.lineItems| > 0 then Reply(marked, Failed)
      else if b.id in marked.lists then Reply(marked, Failed)
      else Reply(marked.(lists := marked.lists[b.id := EmptyList]), Received)
  }

  /**
   * As written, a completed order with line items answers 500 yet stays
   * marked processed with no list change, so every redelivery is skipped and
   * its restock is lost; the corrected handler acknowledges it.
   */
  lemma AsWrittenLosesOrder(s: Store, e: Event, order: Order)
    requires Admit(s, e, Some(order)).Proceed? && |order.lineItems| > 0
    ensures var r := ReconcileAsWritten(s, e, Some(order));
      && r.outcome == Failed
      && OrderIdOf(e) in r.store.processed
      && r.store.lists == s.lists
      && ReconcileAsWritten(r.store, e, Some(order)).outcome == AlreadyProcessed
    ensures Reconcile(s, e, Some(order)).outcome == Received
  {
    var r := ReconcileAsWritten(s, e, Some(order));
    assert r.store.businesses == s.businesses;
  }

  /**
   * As written, even an order without line items fails once the business has
   * a list; the corrected handler leaves that list as it was.
   */
  lemma AsWrittenFailsOnExistingList(s: Store, e: Event, order: Order)
    requires Admit(s, e, Some(order)).Proceed? && |order.lineItems| == 0
    requires Admit(s, e, Some(order)).business.id in s.lists
    ensures ReconcileAsWritten(s, e, Some(order)).outcome == Failed
    ensures var r := Reconcile(s, e, Some(order));
      r.outcome == Received && r.store.lists == s.lists
  {
    var b := Admit(s, e, Some(order)).business;
    assert AppendLines(s.lists[b.id], []) == s.lists[b.id];
  }

  /** A concrete delivery: business 7 sells one "Bread" (item 42, stock 2 of threshold 5). */
  const BreadStore := Store([Business(7, Some("M1"), Some("tok"))], map[], Table(map[], 1), Table(map[], 1),
                            Table(map[], 1), [CatalogItem(42, "Bread", 7, 2, 5)], map[], {})
  const BreadEvent := Event(Some("order.updated"), "M1", Some(OrderUpdated(Some("o-1"), Some("COMPLETED"))))
  const BreadOrder := Order([LineItem("Bread")])

  /** The delivery passes every check of the gate. */
  lemma BreadAdmitted()
    ensures Admit(BreadStore, BreadEvent, Some(BreadOrder)) == Proceed("o-1", BreadStore.businesses[0], BreadOrder)
  {
    assert FindBusiness(BreadStore.businesses, "M1") == Some(BreadStore.businesses[0]);
    assert ValidPayload(BreadEvent);
  }

  /** The order needs 3 more of item 42. */
  lemma BreadCollected()
    ensures Collect(BreadOrder.lineItems, BreadStore.catalog, 7) == [Line(42, 3)]
  {
    assert FindCatalogItem(BreadStore.catalog, "Bread", 7) == Some(BreadStore.catalog[0]);
    MatchedBelowThreshold(LineItem("Bread"), BreadStore.catalog, 7, BreadStore.catalog[0]);
  }

  /** On that delivery the handler as written fails with no list; the corrected one lists 3 of item 42. */
  lemma ItemLookupCounterexample()
    ensures ReconcileAsWritten(BreadStore, BreadEvent, Some(BreadOrder)).outcome == Failed
    ensures ReconcileAsWritten(BreadStore, BreadEvent, Some(BreadOrder)).store.lists == map[]
    ensures Reconcile(BreadStore, BreadEvent, Some(BreadOrder)).store.lists == map[7 := ShoppingList([42], [3], [])]
  {
    BreadAdmitted();
    BreadCollected();
    assert LineIds([Line(42, 3)]) == [42];
    assert LineQuantities([Line(42, 3)]) == [3];
    assert BreadStore.businesses[0].id == 7 && 7 !in BreadStore.lists;
    assert AppendLines(EmptyList, [Line(42, 3)]) == ShoppingList([42], [3], []);
  }
}
