/**
 * The persisted state the handlers read and rewrite, as one immutable value.
 * Each Sequelize model becomes a datatype; each table becomes a map (keyed by
 * its primary key) or, where the handlers rely on row order (`findOne` with a
 * non-key condition), a sequence in row order.
 */
module Store {
  import opened Common

  /**
   * The business id carried by the caller's token. `0` stands for a token
   * without one: the handlers' `!businessId` test is true for it.
   */
  type BusinessId = int

  /** Money columns, taken as opaque integers (cents). */
  type Money = int

  /** One shopping-list note; `None` is `undefined`/`null`, including an array hole. */
  type Note = Option<string>

  /**
   * The one shopping list of a business: parallel arrays, position `i` is one
   * line. A `null` notes column reads as `[]` in every handler, so it is `[]` here.
   */
  datatype ShoppingList = ShoppingList(itemIds: seq<int>, quantities: seq<int>, notes: seq<Note>)
  {
    /** Item ids and quantities line up. */
    predicate Aligned() {
      |itemIds| == |quantities|
    }
  }

  const EmptyList := ShoppingList([], [], [])

  /** A line to put on a shopping list: an item and a quantity. */
  datatype Line = Line(itemId: int, quantity: int)

  /** The item-id column of a batch of lines. */
  function LineIds(lines: seq<Line>): (ids: seq<int>)
    ensures |ids| == |lines|
    ensures forall j :: 0 <= j < |lines| ==> ids[j] == lines[j].itemId
  {
    seq(|lines|, j requires 0 <= j < |lines| => lines[j].itemId)
  }

  /** The quantity column of a batch of lines. */
  function LineQuantities(lines: seq<Line>): (qs: seq<int>)
    ensures |qs| == |lines|
    ensures forall j :: 0 <= j < |lines| ==> qs[j] == lines[j].quantity
  {
    seq(|lines|, j requires 0 <= j < |lines| => lines[j].quantity)
  }

  /** A purchase awaiting confirmation; `status` is `'pending'` until completed. */
  datatype PendingPurchase = PendingPurchase(
    businessId: BusinessId,
    itemIds: seq<int>,
    quantities: seq<int>,
    status: string,
    totalPrice: Option<Money>)

  const Pending := "pending"
  const Completed := "completed"

  /** An ingredient row of the Inventories table. */
  datatype InventoryRow = InventoryRow(
    businessId: BusinessId,
    itemName: Option<string>,
    itemId: Option<int>,
    unit: Option<string>,
    quantityInStock: Option<int>,
    threshold: Option<int>)

  /** A menu item with its ingredients as three parallel (nullable) arrays. */
  datatype Recipe = Recipe(
    businessId: BusinessId,
    itemName: Option<string>,
    unitCost: Option<Money>,
    ingredients: Option<seq<int>>,
    ingredientsQuantity: Option<seq<Option<real>>>,
    ingredientsUnit: Option<seq<Option<string>>>,
    categories: Option<seq<string>>,
    variations: Option<seq<int>>)

  /** A business and its point-of-sale connection. */
  datatype Business = Business(id: BusinessId, merchantId: Option<string>, accessToken: Option<string>)

  /** The stock/threshold row the order webhook looks up by item name. */
  datatype CatalogItem = CatalogItem(
    itemId: int,
    itemName: string,
    businessId: BusinessId,
    quantityInStock: int,
    threshold: int)

  /** The row catalog sync upserts into the Items table. */
  datatype ItemRecord = ItemRecord(
    itemId: int,
    itemName: string,
    unitCost: Money,
    vendor: string,
    unit: string,
    quantityInStock: int,
    isPerishable: string,
    businessId: BusinessId)

  /** A table with an auto-increment primary key. */
  datatype Table<V> = Table(rows: map<int, V>, next: int)
  {
    /** Every key was handed out before `next`. */
    predicate Valid() {
      forall k :: k in rows ==> k < next
    }

    /** INSERT: the new row gets key `next`, which is fresh in a valid table. */
    function Insert(v: V): (t: Table<V>)
      ensures t.rows == rows[next := v] && t.next == next + 1
      ensures Valid() ==> t.Valid() && next !in rows
    {
      Table(rows[next := v], next + 1)
    }
  }

  datatype Store = Store(
    businesses: seq<Business>,
    lists: map<BusinessId, ShoppingList>,
    purchases: Table<PendingPurchase>,
    inventory: Table<InventoryRow>,
    recipes: Table<Recipe>,
    catalog: seq<CatalogItem>,
    items: map<int, ItemRecord>,
    processed: set<string>)

  /** A mutating handler's answer: the store after the request, and the status sent. */
  datatype Response = Response(store: Store, status: Status)

  /** The business's list, or the empty list a handler starts from when it has none. */
  function ListOf(s: Store, bid: BusinessId): ShoppingList {
    if bid in s.lists then s.lists[bid] else EmptyList
  }

  /** `Inventory.findOne({ where: { id, businessId } })` finds a row. */
  predicate OwnsInventory(s: Store, bid: BusinessId, id: int) {
    id in s.inventory.rows && s.inventory.rows[id].businessId == bid
  }

  /** `PendingPurchase.findOne({ where: { id, businessId } })` finds a row. */
  predicate OwnsPurchase(s: Store, bid: BusinessId, id: int) {
    id in s.purchases.rows && s.purchases.rows[id].businessId == bid
  }

  /** `Recipe.findOne({ where: { itemId: id, businessId } })` finds a row. */
  predicate OwnsRecipe(s: Store, bid: BusinessId, id: int) {
    id in s.recipes.rows && s.recipes.rows[id].businessId == bid
  }
}
