/**
 * Ingredients (endpoints/ingredients/ingredients.js): the business's
 * Inventories rows — listing, creation, the field-wise update, and the
 * delete route, which removes a Recipe row.
 */
module Ingredients {
  import opened Common
  import opened Store

  /** The rows of one business, keyed by row id. */
  function RowsOf(s: Store, bid: BusinessId): map<int, InventoryRow> {
    map id | id in s.inventory.rows && s.inventory.rows[id].businessId == bid :: s.inventory.rows[id]
  }

  /** GET `/`: 401 without a business, else exactly the caller's rows. */
  function ListIngredients(s: Store, bid: BusinessId): (r: Result<map<int, InventoryRow>>)
    ensures bid == 0 <==> r == Failure(Unauthorized)
    ensures r.Success? ==> forall id :: id in r.value <==> OwnsInventory(s, bid, id)
    ensures r.Success? ==> forall id :: id in r.value ==> id in s.inventory.rows && r.value[id] == s.inventory.rows[id]
  {
    if bid == 0 then Failure(Unauthorized) else Success(RowsOf(s, bid))
  }

  /** No row of another business is ever listed. */
  lemma ListingIsScoped(s: Store, bid: BusinessId, id: int)
    requires ListIngredients(s, bid).Success? && id in ListIngredients(s, bid).value
    ensures ListIngredients(s, bid).value[id].businessId == bid
  {
  }

  /** A body item id is truthy when it is given and not 0. */
  predicate TruthyId(x: Option<int>) {
    x.Some? && x.value != 0
  }

  /** The body of POST `/`. */
  datatype NewIngredient = NewIngredient(
    itemId: Option<int>,
    unit: Option<string>,
    quantityInStock: Option<int>,
    threshold: Option<int>)

  /**
   * POST `/`: an item id and a unit are required. The row holds the given
   * values, except that a missing stock takes the column default 0
   * (models/inventory.js).
   */
  function CreateIngredient(s: Store, bid: BusinessId, body: NewIngredient): (r: Response)
    ensures r.status == Created <==> TruthyId(body.itemId) && Truthy(body.unit)
    ensures r.status != Created ==> r == Response(s, BadRequest)
    ensures r.status == Created ==>
      && r.store == s.(inventory := r.store.inventory)
      && r.store.inventory.next == s.inventory.next + 1
      && (forall id :: id != s.inventory.next ==> (id in r.store.inventory.rows <==> id in s.inventory.rows))
      && (forall id :: id != s.inventory.next && id in s.inventory.rows
            ==> r.store.inventory.rows[id] == s.inventory.rows[id])
      && s.inventory.next in r.store.inventory.rows
      && r.store.inventory.rows[s.inventory.next]
         == InventoryRow(bid, None, body.itemId, body.unit, Some(body.quantityInStock.GetOr(0)), body.threshold)
  {
    if !TruthyId(body.itemId) || !Truthy(body.unit) then Response(s, BadRequest)
    else
      var row := InventoryRow(bid, None, body.itemId, body.unit, Some(body.quantityInStock.GetOr(0)), body.threshold);
      Response(s.(inventory := s.inventory.Insert(row)), Created)
  }

  /** In a valid table a new ingredient never overwrites a row, and is listed for its business. */
  lemma CreatedIngredientIsListed(s: Store, bid: BusinessId, body: NewIngredient)
    requires s.inventory.Valid() && bid != 0
    requires CreateIngredient(s, bid, body).status == Created
    ensures s.inventory.next !in s.inventory.rows
    ensures var s2 := CreateIngredient(s, bid, body).store;
      && s2.inventory.Valid()
      && s.inventory.next in ListIngredients(s2, bid).value
      && RowsOf(s2, bid).Keys == RowsOf(s, bid).Keys + {s.inventory.next}
  {
  }

  /** The smallest valid body lists the new row with stock 0, never with a null stock. */
  lemma CreatedWithoutStockHasZero(s: Store, bid: BusinessId, itemId: int, unit: string)
    requires bid != 0 && itemId != 0 && unit != ""
    ensures var s2 := CreateIngredient(s, bid, NewIngredient(Some(itemId), Some(unit), None, None)).store;
      && ListIngredients(s2, bid).Success?
      && s.inventory.next in ListIngredients(s2, bid).value
      && ListIngredients(s2, bid).value[s.inventory.next].quantityInStock == Some(0)
  {
  }

  /** The body of PUT `/:id`: each column is absent (kept) or given, possibly as `null` or 0. */
  datatype IngredientPatch = IngredientPatch(
    itemId: Field<Option<int>>,
    unit: Field<Option<string>>,
    quantityInStock: Field<Option<int>>,
    threshold: Field<Option<int>>)

  /** `x !== undefined ? x : current`, column by column. */
  function ApplyPatch(row: InventoryRow, p: IngredientPatch): (r: InventoryRow)
    ensures r.businessId == row.businessId && r.itemName == row.itemName
    ensures r.itemId == (if p.itemId.Given? then p.itemId.value else row.itemId)
    ensures r.unit == (if p.unit.Given? then p.unit.value else row.unit)
    ensures r.quantityInStock == (if p.quantityInStock.Given? then p.quantityInStock.value else row.quantityInStock)
    ensures r.threshold == (if p.threshold.Given? then p.threshold.value else row.threshold)
  {
    row.(itemId := Merge(row.itemId, p.itemId),
         unit := Merge(row.unit, p.unit),
         quantityInStock := Merge(row.quantityInStock, p.quantityInStock),
         threshold := Merge(row.threshold, p.threshold))
  }

  /** PUT `/:id`: 404 unless the row belongs to the caller's business; then the patch. */
  function UpdateIngredient(s: Store, bid: BusinessId, id: int, p: IngredientPatch): (r: Response)
    ensures !OwnsInventory(s, bid, id) ==> r == Response(s, NotFound)
    ensures OwnsInventory(s, bid, id) ==>
      && r.status == OK
      && r.store == s.(inventory := r.store.inventory)
      && r.store.inventory.next == s.inventory.next
      && r.store.inventory.rows.Keys == s.inventory.rows.Keys
      && (forall k :: k in s.inventory.rows && k != id ==> r.store.inventory.rows[k] == s.inventory.rows[k])
      && r.store.inventory.rows[id] == ApplyPatch(s.inventory.rows[id], p)
  {
    if !OwnsInventory(s, bid, id) then Response(s, NotFound)
    else Response(s.(inventory := s.inventory.(rows := s.inventory.rows[id := ApplyPatch(s.inventory.rows[id], p)])), OK)
  }

  /** A body with every column given sets exactly those values, `null` and 0 included. */
  lemma FullPatchOverwrites(row: InventoryRow, itemId: Option<int>, unit: Option<string>, stock: Option<int>,
                            threshold: Option<int>)
    ensures ApplyPatch(row, IngredientPatch(Given(itemId), Given(unit), Given(stock), Given(threshold)))
            == InventoryRow(row.businessId, row.itemName, itemId, unit, stock, threshold)
  {
  }

  /** An empty body leaves the row as it was, and a repeated update changes nothing more. */
  lemma PatchIdentityAndIdempotence(row: InventoryRow, p: IngredientPatch)
    ensures ApplyPatch(row, IngredientPatch(Absent, Absent, Absent, Absent)) == row
    ensures ApplyPatch(ApplyPatch(row, p), p) == ApplyPatch(row, p)
  {
  }

  /** An update keeps the row with its business, so the listing has the same keys. */
  lemma UpdateKeepsListing(s: Store, bid: BusinessId, id: int, p: IngredientPatch)
    requires bid != 0
    ensures var s2 := UpdateIngredient(s, bid, id, p).store;
      ListIngredients(s2, bid).value.Keys == ListIngredients(s, bid).value.Keys
  {
  }

  /**
   * DELETE `/:itemId`: looks the id up among the caller's Recipes (not the
   * Inventories rows this router otherwise serves) and removes that recipe.
   */
  function DeleteIngredient(s: Store, bid: BusinessId, itemId: int): (r: Response)
    ensures !OwnsRecipe(s, bid, itemId) ==> r == Response(s, NotFound)
    ensures OwnsRecipe(s, bid, itemId) ==>
      && r.status == OK
      && r.store == s.(recipes := r.store.recipes)
      && r.store.recipes.next == s.recipes.next
      && r.store.recipes.rows.Keys == s.recipes.rows.Keys - {itemId}
      && (forall k :: k in r.store.recipes.rows ==> r.store.recipes.rows[k] == s.recipes.rows[k])
  {
    if !OwnsRecipe(s, bid, itemId) then Response(s, NotFound)
    else Response(s.(recipes := s.recipes.(rows := s.recipes.rows - {itemId})), OK)
  }

  /** Deleting twice: the second call finds nothing and answers 404. */
  lemma DeleteTwiceNotFound(s: Store, bid: BusinessId, itemId: int)
    requires OwnsRecipe(s, bid, itemId)
    ensures var s2 := DeleteIngredient(s, bid, itemId).store;
      DeleteIngredient(s2, bid, itemId) == Response(s2, NotFound)
  {
  }

  /** The inventory rows are untouched by a delete. */
  lemma DeleteKeepsInventory(s: Store, bid: BusinessId, itemId: int)
    ensures DeleteIngredient(s, bid, itemId).store.inventory == s.inventory
  {
  }
}
