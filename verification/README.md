# preppad-api request handlers, modelled in Dafny

This project models the bookkeeping core of preppad-api, a restaurant back-office API. Each business has one shopping list, held as parallel arrays (`itemIds`, `quantities`, `notes`). It also has pending purchases, inventory rows (ingredients), recipes, a catalog synced from its point-of-sale account, and a set of processed order ids. Each request handler is a pure function from a `Store` and a request to a new `Store` and an HTTP status (`Response`). Read-only handlers return a `Result`.

Modules, in dependency order:

- `Common` (common.dfy):
  - optional values standing for `undefined`/`null`;
  - statuses and request-body fields that are absent or given;
  - JavaScript truthiness;
  - `findIndex`/`indexOf` as `FindFirst`, `splice` as `RemoveAt`;
  - per-id quantity totals over parallel arrays (`QtyOf`).
- `Store` (store.dfy): one datatype per table, auto-increment tables, and the `Store` record.
- `ShoppingLists` (shopping_list.dfy): GET name projection, bulk PUT, clear, merge-add with note, and decrement-or-remove.
- `PendingPurchases` (pending_purchases.dfy): create, complete, the ordered-versus-confirmed diff merged into the list, and restocking.
- `OrderWebhook` (order_webhook.dfy): the order-updated webhook.
  - The gate: payload, business, dedup, `COMPLETED` state, and the fetch.
  - Then the threshold rule and the list append.
  - It also contains the handler as written, for the finding below.
- `CatalogSync` (catalog_sync.dfy): the per-location count map, item totals, the numeric id derived from a point-of-sale id, the defaults, and the upsert.
- `Recipes` (recipes.dfy): the recipe view joined against the inventory, creation, and the partial update.
- `Ingredients` (ingredients.dfy): listing, creation, the field-wise update, and the delete route.

Conventions:

- **Business id.** The token's business id is an `int`, and `0` stands for a token without one. The handlers' `!businessId` test treats 0 and `undefined` alike.
- **Route ids.** Ids from the route are integers.
- **Table order.** Tables keyed by primary key are maps. Lookups by a non-key column that rely on row order (`findOne` by merchant id, by item name, `findByPk` over businesses) scan a sequence and take the first match.
- **Inputs.** Everything the handlers fetch from the network is a parameter: the order, the catalog, the stock counts. The random fallback id is a parameter too. Each fetch is `None` when it fails.

## Model

| member | source | states |
|---|---|---|
| Common.FindFirst | endpoints/shopping-list/shopping-list.js:147 | `findIndex`/`indexOf` gives the first position holding the id, and -1 (`None`) exactly when the id is absent |
| Common.RemoveAt | endpoints/shopping-list/shopping-list.js:213-214 | `splice(k, 1)` drops exactly position k: one shorter, with the elements before k and after k kept in order |
| Common.QtyOfBump | endpoints/pending-purchases/pending-purchases.js:162 | adding q at position k raises the total of the id stored at k by q, and no other id's total |
| Store.Table.Insert | endpoints/pending-purchases/pending-purchases.js:66-73 | an insert uses the next auto-increment key, which is fresh in a valid table, and keeps the table valid |
| ShoppingLists.ListNames | endpoints/shopping-list/shopping-list.js:39-40 | 400 without a business, 404 without a list; otherwise one name per item id, same order and length: the row's name when the id has a row with a non-empty name (of any business), and 'Unknown' when it has no row or a null or empty name |
| ShoppingLists.AppendExtendsNames | endpoints/shopping-list/shopping-list.js:39-78 | after a bulk PUT, the names listed are the old names followed by the names of the appended ids, in the order given |
| ShoppingLists.AppendToList | endpoints/shopping-list/shopping-list.js:57-78 | 400 without a business, 500 for a missing array; otherwise both arrays are the old ones followed by the given ones (no de-duplication), a missing list is created from them, notes are kept, and an aligned list stays aligned exactly when the two given arrays have equal length |
| ShoppingLists.ClearList | endpoints/shopping-list/shopping-list.js:92-106 | 400 without a business, 404 without a list; otherwise ids and quantities become empty, notes stay, and no other list changes |
| ShoppingLists.ClearIdempotent | endpoints/shopping-list/shopping-list.js:97-106 | clearing twice leaves the same store as clearing once |
| ShoppingLists.ClearDiscardsAppended | endpoints/shopping-list/shopping-list.js:62-106 | a clear after a bulk append leaves the same result as the clear alone |
| ShoppingLists.AddToList | endpoints/shopping-list/shopping-list.js:120-162 | 400 without a business, 404 for an inventory id outside the business. Otherwise a missing list is created first. An id already present gets the quantity added at its first position, with the length unchanged and the note set only if the old note was falsy. A new id is appended with its quantity and note. Every other entry is unchanged |
| ShoppingLists.SetNote | endpoints/shopping-list/shopping-list.js:155-157 | writing a note at position i makes it read back there and leaves every other position as it read before; a position past the end grows the array to i + 1 with holes |
| ShoppingLists.AddKeepsDistinct | endpoints/shopping-list/shopping-list.js:147-162 | merge-add never introduces a duplicate id into a list without duplicates |
| ShoppingLists.RemoveFromList | endpoints/shopping-list/shopping-list.js:186-220 | 400 without a business or for a quantity missing or at most 0; 404 without a list or the item. Otherwise the quantity is subtracted at the first position, and a result at most 0 splices that position from ids and quantities together. Notes are untouched |
| ShoppingLists.RemoveKeepsDistinct | endpoints/shopping-list/shopping-list.js:211-220 | removal never introduces a duplicate id |
| ShoppingLists.AddNewThenRemove | endpoints/shopping-list/shopping-list.js:158-220 | adding a new id and then removing the same quantity restores ids and quantities; the note added at the end remains |
| ShoppingLists.AddExistingThenRemove | endpoints/shopping-list/shopping-list.js:147-220 | adding to an id already present and removing the same quantity restores the quantities |
| PendingPurchases.CreatePurchase | endpoints/pending-purchases/pending-purchases.js:57-74 | 201 exactly when there is a business and both arrays are given with equal length; otherwise 400 with nothing stored. The new row is pending and holds the given arrays and total |
| PendingPurchases.CompletePurchase | endpoints/pending-purchases/pending-purchases.js:86-96 | 400 without a business, 404 for a purchase not owned; otherwise the status becomes 'completed', the total is replaced, and every other row and field is unchanged |
| PendingPurchases.CompleteIdempotent | endpoints/pending-purchases/pending-purchases.js:92-96 | completing twice with the same total is the same as completing once |
| PendingPurchases.DiffLines | endpoints/pending-purchases/pending-purchases.js:132-140 | every diff line has a positive quantity |
| PendingPurchases.DiffLinesExact | endpoints/pending-purchases/pending-purchases.js:132-140 | the diff holds exactly the positions where ordered minus confirmed is positive, in original order, each with its item id and that difference |
| PendingPurchases.NoDiffWhenConfirmedAsOrdered | endpoints/pending-purchases/pending-purchases.js:132-140 | confirming the ordered quantities yields an empty diff |
| PendingPurchases.MergeLine | endpoints/pending-purchases/pending-purchases.js:158-166 | one diff line: an id already on the list keeps the ids as they were and adds the quantity at the id's first position only; a new id is appended with its quantity. Lengths stay aligned and notes are untouched |
| PendingPurchases.MergeLines | endpoints/pending-purchases/pending-purchases.js:157-166 | the loop over the diff lines keeps the list aligned, keeps the notes, and keeps the old ids as a prefix |
| PendingPurchases.MergeLineConserves | endpoints/pending-purchases/pending-purchases.js:159-166 | one merge step adds the line's quantity to its id's total and to nothing else |
| PendingPurchases.MergeConserves | endpoints/pending-purchases/pending-purchases.js:147-168 | after merging, every id's total on the list is its old total plus the diff quantities for that id |
| PendingPurchases.MergeKeepsOthers | endpoints/pending-purchases/pending-purchases.js:147-168 | merging keeps existing ids in place, changes a quantity only at the first position of an id in the diff, and leaves every diff id on the list |
| PendingPurchases.MergeAddsToFirst | endpoints/pending-purchases/pending-purchases.js:159-162 | the first position of an id already on the list gains exactly that id's diff total |
| PendingPurchases.MergeAppendsOnce | endpoints/pending-purchases/pending-purchases.js:159-165 | the lines appended after the old ones hold distinct ids, none already on the list, all from the diff: an id is appended at most once |
| PendingPurchases.MergeHasDiffIds | endpoints/pending-purchases/pending-purchases.js:158-166 | after merging, every id of the diff is on the list |
| PendingPurchases.MergeKeepsQuantities | endpoints/pending-purchases/pending-purchases.js:159-162 | an old position keeps its quantity unless it is the first position of an id that occurs in the diff |
| PendingPurchases.MergeAppendsInOrder | endpoints/pending-purchases/pending-purchases.js:158-166 | the ids appended after the old ones come in the order of their first lines in the diff |
| PendingPurchases.MergeOrderExample | endpoints/pending-purchases/pending-purchases.js:158-166 | merging the diff 7 then 8 into an empty list gives the ids [7, 8], and the order [8, 7] breaks the first-occurrence order |
| PendingPurchases.MergeAppendedTotals | endpoints/pending-purchases/pending-purchases.js:159-165 | each appended line holds its id's diff total |
| PendingPurchases.DiffToShoppingList | endpoints/pending-purchases/pending-purchases.js:110-168 | 400 without a business, 404 for a purchase not owned, 400 unless completed, 400 for confirmed quantities that are missing or of the wrong length. Otherwise the purchase's quantities become the confirmed ones and the diff is merged into the list, or creates it |
| PendingPurchases.CompleteEnablesDiff | endpoints/pending-purchases/pending-purchases.js:92-129 | after completing a purchase, a diff of the right length is accepted |
| PendingPurchases.DiffReplayAddsNothing | endpoints/pending-purchases/pending-purchases.js:132-168 | replaying the same confirmation changes nothing, because the purchase already holds the confirmed quantities |
| PendingPurchases.RestockOne | endpoints/pending-purchases/pending-purchases.js:196-202 | one loop step: a row of the business named by the id gets `(stock || 0) + q` and no other column changes; any other id, and every other row, is left alone; keys and next key are kept |
| PendingPurchases.Restock | endpoints/pending-purchases/pending-purchases.js:194-203 | restocking keeps the set of inventory rows and the next key |
| PendingPurchases.RestockTotals | endpoints/pending-purchases/pending-purchases.js:194-203 | each named row of the business gains the sum of all quantities given for it (a repeated id adds repeatedly, null stock counts as 0); other rows are unchanged |
| PendingPurchases.UpdateInventory | endpoints/pending-purchases/pending-purchases.js:184-203 | 400 without a business or for missing or mismatched arrays; otherwise only the inventory changes, by the restock |
| OrderWebhook.FindBusiness | endpoints/inventory/order.js:165 | the business found has the merchant id, and none is found exactly when no business has it |
| OrderWebhook.FindCatalogItem | endpoints/inventory/order.js:195-205 | the row found has that name and business, and none is found exactly when no row has both |
| OrderWebhook.Need | endpoints/inventory/order.js:207-212 | the need is never negative; it is positive exactly when stock is below threshold, and then it brings stock up to threshold |
| OrderWebhook.LineFor | endpoints/inventory/order.js:195-217 | one line item yields at most one line, and one exactly when a catalog row with its name and business is found with stock below threshold; that line holds the row's item id and a positive quantity |
| OrderWebhook.Collect | endpoints/inventory/order.js:191-221 | at most one line per line item, each with a positive quantity |
| OrderWebhook.CollectConcat | endpoints/inventory/order.js:191-221 | line items are processed independently: collecting a concatenation concatenates the results |
| OrderWebhook.UnmatchedSkipped | endpoints/inventory/order.js:202-205 | a line item without a catalog row contributes nothing, and the items after it are still processed |
| OrderWebhook.MatchedBelowThreshold | endpoints/inventory/order.js:207-217 | a matched item below threshold contributes exactly one line: its id and threshold minus stock |
| OrderWebhook.Admit | endpoints/inventory/order.js:154-181 | the checks in order: 400 for a bad payload, 404 for an unknown or unconnected business, 200 for an order already processed, 200 for a state other than COMPLETED, 500 when the fetch fails; otherwise proceed |
| OrderWebhook.Reconcile | endpoints/inventory/order.js:152-252 | every early exit leaves the store unchanged, including a failed fetch, which leaves the order unmarked. A completed new order is marked processed, and the business's list is extended by the collected lines in line-item order. itemIds and quantities grow by the same count and notes are not extended; a missing list is created, and nothing else changes |
| OrderWebhook.RedeliveryIsNoop | endpoints/inventory/order.js:171-175 | once the order is marked, any redelivery answers 'Already processed' and leaves the store unchanged |
| OrderWebhook.ReconcileTwiceIsOnce | endpoints/inventory/order.js:171-242 | delivering the same event twice leaves the store as delivering it once |
| OrderWebhook.ReconcileAsWritten | endpoints/inventory/order.js:152-252 | the handler as written agrees with the corrected one on every early exit |
| OrderWebhook.AsWrittenLosesOrder | endpoints/inventory/order.js:181-195 | as written, an order with line items answers 500 but stays marked with no list change, so a redelivery is skipped; the corrected handler answers 200 |
| OrderWebhook.AsWrittenFailsOnExistingList | endpoints/inventory/order.js:234-241 | as written, a business that already has a list gets 500 even for an order without line items; the corrected handler leaves the list as it was |
| OrderWebhook.ItemLookupCounterexample | endpoints/inventory/order.js:195 | one completed order for "Bread" (stock 2, threshold 5): 500 and no list as written, versus a list with 3 of item 42 when corrected |
| CatalogSync.Put | endpoints/inventory/item.js:76 | setting a location's count makes it read back and leaves every other location unchanged; a new location is appended |
| CatalogSync.Record | endpoints/inventory/item.js:74-76 | one count sets that location on that variation's map, created if missing, and no other variation's map changes |
| CatalogSync.BuildCountMap | endpoints/inventory/item.js:72-77 | the count map built from the counts in arrival order has no entries for a variation that no count names (its per-location contents are stated by CatalogSync.LastCountWins) |
| CatalogSync.LastCountWins | endpoints/inventory/item.js:72-77 | the map holds, for each (variation, location), the last count reported for it |
| CatalogSync.NoCountsEmpty | endpoints/inventory/item.js:79-83 | a variation's counts are empty exactly when no count names it |
| CatalogSync.TotalMatchesCounts | endpoints/inventory/item.js:72-91 | with no pair reported twice, a variation's total is the sum of all its reported counts |
| CatalogSync.ItemTotal | endpoints/inventory/item.js:85-91 | an item whose variations have no counts has stock 0 (the sum itself is related to the reports by CatalogSync.ItemTotalIsReported) |
| CatalogSync.ItemTotalIsReported | endpoints/inventory/item.js:85-91 | with no pair reported twice, an item's stock is the sum of the counts over all its variations and locations |
| CatalogSync.ParseDecimal | endpoints/inventory/item.js:98 | the parse of k digits is below 10^k |
| CatalogSync.ParseZeroIff | endpoints/inventory/item.js:98 | a digit string parses to 0 exactly when every digit is '0' |
| CatalogSync.DecimalRoundTrip | endpoints/inventory/item.js:98 | parsing the decimal digits of n gives back n, they survive digit-stripping, and below 10^k there are at most k of them |
| CatalogSync.IdDigits | endpoints/inventory/item.js:98 | `replace(/\D/g, '').slice(0, 9)`: at most nine characters, all of them digits |
| CatalogSync.DigitsOfDigits | endpoints/inventory/item.js:98 | removing the non-digits leaves a string of digits unchanged |
| CatalogSync.LeadingZerosIgnored | endpoints/inventory/item.js:98 | leading '0' digits do not change the parsed number |
| CatalogSync.DeriveWithLeadingZeros | endpoints/inventory/item.js:98 | an item id whose digits are zeros followed by the decimal form of a positive n, within nine digits, derives n |
| CatalogSync.DeriveItemId | endpoints/inventory/item.js:98 | the derived id is below 10^9; the random draw is used exactly when the first nine digits are all '0' or absent, and otherwise the id is positive |
| CatalogSync.DeriveFromDecimal | endpoints/inventory/item.js:98 | an id whose only digits spell n (0 < n < 10^9) derives n |
| CatalogSync.DeriveIgnoresTail | endpoints/inventory/item.js:98 | only the first nine digits matter |
| CatalogSync.ToRecord | endpoints/inventory/item.js:93-107 | the defaults: name or 'Unnamed', the first variation's price or 0, its name or 'unit', stock summed from the count map, vendor '', not perishable, the caller's business |
| CatalogSync.UpsertAll | endpoints/inventory/item.js:108-110 | the upserts one after another, keyed by item id; it carries no contract of its own, and its keys, its last-write-wins rows and its untouched rows are stated by CatalogSync.UpsertAllKeys, CatalogSync.UpsertAllLast and CatalogSync.UpsertAllKeeps |
| CatalogSync.FindById | endpoints/inventory/item.js:125 | the business found has the id, and none is found exactly when no business has it |
| CatalogSync.Sync | endpoints/inventory/item.js:122-133 | 400 when the business is missing or has no token, 500 when a fetch fails; otherwise 200 and only the Items table changes |
| CatalogSync.SyncKeys | endpoints/inventory/item.js:97-110 | after a sync, the item keys are the old ones plus every derived id |
| CatalogSync.SyncStores | endpoints/inventory/item.js:97-110 | an item whose id no later catalog item repeats is stored exactly as reshaped |
| CatalogSync.SyncKeepsOthers | endpoints/inventory/item.js:97-110 | rows whose id no catalog item derives are unchanged |
| Recipes.Title | endpoints/recipes/recipes.js:33-35 | an ingredient's title is never empty. It is the row's name when the id is an inventory row of the caller's business with a truthy name, and 'Unknown' otherwise |
| Recipes.UnitAt | endpoints/recipes/recipes.js:36 | a non-empty unit shown is the stored unit at that index. A truthy stored unit at that index is shown as it is, and a missing array or an index past its end shows '' |
| Recipes.QuantityAt | endpoints/recipes/recipes.js:37 | a quantity shown is the stored non-zero number at that index. A stored non-zero number at that index is shown, and a missing array or an index past its end shows '' |
| Recipes.IngredientsView | endpoints/recipes/recipes.js:32-40 | one entry per ingredient id, same order and length. Title is the business's inventory name, else 'Unknown'. Unit is the truthy unit at that index, else ''. Quantity is the truthy quantity at that index, else blank |
| Recipes.ListRecipes | endpoints/recipes/recipes.js:9-49 | 400 without a business; otherwise exactly the business's recipes, each with its id, name and unit cost, its ingredient list as Recipes.IngredientsView renders it, and categories and variations defaulting to [] |
| Recipes.ZeroQuantityIsBlank | endpoints/recipes/recipes.js:37 | a quantity of 0 renders as '' |
| Recipes.ViewIgnoresOtherBusinesses | endpoints/recipes/recipes.js:15-24 | the view depends only on the caller's own inventory rows |
| Recipes.CreateRecipe | endpoints/recipes/recipes.js:62-76 | 201 exactly when business, name, ingredients and units are given; otherwise 400 with nothing stored. The new row holds the given fields, with categories and variations defaulting to [] and an absent ingredientsQuantity taking the column default [] (a given null is stored as null) |
| Recipes.CreatedRecipeIsListed | endpoints/recipes/recipes.js:46-47 | a created recipe is listed for its business, with [] categories and variations by default and one entry per ingredient |
| Recipes.CreatedWithoutQuantitiesIsBlank | models/recipe.js:42-45 | a recipe created without quantities stores [] and shows every ingredient's quantity as '' |
| Recipes.Apply | endpoints/recipes/recipes.js:111-115 | each key given in the body, null included, overwrites its column; each absent key keeps the old value |
| Recipes.UpdateRecipe | endpoints/recipes/recipes.js:98-117 | 400 without a business, 404 for a recipe the business does not own; otherwise only that row changes, by the patch |
| Recipes.NoChangeIsIdentity | endpoints/recipes/recipes.js:111-115 | an empty body changes nothing |
| Recipes.ApplyIdempotent | endpoints/recipes/recipes.js:111-115 | the same update twice is the update once |
| Recipes.ApplyThen | endpoints/recipes/recipes.js:111-115 | two updates compose into one where the later keys win |
| Recipes.UpdateTwice | endpoints/recipes/recipes.js:103-117 | a second update of the same recipe succeeds and composes with the first |
| Ingredients.ListIngredients | endpoints/ingredients/ingredients.js:11-19 | 401 without a business; otherwise exactly the caller's rows, unchanged |
| Ingredients.ListingIsScoped | endpoints/ingredients/ingredients.js:15-17 | no row of another business is listed |
| Ingredients.CreateIngredient | endpoints/ingredients/ingredients.js:32-42 | 201 exactly when the item id and the unit are truthy, else 400 with nothing stored; the new row holds the given values, with a missing stock taking the column default 0 |
| Ingredients.CreatedIngredientIsListed | endpoints/ingredients/ingredients.js:36-42 | in a valid table the new row overwrites nothing and is listed for its business |
| Ingredients.CreatedWithoutStockHasZero | models/inventory.js:37-41 | the smallest valid body, an item id and a unit, lists the new row with stock 0 |
| Ingredients.ApplyPatch | endpoints/ingredients/ingredients.js:69-74 | each column keeps its value when the body's is undefined and takes the body's otherwise, null and 0 included |
| Ingredients.UpdateIngredient | endpoints/ingredients/ingredients.js:58-74 | 404 unless the row belongs to the caller's business; otherwise only that row changes, by the patch |
| Ingredients.FullPatchOverwrites | endpoints/ingredients/ingredients.js:69-74 | a body giving every column sets exactly those values |
| Ingredients.PatchIdentityAndIdempotence | endpoints/ingredients/ingredients.js:69-74 | an empty body keeps the row; repeating an update changes nothing more |
| Ingredients.UpdateKeepsListing | endpoints/ingredients/ingredients.js:58-74 | an update keeps the listing's keys |
| Ingredients.DeleteIngredient | endpoints/ingredients/ingredients.js:88-99 | the lookup is a Recipe by item id and business: 404 if none, else exactly that recipe is removed |
| Ingredients.DeleteTwiceNotFound | endpoints/ingredients/ingredients.js:88-97 | a second delete of the same id answers 404 |
| Ingredients.DeleteKeepsInventory | endpoints/ingredients/ingredients.js:88-99 | the delete route never touches the Inventories rows |

## Left out

- HTTP routing, the JWT middleware and persistence are not modelled. The store is an in-memory value, and a response is a store plus a status.
- Network calls are not modelled; their results are inputs. This covers the order fetch (`getOrder`) and the catalog and stock-count fetches. The price lookup through OpenAI, its price parsing and the `toFixed(2)` totals are left out entirely. So are the price, vendor and cheapest-price list columns, which a later migration removed.
- Concurrency is not modelled. Read-modify-write races on lists and stock are outside a sequential model.
- Database errors are not modelled, apart from the bulk PUT case below: not-null and foreign-key violations, failed saves, and `findOne` with an `undefined` value in its where clause.
- Numbers are not floating point. Quantities, stock and thresholds are integers, and recipe ingredient quantities are reals. Prices stay in integer cents, so the division by 100 at item.js:39-41 is not modelled, and neither is `parseInt` of fractional counts.
- Column names follow the handlers, not models/*.js or the migrations. Where they disagree, the model does what the handler code says, and these consequences of the mismatch are not modelled:
  - The recipe GET at recipes.js:17 still selects `allowedUnits`, which migrations/20251014120000-remove-allowed-units-from-inventories.js dropped. Against the migrated schema that query fails and the route answers 500. The model instead returns the view the handler builds, without `allowedUnits`.
  - `Item.upsert` at item.js:97 writes the table `Items`: models/item.js:49 sets no table name, and its attributes have no `businessId`. migrations/20250705183546-rename-items-to-recipes.js renames `Items` to `Recipes`. Against the migrated schema, syncing a non-empty catalog therefore fails and answers 500. CatalogSync.Sync instead answers 200 and writes the catalog rows the handler builds.
  - `PendingPurchase.create` at pending-purchases.js:66-73 writes `cheapestUnitPrice` and `vendor`. models/pendingpurchases.js:35-42 declares both as not null, and migrations/20250706192000-remove-columns-from-pendingpurchases.js drops them. Against the migrated table, which lacks both columns, the create fails and the route answers 500. PendingPurchases.CreatePurchase instead answers 201 and stores the row without those columns.
  - models/pendingpurchases.js declares no `status` column; migrations/20250706195700-add-totalPrice-status-to-pendingpurchases.js adds one. PendingPurchases.CompletePurchase and PendingPurchases.DiffToShoppingList read and write it as the handlers do.
  - Neither models/inventory.js nor the migrated Inventories table has `unit` or `threshold`, which the ingredient handlers write. The model keeps both as columns of an inventory row.
- Ingredients.CreateIngredient: a body `quantityInStock` of `null` is treated like an absent one and stored as 0; the not-null violation the column would raise is not modelled.
- The notes column of the shopping list comes from a migration and is absent from models/shoppinglist.js. The handlers read a `null` notes column as `[]`, and so does the model.
- Several routes of the same routers are not modelled, as they are outside the modelled core:
  - the single and listing GET routes of pending purchases;
  - the recipes DELETE;
  - GET `/items`;
  - the duplicate sync function and `/sync` route inside order.js.
- ShoppingLists.AddToList requires the stored list to have as many quantities as item ids. On a misaligned list the source computes `NaN` or writes past the end, and that is not modelled.
- ShoppingLists.RemoveFromList requires the stored list to have as many quantities as item ids, for the same reason.
- PendingPurchases.DiffToShoppingList requires the stored list to have as many quantities as item ids, for the same reason.
- ShoppingLists.AddToList: the quantity is an integer from the body. A missing quantity, which makes the source compute `NaN`, is not modelled.
- ShoppingLists.AppendToList: a missing array gives 500. This stands for the TypeError (when the list exists) or the not-null error (when it is created), not for separate behaviours.
- Recipes.UpdateRecipe: the body can overwrite only the seven data columns. Keys naming the primary key, the business or an unknown column are not modelled.
- OrderWebhook.Reconcile: the catalog lookup takes the first row with the item's name and business, from a catalog that holds stock and threshold. This stands for the `Item` lookup the source intends.
- OrderWebhook.Event: the merchant id and line-item names are plain strings. An `undefined` value in a where clause is not modelled.
- CatalogSync.Sync: the random fallback id is drawn per catalog position, `draw(i) < 10^6`, whether or not it is used. An upsert failing part-way is not modelled, and neither is an item without `item_data`.
- CatalogSync.TotalMatchesCounts assumes that no (variation, location) pair is reported twice. Otherwise the last report wins, as CatalogSync.LastCountWins states.
- CatalogSync.ItemTotalIsReported makes the same assumption, for the same reason.
- Ingredients.DeleteIngredient removes a Recipe row, as the source does, even though the route sits in the ingredients router.

## Findings

| source | as written | input that shows it | evidently intended | confidence | as-written member | corrected member |
|---|---|---|---|---|---|---|
| endpoints/inventory/order.js:3 | `Item` is used at line 195 but only `Recipe`, `Business`, `ProcessedEvent` and `ShoppingList` are imported. The first line item throws, after the order was already marked processed, so the webhook answers 500 and every redelivery is skipped as 'Already processed' | a completed order with one line item "Bread", stock 2 below threshold 5 | look the item up and append the need (3 of item 42) to the list | not executed | OrderWebhook.ReconcileAsWritten, OrderWebhook.ItemLookupCounterexample, OrderWebhook.AsWrittenLosesOrder | OrderWebhook.Reconcile |
| endpoints/inventory/order.js:236-240 | an existing list is updated by spreading `cheapestUnitPrice`, `vendor` and `totalPrice`. The list model no longer has those columns, so spreading `undefined` throws | a completed order without line items for a business that already has a list | extend only the item ids and quantities | not executed | OrderWebhook.AsWrittenFailsOnExistingList | OrderWebhook.Reconcile |
