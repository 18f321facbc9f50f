/**
 * Recipes (endpoints/recipes/recipes.js): the recipe view that joins each
 * recipe's parallel ingredient arrays against the business's inventory,
 * recipe creation with its defaults, and the partial update.
 */
module Recipes {
  import opened Common
  import opened Store

  /** A rendered ingredient quantity: the number, or `''` when it is missing or 0. */
  datatype Cell = Num(value: real) | Blank

  /** One ingredient as the view shows it. */
  datatype IngredientView = IngredientView(title: string, unit: string, quantity: Cell)

  /** One recipe as the view shows it. */
  datatype RecipeView = RecipeView(
    id: int,
    title: Option<string>,
    unitCost: Option<Money>,
    ingredients: seq<IngredientView>,
    categories: seq<string>,
    variations: seq<int>)

  /** `inventoryMap[id].itemName || 'Unknown'`, the map holding the business's rows only. */
  function Title(s: Store, bid: BusinessId, ingredientId: int): (t: string)
    ensures t != ""
    ensures OwnsInventory(s, bid, ingredientId) && Truthy(s.inventory.rows[ingredientId].itemName)
            ==> t == s.inventory.rows[ingredientId].itemName.value
    ensures !(OwnsInventory(s, bid, ingredientId) && Truthy(s.inventory.rows[ingredientId].itemName))
            ==> t == "Unknown"
  {
    if OwnsInventory(s, bid, ingredientId) && Truthy(s.inventory.rows[ingredientId].itemName)
    then s.inventory.rows[ingredientId].itemName.value
    else "Unknown"
  }

  /** `(units && units[idx]) || ''` */
  function UnitAt(units: Option<seq<Option<string>>>, idx: nat): (u: string)
    ensures u != "" ==> units.Some? && idx < |units.value| && units.value[idx] == Some(u)
    ensures units.Some? && idx < |units.value| && Truthy(units.value[idx]) ==> u == units.value[idx].value
    ensures units.None? || idx >= |units.value| ==> u == ""
  {
    if units.Some? && idx < |units.value| && Truthy(units.value[idx]) then units.value[idx].value else ""
  }

  /** `quantities?.[idx] || ''` */
  function QuantityAt(quantities: Option<seq<Option<real>>>, idx: nat): (c: Cell)
    ensures c.Num? ==> c.value != 0.0 && quantities.Some? && idx < |quantities.value|
                       && quantities.value[idx] == Some(c.value)
    ensures (quantities.Some? && idx < |quantities.value| && quantities.value[idx].Some?
             && quantities.value[idx].value != 0.0) ==> c == Num(quantities.value[idx].value)
    ensures quantities.None? || idx >= |quantities.value| ==> c == Blank
  {
    if quantities.Some? && idx < |quantities.value| && quantities.value[idx].Some? && quantities.value[idx].value != 0.0
    then Num(quantities.value[idx].value)
    else Blank
  }

  /** The ingredient list of one recipe: one entry per ingredient id, in order. */
  function IngredientsView(s: Store, bid: BusinessId, r: Recipe): (v: seq<IngredientView>)
    ensures r.ingredients.None? ==> v == []
    ensures r.ingredients.Some? ==> |v| == |r.ingredients.value|
    ensures r.ingredients.Some? ==> forall idx :: 0 <= idx < |v| ==>
      v[idx] == IngredientView(Title(s, bid, r.ingredients.value[idx]),
                               UnitAt(r.ingredientsUnit, idx), QuantityAt(r.ingredientsQuantity, idx))
  {
    var ids := r.ingredients.GetOr([]);
    seq(|ids|, idx requires 0 <= idx < |ids| =>
      IngredientView(Title(s, bid, ids[idx]), UnitAt(r.ingredientsUnit, idx), QuantityAt(r.ingredientsQuantity, idx)))
  }

  function ViewOf(s: Store, bid: BusinessId, id: int, r: Recipe): RecipeView {
    RecipeView(id, r.itemName, r.unitCost, IngredientsView(s, bid, r), r.categories.GetOr([]), r.variations.GetOr([]))
  }

  /** GET `/`: every recipe of the caller's business, keyed by recipe id. */
  function ListRecipes(s: Store, bid: BusinessId): (r: Result<map<int, RecipeView>>)
    ensures bid == 0 <==> r == Failure(BadRequest)
    ensures r.Success? ==> forall id :: id in r.value <==> OwnsRecipe(s, bid, id)
    ensures r.Success? ==> forall id :: id in r.value ==>
      && id in s.recipes.rows
      && r.value[id].id == id
      && r.value[id].title == s.recipes.rows[id].itemName
      && r.value[id].unitCost == s.recipes.rows[id].unitCost
      && r.value[id].ingredients == IngredientsView(s, bid, s.recipes.rows[id])
      && r.value[id].categories == s.recipes.rows[id].categories.GetOr([])
      && r.value[id].variations == s.recipes.rows[id].variations.GetOr([])
  {
    if bid == 0 then Failure(BadRequest)
    else Success(map id | id in s.recipes.rows && s.recipes.rows[id].businessId == bid
                   :: ViewOf(s, bid, id, s.recipes.rows[id]))
  }

  /** A zero quantity renders as `''`, not as `0`. */
  lemma ZeroQuantityIsBlank(s: Store, bid: BusinessId, r: Recipe, idx: nat)
    requires r.ingredients.Some? && idx < |r.ingredients.value|
    requires r.ingredientsQuantity.Some? && idx < |r.ingredientsQuantity.value|
    requires r.ingredientsQuantity.value[idx] == Some(0.0)
    ensures IngredientsView(s, bid, r)[idx].quantity == Blank
  {
  }

  /** Another business's inventory never shows through: its names can change without changing the view. */
  lemma ViewIgnoresOtherBusinesses(s: Store, s2: Store, bid: BusinessId, r: Recipe)
    requires forall id :: OwnsInventory(s, bid, id) <==> OwnsInventory(s2, bid, id)
    requires forall id :: OwnsInventory(s, bid, id) && OwnsInventory(s2, bid, id)
                          ==> s.inventory.rows[id].itemName == s2.inventory.rows[id].itemName
    ensures IngredientsView(s, bid, r) == IngredientsView(s2, bid, r)
  {
    forall idx | 0 <= idx < |r.ingredients.GetOr([])|
      ensures Title(s, bid, r.ingredients.value[idx]) == Title(s2, bid, r.ingredients.value[idx])
    {
    }
  }

  /** The body of POST `/`. */
  datatype NewRecipe = NewRecipe(
    itemName: Option<string>,
    unitCost: Option<Money>,
    ingredients: Option<seq<int>>,
    ingredientsQuantity: Field<Option<seq<Option<real>>>>,
    ingredientsUnit: Option<seq<Option<string>>>,
    categories: Option<seq<string>>,
    variations: Option<seq<int>>)

  /**
   * POST `/`: a business, a name, the ingredient ids and their units are
   * required. An absent `ingredientsQuantity` takes the column default `[]`
   * (models/recipe.js); one given as `null` is stored as `null`.
   */
  function CreateRecipe(s: Store, bid: BusinessId, body: NewRecipe): (r: Response)
    ensures r.status == Created <==>
      bid != 0 && Truthy(body.itemName) && body.ingredients.Some? && body.ingredientsUnit.Some?
    ensures r.status != Created ==> r == Response(s, BadRequest)
    ensures r.status == Created ==>
      && r.store == s.(recipes := r.store.recipes)
      && r.store.recipes.next == s.recipes.next + 1
      && (forall id :: id != s.recipes.next ==> (id in r.store.recipes.rows <==> id in s.recipes.rows))
      && (forall id :: id != s.recipes.next && id in s.recipes.rows ==> r.store.recipes.rows[id] == s.recipes.rows[id])
      && s.recipes.next in r.store.recipes.rows
      && var row := r.store.recipes.rows[s.recipes.next];
         && row.businessId == bid && row.itemName == body.itemName && row.unitCost == body.unitCost
         && row.ingredients == body.ingredients
         && row.ingredientsQuantity == (if body.ingredientsQuantity.Given? then body.ingredientsQuantity.value else Some([]))
         && row.ingredientsUnit == body.ingredientsUnit
         && row.categories == Some(body.categories.GetOr([]))
         && row.variations == Some(body.variations.GetOr([]))
  {
    if bid == 0 || !Truthy(body.itemName) || body.ingredients.None? || body.ingredientsUnit.None? then
      Response(s, BadRequest)
    else
      var row := Recipe(bid, body.itemName, body.unitCost, body.ingredients, Merge(Some([]), body.ingredientsQuantity),
                        body.ingredientsUnit, Some(body.categories.GetOr([])), Some(body.variations.GetOr([])));
      Response(s.(recipes := s.recipes.Insert(row)), Created)
  }

  /** A created recipe shows up in the view of its business, with empty categories and variations by default. */
  lemma CreatedRecipeIsListed(s: Store, bid: BusinessId, body: NewRecipe)
    requires CreateRecipe(s, bid, body).status == Created
    requires body.categories.None? && body.variations.None?
    ensures var s2 := CreateRecipe(s, bid, body).store;
      var v := ListRecipes(s2, bid);
      && v.Success? && s.recipes.next in v.value
      && v.value[s.recipes.next].categories == []
      && v.value[s.recipes.next].variations == []
      && |v.value[s.recipes.next].ingredients| == |body.ingredients.value|
  {
  }

  /** A recipe created without quantities shows every ingredient's quantity blank, not missing. */
  lemma CreatedWithoutQuantitiesIsBlank(s: Store, bid: BusinessId, body: NewRecipe, idx: nat)
    requires CreateRecipe(s, bid, body).status == Created
    requires body.ingredientsQuantity.Absent? && idx < |body.ingredients.value|
    ensures var s2 := CreateRecipe(s, bid, body).store;
      && s2.recipes.rows[s.recipes.next].ingredientsQuantity == Some([])
      && IngredientsView(s2, bid, s2.recipes.rows[s.recipes.next])[idx].quantity == Blank
  {
  }

  /**
   * The body of PUT `/:id`: each column is absent (left alone) or given,
   * possibly as `null`.
   */
  datatype RecipePatch = RecipePatch(
    itemName: Field<Option<string>>,
    unitCost: Field<Option<Money>>,
    ingredients: Field<Option<seq<int>>>,
    ingredientsQuantity: Field<Option<seq<Option<real>>>>,
    ingredientsUnit: Field<Option<seq<Option<string>>>>,
    categories: Field<Option<seq<string>>>,
    variations: Field<Option<seq<int>>>)

  const NoChange := RecipePatch(Absent, Absent, Absent, Absent, Absent, Absent, Absent)

  /** Assign every given key of the patch onto the row. */
  function Apply(r: Recipe, p: RecipePatch): (r2: Recipe)
    ensures r2.businessId == r.businessId
    ensures p.itemName.Absent? ==> r2.itemName == r.itemName
    ensures p.itemName.Given? ==> r2.itemName == p.itemName.value
    ensures p.unitCost.Absent? ==> r2.unitCost == r.unitCost
    ensures p.unitCost.Given? ==> r2.unitCost == p.unitCost.value
    ensures p.ingredients.Absent? ==> r2.ingredients == r.ingredients
    ensures p.ingredients.Given? ==> r2.ingredients == p.ingredients.value
    ensures p.ingredientsQuantity.Absent? ==> r2.ingredientsQuantity == r.ingredientsQuantity
    ensures p.ingredientsQuantity.Given? ==> r2.ingredientsQuantity == p.ingredientsQuantity.value
    ensures p.ingredientsUnit.Absent? ==> r2.ingredientsUnit == r.ingredientsUnit
    ensures p.ingredientsUnit.Given? ==> r2.ingredientsUnit == p.ingredientsUnit.value
    ensures p.categories.Absent? ==> r2.categories == r.categories
    ensures p.categories.Given? ==> r2.categories == p.categories.value
    ensures p.variations.Absent? ==> r2.variations == r.variations
    ensures p.variations.Given? ==> r2.variations == p.variations.value
  {
    r.(itemName := Merge(r.itemName, p.itemName),
       unitCost := Merge(r.unitCost, p.unitCost),
       ingredients := Merge(r.ingredients, p.ingredients),
       ingredientsQuantity := Merge(r.ingredientsQuantity, p.ingredientsQuantity),
       ingredientsUnit := Merge(r.ingredientsUnit, p.ingredientsUnit),
       categories := Merge(r.categories, p.categories),
       variations := Merge(r.variations, p.variations))
  }

  /** PUT `/:id`: 400 without a business, 404 for a recipe the business does not own, else the patch. */
  function UpdateRecipe(s: Store, bid: BusinessId, id: int, p: RecipePatch): (r: Response)
    ensures bid == 0 ==> r == Response(s, BadRequest)
    ensures bid != 0 && !OwnsRecipe(s, bid, id) ==> r == Response(s, NotFound)
    ensures bid != 0 && OwnsRecipe(s, bid, id) ==>
      && r.status == OK
      && r.store == s.(recipes := r.store.recipes)
      && r.store.recipes.next == s.recipes.next
      && r.store.recipes.rows.Keys == s.recipes.rows.Keys
      && (forall k :: k in s.recipes.rows && k != id ==> r.store.recipes.rows[k] == s.recipes.rows[k])
      && r.store.recipes.rows[id] == Apply(s.recipes.rows[id], p)
      && OwnsRecipe(r.store, bid, id)
  {
    if bid == 0 then Response(s, BadRequest)
    else if !OwnsRecipe(s, bid, id) then Response(s, NotFound)
    else Response(s.(recipes := s.recipes.(rows := s.recipes.rows[id := Apply(s.recipes.rows[id], p)])), OK)
  }

  /** An empty body changes nothing. */
  lemma NoChangeIsIdentity(r: Recipe)
    ensures Apply(r, NoChange) == r
  {
  }

  /** Sending the same update twice is the same as sending it once. */
  lemma ApplyIdempotent(r: Recipe, p: RecipePatch)
    ensures Apply(Apply(r, p), p) == Apply(r, p)
  {
  }

  /** `q` after `p`: every key `q` gives, else what `p` gives. */
  function Then(p: RecipePatch, q: RecipePatch): RecipePatch {
    RecipePatch(
      if q.itemName.Given? then q.itemName else p.itemName,
      if q.unitCost.Given? then q.unitCost else p.unitCost,
      if q.ingredients.Given? then q.ingredients else p.ingredients,
      if q.ingredientsQuantity.Given? then q.ingredientsQuantity else p.ingredientsQuantity,
      if q.ingredientsUnit.Given? then q.ingredientsUnit else p.ingredientsUnit,
      if q.categories.Given? then q.categories else p.categories,
      if q.variations.Given? then q.variations else p.variations)
  }

  /** Two updates in a row are one update with the later keys winning. */
  lemma ApplyThen(r: Recipe, p: RecipePatch, q: RecipePatch)
    ensures Apply(Apply(r, p), q) == Apply(r, Then(p, q))
  {
  }

  /** A second update of the same recipe succeeds and composes with the first. */
  lemma UpdateTwice(s: Store, bid: BusinessId, id: int, p: RecipePatch, q: RecipePatch)
    requires bid != 0 && OwnsRecipe(s, bid, id)
    ensures UpdateRecipe(UpdateRecipe(s, bid, id, p).store, bid, id, q) == UpdateRecipe(s, bid, id, Then(p, q))
  {
    ApplyThen(s.recipes.rows[id], p, q);
  }
}
