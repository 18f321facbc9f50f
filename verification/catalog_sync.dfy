/**
 * Catalog sync (endpoints/inventory/item.js): reshape the point-of-sale
 * catalog and its per-location stock counts into Items rows. The two fetches
 * are inputs (`None` when a fetch fails); prices stay in integer cents.
 */
module CatalogSync {
  import opened Common
  import opened Store

  /** A catalog variation: its id, its name, and `price_money.amount` in cents. */
  datatype Variation = Variation(id: string, name: Option<string>, priceAmount: Option<int>)

  /** A catalog item with its variations (`variations = []` when absent). */
  datatype CatalogObject = CatalogObject(id: string, name: Option<string>, variations: seq<Variation>)

  /** One stock count: a variation at a location, already parsed to an integer. */
  datatype Count = Count(objectId: string, locationId: string, quantity: int)

  // ---------------------------------------------------------------- the count map

  /** One key of a per-variation count object: a location and its count. */
  datatype Entry = Entry(locationId: string, quantity: int)

  /** `countMap[objectId]`: the per-location counts of one variation, in key insertion order. */
  datatype Slot = Slot(objectId: string, entries: seq<Entry>)

  /** `m[loc]` */
  function Get(m: seq<Entry>, loc: string): Option<int> {
    if |m| == 0 then None
    else if m[0].locationId == loc then Some(m[0].quantity)
    else Get(m[1..], loc)
  }

  /** `m[loc] = q`: an existing key keeps its place, a new key goes last. */
  function Put(m: seq<Entry>, loc: string, q: int): (m2: seq<Entry>)
    ensures Get(m2, loc) == Some(q)
    ensures forall l :: l != loc ==> Get(m2, l) == Get(m, l)
    ensures |m2| > 0
    ensures Get(m, loc).None? ==> m2 == m + [Entry(loc, q)]
  {
    if |m| == 0 then [Entry(loc, q)]
    else if m[0].locationId == loc then [Entry(loc, q)] + m[1..]
    else
      [m[0]] + Put(m[1..], loc, q)
  }

  /** `countMap[v] || {}` */
  function EntriesOf(cm: seq<Slot>, v: string): seq<Entry> {
    if |cm| == 0 then []
    else if cm[0].objectId == v then cm[0].entries
    else EntriesOf(cm[1..], v)
  }

  /** One step of the counts loop: create the variation's object if missing, then set the location. */
  function Record(cm: seq<Slot>, c: Count): (cm2: seq<Slot>)
    ensures EntriesOf(cm2, c.objectId) == Put(EntriesOf(cm, c.objectId), c.locationId, c.quantity)
    ensures forall v :: v != c.objectId ==> EntriesOf(cm2, v) == EntriesOf(cm, v)
  {
    if |cm| == 0 then [Slot(c.objectId, Put([], c.locationId, c.quantity))]
    else if cm[0].objectId == c.objectId then
      [cm[0].(entries := Put(cm[0].entries, c.locationId, c.quantity))] + cm[1..]
    else [cm[0]] + Record(cm[1..], c)
  }

  /** The count map built from the counts in the order they arrived. */
  function BuildCountMap(counts: seq<Count>): (cm: seq<Slot>)
    ensures forall v :: (forall i :: 0 <= i < |counts| ==> counts[i].objectId != v) ==> EntriesOf(cm, v) == []
  {
    if |counts| == 0 then []
    else Record(BuildCountMap(counts[..|counts| - 1]), counts[|counts| - 1])
  }

  /** The quantity of the last count reported for a variation at a location. */
  function LastCount(counts: seq<Count>, v: string, loc: string): Option<int> {
    if |counts| == 0 then None
    else
      var c := counts[|counts| - 1];
      if c.objectId == v && c.locationId == loc then Some(c.quantity)
      else LastCount(counts[..|counts| - 1], v, loc)
  }

  /** The map holds one count per (variation, location), and a later count overwrites an earlier one. */
  lemma {:induction false} LastCountWins(counts: seq<Count>, v: string, loc: string)
    ensures Get(EntriesOf(BuildCountMap(counts), v), loc) == LastCount(counts, v, loc)
  {
    if |counts| > 0 {
      LastCountWins(counts[..|counts| - 1], v, loc);
    }
  }

  /** A variation's counts are empty exactly when no count names it. */
  lemma {:induction false} NoCountsEmpty(counts: seq<Count>, v: string)
    ensures EntriesOf(BuildCountMap(counts), v) == [] <==> forall i :: 0 <= i < |counts| ==> counts[i].objectId != v
  {
    if |counts| > 0 {
      var n := |counts| - 1;
      var cm := BuildCountMap(counts[..n]);
      assert BuildCountMap(counts) == Record(cm, counts[n]);
      if counts[n].objectId == v {
        assert EntriesOf(BuildCountMap(counts), v) != [];
      } else {
        assert EntriesOf(BuildCountMap(counts), v) == EntriesOf(cm, v);
        NoCountsEmpty(counts[..n], v);
        assert forall i :: 0 <= i < n ==> counts[..n][i] == counts[i];
      }
    }
  }

  /** The sum of a count object's values. */
  function Total(m: seq<Entry>): int {
    if |m| == 0 then 0 else Total(m[..|m| - 1]) + m[|m| - 1].quantity
  }

  /** The sum of every count reported for a variation. */
  function SumFor(counts: seq<Count>, v: string): int {
    if |counts| == 0 then 0
    else
      var c := counts[|counts| - 1];
      SumFor(counts[..|counts| - 1], v) + (if c.objectId == v then c.quantity else 0)
  }

  /** No (variation, location) pair is reported twice. */
  predicate PairsUnique(counts: seq<Count>) {
    forall i, j :: 0 <= i < j < |counts| ==>
      !(counts[i].objectId == counts[j].objectId && counts[i].locationId == counts[j].locationId)
  }

  lemma {:induction false} LastCountNone(counts: seq<Count>, v: string, loc: string)
    requires forall i :: 0 <= i < |counts| ==> !(counts[i].objectId == v && counts[i].locationId == loc)
    ensures LastCount(counts, v, loc).None?
  {
    if |counts| > 0 {
      var n := |counts| - 1;
      assert forall i :: 0 <= i < n ==> counts[..n][i] == counts[i];
      LastCountNone(counts[..n], v, loc);
    }
  }

  lemma TotalAppend(m: seq<Entry>, e: Entry)
    ensures Total(m + [e]) == Total(m) + e.quantity
  {
    assert (m + [e])[..|m|] == m;
  }

  /** The last count of a batch without repeated pairs is the first report for its pair. */
  lemma FreshLastPair(counts: seq<Count>)
    requires PairsUnique(counts) && |counts| > 0
    ensures var n := |counts| - 1;
      PairsUnique(counts[..n])
      && LastCount(counts[..n], counts[n].objectId, counts[n].locationId).None?
  {
    var n := |counts| - 1;
    var pre := counts[..n];
    assert forall i :: 0 <= i < n ==> pre[i] == counts[i];
    LastCountNone(pre, counts[n].objectId, counts[n].locationId);
  }

  /** When no pair repeats, a variation's total is the sum of all its reported counts. */
  lemma {:induction false} TotalMatchesCounts(counts: seq<Count>, v: string)
    requires PairsUnique(counts)
    ensures Total(EntriesOf(BuildCountMap(counts), v)) == SumFor(counts, v)
  {
    if |counts| > 0 {
      var n := |counts| - 1;
      var pre := counts[..n];
      var c := counts[n];
      FreshLastPair(counts);
      TotalMatchesCounts(pre, v);
      if c.objectId == v {
        var m := EntriesOf(BuildCountMap(pre), v);
        LastCountWins(pre, v, c.locationId);
        assert Put(m, c.locationId, c.quantity) == m + [Entry(c.locationId, c.quantity)];
        TotalAppend(m, Entry(c.locationId, c.quantity));
      }
    }
  }

  // ---------------------------------------------------------------- reshaping one item

  /** `price_money?.amount ? amount : 0`, in cents. */
  function Price(v: Variation): int {
    v.priceAmount.GetOr(0)
  }

  /** The item's stock: every count of every variation, summed. */
  function ItemTotal(vs: seq<Variation>, cm: seq<Slot>): (t: int)
    ensures (forall i :: 0 <= i < |vs| ==> EntriesOf(cm, vs[i].id) == []) ==> t == 0
  {
    if |vs| == 0 then 0 else ItemTotal(vs[..|vs| - 1], cm) + Total(EntriesOf(cm, vs[|vs| - 1].id))
  }

  /** Every count reported for any of the variations, summed. */
  function ReportedFor(vs: seq<Variation>, counts: seq<Count>): int {
    if |vs| == 0 then 0 else ReportedFor(vs[..|vs| - 1], counts) + SumFor(counts, vs[|vs| - 1].id)
  }

  /** When no pair repeats, an item's stock is the sum of the counts reported for its variations. */
  lemma {:induction false} ItemTotalIsReported(vs: seq<Variation>, counts: seq<Count>)
    requires PairsUnique(counts)
    ensures ItemTotal(vs, BuildCountMap(counts)) == ReportedFor(vs, counts)
  {
    if |vs| > 0 {
      ItemTotalIsReported(vs[..|vs| - 1], counts);
      TotalMatchesCounts(counts, vs[|vs| - 1].id);
    }
  }

  predicate IsDigit(c: char) {
    '0' <= c <= '9'
  }

  /** `s.replace(/\D/g, '')` */
  function Digits(s: string): (ds: string)
    ensures forall i :: 0 <= i < |ds| ==> IsDigit(ds[i])
    ensures |ds| <= |s|
  {
    if |s| == 0 then ""
    else (if IsDigit(s[0]) then [s[0]] else "") + Digits(s[1..])
  }

  lemma {:induction false} DigitsConcat(a: string, b: string)
    ensures Digits(a + b) == Digits(a) + Digits(b)
  {
    if |a| > 0 {
      assert (a + b)[1..] == a[1..] + b;
      DigitsConcat(a[1..], b);
    } else {
      assert a + b == b;
    }
  }

  function Pow10(k: nat): (p: nat)
    ensures p >= 1
  {
    if k == 0 then 1 else 10 * Pow10(k - 1)
  }

  /** `parseInt` of a string of decimal digits (leading zeros allowed). */
  function ParseDecimal(ds: string): (n: nat)
    requires forall i :: 0 <= i < |ds| ==> IsDigit(ds[i])
    ensures n < Pow10(|ds|)
  {
    if |ds| == 0 then 0
    else
      var k := |ds| - 1;
      var hi := ParseDecimal(ds[..k]);
      var d := ds[k] as int - '0' as int;
      assert IsDigit(ds[k]);
      assert hi * 10 + d < Pow10(|ds|) by {
        assert hi + 1 <= Pow10(k);
        assert (hi + 1) * 10 <= Pow10(k) * 10;
      }
      hi * 10 + d
  }

  /** A string of digits parses to zero exactly when every digit is `'0'`. */
  lemma {:induction false} ParseZeroIff(ds: string)
    requires forall i :: 0 <= i < |ds| ==> IsDigit(ds[i])
    ensures ParseDecimal(ds) == 0 <==> forall i :: 0 <= i < |ds| ==> ds[i] == '0'
  {
    if |ds| > 0 {
      var n := |ds| - 1;
      ParseZeroIff(ds[..n]);
      assert forall i :: 0 <= i < n ==> ds[..n][i] == ds[i];
    }
  }

  /** The decimal digits of `n`, without leading zeros. */
  function Decimal(n: nat): (ds: string)
    ensures |ds| > 0 && forall i :: 0 <= i < |ds| ==> IsDigit(ds[i])
  {
    if n < 10 then [('0' as int + n) as char]
    else Decimal(n / 10) + [('0' as int + n % 10) as char]
  }

  lemma {:induction false} DecimalRoundTrip(n: nat)
    ensures ParseDecimal(Decimal(n)) == n
    ensures Digits(Decimal(n)) == Decimal(n)
    ensures forall k: nat :: n < Pow10(k) ==> |Decimal(n)| <= k || n == 0
  {
    var ds := Decimal(n);
    if n < 10 {
      assert ds[..0] == "";
      assert ds[1..] == "";
      forall k: nat | n < Pow10(k) && n != 0 ensures |ds| <= k {
        assert k != 0;
      }
    } else {
      var hi := Decimal(n / 10);
      DecimalRoundTrip(n / 10);
      assert ds[..|ds| - 1] == hi;
      DigitsConcat(hi, [ds[|ds| - 1]]);
      forall k: nat | n < Pow10(k) ensures |ds| <= k {
        assert k != 0;
        assert n / 10 < Pow10(k - 1);
      }
    }
  }

  /** The first nine digits of a point-of-sale id. */
  function IdDigits(squareId: string): (ds: string)
    ensures |ds| <= 9 && forall i :: 0 <= i < |ds| ==> IsDigit(ds[i])
  {
    var all := Digits(squareId);
    if |all| <= 9 then all else all[..9]
  }

  const MaxRandomId := 1000000

  /**
   * `parseInt(id.replace(/\D/g, '').slice(0, 9)) || Math.floor(Math.random() * 1e6)`,
   * with the random draw passed in: the parse of at most nine digits, unless
   * it is `NaN` (no digits) or 0, when the draw is used instead.
   */
  function DeriveItemId(squareId: string, random: nat): (n: int)
    requires random < MaxRandomId
    ensures 0 <= n < 1000000000
    ensures (forall i :: 0 <= i < |IdDigits(squareId)| ==> IdDigits(squareId)[i] == '0') ==> n == random
    ensures !(forall i :: 0 <= i < |IdDigits(squareId)| ==> IdDigits(squareId)[i] == '0') ==> n > 0
  {
    var ds := IdDigits(squareId);
    ParseZeroIff(ds);
    assert Pow10(|ds|) <= 1000000000 by { Pow10Mono(|ds|, 9); }
    var parsed := ParseDecimal(ds);
    if parsed == 0 then random else parsed
  }

  lemma {:induction false} Pow10Mono(j: nat, k: nat)
    requires j <= k
    ensures Pow10(j) <= Pow10(k)
  {
    if j < k {
      Pow10Mono(j, k - 1);
    }
  }

  /** An id whose only digits spell a number below 10^9 derives exactly that number. */
  lemma DeriveFromDecimal(prefix: string, n: nat, random: nat)
    requires 0 < n < 1000000000 && random < MaxRandomId
    requires Digits(prefix) == ""
    ensures DeriveItemId(prefix + Decimal(n), random) == n
  {
    DigitsConcat(prefix, Decimal(n));
    DecimalRoundTrip(n);
    assert Pow10(9) == 1000000000;
    assert Digits(prefix + Decimal(n)) == Decimal(n);
  }

  /** Stripping non-digits leaves a string of digits as it is. */
  lemma {:induction false} DigitsOfDigits(ds: string)
    requires forall i :: 0 <= i < |ds| ==> IsDigit(ds[i])
    ensures Digits(ds) == ds
  {
    if |ds| > 0 {
      assert IsDigit(ds[0]);
      DigitsOfDigits(ds[1..]);
    }
  }

  /** `parseInt` ignores leading zeros: `"0042"` parses as `"42"`. */
  lemma {:induction false} LeadingZerosIgnored(zs: string, ds: string)
    requires forall i :: 0 <= i < |zs| ==> zs[i] == '0'
    requires forall i :: 0 <= i < |ds| ==> IsDigit(ds[i])
    ensures ParseDecimal(zs + ds) == ParseDecimal(ds)
  {
    if |ds| == 0 {
      assert zs + ds == zs;
      ParseZeroIff(zs);
    } else {
      var k := |ds| - 1;
      assert (zs + ds)[..|zs| + k] == zs + ds[..k];
      assert (zs + ds)[|zs| + k] == ds[k];
      LeadingZerosIgnored(zs, ds[..k]);
    }
  }

  /** An id such as `"sq-0042"`: zeros before the number do not change the derived id. */
  lemma DeriveWithLeadingZeros(prefix: string, zs: string, n: nat, random: nat)
    requires 0 < n && random < MaxRandomId
    requires Digits(prefix) == "" && forall i :: 0 <= i < |zs| ==> zs[i] == '0'
    requires |zs| + |Decimal(n)| <= 9
    ensures DeriveItemId(prefix + (zs + Decimal(n)), random) == n
  {
    var ds := zs + Decimal(n);
    DecimalRoundTrip(n);
    DigitsOfDigits(ds);
    DigitsConcat(prefix, ds);
    assert IdDigits(prefix + ds) == ds;
    LeadingZerosIgnored(zs, Decimal(n));
  }

  /** Only the first nine digits matter: whatever follows them is ignored. */
  lemma DeriveIgnoresTail(s: string, t: string, random: nat)
    requires random < MaxRandomId && |Digits(s)| >= 9
    ensures DeriveItemId(s + t, random) == DeriveItemId(s, random)
  {
    DigitsConcat(s, t);
    assert (Digits(s) + Digits(t))[..9] == Digits(s)[..9];
    assert IdDigits(s + t) == IdDigits(s);
  }

  /** The Items row for one catalog item, with every default the sync applies. */
  function ToRecord(obj: CatalogObject, cm: seq<Slot>, bid: BusinessId, random: nat): (r: ItemRecord)
    requires random < MaxRandomId
    ensures r.itemId == DeriveItemId(obj.id, random)
    ensures r.itemName == (if Truthy(obj.name) then obj.name.value else "Unnamed")
    ensures r.unitCost == (if |obj.variations| > 0 then obj.variations[0].priceAmount.GetOr(0) else 0)
    ensures r.unit == (if |obj.variations| > 0 && Truthy(obj.variations[0].name)
                       then obj.variations[0].name.value else "unit")
    ensures r.quantityInStock == ItemTotal(obj.variations, cm)
    ensures r.vendor == "" && r.isPerishable == "N" && r.businessId == bid
  {
    var first := if |obj.variations| > 0 then Some(obj.variations[0]) else None;
    var unitCost := if first.Some? then Price(first.value) else 0;
    var unit := if first.Some? then first.value.name else Some("");
    ItemRecord(
      DeriveItemId(obj.id, random),
      if Truthy(obj.name) then obj.name.value else "Unnamed",
      unitCost,
      "",
      if Truthy(unit) then unit.value else "unit",
      ItemTotal(obj.variations, cm),
      "N",
      bid)
  }

  // ---------------------------------------------------------------- the sync

  /** No later row in `recs` has the same item id as row `j`. */
  predicate LastWithId(recs: seq<ItemRecord>, j: int) {
    0 <= j < |recs| && forall j2 :: j < j2 < |recs| ==> recs[j2].itemId != recs[j].itemId
  }

  /** `Item.upsert` of each row in turn, keyed by item id. */
  function UpsertAll(items: map<int, ItemRecord>, recs: seq<ItemRecord>): map<int, ItemRecord> {
    if |recs| == 0 then items
    else UpsertAll(items, recs[..|recs| - 1])[recs[|recs| - 1].itemId := recs[|recs| - 1]]
  }

  /** The keys after upserting: the old ones and every upserted id. */
  lemma {:induction false} UpsertAllKeys(items: map<int, ItemRecord>, recs: seq<ItemRecord>)
    ensures forall k :: k in UpsertAll(items, recs) <==> k in items || exists j :: 0 <= j < |recs| && recs[j].itemId == k
  {
    if |recs| > 0 {
      var n := |recs| - 1;
      UpsertAllKeys(items, recs[..n]);
      assert forall j :: 0 <= j < n ==> recs[..n][j] == recs[j];
    }
  }

  /** An id holds the last row upserted under it. */
  lemma {:induction false} UpsertAllLast(items: map<int, ItemRecord>, recs: seq<ItemRecord>, j: int)
    requires LastWithId(recs, j)
    ensures recs[j].itemId in UpsertAll(items, recs) && UpsertAll(items, recs)[recs[j].itemId] == recs[j]
  {
    var n := |recs| - 1;
    if j < n {
      assert LastWithId(recs[..n], j) by {
        assert forall j2 :: j < j2 < n ==> recs[..n][j2] == recs[j2];
      }
      UpsertAllLast(items, recs[..n], j);
    }
  }

  /** An id never upserted keeps its row. */
  lemma {:induction false} UpsertAllKeeps(items: map<int, ItemRecord>, recs: seq<ItemRecord>, k: int)
    requires k in items && forall j :: 0 <= j < |recs| ==> recs[j].itemId != k
    ensures k in UpsertAll(items, recs) && UpsertAll(items, recs)[k] == items[k]
  {
    if |recs| > 0 {
      var n := |recs| - 1;
      assert forall j :: 0 <= j < n ==> recs[..n][j] == recs[j];
      UpsertAllKeeps(items, recs[..n], k);
    }
  }

  /** `Business.findByPk(id)` */
  function FindById(bs: seq<Business>, bid: BusinessId): (r: Option<Business>)
    ensures r.Some? ==> r.value in bs && r.value.id == bid
    ensures r.None? <==> forall b :: b in bs ==> b.id != bid
  {
    if |bs| == 0 then None
    else if bs[0].id == bid then Some(bs[0])
    else FindById(bs[1..], bid)
  }

  /** The business can sync: it exists and holds an access token. */
  predicate Connected(s: Store, bid: BusinessId) {
    var b := FindById(s.businesses, bid);
    b.Some? && Truthy(b.value.accessToken)
  }

  /** The rows of a catalog, in catalog order, the i-th drawing `draw(i)` if it needs a random id. */
  function Records(objs: seq<CatalogObject>, cm: seq<Slot>, bid: BusinessId, draw: nat -> nat): (recs: seq<ItemRecord>)
    requires forall i :: draw(i) < MaxRandomId
    ensures |recs| == |objs|
    ensures forall i :: 0 <= i < |objs| ==> recs[i] == ToRecord(objs[i], cm, bid, draw(i))
  {
    seq(|objs|, i requires 0 <= i < |objs| => ToRecord(objs[i], cm, bid, draw(i)))
  }

  /**
   * POST `/sync`. `catalog` is the fetched catalog objects (`None` when the
   * fetch fails, `[]` when it has none), `counts` likewise for the stock
   * counts, and `draw(i)` is the random fallback id for the i-th item. Only
   * the Items table changes.
   */
  function Sync(s: Store, bid: BusinessId, catalog: Option<seq<CatalogObject>>, counts: Option<seq<Count>>,
                draw: nat -> nat): (r: Response)
    requires forall i :: draw(i) < MaxRandomId
    ensures !Connected(s, bid) ==> r == Response(s, BadRequest)
    ensures Connected(s, bid) && (catalog.None? || counts.None?) ==> r == Response(s, ServerError)
    ensures Connected(s, bid) && catalog.Some? && counts.Some? ==>
      r.status == OK && r.store == s.(items := r.store.items)
  {
    if !Connected(s, bid) then Response(s, BadRequest)
    else if catalog.None? || counts.None? then Response(s, ServerError)
    else
      var recs := Records(catalog.value, BuildCountMap(counts.value), bid, draw);
      Response(s.(items := UpsertAll(s.items, recs)), OK)
  }

  /** The id the i-th catalog item is stored under. */
  function IdAt(objs: seq<CatalogObject>, draw: nat -> nat, i: int): int
    requires 0 <= i < |objs| && forall i :: draw(i) < MaxRandomId
  {
    DeriveItemId(objs[i].id, draw(i))
  }

  /** After a successful sync the Items keys are the old ones plus every derived id. */
  lemma SyncKeys(s: Store, bid: BusinessId, objs: seq<CatalogObject>, counts: seq<Count>, draw: nat -> nat)
    requires forall i :: draw(i) < MaxRandomId
    requires Connected(s, bid)
    ensures var items := Sync(s, bid, Some(objs), Some(counts), draw).store.items;
      forall k :: k in items <==> k in s.items || exists i :: 0 <= i < |objs| && IdAt(objs, draw, i) == k
  {
    var recs := Records(objs, BuildCountMap(counts), bid, draw);
    UpsertAllKeys(s.items, recs);
    assert forall i :: 0 <= i < |objs| ==> recs[i].itemId == IdAt(objs, draw, i);
  }

  /** Each catalog item whose id no later item repeats is stored as reshaped, stock from the count map. */
  lemma SyncStores(s: Store, bid: BusinessId, objs: seq<CatalogObject>, counts: seq<Count>, draw: nat -> nat, i: nat)
    requires forall i :: draw(i) < MaxRandomId
    requires Connected(s, bid)
    requires i < |objs| && forall i2 :: i < i2 < |objs| ==> IdAt(objs, draw, i2) != IdAt(objs, draw, i)
    ensures var items := Sync(s, bid, Some(objs), Some(counts), draw).store.items;
      IdAt(objs, draw, i) in items && items[IdAt(objs, draw, i)] == ToRecord(objs[i], BuildCountMap(counts), bid, draw(i))
  {
    var recs := Records(objs, BuildCountMap(counts), bid, draw);
    forall i2 | i < i2 < |recs| ensures recs[i2].itemId != recs[i].itemId {
      assert recs[i2].itemId == IdAt(objs, draw, i2);
    }
    UpsertAllLast(s.items, recs, i);
    assert Sync(s, bid, Some(objs), Some(counts), draw).store.items == UpsertAll(s.items, recs);
  }

  /** Rows whose id no catalog item derives are left as they were. */
  lemma SyncKeepsOthers(s: Store, bid: BusinessId, objs: seq<CatalogObject>, counts: seq<Count>, draw: nat -> nat,
                        k: int)
    requires forall i :: draw(i) < MaxRandomId
    requires Connected(s, bid)
    requires k in s.items && forall i :: 0 <= i < |objs| ==> IdAt(objs, draw, i) != k
    ensures var items := Sync(s, bid, Some(objs), Some(counts), draw).store.items;
      k in items && items[k] == s.items[k]
  {
    var recs := Records(objs, BuildCountMap(counts), bid, draw);
    forall j | 0 <= j < |recs| ensures recs[j].itemId != k {
      assert recs[j].itemId == IdAt(objs, draw, j);
    }
    UpsertAllKeeps(s.items, recs, k);
    assert Sync(s, bid, Some(objs), Some(counts), draw).store.items == UpsertAll(s.items, recs);
  }
}
