/** The pricing-adjustment controller: base-price resolution, the price
    formula, the upsert of one adjustment, deletion by id and the listing of
    a profile's adjustments. */
module PricingAdjustment {
  import opened Wrappers
  import opened Seqs
  import opened Money
  import opened Db

  // ---------------------------------------------------------------------
  // Base-price resolution (getBasedOnPrice)
  // ---------------------------------------------------------------------

  /** The reference means "wholesale price": absent, empty or `"Global"`. */
  predicate IsGlobal(basedOnId: Option<Id>)
  {
    !Truthy(basedOnId) || basedOnId.value == "Global"
  }

  /** One entry of the batch answer. */
  datatype BasedPrice = BasedPrice(id: Id, basedPrice: int)

  /** `e` is a correct answer for its product: the price of the adjustment
      for (product, reference) when the reference is not global and such an
      adjustment exists, the product's wholesale price otherwise. */
  predicate CorrectEntry(s: Store, basedOnId: Option<Id>, e: BasedPrice)
  {
    match FindProduct(s.products, e.id)
    case None => false
    case Some(p) =>
      if !IsGlobal(basedOnId) && FindAdjustment(s.adjustments, e.id, basedOnId.value).Some? then
        e.basedPrice == FindAdjustment(s.adjustments, e.id, basedOnId.value).value.price
      else
        e.basedPrice == p.wholesalePrice
  }

  function EntryIds(entries: seq<BasedPrice>): (ids: seq<Id>)
    ensures |ids| == |entries|
    ensures forall i :: 0 <= i < |entries| ==> ids[i] == entries[i].id
  {
    seq(|entries|, i requires 0 <= i < |entries| => entries[i].id)
  }

  function AsSeq<T>(o: Option<T>): (r: seq<T>)
    ensures |r| <= 1
    ensures o.Some? ==> r == [o.value]
  {
    match o
    case None => []
    case Some(x) => [x]
  }

  lemma EntryIdsCons(e: BasedPrice, rest: seq<BasedPrice>)
    ensures EntryIds([e] + rest) == [e.id] + EntryIds(rest)
  {
  }

  /** The based price of one known product: its wholesale price against a
      global reference, otherwise the price of the adjustment for (product,
      reference), falling back to the wholesale price when there is none. */
  function ResolveBasedPrice(adjustments: seq<Adjustment>, basedOnId: Option<Id>, p: Product): (r: int)
    ensures IsGlobal(basedOnId) ==> r == p.wholesalePrice
    ensures !IsGlobal(basedOnId) && FindAdjustment(adjustments, p.id, basedOnId.value).None?
      ==> r == p.wholesalePrice
    ensures !IsGlobal(basedOnId) && FindAdjustment(adjustments, p.id, basedOnId.value).Some?
      ==> r == FindAdjustment(adjustments, p.id, basedOnId.value).value.price
  {
    if IsGlobal(basedOnId) then p.wholesalePrice
    else
      match FindAdjustment(adjustments, p.id, basedOnId.value)
      case None => p.wholesalePrice
      case Some(a) => a.price
  }

  /** The answer for one requested id; none when no product has it. */
  function Entry(s: Store, basedOnId: Option<Id>, id: Id): (r: Option<BasedPrice>)
    ensures r.Some? <==> ProductExists(s, id)
    ensures r.Some? ==> r.value.id == id && CorrectEntry(s, basedOnId, r.value)
  {
    match FindProduct(s.products, id)
    case None => None
    case Some(p) => Some(BasedPrice(id, ResolveBasedPrice(s.adjustments, basedOnId, p)))
  }

  /** `getBasedOnPrice`: map each requested id to its based price and drop
      the ids no product has. */
  function GetBasedOnPrice(s: Store, basedOnId: Option<Id>, productIds: seq<Id>): (r: seq<BasedPrice>)
    ensures |r| <= |productIds|
  {
    if productIds == [] then []
    else AsSeq(Entry(s, basedOnId, productIds[0])) + GetBasedOnPrice(s, basedOnId, productIds[1..])
  }

  /** Every answer is the correctly resolved based price of its product. */
  lemma {:induction false} GetBasedOnPriceIsCorrect(s: Store, basedOnId: Option<Id>, productIds: seq<Id>)
    ensures forall e :: e in GetBasedOnPrice(s, basedOnId, productIds) ==> CorrectEntry(s, basedOnId, e)
  {
    if productIds != [] {
      GetBasedOnPriceIsCorrect(s, basedOnId, productIds[1..]);
    }
  }

  /** The batch answers exactly the requested ids that name a product, in
      request order; unknown ids are dropped without error. */
  lemma {:induction false} GetBasedOnPriceKeepsKnownIds(s: Store, basedOnId: Option<Id>, productIds: seq<Id>)
    ensures EntryIds(GetBasedOnPrice(s, basedOnId, productIds))
         == Filter(productIds, (id: Id) => ProductExists(s, id))
  {
    if productIds != [] {
      var rest := GetBasedOnPrice(s, basedOnId, productIds[1..]);
      GetBasedOnPriceKeepsKnownIds(s, basedOnId, productIds[1..]);
      FilterStep(productIds, (id: Id) => ProductExists(s, id));
      assert GetBasedOnPrice(s, basedOnId, productIds) == AsSeq(Entry(s, basedOnId, productIds[0])) + rest;
      if ProductExists(s, productIds[0]) {
        EntryIdsCons(Entry(s, basedOnId, productIds[0]).value, rest);
      } else {
        assert [] + rest == rest;
      }
    }
  }

  /** Each requested id is resolved on its own: a batch is the
      concatenation of its parts. */
  lemma {:induction false} GetBasedOnPriceAppend(s: Store, basedOnId: Option<Id>, xs: seq<Id>, ys: seq<Id>)
    ensures GetBasedOnPrice(s, basedOnId, xs + ys)
         == GetBasedOnPrice(s, basedOnId, xs) + GetBasedOnPrice(s, basedOnId, ys)
  {
    if xs == [] {
      assert xs + ys == ys;
    } else {
      var zs := xs + ys;
      assert zs[0] == xs[0] && zs[1..] == xs[1..] + ys;
      GetBasedOnPriceAppend(s, basedOnId, xs[1..], ys);
      var h := AsSeq(Entry(s, basedOnId, xs[0]));
      var a, b := GetBasedOnPrice(s, basedOnId, xs[1..]), GetBasedOnPrice(s, basedOnId, ys);
      assert h + (a + b) == (h + a) + b;
    }
  }

  /** Against a reference that names no stored profile, every answer is the
      wholesale price: no adjustment can belong to such a profile. */
  lemma UnknownReferenceIsWholesale(s: Store, basedOnId: Option<Id>, productIds: seq<Id>)
    requires Valid(s)
    requires basedOnId.Some? && !ProfileExists(s, basedOnId.value)
    ensures forall e :: e in GetBasedOnPrice(s, basedOnId, productIds) ==>
      FindProduct(s.products, e.id).Some? && e.basedPrice == FindProduct(s.products, e.id).value.wholesalePrice
  {
    GetBasedOnPriceIsCorrect(s, basedOnId, productIds);
    forall e | e in GetBasedOnPrice(s, basedOnId, productIds)
      ensures FindProduct(s.products, e.id).Some?
      ensures e.basedPrice == FindProduct(s.products, e.id).value.wholesalePrice
    {
      assert CorrectEntry(s, basedOnId, e);
    }
  }

  // ---------------------------------------------------------------------
  // The price formula of create
  // ---------------------------------------------------------------------

  /** An exact amount of `num / den` cents. */
  datatype Exact = Exact(num: int, den: int)

  /** The change applied to the based price: in `dynamic` mode the value is a
      percentage of the based price, rounded to the cent; in any other mode
      it is the value itself. */
  function Change(basedPrice: int, value: Decimal, mode: string): (c: Exact)
    ensures c.den >= 1
    ensures mode == "dynamic" ==>
      c.den == 1 && IsRoundHalfAway(value.digits * basedPrice, 100 * Pow10(value.scale), c.num)
    ensures mode != "dynamic" ==> c.num * Pow10(value.scale) == 100 * value.digits * c.den
  {
    if mode == "dynamic" then
      Exact(RoundHalfAway(value.digits * basedPrice, 100 * Pow10(value.scale)), 1)
    else
      Exact(100 * value.digits, Pow10(value.scale))
  }

  /** The adjusted price: based price plus the change for `"increase"`, minus
      it for any other increment, rounded to the cent. */
  function AdjustedPrice(basedPrice: int, value: Decimal, mode: string, increment: string): (price: int)
    ensures var c := Change(basedPrice, value, mode);
      IsRoundHalfAway(
        if increment == "increase" then basedPrice * c.den + c.num else basedPrice * c.den - c.num,
        c.den, price)
  {
    var c := Change(basedPrice, value, mode);
    if increment == "increase" then RoundHalfAway(basedPrice * c.den + c.num, c.den)
    else RoundHalfAway(basedPrice * c.den - c.num, c.den)
  }

  /** In `dynamic` mode the change is already whole cents, so the final
      rounding does not move the price. */
  lemma DynamicPriceIsExact(basedPrice: int, value: Decimal, increment: string)
    ensures var change := RoundHalfAway(value.digits * basedPrice, 100 * Pow10(value.scale));
      AdjustedPrice(basedPrice, value, "dynamic", increment)
        == if increment == "increase" then basedPrice + change else basedPrice - change
  {
    var c := Change(basedPrice, value, "dynamic");
    var exact := if increment == "increase" then basedPrice + c.num else basedPrice - c.num;
    RoundHalfAwayExact(exact, 1);
  }

  /** A fixed value given to the cent is added or subtracted exactly. */
  lemma FixedCentsPriceIsExact(basedPrice: int, value: Decimal, mode: string, increment: string)
    requires mode != "dynamic" && value.scale <= 2
    ensures var cents := value.digits * Pow10(2 - value.scale);
      AdjustedPrice(basedPrice, value, mode, increment)
        == if increment == "increase" then basedPrice + cents else basedPrice - cents
  {
    var d := Pow10(value.scale);
    var cents := value.digits * Pow10(2 - value.scale);
    assert 100 == Pow10(2 - value.scale) * d by {
      assert Pow10(1) == 10;
      assert Pow10(2) == 100;
    }
    assert 100 * value.digits == cents * d;
    var c := Change(basedPrice, value, mode);
    if increment == "increase" {
      assert basedPrice * d + c.num == (basedPrice + cents) * d;
      RoundHalfAwayExact(basedPrice + cents, d);
    } else {
      assert basedPrice * d - c.num == (basedPrice - cents) * d;
      RoundHalfAwayExact(basedPrice - cents, d);
    }
  }

  /** A non-negative value never moves the price against its increment. */
  lemma PriceMovesWithIncrement(basedPrice: int, value: Decimal, mode: string)
    requires basedPrice >= 0 && value.digits >= 0
    ensures AdjustedPrice(basedPrice, value, mode, "increase") >= basedPrice
    ensures AdjustedPrice(basedPrice, value, mode, "decrease") <= basedPrice
  {
    var c := Change(basedPrice, value, mode);
    assert c.num >= 0 by {
      if mode == "dynamic" {
        RoundHalfAwayMonotone(0, value.digits * basedPrice, 100 * Pow10(value.scale));
        RoundHalfAwayExact(0, 100 * Pow10(value.scale));
      }
    }
    RoundHalfAwayExact(basedPrice, c.den);
    RoundHalfAwayMonotone(basedPrice * c.den, basedPrice * c.den + c.num, c.den);
    RoundHalfAwayMonotone(basedPrice * c.den - c.num, basedPrice * c.den, c.den);
  }

  /** In `dynamic` mode an increase and a decrease by the same value move
      the price by the same amount. */
  lemma DynamicChangeIsSymmetric(basedPrice: int, value: Decimal)
    ensures AdjustedPrice(basedPrice, value, "dynamic", "increase") - basedPrice
         == basedPrice - AdjustedPrice(basedPrice, value, "dynamic", "decrease")
  {
    DynamicPriceIsExact(basedPrice, value, "increase");
    DynamicPriceIsExact(basedPrice, value, "decrease");
  }

  /** Two worked examples of the formula: 100.00 raised by 10 % in dynamic
      mode is 110.00, the documented response example; 100.00 lowered by a
      fixed 15 is 85.00. */
  lemma PriceExamples()
    ensures AdjustedPrice(10000, Decimal(10, 0), "dynamic", "increase") == 11000
    ensures AdjustedPrice(10000, Decimal(15, 0), "fixed", "decrease") == 8500
  {
    TenPercentTwice();
    FixedCentsPriceIsExact(10000, Decimal(15, 0), "fixed", "decrease");
  }

  // ---------------------------------------------------------------------
  // Creating or replacing an adjustment (create)
  // ---------------------------------------------------------------------

  /** The fields `create` computes, everything of an adjustment but its id. */
  datatype AdjustmentData = AdjustmentData(
    productId: Id,
    pricingProfileId: Id,
    basedPrice: int,
    adjustmentValue: Decimal,
    price: int)
  {
    function WithId(id: Id): (a: Adjustment)
      ensures a.id == id && IsFor(a, productId, pricingProfileId)
      ensures a.basedPrice == basedPrice && a.adjustmentValue == adjustmentValue && a.price == price
    {
      Adjustment(id, productId, pricingProfileId, basedPrice, adjustmentValue, price)
    }
  }

  /** Replace the record for the same (product, profile) pair in place,
      keeping its id, or append a record with the fresh id. */
  function Upsert(adjustments: seq<Adjustment>, d: AdjustmentData, freshId: Id): (r: (seq<Adjustment>, Adjustment))
    ensures var (after, stored) := r;
      && stored == d.WithId(stored.id)
      && match FindAdjustmentIndex(adjustments, d.productId, d.pricingProfileId)
         case Some(i) =>
           && |after| == |adjustments|
           && stored.id == adjustments[i].id
           && after[i] == stored
           && (forall j :: 0 <= j < |adjustments| && j != i ==> after[j] == adjustments[j])
         case None =>
           stored.id == freshId && after == adjustments + [stored]
  {
    match FindAdjustmentIndex(adjustments, d.productId, d.pricingProfileId)
    case None =>
      var stored := d.WithId(freshId);
      (adjustments + [stored], stored)
    case Some(i) =>
      var stored := d.WithId(adjustments[i].id);
      (adjustments[i := stored], stored)
  }

  /** After an upsert the pair's lookup finds the stored record. */
  lemma UpsertIsFound(adjustments: seq<Adjustment>, d: AdjustmentData, freshId: Id)
    ensures var (after, stored) := Upsert(adjustments, d, freshId);
      FindAdjustment(after, d.productId, d.pricingProfileId) == Some(stored)
  {
    var (after, stored) := Upsert(adjustments, d, freshId);
    match FindAdjustmentIndex(adjustments, d.productId, d.pricingProfileId)
    case None =>
      assert after[|adjustments|] == stored;
      var k := FindAdjustmentIndex(after, d.productId, d.pricingProfileId);
      assert k.Some? && k.value == |adjustments|;
    case Some(i) =>
      var k := FindAdjustmentIndex(after, d.productId, d.pricingProfileId);
      assert k.Some? && k.value == i by {
        assert IsFor(after[i], d.productId, d.pricingProfileId);
        assert forall j :: 0 <= j < i ==> after[j] == adjustments[j];
      }
  }

  /** An upsert does not change the lookup of any other pair. */
  lemma UpsertKeepsOtherPairs(adjustments: seq<Adjustment>, d: AdjustmentData, freshId: Id, productId: Id, profileId: Id)
    requires productId != d.productId || profileId != d.pricingProfileId
    ensures FindAdjustment(Upsert(adjustments, d, freshId).0, productId, profileId)
         == FindAdjustment(adjustments, productId, profileId)
  {
    var (after, stored) := Upsert(adjustments, d, freshId);
    var p := (a: Adjustment) => IsFor(a, productId, profileId);
    match FindAdjustmentIndex(adjustments, d.productId, d.pricingProfileId)
    case None =>
      FindFirstAppend(adjustments, p, stored);
    case Some(i) =>
      assert after == adjustments[i := stored];
      FindFirstUpdate(adjustments, p, i, stored);
  }

  /** An upsert keeps at most one record per pair. */
  lemma UpsertKeepsOnePerPair(adjustments: seq<Adjustment>, d: AdjustmentData, freshId: Id)
    requires OnePerPair(adjustments)
    ensures OnePerPair(Upsert(adjustments, d, freshId).0)
  {
    var (after, stored) := Upsert(adjustments, d, freshId);
    match FindAdjustmentIndex(adjustments, d.productId, d.pricingProfileId)
    case None =>
      forall i, j | 0 <= i < j < |after|
        ensures !IsFor(after[j], after[i].productId, after[i].pricingProfileId)
      {
        if j == |adjustments| {
          assert after[i] in adjustments;
        }
      }
    case Some(k) =>
      forall i, j | 0 <= i < j < |after|
        ensures !IsFor(after[j], after[i].productId, after[i].pricingProfileId)
      {
        assert IsFor(adjustments[k], after[k].productId, after[k].pricingProfileId);
      }
  }

  /** An upsert with an unused fresh id keeps adjustment ids distinct. */
  lemma UpsertKeepsDistinctIds(adjustments: seq<Adjustment>, d: AdjustmentData, freshId: Id)
    requires DistinctIds(adjustments)
    requires forall a :: a in adjustments ==> a.id != freshId
    ensures DistinctIds(Upsert(adjustments, d, freshId).0)
  {
    var (after, stored) := Upsert(adjustments, d, freshId);
    match FindAdjustmentIndex(adjustments, d.productId, d.pricingProfileId)
    case None =>
      forall i, j | 0 <= i < j < |after|
        ensures after[i].id != after[j].id
      {
        if j == |adjustments| {
          assert after[i] in adjustments;
        }
      }
    case Some(k) =>
      forall i, j | 0 <= i < j < |after|
        ensures after[i].id != after[j].id
      {
        assert after[k].id == adjustments[k].id;
      }
  }

  /** The based price `create` captures: the price of the adjustment for
      (product, profile's `basedOnId`) if there is one, otherwise the
      product's wholesale price. Unlike `getBasedOnPrice` there is no
      `"Global"` case: the lookup simply finds nothing for it. */
  function CreateBasedPrice(adjustments: seq<Adjustment>, product: Product, basedOnId: Option<Id>): (r: int)
    ensures basedOnId.None? ==> r == product.wholesalePrice
    ensures basedOnId.Some? && FindAdjustment(adjustments, product.id, basedOnId.value).None?
      ==> r == product.wholesalePrice
    ensures basedOnId.Some? && FindAdjustment(adjustments, product.id, basedOnId.value).Some?
      ==> r == FindAdjustment(adjustments, product.id, basedOnId.value).value.price
  {
    match basedOnId
    case None => product.wholesalePrice
    case Some(b) =>
      match FindAdjustment(adjustments, product.id, b)
      case None => product.wholesalePrice
      case Some(a) => a.price
  }

  /** `create`: price one product under one profile and store the result.
      Answers the stored record (whose product id and price are the body
      of the success response). */
  function Create(s: Store, pricingProfileId: Id, productId: Id, adjustmentValue: Decimal, freshId: Id)
    : (r: Result<(Store, Adjustment)>)
    ensures r.Err? <==> !ProfileExists(s, pricingProfileId) || !ProductExists(s, productId)
    ensures r.Err? ==> r.error == InvalidData
    ensures r.Ok? ==>
      var (t, a) := r.value;
      var profile := FindProfile(s.profiles, pricingProfileId).value;
      var product := FindProduct(s.products, productId).value;
      && t.products == s.products
      && t.profiles == s.profiles
      && IsFor(a, productId, pricingProfileId)
      && a.adjustmentValue == adjustmentValue
      && a.basedPrice == CreateBasedPrice(s.adjustments, product, profile.basedOnId)
      && a.price == AdjustedPrice(a.basedPrice, adjustmentValue, profile.adjustmentMode, profile.adjustmentIncrement)
      && (t.adjustments, a) == Upsert(s.adjustments, AdjustmentData(productId, pricingProfileId, a.basedPrice, adjustmentValue, a.price), freshId)
  {
    match FindProfile(s.profiles, pricingProfileId)
    case None => Err(InvalidData)
    case Some(profile) =>
      match FindProduct(s.products, productId)
      case None => Err(InvalidData)
      case Some(product) =>
        var basedPrice := CreateBasedPrice(s.adjustments, product, profile.basedOnId);
        var price := AdjustedPrice(basedPrice, adjustmentValue, profile.adjustmentMode, profile.adjustmentIncrement);
        var (adjustments, stored) :=
          Upsert(s.adjustments, AdjustmentData(productId, pricingProfileId, basedPrice, adjustmentValue, price), freshId);
        Ok((s.(adjustments := adjustments), stored))
  }

  /** `create` keeps the store invariant when the fresh id is unused. */
  lemma CreatePreservesValid(s: Store, pricingProfileId: Id, productId: Id, adjustmentValue: Decimal, freshId: Id)
    requires Valid(s)
    requires !IdUsedByAdjustment(s, freshId)
    ensures var r := Create(s, pricingProfileId, productId, adjustmentValue, freshId);
      r.Ok? ==> Valid(r.value.0)
  {
    var r := Create(s, pricingProfileId, productId, adjustmentValue, freshId);
    if r.Ok? {
      var (t, a) := r.value;
      var d := AdjustmentData(productId, pricingProfileId, a.basedPrice, adjustmentValue, a.price);
      UpsertKeepsOnePerPair(s.adjustments, d, freshId);
      UpsertKeepsDistinctIds(s.adjustments, d, freshId);
      forall x | x in t.adjustments
        ensures ProfileExists(t, x.pricingProfileId) && ProductExists(t, x.productId)
      {
        if x != a {
          var i :| 0 <= i < |t.adjustments| && t.adjustments[i] == x;
          assert x in s.adjustments by {
            match FindAdjustmentIndex(s.adjustments, productId, pricingProfileId)
            case None =>
              assert i < |s.adjustments|;
            case Some(k) =>
              assert i != k;
          }
        }
      }
    }
  }

  /** Running `create` again with the same request changes nothing, unless
      the profile is based on itself (then the new price is computed from
      the previous one). */
  lemma CreateIsIdempotent(s: Store, pricingProfileId: Id, productId: Id, adjustmentValue: Decimal, freshId: Id, freshId': Id)
    requires Create(s, pricingProfileId, productId, adjustmentValue, freshId).Ok?
    requires FindProfile(s.profiles, pricingProfileId).value.basedOnId != Some(pricingProfileId)
    ensures var (t, a) := Create(s, pricingProfileId, productId, adjustmentValue, freshId).value;
      Create(t, pricingProfileId, productId, adjustmentValue, freshId') == Ok((t, a))
  {
    var (t, a) := Create(s, pricingProfileId, productId, adjustmentValue, freshId).value;
    var profile := FindProfile(s.profiles, pricingProfileId).value;
    var product := FindProduct(s.products, productId).value;
    var d := AdjustmentData(productId, pricingProfileId, a.basedPrice, adjustmentValue, a.price);
    assert CreateBasedPrice(t.adjustments, product, profile.basedOnId) == a.basedPrice by {
      if profile.basedOnId.Some? {
        UpsertKeepsOtherPairs(s.adjustments, d, freshId, productId, profile.basedOnId.value);
      }
    }
    UpsertIsFound(s.adjustments, d, freshId);
    var k := FindAdjustmentIndex(t.adjustments, productId, pricingProfileId).value;
    assert t.adjustments[k] == a;
    assert t.adjustments[k := a] == t.adjustments;
  }

  /** No stored profile uses an id that `getBasedOnPrice` reads as global. */
  predicate NoSentinelProfile(s: Store)
  {
    !ProfileExists(s, "") && !ProfileExists(s, "Global")
  }

  /** On a valid store, the based price `create` captures is the one
      `getBasedOnPrice` answers for the profile's `basedOnId`, although only
      the latter treats `"Global"` specially. */
  lemma CreateAgreesWithGetBasedOnPrice(s: Store, pricingProfileId: Id, productId: Id, adjustmentValue: Decimal, freshId: Id)
    requires Valid(s) && NoSentinelProfile(s)
    requires Create(s, pricingProfileId, productId, adjustmentValue, freshId).Ok?
    ensures var a := Create(s, pricingProfileId, productId, adjustmentValue, freshId).value.1;
      var basedOnId := FindProfile(s.profiles, pricingProfileId).value.basedOnId;
      GetBasedOnPrice(s, basedOnId, [productId]) == [BasedPrice(productId, a.basedPrice)]
  {
    var a := Create(s, pricingProfileId, productId, adjustmentValue, freshId).value.1;
    var basedOnId := FindProfile(s.profiles, pricingProfileId).value.basedOnId;
    var product := FindProduct(s.products, productId).value;
    assert [productId][1..] == [];
    assert GetBasedOnPrice(s, basedOnId, [productId]) == AsSeq(Entry(s, basedOnId, productId));
    assert ResolveBasedPrice(s.adjustments, basedOnId, product) == a.basedPrice by {
      if basedOnId.Some? && IsGlobal(basedOnId) {
        var g := basedOnId.value;
        assert !ProfileExists(s, g);
      }
    }
  }

  /** Ten percent up from 100.00 is 110.00, and from 110.00 is 121.00. */
  lemma TenPercentTwice()
    ensures AdjustedPrice(10000, Decimal(10, 0), "dynamic", "increase") == 11000
    ensures AdjustedPrice(11000, Decimal(10, 0), "dynamic", "increase") == 12100
  {
    assert Pow10(0) == 1;
    DynamicPriceIsExact(10000, Decimal(10, 0), "increase");
    RoundHalfAwayExact(1000, 100);
    DynamicPriceIsExact(11000, Decimal(10, 0), "increase");
    RoundHalfAwayExact(1100, 100);
  }

  /** A profile based on itself compounds: re-running the same `create`
      raises the price again (10 % on 100.00 gives 110.00, then 121.00). */
  lemma SelfBasedProfileCompounds()
    ensures var product := Product("1", None, None, None, None, None, None, 10000);
      var profile := Profile("p", "Self", None, "single", Some("p"), "dynamic", "increase", "draft");
      var s := Store([product], [profile], []);
      var first := Create(s, "p", "1", Decimal(10, 0), "a1");
      && first.Ok? && first.value.1.price == 11000
      && var second := Create(first.value.0, "p", "1", Decimal(10, 0), "a2");
         second.Ok? && second.value.1.price == 12100
  {
    var product := Product("1", None, None, None, None, None, None, 10000);
    var profile := Profile("p", "Self", None, "single", Some("p"), "dynamic", "increase", "draft");
    var s := Store([product], [profile], []);
    TenPercentTwice();
    assert FindProfile(s.profiles, "p") == Some(profile);
    assert FindProduct(s.products, "1") == Some(product);
    var a1 := Adjustment("a1", "1", "p", 10000, Decimal(10, 0), 11000);
    var t := Store([product], [profile], [a1]);
    var none: seq<Adjustment> := [];
    assert FindAdjustmentIndex(none, "1", "p") == None;
    assert CreateBasedPrice(none, product, Some("p")) == 10000;
    assert none + [a1] == [a1];
    assert Upsert(none, AdjustmentData("1", "p", 10000, Decimal(10, 0), 11000), "a1") == ([a1], a1);
    assert Create(s, "p", "1", Decimal(10, 0), "a1") == Ok((t, a1));
    assert FindAdjustment(t.adjustments, "1", "p") == Some(a1);
  }

  // ---------------------------------------------------------------------
  // deleteAdjustment
  // ---------------------------------------------------------------------

  /** `deleteAdjustment`: drop every adjustment with the given id. The
      success body lists the remaining adjustments, i.e. the new store's. */
  function DeleteAdjustment(s: Store, id: Id): (t: Store)
    ensures t.products == s.products && t.profiles == s.profiles
    ensures forall a :: a in t.adjustments <==> a in s.adjustments && a.id != id
    ensures forall a :: multiset(t.adjustments)[a] == if a.id != id then multiset(s.adjustments)[a] else 0
    ensures IsSubsequence(t.adjustments, s.adjustments)
  {
    s.(adjustments := Filter(s.adjustments, (a: Adjustment) => a.id != id))
  }

  /** Adjustment ids are distinct in a valid store, so a delete removes at
      most one record. */
  lemma DeleteAdjustmentRemovesAtMostOne(s: Store, id: Id)
    requires Valid(s)
    ensures |DeleteAdjustment(s, id).adjustments| >= |s.adjustments| - 1
  {
    var p := (a: Adjustment) => a.id != id;
    assert forall i, j :: 0 <= i < j < |s.adjustments| && !p(s.adjustments[i]) ==> p(s.adjustments[j]) by {
      assert DistinctIds(s.adjustments);
    }
    FilterDropsAtMostOne(s.adjustments, p);
  }

  /** `deleteAdjustment` keeps the store invariant. */
  lemma DeleteAdjustmentPreservesValid(s: Store, id: Id)
    requires Valid(s)
    ensures Valid(DeleteAdjustment(s, id))
  {
    FilterKeepsUnique(s.adjustments, (a: Adjustment) => a.id != id);
  }

  // ---------------------------------------------------------------------
  // getAllPriceAdjustment
  // ---------------------------------------------------------------------

  /** An adjustment joined with the title, sku and category of its product. */
  datatype AdjustmentListing = AdjustmentListing(
    adjustment: Adjustment,
    title: Option<string>,
    sku: Option<string>,
    category: Option<string>)

  /** Some adjustment of the profile names no stored product: reading its
      product's title throws. */
  predicate ListingCrashes(s: Store, profileId: Id)
  {
    exists a :: a in AdjustmentsOf(s.adjustments, profileId) && !ProductExists(s, a.productId)
  }

  /** `getAllPriceAdjustment`: the profile's adjustments in store order, each
      joined with its product's fields. */
  function GetAllPriceAdjustment(s: Store, pricingProfileId: Option<Id>): (r: Result<seq<AdjustmentListing>>)
    ensures !Truthy(pricingProfileId) ==> r == Err(InputNotValid)
    ensures Truthy(pricingProfileId) && ListingCrashes(s, pricingProfileId.value) ==> r == Err(InternalError)
    ensures Truthy(pricingProfileId) && !ListingCrashes(s, pricingProfileId.value) ==> r.Ok?
    ensures Truthy(pricingProfileId) && Valid(s) ==> r.Ok?
    ensures r.Ok? ==>
      var adjustments := AdjustmentsOf(s.adjustments, pricingProfileId.value);
      && |r.value| == |adjustments|
      && forall i :: 0 <= i < |adjustments| ==>
           var product := FindProduct(s.products, adjustments[i].productId);
           && r.value[i].adjustment == adjustments[i]
           && product.Some?
           && r.value[i].title == product.value.title
           && r.value[i].sku == product.value.sku
           && r.value[i].category == product.value.category
  {
    if !Truthy(pricingProfileId) then Err(InputNotValid)
    else
      var adjustments := AdjustmentsOf(s.adjustments, pricingProfileId.value);
      if ListingCrashes(s, pricingProfileId.value) then Err(InternalError)
      else
        Ok(seq(|adjustments|, i requires 0 <= i < |adjustments| =>
          var product := FindProduct(s.products, adjustments[i].productId).value;
          AdjustmentListing(adjustments[i], product.title, product.sku, product.category)))
  }
}
