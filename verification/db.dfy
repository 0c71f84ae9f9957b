/** The in-memory database: three collections of records, and the
    whole-store invariant the controllers keep. */
module Db {
  import opened Wrappers
  import opened Seqs
  import opened Money

  /** Record identifiers. The source mixes numeric seed ids with uuid
      strings; one string type stands for both. */
  type Id = string

  /** A catalogue product. Every descriptive field may be missing from a
      record added through the bulk-create endpoint; the wholesale price is
      always present here (a product without one is not modelled). */
  datatype Product = Product(
    id: Id,
    title: Option<string>,
    sku: Option<string>,
    category: Option<string>,
    subCategory: Option<string>,
    brand: Option<string>,
    segment: Option<string>,
    wholesalePrice: int)   // cents

  /** A pricing profile. `basedOnId` names the profile whose prices this one
      adjusts, or is absent / `"Global"` for the wholesale price. */
  datatype Profile = Profile(
    id: Id,
    name: string,
    description: Option<string>,
    profileType: string,
    basedOnId: Option<Id>,
    adjustmentMode: string,
    adjustmentIncrement: string,
    status: string)

  /** The price of one product under one profile. */
  datatype Adjustment = Adjustment(
    id: Id,
    productId: Id,
    pricingProfileId: Id,
    basedPrice: int,          // cents
    adjustmentValue: Decimal,
    price: int)               // cents

  datatype Store = Store(
    products: seq<Product>,
    profiles: seq<Profile>,
    adjustments: seq<Adjustment>)

  /** The store the service starts with: the seed products, nothing else. */
  function Initial(seed: seq<Product>): (s: Store)
    ensures s.products == seed && s.profiles == [] && s.adjustments == []
  {
    Store(seed, [], [])
  }

  /** `products.find(p => p.id === id)`: the first product with the id.
      Product ids need not be unique, so "first" matters. */
  function FindProduct(products: seq<Product>, id: Id): (r: Option<Product>)
    ensures r.Some? ==> r.value in products && r.value.id == id
    ensures r.Some? ==> exists i ::
      && 0 <= i < |products|
      && products[i] == r.value
      && forall j :: 0 <= j < i ==> products[j].id != id
    ensures r.None? <==> forall p :: p in products ==> p.id != id
  {
    match FindFirst(products, (p: Product) => p.id == id)
    case None => None
    case Some(i) => Some(products[i])
  }

  /** `pricingProfile.findIndex(p => p.id === id)` */
  function FindProfileIndex(profiles: seq<Profile>, id: Id): (r: Option<nat>)
    ensures r.Some? ==> r.value < |profiles| && profiles[r.value].id == id
    ensures r.Some? ==> forall j :: 0 <= j < r.value ==> profiles[j].id != id
    ensures r.None? <==> forall p :: p in profiles ==> p.id != id
  {
    FindFirst(profiles, (p: Profile) => p.id == id)
  }

  /** `pricingProfile.find(p => p.id === id)`: the first profile with the id. */
  function FindProfile(profiles: seq<Profile>, id: Id): (r: Option<Profile>)
    ensures r.Some? ==> r.value in profiles && r.value.id == id
    ensures r.Some? ==> exists i ::
      && 0 <= i < |profiles|
      && profiles[i] == r.value
      && forall j :: 0 <= j < i ==> profiles[j].id != id
    ensures r.None? <==> forall p :: p in profiles ==> p.id != id
  {
    match FindProfileIndex(profiles, id)
    case None => None
    case Some(i) => Some(profiles[i])
  }

  /** The adjustment `a` is the price of `productId` under `profileId`. */
  predicate IsFor(a: Adjustment, productId: Id, profileId: Id)
  {
    a.productId == productId && a.pricingProfileId == profileId
  }

  /** Index of the adjustment for the pair (`productId`, `profileId`). */
  function FindAdjustmentIndex(adjustments: seq<Adjustment>, productId: Id, profileId: Id): (r: Option<nat>)
    ensures r.Some? ==> r.value < |adjustments| && IsFor(adjustments[r.value], productId, profileId)
    ensures r.Some? ==> forall j :: 0 <= j < r.value ==> !IsFor(adjustments[j], productId, profileId)
    ensures r.None? <==> forall a :: a in adjustments ==> !IsFor(a, productId, profileId)
  {
    FindFirst(adjustments, (a: Adjustment) => IsFor(a, productId, profileId))
  }

  /** The first adjustment for the pair (`productId`, `profileId`), if any. */
  function FindAdjustment(adjustments: seq<Adjustment>, productId: Id, profileId: Id): (r: Option<Adjustment>)
    ensures r.Some? ==> r.value in adjustments && IsFor(r.value, productId, profileId)
    ensures r.Some? ==> exists i ::
      && 0 <= i < |adjustments|
      && adjustments[i] == r.value
      && forall j :: 0 <= j < i ==> !IsFor(adjustments[j], productId, profileId)
    ensures r.None? <==> forall a :: a in adjustments ==> !IsFor(a, productId, profileId)
  {
    match FindAdjustmentIndex(adjustments, productId, profileId)
    case None => None
    case Some(i) => Some(adjustments[i])
  }

  predicate ProfileExists(s: Store, id: Id)
  {
    exists p :: p in s.profiles && p.id == id
  }

  predicate ProductExists(s: Store, id: Id)
  {
    exists p :: p in s.products && p.id == id
  }

  predicate IdUsedByAdjustment(s: Store, id: Id)
  {
    exists a :: a in s.adjustments && a.id == id
  }

  /** At most one adjustment per (product, profile) pair. */
  predicate OnePerPair(adjustments: seq<Adjustment>)
  {
    Pairwise(adjustments, (a: Adjustment, b: Adjustment) => !IsFor(b, a.productId, a.pricingProfileId))
  }

  /** No two adjustments share an id. */
  predicate DistinctIds(adjustments: seq<Adjustment>)
  {
    Pairwise(adjustments, (a: Adjustment, b: Adjustment) => a.id != b.id)
  }

  /** Removing adjustments keeps them unique per pair and per id. */
  lemma FilterKeepsUnique(adjustments: seq<Adjustment>, keep: Adjustment -> bool)
    requires OnePerPair(adjustments) && DistinctIds(adjustments)
    ensures OnePerPair(Filter(adjustments, keep)) && DistinctIds(Filter(adjustments, keep))
  {
    FilterKeepsPairwise(adjustments, keep, (a: Adjustment, b: Adjustment) => !IsFor(b, a.productId, a.pricingProfileId));
    FilterKeepsPairwise(adjustments, keep, (a: Adjustment, b: Adjustment) => a.id != b.id);
  }

  /** The adjustments of one profile, in store order. */
  function AdjustmentsOf(adjustments: seq<Adjustment>, profileId: Id): (r: seq<Adjustment>)
    ensures forall a :: a in r <==> a in adjustments && a.pricingProfileId == profileId
    ensures forall a :: multiset(r)[a] == if a.pricingProfileId == profileId then multiset(adjustments)[a] else 0
    ensures IsSubsequence(r, adjustments)
  {
    Filter(adjustments, (a: Adjustment) => a.pricingProfileId == profileId)
  }

  /** The store invariant: adjustments are unique per pair and per id, and
      each names a stored profile and a stored product. */
  predicate Valid(s: Store)
  {
    && OnePerPair(s.adjustments)
    && DistinctIds(s.adjustments)
    && (forall a :: a in s.adjustments ==> ProfileExists(s, a.pricingProfileId))
    && (forall a :: a in s.adjustments ==> ProductExists(s, a.productId))
  }

  /** The starting store satisfies the invariant. */
  lemma InitialValid(seed: seq<Product>)
    ensures Valid(Initial(seed))
  {
  }
}
