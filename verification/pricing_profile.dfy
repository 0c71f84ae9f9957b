/** The pricing-profile controller: create, update, the two read endpoints
    and the cascading delete. */
module PricingProfile {
  import opened Wrappers
  import opened Seqs
  import opened Db
  import opened ProfileServices
  import PricingAdjustment

  // ---------------------------------------------------------------------
  // create
  // ---------------------------------------------------------------------

  /** `create`: check the input, then append a profile with the fresh id and
      the supplied fields; a missing status becomes `"draft"`. */
  function Create(s: Store, data: Option<ProfileInput>, modes: seq<string>, increments: seq<string>, freshId: Id)
    : (r: Result<(Store, Profile)>)
    ensures !ValidateCreatePriceProfile(data, modes, increments) ==> r == Err(InputNotValid)
    ensures ValidateCreatePriceProfile(data, modes, increments) ==> r.Ok?
    ensures r.Ok? ==>
      var (t, p) := r.value;
      var d := data.value;
      && t.profiles == s.profiles + [p]
      && t.products == s.products
      && t.adjustments == s.adjustments
      && p.id == freshId
      && Some(p.name) == d.name
      && p.description == d.description
      && Some(p.profileType) == d.profileType
      && p.basedOnId == d.basedOnId
      && Some(p.adjustmentMode) == d.adjustmentMode
      && Some(p.adjustmentIncrement) == d.adjustmentIncrement
      && p.status == (if d.status.Some? then d.status.value else "draft")
      && p.adjustmentMode in modes
      && p.adjustmentIncrement in increments
  {
    if !ValidateCreatePriceProfile(data, modes, increments) then Err(InputNotValid)
    else
      var d := data.value;
      var status := match d.status case None => "draft" case Some(st) => st;
      var p := Profile(freshId, d.name.value, d.description, d.profileType.value, d.basedOnId,
                       d.adjustmentMode.value, d.adjustmentIncrement.value, status);
      Ok((s.(profiles := s.profiles + [p]), p))
  }

  /** `create` keeps the store invariant. */
  lemma CreatePreservesValid(s: Store, data: Option<ProfileInput>, modes: seq<string>, increments: seq<string>, freshId: Id)
    requires Valid(s)
    ensures var r := Create(s, data, modes, increments, freshId);
      r.Ok? ==> Valid(r.value.0)
  {
    var r := Create(s, data, modes, increments, freshId);
    if r.Ok? {
      var t := r.value.0;
      forall a | a in t.adjustments
        ensures ProfileExists(t, a.pricingProfileId)
      {
        var q := FindProfile(s.profiles, a.pricingProfileId).value;
        assert q in t.profiles;
      }
    }
  }

  // ---------------------------------------------------------------------
  // update
  // ---------------------------------------------------------------------

  /** `update`: check the input, find the profile by id and overwrite its
      descriptive and pricing fields with the supplied ones (a missing
      description or reference becomes missing); id and status stay. */
  function Update(s: Store, id: Id, data: Option<ProfileInput>, modes: seq<string>, increments: seq<string>)
    : (r: Result<(Store, Profile)>)
    ensures !ValidateCreatePriceProfile(data, modes, increments) ==> r == Err(InputNotValid)
    ensures ValidateCreatePriceProfile(data, modes, increments) && !ProfileExists(s, id) ==> r == Err(InvalidData)
    ensures ValidateCreatePriceProfile(data, modes, increments) && ProfileExists(s, id) ==> r.Ok?
    ensures r.Ok? ==> ProfileExists(s, id)
    ensures r.Ok? ==>
      var (t, p) := r.value;
      var d := data.value;
      var i := FindProfileIndex(s.profiles, id).value;
      && t.products == s.products
      && t.adjustments == s.adjustments
      && |t.profiles| == |s.profiles|
      && t.profiles[i] == p
      && (forall j :: 0 <= j < |s.profiles| && j != i ==> t.profiles[j] == s.profiles[j])
      && p.id == id
      && p.status == s.profiles[i].status
      && Some(p.name) == d.name
      && p.description == d.description
      && Some(p.profileType) == d.profileType
      && p.basedOnId == d.basedOnId
      && Some(p.adjustmentMode) == d.adjustmentMode
      && Some(p.adjustmentIncrement) == d.adjustmentIncrement
  {
    if !ValidateCreatePriceProfile(data, modes, increments) then Err(InputNotValid)
    else
      match FindProfileIndex(s.profiles, id)
      case None => Err(InvalidData)
      case Some(i) =>
        var d := data.value;
        var p := s.profiles[i].(name := d.name.value, description := d.description,
                                profileType := d.profileType.value, basedOnId := d.basedOnId,
                                adjustmentMode := d.adjustmentMode.value,
                                adjustmentIncrement := d.adjustmentIncrement.value);
        Ok((s.(profiles := s.profiles[i := p]), p))
  }

  /** `update` never changes a profile id, so it keeps the store invariant. */
  lemma UpdatePreservesValid(s: Store, id: Id, data: Option<ProfileInput>, modes: seq<string>, increments: seq<string>)
    requires Valid(s)
    ensures var r := Update(s, id, data, modes, increments);
      r.Ok? ==> Valid(r.value.0)
  {
    var r := Update(s, id, data, modes, increments);
    if r.Ok? {
      var t := r.value.0;
      var i := FindProfileIndex(s.profiles, id).value;
      forall a | a in t.adjustments
        ensures ProfileExists(t, a.pricingProfileId)
      {
        var k := FindProfileIndex(s.profiles, a.pricingProfileId).value;
        assert t.profiles[k].id == a.pricingProfileId;
      }
    }
  }

  // ---------------------------------------------------------------------
  // getAll / getById
  // ---------------------------------------------------------------------

  /** An adjustment with its product (missing when no product has its id). */
  datatype AdjustmentWithProduct = AdjustmentWithProduct(adjustment: Adjustment, product: Option<Product>)

  /** A profile with its adjustments. */
  datatype ProfileView = ProfileView(profile: Profile, pricingAdjustments: seq<AdjustmentWithProduct>)

  /** Attach to each adjustment the first product with its product id. */
  function JoinProducts(products: seq<Product>, adjustments: seq<Adjustment>): (r: seq<AdjustmentWithProduct>)
    ensures |r| == |adjustments|
    ensures forall i :: 0 <= i < |adjustments| ==>
      r[i].adjustment == adjustments[i] && r[i].product == FindProduct(products, adjustments[i].productId)
  {
    seq(|adjustments|, i requires 0 <= i < |adjustments| =>
      AdjustmentWithProduct(adjustments[i], FindProduct(products, adjustments[i].productId)))
  }

  /** A profile as both read endpoints answer it. */
  function ViewOf(s: Store, p: Profile): ProfileView
  {
    ProfileView(p, JoinProducts(s.products, AdjustmentsOf(s.adjustments, p.id)))
  }

  /** `getAll`: every profile in store order, each with exactly its own
      adjustments in store order. */
  function GetAll(s: Store): (r: seq<ProfileView>)
    ensures |r| == |s.profiles|
    ensures forall i :: 0 <= i < |s.profiles| ==>
      && r[i].profile == s.profiles[i]
      && |r[i].pricingAdjustments| == |AdjustmentsOf(s.adjustments, s.profiles[i].id)|
      && forall k :: 0 <= k < |r[i].pricingAdjustments| ==>
           var a := AdjustmentsOf(s.adjustments, s.profiles[i].id)[k];
           && r[i].pricingAdjustments[k].adjustment == a
           && r[i].pricingAdjustments[k].product == FindProduct(s.products, a.productId)
  {
    seq(|s.profiles|, i requires 0 <= i < |s.profiles| => ViewOf(s, s.profiles[i]))
  }

  /** In a valid store every listed adjustment carries its product. */
  lemma GetAllHasProducts(s: Store)
    requires Valid(s)
    ensures forall v, x :: v in GetAll(s) && x in v.pricingAdjustments ==>
      x.product.Some? && x.product.value.id == x.adjustment.productId
  {
    var r := GetAll(s);
    forall i, k | 0 <= i < |r| && 0 <= k < |r[i].pricingAdjustments|
      ensures r[i].pricingAdjustments[k].product.Some?
      ensures r[i].pricingAdjustments[k].product.value.id == r[i].pricingAdjustments[k].adjustment.productId
    {
      var a := AdjustmentsOf(s.adjustments, s.profiles[i].id)[k];
      assert a in s.adjustments;
    }
  }

  /** `getById`: the first profile with the id, with its adjustments. */
  function GetById(s: Store, id: Id): (r: Result<ProfileView>)
    ensures !ProfileExists(s, id) <==> r == Err(InvalidData)
    ensures ProfileExists(s, id) <==> r.Ok?
    ensures r.Ok? ==> r.value == GetAll(s)[FindProfileIndex(s.profiles, id).value]
  {
    match FindProfileIndex(s.profiles, id)
    case None => Err(InvalidData)
    case Some(i) => Ok(ViewOf(s, s.profiles[i]))
  }

  /** The adjustments `getById` attaches to a profile are those the
      adjustment listing answers for it. */
  lemma GetByIdAgreesWithListing(s: Store, id: Id)
    requires Valid(s) && ProfileExists(s, id) && id != ""
    ensures var v := GetById(s, id).value;
      var l := PricingAdjustment.GetAllPriceAdjustment(s, Some(id)).value;
      && |v.pricingAdjustments| == |l|
      && forall k :: 0 <= k < |l| ==> v.pricingAdjustments[k].adjustment == l[k].adjustment
  {
  }

  // ---------------------------------------------------------------------
  // deleteById
  // ---------------------------------------------------------------------

  /** `deleteById`: remove the profile and, first, every adjustment of it.
      It succeeds whether or not the id is known. */
  function DeleteById(s: Store, id: Id): (t: Store)
    ensures t.products == s.products
    ensures !ProfileExists(t, id)
    ensures forall a :: a in t.adjustments ==> a.pricingProfileId != id
    ensures forall p :: p in t.profiles <==> p in s.profiles && p.id != id
    ensures forall a :: a in t.adjustments <==> a in s.adjustments && a.pricingProfileId != id
    ensures forall p :: multiset(t.profiles)[p] == if p.id != id then multiset(s.profiles)[p] else 0
    ensures forall a :: multiset(t.adjustments)[a] == if a.pricingProfileId != id then multiset(s.adjustments)[a] else 0
    ensures IsSubsequence(t.profiles, s.profiles)
    ensures IsSubsequence(t.adjustments, s.adjustments)
  {
    Store(s.products, Filter(s.profiles, OtherProfile(id)), Filter(s.adjustments, OfOtherProfile(id)))
  }

  function OtherProfile(id: Id): Profile -> bool
  {
    (p: Profile) => p.id != id
  }

  function OfOtherProfile(id: Id): Adjustment -> bool
  {
    (a: Adjustment) => a.pricingProfileId != id
  }

  /** Deleting twice is deleting once. */
  lemma DeleteByIdIdempotent(s: Store, id: Id)
    ensures DeleteById(DeleteById(s, id), id) == DeleteById(s, id)
  {
    var t := DeleteById(s, id);
    FilterAll(t.profiles, OtherProfile(id));
    FilterAll(t.adjustments, OfOtherProfile(id));
  }

  /** On a valid store, deleting an unknown id changes nothing: no
      adjustment can belong to a profile that is not stored. */
  lemma DeleteUnknownIsNoOp(s: Store, id: Id)
    requires Valid(s) && !ProfileExists(s, id)
    ensures DeleteById(s, id) == s
  {
    FilterAll(s.profiles, OtherProfile(id));
    FilterAll(s.adjustments, OfOtherProfile(id));
  }

  /** The cascade keeps the store invariant. */
  lemma DeleteByIdPreservesValid(s: Store, id: Id)
    requires Valid(s)
    ensures Valid(DeleteById(s, id))
  {
    var t := DeleteById(s, id);
    FilterKeepsUnique(s.adjustments, OfOtherProfile(id));
    forall a | a in t.adjustments
      ensures ProfileExists(t, a.pricingProfileId)
    {
      var q := FindProfile(s.profiles, a.pricingProfileId).value;
      assert q in t.profiles;
    }
  }

  /** After the cascade, the profile is gone and its adjustment listing is
      empty. */
  lemma DeletedProfileIsGone(s: Store, id: Id)
    requires id != ""
    ensures GetById(DeleteById(s, id), id) == Err(InvalidData)
    ensures PricingAdjustment.GetAllPriceAdjustment(DeleteById(s, id), Some(id)) == Ok([])
  {
    var t := DeleteById(s, id);
    assert !ProfileExists(t, id);
    assert AdjustmentsOf(t.adjustments, id) == [];
    assert !PricingAdjustment.ListingCrashes(t, id);
    var l := PricingAdjustment.GetAllPriceAdjustment(t, Some(id));
    assert l.Ok? && |l.value| == 0;
  }
}
