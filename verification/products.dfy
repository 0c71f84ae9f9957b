/** The product controller: bulk create and the search filter chain. */
module Products {
  import opened Wrappers
  import opened Seqs
  import opened Text
  import opened Db

  // ---------------------------------------------------------------------
  // create
  // ---------------------------------------------------------------------

  /** `create`: append the given products after the stored ones; an absent
      list appends nothing. */
  function Create(s: Store, products: Option<seq<Product>>): (t: Store)
    ensures t.profiles == s.profiles && t.adjustments == s.adjustments
    ensures s.products <= t.products
    ensures products.None? ==> t == s
    ensures products.Some? ==> t.products[|s.products|..] == products.value
  {
    match products
    case None => s
    case Some(added) => s.(products := s.products + added)
  }

  /** Adding products keeps the store invariant. */
  lemma CreatePreservesValid(s: Store, products: Option<seq<Product>>)
    requires Valid(s)
    ensures Valid(Create(s, products))
  {
    var t := Create(s, products);
    forall a | a in t.adjustments
      ensures ProductExists(t, a.productId)
    {
      var p := FindProduct(s.products, a.productId).value;
      assert p in t.products;
    }
  }

  // ---------------------------------------------------------------------
  // search
  // ---------------------------------------------------------------------

  /** The query string of a search; every criterion may be missing. */
  datatype Query = Query(
    title: Option<string>,
    sku: Option<string>,
    category: Option<string>,
    subCategory: Option<string>,
    brand: Option<string>,
    segment: Option<string>)

  datatype Field = Title | Sku | Category | SubCategory | Brand | Segment

  /** The order in which the filters run. */
  const FilterOrder: seq<Field> := [Title, Sku, Category, SubCategory, Brand, Segment]

  function Criterion(q: Query, f: Field): Option<string>
  {
    match f
    case Title => q.title
    case Sku => q.sku
    case Category => q.category
    case SubCategory => q.subCategory
    case Brand => q.brand
    case Segment => q.segment
  }

  function FieldOf(p: Product, f: Field): Option<string>
  {
    match f
    case Title => p.title
    case Sku => p.sku
    case Category => p.category
    case SubCategory => p.subCategory
    case Brand => p.brand
    case Segment => p.segment
  }

  /** Title and sku match by case-insensitive containment, the other fields
      by case-insensitive equality. */
  predicate FieldMatches(f: Field, value: string, wanted: string)
  {
    if f == Title || f == Sku then Includes(Lower(value), Lower(wanted))
    else Lower(value) == Lower(wanted)
  }

  /** The product has the field and it matches the wanted value. */
  predicate Satisfies(p: Product, f: Field, wanted: string)
  {
    FieldOf(p, f).Some? && FieldMatches(f, FieldOf(p, f).value, wanted)
  }

  function SatisfiesFn(f: Field, wanted: string): Product -> bool
  {
    (p: Product) => Satisfies(p, f, wanted)
  }

  /** Some product lacks the field: lower-casing it throws. */
  predicate Lacks(products: seq<Product>, f: Field)
  {
    exists p :: p in products && FieldOf(p, f).None?
  }

  /** Run the filters for `fields` in order; a supplied (truthy) criterion
      filters, an absent or empty one is skipped. */
  function ApplyFilters(products: seq<Product>, q: Query, fields: seq<Field>): (r: Result<seq<Product>>)
    ensures r.Ok? ==> |r.value| <= |products|
    ensures r.Ok? ==> forall p :: p in r.value ==> p in products
    ensures r.Err? ==> r.error == InternalError
    decreases |fields|
  {
    if fields == [] then Ok(products)
    else
      var f := fields[0];
      if !Truthy(Criterion(q, f)) then ApplyFilters(products, q, fields[1..])
      else if Lacks(products, f) then Err(InternalError)
      else ApplyFilters(Filter(products, SatisfiesFn(f, Criterion(q, f).value)), q, fields[1..])
  }

  /** `search` over the stored products. */
  function Search(products: seq<Product>, q: Query): (r: Result<seq<Product>>)
    ensures r.Err? ==> r.error == InternalError
    ensures r.Ok? ==> |r.value| <= |products|
    ensures r.Ok? ==> forall p :: p in r.value ==> p in products
  {
    ApplyFilters(products, q, FilterOrder)
  }

  /** The product satisfies every supplied criterion among `fields`. */
  predicate MatchesAll(q: Query, p: Product, fields: seq<Field>)
  {
    forall i :: 0 <= i < |fields| && Truthy(Criterion(q, fields[i])) ==>
      Satisfies(p, fields[i], Criterion(q, fields[i]).value)
  }

  function MatchesAllFn(q: Query, fields: seq<Field>): Product -> bool
  {
    (p: Product) => MatchesAll(q, p, fields)
  }

  /** One step of `MatchesAll`: the head criterion and the rest. */
  lemma MatchesAllCons(q: Query, p: Product, fields: seq<Field>)
    requires fields != []
    ensures MatchesAll(q, p, fields) <==>
      && (Truthy(Criterion(q, fields[0])) ==> Satisfies(p, fields[0], Criterion(q, fields[0]).value))
      && MatchesAll(q, p, fields[1..])
  {
    if (Truthy(Criterion(q, fields[0])) ==> Satisfies(p, fields[0], Criterion(q, fields[0]).value))
       && MatchesAll(q, p, fields[1..]) {
      forall i | 0 <= i < |fields| && Truthy(Criterion(q, fields[i]))
        ensures Satisfies(p, fields[i], Criterion(q, fields[i]).value)
      {
        if i > 0 {
          assert fields[i] == fields[1..][i - 1];
        }
      }
    }
    if MatchesAll(q, p, fields) {
      forall i | 0 <= i < |fields[1..]| && Truthy(Criterion(q, fields[1..][i]))
        ensures Satisfies(p, fields[1..][i], Criterion(q, fields[1..][i]).value)
      {
        assert fields[1..][i] == fields[i + 1];
      }
    }
  }

  /** A successful filter chain keeps exactly the products that satisfy
      every supplied criterion, in store order. */
  lemma {:induction false} ApplyFiltersIsConjunction(products: seq<Product>, q: Query, fields: seq<Field>)
    requires ApplyFilters(products, q, fields).Ok?
    ensures ApplyFilters(products, q, fields).value == Filter(products, MatchesAllFn(q, fields))
    decreases |fields|
  {
    var all := MatchesAllFn(q, fields);
    if fields == [] {
      FilterAll(products, all);
    } else {
      var f := fields[0];
      var rest := MatchesAllFn(q, fields[1..]);
      forall p {
        MatchesAllCons(q, p, fields);
      }
      if !Truthy(Criterion(q, f)) {
        ApplyFiltersIsConjunction(products, q, fields[1..]);
        FilterCongruent(products, rest, all);
      } else {
        var sat := SatisfiesFn(f, Criterion(q, f).value);
        ApplyFiltersIsConjunction(Filter(products, sat), q, fields[1..]);
        FilterFilter(products, sat, rest, all);
      }
    }
  }

  /** The filter chain only fails when a supplied criterion meets a product
      without that field. */
  lemma {:induction false} ApplyFiltersSucceeds(products: seq<Product>, q: Query, fields: seq<Field>)
    requires forall p, i :: p in products && 0 <= i < |fields| && Truthy(Criterion(q, fields[i])) ==>
      FieldOf(p, fields[i]).Some?
    ensures ApplyFilters(products, q, fields).Ok?
    decreases |fields|
  {
    if fields != [] {
      var f := fields[0];
      var next := if !Truthy(Criterion(q, f)) then products
                  else Filter(products, SatisfiesFn(f, Criterion(q, f).value));
      forall p, i | p in next && 0 <= i < |fields[1..]| && Truthy(Criterion(q, fields[1..][i]))
        ensures FieldOf(p, fields[1..][i]).Some?
      {
        assert fields[1..][i] == fields[i + 1];
      }
      ApplyFiltersSucceeds(next, q, fields[1..]);
    }
  }

  /** A product is in the search result exactly when it is stored and
      satisfies every supplied criterion; the result keeps store order. */
  lemma SearchIsConjunctiveFilter(products: seq<Product>, q: Query)
    requires Search(products, q).Ok?
    ensures Search(products, q).value == Filter(products, MatchesAllFn(q, FilterOrder))
    ensures IsSubsequence(Search(products, q).value, products)
    ensures forall p :: p in Search(products, q).value <==> p in products && MatchesAll(q, p, FilterOrder)
  {
    ApplyFiltersIsConjunction(products, q, FilterOrder);
  }

  /** When every product carries the fields the query filters on, the
      search does not fail. */
  lemma SearchSucceeds(products: seq<Product>, q: Query)
    requires forall p, f :: p in products && Truthy(Criterion(q, f)) ==> FieldOf(p, f).Some?
    ensures Search(products, q).Ok?
  {
    ApplyFiltersSucceeds(products, q, FilterOrder);
  }

  /** Without (truthy) criteria the search answers every stored product. */
  lemma SearchWithoutCriteria(products: seq<Product>, q: Query)
    requires forall f :: !Truthy(Criterion(q, f))
    ensures Search(products, q) == Ok(products)
  {
    SearchSucceeds(products, q);
    SearchIsConjunctiveFilter(products, q);
    FilterAll(products, MatchesAllFn(q, FilterOrder));
  }

  /** Searching a search result again with the same query returns it
      unchanged. */
  lemma SearchIsIdempotent(products: seq<Product>, q: Query)
    requires Search(products, q).Ok?
    ensures Search(Search(products, q).value, q) == Search(products, q)
  {
    var r := Search(products, q).value;
    SearchIsConjunctiveFilter(products, q);
    forall p, f | p in r && Truthy(Criterion(q, f))
      ensures FieldOf(p, f).Some?
    {
      var i := match f
        case Title => 0 case Sku => 1 case Category => 2
        case SubCategory => 3 case Brand => 4 case Segment => 5;
      assert FilterOrder[i] == f;
    }
    SearchSucceeds(r, q);
    SearchIsConjunctiveFilter(r, q);
    FilterAll(r, MatchesAllFn(q, FilterOrder));
  }

  /** The query with every supplied criterion lower-cased. */
  function LowerQuery(q: Query): (r: Query)
    ensures forall f :: Criterion(r, f) == LowerCriterion(Criterion(q, f))
  {
    Query(LowerCriterion(q.title), LowerCriterion(q.sku), LowerCriterion(q.category),
          LowerCriterion(q.subCategory), LowerCriterion(q.brand), LowerCriterion(q.segment))
  }

  function LowerCriterion(o: Option<string>): (r: Option<string>)
    ensures Truthy(r) == Truthy(o)
    ensures r.Some? ==> o.Some? && r.value == Lower(o.value)
  {
    match o
    case None => None
    case Some(v) => Some(Lower(v))
  }

  /** The case of the query does not matter: both sides are lower-cased
      before they are compared. */
  lemma {:induction false} ApplyFiltersIgnoresQueryCase(products: seq<Product>, q: Query, fields: seq<Field>)
    ensures ApplyFilters(products, LowerQuery(q), fields) == ApplyFilters(products, q, fields)
    decreases |fields|
  {
    if fields != [] {
      var f := fields[0];
      if Truthy(Criterion(q, f)) && !Lacks(products, f) {
        var w := Criterion(q, f).value;
        LowerIdempotent(w);
        FilterCongruent(products, SatisfiesFn(f, Lower(w)), SatisfiesFn(f, w));
        ApplyFiltersIgnoresQueryCase(Filter(products, SatisfiesFn(f, w)), q, fields[1..]);
      } else {
        ApplyFiltersIgnoresQueryCase(products, q, fields[1..]);
      }
    }
  }

  /** A search answers the same products whatever the case of the query. */
  lemma SearchIgnoresQueryCase(products: seq<Product>, q: Query)
    ensures Search(products, LowerQuery(q)) == Search(products, q)
  {
    ApplyFiltersIgnoresQueryCase(products, q, FilterOrder);
  }
}
