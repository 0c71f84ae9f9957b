# Pricing API: a Dafny model of the pricing core

The pricing API keeps three in-memory collections: products, pricing
profiles and pricing adjustments. A profile describes how to derive prices.
It names a reference (`basedOnId`: another profile, or the wholesale price
when the reference is absent, empty or `"Global"`), a mode (`dynamic` means
a percentage, anything else a fixed amount) and an increment (`increase`,
anything else decreases). An adjustment is the price of one product under
one profile.

This project models the four controllers that make up the core:

- `pricingAdjustment/controller.js`:
  - resolving based prices for a batch of products (`getBasedOnPrice`);
  - computing and upserting one adjustment (`create`);
  - deleting an adjustment (`deleteAdjustment`);
  - listing a profile's adjustments with product details (`getAllPriceAdjustment`).
- `pricingProfile/controller.js`: `create`, `update`, `getAll`, `getById`, and the cascading `deleteById`.
- `pricingProfile/services.js`: the input check `validateCreatePriceProfile`.
- `products/controller.js`: bulk `create` and the `search` filter chain.

The whole database is an immutable `Db.Store`. Every endpoint is a pure
function from a store (and the request) to a new store and/or a response.
Errors are a `Result` carrying one of three kinds:

- `InputNotValid`: the 401 "Input is not valid" answers;
- `InvalidData`: the 400, and for `getById` the 500, "Invalid data provided" answers;
- `InternalError`: the 500 "Internal server error" answers that the `catch` blocks produce when a JavaScript `TypeError` is thrown.

Each `*.dfy` file holds one module:

| file | module | contents |
|---|---|---|
| `wrappers.dfy` | `Wrappers` | `Option`, `Result`, error kinds, JavaScript truthiness of an optional string |
| `seqs.dfy` | `Seqs` | `filter`, `findIndex`, subsequences, pairwise uniqueness |
| `text.dfy` | `Text` | `toLowerCase` (ASCII) and `includes` |
| `money.dfy` | `Money` | exact decimals, rounding half away from zero |
| `db.dfy` | `Db` | the records, lookups, the store invariant `Valid` |
| `pricing_adjustment.dfy` | `PricingAdjustment` | the adjustment controller |
| `profile_services.dfy` | `ProfileServices` | profile input validation |
| `pricing_profile.dfy` | `PricingProfile` | the profile controller |
| `products.dfy` | `Products` | the product controller |

Money is modelled as integer cents. The adjustment value is an exact decimal
`digits / 10^scale`. `toFixed(2)` is modelled as rounding the exact value to
the nearest cent, with ties away from zero. The price formula is:

- `dynamic` mode: the change is the value taken as a percentage of the based
  price, rounded to the cent. That change is then added (`increase`) or
  subtracted (any other increment).
- any other mode: the value is added or subtracted as currency units, and the
  result is rounded to the cent.

Both increments use the same rounded change, so an increase and a decrease by
the same percentage move the price by the same amount
(`PricingAdjustment.DynamicChangeIsSymmetric`).

The store invariant `Db.Valid` has four parts:

- at most one adjustment per (product, profile) pair;
- adjustment ids are distinct;
- every adjustment names a stored profile;
- every adjustment names a stored product.

Every mutating endpoint is proved to keep it.

Two things the model exposes about `create` on adjustments:

- The lookup of the based price (`controller.js` line 198) has no `"Global"`
  case, unlike `getBasedOnPrice`. On a valid store with no profile whose id
  is `""` or `"Global"`, the two agree
  (`PricingAdjustment.CreateAgreesWithGetBasedOnPrice`).
- Repeating the same `create` is idempotent unless the profile is based on
  itself. In that case each call compounds on the previous price: 10 % on
  100.00 gives 110.00, then 121.00 (`PricingAdjustment.SelfBasedProfileCompounds`).

## Model

| member | source | states |
|---|---|---|
| Db.Initial | db.js:55-59 | the starting store holds the seed products and no profiles or adjustments |
| Db.FindProduct | apis/pricingAdjustment/controller.js:191 | `find` answers the first stored product with the id (product ids may repeat), and nothing exactly when no product has the id |
| Db.FindProfileIndex | apis/pricingProfile/controller.js:243 | `findIndex` answers the first index whose profile has the id, and nothing exactly when no profile has it |
| Db.FindProfile | apis/pricingProfile/controller.js:464 | `find` answers the first stored profile with the id, and nothing exactly when no profile has it |
| Db.FindAdjustmentIndex | apis/pricingAdjustment/controller.js:215-217 | `findIndex` answers the first position holding an adjustment for the (product, profile) pair, and nothing exactly when no stored adjustment is for the pair |
| Db.FindAdjustment | apis/pricingAdjustment/controller.js:198 | `find` answers the first stored adjustment for the pair, and nothing exactly when there is none |
| Db.AdjustmentsOf | apis/pricingProfile/controller.js:352 | the profile's adjustments are exactly the stored ones naming the profile, each with its stored multiplicity, kept in store order |
| Money.RoundHalfAway | apis/pricingAdjustment/controller.js:209 | `toFixed(2)` on the exact value: the answer is within half a unit of the quotient, and a tie goes away from zero |
| Text.IncludesIffOccurs | apis/products/controller.js:174 | `includes` holds exactly when the needle occurs at some position of the string |
| PricingAdjustment.ResolveBasedPrice | apis/pricingAdjustment/controller.js:86-104 | a global reference (absent, empty or "Global") gives the wholesale price; otherwise the price of the adjustment for (product, reference), or the wholesale price when there is none |
| PricingAdjustment.Entry | apis/pricingAdjustment/controller.js:79-104 | an id gets an entry exactly when a product has it, and the entry's price is the reference profile's adjustment price for the product if there is one, and the wholesale price otherwise |
| PricingAdjustment.GetBasedOnPrice | apis/pricingAdjustment/controller.js:68-113 | the batch answer has at most one entry per requested id (its contents are stated by the three lemmas below) |
| PricingAdjustment.GetBasedOnPriceIsCorrect | apis/pricingAdjustment/controller.js:79-106 | every entry of the batch answer carries its product's correctly resolved based price |
| PricingAdjustment.GetBasedOnPriceKeepsKnownIds | apis/pricingAdjustment/controller.js:79-106 | the answered ids are exactly the requested ids that name a product, in request order; unknown ids are dropped |
| PricingAdjustment.GetBasedOnPriceAppend | apis/pricingAdjustment/controller.js:79-106 | each id is resolved independently: the answer for a concatenated batch is the concatenation of the answers |
| PricingAdjustment.UnknownReferenceIsWholesale | apis/pricingAdjustment/controller.js:93-99 | on a valid store, a reference naming no stored profile yields the wholesale price for every product |
| PricingAdjustment.Change | apis/pricingAdjustment/controller.js:207-210 | in dynamic mode the change is the percentage of the based price rounded to the cent; otherwise it is exactly the value in cents |
| PricingAdjustment.AdjustedPrice | apis/pricingAdjustment/controller.js:211-213 | the price is the based price plus the change for "increase" (minus it otherwise), rounded to the cent |
| PricingAdjustment.DynamicPriceIsExact | apis/pricingAdjustment/controller.js:207-213 | in dynamic mode the final rounding does not move the price: it is the based price plus or minus the rounded change |
| PricingAdjustment.FixedCentsPriceIsExact | apis/pricingAdjustment/controller.js:207-213 | a fixed value with at most two decimals is added or subtracted exactly |
| PricingAdjustment.PriceMovesWithIncrement | apis/pricingAdjustment/controller.js:211-213 | for a non-negative value and based price, "increase" never lowers the price and "decrease" never raises it |
| PricingAdjustment.DynamicChangeIsSymmetric | apis/pricingAdjustment/controller.js:207-213 | in dynamic mode an increase and a decrease by the same value move the price by the same amount |
| PricingAdjustment.PriceExamples | apis/pricingAdjustment/controller.js:207-213 | 100.00 raised by 10 % is 110.00; 100.00 lowered by a fixed 15 is 85.00 |
| PricingAdjustment.Upsert | apis/pricingAdjustment/controller.js:215-230 | an existing record for the pair is replaced in place and keeps its id, and nothing else moves; otherwise a record with the fresh id is appended |
| PricingAdjustment.UpsertIsFound | apis/pricingAdjustment/controller.js:215-230 | after the upsert, looking up the pair finds exactly the stored record |
| PricingAdjustment.UpsertKeepsOtherPairs | apis/pricingAdjustment/controller.js:215-230 | the upsert does not change the lookup result of any other pair |
| PricingAdjustment.UpsertKeepsOnePerPair | apis/pricingAdjustment/controller.js:215-230 | the upsert keeps at most one record per (product, profile) pair |
| PricingAdjustment.UpsertKeepsDistinctIds | apis/pricingAdjustment/controller.js:220-230 | with an unused fresh id, adjustment ids stay distinct |
| PricingAdjustment.CreateBasedPrice | apis/pricingAdjustment/controller.js:196-205 | the captured based price is the price of the adjustment for (product, profile's reference) if there is one, and the wholesale price otherwise |
| PricingAdjustment.Create | apis/pricingAdjustment/controller.js:181-241 | it fails with "invalid data" exactly when the profile or the product is unknown; otherwise it stores the computed based price and price for the pair by upsert, leaving products and profiles alone |
| PricingAdjustment.CreatePreservesValid | apis/pricingAdjustment/controller.js:181-230 | with an unused fresh id, `create` keeps the store invariant |
| PricingAdjustment.CreateIsIdempotent | apis/pricingAdjustment/controller.js:196-230 | repeating the same `create` leaves the store and the answer unchanged, unless the profile is based on itself |
| PricingAdjustment.CreateAgreesWithGetBasedOnPrice | apis/pricingAdjustment/controller.js:198-203 | on a valid store with no profile id `""` or `"Global"`, the based price `create` captures is the one `getBasedOnPrice` answers for the profile's reference |
| PricingAdjustment.SelfBasedProfileCompounds | apis/pricingAdjustment/controller.js:196-213 | for a profile based on itself, repeating `create` compounds: 110.00 and then 121.00 from 100.00 at +10 % |
| PricingAdjustment.DeleteAdjustment | apis/pricingAdjustment/controller.js:337-352 | exactly the adjustments with other ids remain, every copy of each, in order; products and profiles are unchanged |
| PricingAdjustment.DeleteAdjustmentRemovesAtMostOne | apis/pricingAdjustment/controller.js:346 | on a valid store, a delete removes at most one adjustment |
| PricingAdjustment.DeleteAdjustmentPreservesValid | apis/pricingAdjustment/controller.js:346 | deleting an adjustment keeps the store invariant |
| PricingAdjustment.GetAllPriceAdjustment | apis/pricingAdjustment/controller.js:431-454 | a missing or empty profile id is rejected; a listed adjustment without a stored product fails as an internal error; otherwise it succeeds (in particular on every valid store), and the answer is the profile's adjustments in order, each with its product's title, sku and category |
| ProfileServices.ValidateCreatePriceProfile | apis/pricingProfile/services.js:4-16 | input is accepted exactly when it is present, has non-empty name, type, mode and increment, and mode and increment are among the allowed values |
| ProfileServices.ValidationIgnoresOptionalFields | apis/pricingProfile/services.js:4-16 | description, reference and status never affect acceptance |
| PricingProfile.Create | apis/pricingProfile/controller.js:109-138 | invalid input is rejected; valid input appends a profile with the fresh id and the supplied fields, with a missing status becoming "draft" |
| PricingProfile.CreatePreservesValid | apis/pricingProfile/controller.js:132 | appending a profile keeps the store invariant |
| PricingProfile.Update | apis/pricingProfile/controller.js:233-272 | invalid input is rejected, then an unknown id; valid input for a stored id always succeeds, and the first profile with the id has its fields overwritten in place, keeping id and status, and nothing else changes |
| PricingProfile.UpdatePreservesValid | apis/pricingProfile/controller.js:261-266 | `update` keeps the store invariant |
| PricingProfile.JoinProducts | apis/pricingProfile/controller.js:354-360 | each adjustment is paired with the product its id names, or with nothing |
| PricingProfile.GetAll | apis/pricingProfile/controller.js:348-370 | every profile in order, each with exactly its own adjustments in store order, each adjustment paired with the first product that has its product id (or none) |
| PricingProfile.GetAllHasProducts | apis/pricingProfile/controller.js:354-358 | on a valid store every listed adjustment carries its product |
| PricingProfile.GetById | apis/pricingProfile/controller.js:461-485 | it fails with "invalid data" exactly when no profile has the id, and succeeds exactly when one has it, answering that profile's entry of the `getAll` listing |
| PricingProfile.GetByIdAgreesWithListing | apis/pricingProfile/controller.js:470-477 | the adjustments `getById` attaches are those the adjustment listing answers for the profile |
| PricingProfile.DeleteById | apis/pricingProfile/controller.js:522-536 | after the delete no profile has the id and no adjustment names it; exactly the others remain, every copy of each, in order |
| PricingProfile.DeleteByIdIdempotent | apis/pricingProfile/controller.js:527-531 | deleting twice is deleting once |
| PricingProfile.DeleteUnknownIsNoOp | apis/pricingProfile/controller.js:527-531 | on a valid store, deleting an unknown id changes nothing |
| PricingProfile.DeleteByIdPreservesValid | apis/pricingProfile/controller.js:527-531 | the cascading delete keeps the store invariant |
| PricingProfile.DeletedProfileIsGone | apis/pricingProfile/controller.js:522-536 | after the delete, `getById` fails and the profile's adjustment listing is empty |
| Products.Create | apis/products/controller.js:73-81 | the given products are appended after the stored ones; profiles and adjustments are unchanged; a missing list changes nothing |
| Products.CreatePreservesValid | apis/products/controller.js:76 | adding products keeps the store invariant |
| Products.ApplyFilters | apis/products/controller.js:171-190 | the chain keeps a subset of its input, and fails only with an internal error |
| Products.ApplyFiltersIsConjunction | apis/products/controller.js:171-190 | a successful chain keeps exactly the products that satisfy every supplied criterion, in order |
| Products.ApplyFiltersSucceeds | apis/products/controller.js:171-190 | the chain does not fail when every product has each field a supplied criterion filters on |
| Products.Search | apis/products/controller.js:168-195 | the search fails only with an internal error, and a successful answer is no longer than the store and holds only stored products |
| Products.SearchIsConjunctiveFilter | apis/products/controller.js:168-195 | a product is in the search result exactly when it is stored and satisfies every supplied criterion; the result is a subsequence of the products |
| Products.SearchSucceeds | apis/products/controller.js:173-190 | the search does not fail when the products carry the fields the query filters on |
| Products.SearchWithoutCriteria | apis/products/controller.js:170-191 | with no non-empty criterion the search answers all products |
| Products.SearchIsIdempotent | apis/products/controller.js:168-195 | searching the result again with the same query gives it back |
| Products.SearchIgnoresQueryCase | apis/products/controller.js:173-190 | lower-casing the query does not change the answer |

## Left out

- HTTP: status codes, response bodies, routing and `try`/`catch` are left out. Each failing path is an `Err` of the matching kind.
- Identifier generation (`uuid.v4()`) is left out. Callers pass the fresh id as a parameter.
- The allowed mode and increment lists are left out as constants. The constants module is not part of this model, so validation takes both lists as parameters.
- Binary floating point is left out. Money is exact integer cents and `toFixed(2)` rounds the exact value half away from zero, so the effect of doubles on ties is not modelled.
- JavaScript coercion is left out. Adjustment values arrive as decimals rather than strings or numbers of any kind, and query parameters are single strings, never arrays.
- `toLowerCase` is left out beyond ASCII: only `A`-`Z` are folded, not other Unicode letters.
- `Products.Create`: a `null` list throws in the source (a 500). The model only knows present or absent and treats absent as empty.
- `PricingProfile.Create`: an explicit `null` status is stored as `null` in the source. The model knows only present or absent, and absent becomes "draft".
- `PricingAdjustment.GetBasedOnPrice`: the model takes the requested ids as a sequence. A missing list is the empty batch, as the `= []` default makes it. A `null` list (lines 74-77 answer 422 and then throw on `map`) is left out.
- `PricingAdjustment.DeleteAdjustment`: the `!id` guard (lines 341-343) cannot fire for a routed path parameter, and when it does the source still goes on to delete. The model always deletes.
- Commented-out code in the controllers (e.g. `getPriceTable`) is not part of this model.
- Response shaping is left out, including the whole database that the adjustment `create` returns in its success body (line 235).
- Seed data is left out: `Db.Initial` takes the seed products as a parameter. The literal catalogue (one seed product has no id) is not reproduced.
- Id types are left out: one string type stands for every id, and ids are compared as strings. The source compares with `===`, which the model cannot express in two cases:
  - numeric seed ids (`"id": 1`) never match a string id such as `"1"`, so `getBasedOnPrice` drops such a product and adjustment `create` answers 400;
  - a request without `productId` matches the seed product that has no id (`undefined === undefined`), so adjustment `create` stores an adjustment without a product id.
- Products without a wholesale price are left out: `Db.Product` always carries one. The documented bulk-create body has only id, title, sku and category, and the source stores such a product as given. For it, `getBasedOnPrice` answers `{id}` with no `basedPrice`, and adjustment `create` stores an undefined based price and the price `"NaN"`; neither answer is modelled.
- Concurrency between requests is left out: every endpoint is one atomic step on the store.
