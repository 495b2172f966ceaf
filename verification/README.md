# Medicine search price resolver, in Dafny

This project models the price logic of the `MedicineSearch` React component:
`getLowestPrice`, which takes one search result's nested catalog
(`salt_forms_json`, keyed form → strength → packing) and the most common
form/strength/packing, follows the three levels with optional chaining, flattens
the slice found there by one level (offers listed directly or in named
sub-groups), drops `null` offers, maps the rest to `selling_price` and returns
the minimum, or `null` when there is no path or no price. It also models the
packing label `Packing.split(' ')[0]` shown beside each result.

Modules:

- `Wrappers`: the `Option` type standing in for JavaScript's `null`.
- `Catalog`: the catalog, offers, slots (`Single` for a lone offer or `null`,
  `Group` for a one-level sub-array), the three-level `Lookup`, and `Flatten`
  (`Object.values(products).flat()`).
- `PriceResolver`: the filter / map / minimum pipeline, `GetLowestPrice`, and
  the lemmas relating it to an independent description of the lowest price
  (`IsLowest`): attained, a lower bound, unique, and insensitive to nulls,
  order and grouping.
- `PackingLabel`: `String.prototype.split` with a one-character separator, its
  inverse `Join`, and the first-word label.
- `Scenarios`: four small worked catalogs.

Prices are mathematical integers. A catalog key that is present always maps to
a truthy value; every value the source treats as missing (`undefined`, `null`,
`0`, `""`, a non-object at an intermediate level) is modelled as an absent key.
The values of `Object.values(products)` are modelled as a sequence in the
object's enumeration order, which covers both an array of offers and an object
of named sub-arrays.

## Model

| member | source | states |
|---|---|---|
| Catalog.Lookup | src/MedicineSearch.jsx:30-31 | the slice is found exactly when form, strength and packing are all present as own keys, and is then the value stored there; a missing level gives none |
| Catalog.Flatten | src/MedicineSearch.jsx:33-34 | `.flat()` of the slot values: an offer occurs in the result exactly when some slot (a lone offer or a sub-array) contributes it |
| Catalog.FlattenAppend | src/MedicineSearch.jsx:33-34 | flattening the slot values of a concatenated slice is the concatenation of the flattened parts |
| Catalog.FlattenSingles | src/MedicineSearch.jsx:33-34 | listing offers one per slot and flattening gives back exactly those offers, in order |
| PriceResolver.DropNulls | src/MedicineSearch.jsx:35 | the filtered list is no longer than the input and contains an offer exactly when the input holds it as a non-null entry |
| PriceResolver.SellingPrices | src/MedicineSearch.jsx:36 | one price per offer, and a price occurs in the result exactly when some offer carries it |
| PriceResolver.MinOf | src/MedicineSearch.jsx:38 | none exactly for an empty price list; otherwise a price that occurs in the list and is at most every price in it |
| PriceResolver.LowestPrice | src/MedicineSearch.jsx:35-38 | the filter / map / minimum pipeline gives none exactly when there is no non-null offer, and otherwise a price attained by some non-null offer and no greater than any non-null offer's price |
| PriceResolver.ResolveSlots | src/MedicineSearch.jsx:33-38 | a slice resolves to none exactly when its flattened offers hold no non-null offer, and otherwise to the lowest non-null price among them, which is attained |
| PriceResolver.LowestPriceIff | src/MedicineSearch.jsx:35-38 | the pipeline returns m if and only if m is the lowest non-null selling price, in both directions |
| PriceResolver.SameOffersSameLowest | src/MedicineSearch.jsx:35-38 | two offer lists with the same non-null offers resolve to the same result, whatever their order, duplicates or nulls |
| PriceResolver.NullInsertion | src/MedicineSearch.jsx:35 | inserting a null entry at any position of the flattened offers does not change the result |
| PriceResolver.NullRemoval | src/MedicineSearch.jsx:35 | removing every null entry does not change the result |
| PriceResolver.OfferPermutation | src/MedicineSearch.jsx:38 | any permutation of the flattened offers resolves to the same result |
| PriceResolver.SameSlotsSameLowest | src/MedicineSearch.jsx:33-38 | two slices made of the same slots resolve to the same result |
| PriceResolver.SlotPermutation | src/MedicineSearch.jsx:33-38 | any permutation of a slice's slots (lone offers or sub-groups) resolves to the same result |
| PriceResolver.Grouping | src/MedicineSearch.jsx:33-34 | a slice with sub-groups resolves like the same offers listed flat, one per slot |
| PriceResolver.NullSlotInsertion | src/MedicineSearch.jsx:33-35 | inserting a lone null slot at any position of a slice does not change the result |
| PriceResolver.GetLowestPrice | src/MedicineSearch.jsx:29-39 | a form, strength or packing missing as an own key gives none; otherwise none exactly when the flattened slice has no non-null offer, and else the lowest non-null selling price, attained by some offer |
| PackingLabel.Split | src/MedicineSearch.jsx:108 | splitting yields at least one piece and no piece contains the separator |
| PackingLabel.SplitJoin | src/MedicineSearch.jsx:108 | joining the pieces of a split with the separator restores the string |
| PackingLabel.SplitFirst | src/MedicineSearch.jsx:108 | the first piece is a prefix of the string that ends at its end or just before a separator |
| PackingLabel.FirstWord | src/MedicineSearch.jsx:108 | the label is a prefix of the packing with no space, ending at the first space or at the end, and equals the packing when it has no space |
| PackingLabel.FirstWordUnique | src/MedicineSearch.jsx:108 | any space-free prefix ending at a space or at the end of the packing is the label, so those properties determine it |
| Scenarios.FlatSliceWithNull | src/MedicineSearch.jsx:29-39 | offers 12, null, 9 resolve to 9 |
| Scenarios.EmptyCatalog | src/MedicineSearch.jsx:30-31 | an empty catalog resolves to none |
| Scenarios.AllNullSlice | src/MedicineSearch.jsx:35-38 | a slice of two nulls resolves to none |
| Scenarios.GroupedSlice | src/MedicineSearch.jsx:33-38 | sub-groups holding 20 and 5 resolve to 5 |

## Left out

- Catalog.Lookup / PriceResolver.GetLowestPrice: only own keys of the catalog are modelled; a selector naming a property inherited from the object prototype (`toString`, `constructor`, `__proto__`) follows the prototype chain in the source and can reach a truthy non-catalog value (for example the string `"t"`, giving `NaN`), which the model does not represent.
- `handleSearch` (src/MedicineSearch.jsx:10-27): the `fetch` call, JSON parsing and loading/error state are network I/O and React state.
- All JSX rendering, input and Enter-key handling, and the loop over results (src/MedicineSearch.jsx:41-129) are user interface; this includes the ` strips` suffix after the packing label and the truthiness test at line 119 that displays a price of `0` like "no stores selling".
- The call site's choice of the `most_common` form, strength and packing (lines 68-75) is a parameter of `GetLowestPrice`, not modelled further.
- JavaScript number semantics: prices are unbounded integers, so there is no `NaN` from an offer missing `selling_price`, no `-0`, and no `Infinity` (the empty `Math.min` call is guarded at line 38 and modelled as none).
- Dynamic typing: falsy-but-present values and non-object intermediate levels are modelled as absent keys; a truthy non-collection slice (a number or a string), an explicit `undefined` entry (which passes the `!== null` filter and then throws) and arrays nested deeper than one level are not modelled.
- A `null` or `undefined` `salt_forms_json` behaves like the empty catalog and is not modelled separately.
- Engine limits on spreading a very large array into `Math.min`.
- Determinism and idempotence need no lemma: every member is a pure function.
