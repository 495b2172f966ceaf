/** The nested pricing catalog of one search result (`salt_forms_json`),
    keyed by form, then strength, then packing, and its one-level flattening. */
module Catalog {
  import opened Wrappers

  /** A seller's offer. Only its selling price takes part in price resolution. */
  datatype Offer = Offer(sellingPrice: int)

  /** One value of `Object.values(products)`: either a lone offer (or `null`),
      or a one-level array of offers (each possibly `null`) that `.flat()` splices in. */
  datatype Slot = Single(offer: Option<Offer>) | Group(offers: seq<Option<Offer>>)

  /** The value found at `catalog[form][strength][packing]`, in enumeration order. */
  type Products = seq<Slot>

  /** A present key is an own key holding a truthy value; every falsy or
      non-object value of the source is modelled as an absent key, and keys
      inherited from the object prototype are not represented. */
  type Catalog = map<string, map<string, map<string, Products>>>

  /** True iff all three levels of the selector are present. */
  predicate HasPath(c: Catalog, form: string, strength: string, packing: string)
  {
    form in c && strength in c[form] && packing in c[form][strength]
  }

  /** Optional chaining `c?.[form]?.[strength]?.[packing]` followed by the
      falsiness guard: absent at any level gives None. */
  function Lookup(c: Catalog, form: string, strength: string, packing: string): (r: Option<Products>)
    ensures r.None? <==> !HasPath(c, form, strength, packing)
    ensures r.Some? ==> r.value == c[form][strength][packing]
  {
    if form !in c then None
    else if strength !in c[form] then None
    else if packing !in c[form][strength] then None
    else Some(c[form][strength][packing])
  }

  /** The offers a slot contributes to the flattened list. */
  function Members(s: Slot): seq<Option<Offer>>
  {
    match s
    case Single(o) => [o]
    case Group(os) => os
  }

  /** `.flat()` of the slot values: exactly one level of nesting is removed,
      so an offer occurs in the result exactly when some slot contributes it. */
  function Flatten(slots: Products): (r: seq<Option<Offer>>)
    ensures forall i, o :: 0 <= i < |slots| && o in Members(slots[i]) ==> o in r
    ensures forall o :: o in r ==> exists i :: 0 <= i < |slots| && o in Members(slots[i])
  {
    if |slots| == 0 then []
    else
      var rest := Flatten(slots[1..]);
      assert forall o :: o in rest ==> exists i :: 0 <= i < |slots| && o in Members(slots[i]) by {
        forall o | o in rest
          ensures exists i :: 0 <= i < |slots| && o in Members(slots[i])
        {
          var j :| 0 <= j < |slots[1..]| && o in Members(slots[1..][j]);
          assert o in Members(slots[j + 1]);
        }
      }
      assert forall i, o :: 1 <= i < |slots| && o in Members(slots[i]) ==> o in rest by {
        forall i, o | 1 <= i < |slots| && o in Members(slots[i])
          ensures o in rest
        {
          assert o in Members(slots[1..][i - 1]);
        }
      }
      Members(slots[0]) + rest
  }

  /** Every offer listed on its own, with no sub-groups. */
  function Singles(os: seq<Option<Offer>>): Products
  {
    seq(|os|, i requires 0 <= i < |os| => Single(os[i]))
  }

  /** Flattening distributes over concatenation of slot lists. */
  lemma {:induction false} FlattenAppend(a: Products, b: Products)
    ensures Flatten(a + b) == Flatten(a) + Flatten(b)
  {
    if |a| == 0 {
      assert a + b == b;
    } else {
      assert (a + b)[1..] == a[1..] + b;
      FlattenAppend(a[1..], b);
    }
  }

  /** Listing offers one by one and flattening gives back the same offers. */
  lemma {:induction false} FlattenSingles(os: seq<Option<Offer>>)
    ensures Flatten(Singles(os)) == os
  {
    if |os| > 0 {
      assert Singles(os)[1..] == Singles(os[1..]);
      FlattenSingles(os[1..]);
      assert [os[0]] + os[1..] == os;
    }
  }
}
