/** `getLowestPrice`: look up the selected slice of the catalog, flatten it one
    level, drop `null` offers, take their selling prices and return the minimum,
    or None when there is no path or no price. */
module PriceResolver {
  import opened Wrappers
  import opened Catalog

  /** `.filter((product) => product !== null)`, in order. */
  function DropNulls(offers: seq<Option<Offer>>): (r: seq<Offer>)
    ensures |r| <= |offers|
    ensures forall o :: o in r <==> Some(o) in offers
  {
    if |offers| == 0 then []
    else if offers[0].None? then DropNulls(offers[1..])
    else [offers[0].value] + DropNulls(offers[1..])
  }

  /** `.map((product) => product.selling_price)`. */
  function SellingPrices(os: seq<Offer>): (r: seq<int>)
    ensures |r| == |os|
    ensures forall p :: p in r <==> Offer(p) in os
  {
    var r := seq(|os|, i requires 0 <= i < |os| => os[i].sellingPrice);
    assert forall p :: Offer(p) in os ==> p in r by {
      forall p | Offer(p) in os ensures p in r {
        var i :| 0 <= i < |os| && os[i] == Offer(p);
        assert r[i] == p;
      }
    }
    r
  }

  /** `prices.length ? Math.min(...prices) : null`. */
  function MinOf(prices: seq<int>): (r: Option<int>)
    ensures r.None? <==> |prices| == 0
    ensures r.Some? ==> r.value in prices
    ensures r.Some? ==> forall i :: 0 <= i < |prices| ==> r.value <= prices[i]
  {
    if |prices| == 0 then None
    else
      match MinOf(prices[1..])
      case None => Some(prices[0])
      case Some(m) => Some(if prices[0] <= m then prices[0] else m)
  }

  /** True iff the list holds at least one non-null offer. */
  predicate HasOffer(offers: seq<Option<Offer>>)
  {
    exists i :: 0 <= i < |offers| && offers[i].Some?
  }

  /** True iff `m` is the selling price of some non-null offer and no non-null
      offer is cheaper: the independent description of the lowest price. */
  predicate IsLowest(m: int, offers: seq<Option<Offer>>)
  {
    && Some(Offer(m)) in offers
    && forall i :: 0 <= i < |offers| && offers[i].Some? ==> m <= offers[i].value.sellingPrice
  }

  /** The price pipeline applied to an already flattened list of offers: None
      exactly when there is no non-null offer, and otherwise a price that is
      both attained by some non-null offer and no greater than any of them. */
  function LowestPrice(offers: seq<Option<Offer>>): (r: Option<int>)
    ensures r.None? <==> !HasOffer(offers)
    ensures r.Some? ==> IsLowest(r.value, offers)
  {
    var os := DropNulls(offers);
    var r := MinOf(SellingPrices(os));
    assert HasOffer(offers) ==> |os| > 0 by {
      if HasOffer(offers) {
        var i :| 0 <= i < |offers| && offers[i].Some?;
        assert offers[i].value in os;
      }
    }
    assert r.Some? ==> IsLowest(r.value, offers) by {
      if r.Some? {
        forall i | 0 <= i < |offers| && offers[i].Some?
          ensures r.value <= offers[i].value.sellingPrice
        {
          var p := offers[i].value.sellingPrice;
          assert Offer(p) in os;
          assert p in SellingPrices(os);
        }
      }
    }
    r
  }

  /** The price pipeline applied to a slice of the catalog: the lowest price
      among the non-null offers of the flattened slice, or None when there is none. */
  function ResolveSlots(products: Products): (r: Option<int>)
    ensures r.None? <==> !HasOffer(Flatten(products))
    ensures r.Some? ==> IsLowest(r.value, Flatten(products))
  {
    LowestPrice(Flatten(products))
  }

  /** The lowest price is the unique price satisfying IsLowest. */
  lemma LowestPriceIff(offers: seq<Option<Offer>>, m: int)
    ensures LowestPrice(offers) == Some(m) <==> IsLowest(m, offers)
  {
  }

  /** The result depends only on which non-null offers occur, not on their
      order, multiplicity, or on any null entries. */
  lemma SameOffersSameLowest(a: seq<Option<Offer>>, b: seq<Option<Offer>>)
    requires forall o: Offer :: Some(o) in a <==> Some(o) in b
    ensures LowestPrice(a) == LowestPrice(b)
  {
  }

  /** Inserting a `null` entry anywhere in the flattened offers leaves the result unchanged. */
  lemma NullInsertion(offers: seq<Option<Offer>>, i: nat)
    requires i <= |offers|
    ensures LowestPrice(offers[..i] + [None] + offers[i..]) == LowestPrice(offers)
  {
    var b := offers[..i] + [None] + offers[i..];
    forall o: Offer
      ensures Some(o) in b <==> Some(o) in offers
    {
      assert offers == offers[..i] + offers[i..];
    }
    SameOffersSameLowest(b, offers);
  }

  /** Removing every `null` entry leaves the result unchanged. */
  lemma NullRemoval(offers: seq<Option<Offer>>)
    ensures LowestPrice(Somes(DropNulls(offers))) == LowestPrice(offers)
  {
    SameOffersSameLowest(Somes(DropNulls(offers)), offers);
  }

  /** The non-null offers wrapped back as offer entries. */
  function Somes(os: seq<Offer>): (r: seq<Option<Offer>>)
    ensures forall o :: Some(o) in r <==> o in os
    ensures forall i :: 0 <= i < |r| ==> r[i].Some?
  {
    var r := seq(|os|, i requires 0 <= i < |os| => Some(os[i]));
    assert forall o :: o in os ==> Some(o) in r by {
      forall o | o in os ensures Some(o) in r {
        var i :| 0 <= i < |os| && os[i] == o;
        assert r[i] == Some(o);
      }
    }
    r
  }

  /** Permuting the flattened offers leaves the result unchanged. */
  lemma OfferPermutation(a: seq<Option<Offer>>, b: seq<Option<Offer>>)
    requires multiset(a) == multiset(b)
    ensures LowestPrice(a) == LowestPrice(b)
  {
    forall o: Offer
      ensures Some(o) in a <==> Some(o) in b
    {
      assert Some(o) in a <==> Some(o) in multiset(a);
      assert Some(o) in b <==> Some(o) in multiset(b);
    }
    SameOffersSameLowest(a, b);
  }

  /** Two slices whose slots contribute the same offers resolve alike. */
  lemma SameSlotsSameLowest(s: Products, t: Products)
    requires forall x :: x in s <==> x in t
    ensures ResolveSlots(s) == ResolveSlots(t)
  {
    forall o: Offer
      ensures Some(o) in Flatten(s) <==> Some(o) in Flatten(t)
    {
      if Some(o) in Flatten(s) {
        var i :| 0 <= i < |s| && Some(o) in Members(s[i]);
        assert s[i] in t;
      }
      if Some(o) in Flatten(t) {
        var j :| 0 <= j < |t| && Some(o) in Members(t[j]);
        assert t[j] in s;
      }
    }
    SameOffersSameLowest(Flatten(s), Flatten(t));
  }

  /** Permuting the slots (lone offers or sub-groups) of a slice leaves the result unchanged. */
  lemma SlotPermutation(s: Products, t: Products)
    requires multiset(s) == multiset(t)
    ensures ResolveSlots(s) == ResolveSlots(t)
  {
    forall x
      ensures x in s <==> x in t
    {
      assert x in s <==> x in multiset(s);
      assert x in t <==> x in multiset(t);
    }
    SameSlotsSameLowest(s, t);
  }

  /** Grouping offers into one-level sub-arrays gives the same result as
      listing the same offers flat. */
  lemma Grouping(s: Products)
    ensures ResolveSlots(s) == ResolveSlots(Singles(Flatten(s)))
  {
    FlattenSingles(Flatten(s));
  }

  /** Inserting a lone `null` slot anywhere in a slice leaves the result unchanged. */
  lemma NullSlotInsertion(s: Products, i: nat)
    requires i <= |s|
    ensures ResolveSlots(s[..i] + [Single(None)] + s[i..]) == ResolveSlots(s)
  {
    FlattenAppend(s[..i] + [Single(None)], s[i..]);
    FlattenAppend(s[..i], [Single(None)]);
    assert Flatten([Single(None)]) == [None];
    FlattenAppend(s[..i], s[i..]);
    assert s[..i] + s[i..] == s;
    var f := Flatten(s);
    var k := |Flatten(s[..i])|;
    assert f[..k] == Flatten(s[..i]);
    assert f[k..] == Flatten(s[i..]);
    NullInsertion(f, k);
  }

  /** `getLowestPrice(saltFormsJson, form, strength, packing)`. */
  function GetLowestPrice(c: Catalog, form: string, strength: string, packing: string): (r: Option<int>)
    ensures !HasPath(c, form, strength, packing) ==> r.None?
    ensures HasPath(c, form, strength, packing) ==>
      var offers := Flatten(c[form][strength][packing]);
      && (r.None? <==> !HasOffer(offers))
      && (r.Some? ==> IsLowest(r.value, offers))
  {
    match Lookup(c, form, strength, packing)
    case None => None
    case Some(products) => ResolveSlots(products)
  }
}
