/** Worked examples of the resolver on small catalogs. */
module Scenarios {
  import opened Wrappers
  import opened Catalog
  import opened PriceResolver

  /** A flat slice with a `null` entry resolves to its cheaper offer. */
  lemma FlatSliceWithNull()
    ensures GetLowestPrice(map["Tablet" := map["500mg" := map["10 strips" :=
              [Single(Some(Offer(12))), Single(None), Single(Some(Offer(9)))]]]],
              "Tablet", "500mg", "10 strips") == Some(9)
  {
  }

  /** An empty catalog has no path. */
  lemma EmptyCatalog()
    ensures GetLowestPrice(map[], "Tablet", "500mg", "10 strips") == None
  {
  }

  /** A slice of nothing but `null` entries has no price. */
  lemma AllNullSlice()
    ensures GetLowestPrice(map["Tablet" := map["500mg" := map["10 strips" :=
              [Single(None), Single(None)]]]],
              "Tablet", "500mg", "10 strips") == None
  {
  }

  /** Named sub-groups are flattened before the minimum is taken. */
  lemma GroupedSlice()
    ensures GetLowestPrice(map["Tablet" := map["500mg" := map["10 strips" :=
              [Group([Some(Offer(20))]), Group([Some(Offer(5))])]]]],
              "Tablet", "500mg", "10 strips") == Some(5)
  {
  }
}
