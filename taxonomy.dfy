/** The taxonomy: seven string-keyed number maps, one per facet bucket. */
module Taxonomies {

  /** The seven facet buckets of a taxonomy. */
  datatype Facet =
    | StatusCounts | TagCounts | TagSizes | TrackerCounts | TrackerSizes | LocationCounts | LocationSizes

  const AllFacets: set<Facet> :=
    {StatusCounts, TagCounts, TagSizes, TrackerCounts, TrackerSizes, LocationCounts, LocationSizes}

  /** A taxonomy is a value: copying it yields a snapshot that later updates cannot reach. */
  datatype Taxonomy = Taxonomy(
    statusCounts: map<string, int>,
    tagCounts: map<string, int>,
    tagSizes: map<string, int>,
    trackerCounts: map<string, int>,
    trackerSizes: map<string, int>,
    locationCounts: map<string, int>,
    locationSizes: map<string, int>)
  {
    /** The bucket of facet `f`. */
    function Get(f: Facet): map<string, int>
    {
      match f
      case StatusCounts => statusCounts
      case TagCounts => tagCounts
      case TagSizes => tagSizes
      case TrackerCounts => trackerCounts
      case TrackerSizes => trackerSizes
      case LocationCounts => locationCounts
      case LocationSizes => locationSizes
    }
  }

  /** Two taxonomies whose buckets agree facet by facet are equal. */
  lemma {:induction false} FacetwiseEqual(a: Taxonomy, b: Taxonomy)
    requires forall f :: f in AllFacets ==> a.Get(f) == b.Get(f)
    ensures a == b
  {
    assert a.Get(StatusCounts) == b.Get(StatusCounts);
    assert a.Get(TagCounts) == b.Get(TagCounts);
    assert a.Get(TagSizes) == b.Get(TagSizes);
    assert a.Get(TrackerCounts) == b.Get(TrackerCounts);
    assert a.Get(TrackerSizes) == b.Get(TrackerSizes);
    assert a.Get(LocationCounts) == b.Get(LocationCounts);
    assert a.Get(LocationSizes) == b.Get(LocationSizes);
  }

  /** No count and no size in any bucket is negative. */
  predicate NonNegative(t: Taxonomy)
  {
    forall f, k :: k in t.Get(f) ==> t.Get(f)[k] >= 0
  }

  /** The taxonomy a freshly started service holds. */
  function InitialTaxonomy(): (t: Taxonomy)
    ensures forall f, k :: k in t.Get(f) ==> t.Get(f)[k] == 0
    ensures NonNegative(t)
    ensures t.statusCounts.Keys == {""} && t.tagCounts.Keys == {"", "untagged"}
    ensures t.trackerCounts.Keys == {""} && t.locationCounts.Keys == {""} && t.locationSizes.Keys == {""}
    ensures t.tagSizes == map[] && t.trackerSizes == map[]
  {
    Taxonomy(
      map["" := 0],
      map["" := 0, "untagged" := 0],
      map[],
      map["" := 0],
      map[],
      map["" := 0],
      map["" := 0])
  }
}
