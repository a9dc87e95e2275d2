/**
 * The structural diff between two taxonomy snapshots: for every facet key whose value differs,
 * one add, replace or remove operation addressed by (facet, key).
 */
module TaxonomyDiff {
  import opened Taxonomies

  /** One patch operation on a single bucket entry. */
  datatype Operation = Add(value: int) | Replace(value: int) | Remove

  /** The address of a bucket entry: the facet and the key inside it. */
  datatype Path = Path(facet: Facet, key: string)

  /** A patch: at most one operation per path. */
  type Patch = map<Path, Operation>

  /** The operations that turn bucket `a` into bucket `b`. */
  function DiffFacet(a: map<string, int>, b: map<string, int>): (d: map<string, Operation>)
    ensures forall k :: k in d <==> (k in a || k in b) && !(k in a && k in b && a[k] == b[k])
  {
    map k | k in a.Keys + b.Keys && !(k in a && k in b && a[k] == b[k]) ::
      if k !in a then Add(b[k]) else if k !in b then Remove else Replace(b[k])
  }

  /** Replays the operations `d` on bucket `m`. */
  function ApplyFacet(d: map<string, Operation>, m: map<string, int>): map<string, int>
  {
    map k | k in m.Keys + d.Keys && !(k in d && d[k].Remove?) :: if k in d then d[k].value else m[k]
  }

  /** Replaying the bucket diff from `a` to `b` on `a` yields `b`. */
  lemma {:induction false} ApplyDiffFacet(a: map<string, int>, b: map<string, int>)
    ensures ApplyFacet(DiffFacet(a, b), a) == b
  {
    var d := DiffFacet(a, b);
    var r := ApplyFacet(d, a);
    assert r.Keys == b.Keys;
  }

  /** A bucket diff is empty exactly when the buckets are equal. */
  lemma {:induction false} DiffFacetEmptyIff(a: map<string, int>, b: map<string, int>)
    ensures DiffFacet(a, b) == map[] <==> a == b
  {
    if DiffFacet(a, b) == map[] {
      assert forall k :: k !in DiffFacet(a, b);
      assert a.Keys == b.Keys;
    }
  }

  /** Every (facet, key) address that holds an entry of `t`. */
  function PathsOf(t: Taxonomy): set<Path>
  {
    set f, k | f in AllFacets && k in t.Get(f) :: Path(f, k)
  }

  /** The diff from snapshot `a` to snapshot `b`, every facet's bucket diff under its facet. */
  function Compare(a: Taxonomy, b: Taxonomy): (p: Patch)
    ensures forall q :: q in p ==> q.key in a.Get(q.facet) || q.key in b.Get(q.facet)
  {
    map q | q in PathsOf(a) + PathsOf(b) && q.key in DiffFacet(a.Get(q.facet), b.Get(q.facet)) ::
      DiffFacet(a.Get(q.facet), b.Get(q.facet))[q.key]
  }

  /** Every entry of `t` has its address in PathsOf(t). */
  lemma PathOfEntry(t: Taxonomy, f: Facet, k: string)
    requires k in t.Get(f)
    ensures Path(f, k) in PathsOf(t)
  {
    assert f in AllFacets;
  }

  /** The diff addresses exactly the entries whose bucket diff has an operation, and carries it. */
  lemma {:induction false} InCompare(a: Taxonomy, b: Taxonomy, q: Path)
    ensures q in Compare(a, b) <==> q.key in DiffFacet(a.Get(q.facet), b.Get(q.facet))
    ensures q in Compare(a, b) ==> Compare(a, b)[q] == DiffFacet(a.Get(q.facet), b.Get(q.facet))[q.key]
  {
    if q.key in DiffFacet(a.Get(q.facet), b.Get(q.facet)) {
      if q.key in a.Get(q.facet) {
        PathOfEntry(a, q.facet, q.key);
      } else {
        PathOfEntry(b, q.facet, q.key);
      }
    }
  }

  /** The operations of `p` addressed to facet `f`, keyed by bucket key. */
  function FacetPart(p: Patch, f: Facet): map<string, Operation>
  {
    map q | q in p && q.facet == f :: q.key := p[q]
  }

  /** Replays patch `p` on snapshot `t`. */
  function Apply(p: Patch, t: Taxonomy): Taxonomy
  {
    Taxonomy(
      ApplyFacet(FacetPart(p, StatusCounts), t.statusCounts),
      ApplyFacet(FacetPart(p, TagCounts), t.tagCounts),
      ApplyFacet(FacetPart(p, TagSizes), t.tagSizes),
      ApplyFacet(FacetPart(p, TrackerCounts), t.trackerCounts),
      ApplyFacet(FacetPart(p, TrackerSizes), t.trackerSizes),
      ApplyFacet(FacetPart(p, LocationCounts), t.locationCounts),
      ApplyFacet(FacetPart(p, LocationSizes), t.locationSizes))
  }

  /** Each facet of a replayed snapshot is its bucket replayed with that facet's operations. */
  lemma ApplyGet(p: Patch, t: Taxonomy, f: Facet)
    ensures Apply(p, t).Get(f) == ApplyFacet(FacetPart(p, f), t.Get(f))
  {
    match f
    case StatusCounts =>
    case TagCounts =>
    case TagSizes =>
    case TrackerCounts =>
    case TrackerSizes =>
    case LocationCounts =>
    case LocationSizes =>
  }

  /** The part of Compare(a, b) addressed to one facet is that facet's bucket diff. */
  lemma {:induction false} FacetPartOfCompare(a: Taxonomy, b: Taxonomy, f: Facet)
    ensures FacetPart(Compare(a, b), f) == DiffFacet(a.Get(f), b.Get(f))
  {
    var c, d := Compare(a, b), DiffFacet(a.Get(f), b.Get(f));
    forall k ensures (Path(f, k) in c <==> k in d) && (k in d ==> c[Path(f, k)] == d[k]) {
      InCompare(a, b, Path(f, k));
    }
    FacetPartOf(c, d, f);
  }

  /** A patch whose facet-`f` addresses carry exactly the operations of `d` has `d` as its facet-`f` part. */
  lemma FacetPartOf(c: Patch, d: map<string, Operation>, f: Facet)
    requires forall k :: Path(f, k) in c <==> k in d
    requires forall k :: k in d ==> c[Path(f, k)] == d[k]
    ensures FacetPart(c, f) == d
  {
    var p := FacetPart(c, f);
    forall k | k in p ensures k in d {
      var q :| q in c && q.facet == f && q.key == k;
      assert q == Path(f, k);
    }
    assert p.Keys == d.Keys;
  }

  /** Replaying the diff from `a` to `b` on `a` yields `b`. */
  lemma {:induction false} ApplyCompare(a: Taxonomy, b: Taxonomy)
    ensures Apply(Compare(a, b), a) == b
  {
    var r := Apply(Compare(a, b), a);
    forall f | f in AllFacets ensures r.Get(f) == b.Get(f) {
      ApplyGet(Compare(a, b), a, f);
      FacetPartOfCompare(a, b, f);
      ApplyDiffFacet(a.Get(f), b.Get(f));
    }
    FacetwiseEqual(r, b);
  }

  /** The diff is empty exactly when the two snapshots are equal. */
  lemma {:induction false} CompareEmptyIff(a: Taxonomy, b: Taxonomy)
    ensures Compare(a, b) == map[] <==> a == b
  {
    if a == b {
      forall q ensures q !in Compare(a, b) {
        InCompare(a, b, q);
        DiffFacetEmptyIff(a.Get(q.facet), b.Get(q.facet));
      }
      assert Compare(a, b) == map[];
    } else {
      var f :| f in AllFacets && a.Get(f) != b.Get(f) by {
        if forall f :: f in AllFacets ==> a.Get(f) == b.Get(f) {
          FacetwiseEqual(a, b);
        }
      }
      DiffFacetEmptyIff(a.Get(f), b.Get(f));
      var k :| k in DiffFacet(a.Get(f), b.Get(f));
      InCompare(a, b, Path(f, k));
    }
  }
}
