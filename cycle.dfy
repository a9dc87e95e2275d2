/**
 * One refresh cycle of the taxonomy as functions on values: the reset at list start, the
 * per-torrent accumulation, the "all" sentinels at list end, and what a whole cycle computes.
 */
module TaxonomyCycle {
  import opened Torrents
  import opened Taxonomies
  import opened Buckets
  import opened TaxonomyDiff

  // ---------------------------------------------------------------- list start

  /** The status bucket after list start: every known status and "" back to 0, other keys kept. */
  function ResetStatusCounts(m: map<string, int>): (r: map<string, int>)
    ensures r.Keys == m.Keys + StatusLabels() + {""}
    ensures forall k :: k in r ==> r[k] == if k in TorrentStatusMap || k == "" then 0 else m[k]
  {
    SeedZeroSpec(m, TorrentStatusMap);
    SeedZero(m, TorrentStatusMap)["" := 0]
  }

  /**
   * The taxonomy after list start: statuses reset in place, every other bucket replaced by its
   * fixed start shape, whose every value is 0.
   */
  function ResetTaxonomy(t: Taxonomy): (r: Taxonomy)
    ensures Ready(r)
    ensures r.statusCounts.Keys == t.statusCounts.Keys + StatusLabels() + {""}
    ensures forall f, k :: f != StatusCounts && k in r.Get(f) ==> r.Get(f)[k] == 0
    ensures r.tagCounts.Keys == {"", "untagged"} && r.trackerCounts.Keys == {""} && r.locationCounts.Keys == {""}
    ensures r.tagSizes == map[] && r.trackerSizes == map[] && r.locationSizes == map[]
  {
    Taxonomy(
      ResetStatusCounts(t.statusCounts),
      map["" := 0, "untagged" := 0],
      map[],
      map["" := 0],
      map[],
      map["" := 0],
      map[])
  }

  // ---------------------------------------------------------------- per torrent

  /** The taxonomy can take a torrent without tags: its "untagged" bucket exists. */
  predicate Ready(t: Taxonomy)
  {
    "untagged" in t.tagCounts
  }

  /**
   * The tag-count bucket after one torrent: "untagged" gains 1 when the torrent has no tags,
   * otherwise each listed tag gains 1 per occurrence, absent tags being created.
   */
  function TagCountsAfter(m: map<string, int>, tags: seq<string>): (r: map<string, int>)
    requires tags == [] ==> "untagged" in m
    ensures r.Keys == m.Keys + (if tags == [] then {"untagged"} else KeySet(tags))
    ensures forall k :: Get0(r, k) == Get0(m, k) + UntaggedOr(tags, k)
  {
    var seeded := if |tags| == 0 then m["untagged" := m["untagged"] + 1] else m;
    BumpSpec(seeded, tags, 1);
    Bump(seeded, tags, 1)
  }

  /** What a torrent with these tags adds to tag-count key `k`. */
  function UntaggedOr(tags: seq<string>, k: string): nat
  {
    if tags == [] then (if k == "untagged" then 1 else 0) else multiset(tags)[k]
  }

  /**
   * The taxonomy after one torrent. Locations use seed-then-increment like tags and trackers
   * (the source does not seed them; see LocationAsWrittenYieldsNaN).
   */
  function ProcessTorrent(t: Taxonomy, tor: TorrentProperties): (r: Taxonomy)
    requires StatusesIn(tor, t.statusCounts.Keys)
    requires Ready(t)
    ensures Ready(r) && r.statusCounts.Keys == t.statusCounts.Keys
  {
    Taxonomy(
      Increment(t.statusCounts, tor.status, 1),
      TagCountsAfter(t.tagCounts, tor.tags),
      Bump(t.tagSizes, tor.tags, tor.sizeBytes),
      Bump(t.trackerCounts, tor.trackerURIs, 1),
      Bump(t.trackerSizes, tor.trackerURIs, tor.sizeBytes),
      Bump(t.locationCounts, [tor.directory], 1),
      Bump(t.locationSizes, [tor.directory], tor.sizeBytes))
  }

  /** What one torrent adds to key `k` of facet `f`: the reference definition of accumulation. */
  function Delta(tor: TorrentProperties, f: Facet, k: string): int
  {
    match f
    case StatusCounts => multiset(tor.status)[k]
    case TagCounts => UntaggedOr(tor.tags, k)
    case TagSizes => tor.sizeBytes * multiset(tor.tags)[k]
    case TrackerCounts => multiset(tor.trackerURIs)[k]
    case TrackerSizes => tor.sizeBytes * multiset(tor.trackerURIs)[k]
    case LocationCounts => if tor.directory == k then 1 else 0
    case LocationSizes => if tor.directory == k then tor.sizeBytes else 0
  }

  /** The keys of facet `f` that one torrent touches. */
  function Mentioned(tor: TorrentProperties, f: Facet): set<string>
  {
    match f
    case StatusCounts => KeySet(tor.status)
    case TagCounts => if tor.tags == [] then {"untagged"} else KeySet(tor.tags)
    case TagSizes => KeySet(tor.tags)
    case TrackerCounts => KeySet(tor.trackerURIs)
    case TrackerSizes => KeySet(tor.trackerURIs)
    case LocationCounts => {tor.directory}
    case LocationSizes => {tor.directory}
  }

  /** Bucket `after` is bucket `before` plus what `tor` adds to facet `f`, key by key. */
  ghost predicate AddsDelta(before: map<string, int>, after: map<string, int>, tor: TorrentProperties, f: Facet)
  {
    && after.Keys == before.Keys + Mentioned(tor, f)
    && forall k :: Get0(after, k) == Get0(before, k) + Delta(tor, f, k)
  }

  /** A seeded bump by the listed keys adds each key's count times `delta`. */
  lemma {:induction false} BumpAddsDelta(m: map<string, int>, ks: seq<string>, delta: int, tor: TorrentProperties, f: Facet)
    requires Mentioned(tor, f) == KeySet(ks)
    requires forall k :: Delta(tor, f, k) == delta * multiset(ks)[k]
    ensures AddsDelta(m, Bump(m, ks, delta), tor, f)
  {
    BumpSpec(m, ks, delta);
  }

  /** A one-key bump adds `delta` to the torrent's directory. */
  lemma {:induction false} BumpSingleAddsDelta(m: map<string, int>, delta: int, tor: TorrentProperties, f: Facet)
    requires f == LocationCounts || f == LocationSizes
    requires delta == if f == LocationCounts then 1 else tor.sizeBytes
    ensures AddsDelta(m, Bump(m, [tor.directory], delta), tor, f)
  {
    BumpSingle(m, tor.directory, delta);
  }

  /** One torrent adds exactly Delta to every key and creates exactly the keys it mentions. */
  lemma {:induction false} ProcessTorrentFacet(t: Taxonomy, tor: TorrentProperties, f: Facet)
    requires StatusesIn(tor, t.statusCounts.Keys)
    requires Ready(t)
    ensures AddsDelta(t.Get(f), ProcessTorrent(t, tor).Get(f), tor, f)
  {
    var r := ProcessTorrent(t, tor);
    match f
    case StatusCounts =>
      IncrementSpec(t.statusCounts, tor.status, 1);
      assert KeySet(tor.status) <= t.statusCounts.Keys;
    case TagCounts =>
    case TagSizes =>
      BumpAddsDelta(t.tagSizes, tor.tags, tor.sizeBytes, tor, f);
    case TrackerCounts =>
      BumpAddsDelta(t.trackerCounts, tor.trackerURIs, 1, tor, f);
    case TrackerSizes =>
      BumpAddsDelta(t.trackerSizes, tor.trackerURIs, tor.sizeBytes, tor, f);
    case LocationCounts =>
      BumpSingleAddsDelta(t.locationCounts, 1, tor, f);
    case LocationSizes =>
      BumpSingleAddsDelta(t.locationSizes, tor.sizeBytes, tor, f);
  }

  /** Adding what a torrent contributes keeps a non-negative bucket non-negative. */
  lemma {:induction false} AddsDeltaNonNegative(before: map<string, int>, after: map<string, int>, tor: TorrentProperties, f: Facet)
    requires AddsDelta(before, after, tor, f)
    requires forall k :: k in before ==> before[k] >= 0
    ensures forall k :: k in after ==> after[k] >= 0
  {
    forall k | k in after ensures after[k] >= 0 {
      assert Get0(after, k) == Get0(before, k) + Delta(tor, f, k);
      assert Get0(before, k) >= 0;
      assert Delta(tor, f, k) >= 0;
    }
  }

  /** One torrent keeps every value non-negative. */
  lemma {:induction false} ProcessTorrentNonNegative(t: Taxonomy, tor: TorrentProperties)
    requires StatusesIn(tor, t.statusCounts.Keys)
    requires Ready(t)
    requires NonNegative(t)
    ensures NonNegative(ProcessTorrent(t, tor))
  {
    var r := ProcessTorrent(t, tor);
    forall f ensures forall k :: k in r.Get(f) ==> r.Get(f)[k] >= 0 {
      ProcessTorrentFacet(t, tor, f);
      AddsDeltaNonNegative(t.Get(f), r.Get(f), tor, f);
    }
  }

  // ---------------------------------------------------------------- a list of torrents

  /** Every torrent of `ts` reports only statuses in `keys`. */
  predicate AllStatusesIn(ts: seq<TorrentProperties>, keys: set<string>)
  {
    forall i :: 0 <= i < |ts| ==> StatusesIn(ts[i], keys)
  }

  /** The taxonomy after the torrents of `ts`, first to last. */
  function ProcessAll(t: Taxonomy, ts: seq<TorrentProperties>): (r: Taxonomy)
    requires AllStatusesIn(ts, t.statusCounts.Keys)
    requires Ready(t)
    ensures Ready(r) && r.statusCounts.Keys == t.statusCounts.Keys
    decreases |ts|
  {
    if ts == [] then t
    else ProcessTorrent(ProcessAll(t, ts[..|ts| - 1]), ts[|ts| - 1])
  }

  /** The sum of Delta over the torrents of `ts`. */
  function Contribution(ts: seq<TorrentProperties>, f: Facet, k: string): int
    decreases |ts|
  {
    if ts == [] then 0
    else Contribution(ts[..|ts| - 1], f, k) + Delta(ts[|ts| - 1], f, k)
  }

  /** The union of the keys the torrents of `ts` touch in facet `f`. */
  function MentionedAll(ts: seq<TorrentProperties>, f: Facet): set<string>
    decreases |ts|
  {
    if ts == [] then {}
    else MentionedAll(ts[..|ts| - 1], f) + Mentioned(ts[|ts| - 1], f)
  }

  /** Bucket `after` is bucket `before` plus what the torrents of `ts` add to facet `f`. */
  ghost predicate Accumulates(before: map<string, int>, after: map<string, int>, ts: seq<TorrentProperties>, f: Facet)
  {
    && after.Keys == before.Keys + MentionedAll(ts, f)
    && forall k :: Get0(after, k) == Get0(before, k) + Contribution(ts, f, k)
  }

  /** Accumulation is additive: each bucket ends at its start value plus the torrents' sum. */
  lemma {:induction false} ProcessAllFacet(t: Taxonomy, ts: seq<TorrentProperties>, f: Facet)
    requires AllStatusesIn(ts, t.statusCounts.Keys)
    requires Ready(t)
    ensures Accumulates(t.Get(f), ProcessAll(t, ts).Get(f), ts, f)
    decreases |ts|
  {
    if ts != [] {
      var init, last := ts[..|ts| - 1], ts[|ts| - 1];
      assert AllStatusesIn(init, t.statusCounts.Keys) by {
        forall i | 0 <= i < |init| ensures StatusesIn(init[i], t.statusCounts.Keys) {
          assert init[i] == ts[i];
        }
      }
      ProcessAllFacet(t, init, f);
      var p := ProcessAll(t, init);
      assert StatusesIn(last, p.statusCounts.Keys) by {
        assert StatusesIn(ts[|ts| - 1], t.statusCounts.Keys);
      }
      ProcessTorrentFacet(p, last, f);
      AccumulatesStep(t.Get(f), p.Get(f), ProcessTorrent(p, last).Get(f), ts, f);
    }
  }

  /** One more torrent at the end of the list adds its Delta to the accumulated sum. */
  lemma {:induction false} AccumulatesStep(m0: map<string, int>, m1: map<string, int>, m2: map<string, int>,
                                           ts: seq<TorrentProperties>, f: Facet)
    requires ts != []
    requires Accumulates(m0, m1, ts[..|ts| - 1], f)
    requires AddsDelta(m1, m2, ts[|ts| - 1], f)
    ensures Accumulates(m0, m2, ts, f)
  {
    var init, last := ts[..|ts| - 1], ts[|ts| - 1];
    assert MentionedAll(ts, f) == MentionedAll(init, f) + Mentioned(last, f);
    forall k ensures Get0(m2, k) == Get0(m0, k) + Contribution(ts, f, k) {
      assert Contribution(ts, f, k) == Contribution(init, f, k) + Delta(last, f, k);
    }
  }

  /** Every contribution is non-negative. */
  lemma {:induction false} ContributionNonNegative(ts: seq<TorrentProperties>, f: Facet, k: string)
    ensures Contribution(ts, f, k) >= 0
    decreases |ts|
  {
    if ts != [] {
      ContributionNonNegative(ts[..|ts| - 1], f, k);
      assert Delta(ts[|ts| - 1], f, k) >= 0;
    }
  }

  /** An update that touches nothing outside `Mentioned` adds 0 to every other key. */
  lemma {:induction false} ContributionOutside(ts: seq<TorrentProperties>, f: Facet, k: string)
    requires k !in MentionedAll(ts, f)
    ensures Contribution(ts, f, k) == 0
    decreases |ts|
  {
    if ts != [] {
      var last := ts[|ts| - 1];
      ContributionOutside(ts[..|ts| - 1], f, k);
      assert k !in Mentioned(last, f);
      match f
      case StatusCounts => assert multiset(last.status)[k] == 0;
      case TagCounts => assert UntaggedOr(last.tags, k) == 0;
      case TagSizes => assert multiset(last.tags)[k] == 0;
      case TrackerCounts => assert multiset(last.trackerURIs)[k] == 0;
      case TrackerSizes => assert multiset(last.trackerURIs)[k] == 0;
      case LocationCounts =>
      case LocationSizes =>
    }
  }

  /** Torrents whose statuses are all in `keys` mention no other status key. */
  lemma {:induction false} MentionedStatuses(ts: seq<TorrentProperties>, keys: set<string>)
    requires AllStatusesIn(ts, keys)
    ensures MentionedAll(ts, StatusCounts) <= keys
    decreases |ts|
  {
    if ts != [] {
      var init := ts[..|ts| - 1];
      assert AllStatusesIn(init, keys) by {
        forall i | 0 <= i < |init| ensures StatusesIn(init[i], keys) {
          assert init[i] == ts[i];
        }
      }
      MentionedStatuses(init, keys);
      assert StatusesIn(ts[|ts| - 1], keys);
    }
  }

  // ---------------------------------------------------------------- list end

  /** The taxonomy after list end: the "all" sentinel of statuses, tags and trackers set to `n`. */
  function EndTaxonomy(t: Taxonomy, n: nat): (r: Taxonomy)
    ensures "" in r.statusCounts && r.statusCounts[""] == n
    ensures "" in r.tagCounts && r.tagCounts[""] == n
    ensures "" in r.trackerCounts && r.trackerCounts[""] == n
    ensures forall f, k :: k != "" && k in t.Get(f) ==> k in r.Get(f) && r.Get(f)[k] == t.Get(f)[k]
    ensures forall f :: r.Get(f).Keys <= t.Get(f).Keys + {""}
    ensures r.tagSizes == t.tagSizes && r.trackerSizes == t.trackerSizes
    ensures r.locationCounts == t.locationCounts && r.locationSizes == t.locationSizes
  {
    t.(statusCounts := t.statusCounts["" := n],
       tagCounts := t.tagCounts["" := n],
       trackerCounts := t.trackerCounts["" := n])
  }

  // ---------------------------------------------------------------- a whole cycle

  /** List start, the torrents of `ts` in order, then list end with `n` torrents in the list. */
  function RunCycle(t: Taxonomy, ts: seq<TorrentProperties>, n: nat): Taxonomy
    requires AllStatusesIn(ts, t.statusCounts.Keys + StatusLabels())
  {
    assert AllStatusesIn(ts, ResetTaxonomy(t).statusCounts.Keys);
    EndTaxonomy(ProcessAll(ResetTaxonomy(t), ts), n)
  }

  /** List start keeps every value non-negative. */
  lemma ResetNonNegative(t: Taxonomy)
    requires NonNegative(t)
    ensures NonNegative(ResetTaxonomy(t))
  {
    var r := ResetTaxonomy(t);
    forall f, k | k in r.Get(f) ensures r.Get(f)[k] >= 0 {
      if f == StatusCounts {
        assert t.Get(f) == t.statusCounts;
      }
    }
  }

  /** List end keeps every value non-negative. */
  lemma EndNonNegative(t: Taxonomy, n: nat)
    requires NonNegative(t)
    ensures NonNegative(EndTaxonomy(t, n))
  {
    var e := EndTaxonomy(t, n);
    forall f, k | k in e.Get(f) ensures e.Get(f)[k] >= 0 {
      assert k in t.Get(f) ==> t.Get(f)[k] >= 0;
    }
  }

  /** Accumulating torrents keeps a non-negative bucket non-negative. */
  lemma {:induction false} AccumulatesNonNegative(before: map<string, int>, after: map<string, int>,
                                                  ts: seq<TorrentProperties>, f: Facet)
    requires Accumulates(before, after, ts, f)
    requires forall k :: k in before ==> before[k] >= 0
    ensures forall k :: k in after ==> after[k] >= 0
  {
    forall k | k in after ensures after[k] >= 0 {
      assert Get0(after, k) == Get0(before, k) + Contribution(ts, f, k);
      assert Get0(before, k) >= 0;
      ContributionNonNegative(ts, f, k);
    }
  }

  /** List start, accumulation and list end each keep every value non-negative. */
  lemma {:induction false} CycleNonNegative(t: Taxonomy, ts: seq<TorrentProperties>, n: nat)
    requires AllStatusesIn(ts, t.statusCounts.Keys + StatusLabels())
    requires NonNegative(t)
    ensures NonNegative(RunCycle(t, ts, n))
  {
    var r := ResetTaxonomy(t);
    ResetNonNegative(t);
    assert AllStatusesIn(ts, r.statusCounts.Keys);
    var p := ProcessAll(r, ts);
    forall f ensures forall k :: k in p.Get(f) ==> p.Get(f)[k] >= 0 {
      ProcessAllFacet(r, ts, f);
      assert forall k :: k in r.Get(f) ==> r.Get(f)[k] >= 0;
      AccumulatesNonNegative(r.Get(f), p.Get(f), ts, f);
    }
    assert NonNegative(p);
    EndNonNegative(p, n);
  }

  /** A cycle's accumulation phase, facet by facet, starting from the reset taxonomy. */
  lemma {:induction false} CycleAccumulates(t: Taxonomy, ts: seq<TorrentProperties>, n: nat, f: Facet)
    requires AllStatusesIn(ts, t.statusCounts.Keys + StatusLabels())
    ensures AllStatusesIn(ts, ResetTaxonomy(t).statusCounts.Keys)
    ensures Accumulates(ResetTaxonomy(t).Get(f), ProcessAll(ResetTaxonomy(t), ts).Get(f), ts, f)
    ensures RunCycle(t, ts, n) == EndTaxonomy(ProcessAll(ResetTaxonomy(t), ts), n)
  {
    AllStatusesInWider(ts, t.statusCounts.Keys + StatusLabels(), ResetTaxonomy(t).statusCounts.Keys);
    ProcessAllFacet(ResetTaxonomy(t), ts, f);
  }

  /** After a cycle the "all" sentinels of statuses, tags and trackers hold the list size. */
  lemma CycleSentinels(t: Taxonomy, ts: seq<TorrentProperties>, n: nat)
    requires AllStatusesIn(ts, t.statusCounts.Keys + StatusLabels())
    ensures RunCycle(t, ts, n).statusCounts[""] == n
    ensures RunCycle(t, ts, n).tagCounts[""] == n
    ensures RunCycle(t, ts, n).trackerCounts[""] == n
  {
  }

  /** List start empties every bucket but the statuses: each key reads 0 afterwards. */
  lemma ResetBucketsZero(t: Taxonomy, f: Facet, k: string)
    requires f != StatusCounts
    ensures Get0(ResetTaxonomy(t).Get(f), k) == 0
    ensures f == TagSizes || f == TrackerSizes || f == LocationSizes ==> ResetTaxonomy(t).Get(f) == map[]
  {
  }

  /** List end writes only the "all" sentinels of statuses, tags and trackers. */
  lemma EndGet(t: Taxonomy, n: nat, f: Facet, k: string)
    ensures Get0(EndTaxonomy(t, n).Get(f), k) ==
      if k == "" && (f == StatusCounts || f == TagCounts || f == TrackerCounts) then n else Get0(t.Get(f), k)
    ensures f != StatusCounts && f != TagCounts && f != TrackerCounts ==> EndTaxonomy(t, n).Get(f) == t.Get(f)
  {
  }

  /**
   * After a cycle every bucket but the statuses holds, at each key, the sum over the torrents
   * of what they add there: a count of occurrences ("untagged" counting torrents without
   * tags), or sizes counted once per occurrence. The exception is the "all" sentinel of tags
   * and trackers, which holds the list size; the location sentinel "" counts only torrents
   * whose directory is "".
   */
  lemma {:induction false} CycleBucket(t: Taxonomy, ts: seq<TorrentProperties>, n: nat, f: Facet, k: string)
    requires AllStatusesIn(ts, t.statusCounts.Keys + StatusLabels())
    requires f != StatusCounts
    ensures Get0(RunCycle(t, ts, n).Get(f), k) ==
      if k == "" && (f == TagCounts || f == TrackerCounts) then n else Contribution(ts, f, k)
  {
    CycleAccumulates(t, ts, n, f);
    var p := ProcessAll(ResetTaxonomy(t), ts);
    ResetBucketsZero(t, f, k);
    EndGet(p, n, f, k);
  }

  /** After a cycle every size bucket holds exactly the keys the torrents mention. */
  lemma {:induction false} CycleSizeKeys(t: Taxonomy, ts: seq<TorrentProperties>, n: nat, f: Facet)
    requires AllStatusesIn(ts, t.statusCounts.Keys + StatusLabels())
    requires f == TagSizes || f == TrackerSizes || f == LocationSizes
    ensures RunCycle(t, ts, n).Get(f).Keys == MentionedAll(ts, f)
  {
    CycleAccumulates(t, ts, n, f);
    var r := ResetTaxonomy(t);
    var p := ProcessAll(r, ts);
    ResetBucketsZero(t, f, "");
    EndGet(p, n, f, "");
    AccumulatesFromEmpty(r.Get(f), p.Get(f), ts, f);
  }

  /** Accumulating from an empty bucket yields exactly the mentioned keys. */
  lemma AccumulatesFromEmpty(before: map<string, int>, after: map<string, int>, ts: seq<TorrentProperties>, f: Facet)
    requires before == map[]
    requires Accumulates(before, after, ts, f)
    ensures after.Keys == MentionedAll(ts, f)
  {
  }

  /** When no torrent's directory is "", the location sentinel "" still reads 0 after a cycle. */
  lemma {:induction false} CycleLocationSentinel(t: Taxonomy, ts: seq<TorrentProperties>, n: nat)
    requires AllStatusesIn(ts, t.statusCounts.Keys + StatusLabels())
    requires forall i :: 0 <= i < |ts| ==> ts[i].directory != ""
    ensures "" in RunCycle(t, ts, n).locationCounts && RunCycle(t, ts, n).locationCounts[""] == 0
  {
    CycleAccumulates(t, ts, n, LocationCounts);
    CycleBucket(t, ts, n, LocationCounts, "");
    NoEmptyDirectory(ts);
  }

  /** Torrents none of whose directories is "" contribute nothing to the location sentinel. */
  lemma {:induction false} NoEmptyDirectory(ts: seq<TorrentProperties>)
    requires forall i :: 0 <= i < |ts| ==> ts[i].directory != ""
    ensures Contribution(ts, LocationCounts, "") == 0
    decreases |ts|
  {
    if ts != [] {
      var init := ts[..|ts| - 1];
      assert forall i :: 0 <= i < |init| ==> init[i] == ts[i];
      NoEmptyDirectory(init);
    }
  }

  /** The number of torrents of `ts` that have no tags. */
  function TaglessCount(ts: seq<TorrentProperties>): nat
    decreases |ts|
  {
    if ts == [] then 0
    else TaglessCount(ts[..|ts| - 1]) + if ts[|ts| - 1].tags == [] then 1 else 0
  }

  /**
   * When no torrent carries a tag named "untagged", the "untagged" tag count after a cycle is
   * the number of torrents without tags.
   */
  lemma {:induction false} CycleUntaggedCount(t: Taxonomy, ts: seq<TorrentProperties>, n: nat)
    requires AllStatusesIn(ts, t.statusCounts.Keys + StatusLabels())
    requires forall i :: 0 <= i < |ts| ==> "untagged" !in ts[i].tags
    ensures "untagged" in RunCycle(t, ts, n).tagCounts
    ensures RunCycle(t, ts, n).tagCounts["untagged"] == TaglessCount(ts)
  {
    CycleBucket(t, ts, n, TagCounts, "untagged");
    UntaggedContribution(ts);
  }

  /** Torrents none of which lists "untagged" add one "untagged" count per tagless torrent. */
  lemma {:induction false} UntaggedContribution(ts: seq<TorrentProperties>)
    requires forall i :: 0 <= i < |ts| ==> "untagged" !in ts[i].tags
    ensures Contribution(ts, TagCounts, "untagged") == TaglessCount(ts)
    decreases |ts|
  {
    if ts != [] {
      var init := ts[..|ts| - 1];
      assert forall i :: 0 <= i < |init| ==> init[i] == ts[i];
      UntaggedContribution(init);
      assert "untagged" !in ts[|ts| - 1].tags;
    }
  }

  /**
   * After a cycle every status of TorrentStatusMap counts the torrents reporting it; a status
   * key outside it keeps its old count on top of this cycle's.
   */
  lemma {:induction false} CycleStatusCounts(t: Taxonomy, ts: seq<TorrentProperties>, n: nat, k: string)
    requires AllStatusesIn(ts, t.statusCounts.Keys + StatusLabels())
    ensures k in StatusLabels() ==> RunCycle(t, ts, n).statusCounts[k] == Contribution(ts, StatusCounts, k)
    ensures k != "" && k !in StatusLabels() ==>
      Get0(RunCycle(t, ts, n).statusCounts, k) == Get0(t.statusCounts, k) + Contribution(ts, StatusCounts, k)
  {
    var r := ResetTaxonomy(t);
    assert AllStatusesIn(ts, r.statusCounts.Keys);
    ProcessAllFacet(r, ts, StatusCounts);
    var p := ProcessAll(r, ts);
    assert Get0(p.statusCounts, k) == Get0(r.statusCounts, k) + Contribution(ts, StatusCounts, k);
    if k in StatusLabels() {
      assert k in r.statusCounts && r.statusCounts[k] == 0;
    }
  }

  /** Widening the set of known statuses keeps a list's statuses known. */
  lemma AllStatusesInWider(ts: seq<TorrentProperties>, keys: set<string>, wider: set<string>)
    requires AllStatusesIn(ts, keys)
    requires keys <= wider
    ensures AllStatusesIn(ts, wider)
  {
  }

  /** Two status buckets that agree outside TorrentStatusMap and "" reset to the same bucket. */
  lemma ResetStatusCountsAgree(m0: map<string, int>, m1: map<string, int>)
    requires m1.Keys + StatusLabels() + {""} == m0.Keys + StatusLabels() + {""}
    requires forall k :: k in m0 && k !in StatusLabels() && k != "" ==> m1[k] == m0[k]
    ensures ResetStatusCounts(m1) == ResetStatusCounts(m0)
  {
    var a, b := ResetStatusCounts(m1), ResetStatusCounts(m0);
    assert a.Keys == b.Keys;
  }

  /** A cycle over torrents with known statuses leaves every other status key as it was. */
  lemma {:induction false} CycleKeepsOtherStatuses(t: Taxonomy, ts: seq<TorrentProperties>, n: nat)
    requires AllStatusesIn(ts, StatusLabels())
    ensures AllStatusesIn(ts, t.statusCounts.Keys + StatusLabels())
    ensures RunCycle(t, ts, n).statusCounts.Keys + StatusLabels() + {""} == t.statusCounts.Keys + StatusLabels() + {""}
    ensures forall k :: k in t.statusCounts && k !in StatusLabels() && k != "" ==>
      RunCycle(t, ts, n).statusCounts[k] == t.statusCounts[k]
  {
    AllStatusesInWider(ts, StatusLabels(), t.statusCounts.Keys + StatusLabels());
    CycleAccumulates(t, ts, n, StatusCounts);
    var r := ResetTaxonomy(t);
    var p := ProcessAll(r, ts);
    MentionedStatuses(ts, StatusLabels());
    StatusesOutsideKept(t.statusCounts, r.statusCounts, p.statusCounts, ts, n);
  }

  /** The status bucket part of CycleKeepsOtherStatuses, on the buckets alone. */
  lemma {:induction false} StatusesOutsideKept(m0: map<string, int>, reset: map<string, int>, after: map<string, int>,
                                               ts: seq<TorrentProperties>, n: nat)
    requires reset == ResetStatusCounts(m0)
    requires Accumulates(reset, after, ts, StatusCounts)
    requires MentionedAll(ts, StatusCounts) <= StatusLabels()
    ensures after["" := n].Keys + StatusLabels() + {""} == m0.Keys + StatusLabels() + {""}
    ensures forall k :: k in m0 && k !in StatusLabels() && k != "" ==> after["" := n][k] == m0[k]
  {
    var m1 := after["" := n];
    assert m1.Keys == reset.Keys + {""};
    forall k | k in m0 && k !in StatusLabels() && k != "" ensures m1[k] == m0[k] {
      ContributionOutside(ts, StatusCounts, k);
      assert Get0(after, k) == Get0(reset, k) + Contribution(ts, StatusCounts, k);
    }
  }

  /** A cycle resets to the same state as the taxonomy it started from. */
  lemma {:induction false} ResetAfterCycle(t: Taxonomy, ts: seq<TorrentProperties>, n: nat)
    requires AllStatusesIn(ts, StatusLabels())
    ensures AllStatusesIn(ts, t.statusCounts.Keys + StatusLabels())
    ensures ResetTaxonomy(RunCycle(t, ts, n)) == ResetTaxonomy(t)
  {
    CycleKeepsOtherStatuses(t, ts, n);
    var c := RunCycle(t, ts, n);
    ResetStatusCountsAgree(t.statusCounts, c.statusCounts);
    ResetDependsOnStatusCounts(c, t);
  }

  /** List start keeps nothing from the taxonomy but its reset status bucket. */
  lemma ResetDependsOnStatusCounts(a: Taxonomy, b: Taxonomy)
    requires ResetStatusCounts(a.statusCounts) == ResetStatusCounts(b.statusCounts)
    ensures ResetTaxonomy(a) == ResetTaxonomy(b)
  {
  }

  /** Repeating a cycle over the same torrents (all with known statuses) changes nothing. */
  lemma {:induction false} CycleIdempotent(t: Taxonomy, ts: seq<TorrentProperties>, n: nat)
    requires AllStatusesIn(ts, StatusLabels())
    ensures AllStatusesIn(ts, t.statusCounts.Keys + StatusLabels())
    ensures AllStatusesIn(ts, RunCycle(t, ts, n).statusCounts.Keys + StatusLabels())
    ensures RunCycle(RunCycle(t, ts, n), ts, n) == RunCycle(t, ts, n)
  {
    ResetAfterCycle(t, ts, n);
    var c := RunCycle(t, ts, n);
    AllStatusesInWider(ts, StatusLabels(), c.statusCounts.Keys + StatusLabels());
    ResetAfterCycle(c, ts, n);
  }

  /** So the second of two identical cycles produces an empty diff. */
  lemma {:induction false} RepeatedCycleDiffEmpty(t: Taxonomy, ts: seq<TorrentProperties>, n: nat)
    requires AllStatusesIn(ts, StatusLabels())
    ensures AllStatusesIn(ts, t.statusCounts.Keys + StatusLabels())
    ensures AllStatusesIn(ts, RunCycle(t, ts, n).statusCounts.Keys + StatusLabels())
    ensures Compare(RunCycle(t, ts, n), RunCycle(RunCycle(t, ts, n), ts, n)) == map[]
  {
    CycleIdempotent(t, ts, n);
    var c := RunCycle(t, ts, n);
    CompareEmptyIff(c, c);
  }

  // ---------------------------------------------------------------- the location buckets as written

  /** A JavaScript number as far as `+=` on an object slot is concerned. */
  datatype JsNumber = Finite(value: int) | NaN

  /** `obj[k] += x`: a missing slot reads as undefined, and undefined + x, like NaN + x, is NaN. */
  function PlusAssign(m: map<string, JsNumber>, k: string, x: int): map<string, JsNumber>
  {
    m[k := if k in m && m[k].Finite? then Finite(m[k].value + x) else NaN]
  }

  /** The source's location update as written: `+=` on both buckets, with no seeding. */
  function IncrementLocationAsWritten(counts: map<string, JsNumber>, sizes: map<string, JsNumber>,
                                      directory: string, sizeBytes: nat): (r: (map<string, JsNumber>, map<string, JsNumber>))
    ensures r.0.Keys == counts.Keys + {directory} && r.1.Keys == sizes.Keys + {directory}
    ensures r.0[directory] == NaN <==> directory !in counts || counts[directory] == NaN
    ensures r.1[directory] == NaN <==> directory !in sizes || sizes[directory] == NaN
    ensures forall k :: k != directory && k in counts ==> r.0[k] == counts[k]
    ensures forall k :: k != directory && k in sizes ==> r.1[k] == sizes[k]
  {
    (PlusAssign(counts, directory, 1), PlusAssign(sizes, directory, sizeBytes))
  }

  /** A bucket of integers as JavaScript numbers. */
  function Numbers(m: map<string, int>): map<string, JsNumber>
  {
    map k | k in m :: Finite(m[k])
  }

  /**
   * The first torrent after list start, whatever its directory, leaves NaN in the location
   * size bucket, and in the location count bucket unless its directory is "".
   */
  lemma LocationAsWrittenYieldsNaN(t: Taxonomy, tor: TorrentProperties)
    ensures var r := ResetTaxonomy(t);
      var (counts, sizes) := IncrementLocationAsWritten(
        Numbers(r.locationCounts), Numbers(r.locationSizes), tor.directory, tor.sizeBytes);
      && sizes[tor.directory] == NaN
      && (tor.directory != "" <==> counts[tor.directory] == NaN)
  {
  }

  /** Where both buckets already hold the directory, the update as written and the seeded one agree. */
  lemma LocationAsWrittenAgreesWhenSeeded(counts: map<string, int>, sizes: map<string, int>,
                                          directory: string, sizeBytes: nat)
    requires directory in counts && directory in sizes
    ensures IncrementLocationAsWritten(Numbers(counts), Numbers(sizes), directory, sizeBytes)
         == (Numbers(Bump(counts, [directory], 1)), Numbers(Bump(sizes, [directory], sizeBytes)))
  {
    BumpSingle(counts, directory, 1);
    BumpSingle(sizes, directory, sizeBytes);
    PlusAssignPresent(counts, directory, 1);
    PlusAssignPresent(sizes, directory, sizeBytes);
  }

  /** On a key that holds a number, `+=` adds to it like the seeded update. */
  lemma PlusAssignPresent(m: map<string, int>, k: string, x: int)
    requires k in m
    ensures PlusAssign(Numbers(m), k, x) == Numbers(m[k := Get0(m, k) + x])
  {
    var a, b := PlusAssign(Numbers(m), k, x), Numbers(m[k := Get0(m, k) + x]);
    assert a.Keys == b.Keys;
  }
}
