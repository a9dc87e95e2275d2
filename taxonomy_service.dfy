/**
 * The server's taxonomy service: it rebuilds the taxonomy in place while the torrent list is
 * processed, and at list end records the diff against the snapshot taken at list start.
 */
module TaxonomyServices {
  import opened Torrents
  import opened Taxonomies
  import opened Buckets
  import opened TaxonomyDiff
  import opened TaxonomyCycle

  /** A taxonomy-diff-change event: its timestamp and the patch from the snapshot to the new taxonomy. */
  datatype TaxonomyChange = TaxonomyChange(id: int, diff: Patch)

  /** What getTaxonomy answers: a timestamp and the current taxonomy. */
  datatype TaxonomySnapshot = TaxonomySnapshot(id: int, taxonomy: Taxonomy)

  class TaxonomyService {
    /** The taxonomy being maintained. */
    var taxonomy: Taxonomy
    /** The snapshot taken at the last list start. */
    var lastTaxonomy: Taxonomy
    /**
     * Whether `lastTaxonomy` is still the very object `taxonomy` is: so it is from construction
     * until the first list start, and until then every write to `taxonomy` also lands in it.
     */
    var sharesLast: bool
    /** The diff events emitted so far, oldest first. */
    var emitted: seq<TaxonomyChange>

    /** Every bucket value is non-negative, the "untagged" bucket exists, and sharing is honoured. */
    ghost predicate Valid()
      reads this
    {
      && NonNegative(taxonomy)
      && NonNegative(lastTaxonomy)
      && Ready(taxonomy)
      && Coherent()
    }

    /** While shared, `lastTaxonomy` and `taxonomy` are one value. */
    predicate Coherent()
      reads this
    {
      sharesLast ==> lastTaxonomy == taxonomy
    }

    /** The start state: the initial taxonomy, shared with `lastTaxonomy`, and no event yet. */
    constructor ()
      ensures Valid()
      ensures taxonomy == InitialTaxonomy() && lastTaxonomy == taxonomy
      ensures sharesLast && emitted == []
    {
      taxonomy := InitialTaxonomy();
      lastTaxonomy := InitialTaxonomy();
      sharesLast := true;
      emitted := [];
    }

    /**
     * Since the pre-state, only `taxonomy` was written, and `lastTaxonomy` followed it exactly
     * when the two are shared.
     */
    twostate predicate WroteThrough()
      reads this
    {
      && sharesLast == old(sharesLast)
      && emitted == old(emitted)
      && lastTaxonomy == if sharesLast then taxonomy else old(lastTaxonomy)
    }

    /** Replaces the taxonomy, writing through to `lastTaxonomy` while the two are shared. */
    method Store(t: Taxonomy)
      modifies this
      ensures taxonomy == t
      ensures WroteThrough()
    {
      taxonomy := t;
      if sharesLast {
        lastTaxonomy := t;
      }
    }

    /** The current taxonomy stamped with the clock reading `now`; nothing changes. */
    method GetTaxonomy(now: int) returns (s: TaxonomySnapshot)
      ensures s.id == now && s.taxonomy == taxonomy
    {
      s := TaxonomySnapshot(now, taxonomy);
    }

    /**
     * List start: snapshot the taxonomy into `lastTaxonomy` (a copy, no longer shared), reset
     * every known status and "" to 0 keeping other status keys, and replace the other buckets.
     */
    method HandleProcessTorrentListStart()
      requires Valid()
      modifies this
      ensures Valid()
      ensures lastTaxonomy == old(taxonomy) && !sharesLast
      ensures taxonomy == ResetTaxonomy(old(taxonomy))
      ensures emitted == old(emitted)
    {
      lastTaxonomy := taxonomy;
      sharesLast := false;
      var statuses := taxonomy.statusCounts;
      for i := 0 to |TorrentStatusMap|
        invariant statuses == SeedZero(old(taxonomy).statusCounts, TorrentStatusMap[..i])
      {
        statuses := statuses[TorrentStatusMap[i] := 0];
        assert TorrentStatusMap[..i + 1][..i] == TorrentStatusMap[..i];
      }
      assert TorrentStatusMap[..|TorrentStatusMap|] == TorrentStatusMap;
      taxonomy := Taxonomy(
        statuses["" := 0],
        map["" := 0, "untagged" := 0],
        map[],
        map["" := 0],
        map[],
        map["" := 0],
        map[]);
      ResetNonNegative(old(taxonomy));
    }

    /**
     * List end: set the "all" sentinels to the number of torrents in `torrents`, then emit
     * a change stamped `now` exactly when the taxonomy differs from the snapshot.
     */
    method HandleProcessTorrentListEnd(torrents: map<string, TorrentProperties>, now: int)
      requires Valid()
      modifies this
      ensures Valid()
      ensures taxonomy == EndTaxonomy(old(taxonomy), |torrents|)
      ensures sharesLast == old(sharesLast)
      ensures lastTaxonomy == if sharesLast then taxonomy else old(lastTaxonomy)
      ensures emitted == old(emitted) +
        if lastTaxonomy == taxonomy then [] else [TaxonomyChange(now, Compare(lastTaxonomy, taxonomy))]
    {
      var length := |torrents|;
      EndNonNegative(taxonomy, length);
      taxonomy := EndTaxonomy(taxonomy, length);
      if sharesLast {
        lastTaxonomy := taxonomy;
      }
      var taxonomyDiffs := Compare(lastTaxonomy, taxonomy);
      CompareEmptyIff(lastTaxonomy, taxonomy);
      if taxonomyDiffs != map[] {
        emitted := emitted + [TaxonomyChange(now, taxonomyDiffs)];
      }
    }

    /** One torrent: every bucket gains what the torrent contributes to it. */
    method HandleProcessTorrent(torrentProperties: TorrentProperties)
      requires Valid()
      requires StatusesIn(torrentProperties, taxonomy.statusCounts.Keys)
      modifies this
      ensures Valid()
      ensures taxonomy == ProcessTorrent(old(taxonomy), torrentProperties)
      ensures WroteThrough()
    {
      ProcessTorrentNonNegative(taxonomy, torrentProperties);
      IncrementStatusCounts(torrentProperties.status);
      IncrementTagCounts(torrentProperties.tags);
      IncrementTagSizes(torrentProperties.tags, torrentProperties.sizeBytes);
      IncrementTrackerCounts(torrentProperties.trackerURIs);
      IncrementTrackerSizes(torrentProperties.trackerURIs, torrentProperties.sizeBytes);
      IncrementLocationCountsAndSizes(torrentProperties.directory, torrentProperties.sizeBytes);
    }

    /*
     * Each increment below updates one bucket key by key; nothing observes the bucket between
     * two keys, so the loop works on the bucket's value and stores it once at the end.
     */

    /** Each listed status gains 1 per occurrence; every listed status must already be a key. */
    method IncrementStatusCounts(statuses: seq<string>)
      requires Coherent()
      requires forall s :: s in statuses ==> s in taxonomy.statusCounts
      modifies this
      ensures taxonomy == old(taxonomy).(statusCounts := Increment(old(taxonomy).statusCounts, statuses, 1))
      ensures WroteThrough()
    {
      var bucket := taxonomy.statusCounts;
      for i := 0 to |statuses|
        invariant forall s :: s in statuses[..i] ==> s in old(taxonomy).statusCounts
        invariant bucket == Increment(old(taxonomy).statusCounts, statuses[..i], 1)
        modifies {}
      {
        IncrementStep(old(taxonomy).statusCounts, statuses, i, 1);
        var status := statuses[i];
        bucket := bucket[status := bucket[status] + 1];
      }
      assert statuses[..|statuses|] == statuses;
      Store(taxonomy.(statusCounts := bucket));
    }

    /** "untagged" gains 1 when there are no tags; otherwise each tag gains 1, created when absent. */
    method IncrementTagCounts(tags: seq<string>)
      requires Coherent()
      requires "untagged" in taxonomy.tagCounts
      modifies this
      ensures taxonomy == old(taxonomy).(tagCounts := TagCountsAfter(old(taxonomy).tagCounts, tags))
      ensures WroteThrough()
    {
      var bucket := taxonomy.tagCounts;
      if |tags| == 0 {
        bucket := bucket["untagged" := bucket["untagged"] + 1];
      }
      ghost var seeded := bucket;
      for i := 0 to |tags|
        invariant bucket == Bump(seeded, tags[..i], 1)
        modifies {}
      {
        BumpStep(seeded, tags, i, 1);
        var tag := tags[i];
        var value := if tag in bucket then bucket[tag] + 1 else 1;
        bucket := bucket[tag := value];
      }
      assert tags[..|tags|] == tags;
      Store(taxonomy.(tagCounts := bucket));
    }

    /** Each tag's size gains `sizeBytes`, seeded with `sizeBytes` when absent. */
    method IncrementTagSizes(tags: seq<string>, sizeBytes: nat)
      requires Coherent()
      modifies this
      ensures taxonomy == old(taxonomy).(tagSizes := Bump(old(taxonomy).tagSizes, tags, sizeBytes))
      ensures WroteThrough()
    {
      var bucket := taxonomy.tagSizes;
      for i := 0 to |tags|
        invariant bucket == Bump(old(taxonomy).tagSizes, tags[..i], sizeBytes)
        modifies {}
      {
        BumpStep(old(taxonomy).tagSizes, tags, i, sizeBytes);
        var tag := tags[i];
        var value := if tag in bucket then bucket[tag] + sizeBytes else sizeBytes;
        bucket := bucket[tag := value];
      }
      assert tags[..|tags|] == tags;
      Store(taxonomy.(tagSizes := bucket));
    }

    /** Each tracker gains 1, created when absent. */
    method IncrementTrackerCounts(trackers: seq<string>)
      requires Coherent()
      modifies this
      ensures taxonomy == old(taxonomy).(trackerCounts := Bump(old(taxonomy).trackerCounts, trackers, 1))
      ensures WroteThrough()
    {
      var bucket := taxonomy.trackerCounts;
      for i := 0 to |trackers|
        invariant bucket == Bump(old(taxonomy).trackerCounts, trackers[..i], 1)
        modifies {}
      {
        BumpStep(old(taxonomy).trackerCounts, trackers, i, 1);
        var tracker := trackers[i];
        var value := if tracker in bucket then bucket[tracker] + 1 else 1;
        bucket := bucket[tracker := value];
      }
      assert trackers[..|trackers|] == trackers;
      Store(taxonomy.(trackerCounts := bucket));
    }

    /** Each tracker's size gains `sizeBytes`, seeded with `sizeBytes` when absent. */
    method IncrementTrackerSizes(trackers: seq<string>, sizeBytes: nat)
      requires Coherent()
      modifies this
      ensures taxonomy == old(taxonomy).(trackerSizes := Bump(old(taxonomy).trackerSizes, trackers, sizeBytes))
      ensures WroteThrough()
    {
      var bucket := taxonomy.trackerSizes;
      for i := 0 to |trackers|
        invariant bucket == Bump(old(taxonomy).trackerSizes, trackers[..i], sizeBytes)
        modifies {}
      {
        BumpStep(old(taxonomy).trackerSizes, trackers, i, sizeBytes);
        var tracker := trackers[i];
        var value := if tracker in bucket then bucket[tracker] + sizeBytes else sizeBytes;
        bucket := bucket[tracker := value];
      }
      assert trackers[..|trackers|] == trackers;
      Store(taxonomy.(trackerSizes := bucket));
    }

    /**
     * The directory's size gains `sizeBytes` and its count gains 1, each seeded when absent
     * (the corrected update; LocationAsWrittenYieldsNaN shows the unseeded one).
     */
    method IncrementLocationCountsAndSizes(directory: string, sizeBytes: nat)
      requires Coherent()
      modifies this
      ensures taxonomy == old(taxonomy).(
        locationCounts := Bump(old(taxonomy).locationCounts, [directory], 1),
        locationSizes := Bump(old(taxonomy).locationSizes, [directory], sizeBytes))
      ensures WroteThrough()
    {
      BumpSingle(taxonomy.locationSizes, directory, sizeBytes);
      BumpSingle(taxonomy.locationCounts, directory, 1);
      var sizes, counts := taxonomy.locationSizes, taxonomy.locationCounts;
      var size := if directory in sizes then sizes[directory] + sizeBytes else sizeBytes;
      Store(taxonomy.(locationSizes := sizes[directory := size]));
      var count := if directory in counts then counts[directory] + 1 else 1;
      Store(taxonomy.(locationCounts := counts[directory := count]));
    }
  }
}
