# Flood taxonomy and torrent filter, modelled in Dafny

This project models two parts of Flood, a web UI for torrent clients:

- **The server's taxonomy service** (`server/services/taxonomyService.ts`). The service keeps a
  taxonomy: seven string-keyed buckets of numbers, one per facet. The facets are torrent counts by
  status, by tag, by tracker and by location, and byte totals by tag, tracker and location. Each
  refresh of the torrent list is one cycle of three events:
  - list start copies the taxonomy into `lastTaxonomy` and resets the buckets;
  - each torrent then adds its statuses, tags, trackers, directory and size;
  - list end writes the list size into the `""` ("all") sentinel of the status, tag and tracker
    buckets, then emits a change event with the diff from `lastTaxonomy`, but only when that diff
    is non-empty.
- **The client's `filterTorrents`** (`client/src/javascript/util/filterTorrents.ts`). It keeps the
  torrents that match the values selected in one facet: status, tracker, tag (with an
  `"untagged"` value) or location (a raw string prefix). An empty selection filters nothing.

Layout, one module per file, in dependency order:

| file | module | contents |
|---|---|---|
| `torrent.dfy` | `Torrents` | the torrent record and the list of status labels |
| `taxonomy.dfy` | `Taxonomies` | facets, the taxonomy value, non-negativity, the initial taxonomy |
| `buckets.dfy` | `Buckets` | the three bucket updates: seed-then-increment (`Bump`), plain increment, zeroing |
| `diff.dfy` | `TaxonomyDiff` | a keyed diff of two taxonomies, how to replay it, and "empty exactly when equal" |
| `cycle.dfy` | `TaxonomyCycle` | one cycle as functions on values, and what a cycle computes |
| `taxonomy_service.dfy` | `TaxonomyServices` | the `TaxonomyService` class, with its handlers and loops |
| `filter_torrents.dfy` | `TorrentFilter` | `FilterTorrents` and its selection properties |

The taxonomy is a datatype, so it has value semantics. The copy taken at list start therefore
cannot be reached by later updates. The class holds the taxonomy, the snapshot and the events
emitted so far. Each handler is a method whose `ensures` ties the new state to a function in
`TaxonomyCycle`: `ResetTaxonomy`, `ProcessTorrent` or `EndTaxonomy`. `RunCycle` composes these
three functions, and the lemmas about whole cycles are stated about `RunCycle`. The source
compares the diff's length with zero; the model tests whether the diff map is empty, which is
the same test.

Two behaviours of the code are worth knowing before reading the lemmas. First, the location
filter is a raw string prefix match (client/src/javascript/util/filterTorrents.ts:46), so
`/data/mov` selects `/data/movies/x`; the model keeps that behaviour. Second, list start resets
the location buckets to `{"": 0}` and `{}` (server/services/taxonomyService.ts:83-84), and the
location update at lines 167-168 then adds to a directory's slot without seeding it first, which
leaves NaN in the slot. The model records that update as written in
`TaxonomyCycle.IncrementLocationAsWritten`, and everywhere else uses the seeded update that the
tag and tracker updates already perform (see Findings).

The source's `torrentStatusMap` constant lives in `shared/constants/torrentStatusMap.ts`, which
is not part of this model. `Torrents.TorrentStatusMap` uses Flood's eight status labels in its
place: checking, seeding, complete, downloading, stopped, error, inactive, active. Any lemma that
depends on exactly which labels these are would need this list checked.

## Model

| member | source | states |
|---|---|---|
| Taxonomies.InitialTaxonomy | server/services/taxonomyService.ts:14-22 | every value of the start taxonomy is 0; statuses, tracker counts, location counts and location sizes hold only `""`; tags hold `""` and `untagged`; tag and tracker sizes are empty |
| TaxonomyServices.TaxonomyService.constructor | server/services/taxonomyService.ts:14-24 | a new service holds the initial taxonomy, shares it with `lastTaxonomy`, keeps the invariant and has emitted nothing |
| TaxonomyServices.TaxonomyService.Store | server/services/taxonomyService.ts:24 | a write to `taxonomy` also lands in `lastTaxonomy` while the two are still one object, and otherwise leaves the snapshot alone |
| TaxonomyServices.TaxonomyService.GetTaxonomy | server/services/taxonomyService.ts:56-61 | the answer carries the given clock reading and the current taxonomy; the service does not change |
| Buckets.SeedZeroSpec | server/services/taxonomyService.ts:74-76 | zeroing by a list of keys creates exactly those keys, sets each to 0, and keeps every other key's value |
| TaxonomyCycle.ResetStatusCounts | server/services/taxonomyService.ts:74-78 | after the reset, every known status and `""` read 0 and every other existing status key keeps its value; the keys are the old keys plus the known statuses plus `""` |
| TaxonomyCycle.ResetTaxonomy | server/services/taxonomyService.ts:74-84 | after list start the taxonomy can take an untagged torrent; the status keys are the old ones plus the known statuses and `""`; every other bucket has its fixed start key set (`""` and `untagged` for tags, `""` for tracker and location counts, none for sizes) and every value there is 0 |
| TaxonomyServices.TaxonomyService.HandleProcessTorrentListStart | server/services/taxonomyService.ts:63-85 | `lastTaxonomy` becomes exactly the taxonomy from before the call and stops being shared; the taxonomy becomes `ResetTaxonomy` of the old one; no event is emitted; the invariant holds |
| TaxonomyCycle.ResetBucketsZero | server/services/taxonomyService.ts:79-84 | after list start every key of every bucket except the statuses reads 0, and the size buckets are empty |
| TaxonomyCycle.ResetNonNegative | server/services/taxonomyService.ts:63-85 | list start keeps every value non-negative |
| Buckets.IncrementSpec | server/services/taxonomyService.ts:113-117 | when every listed key is present, a plain increment adds delta to each key once per occurrence, and `Increment` itself keeps the key set |
| TaxonomyServices.TaxonomyService.IncrementStatusCounts | server/services/taxonomyService.ts:113-117 | given that every status is already a key, the loop leaves status counts equal to `Increment` of the old bucket; only the taxonomy changes, written through to a shared snapshot |
| TaxonomyCycle.TagCountsAfter | server/services/taxonomyService.ts:119-131 | with no tags only `untagged` gains 1; otherwise each tag gains its number of occurrences and absent tags are created; no other key changes, and the key set grows by exactly those keys |
| TaxonomyServices.TaxonomyService.IncrementTagCounts | server/services/taxonomyService.ts:119-131 | the branch and the loop leave tag counts equal to `TagCountsAfter` of the old bucket; nothing else changes |
| Buckets.BumpSpec | server/services/taxonomyService.ts:133-161 | seed-then-increment creates exactly the listed keys that were absent, and each key gains delta times its number of occurrences; an empty list changes nothing |
| TaxonomyServices.TaxonomyService.IncrementTagSizes | server/services/taxonomyService.ts:133-141 | the loop leaves tag sizes equal to `Bump` of the old bucket by the tags and `sizeBytes`; nothing else changes |
| TaxonomyServices.TaxonomyService.IncrementTrackerCounts | server/services/taxonomyService.ts:143-151 | the loop leaves tracker counts equal to `Bump` of the old bucket by the trackers and 1; nothing else changes |
| TaxonomyServices.TaxonomyService.IncrementTrackerSizes | server/services/taxonomyService.ts:153-161 | the loop leaves tracker sizes equal to `Bump` of the old bucket by the trackers and `sizeBytes`; nothing else changes |
| Buckets.BumpSingle | server/services/taxonomyService.ts:163-169 | bumping one key adds delta to it, seeding it when absent |
| TaxonomyServices.TaxonomyService.IncrementLocationCountsAndSizes | server/services/taxonomyService.ts:163-169 | the directory's size gains `sizeBytes` and its count gains 1, each seeded when absent (the corrected update, see Findings); nothing else changes |
| TaxonomyCycle.ProcessTorrent | server/services/taxonomyService.ts:104-111 | one torrent keeps the `untagged` key and leaves the status key set as it was |
| TaxonomyCycle.ProcessAll | server/services/taxonomyService.ts:104-111 | processing the torrents of a list one after another keeps the `untagged` key and the status key set; what it adds is stated by `ProcessAllFacet` |
| TaxonomyServices.TaxonomyService.HandleProcessTorrent | server/services/taxonomyService.ts:104-111 | given that every status of the torrent is already a key, the six updates leave the taxonomy equal to `ProcessTorrent` of the old one; the snapshot is untouched unless shared; the invariant holds |
| TaxonomyCycle.ProcessTorrentFacet | server/services/taxonomyService.ts:104-169 | in every facet one torrent creates exactly the keys it mentions and adds exactly its `Delta` at every key: 1 or its size per occurrence, `untagged` for a torrent without tags, its directory for locations |
| TaxonomyCycle.ProcessTorrentNonNegative | server/services/taxonomyService.ts:104-169 | one torrent keeps every value non-negative |
| TaxonomyCycle.ProcessAllFacet | server/services/taxonomyService.ts:104-111 | a sequence of torrents adds, at every key of every facet, the sum of their deltas, and creates exactly the keys they mention |
| TaxonomyServices.TaxonomyService.HandleProcessTorrentListEnd | server/services/taxonomyService.ts:87-102 | the status, tag and tracker sentinels become the number of keys of `torrents`; then a change stamped with the clock reading and carrying `Compare(lastTaxonomy, taxonomy)` is emitted exactly when the two snapshots differ, and nothing is emitted otherwise |
| TaxonomyCycle.EndTaxonomy | server/services/taxonomyService.ts:88-92 | list end makes the `""` sentinel of statuses, tags and trackers hold `n`; every other key keeps its value, no key but `""` is added, and the size and location buckets are unchanged |
| TaxonomyCycle.EndGet | server/services/taxonomyService.ts:87-92 | list end changes only the `""` key of statuses, tags and trackers; every other bucket, location counts included, is left as it was |
| TaxonomyCycle.EndNonNegative | server/services/taxonomyService.ts:87-92 | list end keeps every value non-negative |
| TaxonomyCycle.CycleSentinels | server/services/taxonomyService.ts:87-92 | after a cycle the status, tag and tracker sentinels hold the list size |
| TaxonomyCycle.CycleLocationSentinel | server/services/taxonomyService.ts:83-92 | after a cycle in which no torrent's directory is `""`, location counts still hold `""` with value 0 |
| TaxonomyCycle.CycleBucket | server/services/taxonomyService.ts:79-169 | after a cycle every key of every bucket but the statuses holds the sum over the torrents of what each adds there; the tag and tracker sentinels hold the list size instead |
| TaxonomyCycle.CycleSizeKeys | server/services/taxonomyService.ts:80-84 | after a cycle each size bucket holds exactly the keys the torrents mention |
| TaxonomyCycle.CycleStatusCounts | server/services/taxonomyService.ts:74-78 | after a cycle every known status holds its number of occurrences over the torrents (a torrent that lists a status twice adds 2), and a status key outside the known list keeps its old count plus this cycle's |
| TaxonomyCycle.CycleUntaggedCount | server/services/taxonomyService.ts:119-131 | when no torrent has a tag named `untagged`, the `untagged` tag count after a cycle is the number of torrents without tags |
| TaxonomyCycle.CycleNonNegative | server/services/taxonomyService.ts:63-111 | a whole cycle keeps every value non-negative |
| TaxonomyCycle.CycleKeepsOtherStatuses | server/services/taxonomyService.ts:74-78 | a cycle whose torrents report only known statuses leaves every other status key with its old value |
| TaxonomyCycle.ResetAfterCycle | server/services/taxonomyService.ts:63-85 | list start right after such a cycle gives the same taxonomy as list start right before it |
| TaxonomyCycle.CycleIdempotent | server/services/taxonomyService.ts:63-117 | repeating a cycle over the same torrents, all with known statuses, reproduces the same taxonomy |
| TaxonomyCycle.RepeatedCycleDiffEmpty | server/services/taxonomyService.ts:94-101 | so the second of two identical cycles yields an empty diff, and list end emits nothing |
| TaxonomyDiff.DiffFacet | server/services/taxonomyService.ts:94 | a bucket diff has an operation at exactly the keys that were added, removed or changed |
| TaxonomyDiff.ApplyDiffFacet | server/services/taxonomyService.ts:94 | replaying a bucket diff on its source bucket yields its target bucket |
| TaxonomyDiff.DiffFacetEmptyIff | server/services/taxonomyService.ts:94-96 | a bucket diff is empty exactly when the two buckets are equal |
| TaxonomyDiff.InCompare | server/services/taxonomyService.ts:94 | the taxonomy diff holds, at the address of facet f and key k, exactly the bucket diff's operation for k |
| TaxonomyDiff.Compare | server/services/taxonomyService.ts:94 | the diff holds operations only at addresses (facet, key) that one of the two snapshots holds; what they are is stated by `InCompare`, `ApplyCompare` and `CompareEmptyIff` |
| TaxonomyDiff.ApplyCompare | server/services/taxonomyService.ts:94 | replaying `Compare(a, b)` on `a` yields `b` |
| TaxonomyDiff.CompareEmptyIff | server/services/taxonomyService.ts:94-96 | the diff is empty exactly when the two taxonomies are equal |
| TaxonomyCycle.LocationAsWrittenYieldsNaN | server/services/taxonomyService.ts:163-169 | as written, the first torrent after list start leaves NaN in the location size of its directory, and in the location count too unless the directory is `""` |
| TaxonomyCycle.IncrementLocationAsWritten | server/services/taxonomyService.ts:163-169 | the unseeded `+=` on both location buckets adds the directory as a key, leaves every other key alone, and stores NaN at the directory exactly when its slot was absent or already NaN |
| TaxonomyCycle.LocationAsWrittenAgreesWhenSeeded | server/services/taxonomyService.ts:163-169 | where both location buckets already hold the directory, the update as written and the seeded update agree |
| TorrentFilter.FilterTorrents | client/src/javascript/util/filterTorrents.ts:24-51 | with an empty selection the input list is returned unchanged, whatever the filter type |
| TorrentFilter.Keeps | client/src/javascript/util/filterTorrents.ts:30-46 | only a non-empty selection lets a torrent pass; a torrent with no statuses fails the status filter and one with no trackers fails the tracker filter; a location selection containing `""` lets every torrent pass |
| TorrentFilter.Select | client/src/javascript/util/filterTorrents.ts:30-46 | the selection is no longer than the input, and each of its torrents is in the input and passes |
| TorrentFilter.SelectIsSelection | client/src/javascript/util/filterTorrents.ts:30-46 | the selection lists the input's elements at strictly increasing positions, and those are exactly the positions whose torrent passes |
| TorrentFilter.FilterTorrentsIsSelection | client/src/javascript/util/filterTorrents.ts:28-50 | with a non-empty selection the result is the order-preserving subsequence of exactly the torrents that pass |
| TorrentFilter.FilterMembership | client/src/javascript/util/filterTorrents.ts:28-50 | a torrent is in the result exactly when it is in the input and either the selection is empty or the torrent passes |
| TorrentFilter.SelectAllPass | client/src/javascript/util/filterTorrents.ts:30-46 | when every torrent passes, the selection is the whole list |
| TorrentFilter.FilterIdempotent | client/src/javascript/util/filterTorrents.ts:28-50 | filtering twice with the same options gives the same result as filtering once |
| TorrentFilter.LocationMatchesRawPrefix | client/src/javascript/util/filterTorrents.ts:46 | the location filter matches by raw character prefix: `/data/mov` and `/data/movies` select `/data/movies/x`, and `/data/movies/y` does not |
| TorrentFilter.UntaggedSelectsTagless | client/src/javascript/util/filterTorrents.ts:38-42 | with `untagged` selected, every torrent without tags passes, and a torrent with tags passes exactly when one of its tags is selected |

## Left out

- TaxonomyDiff.Compare: it stands in for `jsonpatch.compare` from fast-json-patch, a library that is not part of this model. The model's diff is a map from (facet, key) addresses to add, replace and remove operations. The order of the RFC 6902 operations that the library emits, and its JSON-pointer paths, are not modelled. The model proves the two properties the service relies on: replaying the diff restores the target, and the diff is empty exactly when the snapshots are equal.
- The event-emitter wiring is not modelled. That covers `BaseService`, the `onServicesUpdated` listener registration, `destroy` and the client gateway that raises the three events (server/services/taxonomyService.ts:26-54). The handlers are called directly, and an emitted event is appended to the `emitted` field.
- `Date.now()` is not modelled: the clock reading is the `now` parameter of `GetTaxonomy` and `HandleProcessTorrentListEnd`.
- TaxonomyServices.TaxonomyService.GetTaxonomy: it returns the taxonomy as a value. In the source it returns a reference to the live object, which a caller could later see change.
- Keying `torrents` by hash is not modelled: list end reads only its number of keys, as a `map`.
- TaxonomyServices.TaxonomyService.HandleProcessTorrent and IncrementStatusCounts require every status of the torrent to be a key already. The source does a plain `+=` (lines 113-117), which yields NaN for a missing key. After list start every known status is a key, and the source's type restricts statuses to the known ones.
- The `increment*` loops work on a local copy of the bucket and store it once at the end. The source writes each key in place, but nothing observes the bucket between two keys, so the resulting state is the same.
- JavaScript object-key quirks are not modelled, for example a tag named like an `Object.prototype` member (`constructor`), which reads as non-null before it is set.
- Numbers are unbounded integers. The source's doubles lose precision above 2^53 bytes, which is not modelled.
- client/src/javascript/components/sidebar/LocationFilters.tsx is not modelled. It is a UI component that sorts with locale-sensitive `localeCompare`.
- The list actually used for `torrentStatusMap` is not part of this model (see above).
- TaxonomyCycle.ProcessTorrent, ProcessAll, CycleBucket, CycleSizeKeys, CycleLocationSentinel, CycleIdempotent and RepeatedCycleDiffEmpty: at the two location facets these are facts about the seeded location update. For the update as written (lines 167-168), the location buckets hold NaN after any cycle with at least one torrent, so none of the location results hold for it; `IncrementLocationAsWritten` and `LocationAsWrittenYieldsNaN` state what it does instead.

## Findings

| source | as written | input that shows it | evidently intended | confidence | as-written member | corrected member |
|---|---|---|---|---|---|---|
| server/services/taxonomyService.ts:167-168 | `locationSizes[directory] += sizeBytes` and `locationCounts[directory] += 1` run without first seeding the key. List start (lines 83-84) resets location sizes to `{}` and location counts to `{"": 0}`. | List start, then any torrent, for example one with directory `/data` and size 100: `locationSizes["/data"]` and `locationCounts["/data"]` both become NaN (undefined + number). | Seed an absent directory, as the tag and tracker increments do, so that each location bucket holds the per-directory sum. | medium, not executed | TaxonomyCycle.LocationAsWrittenYieldsNaN | TaxonomyCycle.ProcessTorrentFacet |
