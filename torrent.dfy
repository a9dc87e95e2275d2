/** The torrent record as the taxonomy and the client-side filters see it. */
module Torrents {

  /** The fields of a torrent's properties that are read when aggregating or filtering. */
  datatype TorrentProperties = TorrentProperties(
    status: seq<string>,
    tags: seq<string>,
    trackerURIs: seq<string>,
    directory: string,
    sizeBytes: nat)

  /** Every status label a torrent can report, in declaration order. */
  const TorrentStatusMap: seq<string> :=
    ["checking", "seeding", "complete", "downloading", "stopped", "error", "inactive", "active"]

  /** The labels of TorrentStatusMap as a set. */
  function StatusLabels(): (labels: set<string>)
    ensures forall s :: s in labels <==> s in TorrentStatusMap
    ensures "" !in labels
  {
    set s | s in TorrentStatusMap
  }

  /** Every status the torrent reports is one of `keys`. */
  predicate StatusesIn(t: TorrentProperties, keys: set<string>)
  {
    forall s :: s in t.status ==> s in keys
  }
}
