/** The client-side torrent filter: keep the torrents matching one facet's selected values. */
module TorrentFilter {
  import opened Torrents

  /** Which facet a filter selects on. */
  datatype FilterType = Status | Tracker | Tag | Location

  /** A facet and the values selected in it. */
  datatype FilterOptions = FilterOptions(kind: FilterType, filter: seq<string>)

  /** Some entry of `xs` is one of the selected values. */
  predicate AnySelected(xs: seq<string>, filter: seq<string>)
  {
    exists x :: x in xs && x in filter
  }

  /** Whether torrent `t` passes a non-empty filter `opts`. */
  predicate Keeps(t: TorrentProperties, opts: FilterOptions)
    ensures Keeps(t, opts) ==> opts.filter != []
    ensures opts.kind == Status && t.status == [] ==> !Keeps(t, opts)
    ensures opts.kind == Tracker && t.trackerURIs == [] ==> !Keeps(t, opts)
    ensures opts.kind == Location && "" in opts.filter ==> Keeps(t, opts)
  {
    match opts.kind
    case Status => AnySelected(t.status, opts.filter)
    case Tracker => AnySelected(t.trackerURIs, opts.filter)
    case Tag => ("untagged" in opts.filter && |t.tags| == 0) || AnySelected(t.tags, opts.filter)
    case Location => exists d :: d in opts.filter && d <= t.directory
  }

  /** The torrents of `list` that pass `opts`, in their original order. */
  function Select(list: seq<TorrentProperties>, opts: FilterOptions): (r: seq<TorrentProperties>)
    ensures |r| <= |list|
    ensures forall x :: x in r ==> x in list && Keeps(x, opts)
    decreases |list|
  {
    if list == [] then []
    else
      var init, last := list[..|list| - 1], list[|list| - 1];
      Select(init, opts) + if Keeps(last, opts) then [last] else []
  }

  /** The torrents of `list` that pass `opts`; an empty selection filters nothing. */
  function FilterTorrents(list: seq<TorrentProperties>, opts: FilterOptions): (r: seq<TorrentProperties>)
    ensures |opts.filter| == 0 ==> r == list
  {
    if |opts.filter| > 0 then Select(list, opts) else list
  }

  /** The positions in `list` of the torrents that pass `opts`, in increasing order. */
  function SelectedIndices(list: seq<TorrentProperties>, opts: FilterOptions): (idx: seq<nat>)
    decreases |list|
  {
    if list == [] then []
    else
      var n := |list| - 1;
      SelectedIndices(list[..n], opts) + if Keeps(list[n], opts) then [n] else []
  }

  /**
   * `r` lists the elements of `list` at the positions `idx`, which increase strictly and are
   * exactly the positions whose torrent passes `opts`.
   */
  ghost predicate SelectionOf(r: seq<TorrentProperties>, list: seq<TorrentProperties>, idx: seq<nat>, opts: FilterOptions)
  {
    && |r| == |idx|
    && (forall j :: 0 <= j < |idx| ==> idx[j] < |list| && r[j] == list[idx[j]])
    && (forall j, j' :: 0 <= j < j' < |idx| ==> idx[j] < idx[j'])
    && (forall i :: 0 <= i < |list| ==> (i in idx <==> Keeps(list[i], opts)))
  }

  /** Select keeps, in order, exactly the torrents that pass the filter. */
  lemma {:induction false} SelectIsSelection(list: seq<TorrentProperties>, opts: FilterOptions)
    ensures SelectionOf(Select(list, opts), list, SelectedIndices(list, opts), opts)
    decreases |list|
  {
    if list != [] {
      SelectIsSelection(list[..|list| - 1], opts);
      SelectionStep(Select(list[..|list| - 1], opts), list, SelectedIndices(list[..|list| - 1], opts), opts);
    }
  }

  /** Appending one torrent extends a selection by that torrent exactly when it passes. */
  lemma {:induction false} SelectionStep(r0: seq<TorrentProperties>, list: seq<TorrentProperties>, idx0: seq<nat>, opts: FilterOptions)
    requires list != []
    requires SelectionOf(r0, list[..|list| - 1], idx0, opts)
    ensures var n := |list| - 1; var keep := Keeps(list[n], opts);
      SelectionOf(r0 + (if keep then [list[n]] else []), list, idx0 + (if keep then [n] else []), opts)
  {
    var n := |list| - 1;
    var init := list[..n];
    var keep := Keeps(list[n], opts);
    var r, idx := r0 + (if keep then [list[n]] else []), idx0 + (if keep then [n] else []);
    assert |r| == |idx|;
    forall j | 0 <= j < |idx| ensures idx[j] < |list| && r[j] == list[idx[j]] {
      if j < |idx0| {
        assert r[j] == r0[j] && idx[j] == idx0[j];
        assert init[idx0[j]] == list[idx0[j]];
      }
    }
    forall j, j' | 0 <= j < j' < |idx| ensures idx[j] < idx[j'] {
      if j' < |idx0| {
        assert idx[j] == idx0[j] && idx[j'] == idx0[j'];
      } else {
        assert idx[j] == idx0[j] < n;
      }
    }
    forall i | 0 <= i < |list| ensures i in idx <==> Keeps(list[i], opts) {
      if i < n {
        assert list[i] == init[i];
        assert i in idx <==> i in idx0 by {
          assert forall j :: 0 <= j < |idx0| ==> idx0[j] < n;
        }
      } else {
        assert n !in idx0 by {
          assert forall j :: 0 <= j < |idx0| ==> idx0[j] < n;
        }
      }
    }
  }

  /** A non-empty filter keeps, in order, exactly the torrents that pass it. */
  lemma FilterTorrentsIsSelection(list: seq<TorrentProperties>, opts: FilterOptions)
    requires |opts.filter| > 0
    ensures SelectionOf(FilterTorrents(list, opts), list, SelectedIndices(list, opts), opts)
  {
    SelectIsSelection(list, opts);
  }

  /** A torrent is in the result exactly when it is in the input and passes (or the filter is empty). */
  lemma FilterMembership(list: seq<TorrentProperties>, opts: FilterOptions, t: TorrentProperties)
    ensures t in FilterTorrents(list, opts) <==> t in list && (|opts.filter| == 0 || Keeps(t, opts))
  {
    if |opts.filter| > 0 {
      SelectIsSelection(list, opts);
      var r, idx := Select(list, opts), SelectedIndices(list, opts);
      if t in r {
        var j :| 0 <= j < |r| && r[j] == t;
        assert idx[j] in idx;
      }
      if t in list && Keeps(t, opts) {
        var i :| 0 <= i < |list| && list[i] == t;
        var j :| 0 <= j < |idx| && idx[j] == i;
        assert r[j] == t;
      }
    }
  }

  /** Selecting from a list whose every torrent passes returns the list. */
  lemma {:induction false} SelectAllPass(list: seq<TorrentProperties>, opts: FilterOptions)
    requires forall i :: 0 <= i < |list| ==> Keeps(list[i], opts)
    ensures Select(list, opts) == list
    decreases |list|
  {
    if list != [] {
      var n := |list| - 1;
      var init, last := list[..n], list[n];
      forall i | 0 <= i < |init| ensures Keeps(init[i], opts) {
        assert init[i] == list[i];
      }
      SelectAllPass(init, opts);
      calc {
        Select(list, opts);
        Select(init, opts) + (if Keeps(last, opts) then [last] else []);
        { assert Keeps(last, opts); }
        init + [last];
        { assert init + [last] == list; }
        list;
      }
    }
  }

  /** Filtering twice with the same options is filtering once. */
  lemma FilterIdempotent(list: seq<TorrentProperties>, opts: FilterOptions)
    ensures FilterTorrents(FilterTorrents(list, opts), opts) == FilterTorrents(list, opts)
  {
    if |opts.filter| > 0 {
      SelectIsSelection(list, opts);
      var r := Select(list, opts);
      SelectAllPass(r, opts);
    }
  }

  /** The location filter matches by raw character prefix: "/data/mov" selects "/data/movies/x". */
  lemma LocationMatchesRawPrefix(t: TorrentProperties)
    requires t.directory == "/data/movies/x"
    ensures Keeps(t, FilterOptions(Location, ["/data/mov"]))
    ensures Keeps(t, FilterOptions(Location, ["/data/movies"]))
    ensures !Keeps(t, FilterOptions(Location, ["/data/movies/y"]))
  {
    assert "/data/mov" <= t.directory by {
      assert t.directory[..9] == "/data/mov";
    }
    assert "/data/mov" in ["/data/mov"];
    assert "/data/movies" <= t.directory by {
      assert t.directory[..12] == "/data/movies";
    }
    assert "/data/movies" in ["/data/movies"];
    assert "/data/movies/y"[13] != t.directory[13];
  }

  /** The tag filter's "untagged" value selects the torrents without tags. */
  lemma UntaggedSelectsTagless(t: TorrentProperties, filter: seq<string>)
    requires "untagged" in filter
    ensures t.tags == [] ==> Keeps(t, FilterOptions(Tag, filter))
    ensures t.tags != [] ==> (Keeps(t, FilterOptions(Tag, filter)) <==> AnySelected(t.tags, filter))
  {
  }
}
