/** The three ways a facet bucket is updated: seed-then-increment, plain increment and reset to zero. */
module Buckets {

  /** The value stored under `k`, or 0 when `k` is absent. */
  function Get0(m: map<string, int>, k: string): int
  {
    if k in m then m[k] else 0
  }

  /** The keys listed in `ks`, as a set. */
  function KeySet(ks: seq<string>): (s: set<string>)
    ensures forall k :: k in s <==> k in ks
  {
    set k | k in ks
  }

  /**
   * Seed-then-increment, one listed key after another: a present key gains `delta`, an
   * absent key is created holding `delta`.
   */
  function Bump(m: map<string, int>, ks: seq<string>, delta: int): map<string, int>
    decreases |ks|
  {
    if ks == [] then m
    else
      var prev := Bump(m, ks[..|ks| - 1], delta);
      var k := ks[|ks| - 1];
      if k in prev then prev[k := prev[k] + delta] else prev[k := delta]
  }

  /** A bump creates exactly the listed keys, and a key listed n times gains n * delta. */
  lemma {:induction false} BumpSpec(m: map<string, int>, ks: seq<string>, delta: int)
    ensures Bump(m, ks, delta).Keys == m.Keys + KeySet(ks)
    ensures forall k :: Get0(Bump(m, ks, delta), k) == Get0(m, k) + delta * multiset(ks)[k]
    decreases |ks|
  {
    if ks != [] {
      var init, k := ks[..|ks| - 1], ks[|ks| - 1];
      BumpSpec(m, init, delta);
      assert ks == init + [k];
      OneMore(init, k, delta);
    }
  }

  /** Appending `k` adds one `delta` to what `k` accumulates and nothing to any other key. */
  lemma OneMore(ks: seq<string>, k: string, delta: int)
    ensures delta * multiset(ks + [k])[k] == delta * multiset(ks)[k] + delta
    ensures forall j :: j != k ==> multiset(ks + [k])[j] == multiset(ks)[j]
  {
    assert multiset(ks + [k]) == multiset(ks) + multiset{k};
    var c := multiset(ks)[k];
    assert multiset(ks + [k])[k] == c + 1;
    assert delta * (c + 1) == delta * c + delta;
  }

  /** Plain increment, one listed key after another; every listed key must already be present. */
  function Increment(m: map<string, int>, ks: seq<string>, delta: int): (r: map<string, int>)
    requires forall k :: k in ks ==> k in m
    ensures r.Keys == m.Keys
    decreases |ks|
  {
    if ks == [] then m
    else
      var prev := Increment(m, ks[..|ks| - 1], delta);
      var k := ks[|ks| - 1];
      prev[k := prev[k] + delta]
  }

  /** An increment keeps the keys, and a key listed n times gains n * delta. */
  lemma {:induction false} IncrementSpec(m: map<string, int>, ks: seq<string>, delta: int)
    requires forall k :: k in ks ==> k in m
    ensures forall k :: Get0(Increment(m, ks, delta), k) == Get0(m, k) + delta * multiset(ks)[k]
    decreases |ks|
  {
    if ks != [] {
      var init, k := ks[..|ks| - 1], ks[|ks| - 1];
      IncrementSpec(m, init, delta);
      assert ks == init + [k];
      OneMore(init, k, delta);
    }
  }

  /** Sets every listed key to 0, creating it if absent; other keys keep their values. */
  function SeedZero(m: map<string, int>, ks: seq<string>): map<string, int>
    decreases |ks|
  {
    if ks == [] then m
    else SeedZero(m, ks[..|ks| - 1])[ks[|ks| - 1] := 0]
  }

  /** Zeroing creates exactly the listed keys, reads 0 at each of them and leaves the rest. */
  lemma {:induction false} SeedZeroSpec(m: map<string, int>, ks: seq<string>)
    ensures SeedZero(m, ks).Keys == m.Keys + KeySet(ks)
    ensures forall k :: k in SeedZero(m, ks) ==> SeedZero(m, ks)[k] == if k in ks then 0 else m[k]
    decreases |ks|
  {
    if ks != [] {
      var init := ks[..|ks| - 1];
      SeedZeroSpec(m, init);
      assert ks == init + [ks[|ks| - 1]];
    }
  }

  /** Bumping a single key adds `delta` to it, seeding it when absent. */
  lemma BumpSingle(m: map<string, int>, k: string, delta: int)
    ensures Bump(m, [k], delta) == m[k := Get0(m, k) + delta]
  {
    assert [k][..0] == [];
  }

  /** One more key of the list, bumped: what a loop over the list does at step `i`. */
  lemma BumpStep(m: map<string, int>, ks: seq<string>, i: nat, delta: int)
    requires i < |ks|
    ensures var prev := Bump(m, ks[..i], delta);
      Bump(m, ks[..i + 1], delta) == prev[ks[i] := if ks[i] in prev then prev[ks[i]] + delta else delta]
  {
    assert ks[..i + 1][..i] == ks[..i];
  }

  /** One more key of the list, incremented: what a loop over the list does at step `i`. */
  lemma IncrementStep(m: map<string, int>, ks: seq<string>, i: nat, delta: int)
    requires forall k :: k in ks ==> k in m
    requires i < |ks|
    ensures forall k :: k in ks[..i + 1] ==> k in m
    ensures var prev := Increment(m, ks[..i], delta);
      ks[i] in prev && Increment(m, ks[..i + 1], delta) == prev[ks[i] := prev[ks[i]] + delta]
  {
    assert ks[..i + 1][..i] == ks[..i];
  }

  /** One more key of the list, zeroed: what a loop over the list does at step `i`. */
  lemma SeedZeroStep(m: map<string, int>, ks: seq<string>, i: nat)
    requires i < |ks|
    ensures SeedZero(m, ks[..i + 1]) == SeedZero(m, ks[..i])[ks[i] := 0]
  {
    assert ks[..i + 1][..i] == ks[..i];
  }
}
