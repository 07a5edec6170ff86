/** The top-level collection: every initial tile of the sweep is processed
    in order, and the non-empty record sets it yields are appended to
    all_features while total_collected keeps the running feature count. */
module Harvest {
  import opened Geometry
  import opened Records
  import opened TileGrid
  import opened Subdivision

  /** The record sets of leaves that hold at least one feature, in order. */
  function NonEmpty(leaves: seq<Leaf>): seq<Leaf>
  {
    if leaves == [] then []
    else
      var last := leaves[|leaves| - 1];
      NonEmpty(leaves[..|leaves| - 1]) + (if last.records.count > 0 then [last] else [])
  }

  /** The number of features held by a list of record sets. */
  function TotalCount(leaves: seq<Leaf>): nat
  {
    if leaves == [] then 0
    else TotalCount(leaves[..|leaves| - 1]) + leaves[|leaves| - 1].records.count
  }

  /** all_features after tiles whose process_tile results are perTile,
      in order, have been handled. */
  function Gather(perTile: seq<seq<Leaf>>): seq<Leaf>
  {
    if perTile == [] then []
    else Gather(perTile[..|perTile| - 1]) + NonEmpty(perTile[|perTile| - 1])
  }

  /** What process_tile returns for each of the tiles, at depth 0. */
  function TileResults(fetch: Fetcher, tiles: seq<BBox>): (r: seq<seq<Leaf>>)
    ensures |r| == |tiles|
  {
    seq(|tiles|, k requires 0 <= k < |tiles| => Process(fetch, tiles[k], 0))
  }

  /** all_features after the given initial tiles have been processed. */
  function Collected(fetch: Fetcher, tiles: seq<BBox>): seq<Leaf>
  {
    Gather(TileResults(fetch, tiles))
  }

  /** The collection loop as the script runs it over the tile sweep. */
  method CollectAll(fetch: Fetcher, area: BBox, size: real) returns (allFeatures: seq<Leaf>, totalCollected: nat)
    requires size > 0.0
    ensures allFeatures == Collected(fetch, Tiles(area, size))
    ensures totalCollected == TotalCount(allFeatures)
    ensures forall l :: l in allFeatures ==>
      l.records.count > 0 && Within(l.region, area) &&
      (l.records.count < MAX_FEATURES || l.depth == MAX_DEPTH)
  {
    var tiles := GenerateTiles(area, size);
    allFeatures := [];
    totalCollected := 0;
    ghost var perTile: seq<seq<Leaf>> := [];
    for t := 0 to |tiles|
      invariant perTile == TileResults(fetch, tiles[..t])
      invariant allFeatures == Gather(perTile)
      invariant totalCollected == TotalCount(allFeatures)
    {
      var tileFeatures, _ := ProcessTile(fetch, tiles[t], 0);
      TileResultsStep(fetch, tiles, t);
      perTile := perTile + [tileFeatures];
      assert perTile[..|perTile| - 1] == TileResults(fetch, tiles[..t]);
      if tileFeatures == [] {
        continue;
      }
      allFeatures, totalCollected := CollectTile(allFeatures, totalCollected, tileFeatures);
    }
    assert tiles[..|tiles|] == tiles;
    CollectedLeaves(fetch, area, size);
  }

  /** The inner loop over one tile's record sets: the non-empty ones are
      appended in order and their sizes added to the running total. */
  method CollectTile(features: seq<Leaf>, total: nat, tileFeatures: seq<Leaf>)
    returns (allFeatures: seq<Leaf>, totalCollected: nat)
    requires total == TotalCount(features)
    ensures allFeatures == features + NonEmpty(tileFeatures)
    ensures totalCollected == TotalCount(allFeatures)
  {
    allFeatures, totalCollected := features, total;
    for g := 0 to |tileFeatures|
      invariant allFeatures == features + NonEmpty(tileFeatures[..g])
      invariant totalCollected == TotalCount(allFeatures)
    {
      assert tileFeatures[..g + 1][..g] == tileFeatures[..g];
      var gdf := tileFeatures[g];
      if gdf.records.count > 0 {
        TotalCountAppend(allFeatures, [gdf]);
        allFeatures := allFeatures + [gdf];
        totalCollected := totalCollected + gdf.records.count;
      }
    }
    assert tileFeatures[..|tileFeatures|] == tileFeatures;
  }

  /** One more tile adds its process_tile result at the end. */
  lemma TileResultsStep(fetch: Fetcher, tiles: seq<BBox>, t: nat)
    requires t < |tiles|
    ensures TileResults(fetch, tiles[..t + 1]) == TileResults(fetch, tiles[..t]) + [Process(fetch, tiles[t], 0)]
  {
    var r, r' := TileResults(fetch, tiles[..t + 1]), TileResults(fetch, tiles[..t]) + [Process(fetch, tiles[t], 0)];
    forall k | 0 <= k < t + 1
      ensures r[k] == r'[k]
    {
      assert tiles[..t + 1][k] == tiles[k];
      if k < t {
        assert tiles[..t][k] == tiles[k];
      }
    }
  }

  /** A record set is kept exactly when it is one of the given ones and
      holds at least one feature. */
  lemma {:induction false} NonEmptyMembers(leaves: seq<Leaf>, l: Leaf)
    ensures l in NonEmpty(leaves) <==> l in leaves && l.records.count > 0
  {
    if leaves != [] {
      var init := leaves[..|leaves| - 1];
      NonEmptyMembers(init, l);
      assert leaves == init + [leaves[|leaves| - 1]];
    }
  }

  /** The running total is additive over concatenation. */
  lemma {:induction false} TotalCountAppend(a: seq<Leaf>, b: seq<Leaf>)
    ensures TotalCount(a + b) == TotalCount(a) + TotalCount(b)
    decreases |b|
  {
    if b != [] {
      var init := b[..|b| - 1];
      TotalCountAppend(a, init);
      assert (a + b)[..|a + b| - 1] == a + init;
      assert TotalCount(a + b) == TotalCount(a + init) + b[|b| - 1].records.count;
    } else {
      assert a + b == a;
    }
  }

  /** Tiles are handled independently: all_features for two runs of
      tiles is what the first run contributes followed by what the second
      contributes. */
  lemma {:induction false} GatherAppend(a: seq<seq<Leaf>>, b: seq<seq<Leaf>>)
    ensures Gather(a + b) == Gather(a) + Gather(b)
    decreases |b|
  {
    if b == [] {
      assert a + b == a;
    } else {
      var init, last := b[..|b| - 1], b[|b| - 1];
      calc {
        Gather(a + b);
        == { assert (a + b)[..|a + b| - 1] == a + init; assert (a + b)[|a + b| - 1] == last; }
        Gather(a + init) + NonEmpty(last);
        == { GatherAppend(a, init); }
        Gather(a) + Gather(init) + NonEmpty(last);
      }
    }
  }

  /** A tile that yields nothing adds nothing to all_features. */
  lemma GatherEmptyTile(perTile: seq<seq<Leaf>>)
    ensures Gather(perTile + [[]]) == Gather(perTile)
  {
    assert (perTile + [[]])[..|perTile|] == perTile;
  }

  /** A tile that yields nothing leaves all_features as if it had not
      been in the sweep. */
  lemma GatherSkipsEmpty(perTile: seq<seq<Leaf>>, n: nat)
    requires n < |perTile| && perTile[n] == []
    ensures Gather(perTile) == Gather(perTile[..n]) + Gather(perTile[n + 1..])
  {
    var before, after := perTile[..n], perTile[n + 1..];
    assert perTile == (before + [[]]) + after;
    GatherAppend(before + [[]], after);
    GatherEmptyTile(before);
  }

  /** The results for a slice of the tiles are the slice of the results. */
  lemma TileResultsSlice(fetch: Fetcher, tiles: seq<BBox>, i: nat, j: nat)
    requires i <= j <= |tiles|
    ensures TileResults(fetch, tiles[i..j]) == TileResults(fetch, tiles)[i..j]
  {
    var r, r' := TileResults(fetch, tiles[i..j]), TileResults(fetch, tiles)[i..j];
    forall k | 0 <= k < j - i
      ensures r[k] == r'[k]
    {
      assert tiles[i..j][k] == tiles[i + k];
    }
  }

  /** A tile whose request fails adds nothing, and the tiles after it are
      processed as if it had not been there. */
  lemma FailureIsolation(fetch: Fetcher, tiles: seq<BBox>, n: nat)
    requires n < |tiles| && fetch(tiles[n]).None?
    ensures Collected(fetch, tiles) == Collected(fetch, tiles[..n]) + Collected(fetch, tiles[n + 1..])
  {
    var r := TileResults(fetch, tiles);
    FetchFailureAbandons(fetch, tiles[n], 0);
    assert r[n] == [];
    TileResultsSlice(fetch, tiles, 0, n);
    TileResultsSlice(fetch, tiles, n + 1, |tiles|);
    assert tiles[0..n] == tiles[..n] && tiles[n + 1..|tiles|] == tiles[n + 1..];
    assert r[0..n] == r[..n] && r[n + 1..|r|] == r[n + 1..];
    GatherSkipsEmpty(r, n);
  }

  /** Every member of all_features is a non-empty record set returned
      for one of the tiles. */
  lemma {:induction false} GatherFrom(perTile: seq<seq<Leaf>>, l: Leaf)
    requires l in Gather(perTile)
    ensures l.records.count > 0
    ensures exists k :: 0 <= k < |perTile| && l in perTile[k]
  {
    var init := perTile[..|perTile| - 1];
    if l in Gather(init) {
      GatherFrom(init, l);
      var k :| 0 <= k < |init| && l in init[k];
      assert init[k] == perTile[k];
    } else {
      NonEmptyMembers(perTile[|perTile| - 1], l);
    }
  }

  /** For the tile sweep of an area: every collected record set is
      non-empty, below the cap or at the depth limit, and inside the area. */
  lemma CollectedLeaves(fetch: Fetcher, area: BBox, size: real)
    requires size > 0.0
    ensures forall l :: l in Collected(fetch, Tiles(area, size)) ==>
      l.records.count > 0 && Within(l.region, area) &&
      (l.records.count < MAX_FEATURES || l.depth == MAX_DEPTH)
  {
    var tiles := Tiles(area, size);
    var r := TileResults(fetch, tiles);
    forall l | l in Gather(r)
      ensures l.records.count > 0 && Within(l.region, area)
      ensures l.records.count < MAX_FEATURES || l.depth == MAX_DEPTH
    {
      GatherFrom(r, l);
      var k :| 0 <= k < |r| && l in r[k];
      ProcessLeaves(fetch, tiles[k], 0);
      TileInArea(area, size, tiles[k]);
    }
  }

  /** Processing two runs of tiles gives the results of the first run
      followed by those of the second. */
  lemma TileResultsAppend(fetch: Fetcher, s: seq<BBox>, t: seq<BBox>)
    ensures TileResults(fetch, s + t) == TileResults(fetch, s) + TileResults(fetch, t)
  {
    var r, r' := TileResults(fetch, s + t), TileResults(fetch, s) + TileResults(fetch, t);
    forall k | 0 <= k < |r|
      ensures r[k] == r'[k]
    {
      if k >= |s| {
        assert (s + t)[k] == t[k - |s|];
      }
    }
  }

  /** total_collected adds up tile run by tile run. */
  lemma TotalOverTiles(fetch: Fetcher, s: seq<BBox>, t: seq<BBox>)
    ensures Collected(fetch, s + t) == Collected(fetch, s) + Collected(fetch, t)
    ensures TotalCount(Collected(fetch, s + t)) ==
      TotalCount(Collected(fetch, s)) + TotalCount(Collected(fetch, t))
  {
    TileResultsAppend(fetch, s, t);
    GatherAppend(TileResults(fetch, s), TileResults(fetch, t));
    TotalCountAppend(Collected(fetch, s), Collected(fetch, t));
  }
}
