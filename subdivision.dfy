/** process_tile: fetch a box; keep the result when it is below the
    server cap or the depth limit is reached; otherwise split the box into
    four quarters, process them one after another at the next depth and
    concatenate what they return. */
module Subdivision {
  import opened Geometry
  import opened Records

  /** The server's per-request feature cap. */
  const MAX_FEATURES: nat := 5000

  /** Subdivision depth at which a result is kept whatever its count. */
  const MAX_DEPTH: nat := 3

  /** The remote query for one box: a record set, or None when the request
      or the decoding of its answer failed. */
  type Fetcher = BBox -> Option<RecordSet>

  /** A record set returned by process_tile, together with the box it was
      fetched for and the depth of that box. */
  datatype Leaf = Leaf(region: BBox, depth: nat, records: RecordSet)

  /** The acceptance test: a result is believed complete when it is below
      the cap, and is kept regardless at the depth limit. */
  predicate Accepts(rs: RecordSet, depth: nat)
  {
    rs.count < MAX_FEATURES || depth >= MAX_DEPTH
  }

  /** How many more levels of subdivision a box at this depth may undergo. */
  function Remaining(depth: nat): nat
  {
    if depth < MAX_DEPTH then MAX_DEPTH - depth else 0
  }

  /** The deepest level a leaf under a box at this depth can have. */
  function Deepest(depth: nat): nat
  {
    if depth < MAX_DEPTH then MAX_DEPTH else depth
  }

  /** The record sets process_tile(b, depth) returns, in order. */
  function Process(fetch: Fetcher, b: BBox, depth: nat): seq<Leaf>
    decreases Remaining(depth), 1, 0
  {
    match fetch(b)
    case None => []
    case Some(rs) =>
      if Accepts(rs, depth) then [Leaf(b, depth, KeepColumns(rs))]
      else ChildResults(fetch, b, depth, 4)
  }

  /** The concatenated results of the first n quarters of b, in the
      i-outer, j-inner visiting order. */
  function ChildResults(fetch: Fetcher, b: BBox, depth: nat, n: nat): seq<Leaf>
    requires n <= 4 && depth < MAX_DEPTH
    decreases Remaining(depth), 0, n
  {
    if n == 0 then []
    else ChildResults(fetch, b, depth, n - 1) + Process(fetch, Children(b)[n - 1], depth + 1)
  }

  /** The boxes process_tile(b, depth) asks the service for, in the order
      of the requests: depth first, each box before its quarters. */
  function Trace(fetch: Fetcher, b: BBox, depth: nat): seq<BBox>
    decreases Remaining(depth), 1, 0
  {
    match fetch(b)
    case None => [b]
    case Some(rs) =>
      if Accepts(rs, depth) then [b]
      else [b] + ChildTraces(fetch, b, depth, 4)
  }

  function ChildTraces(fetch: Fetcher, b: BBox, depth: nat, n: nat): seq<BBox>
    requires n <= 4 && depth < MAX_DEPTH
    decreases Remaining(depth), 0, n
  {
    if n == 0 then []
    else ChildTraces(fetch, b, depth, n - 1) + Trace(fetch, Children(b)[n - 1], depth + 1)
  }

  /** process_tile as the source runs it: one request, then either an
      early return or the subdivision of lines 72-89. Also returns the boxes
      requested, in order. */
  method ProcessTile(fetch: Fetcher, bbox: BBox, depth: nat) returns (results: seq<Leaf>, fetched: seq<BBox>)
    ensures results == Process(fetch, bbox, depth)
    ensures fetched == Trace(fetch, bbox, depth)
    decreases Remaining(depth), 1
  {
    var gdf := fetch(bbox);
    if gdf.None? {
      return [], [bbox];
    }
    if gdf.value.count < MAX_FEATURES || depth >= MAX_DEPTH {
      return [Leaf(bbox, depth, KeepColumns(gdf.value))], [bbox];
    }
    var childFetched;
    results, childFetched := SubdivideTile(fetch, bbox, depth);
    fetched := [bbox] + childFetched;
  }

  /** The subdivision branch of process_tile: two nested loops over i (x)
      and j (y) that process each quarter at the next depth and extend the
      result list with what it returns. */
  method SubdivideTile(fetch: Fetcher, bbox: BBox, depth: nat) returns (results: seq<Leaf>, fetched: seq<BBox>)
    requires depth < MAX_DEPTH
    ensures results == ChildResults(fetch, bbox, depth, 4)
    ensures fetched == ChildTraces(fetch, bbox, depth, 4)
    decreases Remaining(depth), 0, 1
  {
    results := [];
    fetched := [];
    for i := 0 to TILE_DIVISION_FACTOR
      invariant results == ChildResults(fetch, bbox, depth, 2 * i)
      invariant fetched == ChildTraces(fetch, bbox, depth, 2 * i)
    {
      results, fetched := SubdivideColumn(fetch, bbox, depth, i, results, fetched);
    }
  }

  /** The inner loop of the subdivision for column i: quarters (i, 0) and
      (i, 1) are processed in turn and their results and requests appended
      to those of the columns before. */
  method SubdivideColumn(fetch: Fetcher, bbox: BBox, depth: nat, i: nat, results0: seq<Leaf>, fetched0: seq<BBox>)
    returns (results: seq<Leaf>, fetched: seq<BBox>)
    requires depth < MAX_DEPTH && i < TILE_DIVISION_FACTOR
    requires results0 == ChildResults(fetch, bbox, depth, 2 * i)
    requires fetched0 == ChildTraces(fetch, bbox, depth, 2 * i)
    ensures results == ChildResults(fetch, bbox, depth, 2 * i + 2)
    ensures fetched == ChildTraces(fetch, bbox, depth, 2 * i + 2)
    decreases Remaining(depth), 0, 0
  {
    results, fetched := results0, fetched0;
    for j := 0 to TILE_DIVISION_FACTOR
      invariant results == ChildResults(fetch, bbox, depth, 2 * i + j)
      invariant fetched == ChildTraces(fetch, bbox, depth, 2 * i + j)
    {
      var subBBox := Quarter(bbox, i, j);
      ChildStep(fetch, bbox, depth, i, j);
      var subResults, subFetched := ProcessTile(fetch, subBBox, depth + 1);
      results := results + subResults;
      fetched := fetched + subFetched;
    }
  }

  /** Processing quarter (i, j) extends the results and the requests of
      the quarters visited before it. */
  lemma ChildStep(fetch: Fetcher, b: BBox, depth: nat, i: nat, j: nat)
    requires depth < MAX_DEPTH && i < 2 && j < 2
    ensures ChildResults(fetch, b, depth, 2 * i + j + 1) ==
      ChildResults(fetch, b, depth, 2 * i + j) + Process(fetch, Quarter(b, i, j), depth + 1)
    ensures ChildTraces(fetch, b, depth, 2 * i + j + 1) ==
      ChildTraces(fetch, b, depth, 2 * i + j) + Trace(fetch, Quarter(b, i, j), depth + 1)
  {
    ChildAt(b, i, j);
  }

  /** A failed request ends the branch: nothing is returned for the box
      and none of its quarters is requested. */
  lemma FetchFailureAbandons(fetch: Fetcher, b: BBox, depth: nat)
    requires fetch(b).None?
    ensures Process(fetch, b, depth) == []
    ensures Trace(fetch, b, depth) == [b]
  {
  }

  /** What every returned leaf satisfies: its box was fetched successfully,
      the fetched count passed the acceptance test at the leaf's depth, and
      the leaf holds that record set with the kept columns only. */
  predicate FetchedAndAccepted(fetch: Fetcher, l: Leaf)
  {
    fetch(l.region).Some? &&
    Accepts(fetch(l.region).value, l.depth) &&
    l.records == KeepColumns(fetch(l.region).value)
  }

  /** A leaf of the subdivision of b started at depth. */
  predicate LeafOf(fetch: Fetcher, b: BBox, depth: nat, l: Leaf)
  {
    FetchedAndAccepted(fetch, l) &&
    depth <= l.depth <= Deepest(depth) &&
    (Ordered(b) ==> Ordered(l.region) && Within(l.region, b))
  }

  /** Every leaf comes from an accepted fetch of a box that was requested,
      lies within b, and is no deeper than the depth limit. */
  lemma {:induction false} ProcessLeaves(fetch: Fetcher, b: BBox, depth: nat)
    ensures forall l :: l in Process(fetch, b, depth) ==>
      LeafOf(fetch, b, depth, l) && l.region in Trace(fetch, b, depth)
    decreases Remaining(depth), 1, 0
  {
    match fetch(b)
    case None =>
    case Some(rs) =>
      if !Accepts(rs, depth) {
        ChildLeaves(fetch, b, depth, 4);
      }
  }

  lemma {:induction false} ChildLeaves(fetch: Fetcher, b: BBox, depth: nat, n: nat)
    requires n <= 4 && depth < MAX_DEPTH
    ensures forall l :: l in ChildResults(fetch, b, depth, n) ==>
      LeafOf(fetch, b, depth + 1, l) && l.region in ChildTraces(fetch, b, depth, n)
    decreases Remaining(depth), 0, n
  {
    if n > 0 {
      ChildLeaves(fetch, b, depth, n - 1);
      var c := Children(b)[n - 1];
      ProcessLeaves(fetch, c, depth + 1);
      if Ordered(b) {
        QuarterWithin(b, (n - 1) / 2, (n - 1) % 2);
      }
    }
  }

  /** The acceptance rule seen from the caller: every record set returned
      by a call at depth 0 was fetched with a count below MAX_FEATURES or at
      depth exactly MAX_DEPTH, and never deeper. */
  lemma CapOrMaxDepth(fetch: Fetcher, b: BBox)
    ensures forall l :: l in Process(fetch, b, 0) ==>
      l.depth <= MAX_DEPTH &&
      fetch(l.region).Some? &&
      l.records.count == fetch(l.region).value.count &&
      (l.records.count < MAX_FEATURES || l.depth == MAX_DEPTH)
  {
    ProcessLeaves(fetch, b, 0);
  }

  function Pow4(n: nat): nat
  {
    if n == 0 then 1 else 4 * Pow4(n - 1)
  }

  /** Requests made by a full quadtree of the given height: 1 + 4 + ... */
  function MaxFetches(levels: nat): nat
  {
    if levels == 0 then 1 else 1 + 4 * MaxFetches(levels - 1)
  }

  /** n copies of each, added up. */
  function Times(n: nat, each: nat): nat
  {
    if n == 0 then 0 else Times(n - 1, each) + each
  }

  /** At most 4^r record sets and 1 + 4 + ... + 4^r requests, where r is
      the number of levels left before the depth limit. */
  lemma {:induction false} ProcessBounds(fetch: Fetcher, b: BBox, depth: nat)
    ensures |Process(fetch, b, depth)| <= Pow4(Remaining(depth))
    ensures 1 <= |Trace(fetch, b, depth)| <= MaxFetches(Remaining(depth))
    decreases Remaining(depth), 1, 0
  {
    match fetch(b)
    case None =>
    case Some(rs) =>
      if !Accepts(rs, depth) {
        ChildBounds(fetch, b, depth, 4);
        var r := Remaining(depth + 1);
        assert Remaining(depth) == r + 1;
        assert Times(4, Pow4(r)) == Pow4(r + 1);
        assert Times(4, MaxFetches(r)) + 1 == MaxFetches(r + 1);
      }
  }

  lemma {:induction false} ChildBounds(fetch: Fetcher, b: BBox, depth: nat, n: nat)
    requires n <= 4 && depth < MAX_DEPTH
    ensures |ChildResults(fetch, b, depth, n)| <= Times(n, Pow4(Remaining(depth + 1)))
    ensures |ChildTraces(fetch, b, depth, n)| <= Times(n, MaxFetches(Remaining(depth + 1)))
    decreases Remaining(depth), 0, n
  {
    if n > 0 {
      ChildBounds(fetch, b, depth, n - 1);
      ProcessBounds(fetch, Children(b)[n - 1], depth + 1);
    }
  }

  /** From depth 0 a tile costs at most 85 requests and yields at most 64
      record sets, whatever the service answers. */
  lemma RequestBudget(fetch: Fetcher, b: BBox)
    ensures |Process(fetch, b, 0)| <= 64
    ensures |Trace(fetch, b, 0)| <= 85
  {
    ProcessBounds(fetch, b, 0);
    assert Pow4(3) == 64;
    assert MaxFetches(3) == 85;
  }

  /** When the box is subdivided, the result is the concatenation of the
      four quarters' results in i-outer, j-inner order, and the parent's
      own over-cap record set is not among them: every leaf is deeper. */
  lemma SubdivisionConcatenates(fetch: Fetcher, b: BBox, depth: nat)
    requires fetch(b).Some? && !Accepts(fetch(b).value, depth)
    ensures Process(fetch, b, depth) ==
      Process(fetch, Quarter(b, 0, 0), depth + 1) + Process(fetch, Quarter(b, 0, 1), depth + 1) +
      Process(fetch, Quarter(b, 1, 0), depth + 1) + Process(fetch, Quarter(b, 1, 1), depth + 1)
    ensures forall l :: l in Process(fetch, b, depth) ==> l.depth > depth
  {
    ChildLeaves(fetch, b, depth, 4);
    assert Process(fetch, b, depth) == ChildResults(fetch, b, depth, 4);
    ChildAt(b, 0, 0);
    ChildAt(b, 0, 1);
    ChildAt(b, 1, 0);
    ChildAt(b, 1, 1);
    var d := depth + 1;
    var p0, p1 := Process(fetch, Quarter(b, 0, 0), d), Process(fetch, Quarter(b, 0, 1), d);
    var p2, p3 := Process(fetch, Quarter(b, 1, 0), d), Process(fetch, Quarter(b, 1, 1), d);
    assert ChildResults(fetch, b, depth, 4) == ChildResults(fetch, b, depth, 3) + p3;
    assert ChildResults(fetch, b, depth, 3) == ChildResults(fetch, b, depth, 2) + p2;
    assert ChildResults(fetch, b, depth, 2) == ChildResults(fetch, b, depth, 1) + p1;
    assert ChildResults(fetch, b, depth, 1) == p0;
  }

  /** When the box is subdivided, its request comes first, followed by the
      requests of the four quarters, each quarter's subtree completed before
      the next quarter is requested. */
  lemma SubdivisionRequestOrder(fetch: Fetcher, b: BBox, depth: nat)
    requires fetch(b).Some? && !Accepts(fetch(b).value, depth)
    ensures Trace(fetch, b, depth) == [b] +
      (Trace(fetch, Quarter(b, 0, 0), depth + 1) + Trace(fetch, Quarter(b, 0, 1), depth + 1) +
       Trace(fetch, Quarter(b, 1, 0), depth + 1) + Trace(fetch, Quarter(b, 1, 1), depth + 1))
  {
    assert Trace(fetch, b, depth) == [b] + ChildTraces(fetch, b, depth, 4);
    ChildAt(b, 0, 0);
    ChildAt(b, 0, 1);
    ChildAt(b, 1, 0);
    ChildAt(b, 1, 1);
    var d := depth + 1;
    var t0, t1 := Trace(fetch, Quarter(b, 0, 0), d), Trace(fetch, Quarter(b, 0, 1), d);
    var t2, t3 := Trace(fetch, Quarter(b, 1, 0), d), Trace(fetch, Quarter(b, 1, 1), d);
    assert ChildTraces(fetch, b, depth, 4) == ChildTraces(fetch, b, depth, 3) + t3;
    assert ChildTraces(fetch, b, depth, 3) == ChildTraces(fetch, b, depth, 2) + t2;
    assert ChildTraces(fetch, b, depth, 2) == ChildTraces(fetch, b, depth, 1) + t1;
    assert ChildTraces(fetch, b, depth, 1) == t0;
  }

  /** Nothing is lost to the cap: when none of the requests fails, every
      point of b lies in the box of some returned record set, and (with
      ProcessLeaves) the boxes of the returned record sets lie within b, so
      together they cover b exactly. */
  lemma {:induction false} ProcessCovers(fetch: Fetcher, b: BBox, depth: nat, p: Point)
    requires Ordered(b) && Contains(b, p)
    requires forall q :: q in Trace(fetch, b, depth) ==> fetch(q).Some?
    ensures exists l :: l in Process(fetch, b, depth) && Contains(l.region, p)
    decreases Remaining(depth), 1, 0
  {
    assert b in Trace(fetch, b, depth);
    var rs := fetch(b).value;
    if Accepts(rs, depth) {
      assert Process(fetch, b, depth)[0].region == b;
    } else {
      QuartersCover(b, p);
      var k :| 0 <= k < 4 && Contains(Children(b)[k], p);
      ChildCovers(fetch, b, depth, 4, k, p);
    }
  }

  lemma {:induction false} ChildCovers(fetch: Fetcher, b: BBox, depth: nat, n: nat, k: nat, p: Point)
    requires n <= 4 && depth < MAX_DEPTH && k < n
    requires Ordered(b) && Contains(Children(b)[k], p)
    requires forall q :: q in ChildTraces(fetch, b, depth, n) ==> fetch(q).Some?
    ensures exists l :: l in ChildResults(fetch, b, depth, n) && Contains(l.region, p)
    decreases Remaining(depth), 0, n
  {
    if k == n - 1 {
      var c := Children(b)[k];
      QuarterWithin(b, k / 2, k % 2);
      ProcessCovers(fetch, c, depth + 1, p);
      var l :| l in Process(fetch, c, depth + 1) && Contains(l.region, p);
      assert l in ChildResults(fetch, b, depth, n);
    } else {
      ChildCovers(fetch, b, depth, n - 1, k, p);
      var l :| l in ChildResults(fetch, b, depth, n - 1) && Contains(l.region, p);
      assert l in ChildResults(fetch, b, depth, n);
    }
  }

  /** No point lies inside the boxes of two distinct record sets of ls:
      the boxes overlap at most along their edges. */
  ghost predicate InteriorsDisjoint(ls: seq<Leaf>)
  {
    forall i, j, p :: 0 <= i < j < |ls| && InInterior(ls[i].region, p) ==> !InInterior(ls[j].region, p)
  }

  /** A point inside the box of a returned record set is inside b. */
  lemma {:induction false} ProcessInterior(fetch: Fetcher, b: BBox, depth: nat, p: Point)
    ensures forall l :: l in Process(fetch, b, depth) && InInterior(l.region, p) ==> InInterior(b, p)
    decreases Remaining(depth), 1, 0
  {
    match fetch(b)
    case None =>
    case Some(rs) =>
      if !Accepts(rs, depth) {
        ChildInterior(fetch, b, depth, 4, p);
        forall k | 0 <= k < 4 {
          ChildInteriorWithin(b, k, p);
        }
      }
  }

  lemma {:induction false} ChildInterior(fetch: Fetcher, b: BBox, depth: nat, n: nat, p: Point)
    requires n <= 4 && depth < MAX_DEPTH
    ensures forall l :: l in ChildResults(fetch, b, depth, n) && InInterior(l.region, p) ==>
      exists k :: 0 <= k < n && InInterior(Children(b)[k], p)
    decreases Remaining(depth), 0, n
  {
    if n > 0 {
      ChildInterior(fetch, b, depth, n - 1, p);
      ProcessInterior(fetch, Children(b)[n - 1], depth + 1, p);
    }
  }

  /** The boxes of the record sets returned for b overlap at most along
      their edges: with ProcessLeaves and ProcessCovers, they partition b. */
  lemma {:induction false} ProcessDisjoint(fetch: Fetcher, b: BBox, depth: nat)
    ensures InteriorsDisjoint(Process(fetch, b, depth))
    decreases Remaining(depth), 1, 0
  {
    match fetch(b)
    case None =>
    case Some(rs) =>
      if !Accepts(rs, depth) {
        ChildDisjoint(fetch, b, depth, 4);
      }
  }

  lemma {:induction false} ChildDisjoint(fetch: Fetcher, b: BBox, depth: nat, n: nat)
    requires n <= 4 && depth < MAX_DEPTH
    ensures InteriorsDisjoint(ChildResults(fetch, b, depth, n))
    decreases Remaining(depth), 0, n
  {
    if n > 0 {
      var before := ChildResults(fetch, b, depth, n - 1);
      var c := Children(b)[n - 1];
      var last := Process(fetch, c, depth + 1);
      ChildDisjoint(fetch, b, depth, n - 1);
      ProcessDisjoint(fetch, c, depth + 1);
      ChildSeparated(fetch, b, depth, n);
      DisjointConcat(before, last);
    }
  }

  /** The boxes returned for quarter n - 1 do not overlap those returned for
      the quarters before it. */
  lemma ChildSeparated(fetch: Fetcher, b: BBox, depth: nat, n: nat)
    requires 0 < n <= 4 && depth < MAX_DEPTH
    ensures forall x, y, p ::
      (x in ChildResults(fetch, b, depth, n - 1) && y in Process(fetch, Children(b)[n - 1], depth + 1) &&
       InInterior(x.region, p)) ==> !InInterior(y.region, p)
  {
    forall x, y, p | x in ChildResults(fetch, b, depth, n - 1) &&
      y in Process(fetch, Children(b)[n - 1], depth + 1) && InInterior(x.region, p)
      ensures !InInterior(y.region, p)
    {
      ChildInterior(fetch, b, depth, n - 1, p);
      var k :| 0 <= k < n - 1 && InInterior(Children(b)[k], p);
      ProcessInterior(fetch, Children(b)[n - 1], depth + 1, p);
      QuartersDisjointInteriors(b, k, n - 1, p);
    }
  }

  /** Two lists whose boxes overlap at most along edges, and whose boxes
      do not overlap each other, concatenate to such a list. */
  lemma DisjointConcat(xs: seq<Leaf>, ys: seq<Leaf>)
    requires InteriorsDisjoint(xs) && InteriorsDisjoint(ys)
    requires forall x, y, p :: x in xs && y in ys && InInterior(x.region, p) ==> !InInterior(y.region, p)
    ensures InteriorsDisjoint(xs + ys)
  {
    var all := xs + ys;
    forall i, j, p | 0 <= i < j < |all| && InInterior(all[i].region, p)
      ensures !InInterior(all[j].region, p)
    {
      if j < |xs| {
        assert all[i] == xs[i] && all[j] == xs[j];
      } else if |xs| <= i {
        assert all[i] == ys[i - |xs|] && all[j] == ys[j - |xs|];
      } else {
        assert all[i] == xs[i] && xs[i] in xs;
        assert all[j] == ys[j - |xs|] && ys[j - |xs|] in ys;
      }
    }
  }

  /** A service that answers 6000 features for (0, 0, 1, 1) and 1200 for
      any other box; its tables carry no attribute columns, which keeps the
      example about counts. */
  function DenseCorner(q: BBox): Option<RecordSet>
  {
    if q == BBox(0.0, 0.0, 1.0, 1.0) then Some(RecordSet(6000, []))
    else Some(RecordSet(1200, []))
  }

  /** Against DenseCorner the tile (0, 0, 1, 1) is split once, its four
      0.5-degree quarters are kept, and they hold 4 x 1200 features rather
      than the capped 6000. */
  lemma OverCapTileExample(b: BBox)
    requires b == BBox(0.0, 0.0, 1.0, 1.0)
    ensures Process(DenseCorner, b, 0) ==
      [Leaf(BBox(0.0, 0.0, 0.5, 0.5), 1, RecordSet(1200, [])),
       Leaf(BBox(0.0, 0.5, 0.5, 1.0), 1, RecordSet(1200, [])),
       Leaf(BBox(0.5, 0.0, 1.0, 0.5), 1, RecordSet(1200, [])),
       Leaf(BBox(0.5, 0.5, 1.0, 1.0), 1, RecordSet(1200, []))]
  {
    var q00, q01, q10, q11 := Quarter(b, 0, 0), Quarter(b, 0, 1), Quarter(b, 1, 0), Quarter(b, 1, 1);
    assert q00 == BBox(0.0, 0.0, 0.5, 0.5) && q01 == BBox(0.0, 0.5, 0.5, 1.0);
    assert q10 == BBox(0.5, 0.0, 1.0, 0.5) && q11 == BBox(0.5, 0.5, 1.0, 1.0);
    SparseQuarterKept(q00);
    SparseQuarterKept(q01);
    SparseQuarterKept(q10);
    SparseQuarterKept(q11);
    SubdivisionConcatenates(DenseCorner, b, 0);
  }

  /** Against DenseCorner any box other than (0, 0, 1, 1) is kept at
      depth 1 with its 1200 features. */
  lemma SparseQuarterKept(q: BBox)
    requires q != BBox(0.0, 0.0, 1.0, 1.0)
    ensures Process(DenseCorner, q, 1) == [Leaf(q, 1, RecordSet(1200, []))]
  {
    assert KeepColumns(RecordSet(1200, [])) == RecordSet(1200, []);
  }
}
