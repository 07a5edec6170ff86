/** Axis-aligned bounding boxes in exact real coordinates, and the 2x2
    split of a box used when a query returns too many features. */
module Geometry {

  /** A bounding box (minx, miny, maxx, maxy), in the order the service's
      bbox parameter takes them. */
  datatype BBox = BBox(minx: real, miny: real, maxx: real, maxy: real)

  datatype Point = Point(x: real, y: real)

  /** Number of parts each axis is cut into when a tile is subdivided. */
  const TILE_DIVISION_FACTOR: nat := 2

  /** A box with a positive extent on both axes. */
  predicate WellFormed(b: BBox)
  {
    b.minx < b.maxx && b.miny < b.maxy
  }

  /** A box that may be flat but is not inverted. */
  predicate Ordered(b: BBox)
  {
    b.minx <= b.maxx && b.miny <= b.maxy
  }

  function Width(b: BBox): real { b.maxx - b.minx }

  function Height(b: BBox): real { b.maxy - b.miny }

  /** Closed containment: edges belong to the box. */
  predicate Contains(b: BBox, p: Point)
  {
    b.minx <= p.x <= b.maxx && b.miny <= p.y <= b.maxy
  }

  /** Strict interior of the box. */
  predicate InInterior(b: BBox, p: Point)
  {
    b.minx < p.x < b.maxx && b.miny < p.y < b.maxy
  }

  predicate Within(inner: BBox, outer: BBox)
  {
    outer.minx <= inner.minx && outer.miny <= inner.miny &&
    inner.maxx <= outer.maxx && inner.maxy <= outer.maxy
  }

  /** The sub-box in column i (along x) and row j (along y) of the
      2x2 split of b: each axis is cut at its midpoint. */
  function Quarter(b: BBox, i: nat, j: nat): BBox
    requires i < TILE_DIVISION_FACTOR && j < TILE_DIVISION_FACTOR
  {
    var w := (b.maxx - b.minx) / TILE_DIVISION_FACTOR as real;
    var h := (b.maxy - b.miny) / TILE_DIVISION_FACTOR as real;
    var x := if i == 0 then b.minx else b.minx + w;
    var y := if j == 0 then b.miny else b.miny + h;
    BBox(x, y, x + w, y + h)
  }

  /** Quarter agrees with the offsets process_tile computes:
      (minx + i * w, miny + j * h, minx + (i + 1) * w, miny + (j + 1) * h)
      with w and h half the width and height. */
  lemma QuarterOffsets(b: BBox, i: nat, j: nat)
    requires i < 2 && j < 2
    ensures var w := (b.maxx - b.minx) / 2.0;
            var h := (b.maxy - b.miny) / 2.0;
            Quarter(b, i, j) ==
              BBox(b.minx + i as real * w, b.miny + j as real * h,
                   b.minx + (i + 1) as real * w, b.miny + (j + 1) as real * h)
  {
    if i == 1 {
      assert (i + 1) as real == 2.0;
    }
    if j == 1 {
      assert (j + 1) as real == 2.0;
    }
  }

  /** The four sub-boxes in the order they are visited: i (x) outer,
      j (y) inner. */
  function Children(b: BBox): (cs: seq<BBox>)
    ensures |cs| == 4
  {
    [Quarter(b, 0, 0), Quarter(b, 0, 1), Quarter(b, 1, 0), Quarter(b, 1, 1)]
  }

  /** Children lists quarter (i, j) at position 2 * i + j. */
  lemma ChildAt(b: BBox, i: nat, j: nat)
    requires i < 2 && j < 2
    ensures Children(b)[2 * i + j] == Quarter(b, i, j)
  {
    if i == 0 {
      if j == 0 { assert 2 * i + j == 0; } else { assert 2 * i + j == 1; }
    } else {
      if j == 0 { assert 2 * i + j == 2; } else { assert 2 * i + j == 3; }
    }
  }

  /** Each quarter lies inside its parent, is well formed when the parent
      is, and has a quarter of its area. */
  lemma QuarterWithin(b: BBox, i: nat, j: nat)
    requires i < 2 && j < 2
    requires Ordered(b)
    ensures Ordered(Quarter(b, i, j)) && Within(Quarter(b, i, j), b)
    ensures WellFormed(b) ==> WellFormed(Quarter(b, i, j))
    ensures Width(Quarter(b, i, j)) == Width(b) / 2.0 && Height(Quarter(b, i, j)) == Height(b) / 2.0
    ensures Width(Quarter(b, i, j)) * Height(Quarter(b, i, j)) == Width(b) * Height(b) / 4.0
  {
  }

  /** The quarters tile the parent edge to edge: the first starts at the
      parent's lower corner, the last ends at its upper corner, and
      neighbours share an edge. */
  lemma QuartersShareEdges(b: BBox)
    ensures Quarter(b, 0, 0).minx == b.minx && Quarter(b, 0, 0).miny == b.miny
    ensures Quarter(b, 1, 1).maxx == b.maxx && Quarter(b, 1, 1).maxy == b.maxy
    ensures forall j :: 0 <= j < 2 ==> Quarter(b, 0, j).maxx == Quarter(b, 1, j).minx
    ensures forall i :: 0 <= i < 2 ==> Quarter(b, i, 0).maxy == Quarter(b, i, 1).miny
  {
  }

  /** A point lies in the parent exactly when it lies in one of its four
      quarters: the union of the quarters is the parent. */
  lemma QuartersCover(b: BBox, p: Point)
    requires Ordered(b)
    ensures Contains(b, p) <==> exists k :: 0 <= k < 4 && Contains(Children(b)[k], p)
  {
    var cs := Children(b);
    if Contains(b, p) {
      var mx := b.minx + (b.maxx - b.minx) / 2.0;
      var my := b.miny + (b.maxy - b.miny) / 2.0;
      var i := if p.x <= mx then 0 else 1;
      var j := if p.y <= my then 0 else 1;
      assert Contains(cs[2 * i + j], p);
    }
    if exists k :: 0 <= k < 4 && Contains(cs[k], p) {
      var k :| 0 <= k < 4 && Contains(cs[k], p);
      QuarterWithin(b, k / 2, k % 2);
    }
  }

  /** Distinct quarters share at most boundary lines: no point is inside
      the interiors of two of them. */
  lemma QuartersDisjointInteriors(b: BBox, k1: nat, k2: nat, p: Point)
    requires k1 < 4 && k2 < 4 && k1 != k2
    ensures !(InInterior(Children(b)[k1], p) && InInterior(Children(b)[k2], p))
  {
  }

  /** A point inside a quarter is inside its parent. */
  lemma ChildInteriorWithin(b: BBox, k: nat, p: Point)
    requires k < 4
    ensures InInterior(Children(b)[k], p) ==> InInterior(b, p)
  {
  }
}
