/** The initial sweep of the area of interest with fixed-size square
    tiles (generate_tiles): x steps in the outer loop, y in the inner
    loop, and the last tile on each axis is clipped to the box. */
module TileGrid {
  import opened Geometry

  function Min(a: real, b: real): real { if a <= b then a else b }

  /** How many times `v := lo; while v < hi { ...; v := v + size }` runs
      its body: the ceiling of (hi - lo) / size, or 0 for an empty range. */
  function StepCount(lo: real, hi: real, size: real): (n: nat)
    requires size > 0.0
  {
    if hi <= lo then 0
    else
      var t := (hi - lo) / size;
      if t.Floor as real == t then t.Floor else t.Floor + 1
  }

  /** Multiplying by a positive step keeps the order of two positions. */
  lemma ScaleMonotone(a: real, b: real, size: real)
    requires size > 0.0
    ensures a <= b ==> a * size <= b * size
    ensures a < b ==> a * size < b * size
  {
    assert b * size - a * size == (b - a) * size;
  }

  /** One more step adds size. */
  lemma ScaleNext(k: int, size: real)
    ensures (k + 1) as real * size == k as real * size + size
  {
    assert (k + 1) as real == k as real + 1.0;
  }

  /** If q steps of size make d and q < f + 1, then f + 1 steps exceed d. */
  lemma StepsAbove(d: real, size: real, q: real, f: real)
    requires size > 0.0 && q * size == d
    requires q < f + 1.0
    ensures d < (f + 1.0) * size
  {
    ScaleMonotone(q, f + 1.0, size);
  }

  /** If q steps of size make d and f <= q, then f steps fit in d, exactly
      when f is q. */
  lemma StepsBelow(d: real, size: real, q: real, f: real)
    requires size > 0.0 && q * size == d
    requires f <= q
    ensures f * size <= d
    ensures f == q <==> f * size == d
  {
    ScaleMonotone(f, q, size);
  }

  /** The floor of d / size counts the whole steps of size that fit in d. */
  lemma RatioFloor(d: real, size: real)
    requires size > 0.0
    ensures (d / size).Floor as real * size <= d < ((d / size).Floor as real + 1.0) * size
    ensures (d / size).Floor as real == d / size <==> (d / size).Floor as real * size == d
  {
    var q := d / size;
    assert q * size == d;
    StepsAbove(d, size, q, q.Floor as real);
    StepsBelow(d, size, q, q.Floor as real);
  }

  /** StepCount is the number of steps: position n is the first one at
      or past hi, and every earlier position is below hi. */
  lemma StepCountBounds(lo: real, hi: real, size: real)
    requires size > 0.0
    ensures lo + StepCount(lo, hi, size) as real * size >= hi
    ensures StepCount(lo, hi, size) > 0 ==> lo + (StepCount(lo, hi, size) - 1) as real * size < hi
    ensures StepCount(lo, hi, size) == 0 <==> hi <= lo
  {
    var n := StepCount(lo, hi, size);
    if lo < hi {
      RatioFloor(hi - lo, size);
      var f := ((hi - lo) / size).Floor;
      if f < 0 {
        ScaleMonotone(f as real, -1.0, size);
      }
      assert f >= 0;
      if f as real == (hi - lo) / size {
        assert n == f;
        if f == 0 {
          assert false;
        }
        ScaleNext(n - 1, size);
      } else {
        assert n == f + 1;
      }
    }
  }

  /** A position strictly before the step count is still inside the range. */
  lemma StepBelowCount(lo: real, hi: real, size: real, k: nat)
    requires size > 0.0
    requires k < StepCount(lo, hi, size)
    ensures lo + k as real * size < hi
  {
    StepCountBounds(lo, hi, size);
    ScaleMonotone(k as real, (StepCount(lo, hi, size) - 1) as real, size);
  }

  /** A position below hi has not reached the step count. */
  lemma BelowMeansBeforeCount(lo: real, hi: real, size: real, k: nat)
    requires size > 0.0
    requires lo + k as real * size < hi
    ensures k < StepCount(lo, hi, size)
  {
    StepCountBounds(lo, hi, size);
    ScaleMonotone(StepCount(lo, hi, size) as real, k as real, size);
  }

  /** The tile yielded when x has been stepped i times and y j times. */
  function TileAt(area: BBox, size: real, i: nat, j: nat): BBox
  {
    var x := area.minx + i as real * size;
    var y := area.miny + j as real * size;
    BBox(x, y, Min(x + size, area.maxx), Min(y + size, area.maxy))
  }

  /** The column of tiles yielded by the inner loop for one x step,
      truncated to its first n tiles. */
  function Column(area: BBox, size: real, i: nat, n: nat): (col: seq<BBox>)
    ensures |col| == n
    ensures forall j :: 0 <= j < n ==> col[j] == TileAt(area, size, i, j)
  {
    seq(n, j requires 0 <= j => TileAt(area, size, i, j))
  }

  /** The tiles of the first n columns, column after column. */
  function Grid(area: BBox, size: real, n: nat, rows: nat): (g: seq<BBox>)
    decreases n
  {
    if n == 0 then [] else Grid(area, size, n - 1, rows) + Column(area, size, n - 1, rows)
  }

  /** Everything generate_tiles(area, size) yields, in order. */
  function Tiles(area: BBox, size: real): seq<BBox>
    requires size > 0.0
  {
    Grid(area, size, StepCount(area.minx, area.maxx, size),
         StepCount(area.miny, area.maxy, size))
  }

  /** The sweep as the source performs it, with x and y advanced by
      repeated addition of size. */
  method GenerateTiles(area: BBox, size: real) returns (tiles: seq<BBox>)
    requires size > 0.0
    ensures tiles == Tiles(area, size)
  {
    var cols := StepCount(area.minx, area.maxx, size);
    var rows := StepCount(area.miny, area.maxy, size);
    tiles := [];
    var x := area.minx;
    ghost var i: nat := 0;
    while x < area.maxx
      invariant i <= cols
      invariant x == area.minx + i as real * size
      invariant tiles == Grid(area, size, i, rows)
      decreases cols - i
    {
      BelowMeansBeforeCount(area.minx, area.maxx, size, i);
      var column := SweepColumn(area, size, x, i);
      tiles := tiles + column;
      ScaleNext(i, size);
      x := x + size;
      i := i + 1;
    }
    if i < cols {
      StepBelowCount(area.minx, area.maxx, size, i);
    }
  }

  /** The inner loop of the sweep for the x step i, which starts at x: y
      runs from miny in steps of size while it is below maxy. */
  method SweepColumn(area: BBox, size: real, x: real, ghost i: nat) returns (column: seq<BBox>)
    requires size > 0.0
    requires x == area.minx + i as real * size
    ensures column == Column(area, size, i, StepCount(area.miny, area.maxy, size))
  {
    var rows := StepCount(area.miny, area.maxy, size);
    column := [];
    var y := area.miny;
    ghost var j: nat := 0;
    while y < area.maxy
      invariant j <= rows
      invariant y == area.miny + j as real * size
      invariant column == Column(area, size, i, j)
      decreases rows - j
    {
      BelowMeansBeforeCount(area.miny, area.maxy, size, j);
      column := column + [BBox(x, y, Min(x + size, area.maxx), Min(y + size, area.maxy))];
      assert column == Column(area, size, i, j + 1);
      ScaleNext(j, size);
      y := y + size;
      j := j + 1;
    }
    if j < rows {
      StepBelowCount(area.miny, area.maxy, size, j);
    }
  }

  /** The grid has rows tiles per column, and the tile at position
      c * rows + r is the one for x step c and y step r: x-major order,
      y ascending within a column. */
  lemma {:induction false} GridAt(area: BBox, size: real, n: nat, rows: nat, c: nat, r: nat)
    requires c < n && r < rows
    ensures |Grid(area, size, n, rows)| == n * rows
    ensures c * rows + r < n * rows
    ensures Grid(area, size, n, rows)[c * rows + r] == TileAt(area, size, c, r)
  {
    GridLength(area, size, n, rows);
    if c < n - 1 {
      GridAt(area, size, n - 1, rows, c, r);
      assert c * rows + r < (n - 1) * rows by {
        assert (n - 1) * rows == c * rows + (n - 1 - c) * rows;
      }
    } else {
      GridLength(area, size, n - 1, rows);
      assert (n - 1) * rows + r < n * rows;
    }
  }

  lemma {:induction false} GridLength(area: BBox, size: real, n: nat, rows: nat)
    ensures |Grid(area, size, n, rows)| == n * rows
  {
    if n > 0 {
      GridLength(area, size, n - 1, rows);
    }
  }

  /** Every member of the grid is the tile of some x step below n and
      some y step below rows. */
  lemma {:induction false} GridMember(area: BBox, size: real, n: nat, rows: nat, t: BBox)
    requires t in Grid(area, size, n, rows)
    ensures exists c, r :: 0 <= c < n && 0 <= r < rows && t == TileAt(area, size, c, r)
  {
    if n > 0 {
      if t in Grid(area, size, n - 1, rows) {
        GridMember(area, size, n - 1, rows, t);
      } else {
        var col := Column(area, size, n - 1, rows);
        var r :| 0 <= r < rows && col[r] == t;
      }
    }
  }

  /** Every tile yielded lies inside the area and has positive extent. */
  lemma TileInArea(area: BBox, size: real, t: BBox)
    requires size > 0.0
    requires t in Tiles(area, size)
    ensures Within(t, area) && WellFormed(t)
  {
    var n, rows := StepCount(area.minx, area.maxx, size), StepCount(area.miny, area.maxy, size);
    GridMember(area, size, n, rows, t);
    var c, r :| 0 <= c < n && 0 <= r < rows && t == TileAt(area, size, c, r);
    TileWithin(area, size, c, r);
  }

  /** The tile of x step c and y step r, both below their step counts, lies
      inside the area and has positive extent. */
  lemma TileWithin(area: BBox, size: real, c: nat, r: nat)
    requires size > 0.0
    requires c < StepCount(area.minx, area.maxx, size)
    requires r < StepCount(area.miny, area.maxy, size)
    ensures Within(TileAt(area, size, c, r), area) && WellFormed(TileAt(area, size, c, r))
  {
    AxisSpan(area.minx, area.maxx, size, c);
    AxisSpan(area.miny, area.maxy, size, r);
  }

  /** Along one axis, the span of step k < StepCount starts inside
      [lo, hi) and its clipped end lies after its start, no later than hi. */
  lemma AxisSpan(lo: real, hi: real, size: real, k: nat)
    requires size > 0.0
    requires k < StepCount(lo, hi, size)
    ensures lo <= lo + k as real * size < Min(lo + k as real * size + size, hi) <= hi
  {
    StepBelowCount(lo, hi, size, k);
    ScaleMonotone(0.0, k as real, size);
  }

  /** The last tile of each column and of each row reaches the area's
      upper edge: the clipping with min makes the sweep end exactly at
      maxx and maxy. Other tiles end where the next one starts. */
  lemma LastTilesClipped(area: BBox, size: real, c: nat, r: nat)
    requires size > 0.0
    requires c < StepCount(area.minx, area.maxx, size)
    requires r < StepCount(area.miny, area.maxy, size)
    ensures c + 1 == StepCount(area.minx, area.maxx, size) ==> TileAt(area, size, c, r).maxx == area.maxx
    ensures r + 1 == StepCount(area.miny, area.maxy, size) ==> TileAt(area, size, c, r).maxy == area.maxy
    ensures c + 1 < StepCount(area.minx, area.maxx, size) ==>
      TileAt(area, size, c, r).maxx == TileAt(area, size, c + 1, r).minx
    ensures r + 1 < StepCount(area.miny, area.maxy, size) ==>
      TileAt(area, size, c, r).maxy == TileAt(area, size, c, r + 1).miny
  {
    ClipAxis(area.minx, area.maxx, size, c);
    ClipAxis(area.miny, area.maxy, size, r);
  }

  /** One axis of LastTilesClipped: the clipped end of step k is hi for
      the last step and the start of step k + 1 otherwise. */
  lemma ClipAxis(lo: real, hi: real, size: real, k: nat)
    requires size > 0.0
    requires k < StepCount(lo, hi, size)
    ensures k + 1 == StepCount(lo, hi, size) ==> Min(lo + k as real * size + size, hi) == hi
    ensures k + 1 < StepCount(lo, hi, size) ==>
      Min(lo + k as real * size + size, hi) == lo + (k + 1) as real * size
  {
    ScaleNext(k, size);
    if k + 1 == StepCount(lo, hi, size) {
      StepCountBounds(lo, hi, size);
    } else {
      StepBelowCount(lo, hi, size, k + 1);
    }
  }

  /** The step whose span holds the offset d: floor(d / size). */
  lemma StepOf(d: real, size: real) returns (f: nat)
    requires d >= 0.0 && size > 0.0
    ensures f as real * size <= d < (f + 1) as real * size
  {
    RatioFloor(d, size);
    var g := (d / size).Floor;
    if g < 0 {
      ScaleMonotone(g as real, -1.0, size);
      assert false;
    }
    f := g;
  }

  /** Along one axis, every coordinate of [lo, hi] falls in the span of
      some step k < StepCount. */
  lemma AxisCover(lo: real, hi: real, size: real, v: real) returns (k: nat)
    requires size > 0.0
    requires lo <= v <= hi && lo < hi
    ensures k < StepCount(lo, hi, size)
    ensures lo + k as real * size <= v <= Min(lo + k as real * size + size, hi)
  {
    StepCountBounds(lo, hi, size);
    var n := StepCount(lo, hi, size);
    var f := StepOf(v - lo, size);
    if f < n {
      k := f;
      ScaleNext(k, size);
      assert lo + k as real * size <= v < lo + k as real * size + size;
    } else {
      k := n - 1;
      ScaleMonotone(k as real, f as real, size);
      ScaleNext(k, size);
      assert lo + k as real * size <= v;
      assert hi <= lo + k as real * size + size;
    }
  }

  /** No point of the area is missed by the initial sweep. */
  lemma TilesCoverArea(area: BBox, size: real, p: Point)
    requires size > 0.0
    requires WellFormed(area) && Contains(area, p)
    ensures exists t :: t in Tiles(area, size) && Contains(t, p)
  {
    var c := AxisCover(area.minx, area.maxx, size, p.x);
    var r := AxisCover(area.miny, area.maxy, size, p.y);
    GridAt(area, size, StepCount(area.minx, area.maxx, size),
           StepCount(area.miny, area.maxy, size), c, r);
    assert Contains(TileAt(area, size, c, r), p);
  }

  /** Along one axis, the open spans of two different steps are disjoint:
      step k1 ends, clipped or not, no later than step k2 > k1 starts. */
  lemma AxisApart(lo: real, hi: real, size: real, k1: nat, k2: nat, v: real)
    requires size > 0.0 && k1 < k2
    ensures !(v < Min(lo + k1 as real * size + size, hi) && lo + k2 as real * size < v)
  {
    ScaleNext(k1, size);
    ScaleMonotone((k1 + 1) as real, k2 as real, size);
  }

  /** Tiles of two different (x step, y step) pairs overlap at most along
      an edge: no point is inside both. */
  lemma TilesApart(area: BBox, size: real, c1: nat, r1: nat, c2: nat, r2: nat, p: Point)
    requires size > 0.0
    requires c1 != c2 || r1 != r2
    ensures !(InInterior(TileAt(area, size, c1, r1), p) && InInterior(TileAt(area, size, c2, r2), p))
  {
    if c1 < c2 {
      AxisApart(area.minx, area.maxx, size, c1, c2, p.x);
    } else if c2 < c1 {
      AxisApart(area.minx, area.maxx, size, c2, c1, p.x);
    } else if r1 < r2 {
      AxisApart(area.miny, area.maxy, size, r1, r2, p.y);
    } else {
      AxisApart(area.miny, area.maxy, size, r2, r1, p.y);
    }
  }

  /** Two different tiles of the sweep overlap at most along an edge: with
      TileInArea and TilesCoverArea, the sweep partitions the area. */
  lemma TilesDisjointInteriors(area: BBox, size: real, t1: BBox, t2: BBox, p: Point)
    requires size > 0.0
    requires t1 in Tiles(area, size) && t2 in Tiles(area, size) && t1 != t2
    ensures !(InInterior(t1, p) && InInterior(t2, p))
  {
    var n, rows := StepCount(area.minx, area.maxx, size), StepCount(area.miny, area.maxy, size);
    GridMember(area, size, n, rows, t1);
    GridMember(area, size, n, rows, t2);
    var c1, r1 :| 0 <= c1 < n && 0 <= r1 < rows && t1 == TileAt(area, size, c1, r1);
    var c2, r2 :| 0 <= c2 < n && 0 <= r2 < rows && t2 == TileAt(area, size, c2, r2);
    TilesApart(area, size, c1, r1, c2, r2, p);
  }

  /** The worked example: the box (0, 0, 2, 2) with tile size 1. */
  lemma TwoByTwoExample()
    ensures Tiles(BBox(0.0, 0.0, 2.0, 2.0), 1.0) ==
      [BBox(0.0, 0.0, 1.0, 1.0), BBox(0.0, 1.0, 1.0, 2.0),
       BBox(1.0, 0.0, 2.0, 1.0), BBox(1.0, 1.0, 2.0, 2.0)]
  {
    var area := BBox(0.0, 0.0, 2.0, 2.0);
    assert StepCount(0.0, 2.0, 1.0) == 2;
    assert Column(area, 1.0, 0, 2) == [BBox(0.0, 0.0, 1.0, 1.0), BBox(0.0, 1.0, 1.0, 2.0)];
    assert Column(area, 1.0, 1, 2) == [BBox(1.0, 0.0, 2.0, 1.0), BBox(1.0, 1.0, 2.0, 2.0)];
    assert Grid(area, 1.0, 1, 2) == Grid(area, 1.0, 0, 2) + Column(area, 1.0, 0, 2);
  }

  /** The configured sweep of metropolitan France, (-5, 41, 10, 52) with
      1-degree tiles, yields 15 columns of 11 tiles. */
  lemma FranceTileCount()
    ensures |Tiles(BBox(-5.0, 41.0, 10.0, 52.0), 1.0)| == 165
  {
    assert StepCount(-5.0, 10.0, 1.0) == 15;
    assert StepCount(41.0, 52.0, 1.0) == 11;
    GridLength(BBox(-5.0, 41.0, 10.0, 52.0), 1.0, 15, 11);
  }
}
