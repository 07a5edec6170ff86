# Adaptive tiling harvest of the urban-planning zoning layer

`recup_urbanisme.py` downloads the `zone_urba` layer of a WFS service. The service caps every answer at 5000 features. The script gets round the cap in two steps:

- It sweeps the area of interest with square tiles (`generate_tiles`).
- It queries each tile (`process_tile`). A tile whose answer reaches the cap is split into 2 x 2 quarters, which are queried in turn, down to depth 3. Every accepted answer keeps only the columns `gpu_doc_id`, `partition`, `nomfic` and `geometry` that it actually carries.

The top-level loop appends the non-empty answers of every tile to `all_features` and keeps the running total `total_collected`.

This project models those three parts in Dafny and proves what they promise.

- `geometry.dfy` (module `Geometry`): bounding boxes in exact real coordinates, and the 2 x 2 split.
- `tile_grid.dfy` (module `TileGrid`): `generate_tiles`.
  - Written as the nested `while` loops of the source (`GenerateTiles`), proved equal to a closed-form sequence of tiles (`Tiles`).
  - Proved facts about `Tiles`: it stays inside the area, it covers it, its tiles do not overlap, and the last tiles are clipped.
- `records.dfy` (module `Records`): the column selection of lines 68-70.
- `subdivision.dfy` (module `Subdivision`): `process_tile`.
  - Written as a recursive method with the source's two nested `for` loops (`ProcessTile` / `SubdivideTile`), proved equal to recursive functions.
  - `Process` is the returned record sets. `Trace` is the boxes requested, in request order.
  - Depth, request-count, acceptance, coverage and non-overlap properties are proved about those functions.
- `harvest.dfy` (module `Harvest`): the accumulation loop of lines 99-112, proved equal to a function of the tile sequence (`Collected`), with lemmas about it.

The remote query is the parameter `fetch: BBox -> Option<RecordSet>`. `None` stands for every way `get_features` can fail: an HTTP error, a timeout or an unreadable payload. A record set is reduced to its row count and its column names.

Each element of `all_features` is a `Leaf`. A `Leaf` holds the kept record set together with the box it was fetched for and the depth of that box. These tags are what let the acceptance invariant be stated about the final list.

Three details of the code shape the model:

- The results are merged by plain concatenation, with no deduplication of features on shared tile edges.
- Quarters are visited with `i` (the x axis) in the outer loop and `j` (the y axis) in the inner loop. The order is (0,0), (0,1), (1,0), (1,1) in (x, y) steps.
- A depth of 3 or more always accepts the answer (`depth >= MAX_DEPTH`). A record set kept at depth 3 may therefore hold exactly 5000 features and be truncated. `CapOrMaxDepth` states this: every kept set is below the cap or at depth exactly 3.

## Model

| member | source | states |
|---|---|---|
| TileGrid.GenerateTiles | recup_urbanisme.py:27-35 | the nested while loops (x outer, y inner, each stepped by size, the tile clipped with min) yield exactly the closed-form sweep `Tiles(area, size)`, for any area and any positive size |
| TileGrid.SweepColumn | recup_urbanisme.py:31-34 | the inner while loop for one x step yields exactly that step's column of tiles, y ascending, one per y step below maxy |
| TileGrid.GridAt | recup_urbanisme.py:29-35 | the sweep has one column per x step and one row per y step; the tile at position c * rows + r is the tile of x step c and y step r |
| TileGrid.TileInArea | recup_urbanisme.py:33 | every yielded tile lies inside the area and has a positive width and height |
| TileGrid.LastTilesClipped | recup_urbanisme.py:33 | the last tile of each column ends at maxy and the last of each row at maxx; every other tile ends exactly where the next tile on that axis starts |
| TileGrid.TilesCoverArea | recup_urbanisme.py:29-35 | every point of a well-formed area lies in some yielded tile: the sweep leaves no gap |
| TileGrid.TilesApart | recup_urbanisme.py:29-35 | the tiles of two different (x step, y step) pairs have no interior point in common, clipping included |
| TileGrid.TilesDisjointInteriors | recup_urbanisme.py:29-35 | two different tiles of the sweep overlap at most along an edge; with TileInArea and TilesCoverArea the sweep partitions the area |
| TileGrid.TwoByTwoExample | recup_urbanisme.py:29-35 | the box (0, 0, 2, 2) with size 1 yields its four unit tiles in x-outer, y-inner order |
| TileGrid.FranceTileCount | recup_urbanisme.py:21-24 | the configured sweep of (-5, 41, 10, 52) with 1-degree tiles has 15 x 11 = 165 initial tiles |
| Geometry.QuarterOffsets | recup_urbanisme.py:74-86 | quarter (i, j) is (minx + i*w, miny + j*h, minx + (i+1)*w, miny + (j+1)*h), with w and h half the width and height |
| Geometry.QuarterWithin | recup_urbanisme.py:74-86 | each quarter lies within its parent, has half its width and height and a quarter of its area, and is well formed when the parent is |
| Geometry.QuartersShareEdges | recup_urbanisme.py:79-86 | the quarters start at the parent's lower corner, end at its upper corner, and neighbouring quarters share an edge |
| Geometry.QuartersCover | recup_urbanisme.py:79-86 | a point is in the parent if and only if it is in one of the four quarters |
| Geometry.QuartersDisjointInteriors | recup_urbanisme.py:79-86 | two distinct quarters have no interior point in common |
| Records.KeepColumns | recup_urbanisme.py:68-70 | the column selection keeps every row of the record set |
| Records.FilterMembers | recup_urbanisme.py:69 | a column survives the filter if and only if it is in the keep-list and among the table's columns |
| Records.KeepColumnsSelects | recup_urbanisme.py:68-70 | the kept columns are exactly the present members of gpu_doc_id, partition, nomfic, geometry, in that order; no other ordered selection has those members |
| Records.KeepColumnsExample | recup_urbanisme.py:68-70 | a table with gpu_doc_id, libelle, geometry, partition keeps gpu_doc_id, partition, geometry, with its 12 rows |
| Subdivision.ProcessTile | recup_urbanisme.py:58-89 | the recursive procedure returns exactly `Process` and requests exactly the boxes of `Trace`, in order |
| Subdivision.SubdivideTile | recup_urbanisme.py:78-89 | the two nested loops over i and j concatenate the four quarters' results, and their requests, at depth + 1 in i-outer, j-inner order |
| Subdivision.SubdivideColumn | recup_urbanisme.py:80-87 | the inner loop over j processes quarters (i, 0) and (i, 1) at depth + 1 and appends their results and requests, in that order, to those of the earlier columns |
| Subdivision.FetchFailureAbandons | recup_urbanisme.py:63-65 | a failed request returns nothing for the box and requests none of its quarters |
| Subdivision.ProcessLeaves | recup_urbanisme.py:63-89 | every returned record set was fetched successfully for a requested box within the tile; its count passed the acceptance test at its depth; it holds that fetch with the kept columns only; and it is no deeper than the depth limit |
| Subdivision.CapOrMaxDepth | recup_urbanisme.py:60-70 | from depth 0, every returned record set has count below 5000 or was fetched at depth exactly 3 |
| Subdivision.ProcessBounds | recup_urbanisme.py:60-89 | with r levels left before the depth limit, at most 4^r record sets are returned and between 1 and 1 + 4 + ... + 4^r requests are made |
| Subdivision.RequestBudget | recup_urbanisme.py:60-89 | from depth 0 a tile costs at most 85 requests and yields at most 64 record sets, whatever the service answers |
| Subdivision.SubdivisionConcatenates | recup_urbanisme.py:72-89 | an over-cap answer below the depth limit is replaced by the concatenation of the four quarters' results, each of them deeper than the parent |
| Subdivision.SubdivisionRequestOrder | recup_urbanisme.py:63-89 | an over-cap box is requested first, then the subtrees of its four quarters one after another, depth first |
| Subdivision.ProcessCovers | recup_urbanisme.py:63-89 | when no request fails, every point of the tile lies in the box of some returned record set: nothing is dropped because of the cap |
| Subdivision.ProcessInterior | recup_urbanisme.py:74-89 | a point inside the box of any returned record set is inside the tile |
| Subdivision.ProcessDisjoint | recup_urbanisme.py:74-89 | no point is inside the boxes of two distinct returned record sets: with ProcessLeaves and ProcessCovers, the leaf boxes rebuild the tile with no gap and no overlap beyond shared edges |
| Subdivision.DisjointConcat | recup_urbanisme.py:87 | extending a list of non-overlapping boxes with another such list whose boxes do not overlap the first keeps the whole list free of overlaps |
| Subdivision.OverCapTileExample | recup_urbanisme.py:63-89 | against a service that answers 6000 features for (0, 0, 1, 1) and 1200 elsewhere, the tile is split once and its four quarters are kept at depth 1 |
| Harvest.CollectAll | recup_urbanisme.py:99-112 | the loop leaves `Collected` of the tile sweep in all_features, and total_collected is the sum of their counts; every element is non-empty, inside the area, and below the cap or at depth 3 |
| Harvest.CollectTile | recup_urbanisme.py:106-110 | the inner loop appends exactly the non-empty record sets of one tile, in order, and keeps total_collected equal to the total count |
| Harvest.NonEmptyMembers | recup_urbanisme.py:106-108 | a record set is appended if and only if it is returned for the tile and holds at least one feature |
| Harvest.TotalCountAppend | recup_urbanisme.py:109 | the running total is additive over concatenation of the collected lists |
| Harvest.GatherAppend | recup_urbanisme.py:99-110 | all_features for two runs of tiles is the first run's contribution followed by the second's |
| Harvest.GatherSkipsEmpty | recup_urbanisme.py:103-104 | a tile that returns nothing leaves all_features as if it had not been in the sweep |
| Harvest.FailureIsolation | recup_urbanisme.py:63-65 | a tile whose request fails contributes nothing, and the tiles around it are collected unchanged |
| Harvest.GatherFrom | recup_urbanisme.py:106-108 | every element of all_features is non-empty and was returned for one of the tiles |
| Harvest.CollectedLeaves | recup_urbanisme.py:99-110 | every collected record set is non-empty, lies inside the area, and is below the cap or at depth 3 |
| Harvest.TileResultsAppend | recup_urbanisme.py:99-102 | processing two runs of tiles gives the results of the first followed by those of the second |
| Harvest.TotalOverTiles | recup_urbanisme.py:99-110 | all_features and total_collected for a sweep split into two runs are the concatenation and the sum of the runs' |

## Left out

- `get_features` (lines 37-56) is left out. The HTTP request, its parameters, the 60-second timeout and the GeoJSON decoding are I/O. They are replaced by the `fetch` parameter, and every failure becomes `None`.
- Feature attributes and geometries are left out. A record set is a row count plus column names, which is all the core branches on.
- Duplicate features on shared tile edges are not modelled, since features have no geometry here. The source does not remove them either.
- Floating-point rounding is not modelled. Coordinates and tile offsets are exact reals. In particular, `x += size` is exact in the model, while in the source it accumulates rounding error.
- TileGrid.GenerateTiles requires a positive size. With a size of 0 or less and a non-empty area, the source's generator never ends.
- TileGrid.GenerateTiles returns the whole sequence of tiles at once. The source is a Python generator, consumed lazily and run twice: once to count the tiles (line 96) and once to process them. Both passes see the same sequence.
- The merge and export (lines 114-132) are left out: `pd.concat`, and the GeoJSON and CSV files. They are output formatting outside the core. When all_features is empty the source writes nothing.
- `time.sleep(1)` (line 112) and the progress `print` calls are left out, since they have no effect on the data. Because of the `continue` on line 104, the pause is skipped after a tile that returns nothing.
- Harvest.CollectAll keeps each record set tagged with its box and depth (`Leaf`), while the source keeps only the data frame. The tags are bookkeeping only and carry no extra data about the features.
- Subdivision.ProcessTile also returns the list of requested boxes. This log is not in the source; it exposes the order and number of requests so they can be stated.
