# BuildABot terrain layer in Dafny

BuildABot is a StarCraft II bot. This project models the part of it that
reasons over the static map grids the game sends at start-up, and the small
stateful bookkeeping built on top of them. The model covers:

- the byte-per-cell lookups of `MapDataService` and `BuildingService`;
- the A\* pathfinder: snapping the ends to walkable tiles, lazy-deletion
  search, and path reconstruction;
- ramp and choke detection in `MapAnalysisService`: candidate scan,
  breadth-first clustering, ramp validation, and the corridor-width choke
  scan;
- the path scans and window expansions of `ChokePointService`;
- the wall build-job state machine of `WallManager`, with its bit-packed
  decoders and its nearest-buildable search;
- the producer and ability tables of `ProductionManager`;
- the counters and race latch of `EnemyIntel`;
- the circular-path cache of `PathingHelper`.

One module per source file:

| module | file |
|---|---|
| `Common` | common.dfy |
| `Ordering` | ordering.dfy |
| `MapData` | map_data.dfy |
| `Building` | building.dfy |
| `AStar` | astar.dfy |
| `MapAnalysis` | map_analysis.dfy |
| `AnalysisService` | analysis_service.dfy |
| `ChokePoints` | choke_points.dfy |
| `Walls` | wall_manager.dfy |
| `Production` | production.dfy |
| `Intel` | enemy_intel.dfy |
| `Pathing` | pathing_helper.dfy |

`Common` holds the shared values: points, cells, `Option`, the game-info
planes, and explicit rounding (`Math.Round` is round-half-even). `Ordering`
holds the LINQ sorts and de-duplications.

How the code is modelled:

- Code that loops and mutates is written as methods with loop invariants.
  Each method is proved equal to a specification function, and the
  properties are proved about that function.
- Objects whose fields the source updates in place are classes:
  `MapAnalysisService`, `WallManager`, `BuildJob`, `ProductionManager`,
  `EnemyIntel` and `PathingHelper`.
- Single-precision floats are modelled as exact reals.
- Byte planes are `seq<bv8>`.
- C# `/` and `%` on possibly negative operands use truncating division
  (`TruncDiv`, `TruncMod`).

Two behaviours of the code are kept as written, though a reader may not
expect them:

- The alternate producer of a single-producer unit stays `CommandCenter`
  (lemma `Production.SingleProducerFallsBackToCommandCenter`).
- `MapAnalysisService.IsPathable` takes the bit index from `x % 8`, while
  `IsBuildable` takes it from the cell index. The two decodings agree only
  when the width is a multiple of 8
  (`MapAnalysis.DecodingsAgreeOnAlignedWidth`,
  `MapAnalysis.DecodingsDifferOnUnalignedWidth`).

## Model

| member | source | states |
|---|---|---|
| Common.RoundHalfEven | BuildABot/Utilities/AStarPathFinder.cs:100-103 | the rounded integer is within 0.5 of the value, and an exact tie goes to the even neighbour |
| Common.CentreRounding | BuildABot/Pathing/MapDataService.cs:60 | a tile centre k + 0.5 rounds to k when k is even and to k + 1 when k is odd |
| Common.Floor | BuildABot/Pathing/MapDataService.cs:65-67 | `Math.Floor`: the greatest integer not above the value |
| Common.Ceil | BuildABot/Pathing/MapDataService.cs:66-68 | `Math.Ceiling`: the least integer not below the value |
| Common.Trunc | BuildABot/Pathing/ChokePointService.cs:120-121 | the `(int)` cast rounds towards zero: floor for non-negative values, minus floor of the negation otherwise |
| Common.TruncDiv | BuildABot/Pathing/MapAnalysisService.cs:344-349 | C# integer division: the remainder a − b·q is smaller than b in magnitude and never of the opposite sign to a; Euclidean for a non-negative dividend |
| Common.TruncMod | BuildABot/Pathing/MapAnalysisService.cs:344-349 | the C# remainder goes with TruncDiv, lies strictly between -b and b, is never positive for a negative dividend, and is Euclidean for a non-negative one |
| Common.CellOfCenter | BuildABot/Utilities/AStarPathFinder.cs:162-166 | the cell of a waypoint centred at +0.5 is the tile it came from |
| Common.DistSq | BuildABot/Pathing/ChokePointService.cs:105-110 | the squared distance is never negative |
| Ordering.SortInts | BuildABot/Pathing/MapAnalysisService.cs:261 | `OrderBy(h => h)`: the result is sorted and a permutation of its input |
| Ordering.InsertInt | BuildABot/Pathing/MapAnalysisService.cs:261 | one insertion step keeps the list sorted and adds exactly the one element |
| Ordering.InsertPoint | BuildABot/Pathing/ChokePointService.cs:131 | inserting into a strictly (X, Y)-sorted list keeps it strictly sorted and adds exactly the point |
| Ordering.DistinctSorted | BuildABot/Pathing/ChokePointService.cs:131 | `Distinct().OrderBy(X).ThenBy(Y)`: strictly sorted by (X, Y), with the same members as the input |
| Ordering.StrictlySortedUnique | BuildABot/Pathing/ChokePointService.cs:131 | two strictly sorted lists with the same members are equal, so the sorted result depends only on the set of points |
| Ordering.SeqMin | BuildABot/Pathing/MapAnalysisService.cs:232 | `Min()`: an element of the list that no element is below |
| Ordering.SeqMax | BuildABot/Pathing/MapAnalysisService.cs:233 | `Max()`: an element of the list that no element exceeds |
| Ordering.Levels | BuildABot/Pathing/MapAnalysisService.cs:230 | `Distinct()`: exactly the values that occur in the list |
| MapData.FromGameInfo | BuildABot/Pathing/MapDataService.cs:15-23 | the three planes are copied from the game info, and width and height come from the pathing grid |
| MapData.SizesFromPathingOnly | BuildABot/Pathing/MapDataService.cs:21-22 | games that agree on the pathing grid and on the placement and height data give the same service, whatever size the other grids declare |
| MapData.PathWalkable | BuildABot/Pathing/MapDataService.cs:28-36 | false off the map or past the end of the data, otherwise the pathing byte at x + y·width is non-zero |
| MapData.PathBuildable | BuildABot/Pathing/MapDataService.cs:41-47 | false off the map or past the end of the data, otherwise the placement byte at x + y·width is non-zero |
| MapData.MapHeightValue | BuildABot/Pathing/MapDataService.cs:52-58 | 0 off the map or past the end of the data, otherwise the terrain byte, so always in 0..255 |
| MapData.IntegralLookups | BuildABot/Pathing/MapDataService.cs:38-39 | on integral coordinates, the point overloads and `GetMapHeight` agree with the integer lookups |
| MapData.CentreHeightLookup | BuildABot/Pathing/MapDataService.cs:60 | `GetMapHeight` of a tile centre reads the tile rounded half to even, not always the tile itself |
| MapData.ColumnFacts | BuildABot/Pathing/MapDataService.cs:71-82 | the inner loop yields exactly the in-bounds cells of its column, ordered by y, each carrying the three lookups |
| MapData.BoxFacts | BuildABot/Pathing/MapDataService.cs:69-83 | the nested loops yield exactly the in-bounds cells of the box, x-major then y, each once |
| MapData.GetCellsSpec | BuildABot/Pathing/MapDataService.cs:62-85 | `GetCells` lists each in-bounds cell of [floor(x−r), ceil(x+r)] × [floor(y−r), ceil(y+r)] exactly once, in order, with its height, walkable and buildable fields |
| MapData.GetCells | BuildABot/Pathing/MapDataService.cs:62-85 | the nested loops return the box described by GetCellsSpec |
| Building.AreaBuildable | BuildABot/Pathing/BuildingService.cs:14-30 | true iff every integer cell of the floor/ceiling box is buildable; the loop stops at the first cell that is not |
| Building.OffMapNotBuildable | BuildABot/Pathing/BuildingService.cs:25 | a box holding an off-map cell is never buildable |
| Building.SubBoxBuildable | BuildABot/Pathing/BuildingService.cs:16-29 | every sub-box of a buildable box is buildable |
| Building.SmallerRadiusBuildable | BuildABot/Pathing/BuildingService.cs:16-19 | if an area is buildable at one radius, it is buildable at every smaller non-negative radius |
| Building.TenthRadiusIsUnitBox | BuildABot/Pathing/BuildingService.cs:16-19 | for an integer centre, radius 0.1 and radius 1 both test the same 3×3 box |
| AStar.FromGameInfo | BuildABot/Utilities/AStarPathFinder.cs:28-34 | the pathfinder keeps the pathing grid's size and data |
| AStar.IsWalkable | BuildABot/Utilities/AStarPathFinder.cs:36-51 | a walkable cell lies inside the grid |
| AStar.WalkableAgreesWithMapData | BuildABot/Utilities/AStarPathFinder.cs:36-51 | the pathfinder's walkability test is the same as `MapDataService.PathWalkable` on the same game info |
| AStar.NearestFacts | BuildABot/Utilities/AStarPathFinder.cs:53-81 | the ring search finds a walkable cell within the radius, and no walkable cell lies on a closer ring; it finds nothing iff no cell within the radius is walkable |
| AStar.NearestOfWalkable | BuildABot/Utilities/AStarPathFinder.cs:55-59 | a walkable starting cell is returned as it is |
| AStar.RingScanFound | BuildABot/Utilities/AStarPathFinder.cs:61-77 | a find from ring r on is walkable, and every cell from ring r up to the found cell's ring is not |
| AStar.RingScanEmpty | BuildABot/Utilities/AStarPathFinder.cs:61-77 | when the scan from ring r finds nothing, no cell on rings r..radius is walkable |
| AStar.RingEmpty | BuildABot/Utilities/AStarPathFinder.cs:63-76 | a complete sweep of one ring that finds nothing means no cell of that ring is walkable |
| AStar.RingScanWider | BuildABot/Utilities/AStarPathFinder.cs:61-77 | a wider radius does not change a find already made within a narrower one |
| AStar.SnapIsRadius15 | BuildABot/Utilities/AStarPathFinder.cs:105-120 | the radius-5 try followed by the radius-15 fallback gives the same tile as a single radius-15 search |
| AStar.TryGetNearestWalkable | BuildABot/Utilities/AStarPathFinder.cs:53-81 | the loop succeeds iff the ring search finds a cell, returns that cell, and returns (0, 0) on failure |
| AStar.SnapPointFacts | BuildABot/Utilities/AStarPathFinder.cs:100-120 | snapping a point fails iff nothing within Chebyshev distance 15 of the rounded point is walkable, and a snapped tile is walkable |
| AStar.DirsAreSteps | BuildABot/Utilities/AStarPathFinder.cs:134-138 | the eight direction vectors are exactly the king moves |
| AStar.PopMin | BuildABot/Utilities/AStarPathFinder.cs:144 | the dequeued entry has the least priority in the open set |
| AStar.InitKeeps | BuildABot/Utilities/AStarPathFinder.cs:122-131 | the initial open set, the `gScore` of the start and the empty `cameFrom` satisfy the search invariant |
| AStar.StaleKeeps | BuildABot/Utilities/AStarPathFinder.cs:146-149 | skipping an already-visited entry keeps the invariant |
| AStar.VisitKeeps | BuildABot/Utilities/AStarPathFinder.cs:150 | finalising a new cell keeps the invariant: each cell is finalised once, and its parent was finalised first |
| AStar.GoalKeeps | BuildABot/Utilities/AStarPathFinder.cs:150-155 | finalising the goal leaves an acyclic parent chain through finalised cells |
| AStar.RelaxKeeps | BuildABot/Utilities/AStarPathFinder.cs:183-190 | recording a better parent and gScore for an unvisited walkable neighbour keeps the invariant |
| AStar.TryNeighbour | BuildABot/Utilities/AStarPathFinder.cs:172-190 | one neighbour visit keeps the invariant and leaves a walkable neighbour visited or scored |
| AStar.Expand | BuildABot/Utilities/AStarPathFinder.cs:171-191 | after the neighbour loop, every walkable neighbour of a visited cell is visited or scored |
| AStar.NoEscape | BuildABot/Utilities/AStarPathFinder.cs:171-191 | no walkable path leaves a cell set closed under walkable steps |
| AStar.ExhaustedUnreachable | BuildABot/Utilities/AStarPathFinder.cs:141-195 | when the open set runs dry before the goal is reached, the goal is unreachable from the start |
| AStar.ReversedChain | BuildABot/Utilities/AStarPathFinder.cs:155-161 | the reversed parent chain is a walkable step path from start to goal without a repeated cell |
| AStar.Reconstruct | BuildABot/Utilities/AStarPathFinder.cs:155-161 | following `cameFrom` from the goal terminates, and the reversed list is a walkable, repetition-free path from the start |
| AStar.Reversed | BuildABot/Utilities/AStarPathFinder.cs:161 | `List.Reverse`: same length, element i taken from the mirrored index |
| AStar.SingleTilePath | BuildABot/Utilities/AStarPathFinder.cs:153-155 | a repetition-free path from a tile to itself is that tile alone |
| AStar.Search | BuildABot/Utilities/AStarPathFinder.cs:122-195 | the search returns a non-empty path iff the goal is reachable, and then a walkable, 8-connected, repetition-free path from start to goal |
| AStar.SnapEnds | BuildABot/Utilities/AStarPathFinder.cs:105-120 | both ends snap iff each has a walkable tile within radius 15, and the tiles returned are the snapped ones |
| AStar.Centers | BuildABot/Utilities/AStarPathFinder.cs:162-166 | each waypoint is its tile's centre +0.5 |
| AStar.Tiles | BuildABot/Utilities/AStarPathFinder.cs:162-166 | each waypoint maps back to a cell by flooring |
| AStar.TilesOfCenters | BuildABot/Utilities/AStarPathFinder.cs:162-166 | mapping the centres back gives the tile path |
| AStar.FindPath | BuildABot/Utilities/AStarPathFinder.cs:97-196 | the result is empty iff a snap fails or the snapped tiles are not connected; otherwise it is the tile centres of a walkable, 8-connected, repetition-free path between the snapped tiles |
| AStar.PathFoundShape | BuildABot/Utilities/AStarPathFinder.cs:153-167 | a non-empty result starts at the start tile's centre and ends at the end tile's centre; each waypoint is walkable and consecutive waypoints are one king move apart |
| AStar.PathFoundSameTile | BuildABot/Utilities/AStarPathFinder.cs:144-155 | when both ends snap to the same tile, the result is that tile's centre alone |
| MapAnalysis.GetHeight | BuildABot/Pathing/MapAnalysisService.cs:339-342 | the unguarded height read is the byte at y·width + x, in 0..255 |
| MapAnalysis.DecodingsAgreeOnAlignedWidth | BuildABot/Pathing/MapAnalysisService.cs:344-349 | when the width is a multiple of 8, the two bit decoders read the same bit |
| MapAnalysis.DecodingsDifferOnUnalignedWidth | BuildABot/Pathing/MapAnalysisService.cs:344-349 | a 3-wide grid on which the two decoders disagree, so they cannot be swapped in general |
| MapAnalysis.CandidateColumnFacts | BuildABot/Pathing/MapAnalysisService.cs:71-81 | one column of the scan yields exactly its candidate cells, in y order |
| MapAnalysis.CandidatesSpec | BuildABot/Pathing/MapAnalysisService.cs:66-82 | a cell is a ramp candidate iff it is interior, pathable and not buildable; candidates are listed x-major then y, so border cells never occur |
| MapAnalysis.NearbyUnprocessed | BuildABot/Pathing/MapAnalysisService.cs:193-201 | the queued neighbours are exactly the unprocessed input cells within Chebyshev distance 2 |
| MapAnalysis.FrontierStep | BuildABot/Pathing/MapAnalysisService.cs:185-203 | processing the head of the queue keeps every near neighbour of a processed cell processed or queued |
| MapAnalysis.GrowCluster | BuildABot/Pathing/MapAnalysisService.cs:178-204 | one breadth-first search keeps `processed` closed under nearness within the input; its cluster is exactly the newly processed cells, without repeats, starts with the seed, and each later cell is near an earlier one |
| MapAnalysis.NewClusterClosed | BuildABot/Pathing/MapAnalysisService.cs:182-204 | a cluster grown between two closed processed sets is closed under nearness among the input cells |
| MapAnalysis.ClusterRampCells | BuildABot/Pathing/MapAnalysisService.cs:168-214 | the clusters are pairwise disjoint, without repeats, subsets of the input, each of at least 3 cells, closed under Chebyshev-≤2 nearness and connected by it; every input cell outside them lies in a closed group of fewer than 3 cells |
| MapAnalysis.LargeGroupClustered | BuildABot/Pathing/MapAnalysisService.cs:168-214 | every connected group of three or more distinct input cells lies inside one cluster, so no such group is dropped |
| MapAnalysis.ClustersSeparated | BuildABot/Pathing/MapAnalysisService.cs:192-195 | cells of two different clusters are never within Chebyshev distance 2 |
| MapAnalysis.DistantGroupsNotMerged | BuildABot/Pathing/MapAnalysisService.cs:192-195 | two groups of three cells ten columns apart are not one cluster |
| MapAnalysis.ThreeInARowKept | BuildABot/Pathing/MapAnalysisService.cs:203-206 | three adjacent cells form a cluster that is kept, so the empty clustering is wrong for them |
| MapAnalysis.Heights | BuildABot/Pathing/MapAnalysisService.cs:229 | the cluster's heights, one per cell, in cluster order |
| MapAnalysis.Middle | BuildABot/Pathing/MapAnalysisService.cs:262 | `Skip(n/4).Take(n/2)`: n/2 values, each taken from the sorted list |
| MapAnalysis.VerdictRule | BuildABot/Pathing/MapAnalysisService.cs:238-272 | the early-return chain accepts iff the spread is 8..100, enough levels are distinct (3 from spread 16, else 2), and from spread 16 the middle half has an intermediate height |
| MapAnalysis.ValidRampRule | BuildABot/Pathing/MapAnalysisService.cs:220-276 | `IsValidRamp` accepts iff the cluster has at least 4 cells and its heights pass the rule |
| MapAnalysis.IntermediateIntegerForm | BuildABot/Pathing/MapAnalysisService.cs:265 | min + 0.2·diff < h < max − 0.2·diff is 5h > 5·min + diff and 5h < 5·max − diff |
| MapAnalysis.SlopeImpliesThreeLevels | BuildABot/Pathing/MapAnalysisService.cs:250-265 | an intermediate height forces at least three distinct heights |
| MapAnalysis.DistinctCheckRedundant | BuildABot/Pathing/MapAnalysisService.cs:250-271 | from spread 16 on, the three-levels test never rejects a cluster that the slope test accepts |
| MapAnalysis.CentroidIsMean | BuildABot/Pathing/MapAnalysisService.cs:104-105 | the ramp centre's coordinates times the cell count are the coordinate sums (`Average`) |
| MapAnalysis.CentroidInBox | BuildABot/Pathing/MapAnalysisService.cs:104-105 | the centre lies inside every box that contains the cluster |
| MapAnalysis.RampVerdicts | BuildABot/Pathing/MapAnalysisService.cs:102-128 | one `IsValidRamp` verdict per cluster, in order |
| MapAnalysis.KeptCentresFacts | BuildABot/Pathing/MapAnalysisService.cs:102-117 | the appended ramps are exactly the centres of the accepted clusters, at most one per cluster |
| MapAnalysis.CountOpen | BuildABot/Pathing/MapAnalysisService.cs:297-331 | each counter loop returns the run of pathable cells next to (x, y) in its direction, at most 10 |
| MapAnalysis.RunAllOpen | BuildABot/Pathing/MapAnalysisService.cs:297-331 | every cell of the counted run is on the grid and pathable |
| MapAnalysis.RunEndsClosed | BuildABot/Pathing/MapAnalysisService.cs:297-331 | a run shorter than 10 stops at a cell that is off the grid or not pathable |
| MapAnalysis.CalculatePassageWidth | BuildABot/Pathing/MapAnalysisService.cs:291-337 | the width is the smaller of 1 + left + right and 1 + up + down |
| MapAnalysis.PassageWidthBounds | BuildABot/Pathing/MapAnalysisService.cs:291-337 | the passage width lies in 1..21 |
| MapAnalysis.IsNarrowPassage | BuildABot/Pathing/MapAnalysisService.cs:281-286 | a passage is narrow iff its width is 1..3 |
| MapAnalysis.NarrowMeansFlanked | BuildABot/Pathing/MapAnalysisService.cs:281-336 | narrow iff the two horizontal runs, or the two vertical runs, add up to at most 2 |
| MapAnalysis.ChokeColumnFacts | BuildABot/Pathing/MapAnalysisService.cs:133-142 | one column keeps earlier points, adds only narrow cells of that column, and leaves every narrow cell of it near a recorded point |
| MapAnalysis.ChokeBoxFacts | BuildABot/Pathing/MapAnalysisService.cs:131-143 | the scan over columns keeps that column property for every column scanned |
| MapAnalysis.ChokeScanSpec | BuildABot/Pathing/MapAnalysisService.cs:131-143 | the choke scan only appends narrow interior cells; it keeps every two points ≥ 8 apart in x or in y, and leaves every narrow interior cell within 8 of a recorded point |
| AnalysisService.CandidateClustersReadable | BuildABot/Pathing/MapAnalysisService.cs:102-107 | every cell of a clustering of the candidates has its height in the data |
| AnalysisService.RampsAddedSpec | BuildABot/Pathing/MapAnalysisService.cs:95-117 | each new ramp is the centroid of a closed cluster of at least 4 candidate cells |
| AnalysisService.MapAnalysisService.constructor | BuildABot/Pathing/MapAnalysisService.cs:32-38 | the service keeps the game info and starts with no expansions, choke points or ramps |
| AnalysisService.MapAnalysisService.Analyze | BuildABot/Pathing/MapAnalysisService.cs:43-50 | adds the start locations as expansions, appends the accepted ramp centres of a clustering of the candidates into their connected groups, and runs the choke scan over the old choke list |
| AnalysisService.MapAnalysisService.AnalyzeChokePointsAndRamps | BuildABot/Pathing/MapAnalysisService.cs:56-146 | keeps the older ramps and appends the accepted centres of a clustering of the candidates into their connected groups of three or more; the choke list is the scan's result; expansions are untouched |
| AnalysisService.MapAnalysisService.AddValidRamps | BuildABot/Pathing/MapAnalysisService.cs:102-128 | the validation loop appends exactly the centres of the accepted clusters; the other lists are untouched |
| AnalysisService.MapAnalysisService.AddChokePoints | BuildABot/Pathing/MapAnalysisService.cs:131-143 | the nested loops leave the choke list as the scan specification gives it; the other lists are untouched |
| AnalysisService.FindCandidates | BuildABot/Pathing/MapAnalysisService.cs:69-82 | the nested loops return the candidate list of CandidatesSpec |
| AnalysisService.FindCandidateColumn | BuildABot/Pathing/MapAnalysisService.cs:71-81 | the inner loop returns one column's candidates |
| AnalysisService.ScanChokeColumn | BuildABot/Pathing/MapAnalysisService.cs:133-142 | the inner loop returns the column step of the choke scan |
| AnalysisService.NarrowRow | BuildABot/Pathing/MapAnalysisService.cs:135 | the per-cell test is the narrow-passage test |
| AnalysisService.AnyNear | BuildABot/Pathing/MapAnalysisService.cs:137 | `ChokePoints.Any(...)` is true iff a recorded point is within 8 in both x and y |
| ChokePoints.PathHeights | BuildABot/Pathing/ChokePointService.cs:28-37 | the `GetMapHeight` of each path point, in order |
| ChokePoints.StartNeverHits | BuildABot/Pathing/ChokePointService.cs:30-37 | the start height itself never counts as a change, so the scan could start at index 0 or 1 alike |
| ChokePoints.FirstHitFacts | BuildABot/Pathing/ChokePointService.cs:29-37 | a hit is the first index from i whose height passes the test; no hit means no index passes it |
| ChokePoints.FirstHitFromOne | BuildABot/Pathing/ChokePointService.cs:29-37 | the first hit from index 1 has no earlier hit, and its predecessor does not pass the test |
| ChokePoints.GetFirstElevationChange | BuildABot/Pathing/ChokePointService.cs:25-39 | the loop with `prev` returns the elevation-change specification |
| ChokePoints.ElevationChangeFacts | BuildABot/Pathing/ChokePointService.cs:25-39 | null iff the path is empty or flat; otherwise `path[i−1]` for the first i whose height differs from the start, and that point has the start height |
| ChokePoints.ChokeFromPathFacts | BuildABot/Pathing/ChokePointService.cs:55-61 | null iff there is no change or the change lies beyond maxDistance; otherwise the elevation change itself |
| ChokePoints.FindChokePointFromPath | BuildABot/Pathing/ChokePointService.cs:55-61 | returns the choke-from-path specification |
| ChokePoints.FindChokePointBetweenBases | BuildABot/Pathing/ChokePointService.cs:45-49 | the result is the path choke of a path that FindPath may return between the two bases |
| ChokePoints.ScanGround | BuildABot/Pathing/ChokePointService.cs:71-103 | the shared loop returns the ground-choke specification for the strict lower or higher test |
| ChokePoints.FindHighGroundChokePoint | BuildABot/Pathing/ChokePointService.cs:71-86 | the first strictly lower cell's predecessor, subject to the distance guard |
| ChokePoints.FindLowGroundChokePoint | BuildABot/Pathing/ChokePointService.cs:88-103 | the first strictly higher cell's predecessor, subject to the distance guard |
| ChokePoints.GroundChokeFound | BuildABot/Pathing/ChokePointService.cs:71-103 | a result is `path[i−1]` for the first i passing the test, and the guard measured `path[i]`, not the returned point |
| ChokePoints.GroundChokeNone | BuildABot/Pathing/ChokePointService.cs:71-103 | null iff the path is empty, no index passes the test, or the first one passing lies beyond maxDistance |
| ChokePoints.GroundChokeHeight | BuildABot/Pathing/ChokePointService.cs:71-103 | the high-ground result is not below the start height; the low-ground result is not above it |
| ChokePoints.ChokeOnHeightsFound | BuildABot/Pathing/ChokePointService.cs:78-83 | on given heights, a result is the predecessor of the first passing index, within the distance guard |
| ChokePoints.ChokeOnHeightsFlat | BuildABot/Pathing/ChokePointService.cs:76-85 | with no passing index, there is no result |
| ChokePoints.ChokeOnHeightsFar | BuildABot/Pathing/ChokePointService.cs:80-81 | a first passing index beyond maxDistance gives no result, even when its predecessor is close |
| ChokePoints.ChokeOnHeightsMissing | BuildABot/Pathing/ChokePointService.cs:76-85 | no result means no passing index, or the first one lies beyond maxDistance |
| ChokePoints.DefensivePrefersHighGround | BuildABot/Pathing/ChokePointService.cs:63-69 | the high-ground choke when there is one, else the low-ground choke |
| ChokePoints.FindDefensiveChokePoint | BuildABot/Pathing/ChokePointService.cs:63-69 | the defensive choke of a path FindPath may return; `frame` plays no part |
| ChokePoints.TouchingMeansNeighbour | BuildABot/Pathing/ChokePointService.cs:180-196 | touching a higher (lower) point iff some 4-neighbour is walkable and strictly higher (lower) |
| ChokePoints.EdgeColumn | BuildABot/Pathing/ChokePointService.cs:118-129 | the inner loop adds exactly the qualifying cells of one window column |
| ChokePoints.EdgeScan | BuildABot/Pathing/ChokePointService.cs:116-130 | the nested loops add exactly the qualifying cells of the window ⌊c⌋−5 .. ⌊c⌋+9 |
| ChokePoints.GetEntireChokePoint | BuildABot/Pathing/ChokePointService.cs:112-132 | sorted by (X, Y) without repeats; holds the choke point and exactly the window cells of its height that are walkable and touch a strictly lower walkable neighbour |
| ChokePoints.GetEntireBottomOfRamp | BuildABot/Pathing/ChokePointService.cs:134-154 | sorted by (X, Y) without repeats; exactly the window cells of the start height that are walkable and touch a strictly higher walkable neighbour; the point itself is not added |
| ChokePoints.NeighbourTests | BuildABot/Pathing/ChokePointService.cs:165-174 | after the eight tests the list holds the input point iff some neighbour passes `AreaBuildable(n, 0.1)`; the neighbour itself is never added, and repeats of the point are left to `Distinct` |
| ChokePoints.GetWallOffPoints | BuildABot/Pathing/ChokePointService.cs:156-178 | sorted without repeats; exactly the input points that are `AreaBuildable` at radius 1 or have a neighbour buildable at radius 0.1 |
| Walls.StepFollowsTransitions | BuildABot/Managers/WallManager.cs:273-369 | every step follows an edge of the five-state machine; nothing reaches Complete; position and structure never change |
| Walls.NeedingTransitions | BuildABot/Managers/WallManager.cs:273-293 | NeedingSCV moves on iff a builder is found, which takes its tag and the frame; otherwise nothing changes |
| Walls.MovingTransitions | BuildABot/Managers/WallManager.cs:298-328 | MovingToSite falls back to NeedingSCV, without a frame refresh, iff the SCV is gone; it advances to ReadyToBuild iff the SCV is alive and within 3; otherwise it refreshes |
| Walls.ReadyTransitions | BuildABot/Managers/WallManager.cs:333-352 | ReadyToBuild goes to Building, with the build order and a refresh, iff the SCV is alive; otherwise it falls back without a refresh |
| Walls.BuildingTransitions | BuildABot/Managers/WallManager.cs:357-369 | Building stays Building, issues nothing, and refreshes iff the SCV is alive |
| Walls.StepActions | BuildABot/Managers/WallManager.cs:283-349 | every command names the job's SCV and targets the job's position; a build order comes only from ReadyToBuild and names the job's structure |
| Walls.FirstOpenFacts | BuildABot/Managers/WallManager.cs:186-191 | the chosen position is the first with neither a job nor a structure; none is chosen iff every position has one or the other |
| Walls.CreatedAddsAtMostOne | BuildABot/Managers/WallManager.cs:180-209 | creation keeps every existing job and adds at most one |
| Walls.CreatedJobFacts | BuildABot/Managers/WallManager.cs:193-205 | a new job sits at a wall position without a structure, waits for an SCV, carries the current frame, and was affordable: minerals ≥ 100·(pending + 1) |
| Walls.CreatedWhenAffordable | BuildABot/Managers/WallManager.cs:186-205 | with an open position and enough minerals, exactly one job is added |
| Walls.DroppedOnlyWhenIdle | BuildABot/Managers/WallManager.cs:243-263 | a job without a structure is dropped only when its step did not refresh it and it is stale past 448 frames |
| Walls.KeptJobsStepped | BuildABot/Managers/WallManager.cs:243-263 | a job without a structure that is fresh after its step stays, holding its stepped state |
| Walls.FreshJobSurvivesItsFrame | BuildABot/Managers/WallManager.cs:180-268 | a job created this frame survives this frame's processing |
| Walls.CreatedKeepsJobsOk | BuildABot/Managers/WallManager.cs:180-209 | creation keeps each job keyed by its own wall position |
| Walls.ProcessedKeepsJobsOk | BuildABot/Managers/WallManager.cs:215-268 | processing keeps each job keyed by its own wall position |
| Walls.NearestFound | BuildABot/Managers/WallManager.cs:608-632 | a found cell is buildable and within Chebyshev distance 8 of the rounded target |
| Walls.NearestClosest | BuildABot/Managers/WallManager.cs:614-629 | no buildable cell is strictly closer than the found one |
| Walls.NearestEmpty | BuildABot/Managers/WallManager.cs:614-631 | nothing is found iff the 17×17 box round the target holds no buildable cell |
| Walls.FoundSitesBuildable | BuildABot/Managers/WallManager.cs:574-584 | every added wall position is the centre of a buildable cell, and there is at most one per target |
| Walls.SitesAppend | BuildABot/Managers/WallManager.cs:581 | appending buildable sites keeps all sites buildable |
| Walls.WallTargets | BuildABot/Managers/WallManager.cs:571-577 | three targets, in the loop's order i = −1, 0, 1 |
| Walls.BuildJob.constructor | BuildABot/Managers/WallManager.cs:81-87 | a new job holds its position and structure, waits for an SCV, with tag 0 and frame 0 |
| Walls.WallManager.constructor | BuildABot/Managers/WallManager.cs:29-53 | the placement grid is copied; there are no wall positions and no jobs |
| Walls.WallManager.BuildableAgreesWithAnalysis | BuildABot/Managers/WallManager.cs:590-603 | the mask test reads the same bit as the analysis decoder's shift test, so the two `IsBuildable`s agree |
| Walls.WallManager.IsPathable | BuildABot/Managers/WallManager.cs:491-503 | false off the pathing grid |
| Walls.WallManager.PathableIsBuildableOrder | BuildABot/Managers/WallManager.cs:491-503 | this `IsPathable` reads bit 7 − i%8 of byte i/8, the order of `IsBuildable`, not the analysis service's x%8 |
| Walls.WallManager.GetTerrainHeight | BuildABot/Managers/WallManager.cs:508-517 | 0 off the grid, and always in 0..255 |
| Walls.WallManager.TerrainHeightAgreesWithMapData | BuildABot/Managers/WallManager.cs:508-517 | on a grid whose height plane has the pathing size, the height equals `MapHeightValue` |
| Walls.WallManager.ScanColumnLoop | BuildABot/Managers/WallManager.cs:618-627 | the dy loop returns the column scan |
| Walls.WallManager.ScanSquareLoop | BuildABot/Managers/WallManager.cs:616-628 | the dx loop returns the square scan |
| Walls.WallManager.FindNearestBuildable | BuildABot/Managers/WallManager.cs:608-632 | the nested loops return the centre of the nearest buildable cell, or null |
| Walls.WallManager.AddWallPositions | BuildABot/Managers/WallManager.cs:574-584 | the positions found for the targets are appended in order |
| Walls.WallManager.CreateWallPositions | BuildABot/Managers/WallManager.cs:559-585 | the three targets' buildable sites are appended, the invariant is kept, and the jobs are untouched |
| Walls.WallManager.AddFirstOpenJob | BuildABot/Managers/WallManager.cs:186-208 | the loop leaves the job table as the creation specification gives it |
| Walls.WallManager.CreateBuildJobs | BuildABot/Managers/WallManager.cs:180-209 | creation as specified; old jobs and wall positions are untouched, and the invariant is kept |
| Walls.WallManager.ProcessNeedingSCV | BuildABot/Managers/WallManager.cs:273-293 | the job's new fields and command are those of the NeedingSCV step |
| Walls.WallManager.ProcessMovingToSite | BuildABot/Managers/WallManager.cs:298-328 | the job's new fields and command are those of the MovingToSite step |
| Walls.WallManager.ProcessReadyToBuild | BuildABot/Managers/WallManager.cs:333-352 | the job's new fields and command are those of the ReadyToBuild step |
| Walls.WallManager.ProcessBuilding | BuildABot/Managers/WallManager.cs:357-369 | the job's new fields are those of the Building step |
| Walls.WallManager.ProcessJob | BuildABot/Managers/WallManager.cs:243-251 | the switch dispatches to the step of the job's state |
| Walls.WallManager.VisitJob | BuildABot/Managers/WallManager.cs:222-263 | one foreach iteration keeps the pass invariant |
| Walls.WallManager.VisitAll | BuildABot/Managers/WallManager.cs:222-263 | the foreach visits every job once and records removals and commands |
| Walls.WallManager.RemoveJobs | BuildABot/Managers/WallManager.cs:264-267 | exactly the listed positions are removed; the rest are untouched |
| Walls.WallManager.ProcessBuildJobs | BuildABot/Managers/WallManager.cs:215-268 | the new table holds exactly the jobs with no structure that are fresh after their step, each stepped; the commands are those of the stepped jobs |
| Walls.ProcessedFromPass | BuildABot/Managers/WallManager.cs:215-268 | the step-in-place-then-remove pass produces the processing specification |
| Walls.MaskIsShift | BuildABot/Managers/WallManager.cs:602 | `b & (1 << k)` is non-zero iff bit k of b is set |
| Production.Producers | BuildABot/Managers/ProductionManager.cs:58-124 | unlisted types give CommandCenter twice; Marine and Reaper give Barracks or BarracksReactor; Marauder and Ghost give BarracksTechLab with CommandCenter as the alternate |
| Production.TrainingAbility | BuildABot/Managers/ProductionManager.cs:144-187 | the ability is non-zero iff the type is one of the 17 listed units |
| Production.FirstProducer | BuildABot/Managers/ProductionManager.cs:126-137 | the first unit, in list order, of the required or alternate type with no orders; none iff there is no such unit |
| Production.UnlistedFindsCommandCenter | BuildABot/Managers/ProductionManager.cs:29-52 | an unlisted type finds an idle CommandCenter, and the zero ability stops the order |
| Production.SingleProducerFallsBackToCommandCenter | BuildABot/Managers/ProductionManager.cs:60-70 | because the alternate starts as CommandCenter, a Marauder with no idle tech lab is ordered from an idle CommandCenter |
| Production.OrderNamesFirstIdleProducer | BuildABot/Managers/ProductionManager.cs:192-200 | a command carries the table's ability and the one tag of an idle producer of the right type |
| Production.ProductionManager.constructor | BuildABot/Managers/ProductionManager.cs:19-22 | the manager keeps the unit list |
| Production.ProductionManager.FindProducerFor | BuildABot/Managers/ProductionManager.cs:58-138 | null iff no unit can produce; otherwise the first one in list order |
| Production.ProductionManager.CreateUnit | BuildABot/Managers/ProductionManager.cs:29-52 | at most count commands and none for count ≤ 0; none without a producer or ability; otherwise exactly count copies of the same command |
| Intel.LatchRace | BuildABot/Intel/EnemyIntel.cs:22-28 | a known race never changes; Random takes the report |
| Intel.FirstKnown | BuildABot/Intel/EnemyIntel.cs:22-28 | a known result is one of the reports |
| Intel.KnownRaceIsFinal | BuildABot/Intel/EnemyIntel.cs:22-28 | once known, the race stays the same whatever is reported later |
| Intel.RaceIsFirstKnown | BuildABot/Intel/EnemyIntel.cs:22-28 | starting from Random, the race is the first non-Random report |
| Intel.Bump | BuildABot/Intel/EnemyIntel.cs:33-35 | the key is added with its old count (or 0) plus one; every other entry is unchanged |
| Intel.BumpKeepsTallied | BuildABot/Intel/EnemyIntel.cs:12-36 | the count keys stay equal to the seen set, with every count ≥ 1 |
| Intel.BumpAllCounts | BuildABot/Intel/EnemyIntel.cs:30-36 | after a series of sightings, a type's count has grown by the number of its sightings |
| Intel.WithStandardMapping | BuildABot/Intel/EnemyIntel.cs:46-61 | the ten listed keys get their lists, and every other key is kept |
| Intel.MappedBuildingsDistinct | BuildABot/Intel/EnemyIntel.cs:49-60 | the ten building types are distinct |
| Intel.InitializationIdempotent | BuildABot/Intel/EnemyIntel.cs:46-61 | initialising twice is the same as initialising once |
| Intel.LikelyUnits | BuildABot/Intel/EnemyIntel.cs:63-68 | the mapped list when the key is present, else empty |
| Intel.LikelyUnitsAfterInitialization | BuildABot/Intel/EnemyIntel.cs:46-68 | after initialisation, a listed building gives its own list whatever was stored before, and any other unknown building gives [] |
| Intel.EnemyIntel.constructor | BuildABot/Intel/EnemyIntel.cs:10-20 | race Random, one estimated base, empty sets and maps, with the tally invariant |
| Intel.EnemyIntel.UpdateEnemyRace | BuildABot/Intel/EnemyIntel.cs:22-28 | the race is latched, and nothing else changes |
| Intel.EnemyIntel.AddSeenUnit | BuildABot/Intel/EnemyIntel.cs:30-36 | the unit set gains t, its count is bumped, only the unit collections change, and the tally invariant is kept |
| Intel.EnemyIntel.AddSeenBuilding | BuildABot/Intel/EnemyIntel.cs:38-44 | the building set gains t, its count is bumped, only the building collections change, and the tally invariant is kept |
| Intel.EnemyIntel.InitializeBuildingUnitMapping | BuildABot/Intel/EnemyIntel.cs:46-61 | the mapping becomes the standard mapping over its old contents; nothing else changes |
| Intel.EnemyIntel.GetLikelyUnitsFromBuilding | BuildABot/Intel/EnemyIntel.cs:63-68 | returns the looked-up list and changes nothing |
| Pathing.WaypointsFacts | BuildABot/Utilities/PathingHelper.cs:29-54 | the first n points give at most n waypoints, exactly n when none is blocked, and each waypoint is an unblocked circle point |
| Pathing.CircularPathFacts | BuildABot/Utilities/PathingHelper.cs:26-57 | at most `segments` points, none for segments ≤ 0, exactly `segments` without units to avoid, each on the circle and unblocked |
| Pathing.HarmlessUnitsBlockNothing | BuildABot/Utilities/PathingHelper.cs:41-42 | own, allied and neutral units and enemy SCVs never block a point |
| Pathing.IsBlocked | BuildABot/Utilities/PathingHelper.cs:39-49 | the foreach reports a block iff some enemy non-SCV unit is closer than the avoidance radius |
| Pathing.CreateCircularPath | BuildABot/Utilities/PathingHelper.cs:26-57 | the loop returns the circular-path specification |
| Pathing.Lookup | BuildABot/Utilities/PathingHelper.cs:67-74 | a hit returns the cached path and leaves the cache alone; a miss stores and returns the new path; other keys are unchanged |
| Pathing.SecondLookupHits | BuildABot/Utilities/PathingHelper.cs:67-74 | a second lookup with the same key returns the first answer and leaves the cache as the first left it |
| Pathing.PathingHelper.constructor | BuildABot/Utilities/PathingHelper.cs:10 | the cache starts empty |
| Pathing.PathingHelper.GetOrCreateCircularPath | BuildABot/Utilities/PathingHelper.cs:59-75 | the answer and the new cache are the lookup's, with the freshly computed circular path as its miss value |
| Pathing.PathingHelper.ClearPath | BuildABot/Utilities/PathingHelper.cs:77 | only the key is removed |
| Pathing.PathingHelper.ClearAllPaths | BuildABot/Utilities/PathingHelper.cs:79 | the cache becomes empty |

## Left out

- Floating point: `float` and `double` are exact reals, so no rounding error or NaN is modelled. `Math.Round`, `Floor`, `Ceiling` and the `(int)` cast are modelled exactly.
- Square roots: every distance test compares squared distances (`DistSq(a, b) < r·r` for `Distance < r`). That is exact on reals.
- AStar.FindPath: the heuristic is a parameter function and the step costs are kept as reals. Path optimality is not claimed. `PopMin` picks some entry of least priority, standing for .NET `PriorityQueue`, which has no defined tie order.
- AStar.FindPath: the open set is a sequence of entries with lazy deletion. No heap is modelled.
- Null results are `Option.None`, and a null `List` argument to the choke scans is not a case. A null path makes `FindHigh/LowGroundChokePoint` throw in C#; here the path is always a value.
- Unguarded reads: the height plane of `GetHeight` and the pathing bytes of `IsPathable`, in both `MapAnalysisService` and `WallManager`, are read without length checks. Their lengths are preconditions (`Readable`, `PassageReadable`, `BitsCover`), and no default is invented.
- Walls: `FindBuilder`, `HasStructureAt`, unit positions, idle flags and the mineral count come from observations. They are the `UnitsView` parameter: the builder a frame offers, the positions holding a structure, a tag → position map and the idle tags. The three-tier SCV choice of `FindBuilder` is not modelled.
- Walls: `Initialize`, `FindStartLocation`, `FindBestWallRamp`, `MaintainWall`, `GetMainRampPosition` and `GetWallPositions` hold observation scanning, float geometry and trivial getters, and are not modelled. `MaintainWall` is the per-frame call of `CreateBuildJobs` and then `ProcessBuildJobs`.
- Walls.WallManager.CreateWallPositions: takes the unit direction from the ramp to the base as parameters, because the square root that normalises it is not modelled. The `len == 0` case is then the caller's.
- Walls.WallManager.ProcessBuildJobs: dictionary iteration order is not specified in C#, so the commands are stated as a set. The job table is stated exactly.
- Walls: the `MapAnalysisService` that the `WallManager` constructor builds is not kept in the model, since the parts it is used for are the ones left out above.
- `DrawRampDetails`, `DrawMapToConsole` and every `Debug.WriteLine` are debug output and are not modelled.
- ChokePoints.NeighbourTests: runs the eight neighbour tests as a loop over an offset table in the source's order, rather than eight statements.
- Loops are split into helper methods, one per nesting level, each with its own specification: `ScanColumnLoop`/`ScanSquareLoop`, `FindCandidateColumn`, `ScanChokeColumn`, `EdgeColumn`, `VisitJob`.
- MapAnalysisService: the rival-base geometry (`FindNearestChokePoint`, `FindNearestRamp`, `FindDefensiveChokePoint`, `MarkRampsOnMap`) uses square roots and dot products, and is not modelled. The per-start-location debug count at lines 87-92 only logs.
- AnalysisService.MapAnalysisService.Analyze: states that some clustering of the candidates yields the ramps, not which one. `IsClustering` fixes the clusters as sets (the connected groups of three or more candidates under Chebyshev-≤2 nearness), but not the order of the clusters or of the cells inside one, which the breadth-first queue decides; so the order of the appended ramps is not stated.
- Production: a unit's `Orders` count stands for the list, where a null list counts as no orders. Unit and ability types are `int`s. `BuildTrainAction`'s protobuf message is reduced to its tags and ability.
- Pathing: the static dictionary is a field of a `PathingHelper` object. `MathF.Cos`/`Sin` of the angle are the parameter `onCircle`, applied to the fraction i/segments of a full turn. `unit.Pos` is reduced to its x and y. The early return for segments ≤ 0 stands for the C# loop running zero times.
- Pathing: `Distance(Point, Point2D)` and `Distance(Point2D, Point2D)` are the exact squared comparison `Closer`.
- Pathing.PathingHelper.GetOrCreateCircularPath: keys are `string` values, so the `ArgumentNullException` a null key raises in the C# `Dictionary` is not modelled.
- Intel: `EstimatedEnemyBases` is only a field that starts at 1; no method changes it. Lists are values, so aliasing of the list returned by `GetLikelyUnitsFromBuilding` is not modelled.
- `BotController`, `Program`, `TerranBot`, `SimpleSCVTest`, `ScvScoutTask`, `DebugService` and the protobuf command wrappers in `Units.cs`/`TerranUnitBase.cs` are glue, bootstrapping, tests or rendering around the core, and are not part of this model. `Enums.cs` supplies only the constants copied into the modules.
