/** ChokePointService: choke points found by walking a path and watching the
    terrain height, the cells that make up a ramp's top or bottom edge, and
    the points of a choke that a wall can be placed on. Heights are read
    through the map data service, areas through the building service. */
module ChokePoints {
  import opened Common
  import opened MapData
  import opened Ordering
  import Building
  import AStar

  // ---------------------------------------------------------------------
  // Scanning a path for a change of height

  /** The three height tests a path scan can apply: a height that differs
      from the start's, one strictly below it, or one strictly above it. */
  datatype HeightTest = Differs | Lower | Higher

  predicate Hits(test: HeightTest, startHeight: int, h: int)
  {
    match test
    case Differs => h != startHeight
    case Lower => startHeight > h
    case Higher => startHeight < h
  }

  /** The start height itself never triggers a test. */
  lemma StartNeverHits(test: HeightTest, h: int)
    ensures !Hits(test, h, h)
  {
  }

  /** The height GetMapHeight reads at each point of a path. */
  function PathHeights(m: MapDataService, path: seq<Point2D>): (hs: seq<int>)
    ensures |hs| == |path|
    ensures forall i :: 0 <= i < |path| ==> hs[i] == GetMapHeight(m, path[i])
  {
    seq(|path|, i requires 0 <= i < |path| => GetMapHeight(m, path[i]))
  }

  /** The index of the first height from i on that triggers the test. */
  function FirstHit(hs: seq<int>, test: HeightTest, startHeight: int, i: nat): (r: Option<nat>)
    ensures r.Some? ==> i <= r.value < |hs|
    decreases |hs| - i
  {
    if i >= |hs| then None
    else if Hits(test, startHeight, hs[i]) then Some(i)
    else FirstHit(hs, test, startHeight, i + 1)
  }

  /** A hit triggers the test and no height from i up to it does; no hit
      means no height from i on triggers it. */
  lemma {:induction false} FirstHitFacts(hs: seq<int>, test: HeightTest, startHeight: int, i: nat)
    ensures FirstHit(hs, test, startHeight, i).Some? ==>
              var j := FirstHit(hs, test, startHeight, i).value;
              Hits(test, startHeight, hs[j]) && forall k :: i <= k < j ==> !Hits(test, startHeight, hs[k])
    ensures FirstHit(hs, test, startHeight, i).None? ==>
              forall k :: i <= k < |hs| ==> !Hits(test, startHeight, hs[k])
    decreases |hs| - i
  {
    if i < |hs| && !Hits(test, startHeight, hs[i]) {
      FirstHitFacts(hs, test, startHeight, i + 1);
    }
  }

  /** No height before index i triggers the test against the first height. */
  predicate NoHitBefore(hs: seq<int>, test: HeightTest, i: int)
    requires |hs| > 0 && i <= |hs|
  {
    forall k :: 0 <= k < i ==> !Hits(test, hs[0], hs[k])
  }

  /** A height from index 1 on that triggers the test, with none before it,
      is the first hit. */
  lemma FirstHitAt(hs: seq<int>, test: HeightTest, i: int)
    requires |hs| > 0 && 1 <= i < |hs|
    requires Hits(test, hs[0], hs[i]) && NoHitBefore(hs, test, i)
    ensures FirstHit(hs, test, hs[0], 1) == Some(i)
  {
    FirstHitFacts(hs, test, hs[0], 1);
  }

  /** Where the first hit from index 1 is, and what its absence means. */
  lemma FirstHitFromOne(hs: seq<int>, test: HeightTest)
    requires |hs| > 0
    ensures FirstHit(hs, test, hs[0], 1).Some? ==>
              var j := FirstHit(hs, test, hs[0], 1).value;
              1 <= j && Hits(test, hs[0], hs[j]) && NoHitBefore(hs, test, j) && !Hits(test, hs[0], hs[j - 1])
    ensures FirstHit(hs, test, hs[0], 1).None? ==> NoHitBefore(hs, test, |hs|)
  {
    StartNeverHits(test, hs[0]);
    FirstHitFacts(hs, test, hs[0], 1);
  }

  /** GetFirstElevationChange's answer: the point just before the first one
      whose height differs from the start's. The first point never differs,
      so the search for a hit starts at the second. */
  function ElevationChange(m: MapDataService, path: seq<Point2D>): Option<Point2D>
  {
    if |path| == 0 then None
    else
      var hs := PathHeights(m, path);
      match FirstHit(hs, Differs, hs[0], 1)
      case None => None
      case Some(j) => Some(path[j - 1])
  }

  /** The foreach loop with its prev variable. A null path is modelled as the
      empty one. */
  method GetFirstElevationChange(m: MapDataService, path: seq<Point2D>) returns (r: Option<Point2D>)
    ensures r == ElevationChange(m, path)
  {
    if |path| == 0 {
      return None;
    }
    ghost var hs := PathHeights(m, path);
    var startHeight := GetMapHeight(m, path[0]);
    var prev := path[0];
    var i := 0;
    while i < |path|
      invariant 0 <= i <= |path|
      invariant prev == path[if i == 0 then 0 else i - 1]
      invariant FirstHit(hs, Differs, startHeight, 1) == FirstHit(hs, Differs, startHeight, Max(i, 1))
    {
      var p := path[i];
      if GetMapHeight(m, p) != startHeight {
        return Some(prev);
      }
      prev := p;
      i := i + 1;
    }
    return None;
  }

  /** There is no elevation change exactly when the path is empty or flat;
      otherwise the change is the point before the first differing height,
      and it lies at the start height. */
  lemma ElevationChangeFacts(m: MapDataService, path: seq<Point2D>)
    ensures ElevationChange(m, path).None? <==>
              |path| == 0 || forall k :: 0 <= k < |path| ==> PathHeights(m, path)[k] == PathHeights(m, path)[0]
    ensures ElevationChange(m, path).Some? ==>
              exists i :: 1 <= i < |path| && ElevationChange(m, path).value == path[i - 1]
                && PathHeights(m, path)[i] != PathHeights(m, path)[0]
                && NoHitBefore(PathHeights(m, path), Differs, i)
    ensures ElevationChange(m, path).Some? ==>
              GetMapHeight(m, ElevationChange(m, path).value) == GetMapHeight(m, path[0])
  {
    if |path| > 0 {
      var hs := PathHeights(m, path);
      FirstHitFromOne(hs, Differs);
      if FirstHit(hs, Differs, hs[0], 1).None? {
        assert forall k :: 0 <= k < |hs| ==> !Hits(Differs, hs[0], hs[k]);
      } else {
        var j := FirstHit(hs, Differs, hs[0], 1).value;
        assert hs[j - 1] == hs[0];
      }
    }
  }

  /** FindChokePointFromPath's answer: the elevation change, dropped when it
      lies farther than maxDistance from the first point. */
  function ChokeFromPath(m: MapDataService, path: seq<Point2D>, maxDistance: real): Option<Point2D>
  {
    match ElevationChange(m, path)
    case None => None
    case Some(c) => if DistSq(path[0], c) > maxDistance * maxDistance then None else Some(c)
  }

  lemma ChokeFromPathFacts(m: MapDataService, path: seq<Point2D>, maxDistance: real)
    ensures ChokeFromPath(m, path, maxDistance).None? <==>
              ElevationChange(m, path).None? || DistSq(path[0], ElevationChange(m, path).value) > maxDistance * maxDistance
    ensures ChokeFromPath(m, path, maxDistance).Some? ==> ChokeFromPath(m, path, maxDistance) == ElevationChange(m, path)
  {
  }

  method FindChokePointFromPath(m: MapDataService, path: seq<Point2D>, maxDistance: real) returns (r: Option<Point2D>)
    ensures r == ChokeFromPath(m, path, maxDistance)
  {
    var choke := GetFirstElevationChange(m, path);
    if choke.None? {
      return None;
    }
    if DistSq(path[0], choke.value) > maxDistance * maxDistance {
      return None;
    }
    return choke;
  }

  /** The path between the bases comes from the path finder; the choke is the
      one FindChokePointFromPath reads off it. */
  method FindChokePointBetweenBases(g: AStar.PathGrid, h: (int, int, int, int) -> real, m: MapDataService,
                                    start: Point2D, end: Point2D, maxDistance: real)
    returns (r: Option<Point2D>)
    ensures exists path :: AStar.PathFound(g, start, end, path) && r == ChokeFromPath(m, path, maxDistance)
  {
    var path := AStar.FindPath(g, h, start, end);
    r := FindChokePointFromPath(m, path, maxDistance);
  }

  /** FindHighGroundChokePoint (test Lower) and FindLowGroundChokePoint (test
      Higher): the point before the first one strictly below (above) the
      start, unless that first point itself lies farther than maxDistance
      from the start. */
  function GroundChoke(m: MapDataService, path: seq<Point2D>, test: HeightTest, maxDistance: real): Option<Point2D>
  {
    ChokeOnHeights(PathHeights(m, path), path, test, maxDistance)
  }

  /** The same answer, read off the heights hs of the path's points. */
  function ChokeOnHeights(hs: seq<int>, path: seq<Point2D>, test: HeightTest, maxDistance: real): Option<Point2D>
    requires |hs| == |path|
  {
    if |path| == 0 then None
    else
      match FirstHit(hs, test, hs[0], 1)
      case None => None
      case Some(j) => if DistSq(path[0], path[j]) > maxDistance * maxDistance then None else Some(path[j - 1])
  }

  /** The loop the two ground scans share. */
  method ScanGround(m: MapDataService, path: seq<Point2D>, test: HeightTest, maxDistance: real) returns (r: Option<Point2D>)
    requires test != Differs
    ensures r == GroundChoke(m, path, test, maxDistance)
  {
    if |path| == 0 {
      return None;
    }
    ghost var hs := PathHeights(m, path);
    var startHeight := GetMapHeight(m, path[0]);
    var prev := path[0];
    var i := 0;
    while i < |path|
      invariant 0 <= i <= |path|
      invariant prev == path[if i == 0 then 0 else i - 1]
      invariant FirstHit(hs, test, startHeight, 1) == FirstHit(hs, test, startHeight, Max(i, 1))
    {
      var p := path[i];
      var h := GetMapHeight(m, p);
      assert h == hs[i] && startHeight == hs[0];
      if (test == Lower && startHeight > h) || (test == Higher && startHeight < h) {
        assert i >= 1 && FirstHit(hs, test, startHeight, i) == Some(i);
        if DistSq(path[0], p) > maxDistance * maxDistance {
          return None;
        }
        return Some(prev);
      }
      assert !Hits(test, startHeight, hs[i]);
      prev := p;
      i := i + 1;
    }
    return None;
  }

  method FindHighGroundChokePoint(m: MapDataService, path: seq<Point2D>, maxDistance: real) returns (r: Option<Point2D>)
    ensures r == GroundChoke(m, path, Lower, maxDistance)
  {
    r := ScanGround(m, path, Lower, maxDistance);
  }

  method FindLowGroundChokePoint(m: MapDataService, path: seq<Point2D>, maxDistance: real) returns (r: Option<Point2D>)
    ensures r == GroundChoke(m, path, Higher, maxDistance)
  {
    r := ScanGround(m, path, Higher, maxDistance);
  }

  /** A choke read off heights is the point before the first one that
      triggers the test, and the distance guard, measured to that first
      point, passed. */
  lemma ChokeOnHeightsFound(hs: seq<int>, path: seq<Point2D>, test: HeightTest, maxDistance: real)
    requires |hs| == |path|
    ensures ChokeOnHeights(hs, path, test, maxDistance).Some? ==>
              exists i :: 1 <= i < |path| && ChokeOnHeights(hs, path, test, maxDistance).value == path[i - 1]
                && Hits(test, hs[0], hs[i]) && DistSq(path[0], path[i]) <= maxDistance * maxDistance
                && NoHitBefore(hs, test, i)
  {
    if |path| > 0 {
      FirstHitFromOne(hs, test);
    }
  }

  /** A choke read off heights is missing when no height triggers the test. */
  lemma ChokeOnHeightsFlat(hs: seq<int>, path: seq<Point2D>, test: HeightTest, maxDistance: real)
    requires |hs| == |path| && |path| > 0
    ensures NoHitBefore(hs, test, |path|) ==> ChokeOnHeights(hs, path, test, maxDistance).None?
  {
    FirstHitFromOne(hs, test);
  }

  /** A choke read off heights is missing when the guard fails on the first
      point that triggers the test. */
  lemma ChokeOnHeightsFar(hs: seq<int>, path: seq<Point2D>, test: HeightTest, maxDistance: real, i: int)
    requires |hs| == |path| && 1 <= i < |path|
    requires Hits(test, hs[0], hs[i]) && NoHitBefore(hs, test, i)
    requires DistSq(path[0], path[i]) > maxDistance * maxDistance
    ensures ChokeOnHeights(hs, path, test, maxDistance).None?
  {
    FirstHitAt(hs, test, i);
  }

  /** A missing choke read off heights has one of those three causes. */
  lemma ChokeOnHeightsMissing(hs: seq<int>, path: seq<Point2D>, test: HeightTest, maxDistance: real)
    requires |hs| == |path| && |path| > 0
    requires ChokeOnHeights(hs, path, test, maxDistance).None?
    ensures NoHitBefore(hs, test, |path|)
            || exists i :: 1 <= i < |path| && Hits(test, hs[0], hs[i])
                 && DistSq(path[0], path[i]) > maxDistance * maxDistance && NoHitBefore(hs, test, i)
  {
    FirstHitFromOne(hs, test);
  }

  /** A ground choke is the point before the first one that triggers the
      test, and the distance guard, measured to that first point, passed. */
  lemma GroundChokeFound(m: MapDataService, path: seq<Point2D>, test: HeightTest, maxDistance: real)
    ensures GroundChoke(m, path, test, maxDistance).Some? ==>
              exists i :: 1 <= i < |path| && GroundChoke(m, path, test, maxDistance).value == path[i - 1]
                && Hits(test, PathHeights(m, path)[0], PathHeights(m, path)[i])
                && DistSq(path[0], path[i]) <= maxDistance * maxDistance
                && NoHitBefore(PathHeights(m, path), test, i)
  {
    ChokeOnHeightsFound(PathHeights(m, path), path, test, maxDistance);
  }

  /** There is no ground choke exactly when the path is empty, no point
      triggers the test, or the guard fails on the first point that does. */
  lemma GroundChokeNone(m: MapDataService, path: seq<Point2D>, test: HeightTest, maxDistance: real)
    ensures GroundChoke(m, path, test, maxDistance).None? <==>
              |path| == 0
              || NoHitBefore(PathHeights(m, path), test, |path|)
              || (exists i :: 1 <= i < |path| && Hits(test, PathHeights(m, path)[0], PathHeights(m, path)[i])
                    && DistSq(path[0], path[i]) > maxDistance * maxDistance
                    && NoHitBefore(PathHeights(m, path), test, i))
  {
    var hs := PathHeights(m, path);
    if |path| > 0 {
      if GroundChoke(m, path, test, maxDistance).None? {
        ChokeOnHeightsMissing(hs, path, test, maxDistance);
      }
      ChokeOnHeightsFlat(hs, path, test, maxDistance);
      if exists i :: 1 <= i < |path| && Hits(test, hs[0], hs[i])
                       && DistSq(path[0], path[i]) > maxDistance * maxDistance && NoHitBefore(hs, test, i) {
        var i :| 1 <= i < |path| && Hits(test, hs[0], hs[i])
                 && DistSq(path[0], path[i]) > maxDistance * maxDistance && NoHitBefore(hs, test, i);
        ChokeOnHeightsFar(hs, path, test, maxDistance, i);
      }
    }
  }

  /** The high-ground choke stands no lower than the start, and the
      low-ground choke no higher. */
  lemma GroundChokeHeight(m: MapDataService, path: seq<Point2D>, maxDistance: real)
    ensures GroundChoke(m, path, Lower, maxDistance).Some? ==>
              GetMapHeight(m, GroundChoke(m, path, Lower, maxDistance).value) >= GetMapHeight(m, path[0])
    ensures GroundChoke(m, path, Higher, maxDistance).Some? ==>
              GetMapHeight(m, GroundChoke(m, path, Higher, maxDistance).value) <= GetMapHeight(m, path[0])
  {
    if |path| > 0 {
      FirstHitFromOne(PathHeights(m, path), Lower);
      FirstHitFromOne(PathHeights(m, path), Higher);
    }
  }

  /** FindDefensiveChokePoint's answer on a path: the high-ground choke when
      there is one, the low-ground choke otherwise. */
  function DefensiveChoke(m: MapDataService, path: seq<Point2D>, maxDistance: real): Option<Point2D>
  {
    var high := GroundChoke(m, path, Lower, maxDistance);
    if high.Some? then high else GroundChoke(m, path, Higher, maxDistance)
  }

  /** The defensive choke is the high-ground choke whenever there is one,
      and the low-ground choke otherwise. */
  lemma DefensivePrefersHighGround(m: MapDataService, path: seq<Point2D>, maxDistance: real)
    ensures GroundChoke(m, path, Lower, maxDistance).Some? ==>
              DefensiveChoke(m, path, maxDistance) == GroundChoke(m, path, Lower, maxDistance)
    ensures GroundChoke(m, path, Lower, maxDistance).None? ==>
              DefensiveChoke(m, path, maxDistance) == GroundChoke(m, path, Higher, maxDistance)
  {
  }

  /** The frame argument plays no part. */
  method FindDefensiveChokePoint(g: AStar.PathGrid, h: (int, int, int, int) -> real, m: MapDataService,
                                 start: Point2D, end: Point2D, frame: int, maxDistance: real)
    returns (r: Option<Point2D>)
    ensures exists path :: AStar.PathFound(g, start, end, path) && r == DefensiveChoke(m, path, maxDistance)
  {
    var path := AStar.FindPath(g, h, start, end);
    r := FindHighGroundChokePoint(m, path, maxDistance);
    if r.Some? {
      return;
    }
    r := FindLowGroundChokePoint(m, path, maxDistance);
  }

  // ---------------------------------------------------------------------
  // The cells of a ramp edge

  /** TouchingHigherPoint: one of the four orthogonal neighbours (tried in the
      order y+1, y−1, x+1, x−1) is walkable and strictly higher. */
  predicate TouchingHigherPoint(m: MapDataService, x: int, y: int, startHeight: int)
  {
    if MapHeightValue(m, x, y + 1) > startHeight && PathWalkable(m, x, y + 1) then true
    else if MapHeightValue(m, x, y - 1) > startHeight && PathWalkable(m, x, y - 1) then true
    else if MapHeightValue(m, x + 1, y) > startHeight && PathWalkable(m, x + 1, y) then true
    else MapHeightValue(m, x - 1, y) > startHeight && PathWalkable(m, x - 1, y)
  }

  /** TouchingLowerPoint: the same with strictly lower. */
  predicate TouchingLowerPoint(m: MapDataService, x: int, y: int, startHeight: int)
  {
    if MapHeightValue(m, x, y + 1) < startHeight && PathWalkable(m, x, y + 1) then true
    else if MapHeightValue(m, x, y - 1) < startHeight && PathWalkable(m, x, y - 1) then true
    else if MapHeightValue(m, x + 1, y) < startHeight && PathWalkable(m, x + 1, y) then true
    else MapHeightValue(m, x - 1, y) < startHeight && PathWalkable(m, x - 1, y)
  }

  /** Two cells side by side (not diagonal). */
  predicate Orthogonal(a: Cell, b: Cell)
  {
    Abs(a.x - b.x) + Abs(a.y - b.y) == 1
  }

  /** The two neighbour tests ask whether some orthogonal neighbour is
      walkable and strictly higher (lower). */
  lemma TouchingMeansNeighbour(m: MapDataService, x: int, y: int, startHeight: int)
    ensures TouchingHigherPoint(m, x, y, startHeight) <==>
              exists n :: Orthogonal(Cell(x, y), n) && MapHeightValue(m, n.x, n.y) > startHeight && PathWalkable(m, n.x, n.y)
    ensures TouchingLowerPoint(m, x, y, startHeight) <==>
              exists n :: Orthogonal(Cell(x, y), n) && MapHeightValue(m, n.x, n.y) < startHeight && PathWalkable(m, n.x, n.y)
  {
    var ns := [Cell(x, y + 1), Cell(x, y - 1), Cell(x + 1, y), Cell(x - 1, y)];
    forall n | Orthogonal(Cell(x, y), n) ensures n in ns {
      assert n == Cell(n.x, n.y);
    }
    assert Orthogonal(Cell(x, y), ns[0]) && Orthogonal(Cell(x, y), ns[1]);
    assert Orthogonal(Cell(x, y), ns[2]) && Orthogonal(Cell(x, y), ns[3]);
  }

  /** A cell of the window [ox−5, ox+9] × [oy−5, oy+9] at the given height,
      walkable, and touching a walkable cell strictly higher (higher = true) or
      strictly lower (higher = false). */
  predicate EdgeCell(m: MapDataService, ox: int, oy: int, height: int, higher: bool, c: Cell)
  {
    && ox - 5 <= c.x < ox + 10 && oy - 5 <= c.y < oy + 10
    && MapHeightValue(m, c.x, c.y) == height && PathWalkable(m, c.x, c.y)
    && (if higher then TouchingHigherPoint(m, c.x, c.y, height) else TouchingLowerPoint(m, c.x, c.y, height))
  }

  /** A point with integer coordinates whose cell is an edge cell. */
  predicate EdgePoint(m: MapDataService, ox: int, oy: int, height: int, higher: bool, q: Point2D)
  {
    q == PointOf(CellOf(q)) && EdgeCell(m, ox, oy, height, higher, CellOf(q))
  }

  lemma EdgePointOfCell(m: MapDataService, ox: int, oy: int, height: int, higher: bool, c: Cell)
    ensures CellOf(PointOf(c)) == c
    ensures EdgePoint(m, ox, oy, height, higher, PointOf(c)) == EdgeCell(m, ox, oy, height, higher, c)
  {
    assert (c.x as real).Floor == c.x && (c.y as real).Floor == c.y;
  }

  /** The inner loop over one column px of the window: appends the edge
      points of that column, from row oy−5 upwards. */
  method EdgeColumn(m: MapDataService, ox: int, oy: int, height: int, higher: bool, px: int, points0: seq<Point2D>)
    returns (points: seq<Point2D>)
    requires ox - 5 <= px < ox + 10
    ensures forall q :: q in points <==> q in points0 || (EdgePoint(m, ox, oy, height, higher, q) && CellOf(q).x == px)
  {
    points := points0;
    for y := -5 to 10
      invariant forall q :: q in points <==>
                  q in points0 || (EdgePoint(m, ox, oy, height, higher, q) && CellOf(q).x == px && CellOf(q).y < oy + y)
    {
      var py := y + oy;
      var c := Cell(px, py);
      EdgePointOfCell(m, ox, oy, height, higher, c);
      var touching := if higher then TouchingHigherPoint(m, px, py, height) else TouchingLowerPoint(m, px, py, height);
      if MapHeightValue(m, px, py) == height && PathWalkable(m, px, py) && touching {
        points := points + [PointOf(c)];
      }
      forall q | EdgePoint(m, ox, oy, height, higher, q) && CellOf(q).x == px && CellOf(q).y == py
        ensures q == PointOf(c)
      {
      }
    }
  }

  /** The x/y double loop over the window around (ox, oy). */
  method EdgeScan(m: MapDataService, ox: int, oy: int, height: int, higher: bool, points0: seq<Point2D>)
    returns (points: seq<Point2D>)
    ensures forall q :: q in points <==> q in points0 || EdgePoint(m, ox, oy, height, higher, q)
  {
    points := points0;
    for x := -5 to 10
      invariant forall q :: q in points <==> q in points0 || (EdgePoint(m, ox, oy, height, higher, q) && CellOf(q).x < ox + x)
    {
      points := EdgeColumn(m, ox, oy, height, higher, x + ox, points);
    }
  }

  /** GetEntireChokePoint: the choke point together with the edge cells of
      the window around its truncated coordinates that stand at its height
      and touch lower ground, each once, sorted by X then Y. The height is
      read at the rounded choke point, the window at the truncated one. */
  method GetEntireChokePoint(m: MapDataService, chokePoint: Point2D) returns (r: seq<Point2D>)
    ensures StrictlySorted(r)
    ensures forall q :: q in r <==>
              q == chokePoint
              || EdgePoint(m, Trunc(chokePoint.x), Trunc(chokePoint.y), GetMapHeight(m, chokePoint), false, q)
  {
    var height := GetMapHeight(m, chokePoint);
    var points := EdgeScan(m, Trunc(chokePoint.x), Trunc(chokePoint.y), height, false, [chokePoint]);
    r := DistinctSorted(points);
  }

  /** GetEntireBottomOfRamp: the same window scan touching higher ground; the
      choke point itself is not added. */
  method GetEntireBottomOfRamp(m: MapDataService, chokePoint: Point2D) returns (r: seq<Point2D>)
    ensures StrictlySorted(r)
    ensures forall q :: q in r <==>
              EdgePoint(m, Trunc(chokePoint.x), Trunc(chokePoint.y), GetMapHeight(m, chokePoint), true, q)
  {
    var height := GetMapHeight(m, chokePoint);
    var points := EdgeScan(m, Trunc(chokePoint.x), Trunc(chokePoint.y), height, true, []);
    r := DistinctSorted(points);
  }

  // ---------------------------------------------------------------------
  // Wall-off points

  /** The eight neighbour offsets GetWallOffPoints tries, in its order. */
  const NeighbourOffsets: seq<(real, real)> :=
    [(0.0, -1.0), (0.0, 1.0), (-1.0, 0.0), (-1.0, -1.0), (-1.0, 1.0), (1.0, 0.0), (1.0, -1.0), (1.0, 1.0)]

  /** The radius-0.1 area around the k-th neighbour of p is buildable. */
  predicate NeighbourBuildable(m: MapDataService, p: Point2D, k: int)
    requires 0 <= k < |NeighbourOffsets|
  {
    Building.AreaBuildableSpec(m, p.x + NeighbourOffsets[k].0, p.y + NeighbourOffsets[k].1, 0.1)
  }

  /** Some neighbour among the first k passes its test. */
  predicate SomeNeighbourBuildable(m: MapDataService, p: Point2D, k: int)
    requires k <= |NeighbourOffsets|
  {
    exists j :: 0 <= j < k && NeighbourBuildable(m, p, j)
  }

  lemma SomeNeighbourStep(m: MapDataService, p: Point2D, k: int)
    requires 0 <= k < |NeighbourOffsets|
    ensures SomeNeighbourBuildable(m, p, k + 1) == (SomeNeighbourBuildable(m, p, k) || NeighbourBuildable(m, p, k))
  {
    if SomeNeighbourBuildable(m, p, k + 1) && !NeighbourBuildable(m, p, k) {
      var j :| 0 <= j < k + 1 && NeighbourBuildable(m, p, j);
      assert j < k;
    }
  }

  predicate NeighbourKeeps(m: MapDataService, p: Point2D)
  {
    SomeNeighbourBuildable(m, p, |NeighbourOffsets|)
  }

  /** A choke point is kept for a wall when the radius-1 area around it is
      buildable, or when the radius-0.1 area around one of its eight
      neighbours is. The neighbour only decides; the point kept is the choke
      point itself. */
  predicate WallKeeps(m: MapDataService, p: Point2D)
  {
    Building.AreaBuildableSpec(m, p.x, p.y, 1.0) || NeighbourKeeps(m, p)
  }

  /** The wall list is wall0 with p added when added holds. */
  ghost predicate AddedTo(wall: seq<Point2D>, wall0: seq<Point2D>, p: Point2D, added: bool)
  {
    forall q :: q in wall <==> q in wall0 || (added && q == p)
  }

  /** The eight neighbour tests of one choke point, made in order, each
      adding the point again when it passes. */
  method NeighbourTests(m: MapDataService, p: Point2D, wall0: seq<Point2D>) returns (wall: seq<Point2D>)
    ensures AddedTo(wall, wall0, p, NeighbourKeeps(m, p))
  {
    wall := wall0;
    for k := 0 to |NeighbourOffsets|
      invariant AddedTo(wall, wall0, p, SomeNeighbourBuildable(m, p, k))
    {
      var ok := Building.AreaBuildable(m, p.x + NeighbourOffsets[k].0, p.y + NeighbourOffsets[k].1, 0.1);
      if ok {
        wall := wall + [p];
      }
      assert ok == NeighbourBuildable(m, p, k);
      SomeNeighbourStep(m, p, k);
    }
  }

  /** GetWallOffPoints: the choke points a wall can stand on, each once,
      sorted by X then Y. Only input points are ever kept. */
  method GetWallOffPoints(m: MapDataService, chokePoints: seq<Point2D>) returns (r: seq<Point2D>)
    ensures StrictlySorted(r)
    ensures forall q :: q in r <==> q in chokePoints && WallKeeps(m, q)
  {
    var wall: seq<Point2D> := [];
    for i := 0 to |chokePoints|
      invariant forall q :: q in wall <==> q in chokePoints[..i] && WallKeeps(m, q)
    {
      var p := chokePoints[i];
      assert forall q :: q in chokePoints[..i + 1] <==> q in chokePoints[..i] || q == p;
      var ok := Building.AreaBuildable(m, p.x, p.y, 1.0);
      if ok {
        wall := wall + [p];
      } else {
        wall := NeighbourTests(m, p, wall);
      }
    }
    assert chokePoints[..|chokePoints|] == chokePoints;
    r := DistinctSorted(wall);
  }
}
