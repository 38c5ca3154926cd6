/** MapDataService: the pathing, placement and terrain-height planes of the map,
    read at one byte per cell, with every lookup bounds-checked against the
    declared size and against the length of the plane. */
module MapData {
  import opened Common

  /** The MapCell record that GetCells produces. */
  datatype MapCell = MapCell(x: int, y: int, terrainHeight: int, walkable: bool, buildable: bool)

  /** The service's state: three planes copied once at construction and never
      changed, and the width and height of the pathing grid. */
  datatype MapDataService = MapDataService(
    pathing: seq<bv8>,
    placement: seq<bv8>,
    terrain: seq<bv8>,
    width: int,
    height: int)

  /** The constructor: planes from the three images, size from the pathing grid only. */
  function FromGameInfo(info: GameInfo): (m: MapDataService)
    ensures m.width == info.pathingGrid.sizeX && m.height == info.pathingGrid.sizeY
    ensures m.pathing == info.pathingGrid.data && m.placement == info.placementGrid.data
    ensures m.terrain == info.terrainHeight.data
  {
    MapDataService(info.pathingGrid.data, info.placementGrid.data, info.terrainHeight.data,
                   info.pathingGrid.sizeX, info.pathingGrid.sizeY)
  }

  /** The declared sizes of the placement and terrain images play no part:
      two games that differ only there give the same service. */
  lemma SizesFromPathingOnly(a: GameInfo, b: GameInfo)
    requires a.pathingGrid == b.pathingGrid
    requires a.placementGrid.data == b.placementGrid.data
    requires a.terrainHeight.data == b.terrainHeight.data
    ensures FromGameInfo(a) == FromGameInfo(b)
  {
  }

  predicate InBounds(m: MapDataService, x: int, y: int)
  {
    0 <= x < m.width && 0 <= y < m.height
  }

  function Index(m: MapDataService, x: int, y: int): int
  {
    x + y * m.width
  }

  /** The guarded read that the three lookups share: 0 off the map or past the
      end of the plane, the stored byte otherwise. */
  function ByteAt(m: MapDataService, plane: seq<bv8>, x: int, y: int): int
  {
    if x < 0 || y < 0 || x >= m.width || y >= m.height then 0
    else
      var i := Index(m, x, y);
      if i < 0 || i >= |plane| then 0 else plane[i] as int
  }

  predicate PathWalkable(m: MapDataService, x: int, y: int)
    ensures !InBounds(m, x, y) ==> !PathWalkable(m, x, y)
    ensures PathWalkable(m, x, y) <==>
              InBounds(m, x, y) && Index(m, x, y) < |m.pathing| && m.pathing[Index(m, x, y)] != 0
  {
    ByteAt(m, m.pathing, x, y) != 0
  }

  predicate PathBuildable(m: MapDataService, x: int, y: int)
    ensures !InBounds(m, x, y) ==> !PathBuildable(m, x, y)
    ensures PathBuildable(m, x, y) <==>
              InBounds(m, x, y) && Index(m, x, y) < |m.placement| && m.placement[Index(m, x, y)] != 0
  {
    ByteAt(m, m.placement, x, y) != 0
  }

  function MapHeightValue(m: MapDataService, x: int, y: int): (h: int)
    ensures 0 <= h < 256
    ensures !InBounds(m, x, y) ==> h == 0
    ensures InBounds(m, x, y) && Index(m, x, y) >= |m.terrain| ==> h == 0
    ensures InBounds(m, x, y) && Index(m, x, y) < |m.terrain| ==> h == m.terrain[Index(m, x, y)] as int
  {
    ByteAt(m, m.terrain, x, y)
  }

  /** The float overload PathWalkable(float, float) (and the Point2D one, which
      forwards to it): both coordinates are rounded half to even. */
  predicate PathWalkableAt(m: MapDataService, x: real, y: real)
  {
    PathWalkable(m, RoundHalfEven(x), RoundHalfEven(y))
  }

  predicate PathBuildableAt(m: MapDataService, x: real, y: real)
  {
    PathBuildable(m, RoundHalfEven(x), RoundHalfEven(y))
  }

  function GetMapHeight(m: MapDataService, p: Point2D): int
  {
    MapHeightValue(m, RoundHalfEven(p.x), RoundHalfEven(p.y))
  }

  /** At an integer-valued position every float lookup reads that very cell. */
  lemma IntegralLookups(m: MapDataService, c: Cell)
    ensures GetMapHeight(m, PointOf(c)) == MapHeightValue(m, c.x, c.y)
    ensures PathWalkableAt(m, c.x as real, c.y as real) == PathWalkable(m, c.x, c.y)
    ensures PathBuildableAt(m, c.x as real, c.y as real) == PathBuildable(m, c.x, c.y)
  {
    RoundIntegral(c.x);
    RoundIntegral(c.y);
  }

  /** At a cell centre, the height lookup reads the cell itself only when both
      coordinates are even; otherwise it reads the next cell up or right. */
  lemma CentreHeightLookup(m: MapDataService, c: Cell)
    ensures GetMapHeight(m, Center(c)) ==
              MapHeightValue(m, if c.x % 2 == 0 then c.x else c.x + 1,
                                if c.y % 2 == 0 then c.y else c.y + 1)
  {
    CentreRounding(c.x);
    CentreRounding(c.y);
  }

  // ---------------------------------------------------------------------
  // GetCells

  function CellAt(m: MapDataService, ix: int, iy: int): MapCell
  {
    MapCell(ix, iy, MapHeightValue(m, ix, iy), PathWalkable(m, ix, iy), PathBuildable(m, ix, iy))
  }

  /** The cells the inner loop adds for one column ix, rows yLo..yHi. */
  function Column(m: MapDataService, ix: int, yLo: int, yHi: int): seq<MapCell>
    decreases yHi - yLo
  {
    if yHi < yLo then []
    else Column(m, ix, yLo, yHi - 1) + (if InBounds(m, ix, yHi) then [CellAt(m, ix, yHi)] else [])
  }

  /** The cells both loops add for columns xLo..xHi. */
  function Box(m: MapDataService, xLo: int, xHi: int, yLo: int, yHi: int): seq<MapCell>
    decreases xHi - xLo
  {
    if xHi < xLo then []
    else Box(m, xLo, xHi - 1, yLo, yHi) + Column(m, xHi, yLo, yHi)
  }

  predicate LexLess(a: MapCell, b: MapCell)
  {
    a.x < b.x || (a.x == b.x && a.y < b.y)
  }

  predicate StrictlyOrdered(s: seq<MapCell>)
  {
    forall i, j :: 0 <= i < j < |s| ==> LexLess(s[i], s[j])
  }

  lemma {:induction false} ColumnFacts(m: MapDataService, ix: int, yLo: int, yHi: int)
    ensures forall c :: c in Column(m, ix, yLo, yHi) <==>
              (InBounds(m, c.x, c.y) && c.x == ix && yLo <= c.y <= yHi && c == CellAt(m, c.x, c.y))
    ensures StrictlyOrdered(Column(m, ix, yLo, yHi))
    decreases yHi - yLo
  {
    if yHi >= yLo {
      ColumnFacts(m, ix, yLo, yHi - 1);
      var s := Column(m, ix, yLo, yHi - 1);
      var t: seq<MapCell> := if InBounds(m, ix, yHi) then [CellAt(m, ix, yHi)] else [];
      assert Column(m, ix, yLo, yHi) == s + t;
      forall i, j | 0 <= i < j < |s + t| ensures LexLess((s + t)[i], (s + t)[j]) {
        if j >= |s| {
          assert (s + t)[i] in s;
        }
      }
    }
  }

  lemma {:induction false} BoxFacts(m: MapDataService, xLo: int, xHi: int, yLo: int, yHi: int)
    ensures forall c :: c in Box(m, xLo, xHi, yLo, yHi) <==>
              (InBounds(m, c.x, c.y) && xLo <= c.x <= xHi && yLo <= c.y <= yHi && c == CellAt(m, c.x, c.y))
    ensures StrictlyOrdered(Box(m, xLo, xHi, yLo, yHi))
    decreases xHi - xLo
  {
    if xHi >= xLo {
      BoxFacts(m, xLo, xHi - 1, yLo, yHi);
      ColumnFacts(m, xHi, yLo, yHi);
      var s := Box(m, xLo, xHi - 1, yLo, yHi);
      var t := Column(m, xHi, yLo, yHi);
      forall i, j | 0 <= i < j < |s + t| ensures LexLess((s + t)[i], (s + t)[j]) {
        if i < |s| && j >= |s| {
          assert (s + t)[i] in s;
          assert (s + t)[j] in t;
        } else if i >= |s| {
          assert (s + t)[i] == t[i - |s|] && (s + t)[j] == t[j - |s|];
        }
      }
    }
  }

  /** GetCells lists every in-bounds cell of the box [floor(x−r), ceil(x+r)] ×
      [floor(y−r), ceil(y+r)], each exactly once, x-major and then y, each
      filled in from the three lookups. */
  lemma GetCellsSpec(m: MapDataService, x: real, y: real, radius: real)
    ensures var cells := Box(m, Floor(x - radius), Ceil(x + radius), Floor(y - radius), Ceil(y + radius));
      && StrictlyOrdered(cells)
      && (forall c :: c in cells <==>
            (InBounds(m, c.x, c.y) && Floor(x - radius) <= c.x <= Ceil(x + radius)
             && Floor(y - radius) <= c.y <= Ceil(y + radius)
             && c.terrainHeight == MapHeightValue(m, c.x, c.y)
             && c.walkable == PathWalkable(m, c.x, c.y)
             && c.buildable == PathBuildable(m, c.x, c.y)))
  {
    BoxFacts(m, Floor(x - radius), Ceil(x + radius), Floor(y - radius), Ceil(y + radius));
  }

  method GetCells(m: MapDataService, x: real, y: real, radius: real) returns (cells: seq<MapCell>)
    ensures cells == Box(m, Floor(x - radius), Ceil(x + radius), Floor(y - radius), Ceil(y + radius))
  {
    cells := [];
    var xMin := Floor(x - radius);
    var xMax := Ceil(x + radius);
    var yMin := Floor(y - radius);
    var yMax := Ceil(y + radius);
    var ix := xMin;
    while ix <= xMax
      invariant xMin <= ix && (ix <= xMax + 1 || ix == xMin)
      invariant cells == Box(m, xMin, ix - 1, yMin, yMax)
      decreases xMax - ix
    {
      var iy := yMin;
      while iy <= yMax
        invariant yMin <= iy && (iy <= yMax + 1 || iy == yMin)
        invariant cells == Box(m, xMin, ix - 1, yMin, yMax) + Column(m, ix, yMin, iy - 1)
        decreases yMax - iy
      {
        if ix < 0 || iy < 0 || ix >= m.width || iy >= m.height {
          iy := iy + 1;
          continue;
        }
        cells := cells + [MapCell(ix, iy, MapHeightValue(m, ix, iy), PathWalkable(m, ix, iy), PathBuildable(m, ix, iy))];
        iy := iy + 1;
      }
      assert Column(m, ix, yMin, iy - 1) == Column(m, ix, yMin, yMax);
      ix := ix + 1;
    }
    assert Box(m, xMin, ix - 1, yMin, yMax) == Box(m, xMin, xMax, yMin, yMax);
  }
}
