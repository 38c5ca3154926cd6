/** BuildingService: is a square footprint around a point fully buildable? */
module Building {
  import opened Common
  import opened MapData

  /** Every integer cell of [xLo, xHi] × [yLo, yHi] is PathBuildable. */
  predicate BoxBuildable(m: MapDataService, xLo: int, xHi: int, yLo: int, yHi: int)
  {
    forall ix, iy :: xLo <= ix <= xHi && yLo <= iy <= yHi ==> PathBuildable(m, ix, iy)
  }

  /** The box AreaBuildable(x, y, radius) examines, as [floor(x−r), ceil(x+r)] ×
      [floor(y−r), ceil(y+r)], and the property it decides. */
  predicate AreaBuildableSpec(m: MapDataService, x: real, y: real, radius: real)
  {
    BoxBuildable(m, Floor(x - radius), Ceil(x + radius), Floor(y - radius), Ceil(y + radius))
  }

  /** The nested ix/iy scan, returning on the first unbuildable cell. */
  method AreaBuildable(m: MapDataService, x: real, y: real, radius: real) returns (ok: bool)
    ensures ok <==> AreaBuildableSpec(m, x, y, radius)
  {
    var minX := Floor(x - radius);
    var maxX := Ceil(x + radius);
    var minY := Floor(y - radius);
    var maxY := Ceil(y + radius);
    var ix := minX;
    while ix <= maxX
      invariant minX <= ix && (ix <= maxX + 1 || ix == minX)
      invariant BoxBuildable(m, minX, ix - 1, minY, maxY)
      decreases maxX - ix
    {
      var iy := minY;
      while iy <= maxY
        invariant minY <= iy && (iy <= maxY + 1 || iy == minY)
        invariant BoxBuildable(m, minX, ix - 1, minY, maxY)
        invariant forall jy :: minY <= jy < iy ==> PathBuildable(m, ix, jy)
        decreases maxY - iy
      {
        if !PathBuildable(m, ix, iy) {
          return false;
        }
        iy := iy + 1;
      }
      ix := ix + 1;
    }
    return true;
  }

  /** A box that reaches off the map is never buildable. */
  lemma OffMapNotBuildable(m: MapDataService, xLo: int, xHi: int, yLo: int, yHi: int, c: Cell)
    requires xLo <= c.x <= xHi && yLo <= c.y <= yHi
    requires !InBounds(m, c.x, c.y)
    ensures !BoxBuildable(m, xLo, xHi, yLo, yHi)
  {
    assert !PathBuildable(m, c.x, c.y);
  }

  /** Buildability is inherited by every sub-box. */
  lemma SubBoxBuildable(m: MapDataService, xLo: int, xHi: int, yLo: int, yHi: int,
                        xLo': int, xHi': int, yLo': int, yHi': int)
    requires BoxBuildable(m, xLo, xHi, yLo, yHi)
    requires xLo <= xLo' && xHi' <= xHi && yLo <= yLo' && yHi' <= yHi
    ensures BoxBuildable(m, xLo', xHi', yLo', yHi')
  {
  }

  /** A smaller radius examines a sub-box, so it is buildable whenever the
      larger one is. */
  lemma SmallerRadiusBuildable(m: MapDataService, x: real, y: real, r: real, r': real)
    requires 0.0 <= r' <= r
    requires AreaBuildableSpec(m, x, y, r)
    ensures AreaBuildableSpec(m, x, y, r')
  {
    SubBoxBuildable(m, Floor(x - r), Ceil(x + r), Floor(y - r), Ceil(y + r),
                    Floor(x - r'), Ceil(x + r'), Floor(y - r'), Ceil(y + r'));
  }

  /** At an integer centre, radius 0.1 and radius 1 both examine the 3×3 box
      around it. */
  lemma TenthRadiusIsUnitBox(m: MapDataService, cx: int, cy: int)
    ensures AreaBuildableSpec(m, cx as real, cy as real, 0.1) <==> BoxBuildable(m, cx - 1, cx + 1, cy - 1, cy + 1)
    ensures AreaBuildableSpec(m, cx as real, cy as real, 1.0) <==> BoxBuildable(m, cx - 1, cx + 1, cy - 1, cy + 1)
  {
    assert Floor(cx as real - 0.1) == cx - 1;
    assert Ceil(cx as real + 0.1) == cx + 1;
    assert Floor(cy as real - 0.1) == cy - 1;
    assert Ceil(cy as real + 0.1) == cy + 1;
    assert Floor(cx as real - 1.0) == cx - 1;
    assert Ceil(cx as real + 1.0) == cx + 1;
    assert Floor(cy as real - 1.0) == cy - 1;
    assert Ceil(cy as real + 1.0) == cy + 1;
  }
}
