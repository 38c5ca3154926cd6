/** Shared vocabulary: world positions, grid cells, the game's static grid
    images, and the numeric conversions (rounding, flooring, truncation) that
    the bot applies when it turns a float position into a grid cell. Floats are
    modelled as exact reals. */
module Common {

  datatype Option<+T> = None | Some(value: T)

  /** A protocol Point2D: a world position with float coordinates. */
  datatype Point2D = Point2D(x: real, y: real)

  /** An integer grid coordinate, the (int, int) tuples of the source. */
  datatype Cell = Cell(x: int, y: int)

  /** One image of the game's static map data: its declared size and the raw bytes. */
  datatype ImageData = ImageData(sizeX: int, sizeY: int, data: seq<bv8>)

  /** The parts of ResponseGameInfo.StartRaw that the terrain code reads. */
  datatype GameInfo = GameInfo(
    pathingGrid: ImageData,
    placementGrid: ImageData,
    terrainHeight: ImageData,
    startLocations: seq<Point2D>)

  function Abs(n: int): nat { if n < 0 then -n else n }

  function RAbs(r: real): real { if r < 0.0 then -r else r }

  function Max(a: int, b: int): int { if a < b then b else a }

  function Min(a: int, b: int): int { if a < b then a else b }

  /** C#'s integer division, which truncates toward zero: the remainder it
      leaves is smaller than the divisor and never of the opposite sign to
      the dividend. */
  function TruncDiv(a: int, b: int): (q: int)
    requires b > 0
    ensures Abs(a - b * q) < b && (a - b * q) * a >= 0
    ensures 0 <= a ==> q == a / b
  {
    if a >= 0 then a / b else -((-a) / b)
  }

  /** C#'s remainder, which takes the sign of the dividend. */
  function TruncMod(a: int, b: int): (r: int)
    requires b > 0
    ensures r == a - b * TruncDiv(a, b)
    ensures -b < r < b
    ensures a < 0 ==> r <= 0
    ensures 0 <= a ==> r == a % b
  {
    if a >= 0 then a % b else -((-a) % b)
  }

  /** Chebyshev length of an offset: the ring on which an offset lies. */
  function Cheb(dx: int, dy: int): nat { Max(Abs(dx), Abs(dy)) }

  /** Math.Floor followed by an int cast. */
  function Floor(r: real): (n: int)
    ensures n as real <= r < n as real + 1.0
  {
    r.Floor
  }

  /** Math.Ceiling followed by an int cast. */
  function Ceil(r: real): (n: int)
    ensures n as real - 1.0 < r <= n as real
  {
    if r.Floor as real == r then r.Floor else r.Floor + 1
  }

  /** The (int) cast of a float: truncation toward zero. */
  function Trunc(r: real): (n: int)
    ensures 0.0 <= r ==> n == Floor(r)
    ensures r < 0.0 ==> n == -Floor(-r)
  {
    if r >= 0.0 then r.Floor else -((-r).Floor)
  }

  /** Math.Round and MathF.Round with the default MidpointRounding.ToEven:
      a value exactly halfway between two integers goes to the even one. */
  function RoundHalfEven(r: real): (n: int)
    ensures RAbs(r - n as real) <= 0.5
    ensures RAbs(r - n as real) == 0.5 ==> n % 2 == 0
  {
    var f := r.Floor;
    var frac := r - f as real;
    if frac < 0.5 then f
    else if frac > 0.5 then f + 1
    else if f % 2 == 0 then f else f + 1
  }

  /** A waypoint sits at the centre k + 0.5 of cell k; rounding it half to even
      gives k when k is even and k + 1 when k is odd, so a lookup through
      rounding reads a neighbouring cell for every odd coordinate. */
  lemma CentreRounding(k: int)
    ensures RoundHalfEven(k as real + 0.5) == if k % 2 == 0 then k else k + 1
  {
    assert (k as real + 0.5).Floor == k;
  }

  /** Rounding an integer-valued coordinate gives that integer back. */
  lemma RoundIntegral(k: int)
    ensures RoundHalfEven(k as real) == k
  {
    assert (k as real).Floor == k;
  }

  /** The world position of the centre of a cell. */
  function Center(c: Cell): (p: Point2D)
    ensures p.x - 0.5 == c.x as real && p.y - 0.5 == c.y as real
  {
    Point2D(c.x as real + 0.5, c.y as real + 0.5)
  }

  /** The cell whose square contains a world position. */
  function CellOf(p: Point2D): Cell
  {
    Cell(Floor(p.x), Floor(p.y))
  }

  lemma CellOfCenter(c: Cell)
    ensures CellOf(Center(c)) == c
  {
    assert (c.x as real + 0.5).Floor == c.x;
    assert (c.y as real + 0.5).Floor == c.y;
  }

  /** A point with integer coordinates, as the source builds for grid cells. */
  function PointOf(c: Cell): Point2D
  {
    Point2D(c.x as real, c.y as real)
  }

  /** The squared distance between two points; the source compares
      distances, or their squares, against constants, so the square root is
      never needed. */
  function DistSq(a: Point2D, b: Point2D): (d: real)
    ensures d >= 0.0
  {
    var dx := a.x - b.x;
    var dy := a.y - b.y;
    dx * dx + dy * dy
  }

  /** The eight neighbour offsets of the 8-connected grid. */
  predicate IsStep(a: Cell, b: Cell)
  {
    Abs(b.x - a.x) <= 1 && Abs(b.y - a.y) <= 1 && a != b
  }
}
