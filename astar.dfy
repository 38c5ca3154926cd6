/** AStarPathfinder: 8-connected A* search over the pathing grid, with the
    start and end snapped to the nearest walkable cell, lazy deletion of stale
    queue entries through a visited set, and the path rebuilt from the
    cameFrom links. The heuristic is a parameter of the search. */
module AStar {
  import opened Common
  import MapData

  /** The path finder's state: the pathing bytes and the grid size, copied
      once at construction. */
  datatype PathGrid = PathGrid(data: seq<bv8>, width: int, height: int)

  function FromGameInfo(info: GameInfo): (g: PathGrid)
    ensures g.data == info.pathingGrid.data
    ensures g.width == info.pathingGrid.sizeX && g.height == info.pathingGrid.sizeY
  {
    PathGrid(info.pathingGrid.data, info.pathingGrid.sizeX, info.pathingGrid.sizeY)
  }

  /** A cell is walkable when it is inside the declared size, its index is
      inside the byte buffer, and its byte is non-zero. */
  predicate IsWalkable(g: PathGrid, x: int, y: int)
    ensures IsWalkable(g, x, y) ==> 0 <= x < g.width && 0 <= y < g.height
  {
    if x < 0 || y < 0 || x >= g.width || y >= g.height then false
    else
      var index := x + y * g.width;
      if index < 0 || index >= |g.data| then false
      else g.data[index] != 0
  }

  /** The path finder and the map data service read the same plane the same
      way: they agree on every cell. */
  lemma WalkableAgreesWithMapData(info: GameInfo, x: int, y: int)
    ensures IsWalkable(FromGameInfo(info), x, y) == MapData.PathWalkable(MapData.FromGameInfo(info), x, y)
  {
  }

  // ---------------------------------------------------------------------
  // Snapping to the nearest walkable cell

  /** The innermost loop: column x+dx of ring r, rows dy..r, skipping the
      offsets that are not on the ring. */
  function RowScan(g: PathGrid, x: int, y: int, r: int, dx: int, dy: int): Option<Cell>
    decreases r - dy + 1
  {
    if dy > r then None
    else if (Abs(dx) == r || Abs(dy) == r) && IsWalkable(g, x + dx, y + dy) then Some(Cell(x + dx, y + dy))
    else RowScan(g, x, y, r, dx, dy + 1)
  }

  /** The middle loop: columns dx..r of ring r. */
  function ColScan(g: PathGrid, x: int, y: int, r: int, dx: int): Option<Cell>
    decreases r - dx + 1
  {
    if dx > r then None
    else match RowScan(g, x, y, r, dx, -r)
      case Some(c) => Some(c)
      case None => ColScan(g, x, y, r, dx + 1)
  }

  /** The outer loop: rings r..radius. */
  function RingScan(g: PathGrid, x: int, y: int, r: int, radius: int): Option<Cell>
    decreases radius - r + 1
  {
    if r > radius then None
    else match ColScan(g, x, y, r, -r)
      case Some(c) => Some(c)
      case None => RingScan(g, x, y, r + 1, radius)
  }

  /** The cell TryGetNearestWalkable reports: the cell itself when walkable,
      otherwise the first walkable cell met ring by ring. */
  function Nearest(g: PathGrid, x: int, y: int, radius: int): Option<Cell>
  {
    if IsWalkable(g, x, y) then Some(Cell(x, y)) else RingScan(g, x, y, 1, radius)
  }

  /** A cell found by the innermost loop is on ring r, walkable, in column
      x+dx and in a row from dy on. */
  lemma {:induction false} RowScanFound(g: PathGrid, x: int, y: int, r: int, dx: int, dy: int)
    requires 1 <= r && -r <= dx <= r && -r <= dy
    ensures RowScan(g, x, y, r, dx, dy).Some? ==>
              var c := RowScan(g, x, y, r, dx, dy).value;
              c.x == x + dx && y + dy <= c.y <= y + r && Cheb(c.x - x, c.y - y) == r && IsWalkable(g, c.x, c.y)
    decreases r - dy + 1
  {
    if dy <= r && !((Abs(dx) == r || Abs(dy) == r) && IsWalkable(g, x + dx, y + dy)) {
      RowScanFound(g, x, y, r, dx, dy + 1);
    }
  }

  /** When the innermost loop finds nothing, no cell of column x+dx from row
      dy on that lies on ring r is walkable. */
  lemma {:induction false} RowScanEmpty(g: PathGrid, x: int, y: int, r: int, dx: int, dy: int)
    requires 1 <= r && -r <= dx <= r && -r <= dy
    ensures RowScan(g, x, y, r, dx, dy).None? ==>
              forall px, py :: px == x + dx && y + dy <= py <= y + r && Cheb(px - x, py - y) == r
                ==> !IsWalkable(g, px, py)
    decreases r - dy + 1
  {
    if dy <= r && RowScan(g, x, y, r, dx, dy).None? {
      RowScanEmpty(g, x, y, r, dx, dy + 1);
    }
  }

  /** A cell found by the middle loop is on ring r, walkable, and in a column from dx on. */
  lemma {:induction false} ColScanFound(g: PathGrid, x: int, y: int, r: int, dx: int)
    requires 1 <= r && -r <= dx
    ensures ColScan(g, x, y, r, dx).Some? ==>
              var c := ColScan(g, x, y, r, dx).value;
              x + dx <= c.x <= x + r && Cheb(c.x - x, c.y - y) == r && IsWalkable(g, c.x, c.y)
    decreases r - dx + 1
  {
    if dx <= r {
      if RowScan(g, x, y, r, dx, -r).Some? {
        RowScanFound(g, x, y, r, dx, -r);
      } else {
        ColScanFound(g, x, y, r, dx + 1);
      }
    }
  }

  /** When the middle loop finds nothing, no cell of ring r from column dx on is walkable. */
  lemma {:induction false} ColScanEmpty(g: PathGrid, x: int, y: int, r: int, dx: int)
    requires 1 <= r && -r <= dx
    ensures ColScan(g, x, y, r, dx).None? ==>
              forall px, py :: x + dx <= px <= x + r && Cheb(px - x, py - y) == r ==> !IsWalkable(g, px, py)
    decreases r - dx + 1
  {
    if dx <= r && ColScan(g, x, y, r, dx).None? {
      RowScanEmpty(g, x, y, r, dx, -r);
      ColScanEmpty(g, x, y, r, dx + 1);
      forall px, py | x + dx <= px <= x + r && Cheb(px - x, py - y) == r ensures !IsWalkable(g, px, py) {
        if px == x + dx {
          assert y + -r <= py <= y + r;
        }
      }
    }
  }

  /** No cell of ring r is walkable when the middle loop over it finds nothing. */
  lemma RingEmpty(g: PathGrid, x: int, y: int, r: int)
    requires 1 <= r && ColScan(g, x, y, r, -r).None?
    ensures forall px, py :: Cheb(px - x, py - y) == r ==> !IsWalkable(g, px, py)
  {
    ColScanEmpty(g, x, y, r, -r);
    forall px, py | Cheb(px - x, py - y) == r ensures !IsWalkable(g, px, py) {
      assert x + -r <= px <= x + r;
    }
  }

  /** A cell found by the outer loop is walkable, on a ring from r to the
      radius, and every ring from r up to its own holds no walkable cell. */
  lemma {:induction false} RingScanFound(g: PathGrid, x: int, y: int, r: int, radius: int)
    requires 1 <= r
    ensures RingScan(g, x, y, r, radius).Some? ==>
              var c := RingScan(g, x, y, r, radius).value;
              r <= Cheb(c.x - x, c.y - y) <= radius && IsWalkable(g, c.x, c.y)
              && forall px, py :: r <= Cheb(px - x, py - y) < Cheb(c.x - x, c.y - y) ==> !IsWalkable(g, px, py)
    decreases radius - r + 1
  {
    if r <= radius {
      if ColScan(g, x, y, r, -r).Some? {
        ColScanFound(g, x, y, r, -r);
      } else {
        RingEmpty(g, x, y, r);
        RingScanFound(g, x, y, r + 1, radius);
      }
    }
  }

  /** When the outer loop finds nothing, no cell on the rings r to radius is walkable. */
  lemma {:induction false} RingScanEmpty(g: PathGrid, x: int, y: int, r: int, radius: int)
    requires 1 <= r
    ensures RingScan(g, x, y, r, radius).None? ==>
              forall px, py :: r <= Cheb(px - x, py - y) <= radius ==> !IsWalkable(g, px, py)
    decreases radius - r + 1
  {
    if r <= radius && RingScan(g, x, y, r, radius).None? {
      RingEmpty(g, x, y, r);
      RingScanEmpty(g, x, y, r + 1, radius);
    }
  }

  /** What the snap promises: a walkable cell on the smallest ring that has
      one, within the radius; and no cell at all exactly when nothing within
      the radius is walkable. */
  lemma NearestFacts(g: PathGrid, x: int, y: int, radius: int)
    requires 0 <= radius
    ensures Nearest(g, x, y, radius).Some? ==>
              var c := Nearest(g, x, y, radius).value;
              IsWalkable(g, c.x, c.y) && Cheb(c.x - x, c.y - y) <= radius
              && forall px, py :: Cheb(px - x, py - y) < Cheb(c.x - x, c.y - y) ==> !IsWalkable(g, px, py)
    ensures Nearest(g, x, y, radius).None? <==>
              forall px, py :: Cheb(px - x, py - y) <= radius ==> !IsWalkable(g, px, py)
  {
    RingScanFound(g, x, y, 1, radius);
    RingScanEmpty(g, x, y, 1, radius);
    if !IsWalkable(g, x, y) {
      forall px, py | Cheb(px - x, py - y) < 1 ensures !IsWalkable(g, px, py) {
        assert px == x && py == y;
      }
    }
  }

  /** A walkable starting cell is its own snap. */
  lemma NearestOfWalkable(g: PathGrid, x: int, y: int, radius: int)
    requires IsWalkable(g, x, y)
    ensures Nearest(g, x, y, radius) == Some(Cell(x, y))
  {
  }

  lemma {:induction false} RingScanWider(g: PathGrid, x: int, y: int, r: int, radius: int, radius': int)
    requires radius <= radius'
    requires RingScan(g, x, y, r, radius).Some?
    ensures RingScan(g, x, y, r, radius') == RingScan(g, x, y, r, radius)
    decreases radius - r + 1
  {
    if ColScan(g, x, y, r, -r).None? {
      RingScanWider(g, x, y, r + 1, radius, radius');
    }
  }

  /** The radius-5 attempt followed by the radius-15 fallback. */
  function Snap(g: PathGrid, x: int, y: int): Option<Cell>
  {
    var near := Nearest(g, x, y, 5);
    if near.Some? then near else Nearest(g, x, y, 15)
  }

  /** The two-stage snap never finds anything the radius-15 scan alone would
      not: the rings are scanned in the same order, so the first attempt is a
      prefix of the second. */
  lemma SnapIsRadius15(g: PathGrid, x: int, y: int)
    ensures Snap(g, x, y) == Nearest(g, x, y, 15)
  {
    if !IsWalkable(g, x, y) && RingScan(g, x, y, 1, 5).Some? {
      RingScanWider(g, x, y, 1, 5, 15);
    }
  }

  method TryGetNearestWalkable(g: PathGrid, x: int, y: int, searchRadius: int) returns (found: bool, result: Cell)
    ensures found == Nearest(g, x, y, searchRadius).Some?
    ensures found ==> result == Nearest(g, x, y, searchRadius).value
    ensures !found ==> result == Cell(0, 0)
  {
    if IsWalkable(g, x, y) {
      return true, Cell(x, y);
    }
    var r := 1;
    while r <= searchRadius
      invariant 1 <= r
      invariant RingScan(g, x, y, 1, searchRadius) == RingScan(g, x, y, r, searchRadius)
      decreases searchRadius - r
    {
      var dx := -r;
      while dx <= r
        invariant -r <= dx <= r + 1
        invariant ColScan(g, x, y, r, -r) == ColScan(g, x, y, r, dx)
        decreases r - dx
      {
        var dy := -r;
        while dy <= r
          invariant -r <= dy <= r + 1
          invariant RowScan(g, x, y, r, dx, -r) == RowScan(g, x, y, r, dx, dy)
          decreases r - dy
        {
          if Abs(dx) != r && Abs(dy) != r {
            dy := dy + 1;
            continue;
          }
          var nx := x + dx;
          var ny := y + dy;
          if IsWalkable(g, nx, ny) {
            return true, Cell(nx, ny);
          }
          dy := dy + 1;
        }
        dx := dx + 1;
      }
      r := r + 1;
    }
    return false, Cell(0, 0);
  }

  // ---------------------------------------------------------------------
  // Paths

  /** A walkable 8-connected path from a to b. */
  ghost predicate IsWalkPath(g: PathGrid, p: seq<Cell>, a: Cell, b: Cell)
  {
    && |p| >= 1 && p[0] == a && p[|p| - 1] == b
    && (forall i :: 0 <= i < |p| ==> IsWalkable(g, p[i].x, p[i].y))
    && (forall i, j :: 0 <= i && j == i + 1 && j < |p| ==> IsStep(p[i], p[j]))
  }

  predicate Distinct(p: seq<Cell>)
  {
    forall i, j :: 0 <= i < j < |p| ==> p[i] != p[j]
  }

  ghost predicate Reachable(g: PathGrid, a: Cell, b: Cell)
  {
    exists p :: IsWalkPath(g, p, a, b)
  }

  /** The waypoint of each tile: its centre. */
  function Centers(p: seq<Cell>): (r: seq<Point2D>)
    ensures |r| == |p| && forall i :: 0 <= i < |p| ==> r[i] == Center(p[i])
  {
    seq(|p|, i requires 0 <= i < |p| => Center(p[i]))
  }

  /** The tiles a list of waypoints lies in. */
  function Tiles(w: seq<Point2D>): (r: seq<Cell>)
    ensures |r| == |w| && forall i :: 0 <= i < |w| ==> r[i] == CellOf(w[i])
  {
    seq(|w|, i requires 0 <= i < |w| => CellOf(w[i]))
  }

  lemma TilesOfCenters(p: seq<Cell>)
    ensures Tiles(Centers(p)) == p
  {
    forall i | 0 <= i < |p| ensures Tiles(Centers(p))[i] == p[i] {
      CellOfCenter(p[i]);
    }
  }

  /** A path from a tile to itself with no repeated tile is that one tile. */
  lemma SingleTilePath(g: PathGrid, p: seq<Cell>, c: Cell)
    requires IsWalkPath(g, p, c, c) && Distinct(p)
    ensures p == [c]
  {
    assert |p| == 1;
  }

  function Reversed(s: seq<Cell>): (r: seq<Cell>)
    ensures |r| == |s|
    ensures forall i :: 0 <= i < |s| ==> r[i] == s[|s| - 1 - i]
  {
    if s == [] then [] else Reversed(s[1..]) + [s[0]]
  }

  // ---------------------------------------------------------------------
  // The search

  /** An entry of the priority queue: a node and its f-score. */
  datatype Entry = Entry(cell: Cell, priority: real)

  function OpenCells(open: seq<Entry>): set<Cell>
  {
    set e | e in open :: e.cell
  }

  /** The eight neighbour offsets, in the order the search tries them. */
  const Dirs: seq<(int, int)> := [(1, 0), (-1, 0), (0, 1), (0, -1), (1, 1), (1, -1), (-1, 1), (-1, -1)]

  function StepCost(d: (int, int)): real
  {
    if d.0 != 0 && d.1 != 0 then 1.4142 else 1.0
  }

  function Neighbour(c: Cell, k: int): Cell
    requires 0 <= k < |Dirs|
  {
    Cell(c.x + Dirs[k].0, c.y + Dirs[k].1)
  }

  /** The eight offsets are exactly the steps of the 8-connected grid. */
  lemma DirsAreSteps(c: Cell, n: Cell)
    ensures (exists k :: 0 <= k < |Dirs| && n == Neighbour(c, k)) <==> IsStep(c, n)
  {
    if IsStep(c, n) {
      var dx, dy := n.x - c.x, n.y - c.y;
      var k := if (dx, dy) == (1, 0) then 0 else if (dx, dy) == (-1, 0) then 1
               else if (dx, dy) == (0, 1) then 2 else if (dx, dy) == (0, -1) then 3
               else if (dx, dy) == (1, 1) then 4 else if (dx, dy) == (1, -1) then 5
               else if (dx, dy) == (-1, 1) then 6 else 7;
      assert n == Neighbour(c, k);
    }
    forall k | 0 <= k < |Dirs| && n == Neighbour(c, k) ensures IsStep(c, n) {
      assert Dirs[k] in Dirs;
    }
  }

  /** The queue's dequeue: an entry of least priority. Which of several
      entries of equal priority comes out is left open, as it is for the
      priority queue the search uses. */
  method PopMin(open: seq<Entry>) returns (i: nat)
    requires |open| > 0
    ensures i < |open|
    ensures forall j :: 0 <= j < |open| ==> open[i].priority <= open[j].priority
  {
    i := 0;
    var j := 1;
    while j < |open|
      invariant 1 <= j <= |open| && i < j
      invariant forall k :: 0 <= k < j ==> open[i].priority <= open[k].priority
    {
      if open[j].priority < open[i].priority {
        i := j;
      }
      j := j + 1;
    }
  }

  /** The bookkeeping the search keeps: s the start tile, e the end tile, the
      queue, cameFrom, gScore, the visited set, and (ghost) the order in which
      each visited cell was finalised. */
  ghost predicate SearchInv(g: PathGrid, s: Cell, e: Cell, open: seq<Entry>, cameFrom: map<Cell, Cell>,
                            gScore: map<Cell, real>, visited: set<Cell>, order: map<Cell, nat>)
  {
    && QueueInv(s, open, cameFrom, gScore, visited)
    && ChainInv(g, s, cameFrom, visited, order)
    && (visited != {} ==> s in visited)
    && e !in visited
  }

  /** Every queued cell has a g-score and is the start or has a parent; every
      scored cell is visited or still queued. */
  ghost predicate QueueInv(s: Cell, open: seq<Entry>, cameFrom: map<Cell, Cell>, gScore: map<Cell, real>,
                           visited: set<Cell>)
  {
    && (forall c :: c in OpenCells(open) ==> c in gScore && (c == s || c in cameFrom))
    && (forall c :: c in gScore ==> c in visited || c in OpenCells(open))
  }

  /** The start is walkable and has no parent; every cell with a parent is
      walkable, and its parent is a visited step neighbour. */
  ghost predicate ParentInv(g: PathGrid, s: Cell, cameFrom: map<Cell, Cell>, visited: set<Cell>)
  {
    && IsWalkable(g, s.x, s.y)
    && s !in cameFrom
    && (forall c :: c in cameFrom ==> IsWalkable(g, c.x, c.y))
    && (forall c {:trigger cameFrom[c]} :: c in cameFrom ==> cameFrom[c] in visited && IsStep(cameFrom[c], c))
  }

  /** What the path reconstruction needs besides ParentInv: every visited
      cell is the start or has a parent, and parents were finalised earlier. */
  ghost predicate ChainInv(g: PathGrid, s: Cell, cameFrom: map<Cell, Cell>, visited: set<Cell>, order: map<Cell, nat>)
  {
    && ParentInv(g, s, cameFrom, visited)
    && (forall v :: v in visited ==> (v == s || v in cameFrom) && v in order && order[v] < |visited|)
    && (forall v {:trigger cameFrom[v]} :: v in visited && v in cameFrom ==> order[cameFrom[v]] < order[v])
  }


  lemma OpenAppend(open: seq<Entry>, x: Entry)
    ensures OpenCells(open + [x]) == OpenCells(open) + {x.cell}
  {
    assert forall e :: e in open + [x] <==> e in open || e == x;
  }

  /** The queue after dequeuing entry i. */
  function Remove(open: seq<Entry>, i: nat): (r: seq<Entry>)
    requires i < |open|
    ensures |r| == |open| - 1
  {
    open[..i] + open[i + 1..]
  }

  lemma OpenRemove(open: seq<Entry>, i: nat)
    requires i < |open|
    ensures OpenCells(Remove(open, i)) <= OpenCells(open)
    ensures forall c :: c in OpenCells(open) ==> c == open[i].cell || c in OpenCells(Remove(open, i))
  {
    var rest := Remove(open, i);
    assert forall e :: e in rest ==> e in open;
    forall c | c in OpenCells(open) ensures c == open[i].cell || c in OpenCells(rest) {
      var e :| e in open && e.cell == c;
      var k :| 0 <= k < |open| && open[k] == e;
      if k < i {
        assert rest[k] == e;
      } else if k > i {
        assert rest[k - 1] == e;
      }
    }
  }

  /** The initial state: the start tile queued with a g-score of 0. */
  lemma InitKeeps(g: PathGrid, s: Cell, e: Cell, f: real)
    requires IsWalkable(g, s.x, s.y)
    ensures SearchInv(g, s, e, [Entry(s, f)], map[], map[s := 0.0], {}, map[])
    ensures ClosedOn(g, {}, {}, map[s := 0.0])
  {
    assert OpenCells([Entry(s, f)]) == {s} by {
      assert forall x :: x in [Entry(s, f)] <==> x == Entry(s, f);
    }
  }

  /** Dequeuing a stale entry (its cell already visited) keeps the bookkeeping. */
  lemma StaleKeeps(g: PathGrid, s: Cell, e: Cell, open: seq<Entry>, cameFrom: map<Cell, Cell>,
                   gScore: map<Cell, real>, visited: set<Cell>, order: map<Cell, nat>, i: nat)
    requires SearchInv(g, s, e, open, cameFrom, gScore, visited, order)
    requires i < |open| && open[i].cell in visited
    ensures SearchInv(g, s, e, Remove(open, i), cameFrom, gScore, visited, order)
  {
    OpenRemove(open, i);
  }

  /** Marking a queued cell visited keeps the queue bookkeeping. */
  lemma QueueKeepsOnVisit(s: Cell, open: seq<Entry>, cameFrom: map<Cell, Cell>, gScore: map<Cell, real>,
                          visited: set<Cell>, i: nat)
    requires QueueInv(s, open, cameFrom, gScore, visited) && i < |open|
    ensures QueueInv(s, Remove(open, i), cameFrom, gScore, visited + {open[i].cell})
    ensures open[i].cell in gScore && (open[i].cell == s || open[i].cell in cameFrom)
  {
    OpenRemove(open, i);
    assert open[i].cell in OpenCells(open);
  }

  /** A parent is still a visited cell once more cells are visited. */
  lemma ParentKeepsOnVisit(g: PathGrid, s: Cell, cameFrom: map<Cell, Cell>, visited: set<Cell>, cur: Cell)
    requires ParentInv(g, s, cameFrom, visited)
    ensures ParentInv(g, s, cameFrom, visited + {cur})
  {
  }

  /** Finalising a fresh cell that is the start or has a parent, with the
      next order number, keeps the chain bookkeeping. */
  lemma ChainKeepsOnVisit(g: PathGrid, s: Cell, cameFrom: map<Cell, Cell>, visited: set<Cell>,
                          order: map<Cell, nat>, cur: Cell)
    requires ChainInv(g, s, cameFrom, visited, order)
    requires cur !in visited && (cur == s || cur in cameFrom)
    ensures ChainInv(g, s, cameFrom, visited + {cur}, order[cur := |visited|])
  {
    var visited', order' := visited + {cur}, order[cur := |visited|];
    ParentKeepsOnVisit(g, s, cameFrom, visited, cur);
    assert |visited'| == |visited| + 1;
    forall v | v in visited' ensures (v == s || v in cameFrom) && v in order' && order'[v] < |visited'| {
      if v != cur {
        assert v in visited;
      }
    }
    forall v | v in visited' && v in cameFrom ensures order'[cameFrom[v]] < order'[v] {
      var p := cameFrom[v];
      assert p in visited && p != cur;
      if v != cur {
        assert v in visited;
      }
    }
  }

  /** Dequeuing a fresh cell other than the end tile and marking it visited
      keeps the bookkeeping, except that the cell's own neighbours are yet to
      be explored. */
  lemma VisitKeeps(g: PathGrid, s: Cell, e: Cell, open: seq<Entry>, cameFrom: map<Cell, Cell>,
                   gScore: map<Cell, real>, visited: set<Cell>, order: map<Cell, nat>, i: nat)
    requires SearchInv(g, s, e, open, cameFrom, gScore, visited, order)
    requires i < |open| && open[i].cell !in visited && open[i].cell != e
    ensures SearchInv(g, s, e, Remove(open, i), cameFrom, gScore, visited + {open[i].cell},
                      order[open[i].cell := |visited|])
  {
    var cur := open[i].cell;
    QueueKeepsOnVisit(s, open, cameFrom, gScore, visited, i);
    ChainKeepsOnVisit(g, s, cameFrom, visited, order, cur);
    if visited == {} {
      assert forall c :: c !in cameFrom;
    }
  }

  /** Dequeuing the end tile: the visited set with it added satisfies what
      the path reconstruction needs. */
  lemma GoalKeeps(g: PathGrid, s: Cell, e: Cell, open: seq<Entry>, cameFrom: map<Cell, Cell>,
                  gScore: map<Cell, real>, visited: set<Cell>, order: map<Cell, nat>, i: nat)
    requires SearchInv(g, s, e, open, cameFrom, gScore, visited, order)
    requires i < |open| && open[i].cell == e
    ensures ChainInv(g, s, cameFrom, visited + {e}, order[e := |visited|])
  {
    QueueKeepsOnVisit(s, open, cameFrom, gScore, visited, i);
    ChainKeepsOnVisit(g, s, cameFrom, visited, order, e);
  }

  /** The cells the closure covers grow with the visited set. */
  lemma ClosedOnVisit(g: PathGrid, visited: set<Cell>, gScore: map<Cell, real>, cur: Cell)
    requires ClosedOn(g, visited, visited, gScore)
    ensures ClosedOn(g, (visited + {cur}) - {cur}, visited + {cur}, gScore)
  {
  }

  /** Recording the better route cur → n to an unvisited walkable neighbour
      keeps the bookkeeping. */
  lemma RelaxKeeps(g: PathGrid, s: Cell, e: Cell, open: seq<Entry>, cameFrom: map<Cell, Cell>,
                   gScore: map<Cell, real>, visited: set<Cell>, order: map<Cell, nat>,
                   cur: Cell, n: Cell, t: real, f: real)
    requires SearchInv(g, s, e, open, cameFrom, gScore, visited, order)
    requires cur in visited && IsStep(cur, n) && IsWalkable(g, n.x, n.y) && n !in visited
    ensures SearchInv(g, s, e, open + [Entry(n, f)], cameFrom[n := cur], gScore[n := t], visited, order)
  {
    OpenAppend(open, Entry(n, f));
  }

  /** Every walkable neighbour of a cell of w is visited or has a g-score. */
  ghost predicate ClosedOn(g: PathGrid, w: set<Cell>, visited: set<Cell>, gScore: map<Cell, real>)
  {
    forall v, n :: v in w && IsStep(v, n) && IsWalkable(g, n.x, n.y) ==> n in visited || n in gScore
  }

  /** No walkable path leaves a set of cells closed under walkable steps. */
  lemma {:induction false} NoEscape(g: PathGrid, w: set<Cell>, p: seq<Cell>, s: Cell, e: Cell)
    requires s in w && e !in w
    requires forall v, n :: v in w && IsStep(v, n) && IsWalkable(g, n.x, n.y) ==> n in w
    ensures !IsWalkPath(g, p, s, e)
  {
    if IsWalkPath(g, p, s, e) {
      var k := 0;
      while k < |p| - 1
        invariant 0 <= k < |p| && p[k] in w
      {
        assert IsStep(p[k], p[k + 1]) && IsWalkable(g, p[k + 1].x, p[k + 1].y);
        k := k + 1;
      }
      assert false;
    }
  }

  /** When the queue runs dry the end tile is unreachable from the start. */
  lemma ExhaustedUnreachable(g: PathGrid, s: Cell, e: Cell, cameFrom: map<Cell, Cell>,
                             gScore: map<Cell, real>, visited: set<Cell>, order: map<Cell, nat>)
    requires SearchInv(g, s, e, [], cameFrom, gScore, visited, order)
    requires ClosedOn(g, visited, visited, gScore)
    requires visited != {}
    ensures !Reachable(g, s, e)
  {
    assert OpenCells([]) == {};
    forall p ensures !IsWalkPath(g, p, s, e) {
      NoEscape(g, visited, p, s, e);
    }
  }

  /** One neighbour of an expansion: skipped when unwalkable or visited,
      otherwise its route through cur is recorded when it is the first or a
      cheaper one. */
  method TryNeighbour(g: PathGrid, h: (int, int, int, int) -> real, cur: Cell, ghost s: Cell, e: Cell,
                      open0: seq<Entry>, cameFrom0: map<Cell, Cell>, gScore0: map<Cell, real>,
                      visited: set<Cell>, ghost order: map<Cell, nat>, k: int)
    returns (open: seq<Entry>, cameFrom: map<Cell, Cell>, gScore: map<Cell, real>)
    requires SearchInv(g, s, e, open0, cameFrom0, gScore0, visited, order)
    requires cur in visited && cur in gScore0 && 0 <= k < |Dirs|
    ensures SearchInv(g, s, e, open, cameFrom, gScore, visited, order)
    ensures gScore0.Keys <= gScore.Keys
    ensures IsWalkable(g, Neighbour(cur, k).x, Neighbour(cur, k).y) ==>
              Neighbour(cur, k) in visited || Neighbour(cur, k) in gScore
  {
    open, cameFrom, gScore := open0, cameFrom0, gScore0;
    var dir := Dirs[k];
    var nx := cur.x + dir.0;
    var ny := cur.y + dir.1;
    var neighbour := Cell(nx, ny);
    assert neighbour == Neighbour(cur, k);
    if !IsWalkable(g, nx, ny) || neighbour in visited {
      return;
    }
    var stepCost := StepCost(dir);
    var tentativeG := gScore[cur] + stepCost;
    if neighbour !in gScore || tentativeG < gScore[neighbour] {
      DirsAreSteps(cur, neighbour);
      var fScore := tentativeG + h(nx, ny, e.x, e.y);
      RelaxKeeps(g, s, e, open, cameFrom, gScore, visited, order, cur, neighbour, tentativeG, fScore);
      cameFrom := cameFrom[neighbour := cur];
      gScore := gScore[neighbour := tentativeG];
      open := open + [Entry(neighbour, fScore)];
    }
  }

  /** The first k neighbours of cur are visited or scored when walkable. */
  ghost predicate Covered(g: PathGrid, cur: Cell, k: int, visited: set<Cell>, gScore: map<Cell, real>)
  {
    forall j :: 0 <= j < k && j < |Dirs| && IsWalkable(g, Neighbour(cur, j).x, Neighbour(cur, j).y) ==>
      Neighbour(cur, j) in visited || Neighbour(cur, j) in gScore
  }

  lemma CoveredStep(g: PathGrid, cur: Cell, k: int, visited: set<Cell>, gScore: map<Cell, real>,
                    gScore': map<Cell, real>)
    requires 0 <= k < |Dirs| && Covered(g, cur, k, visited, gScore) && gScore.Keys <= gScore'.Keys
    requires IsWalkable(g, Neighbour(cur, k).x, Neighbour(cur, k).y) ==>
               Neighbour(cur, k) in visited || Neighbour(cur, k) in gScore'
    ensures Covered(g, cur, k + 1, visited, gScore')
  {
  }

  /** Once all eight neighbours of cur are covered, the closure extends to cur. */
  lemma CoveredCloses(g: PathGrid, cur: Cell, visited: set<Cell>, gScore0: map<Cell, real>, gScore: map<Cell, real>)
    requires ClosedOn(g, visited - {cur}, visited, gScore0) && gScore0.Keys <= gScore.Keys
    requires Covered(g, cur, |Dirs|, visited, gScore)
    ensures ClosedOn(g, visited, visited, gScore)
  {
    forall v, n | v in visited && IsStep(v, n) && IsWalkable(g, n.x, n.y) ensures n in visited || n in gScore {
      if v == cur {
        DirsAreSteps(cur, n);
      } else {
        assert v in visited - {cur};
      }
    }
  }

  /** The neighbour loop of one expansion. */
  method Expand(g: PathGrid, h: (int, int, int, int) -> real, cur: Cell, ghost s: Cell, e: Cell,
                open0: seq<Entry>, cameFrom0: map<Cell, Cell>, gScore0: map<Cell, real>,
                visited: set<Cell>, ghost order: map<Cell, nat>)
    returns (open: seq<Entry>, cameFrom: map<Cell, Cell>, gScore: map<Cell, real>)
    requires SearchInv(g, s, e, open0, cameFrom0, gScore0, visited, order)
    requires cur in visited && cur in gScore0
    requires ClosedOn(g, visited - {cur}, visited, gScore0)
    ensures SearchInv(g, s, e, open, cameFrom, gScore, visited, order)
    ensures ClosedOn(g, visited, visited, gScore)
  {
    open, cameFrom, gScore := open0, cameFrom0, gScore0;
    for k := 0 to |Dirs|
      invariant SearchInv(g, s, e, open, cameFrom, gScore, visited, order)
      invariant gScore0.Keys <= gScore.Keys
      invariant Covered(g, cur, k, visited, gScore)
    {
      ghost var before := gScore;
      open, cameFrom, gScore := TryNeighbour(g, h, cur, s, e, open, cameFrom, gScore, visited, order, k);
      CoveredStep(g, cur, k, visited, before, gScore);
    }
    CoveredCloses(g, cur, visited, gScore0, gScore);
  }

  /** A chain read backwards from e: each cell is a visited walkable step
      neighbour of the one before it and was finalised earlier. */
  ghost predicate BackChain(g: PathGrid, rev: seq<Cell>, e: Cell, visited: set<Cell>, order: map<Cell, nat>)
  {
    && |rev| >= 1 && rev[0] == e
    && (forall i :: 0 <= i < |rev| ==> rev[i] in visited && rev[i] in order && IsWalkable(g, rev[i].x, rev[i].y))
    && (forall i, j :: 0 <= i && j == i + 1 && j < |rev| ==> IsStep(rev[j], rev[i]))
    && (forall i, j :: 0 <= i < j < |rev| ==> order[rev[j]] < order[rev[i]])
  }

  /** The parent of a visited cell is a visited, walkable, earlier-finalised
      step neighbour. */
  lemma ParentFacts(g: PathGrid, s: Cell, cameFrom: map<Cell, Cell>, visited: set<Cell>, order: map<Cell, nat>, c: Cell)
    requires ChainInv(g, s, cameFrom, visited, order) && c in visited && c in cameFrom
    ensures var p := cameFrom[c];
      p in visited && p in order && IsWalkable(g, p.x, p.y) && IsStep(p, c) && order[p] < order[c]
  {
    var p := cameFrom[c];
    assert p in visited;
  }

  /** Appending an earlier-finalised visited walkable step neighbour of the
      last cell extends the chain. */
  lemma ChainExtend(g: PathGrid, rev: seq<Cell>, e: Cell, visited: set<Cell>, order: map<Cell, nat>, parent: Cell)
    requires BackChain(g, rev, e, visited, order)
    requires parent in visited && parent in order && IsWalkable(g, parent.x, parent.y)
    requires IsStep(parent, rev[|rev| - 1]) && order[parent] < order[rev[|rev| - 1]]
    ensures BackChain(g, rev + [parent], e, visited, order)
  {
    var rev' := rev + [parent];
    forall i | 0 <= i < |rev'|
      ensures rev'[i] in visited && rev'[i] in order && IsWalkable(g, rev'[i].x, rev'[i].y)
    {
      if i < |rev| {
        assert rev'[i] == rev[i];
      }
    }
    forall i, j | 0 <= i && j == i + 1 && j < |rev'| ensures IsStep(rev'[j], rev'[i]) {
      assert rev'[i] == rev[i];
      if j < |rev| {
        assert rev'[j] == rev[j];
      }
    }
    forall i, j | 0 <= i < j < |rev'| ensures order[rev'[j]] < order[rev'[i]] {
      assert rev'[i] == rev[i];
      if j < |rev| {
        assert rev'[j] == rev[j];
      } else if i < |rev| - 1 {
        assert order[rev[|rev| - 1]] < order[rev[i]];
      }
    }
  }

  /** A backward chain that ends at s is, reversed, a simple walkable path
      from s to e. */
  lemma ReversedChain(g: PathGrid, rev: seq<Cell>, s: Cell, e: Cell, visited: set<Cell>, order: map<Cell, nat>)
    requires BackChain(g, rev, e, visited, order) && rev[|rev| - 1] == s
    ensures IsWalkPath(g, Reversed(rev), s, e) && Distinct(Reversed(rev))
  {
    var path := Reversed(rev);
    forall i | 0 <= i < |path| ensures IsWalkable(g, path[i].x, path[i].y) {
      assert path[i] == rev[|rev| - 1 - i];
    }
    forall i, j | 0 <= i && j == i + 1 && j < |path| ensures IsStep(path[i], path[j]) {
      assert path[i] == rev[|rev| - 1 - i] && path[j] == rev[|rev| - 1 - j];
    }
    forall i, j | 0 <= i < j < |path| ensures path[i] != path[j] {
      assert order[rev[|rev| - 1 - i]] < order[rev[|rev| - 1 - j]];
    }
  }

  /** The walk back along cameFrom from the end tile, then reversed. */
  method Reconstruct(g: PathGrid, cameFrom: map<Cell, Cell>, ghost s: Cell, e: Cell,
                     ghost visited: set<Cell>, ghost order: map<Cell, nat>) returns (path: seq<Cell>)
    requires ChainInv(g, s, cameFrom, visited, order) && e in visited
    ensures IsWalkPath(g, path, s, e) && Distinct(path)
  {
    var current := e;
    var rev := [current];
    while current in cameFrom
      invariant BackChain(g, rev, e, visited, order) && rev[|rev| - 1] == current
      decreases order[current]
    {
      ParentFacts(g, s, cameFrom, visited, order, current);
      ChainExtend(g, rev, e, visited, order, cameFrom[current]);
      current := cameFrom[current];
      rev := rev + [current];
    }
    ReversedChain(g, rev, s, e, visited, order);
    path := Reversed(rev);
  }

  /** The cell the start or end point is rounded to and then snapped from. */
  function SnapPoint(g: PathGrid, p: Point2D): Option<Cell>
  {
    Snap(g, RoundHalfEven(p.x), RoundHalfEven(p.y))
  }

  function AllCells(g: PathGrid): set<Cell>
  {
    set x: int, y: int | 0 <= x < g.width && 0 <= y < g.height :: Cell(x, y)
  }

  lemma VisitShrinks(g: PathGrid, visited: set<Cell>, c: Cell)
    requires IsWalkable(g, c.x, c.y) && c !in visited
    ensures |AllCells(g) - (visited + {c})| < |AllCells(g) - visited|
  {
    assert c == Cell(c.x, c.y);
    assert c in AllCells(g) - visited;
    assert AllCells(g) - (visited + {c}) == (AllCells(g) - visited) - {c};
  }

  /** The snapping of both ends: each point rounded half to even, then
      snapped within radius 5, falling back to radius 15. */
  method SnapEnds(g: PathGrid, start: Point2D, end: Point2D) returns (ok: bool, s: Cell, e: Cell)
    ensures ok <==> SnapPoint(g, start).Some? && SnapPoint(g, end).Some?
    ensures ok ==> Some(s) == SnapPoint(g, start) && Some(e) == SnapPoint(g, end) && IsWalkable(g, s.x, s.y)
  {
    var sx := RoundHalfEven(start.x);
    var sy := RoundHalfEven(start.y);
    var ex := RoundHalfEven(end.x);
    var ey := RoundHalfEven(end.y);
    e := Cell(0, 0);
    ok, s := TryGetNearestWalkable(g, sx, sy, 5);
    if !ok {
      ok, s := TryGetNearestWalkable(g, sx, sy, 15);
      if !ok {
        return;
      }
    }
    NearestFacts(g, sx, sy, 5);
    NearestFacts(g, sx, sy, 15);
    ok, e := TryGetNearestWalkable(g, ex, ey, 5);
    if !ok {
      ok, e := TryGetNearestWalkable(g, ex, ey, 15);
    }
  }

  /** The A* loop from tile s to tile e: a simple walkable path when one
      exists, and the empty list exactly when none does. */
  method Search(g: PathGrid, h: (int, int, int, int) -> real, s: Cell, e: Cell) returns (path: seq<Cell>)
    requires IsWalkable(g, s.x, s.y)
    ensures path != [] <==> Reachable(g, s, e)
    ensures path != [] ==> IsWalkPath(g, path, s, e) && Distinct(path)
  {
    var open := [Entry(s, h(s.x, s.y, e.x, e.y))];
    var cameFrom: map<Cell, Cell> := map[];
    var gScore: map<Cell, real> := map[s := 0.0];
    var visited: set<Cell> := {};
    ghost var order: map<Cell, nat> := map[];
    InitKeeps(g, s, e, open[0].priority);

    while |open| > 0
      invariant SearchInv(g, s, e, open, cameFrom, gScore, visited, order)
      invariant ClosedOn(g, visited, visited, gScore)
      invariant |open| == 0 ==> visited != {}
      decreases |AllCells(g) - visited|, |open|
    {
      var i := PopMin(open);
      var current := open[i].cell;
      if current in visited {
        StaleKeeps(g, s, e, open, cameFrom, gScore, visited, order, i);
        open := Remove(open, i);
        continue;
      }
      if current == e {
        GoalKeeps(g, s, e, open, cameFrom, gScore, visited, order, i);
        order := order[current := |visited|];
        visited := visited + {current};
        path := Reconstruct(g, cameFrom, s, e, visited, order);
        return;
      }
      VisitKeeps(g, s, e, open, cameFrom, gScore, visited, order, i);
      ClosedOnVisit(g, visited, gScore, current);
      VisitShrinks(g, visited, current);
      open := Remove(open, i);
      order := order[current := |visited|];
      visited := visited + {current};
      open, cameFrom, gScore := Expand(g, h, current, s, e, open, cameFrom, gScore, visited, order);
    }
    ExhaustedUnreachable(g, s, e, cameFrom, gScore, visited, order);
    path := [];
  }

  /** What FindPath promises of its result: the waypoints are the centres of
      a walkable 8-connected path with no repeated tile, from the snapped
      start tile to the snapped end tile; the list is empty exactly when a
      snap fails or no walkable path joins the two tiles. */
  ghost predicate PathFound(g: PathGrid, start: Point2D, end: Point2D, result: seq<Point2D>)
  {
    && (result != [] <==>
          SnapPoint(g, start).Some? && SnapPoint(g, end).Some?
          && Reachable(g, SnapPoint(g, start).value, SnapPoint(g, end).value))
    && (result != [] ==>
          result == Centers(Tiles(result))
          && IsWalkPath(g, Tiles(result), SnapPoint(g, start).value, SnapPoint(g, end).value)
          && Distinct(Tiles(result)))
  }

  /** FindPath: the waypoints are the centres of a walkable 8-connected path
      with no repeated tile, from the snapped start tile to the snapped end
      tile; the list is empty exactly when a snap fails or no walkable path
      joins the two tiles. */
  method FindPath(g: PathGrid, h: (int, int, int, int) -> real, start: Point2D, end: Point2D)
    returns (result: seq<Point2D>)
    ensures PathFound(g, start, end, result)
  {
    var ok, startTile, endTile := SnapEnds(g, start, end);
    if !ok {
      return [];
    }
    var path := Search(g, h, startTile, endTile);
    result := Centers(path);
    TilesOfCenters(path);
  }

  /** A snap fails exactly when nothing within Chebyshev distance 15 of the
      rounded point is walkable, and a successful one yields a walkable tile. */
  lemma SnapPointFacts(g: PathGrid, p: Point2D)
    ensures SnapPoint(g, p).None? <==>
              forall px, py :: Cheb(px - RoundHalfEven(p.x), py - RoundHalfEven(p.y)) <= 15 ==> !IsWalkable(g, px, py)
    ensures SnapPoint(g, p).Some? ==> IsWalkable(g, SnapPoint(g, p).value.x, SnapPoint(g, p).value.y)
  {
    SnapIsRadius15(g, RoundHalfEven(p.x), RoundHalfEven(p.y));
    NearestFacts(g, RoundHalfEven(p.x), RoundHalfEven(p.y), 15);
  }

  /** A non-empty result runs from the centre of the start tile to the centre
      of the end tile through walkable tiles, one grid step at a time. */
  lemma PathFoundShape(g: PathGrid, start: Point2D, end: Point2D, result: seq<Point2D>)
    requires PathFound(g, start, end, result) && result != []
    ensures result[0] == Center(SnapPoint(g, start).value)
    ensures result[|result| - 1] == Center(SnapPoint(g, end).value)
    ensures forall i :: 0 <= i < |result| ==> IsWalkable(g, CellOf(result[i]).x, CellOf(result[i]).y)
    ensures forall i :: 0 <= i < |result| - 1 ==> IsStep(CellOf(result[i]), CellOf(result[i + 1]))
  {
    var t := Tiles(result);
    assert forall i :: 0 <= i < |result| ==> t[i] == CellOf(result[i]);
    forall i | 0 <= i < |result| - 1 ensures IsStep(CellOf(result[i]), CellOf(result[i + 1])) {
      assert IsStep(t[i], t[i + 1]);
    }
  }

  /** When both ends snap to the same tile the result is that one waypoint. */
  lemma PathFoundSameTile(g: PathGrid, start: Point2D, end: Point2D, result: seq<Point2D>)
    requires PathFound(g, start, end, result)
    requires SnapPoint(g, start).Some? && SnapPoint(g, start) == SnapPoint(g, end)
    ensures result == [Center(SnapPoint(g, start).value)]
  {
    var c := SnapPoint(g, start).value;
    SnapPointFacts(g, start);
    assert IsWalkPath(g, [c], c, c);
    SingleTilePath(g, Tiles(result), c);
  }
}
