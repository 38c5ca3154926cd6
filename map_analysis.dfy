/** MapAnalysisService: finds ramps (clusters of walkable but unbuildable
    cells with a graded height profile) and choke points (cells in corridors
    at most three tiles wide) from the bit-packed pathing and placement grids
    and the byte-per-cell height map. */
module MapAnalysis {
  import opened Common
  import opened Ordering

  // ---------------------------------------------------------------------
  // Bit-packed decoders

  /** `(b >> shift) & 1` on the byte promoted to int: a shift of 8 or more
      leaves nothing. */
  predicate BitSet(b: bv8, shift: int)
    requires 0 <= shift
  {
    shift < 8 && ((b >> shift) & 1) == 1
  }

  /** IsBuildable: bounds-checked against the width and the placement grid's
      height, then bit 7 − (i % 8) of byte i / 8 with i = y·width + x, false
      past the end of the data. */
  predicate IsBuildable(x: int, y: int, width: int, placeHeight: int, data: seq<bv8>)
  {
    if x < 0 || y < 0 || x >= width || y >= placeHeight then false
    else
      var i := y * width + x;
      NonNegIndex(x, y, width);
      if i / 8 >= |data| then false else BitSet(data[i / 8], 7 - i % 8)
  }

  lemma NonNegIndex(x: int, y: int, width: int)
    requires 0 <= x && 0 <= y && 0 <= width
    ensures 0 <= y * width + x
  {
  }

  /** IsPathable: byte (y·width + x) / 8 but bit 7 − (x % 8), with C#'s
      truncating division and remainder and no guard, so the byte must exist. */
  predicate IsPathable(x: int, y: int, width: int, data: seq<bv8>)
    requires 0 <= TruncDiv(y * width + x, 8) < |data|
  {
    BitSet(data[TruncDiv(y * width + x, 8)], 7 - TruncMod(x, 8))
  }

  /** GetHeight: the unguarded byte at y·width + x. */
  function GetHeight(x: int, y: int, width: int, data: seq<bv8>): (h: int)
    requires 0 <= y * width + x < |data|
    ensures 0 <= h < 256 && h == data[y * width + x] as int
  {
    data[y * width + x] as int
  }

  /** When the width is a multiple of 8 the row offset y·width is too, so
      both decodings read the same bit. */
  lemma DecodingsAgreeOnAlignedWidth(x: int, y: int, width: int, placeHeight: int, data: seq<bv8>)
    requires 0 <= x < width && 0 <= y < placeHeight && width % 8 == 0
    requires (y * width + x) / 8 < |data|
    ensures IsBuildable(x, y, width, placeHeight, data) == IsPathable(x, y, width, data)
  {
    var i := y * width + x;
    NonNegIndex(x, y, width);
    AlignedRemainder(x, y, width);
    assert TruncDiv(i, 8) == i / 8 && TruncMod(x, 8) == i % 8;
    assert IsBuildable(x, y, width, placeHeight, data) == BitSet(data[i / 8], 7 - i % 8);
  }

  lemma AlignedRemainder(x: int, y: int, width: int)
    requires 0 <= x && 0 <= y && 0 <= width && width % 8 == 0
    ensures (y * width + x) % 8 == x % 8
  {
    var k := y * (width / 8);
    assert y * width == 8 * k by {
      assert width == 8 * (width / 8);
    }
    assert (8 * k + x) % 8 == x % 8;
  }

  /** Otherwise they can disagree: in a grid three cells wide, cell (0, 1) is
      bit 3 of byte 0 for IsBuildable but bit 0 of byte 0 for IsPathable. */
  lemma DecodingsDifferOnUnalignedWidth()
    ensures IsBuildable(0, 1, 3, 2, [16]) && !IsPathable(0, 1, 3, [16])
  {
  }

  /** The bytes of a bit-packed plane cover `rows` full rows of `width` cells. */
  predicate Covers(width: int, rows: int, len: int)
  {
    0 <= width && 0 <= rows && width * rows <= 8 * len
  }

  lemma CoveredIndex(x: int, y: int, width: int, rows: int, len: int)
    requires Covers(width, rows, len)
    requires 0 <= x < width && 0 <= y < rows
    ensures 0 <= y * width + x && 0 <= TruncDiv(y * width + x, 8) < len
  {
    assert y * width + x < (y + 1) * width;
    assert (y + 1) * width <= rows * width;
  }

  lemma CoversFewerRows(width: int, rows: int, rows': int, len: int)
    requires Covers(width, rows, len) && 0 <= rows' <= rows
    ensures Covers(width, rows', len)
  {
    assert width * rows' <= width * rows;
  }

  // ---------------------------------------------------------------------
  // Step 1: ramp candidates

  /** What the candidate scan reads: the pathing bit of every interior cell
      (rows 1 .. height − 2). */
  predicate ScanReadable(width: int, height: int, pathing: seq<bv8>)
  {
    width < 3 || height < 3 || Covers(width, height - 1, |pathing|)
  }

  /** An interior cell that is pathable but not buildable. */
  predicate IsCandidate(x: int, y: int, width: int, height: int, placeHeight: int,
                        pathing: seq<bv8>, placement: seq<bv8>)
    requires ScanReadable(width, height, pathing)
  {
    1 <= x < width - 1 && 1 <= y < height - 1 &&
    (CoveredIndex(x, y, width, height - 1, |pathing|);
     IsPathable(x, y, width, pathing) && !IsBuildable(x, y, width, placeHeight, placement))
  }

  /** The candidates the inner loop adds for column x, rows 1 .. yEnd − 1. */
  function CandidateColumn(x: int, yEnd: int, width: int, height: int, placeHeight: int,
                           pathing: seq<bv8>, placement: seq<bv8>): seq<Cell>
    requires ScanReadable(width, height, pathing)
    decreases yEnd
  {
    if yEnd <= 1 then []
    else CandidateColumn(x, yEnd - 1, width, height, placeHeight, pathing, placement) +
         (if IsCandidate(x, yEnd - 1, width, height, placeHeight, pathing, placement)
          then [Cell(x, yEnd - 1)] else [])
  }

  /** The candidates both loops add for columns 1 .. xEnd − 1. */
  function CandidateBox(xEnd: int, width: int, height: int, placeHeight: int,
                        pathing: seq<bv8>, placement: seq<bv8>): seq<Cell>
    requires ScanReadable(width, height, pathing)
    decreases xEnd
  {
    if xEnd <= 1 then []
    else CandidateBox(xEnd - 1, width, height, placeHeight, pathing, placement) +
         CandidateColumn(xEnd - 1, height - 1, width, height, placeHeight, pathing, placement)
  }

  predicate CellLess(a: Cell, b: Cell)
  {
    a.x < b.x || (a.x == b.x && a.y < b.y)
  }

  predicate CellsOrdered(s: seq<Cell>)
  {
    forall i, j :: 0 <= i < j < |s| ==> CellLess(s[i], s[j])
  }

  lemma {:induction false} CandidateColumnFacts(x: int, yEnd: int, width: int, height: int,
                                              placeHeight: int, pathing: seq<bv8>, placement: seq<bv8>)
    requires ScanReadable(width, height, pathing)
    ensures forall c :: c in CandidateColumn(x, yEnd, width, height, placeHeight, pathing, placement) <==>
              c.x == x && c.y < yEnd && IsCandidate(c.x, c.y, width, height, placeHeight, pathing, placement)
    ensures CellsOrdered(CandidateColumn(x, yEnd, width, height, placeHeight, pathing, placement))
    decreases yEnd
  {
    if yEnd > 1 {
      CandidateColumnFacts(x, yEnd - 1, width, height, placeHeight, pathing, placement);
      var s := CandidateColumn(x, yEnd - 1, width, height, placeHeight, pathing, placement);
      var t: seq<Cell> := if IsCandidate(x, yEnd - 1, width, height, placeHeight, pathing, placement)
                          then [Cell(x, yEnd - 1)] else [];
      forall i, j | 0 <= i < j < |s + t| ensures CellLess((s + t)[i], (s + t)[j]) {
        if j >= |s| {
          assert (s + t)[i] in s;
        }
      }
    }
  }

  lemma {:induction false} CandidateBoxMembers(xEnd: int, width: int, height: int, placeHeight: int,
                                             pathing: seq<bv8>, placement: seq<bv8>)
    requires ScanReadable(width, height, pathing)
    ensures forall c :: c in CandidateBox(xEnd, width, height, placeHeight, pathing, placement) <==>
              c.x < xEnd && IsCandidate(c.x, c.y, width, height, placeHeight, pathing, placement)
    decreases xEnd
  {
    if xEnd > 1 {
      CandidateBoxMembers(xEnd - 1, width, height, placeHeight, pathing, placement);
      CandidateColumnFacts(xEnd - 1, height - 1, width, height, placeHeight, pathing, placement);
    }
  }

  lemma {:induction false} CandidateBoxOrdered(xEnd: int, width: int, height: int, placeHeight: int,
                                             pathing: seq<bv8>, placement: seq<bv8>)
    requires ScanReadable(width, height, pathing)
    ensures CellsOrdered(CandidateBox(xEnd, width, height, placeHeight, pathing, placement))
    decreases xEnd
  {
    if xEnd > 1 {
      CandidateBoxOrdered(xEnd - 1, width, height, placeHeight, pathing, placement);
      CandidateBoxMembers(xEnd - 1, width, height, placeHeight, pathing, placement);
      CandidateColumnFacts(xEnd - 1, height - 1, width, height, placeHeight, pathing, placement);
      var s := CandidateBox(xEnd - 1, width, height, placeHeight, pathing, placement);
      var t := CandidateColumn(xEnd - 1, height - 1, width, height, placeHeight, pathing, placement);
      OrderedJoin(s, t, xEnd - 1);
    }
  }

  /** Cells of earlier columns, then cells of column x, in order, stay in order. */
  lemma OrderedJoin(s: seq<Cell>, t: seq<Cell>, x: int)
    requires CellsOrdered(s) && CellsOrdered(t)
    requires forall c :: c in s ==> c.x < x
    requires forall c :: c in t ==> c.x == x
    ensures CellsOrdered(s + t)
  {
    forall i, j | 0 <= i < j < |s + t| ensures CellLess((s + t)[i], (s + t)[j]) {
      if i < |s| && j >= |s| {
        assert (s + t)[i] in s;
        assert (s + t)[j] in t;
      } else if i >= |s| {
        assert (s + t)[i] == t[i - |s|] && (s + t)[j] == t[j - |s|];
      }
    }
  }

  /** The candidate list holds each interior cell that is pathable and not
      buildable, exactly once, in x-major then y order; border cells never
      appear. */
  lemma CandidatesSpec(width: int, height: int, placeHeight: int, pathing: seq<bv8>, placement: seq<bv8>)
    requires ScanReadable(width, height, pathing)
    ensures var cs := CandidateBox(width - 1, width, height, placeHeight, pathing, placement);
      && CellsOrdered(cs)
      && (forall c :: c in cs <==>
            1 <= c.x < width - 1 && 1 <= c.y < height - 1 &&
            IsCandidate(c.x, c.y, width, height, placeHeight, pathing, placement))
  {
    CandidateBoxMembers(width - 1, width, height, placeHeight, pathing, placement);
    CandidateBoxOrdered(width - 1, width, height, placeHeight, pathing, placement);
  }

  // ---------------------------------------------------------------------
  // Step 2: clustering

  /** The adjacency the clustering uses: both offsets at most 2. */
  predicate Near(a: Cell, b: Cell)
  {
    Abs(a.x - b.x) <= 2 && Abs(a.y - b.y) <= 2
  }

  /** rampCells.Where(c => !processed.Contains(c) && near current), in list order. */
  function NearbyUnprocessed(cells: seq<Cell>, processed: set<Cell>, current: Cell): (r: seq<Cell>)
    ensures forall d :: d in r <==> d in cells && d !in processed && Near(d, current)
  {
    if cells == [] then []
    else
      assert forall d :: d in cells <==> d == cells[0] || d in cells[1..];
      (if cells[0] !in processed && Near(cells[0], current) then [cells[0]] else []) +
      NearbyUnprocessed(cells[1..], processed, current)
  }

  predicate NoDup(s: seq<Cell>)
  {
    forall i, j :: 0 <= i < j < |s| ==> s[i] != s[j]
  }

  /** Every input cell near a member of the cluster is itself a member. */
  predicate ClusterClosed(cluster: seq<Cell>, cells: seq<Cell>)
  {
    forall c, d :: c in cluster && d in cells && Near(c, d) ==> d in cluster
  }

  /** The processed set has no near neighbour outside it. */
  predicate SetClosed(s: set<Cell>, cells: seq<Cell>)
  {
    forall c, d :: c in s && d in cells && Near(c, d) ==> d in s
  }

  /** Every cell after the first is near an earlier one: the order in which
      the search reaches the cells of one group. */
  predicate Linked(cluster: seq<Cell>)
  {
    forall k :: 0 < k < |cluster| ==> exists j :: 0 <= j < k && Near(cluster[j], cluster[k])
  }

  /** Some cluster holds c. */
  predicate InClusters(clusters: seq<seq<Cell>>, c: Cell)
  {
    exists i :: 0 <= i < |clusters| && c in clusters[i]
  }

  /** c lies in a closed group of fewer than three input cells: the group the
      search found from c was discarded as too small. */
  ghost predicate Dropped(c: Cell, cells: seq<Cell>)
  {
    exists g: seq<Cell> :: c in g && |g| < 3 && ClusterClosed(g, cells) && (forall d :: d in g ==> d in cells)
  }

  /** Every cell of every cluster is an input cell. */
  predicate DrawnFrom(clusters: seq<seq<Cell>>, cells: seq<Cell>)
  {
    forall i, c :: 0 <= i < |clusters| && c in clusters[i] ==> c in cells
  }

  /** What ClusterRampCells promises of its result for a given input: the
      clusters are the connected groups of three or more input cells under
      Near, each listed once and without repetition, and every other input
      cell belongs to a group of fewer than three. */
  ghost predicate IsClustering(clusters: seq<seq<Cell>>, cells: seq<Cell>)
  {
    && (forall i :: 0 <= i < |clusters| ==> |clusters[i]| >= 3 && NoDup(clusters[i]))
    && DrawnFrom(clusters, cells)
    && (forall i :: 0 <= i < |clusters| ==> ClusterClosed(clusters[i], cells))
    && (forall i :: 0 <= i < |clusters| ==> Linked(clusters[i]))
    && (forall i, j, c :: 0 <= i < j < |clusters| && c in clusters[i] ==> c !in clusters[j])
    && (forall c :: c in cells ==> InClusters(clusters, c) || Dropped(c, cells))
  }

  /** The search's frontier invariant: a near neighbour of a processed cell
      is processed or still queued. */
  predicate Frontier(processed: set<Cell>, toProcess: seq<Cell>, cells: seq<Cell>)
  {
    forall c, d :: c in processed && d in cells && Near(c, d) ==> d in processed || d in toProcess
  }

  /** Processing the head of the queue keeps the frontier invariant. */
  lemma FrontierStep(processed: set<Cell>, toProcess: seq<Cell>, cells: seq<Cell>)
    requires |toProcess| > 0 && toProcess[0] !in processed
    requires Frontier(processed, toProcess, cells)
    ensures Frontier(processed + {toProcess[0]},
                     toProcess[1..] + NearbyUnprocessed(cells, processed + {toProcess[0]}, toProcess[0]), cells)
  {
    var current := toProcess[0];
    var p' := processed + {current};
    var n := NearbyUnprocessed(cells, p', current);
    forall c, d | c in p' && d in cells && Near(c, d)
      ensures d in p' || d in toProcess[1..] + n
    {
      if c == current {
        assert Near(d, current);
      } else if d !in p' {
        assert d in toProcess && d != toProcess[0];
      }
    }
  }

  /** The search's loop invariant, for the set of input cells `all`, the
      processed set `start` it began from and the seed `cell`. */
  ghost predicate GrowInv(rampCells: seq<Cell>, all: set<Cell>, start: set<Cell>, cell: Cell,
                          processed: set<Cell>, cluster: seq<Cell>, toProcess: seq<Cell>)
  {
    && start <= processed <= all
    && (forall q :: q in toProcess ==> q in all)
    && (forall c :: c in cluster <==> c in processed && c !in start)
    && NoDup(cluster)
    && Frontier(processed, toProcess, rampCells)
    && (cell in processed || cell in toProcess)
  }

  /** Visiting an unprocessed head keeps the invariant. */
  lemma VisitKeeps(rampCells: seq<Cell>, all: set<Cell>, start: set<Cell>, cell: Cell,
                   processed: set<Cell>, cluster: seq<Cell>, toProcess: seq<Cell>)
    requires all == set c | c in rampCells
    requires GrowInv(rampCells, all, start, cell, processed, cluster, toProcess)
    requires |toProcess| > 0 && toProcess[0] !in processed
    ensures var current := toProcess[0];
      GrowInv(rampCells, all, start, cell, processed + {current}, cluster + [current],
              toProcess[1..] + NearbyUnprocessed(rampCells, processed + {current}, current))
    ensures all - (processed + {toProcess[0]}) < all - processed
  {
    var current := toProcess[0];
    FrontierStep(processed, toProcess, rampCells);
    assert current in all;
    assert current in all - processed;
    var c' := cluster + [current];
    forall i, j | 0 <= i < j < |c'| ensures c'[i] != c'[j] {
      if j == |cluster| {
        assert c'[i] in cluster;
      }
    }
  }

  /** Dropping an already processed head keeps the invariant. */
  lemma SkipKeeps(rampCells: seq<Cell>, all: set<Cell>, start: set<Cell>, cell: Cell,
                  processed: set<Cell>, cluster: seq<Cell>, toProcess: seq<Cell>)
    requires GrowInv(rampCells, all, start, cell, processed, cluster, toProcess)
    requires |toProcess| > 0 && toProcess[0] in processed
    ensures GrowInv(rampCells, all, start, cell, processed, cluster, toProcess[1..])
  {
    forall c, d | c in processed && d in rampCells && Near(c, d)
      ensures d in processed || d in toProcess[1..]
    {
      if d !in processed {
        assert d in toProcess && d != toProcess[0];
      }
    }
  }

  /** The search's order invariant for the seed `cell`: before the first
      visit the queue holds just the seed; after it the cluster starts with
      the seed, and every queued cell is near a cell of the cluster. */
  predicate Reached(cell: Cell, cluster: seq<Cell>, toProcess: seq<Cell>)
  {
    && Linked(cluster)
    && ((cluster == [] && toProcess == [cell]) ||
        (cluster != [] && cluster[0] == cell &&
         forall q :: q in toProcess ==> exists j :: 0 <= j < |cluster| && Near(cluster[j], q)))
  }

  /** Visiting the head appends a cell near an earlier one and queues cells
      near it. */
  lemma ReachedVisit(cell: Cell, cluster: seq<Cell>, toProcess: seq<Cell>,
                     rampCells: seq<Cell>, processed: set<Cell>)
    requires Reached(cell, cluster, toProcess) && |toProcess| > 0
    ensures Reached(cell, cluster + [toProcess[0]],
                    toProcess[1..] + NearbyUnprocessed(rampCells, processed, toProcess[0]))
  {
    var current := toProcess[0];
    var c' := cluster + [current];
    var t' := toProcess[1..] + NearbyUnprocessed(rampCells, processed, current);
    forall k | 0 < k < |c'| ensures exists j :: 0 <= j < k && Near(c'[j], c'[k]) {
      if k < |cluster| {
        var j :| 0 <= j < k && Near(cluster[j], cluster[k]);
        assert c'[j] == cluster[j];
      } else {
        assert current in toProcess;
        var j :| 0 <= j < |cluster| && Near(cluster[j], current);
        assert c'[j] == cluster[j];
      }
    }
    assert c'[0] == cell;
    forall q | q in t' ensures exists j :: 0 <= j < |c'| && Near(c'[j], q) {
      if q in toProcess[1..] {
        if cluster == [] {
          assert false;
        } else {
          assert q in toProcess;
          var j :| 0 <= j < |cluster| && Near(cluster[j], q);
          assert c'[j] == cluster[j];
        }
      } else {
        assert Near(q, current);
        assert c'[|cluster|] == current;
      }
    }
  }

  /** Dropping the head of the queue once the cluster has begun keeps the
      order invariant. */
  lemma ReachedSkip(cell: Cell, cluster: seq<Cell>, toProcess: seq<Cell>)
    requires Reached(cell, cluster, toProcess) && |toProcess| > 0 && cluster != []
    ensures Reached(cell, cluster, toProcess[1..])
  {
    assert forall q :: q in toProcess[1..] ==> q in toProcess;
  }

  /** The breadth-first search from one seed cell: every dequeued
      unprocessed cell joins the cluster and enqueues the unprocessed input
      cells near it. The cells it adds are exactly the new cluster, and the
      grown processed set is again closed. */
  method GrowCluster(rampCells: seq<Cell>, processed: set<Cell>, cell: Cell)
    returns (cluster: seq<Cell>, processed': set<Cell>)
    requires cell in rampCells && cell !in processed
    requires forall c :: c in processed ==> c in rampCells
    requires SetClosed(processed, rampCells)
    ensures processed <= processed' && cell in processed'
    ensures forall c :: c in processed' ==> c in rampCells
    ensures SetClosed(processed', rampCells)
    ensures forall c :: c in cluster <==> c in processed' && c !in processed
    ensures NoDup(cluster)
    ensures |cluster| > 0 && cluster[0] == cell && Linked(cluster)
  {
    ghost var all := set c | c in rampCells;
    processed' := processed;
    cluster := [];
    var toProcess: seq<Cell> := [cell];
    while |toProcess| > 0
      invariant GrowInv(rampCells, all, processed, cell, processed', cluster, toProcess)
      invariant Reached(cell, cluster, toProcess)
      decreases |all - processed'|, |toProcess|
    {
      var current := toProcess[0];
      if current in processed' {
        assert current in cluster || current in processed;
        SkipKeeps(rampCells, all, processed, cell, processed', cluster, toProcess);
        ReachedSkip(cell, cluster, toProcess);
        toProcess := toProcess[1..];
        continue;
      }
      VisitKeeps(rampCells, all, processed, cell, processed', cluster, toProcess);
      ReachedVisit(cell, cluster, toProcess, rampCells, processed' + {current});
      processed' := processed' + {current};
      cluster := cluster + [current];
      toProcess := toProcess[1..] + NearbyUnprocessed(rampCells, processed', current);
    }
  }

  /** A new cluster grown from a closed processed set is closed itself: a
      near neighbour that was already processed would have pulled the
      cluster's cell into the old set. */
  lemma NewClusterClosed(rampCells: seq<Cell>, before: set<Cell>, after: set<Cell>, cluster: seq<Cell>)
    requires SetClosed(before, rampCells) && SetClosed(after, rampCells)
    requires forall c :: c in after ==> c in rampCells
    requires forall c :: c in cluster <==> c in after && c !in before
    ensures ClusterClosed(cluster, rampCells)
  {
    forall c, d | c in cluster && d in rampCells && Near(c, d) ensures d in cluster {
      if d in before {
        assert Near(d, c);
      }
    }
  }

  /** Keeping a new cluster covers the cells it adds to the processed set. */
  lemma KeepCovers(clusters: seq<seq<Cell>>, cluster: seq<Cell>, before: set<Cell>, after: set<Cell>,
                   cells: seq<Cell>)
    requires forall c :: c in before ==> InClusters(clusters, c) || Dropped(c, cells)
    requires forall c :: c in cluster <==> c in after && c !in before
    ensures forall c :: c in after ==> InClusters(clusters + [cluster], c) || Dropped(c, cells)
  {
    var cs := clusters + [cluster];
    forall c | c in after ensures InClusters(cs, c) || Dropped(c, cells) {
      if c in before {
        if InClusters(clusters, c) {
          var i :| 0 <= i < |clusters| && c in clusters[i];
          assert cs[i] == clusters[i];
        }
      } else {
        assert cs[|clusters|] == cluster;
      }
    }
  }

  /** Discarding a small closed group still accounts for its cells. */
  lemma DropCovers(clusters: seq<seq<Cell>>, cluster: seq<Cell>, before: set<Cell>, after: set<Cell>,
                   cells: seq<Cell>)
    requires forall c :: c in before ==> InClusters(clusters, c) || Dropped(c, cells)
    requires forall c :: c in cluster <==> c in after && c !in before
    requires |cluster| < 3 && ClusterClosed(cluster, cells)
    requires forall c :: c in after ==> c in cells
    ensures forall c :: c in after ==> InClusters(clusters, c) || Dropped(c, cells)
  {
    forall c | c in after && c !in before ensures Dropped(c, cells) {
      assert c in cluster;
    }
  }

  /** Breadth-first clustering: each unprocessed input cell seeds a search;
      clusters of three or more cells are kept, smaller ones dropped. */
  method ClusterRampCells(rampCells: seq<Cell>) returns (clusters: seq<seq<Cell>>)
    ensures |clusters| <= |rampCells|
    ensures IsClustering(clusters, rampCells)
  {
    clusters := [];
    var processed: set<Cell> := {};
    for k := 0 to |rampCells|
      invariant forall c :: c in processed ==> c in rampCells
      invariant SetClosed(processed, rampCells)
      invariant forall i :: 0 <= i < |clusters| ==> |clusters[i]| >= 3 && NoDup(clusters[i])
      invariant forall i, c :: 0 <= i < |clusters| && c in clusters[i] ==> c in processed
      invariant forall i :: 0 <= i < |clusters| ==> ClusterClosed(clusters[i], rampCells)
      invariant forall i :: 0 <= i < |clusters| ==> Linked(clusters[i])
      invariant forall i, j, c :: 0 <= i < j < |clusters| && c in clusters[i] ==> c !in clusters[j]
      invariant forall c :: c in processed ==> InClusters(clusters, c) || Dropped(c, rampCells)
      invariant forall i :: 0 <= i < k ==> rampCells[i] in processed
      invariant |clusters| <= k
    {
      var cell := rampCells[k];
      if cell in processed {
        continue;
      }
      var cluster, processed' := GrowCluster(rampCells, processed, cell);
      NewClusterClosed(rampCells, processed, processed', cluster);
      if |cluster| >= 3 {
        KeepCovers(clusters, cluster, processed, processed', rampCells);
        clusters := clusters + [cluster];
      } else {
        DropCovers(clusters, cluster, processed, processed', rampCells);
      }
      processed := processed';
    }
  }

  /** A closed group that holds the first cell of a linked sequence of input
      cells holds the first n of them. */
  lemma {:induction false} LinkedInsideClosed(g: seq<Cell>, h: seq<Cell>, cells: seq<Cell>, n: nat)
    requires Linked(g) && 0 < n <= |g| && g[0] in h
    requires ClusterClosed(h, cells) && forall d :: d in g ==> d in cells
    ensures forall k :: 0 <= k < n ==> g[k] in h
  {
    if n > 1 {
      LinkedInsideClosed(g, h, cells, n - 1);
      var j :| 0 <= j < n - 1 && Near(g[j], g[n - 1]);
      assert g[j] in h && g[n - 1] in cells;
    }
  }

  /** Connected groups of at least three distinct input cells are never
      dropped: the cluster holding the first of them holds them all. */
  lemma LargeGroupClustered(clusters: seq<seq<Cell>>, cells: seq<Cell>, g: seq<Cell>)
    requires IsClustering(clusters, cells)
    requires |g| >= 3 && NoDup(g) && Linked(g) && forall d :: d in g ==> d in cells
    ensures exists i :: 0 <= i < |clusters| && forall d :: d in g ==> d in clusters[i]
  {
    NotDropped(g, cells);
    assert g[0] in cells;
    var i :| 0 <= i < |clusters| && g[0] in clusters[i];
    LinkedInsideClosed(g, clusters[i], cells, |g|);
  }

  /** No closed group of fewer than three cells holds the start of a linked
      sequence of three distinct input cells. */
  lemma NotDropped(g: seq<Cell>, cells: seq<Cell>)
    requires |g| >= 3 && NoDup(g) && Linked(g) && forall d :: d in g ==> d in cells
    ensures !Dropped(g[0], cells)
  {
    forall h | g[0] in h && ClusterClosed(h, cells) && (forall d :: d in h ==> d in cells)
      ensures |h| >= 3
    {
      LinkedInsideClosed(g, h, cells, 3);
      assert g[0] != g[1] && g[0] != g[2] && g[1] != g[2];
      assert g[0] in h && g[1] in h && g[2] in h;
    }
  }

  /** Cells of different clusters are never near each other. */
  lemma ClustersSeparated(clusters: seq<seq<Cell>>, cells: seq<Cell>, i: int, j: int, c: Cell, d: Cell)
    requires IsClustering(clusters, cells)
    requires 0 <= i < |clusters| && 0 <= j < |clusters| && i != j
    requires c in clusters[i] && d in clusters[j]
    ensures !Near(c, d)
  {
    assert d in cells;
    assert d !in clusters[i];
  }

  /** Two groups of three, ten columns apart, cannot be one cluster. */
  lemma DistantGroupsNotMerged()
    ensures var six := [Cell(0, 0), Cell(0, 1), Cell(0, 2), Cell(10, 0), Cell(10, 1), Cell(10, 2)];
      !IsClustering([six], six)
  {
    var six := [Cell(0, 0), Cell(0, 1), Cell(0, 2), Cell(10, 0), Cell(10, 1), Cell(10, 2)];
    assert !Near(six[0], six[3]) && !Near(six[1], six[3]) && !Near(six[2], six[3]);
    assert !(exists j :: 0 <= j < 3 && Near(six[j], six[3]));
    assert [six][0] == six;
  }

  /** A connected group of three cells cannot be left out. */
  lemma ThreeInARowKept()
    ensures var three := [Cell(0, 0), Cell(0, 1), Cell(0, 2)];
      !IsClustering([], three)
  {
    var three := [Cell(0, 0), Cell(0, 1), Cell(0, 2)];
    if IsClustering([], three) {
      assert Near(three[0], three[1]) && Near(three[1], three[2]);
      assert Linked(three);
      LargeGroupClustered([], three, three);
    }
  }

  // ---------------------------------------------------------------------
  // Step 3: ramp validation

  /** Every cell of a cluster has its height byte (required only for
      clusters of four or more; smaller ones are rejected before any read). */
  predicate HeightsReadable(cluster: seq<Cell>, width: int, heightData: seq<bv8>)
  {
    |cluster| >= 4 ==>
      forall i :: 0 <= i < |cluster| ==> 0 <= cluster[i].y * width + cluster[i].x < |heightData|
  }

  function Heights(cluster: seq<Cell>, width: int, heightData: seq<bv8>): (hs: seq<int>)
    requires forall i :: 0 <= i < |cluster| ==> 0 <= cluster[i].y * width + cluster[i].x < |heightData|
    ensures |hs| == |cluster|
    ensures forall i :: 0 <= i < |cluster| ==> hs[i] == GetHeight(cluster[i].x, cluster[i].y, width, heightData)
  {
    seq(|cluster|, i requires 0 <= i < |cluster| => GetHeight(cluster[i].x, cluster[i].y, width, heightData))
  }

  /** Skip(n / 4).Take(n / 2) of the sorted heights. */
  function Middle(sorted: seq<int>): (m: seq<int>)
    ensures |m| == |sorted| / 2
    ensures forall k :: 0 <= k < |m| ==> m[k] in sorted
  {
    sorted[|sorted| / 4 .. |sorted| / 4 + |sorted| / 2]
  }

  /** The progressive-slope test, in the source's mixed int/double arithmetic
      (the double 0.2 is taken as the exact real 0.2). */
  predicate IsIntermediate(h: int, lo: int, hi: int, diff: int)
  {
    h as real > lo as real + diff as real * 0.2 && h as real < hi as real - diff as real * 0.2
  }

  predicate HasProgressiveSlope(middle: seq<int>, lo: int, hi: int, diff: int)
  {
    exists i :: 0 <= i < |middle| && IsIntermediate(middle[i], lo, hi, diff)
  }

  /** The verdict IsValidRamp reaches from the statistics of the heights of
      a cluster of four or more cells (their minimum, maximum, number of
      distinct values and the middle half of them in sorted order): a spread
      of 8 .. 100, at least 2 distinct heights (3 when the spread is 16 or
      more), and for spreads of 16 or more a middle height strictly inside the
      central 60% of the spread. */
  predicate Verdict(lo: int, hi: int, distinct: int, middle: seq<int>)
  {
    var diff := hi - lo;
    if diff < 8 then false
    else if diff > 100 then false
    else if distinct < (if diff >= 16 then 3 else 2) then false
    else if diff >= 16 then HasProgressiveSlope(middle, lo, hi, diff)
    else true
  }

  predicate HeightsVerdict(hs: seq<int>)
    requires |hs| > 0
  {
    Verdict(SeqMin(hs), SeqMax(hs), DistinctCount(hs), Middle(SortInts(hs)))
  }

  /** IsValidRamp: clusters of fewer than four cells are rejected before any
      height is read. */
  predicate IsValidRamp(cluster: seq<Cell>, width: int, heightData: seq<bv8>)
    requires HeightsReadable(cluster, width, heightData)
  {
    if |cluster| < 4 then false
    else HeightsVerdict(Heights(cluster, width, heightData))
  }

  /** The same slope test over integers: 5h > 5·lo + diff and 5h < 5·hi − diff. */
  lemma IntermediateIntegerForm(h: int, lo: int, hi: int, diff: int)
    ensures IsIntermediate(h, lo, hi, diff) <==> 5 * h > 5 * lo + diff && 5 * h < 5 * hi - diff
  {
  }

  lemma IntermediateInside(h: int, lo: int, hi: int)
    requires lo <= hi && IsIntermediate(h, lo, hi, hi - lo)
    ensures lo < h < hi
  {
  }

  /** A reference statement of the acceptance rule with the slope test in
      integers and written as one conjunction. */
  predicate RuleHolds(lo: int, hi: int, distinct: int, middle: seq<int>)
  {
    var diff := hi - lo;
    && 8 <= diff <= 100
    && distinct >= (if diff >= 16 then 3 else 2)
    && (diff >= 16 ==>
          exists i :: 0 <= i < |middle| && 5 * middle[i] > 5 * lo + diff && 5 * middle[i] < 5 * hi - diff)
  }

  lemma VerdictRule(lo: int, hi: int, distinct: int, middle: seq<int>)
    ensures Verdict(lo, hi, distinct, middle) <==> RuleHolds(lo, hi, distinct, middle)
  {
    forall i | 0 <= i < |middle| ensures IsIntermediate(middle[i], lo, hi, hi - lo) <==>
        5 * middle[i] > 5 * lo + (hi - lo) && 5 * middle[i] < 5 * hi - (hi - lo) {
      IntermediateIntegerForm(middle[i], lo, hi, hi - lo);
    }
  }

  predicate RampRule(hs: seq<int>)
    requires |hs| > 0
  {
    RuleHolds(SeqMin(hs), SeqMax(hs), DistinctCount(hs), Middle(SortInts(hs)))
  }

  /** IsValidRamp accepts exactly the clusters of four or more cells whose
      heights satisfy the integer rule. */
  lemma ValidRampRule(cluster: seq<Cell>, width: int, heightData: seq<bv8>)
    requires HeightsReadable(cluster, width, heightData)
    ensures IsValidRamp(cluster, width, heightData) <==>
              |cluster| >= 4 && RampRule(Heights(cluster, width, heightData))
  {
    if |cluster| >= 4 {
      var hs := Heights(cluster, width, heightData);
      VerdictRule(SeqMin(hs), SeqMax(hs), DistinctCount(hs), Middle(SortInts(hs)));
    }
  }

  /** A height that passes the slope test lies strictly between the
      minimum and the maximum, so together with them it makes three distinct
      heights. */
  lemma SlopeImpliesThreeLevels(hs: seq<int>, h: int)
    requires |hs| > 0 && h in hs
    requires IsIntermediate(h, SeqMin(hs), SeqMax(hs), SeqMax(hs) - SeqMin(hs))
    ensures DistinctCount(hs) >= 3
  {
    MinAtMostMax(hs);
    IntermediateInside(h, SeqMin(hs), SeqMax(hs));
    ThreeLevels(hs, h);
  }

  /** For spreads of 16 or more the verdict is the distinct-height check
      together with the slope test, so when the slope test forces three
      distinct heights the verdict is the slope test alone. */
  lemma VerdictAtLargeSpread(lo: int, hi: int, distinct: int, middle: seq<int>)
    requires 16 <= hi - lo <= 100
    requires HasProgressiveSlope(middle, lo, hi, hi - lo) ==> distinct >= 3
    ensures Verdict(lo, hi, distinct, middle) == HasProgressiveSlope(middle, lo, hi, hi - lo)
  {
  }

  /** A height on the slope drawn from the list itself is a third distinct height. */
  lemma SlopeFromMembers(middle: seq<int>, hs: seq<int>)
    requires |hs| > 0
    requires forall k :: 0 <= k < |middle| ==> middle[k] in hs
    ensures HasProgressiveSlope(middle, SeqMin(hs), SeqMax(hs), SeqMax(hs) - SeqMin(hs)) ==>
              DistinctCount(hs) >= 3
  {
    if HasProgressiveSlope(middle, SeqMin(hs), SeqMax(hs), SeqMax(hs) - SeqMin(hs)) {
      var i :| 0 <= i < |middle| && IsIntermediate(middle[i], SeqMin(hs), SeqMax(hs), SeqMax(hs) - SeqMin(hs));
      SlopeImpliesThreeLevels(hs, middle[i]);
    }
  }

  /** The middle half of the sorted heights are heights of the list. */
  lemma MiddleMembers(hs: seq<int>)
    ensures forall k :: 0 <= k < |Middle(SortInts(hs))| ==> Middle(SortInts(hs))[k] in hs
  {
    var m := Middle(SortInts(hs));
    forall k | 0 <= k < |m| ensures m[k] in hs {
      SortedMember(hs, m[k]);
    }
  }

  /** A middle height on the slope is a third distinct height. */
  lemma SlopeForcesThree(hs: seq<int>)
    requires |hs| > 0
    ensures HasProgressiveSlope(Middle(SortInts(hs)), SeqMin(hs), SeqMax(hs), SeqMax(hs) - SeqMin(hs)) ==>
              DistinctCount(hs) >= 3
  {
    MiddleMembers(hs);
    SlopeFromMembers(Middle(SortInts(hs)), hs);
  }

  /** So for spreads of 16 or more the distinct-height check never decides
      the verdict: the slope test alone does. */
  lemma {:induction false} DistinctCheckRedundant(hs: seq<int>)
    requires |hs| > 0 && 16 <= SeqMax(hs) - SeqMin(hs) <= 100
    ensures HeightsVerdict(hs) <==>
              HasProgressiveSlope(Middle(SortInts(hs)), SeqMin(hs), SeqMax(hs), SeqMax(hs) - SeqMin(hs))
  {
    MiddleMembers(hs);
    VerdictIsSlope(hs, Middle(SortInts(hs)));
  }

  /** The same for any list of middle heights drawn from the heights. */
  lemma {:induction false} VerdictIsSlope(hs: seq<int>, middle: seq<int>)
    requires |hs| > 0 && 16 <= SeqMax(hs) - SeqMin(hs) <= 100
    requires forall k :: 0 <= k < |middle| ==> middle[k] in hs
    ensures Verdict(SeqMin(hs), SeqMax(hs), DistinctCount(hs), middle) <==>
              HasProgressiveSlope(middle, SeqMin(hs), SeqMax(hs), SeqMax(hs) - SeqMin(hs))
  {
    var lo, hi, d := SeqMin(hs), SeqMax(hs), DistinctCount(hs);
    SlopeFromMembers(middle, hs);
    VerdictAtLargeSpread(lo, hi, d, middle);
    if HasProgressiveSlope(middle, lo, hi, hi - lo) {
      assert Verdict(lo, hi, d, middle);
    } else {
      assert !Verdict(lo, hi, d, middle);
    }
  }

  /** A height strictly between the minimum and the maximum makes three. */
  lemma ThreeLevels(hs: seq<int>, h: int)
    requires |hs| > 0 && h in hs && SeqMin(hs) < h < SeqMax(hs)
    ensures DistinctCount(hs) >= 3
  {
    var lo, hi := SeqMin(hs), SeqMax(hs);
    var levels := Levels(hs);
    assert {lo, h, hi} <= levels;
    ThreeDistinct(lo, h, hi);
    SubsetCard({lo, h, hi}, levels);
  }

  lemma MinAtMostMax(hs: seq<int>)
    requires |hs| > 0
    ensures SeqMin(hs) <= SeqMax(hs)
  {
    assert SeqMin(hs) <= hs[0];
  }

  lemma ThreeDistinct(a: int, b: int, c: int)
    requires a < b < c
    ensures |{a, b, c}| == 3
  {
  }

  lemma SubsetCard<T>(a: set<T>, b: set<T>)
    requires a <= b
    ensures |a| <= |b|
  {
    assert b == a + (b - a);
  }

  /** Cluster.Average over X and over Y, as exact reals: the ramp's centre. */
  function Centroid(cluster: seq<Cell>): Point2D
    requires |cluster| > 0
  {
    Point2D(SumX(cluster) as real / |cluster| as real, SumY(cluster) as real / |cluster| as real)
  }

  /** The centre times the number of cells gives back the coordinate sums. */
  lemma CentroidIsMean(cluster: seq<Cell>)
    requires |cluster| > 0
    ensures Centroid(cluster).x * |cluster| as real == SumX(cluster) as real
    ensures Centroid(cluster).y * |cluster| as real == SumY(cluster) as real
  {
  }

  function SumX(s: seq<Cell>): int
  {
    if s == [] then 0 else SumX(s[..|s| - 1]) + s[|s| - 1].x
  }

  function SumY(s: seq<Cell>): int
  {
    if s == [] then 0 else SumY(s[..|s| - 1]) + s[|s| - 1].y
  }

  /** The centre lies in the bounding box of the cluster. */
  lemma {:induction false} SumBounds(s: seq<Cell>, xLo: int, xHi: int, yLo: int, yHi: int)
    requires forall c :: c in s ==> xLo <= c.x <= xHi && yLo <= c.y <= yHi
    ensures |s| * xLo <= SumX(s) <= |s| * xHi
    ensures |s| * yLo <= SumY(s) <= |s| * yHi
  {
    if s != [] {
      assert forall c :: c in s[..|s| - 1] ==> c in s;
      SumBounds(s[..|s| - 1], xLo, xHi, yLo, yHi);
      assert s[|s| - 1] in s;
    }
  }

  lemma CentroidInBox(cluster: seq<Cell>, xLo: int, xHi: int, yLo: int, yHi: int)
    requires |cluster| > 0
    requires forall c :: c in cluster ==> xLo <= c.x <= xHi && yLo <= c.y <= yHi
    ensures xLo as real <= Centroid(cluster).x <= xHi as real
    ensures yLo as real <= Centroid(cluster).y <= yHi as real
  {
    SumBounds(cluster, xLo, xHi, yLo, yHi);
    MeanBounds(SumX(cluster), |cluster|, xLo, xHi);
    MeanBounds(SumY(cluster), |cluster|, yLo, yHi);
  }

  lemma MeanBounds(sum: int, n: int, lo: int, hi: int)
    requires n > 0 && n * lo <= sum <= n * hi
    ensures lo as real <= sum as real / n as real <= hi as real
  {
    var q := sum as real / n as real;
    assert q * n as real == sum as real;
    assert (n * lo) as real == lo as real * n as real;
    assert (n * hi) as real == hi as real * n as real;
  }

  predicate ClustersReadable(clusters: seq<seq<Cell>>, width: int, heightData: seq<bv8>)
  {
    forall i :: 0 <= i < |clusters| ==> |clusters[i]| > 0 && HeightsReadable(clusters[i], width, heightData)
  }

  /** IsValidRamp's verdict on each cluster. */
  function RampVerdicts(clusters: seq<seq<Cell>>, width: int, heightData: seq<bv8>): (v: seq<bool>)
    requires ClustersReadable(clusters, width, heightData)
    ensures |v| == |clusters|
    ensures forall i :: 0 <= i < |clusters| ==> v[i] == IsValidRamp(clusters[i], width, heightData)
  {
    seq(|clusters|, i requires 0 <= i < |clusters| => IsValidRamp(clusters[i], width, heightData))
  }

  predicate NonEmptyClusters(clusters: seq<seq<Cell>>)
  {
    forall i :: 0 <= i < |clusters| ==> |clusters[i]| > 0
  }

  /** The ramps the validation loop records: the centre of each cluster
      whose verdict is true, in cluster order. */
  function KeptCentres(clusters: seq<seq<Cell>>, keep: seq<bool>): seq<Point2D>
    requires |keep| == |clusters| && NonEmptyClusters(clusters)
  {
    if clusters == [] then []
    else
      var n := |clusters| - 1;
      KeptCentres(clusters[..n], keep[..n]) + (if keep[n] then [Centroid(clusters[n])] else [])
  }

  /** One more cluster considered by the validation loop. */
  lemma KeptCentresSnoc(clusters: seq<seq<Cell>>, keep: seq<bool>, i: int)
    requires |keep| == |clusters| && NonEmptyClusters(clusters) && 0 <= i < |clusters|
    ensures KeptCentres(clusters[..i + 1], keep[..i + 1]) ==
            KeptCentres(clusters[..i], keep[..i]) + (if keep[i] then [Centroid(clusters[i])] else [])
  {
    assert clusters[..i + 1][..i] == clusters[..i] && keep[..i + 1][..i] == keep[..i];
  }

  /** Each accepted cluster adds exactly its centre, a rejected one nothing. */
  lemma {:induction false} KeptCentresFacts(clusters: seq<seq<Cell>>, keep: seq<bool>)
    requires |keep| == |clusters| && NonEmptyClusters(clusters)
    ensures |KeptCentres(clusters, keep)| <= |clusters|
    ensures forall r :: r in KeptCentres(clusters, keep) <==>
              exists i :: 0 <= i < |clusters| && keep[i] && r == Centroid(clusters[i])
  {
    if clusters != [] {
      var n := |clusters| - 1;
      KeptCentresFacts(clusters[..n], keep[..n]);
      forall r ensures r in KeptCentres(clusters, keep) <==>
              exists i :: 0 <= i < |clusters| && keep[i] && r == Centroid(clusters[i])
      {
        if exists i :: 0 <= i < |clusters| && keep[i] && r == Centroid(clusters[i]) {
          var i :| 0 <= i < |clusters| && keep[i] && r == Centroid(clusters[i]);
          if i < n {
            assert clusters[..n][i] == clusters[i] && keep[..n][i] == keep[i];
          }
        }
        if r in KeptCentres(clusters[..n], keep[..n]) {
          var i :| 0 <= i < n && keep[..n][i] && r == Centroid(clusters[..n][i]);
          assert clusters[i] == clusters[..n][i];
        }
      }
    }
  }

  // ---------------------------------------------------------------------
  // Corridor width and choke points

  datatype Dir = Left | Right | Up | Down

  /** The cell i steps from (x, y) in direction d. */
  function Target(d: Dir, x: int, y: int, i: int): Cell
  {
    match d
    case Left => Cell(x - i, y)
    case Right => Cell(x + i, y)
    case Up => Cell(x, y - i)
    case Down => Cell(x, y + i)
  }

  /** The guard each counting loop tests: left and up stop below 0, right at
      the width, down at the pathing grid's height. */
  predicate OffEdge(d: Dir, x: int, y: int, i: int, width: int, pathHeight: int)
  {
    match d
    case Left => x - i < 0
    case Right => x + i >= width
    case Up => y - i < 0
    case Down => y + i >= pathHeight
  }

  /** What the four counting loops read: every row up to the lower of the
      cell's own row and the pathing grid's last row. */
  predicate PassageReadable(x: int, y: int, width: int, pathHeight: int, pathing: seq<bv8>)
  {
    0 <= x < width && 0 <= y && Covers(width, Max(y + 1, pathHeight), |pathing|)
  }

  lemma TargetReadable(d: Dir, x: int, y: int, i: int, width: int, pathHeight: int, pathing: seq<bv8>)
    requires PassageReadable(x, y, width, pathHeight, pathing) && 0 <= i
    requires !OffEdge(d, x, y, i, width, pathHeight)
    ensures var t := Target(d, x, y, i); 0 <= TruncDiv(t.y * width + t.x, 8) < |pathing|
  {
    var t := Target(d, x, y, i);
    CoveredIndex(t.x, t.y, width, Max(y + 1, pathHeight), |pathing|);
  }

  /** The i-th cell in direction d is inside its guard and pathable. */
  predicate Open(d: Dir, x: int, y: int, i: int, width: int, pathHeight: int, pathing: seq<bv8>)
    requires PassageReadable(x, y, width, pathHeight, pathing) && 0 <= i
  {
    !OffEdge(d, x, y, i, width, pathHeight) &&
    (TargetReadable(d, x, y, i, width, pathHeight, pathing);
     IsPathable(Target(d, x, y, i).x, Target(d, x, y, i).y, width, pathing))
  }

  /** How far one counting loop gets from step i on: the number of
      consecutive open cells, stopping at step 10. */
  function Run(d: Dir, x: int, y: int, width: int, pathHeight: int, pathing: seq<bv8>, i: int): (n: nat)
    requires PassageReadable(x, y, width, pathHeight, pathing) && 1 <= i <= 11
    ensures n <= 11 - i
    decreases 11 - i
  {
    if i > 10 || !Open(d, x, y, i, width, pathHeight, pathing) then 0
    else 1 + Run(d, x, y, width, pathHeight, pathing, i + 1)
  }

  /** One step of a counting loop: a cell past the guard or not pathable
      ends the run, an open one extends it. */
  lemma RunStep(d: Dir, x: int, y: int, width: int, pathHeight: int, pathing: seq<bv8>, i: int)
    requires PassageReadable(x, y, width, pathHeight, pathing) && 1 <= i <= 10
    ensures OffEdge(d, x, y, i, width, pathHeight) ==> Run(d, x, y, width, pathHeight, pathing, i) == 0
    ensures !OffEdge(d, x, y, i, width, pathHeight) ==>
              0 <= TruncDiv(Target(d, x, y, i).y * width + Target(d, x, y, i).x, 8) < |pathing| &&
              Run(d, x, y, width, pathHeight, pathing, i) ==
                (if IsPathable(Target(d, x, y, i).x, Target(d, x, y, i).y, width, pathing)
                 then 1 + Run(d, x, y, width, pathHeight, pathing, i + 1) else 0)
  {
    if !OffEdge(d, x, y, i, width, pathHeight) {
      TargetReadable(d, x, y, i, width, pathHeight, pathing);
    }
  }

  /** Every cell of a run is open. */
  lemma {:induction false} RunAllOpen(d: Dir, x: int, y: int, width: int, pathHeight: int, pathing: seq<bv8>, i: int)
    requires PassageReadable(x, y, width, pathHeight, pathing) && 1 <= i <= 11
    ensures forall j :: i <= j < i + Run(d, x, y, width, pathHeight, pathing, i) ==>
              Open(d, x, y, j, width, pathHeight, pathing)
    decreases 11 - i
  {
    if i <= 10 && Open(d, x, y, i, width, pathHeight, pathing) {
      var n := Run(d, x, y, width, pathHeight, pathing, i + 1);
      assert Run(d, x, y, width, pathHeight, pathing, i) == 1 + n;
      RunAllOpen(d, x, y, width, pathHeight, pathing, i + 1);
    } else {
      assert Run(d, x, y, width, pathHeight, pathing, i) == 0;
    }
  }

  /** A run stops at a closed cell unless it reached step 10: it is the
      longest stretch of open cells. */
  lemma {:induction false} RunEndsClosed(d: Dir, x: int, y: int, width: int, pathHeight: int, pathing: seq<bv8>, i: int)
    requires PassageReadable(x, y, width, pathHeight, pathing) && 1 <= i <= 11
    ensures i + Run(d, x, y, width, pathHeight, pathing, i) <= 10 ==>
              !Open(d, x, y, i + Run(d, x, y, width, pathHeight, pathing, i), width, pathHeight, pathing)
    decreases 11 - i
  {
    if i <= 10 && Open(d, x, y, i, width, pathHeight, pathing) {
      RunEndsClosed(d, x, y, width, pathHeight, pathing, i + 1);
      assert i + Run(d, x, y, width, pathHeight, pathing, i) == i + 1 + Run(d, x, y, width, pathHeight, pathing, i + 1);
    } else {
      assert i + Run(d, x, y, width, pathHeight, pathing, i) == i;
    }
  }

  /** CalculatePassageWidth: the narrower of the horizontal and the vertical
      extent through the cell, each the cell itself plus up to 10 pathable
      cells on either side. */
  function PassageWidth(x: int, y: int, width: int, pathHeight: int, pathing: seq<bv8>): int
    requires PassageReadable(x, y, width, pathHeight, pathing)
  {
    Min(Run(Left, x, y, width, pathHeight, pathing, 1) + Run(Right, x, y, width, pathHeight, pathing, 1) + 1,
        Run(Up, x, y, width, pathHeight, pathing, 1) + Run(Down, x, y, width, pathHeight, pathing, 1) + 1)
  }

  lemma PassageWidthBounds(x: int, y: int, width: int, pathHeight: int, pathing: seq<bv8>)
    requires PassageReadable(x, y, width, pathHeight, pathing)
    ensures 1 <= PassageWidth(x, y, width, pathHeight, pathing) <= 21
  {
  }

  /** IsNarrowPassage: a width of 1 to 3. */
  predicate NarrowAt(x: int, y: int, width: int, pathHeight: int, pathing: seq<bv8>)
    requires PassageReadable(x, y, width, pathHeight, pathing)
  {
    0 < PassageWidth(x, y, width, pathHeight, pathing) <= 3
  }

  /** A cell is narrow exactly when at most two cells flank it horizontally
      or at most two flank it vertically; the lower bound never fails. */
  lemma NarrowMeansFlanked(x: int, y: int, width: int, pathHeight: int, pathing: seq<bv8>)
    requires PassageReadable(x, y, width, pathHeight, pathing)
    ensures NarrowAt(x, y, width, pathHeight, pathing) <==>
              Run(Left, x, y, width, pathHeight, pathing, 1) + Run(Right, x, y, width, pathHeight, pathing, 1) <= 2 ||
              Run(Up, x, y, width, pathHeight, pathing, 1) + Run(Down, x, y, width, pathHeight, pathing, 1) <= 2
  {
  }

  /** One of the four counting loops of CalculatePassageWidth, which differ
      only in the direction they step and the edge they test. */
  method CountOpen(d: Dir, x: int, y: int, width: int, pathHeight: int, pathing: seq<bv8>) returns (dist: int)
    requires PassageReadable(x, y, width, pathHeight, pathing)
    ensures dist == Run(d, x, y, width, pathHeight, pathing, 1)
  {
    dist := 0;
    var i := 1;
    while i <= 10
      invariant 1 <= i <= 11 && dist == i - 1
      invariant Run(d, x, y, width, pathHeight, pathing, 1) == dist + Run(d, x, y, width, pathHeight, pathing, i)
      decreases 11 - i
    {
      RunStep(d, x, y, width, pathHeight, pathing, i);
      var t := Target(d, x, y, i);
      if OffEdge(d, x, y, i, width, pathHeight) || !IsPathable(t.x, t.y, width, pathing) {
        break;
      }
      dist := dist + 1;
      i := i + 1;
    }
  }

  /** CalculatePassageWidth: the left and right counts give the horizontal
      width, the up and down counts the vertical one, and the narrower wins. */
  method CalculatePassageWidth(x: int, y: int, width: int, pathHeight: int, pathing: seq<bv8>) returns (w: int)
    requires PassageReadable(x, y, width, pathHeight, pathing)
    ensures w == PassageWidth(x, y, width, pathHeight, pathing)
  {
    var leftDist := CountOpen(Left, x, y, width, pathHeight, pathing);
    var rightDist := CountOpen(Right, x, y, width, pathHeight, pathing);
    var horizontalWidth := leftDist + rightDist + 1;
    var upDist := CountOpen(Up, x, y, width, pathHeight, pathing);
    var downDist := CountOpen(Down, x, y, width, pathHeight, pathing);
    var verticalWidth := upDist + downDist + 1;
    w := Min(horizontalWidth, verticalWidth);
  }

  method IsNarrowPassage(x: int, y: int, width: int, pathHeight: int, pathing: seq<bv8>) returns (narrow: bool)
    requires PassageReadable(x, y, width, pathHeight, pathing)
    ensures narrow == NarrowAt(x, y, width, pathHeight, pathing)
  {
    var passageWidth := CalculatePassageWidth(x, y, width, pathHeight, pathing);
    narrow := passageWidth > 0 && passageWidth <= 3;
  }

  /** What the choke scan reads: every row the counting loops can reach from
      a cell of rows 2 .. height − 3. */
  predicate ChokeReadable(width: int, height: int, pathHeight: int, pathing: seq<bv8>)
  {
    width < 5 || height < 5 || Covers(width, Max(height - 2, pathHeight), |pathing|)
  }

  lemma ScanCellReadable(x: int, y: int, width: int, height: int, pathHeight: int, pathing: seq<bv8>)
    requires ChokeReadable(width, height, pathHeight, pathing)
    requires 2 <= x < width - 2 && 2 <= y < height - 2
    ensures PassageReadable(x, y, width, pathHeight, pathing)
  {
    CoversFewerRows(width, Max(height - 2, pathHeight), Max(y + 1, pathHeight), |pathing|);
  }

  /** A narrow-passage cell of the scanned interior [2, width − 3] × [2, height − 3]. */
  predicate ScanNarrow(x: int, y: int, width: int, height: int, pathHeight: int, pathing: seq<bv8>)
  {
    2 <= x < width - 2 && 2 <= y < height - 2 && ChokeReadable(width, height, pathHeight, pathing) &&
    (ScanCellReadable(x, y, width, height, pathHeight, pathing);
     NarrowAt(x, y, width, pathHeight, pathing))
  }

  /** ChokePoints.Any(c => |c.X − x| < 8 && |c.Y − y| < 8). */
  predicate NearExisting(chokes: seq<Point2D>, x: int, y: int)
  {
    exists k :: 0 <= k < |chokes| && RAbs(chokes[k].x - x as real) < 8.0 && RAbs(chokes[k].y - y as real) < 8.0
  }

  /** The narrow-passage verdict IsNarrowPassage gives each row of column x
      that the choke loop visits. */
  function ColumnFlags(x: int, width: int, height: int, pathHeight: int, pathing: seq<bv8>): seq<bool>
  {
    seq(Max(height, 0), y => ScanNarrow(x, y, width, height, pathHeight, pathing))
  }

  function Flag(flags: seq<bool>, y: int): bool
  {
    0 <= y < |flags| && flags[y]
  }

  lemma FlagIsNarrow(x: int, y: int, width: int, height: int, pathHeight: int, pathing: seq<bv8>)
    ensures Flag(ColumnFlags(x, width, height, pathHeight, pathing), y) ==
            ScanNarrow(x, y, width, height, pathHeight, pathing)
  {
  }

  /** `flags` holds the verdicts of column x. The trigger keeps the verdicts
      out of sight of proofs that only index the flags. */
  ghost predicate FlagsOf(flags: seq<bool>, x: int, width: int, height: int, pathHeight: int, pathing: seq<bv8>)
  {
    && |flags| == Max(height, 0)
    && forall y {:trigger ScanNarrow(x, y, width, height, pathHeight, pathing)} ::
         0 <= y < |flags| ==> flags[y] == ScanNarrow(x, y, width, height, pathHeight, pathing)
  }

  lemma ColumnFlagsOf(x: int, width: int, height: int, pathHeight: int, pathing: seq<bv8>)
    ensures FlagsOf(ColumnFlags(x, width, height, pathHeight, pathing), x, width, height, pathHeight, pathing)
  {
  }

  /** One iteration of the choke loop at (x, y), whose cell is narrow or not. */
  function ChokeStep(chokes: seq<Point2D>, x: int, y: int, narrow: bool): seq<Point2D>
  {
    if narrow && !NearExisting(chokes, x, y) then chokes + [Point2D(x as real, y as real)] else chokes
  }

  /** The inner loop over rows 2 .. yEnd − 1 of column x. */
  function ChokeColumn(chokes: seq<Point2D>, x: int, yEnd: int, flags: seq<bool>): seq<Point2D>
    decreases yEnd
  {
    if yEnd <= 2 then chokes
    else ChokeStep(ChokeColumn(chokes, x, yEnd - 1, flags), x, yEnd - 1, Flag(flags, yEnd - 1))
  }

  /** A column with no rows to scan leaves the list as it is. */
  lemma NoChokeRows(chokes: seq<Point2D>, x: int, yEnd: int, yEnd': int, flags: seq<bool>)
    requires yEnd <= 2 && yEnd' <= 2
    ensures ChokeColumn(chokes, x, yEnd, flags) == ChokeColumn(chokes, x, yEnd', flags)
  {
  }

  /** Both loops over columns 2 .. xEnd − 1. */
  function ChokeBox(chokes: seq<Point2D>, xEnd: int, width: int, height: int, pathHeight: int,
                    pathing: seq<bv8>): seq<Point2D>
    decreases xEnd
  {
    if xEnd <= 2 then chokes
    else ChokeColumn(ChokeBox(chokes, xEnd - 1, width, height, pathHeight, pathing),
                     xEnd - 1, height - 2, ColumnFlags(xEnd - 1, width, height, pathHeight, pathing))
  }

  /** Any two recorded choke points are at least 8 apart in x or in y. */
  predicate Separated(s: seq<Point2D>)
  {
    forall i, j :: 0 <= i < j < |s| ==> RAbs(s[i].x - s[j].x) >= 8.0 || RAbs(s[i].y - s[j].y) >= 8.0
  }

  /** A recorded point is the integer point of a narrow cell in columns below xEnd. */
  predicate ScanPoint(p: Point2D, xEnd: int, width: int, height: int, pathHeight: int, pathing: seq<bv8>)
  {
    var c := Cell(p.x.Floor, p.y.Floor);
    p == PointOf(c) && c.x < xEnd && ScanNarrow(c.x, c.y, width, height, pathHeight, pathing)
  }

  /** What a scan that started from `before` and ended at `after` keeps:
      the old points first, separation, and only narrow cells added. */
  predicate ScanKeeps(before: seq<Point2D>, after: seq<Point2D>, xEnd: int, width: int, height: int,
                      pathHeight: int, pathing: seq<bv8>)
  {
    && |before| <= |after| && after[..|before|] == before
    && (Separated(before) ==> Separated(after))
    && (forall k :: |before| <= k < |after| ==> ScanPoint(after[k], xEnd, width, height, pathHeight, pathing))
  }

  lemma NearPersists(a: seq<Point2D>, b: seq<Point2D>, x: int, y: int)
    requires |a| <= |b| && b[..|a|] == a && NearExisting(a, x, y)
    ensures NearExisting(b, x, y)
  {
    var k :| 0 <= k < |a| && RAbs(a[k].x - x as real) < 8.0 && RAbs(a[k].y - y as real) < 8.0;
    assert b[k] == a[k];
  }

  lemma ScanKeepsTrans(a: seq<Point2D>, b: seq<Point2D>, c: seq<Point2D>, xEnd: int, xEnd': int,
                       width: int, height: int, pathHeight: int, pathing: seq<bv8>)
    requires xEnd <= xEnd'
    requires ScanKeeps(a, b, xEnd, width, height, pathHeight, pathing)
    requires ScanKeeps(b, c, xEnd', width, height, pathHeight, pathing)
    ensures ScanKeeps(a, c, xEnd', width, height, pathHeight, pathing)
  {
    assert c[..|a|] == b[..|b|][..|a|];
    forall k | |a| <= k < |c| ensures ScanPoint(c[k], xEnd', width, height, pathHeight, pathing) {
      if k < |b| {
        assert c[k] == b[k];
      }
    }
  }

  /** What a column scan does with any verdicts: keeps the old list as a
      prefix, keeps it separated, adds only integer points of flagged rows of
      column x, and leaves every flagged row near a recorded point. */
  ghost predicate ColumnKeeps(before: seq<Point2D>, after: seq<Point2D>, x: int, yEnd: int, flags: seq<bool>)
  {
    && |before| <= |after| && after[..|before|] == before
    && (Separated(before) ==> Separated(after))
    && (forall k :: |before| <= k < |after| ==> RowPoint(after[k], x, yEnd, flags))
    && (forall y :: 2 <= y < yEnd && Flag(flags, y) ==> NearExisting(after, x, y))
  }

  /** One step keeps the list as a prefix and keeps it separated. */
  lemma StepSeparated(chokes: seq<Point2D>, x: int, y: int, narrow: bool)
    ensures var r := ChokeStep(chokes, x, y, narrow);
      |chokes| <= |r| && r[..|chokes|] == chokes && (Separated(chokes) ==> Separated(r))
  {
    var r := ChokeStep(chokes, x, y, narrow);
    if narrow && !NearExisting(chokes, x, y) && Separated(chokes) {
      forall i, j | 0 <= i < j < |r| ensures RAbs(r[i].x - r[j].x) >= 8.0 || RAbs(r[i].y - r[j].y) >= 8.0 {
        if j == |chokes| {
          assert !(RAbs(chokes[i].x - x as real) < 8.0 && RAbs(chokes[i].y - y as real) < 8.0);
        }
      }
    }
  }

  /** A point recorded in row y of column x of a column scan. */
  predicate RowPoint(p: Point2D, x: int, yEnd: int, flags: seq<bool>)
  {
    p.x == x as real && p.y == p.y.Floor as real && 2 <= p.y.Floor < yEnd && Flag(flags, p.y.Floor)
  }

  lemma {:induction false} ColumnSeparated(chokes: seq<Point2D>, x: int, yEnd: int, flags: seq<bool>)
    ensures var r := ChokeColumn(chokes, x, yEnd, flags);
      |chokes| <= |r| && r[..|chokes|] == chokes && (Separated(chokes) ==> Separated(r))
    decreases yEnd
  {
    if yEnd > 2 {
      var prev := ChokeColumn(chokes, x, yEnd - 1, flags);
      ColumnSeparated(chokes, x, yEnd - 1, flags);
      StepSeparated(prev, x, yEnd - 1, Flag(flags, yEnd - 1));
      var r := ChokeStep(prev, x, yEnd - 1, Flag(flags, yEnd - 1));
      assert r[..|chokes|] == prev[..|prev|][..|chokes|];
    }
  }

  lemma {:induction false} ColumnNewPoints(chokes: seq<Point2D>, x: int, yEnd: int, flags: seq<bool>)
    ensures var r := ChokeColumn(chokes, x, yEnd, flags);
      |chokes| <= |r| && forall k :: |chokes| <= k < |r| ==> RowPoint(r[k], x, yEnd, flags)
    decreases yEnd
  {
    if yEnd > 2 {
      var y := yEnd - 1;
      var prev := ChokeColumn(chokes, x, y, flags);
      ColumnNewPoints(chokes, x, y, flags);
      var r := ChokeStep(prev, x, y, Flag(flags, y));
      forall k | |chokes| <= k < |r| ensures RowPoint(r[k], x, yEnd, flags) {
        if k < |prev| {
          assert r[k] == prev[k];
        } else {
          assert r[k] == Point2D(x as real, y as real);
          assert (y as real).Floor == y;
        }
      }
    }
  }

  lemma {:induction false} ColumnCovers(chokes: seq<Point2D>, x: int, yEnd: int, flags: seq<bool>)
    ensures forall y :: 2 <= y < yEnd && Flag(flags, y) ==> NearExisting(ChokeColumn(chokes, x, yEnd, flags), x, y)
    decreases yEnd
  {
    if yEnd > 2 {
      var y := yEnd - 1;
      var prev := ChokeColumn(chokes, x, y, flags);
      ColumnCovers(chokes, x, y, flags);
      StepSeparated(prev, x, y, Flag(flags, y));
      var r := ChokeStep(prev, x, y, Flag(flags, y));
      forall y' | 2 <= y' < yEnd && Flag(flags, y') ensures NearExisting(r, x, y') {
        if y' < y || NearExisting(prev, x, y') {
          NearPersists(prev, r, x, y');
        } else {
          assert r[|prev|] == Point2D(x as real, y as real);
        }
      }
    }
  }

  lemma ChokeColumnFacts(chokes: seq<Point2D>, x: int, yEnd: int, flags: seq<bool>)
    ensures ColumnKeeps(chokes, ChokeColumn(chokes, x, yEnd, flags), x, yEnd, flags)
  {
    ColumnSeparated(chokes, x, yEnd, flags);
    ColumnNewPoints(chokes, x, yEnd, flags);
    ColumnCovers(chokes, x, yEnd, flags);
  }

  /** A column of the real scan adds only narrow cells of that column. */
  lemma ColumnOfScan(before: seq<Point2D>, after: seq<Point2D>, x: int, width: int, height: int,
                     pathHeight: int, pathing: seq<bv8>)
    requires ColumnKeeps(before, after, x, height - 2, ColumnFlags(x, width, height, pathHeight, pathing))
    ensures ScanKeeps(before, after, x + 1, width, height, pathHeight, pathing)
    ensures forall y :: ScanNarrow(x, y, width, height, pathHeight, pathing) ==> NearExisting(after, x, y)
  {
    forall k | |before| <= k < |after| ensures ScanPoint(after[k], x + 1, width, height, pathHeight, pathing) {
      FlagIsNarrow(x, after[k].y.Floor, width, height, pathHeight, pathing);
      assert (x as real).Floor == x;
    }
    forall y | ScanNarrow(x, y, width, height, pathHeight, pathing) ensures NearExisting(after, x, y) {
      FlagIsNarrow(x, y, width, height, pathHeight, pathing);
    }
  }

  lemma {:induction false} ChokeBoxFacts(chokes: seq<Point2D>, xEnd: int, width: int, height: int,
                                       pathHeight: int, pathing: seq<bv8>)
    ensures ScanKeeps(chokes, ChokeBox(chokes, xEnd, width, height, pathHeight, pathing), xEnd,
                      width, height, pathHeight, pathing)
    ensures forall x, y :: x < xEnd && ScanNarrow(x, y, width, height, pathHeight, pathing) ==>
              NearExisting(ChokeBox(chokes, xEnd, width, height, pathHeight, pathing), x, y)
    decreases xEnd
  {
    if xEnd > 2 {
      var prev := ChokeBox(chokes, xEnd - 1, width, height, pathHeight, pathing);
      var flags := ColumnFlags(xEnd - 1, width, height, pathHeight, pathing);
      var r := ChokeColumn(prev, xEnd - 1, height - 2, flags);
      ChokeBoxFacts(chokes, xEnd - 1, width, height, pathHeight, pathing);
      ChokeColumnFacts(prev, xEnd - 1, height - 2, flags);
      ColumnOfScan(prev, r, xEnd - 1, width, height, pathHeight, pathing);
      ScanKeepsTrans(chokes, prev, r, xEnd - 1, xEnd, width, height, pathHeight, pathing);
      forall x, y | x < xEnd && ScanNarrow(x, y, width, height, pathHeight, pathing)
        ensures NearExisting(r, x, y)
      {
        if x < xEnd - 1 {
          NearPersists(prev, r, x, y);
        }
      }
    } else {
      assert forall x, y :: ScanNarrow(x, y, width, height, pathHeight, pathing) ==> 2 <= x;
    }
  }

  /** The whole choke scan: the choke list it starts from is kept as a
      prefix; every point it adds is a narrow cell of the interior; a
      separated list stays separated; and every narrow interior cell ends up
      within 8 in both coordinates of some recorded point. */
  lemma ChokeScanSpec(chokes: seq<Point2D>, width: int, height: int, pathHeight: int, pathing: seq<bv8>)
    ensures var r := ChokeBox(chokes, width - 2, width, height, pathHeight, pathing);
      && |chokes| <= |r| && r[..|chokes|] == chokes
      && (Separated(chokes) ==> Separated(r))
      && (forall k :: |chokes| <= k < |r| ==> ScanPoint(r[k], width - 2, width, height, pathHeight, pathing))
      && (forall x, y :: ScanNarrow(x, y, width, height, pathHeight, pathing) ==> NearExisting(r, x, y))
  {
    ChokeBoxFacts(chokes, width - 2, width, height, pathHeight, pathing);
  }
}
