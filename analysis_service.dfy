/** The MapAnalysisService object: the three feature lists it fills in,
    and the analysis pass that appends ramps and choke points to them. */
module AnalysisService {
  import opened Common
  import opened MapAnalysis

  /** The map's size as the analysis takes it: from the height map. */
  function MapWidth(info: GameInfo): int { info.terrainHeight.sizeX }
  function MapHeight(info: GameInfo): int { info.terrainHeight.sizeY }

  /** The grids are long enough for every read the analysis makes: the
      pathing bits of the candidate rows and of the rows the corridor counts
      reach, and the height byte of every interior cell. */
  predicate Readable(info: GameInfo)
  {
    var w := MapWidth(info);
    var h := MapHeight(info);
    && ScanReadable(w, h, info.pathingGrid.data)
    && ChokeReadable(w, h, info.pathingGrid.sizeY, info.pathingGrid.data)
    && (w < 3 || h < 3 || w * (h - 1) <= |info.terrainHeight.data|)
  }

  /** Step 1's list of potential ramp cells. */
  function Candidates(info: GameInfo): seq<Cell>
    requires Readable(info)
  {
    CandidateBox(MapWidth(info) - 1, MapWidth(info), MapHeight(info), info.placementGrid.sizeY,
                 info.pathingGrid.data, info.placementGrid.data)
  }

  /** The choke points the scan leaves when it starts from `chokes`. */
  function ScannedChokes(info: GameInfo, chokes: seq<Point2D>): seq<Point2D>
  {
    ChokeBox(chokes, MapWidth(info) - 2, MapWidth(info), MapHeight(info), info.pathingGrid.sizeY,
             info.pathingGrid.data)
  }

  lemma RowIndexBound(x: int, y: int, w: int, rows: int)
    requires 0 <= x < w && 0 <= y < rows
    ensures 0 <= y * w + x < w * rows
  {
    assert y * w + x < (y + 1) * w;
    assert (y + 1) * w <= rows * w;
  }

  /** Clusters drawn from the candidates only hold interior cells, whose
      height bytes all exist. */
  lemma CandidateClustersReadable(info: GameInfo, clusters: seq<seq<Cell>>)
    requires Readable(info)
    requires DrawnFrom(clusters, Candidates(info))
    requires forall i :: 0 <= i < |clusters| ==> |clusters[i]| > 0
    ensures ClustersReadable(clusters, MapWidth(info), info.terrainHeight.data)
  {
    var w := MapWidth(info);
    var h := MapHeight(info);
    CandidatesSpec(w, h, info.placementGrid.sizeY, info.pathingGrid.data, info.placementGrid.data);
    forall i, k | 0 <= i < |clusters| && 0 <= k < |clusters[i]|
      ensures 0 <= clusters[i][k].y * w + clusters[i][k].x < |info.terrainHeight.data|
    {
      var c := clusters[i][k];
      assert c in clusters[i];
      RowIndexBound(c.x, c.y, w, h - 1);
    }
  }

  /** Candidate clusters make a ramp list: what the validation loop appends. */
  ghost predicate RampsFrom(info: GameInfo, clusters: seq<seq<Cell>>, added: seq<Point2D>)
    requires Readable(info)
  {
    && IsClustering(clusters, Candidates(info))
    && (CandidateClustersReadable(info, clusters);
        added == KeptCentres(clusters, RampVerdicts(clusters, MapWidth(info), info.terrainHeight.data)))
  }

  class MapAnalysisService {
    const gameInfo: GameInfo
    var expansionLocations: seq<Point2D>
    var chokePoints: seq<Point2D>
    var ramps: seq<Point2D>

    /** Starts with three empty lists. */
    constructor (info: GameInfo)
      ensures gameInfo == info
      ensures expansionLocations == [] && chokePoints == [] && ramps == []
    {
      gameInfo := info;
      expansionLocations := [];
      chokePoints := [];
      ramps := [];
    }

    /** The start locations are appended to the expansions, then ramps and
        choke points are appended by the analysis pass. */
    method Analyze()
      requires Readable(gameInfo)
      modifies this
      ensures expansionLocations == old(expansionLocations) + gameInfo.startLocations
      ensures |old(ramps)| <= |ramps| && ramps[..|old(ramps)|] == old(ramps)
      ensures exists clusters :: RampsFrom(gameInfo, clusters, ramps[|old(ramps)|..])
      ensures chokePoints == ScannedChokes(gameInfo, old(chokePoints))
    {
      expansionLocations := expansionLocations + gameInfo.startLocations;
      AnalyzeChokePointsAndRamps();
    }

    /** Step 1 to 3 and the choke scan; expansions are left alone. */
    method AnalyzeChokePointsAndRamps()
      requires Readable(gameInfo)
      modifies this
      ensures expansionLocations == old(expansionLocations)
      ensures |old(ramps)| <= |ramps| && ramps[..|old(ramps)|] == old(ramps)
      ensures exists clusters :: RampsFrom(gameInfo, clusters, ramps[|old(ramps)|..])
      ensures chokePoints == ScannedChokes(gameInfo, old(chokePoints))
    {
      var width := gameInfo.terrainHeight.sizeX;
      var height := gameInfo.terrainHeight.sizeY;
      var potentialRampCells := FindCandidates(width, height, gameInfo.placementGrid.sizeY,
                                               gameInfo.pathingGrid.data, gameInfo.placementGrid.data);
      var rampClusters := ClusterRampCells(potentialRampCells);
      CandidateClustersReadable(gameInfo, rampClusters);
      ghost var before := ramps;
      AddValidRamps(rampClusters, width, gameInfo.terrainHeight.data);
      assert ramps[|before|..] == KeptCentres(rampClusters, RampVerdicts(rampClusters, width, gameInfo.terrainHeight.data));
      assert RampsFrom(gameInfo, rampClusters, ramps[|before|..]);
      AddChokePoints(width, height, gameInfo.pathingGrid.sizeY, gameInfo.pathingGrid.data);
    }

    /** The validation loop: the centre of each cluster IsValidRamp accepts
        is appended to the ramps, in cluster order. */
    method AddValidRamps(clusters: seq<seq<Cell>>, width: int, heightData: seq<bv8>)
      requires ClustersReadable(clusters, width, heightData)
      modifies this
      ensures ramps == old(ramps) + KeptCentres(clusters, RampVerdicts(clusters, width, heightData))
      ensures expansionLocations == old(expansionLocations) && chokePoints == old(chokePoints)
    {
      ghost var verdicts := RampVerdicts(clusters, width, heightData);
      var added: seq<Point2D> := [];
      var i := 0;
      while i < |clusters|
        invariant 0 <= i <= |clusters|
        invariant added == KeptCentres(clusters[..i], verdicts[..i])
        invariant ramps == old(ramps) && expansionLocations == old(expansionLocations)
        invariant chokePoints == old(chokePoints)
      {
        var cluster := clusters[i];
        KeptCentresSnoc(clusters, verdicts, i);
        if IsValidRamp(cluster, width, heightData) {
          added := added + [Centroid(cluster)];
        }
        i := i + 1;
      }
      assert clusters[..i] == clusters && verdicts[..i] == verdicts;
      ramps := ramps + added;
    }

    /** The choke loop: each narrow interior cell not within 8 of a recorded
        choke point in both coordinates is recorded. */
    method AddChokePoints(width: int, height: int, pathHeight: int, pathing: seq<bv8>)
      requires ChokeReadable(width, height, pathHeight, pathing)
      modifies this
      ensures chokePoints == ChokeBox(old(chokePoints), width - 2, width, height, pathHeight, pathing)
      ensures expansionLocations == old(expansionLocations) && ramps == old(ramps)
    {
      var chokes := chokePoints;
      var x := 2;
      while x < width - 2
        invariant 2 <= x && (x <= width - 2 || x == 2)
        invariant chokes == ChokeBox(old(chokePoints), x, width, height, pathHeight, pathing)
        invariant chokePoints == old(chokePoints) && expansionLocations == old(expansionLocations)
        invariant ramps == old(ramps)
        decreases width - x
      {
        ColumnFlagsOf(x, width, height, pathHeight, pathing);
        chokes := ScanChokeColumn(chokes, x, width, height, pathHeight, pathing,
                                  ColumnFlags(x, width, height, pathHeight, pathing));
        x := x + 1;
      }
      assert ChokeBox(old(chokePoints), x, width, height, pathHeight, pathing) ==
             ChokeBox(old(chokePoints), width - 2, width, height, pathHeight, pathing);
      chokePoints := chokes;
    }
  }

  /** The choke loop's inner loop over rows 2 .. height − 3 of column x,
      whose verdicts are `flags`. */
  method ScanChokeColumn(chokes: seq<Point2D>, x: int, width: int, height: int, pathHeight: int,
                         pathing: seq<bv8>, ghost flags: seq<bool>) returns (r: seq<Point2D>)
    requires ChokeReadable(width, height, pathHeight, pathing)
    requires 2 <= x < width - 2
    requires FlagsOf(flags, x, width, height, pathHeight, pathing)
    ensures r == ChokeColumn(chokes, x, height - 2, flags)
  {
    r := chokes;
    var y := 2;
    while y < height - 2
      invariant 2 <= y && (y <= height - 2 || y == 2)
      invariant r == ChokeColumn(chokes, x, y, flags)
      decreases height - y
    {
      var narrow := NarrowRow(x, y, width, height, pathHeight, pathing, flags);
      var near := AnyNear(r, x, y);
      if narrow && !near {
        r := r + [Point2D(x as real, y as real)];
      }
      y := y + 1;
    }
    if y != height - 2 {
      NoChokeRows(chokes, x, y, height - 2, flags);
    }
  }

  /** IsNarrowPassage at a visited cell of the choke loop. */
  method NarrowRow(x: int, y: int, width: int, height: int, pathHeight: int, pathing: seq<bv8>,
                   ghost flags: seq<bool>) returns (narrow: bool)
    requires ChokeReadable(width, height, pathHeight, pathing)
    requires 2 <= x < width - 2 && 2 <= y < height - 2
    requires FlagsOf(flags, x, width, height, pathHeight, pathing)
    ensures narrow == Flag(flags, y)
  {
    ScanCellReadable(x, y, width, height, pathHeight, pathing);
    narrow := IsNarrowPassage(x, y, width, pathHeight, pathing);
    assert narrow == ScanNarrow(x, y, width, height, pathHeight, pathing);
  }

  /** ChokePoints.Any: is some recorded point within 8 of (x, y) in both
      coordinates? */
  method AnyNear(chokes: seq<Point2D>, x: int, y: int) returns (near: bool)
    ensures near == NearExisting(chokes, x, y)
  {
    var k := 0;
    while k < |chokes|
      invariant 0 <= k <= |chokes|
      invariant forall j :: 0 <= j < k ==>
                  !(RAbs(chokes[j].x - x as real) < 8.0 && RAbs(chokes[j].y - y as real) < 8.0)
    {
      if RAbs(chokes[k].x - x as real) < 8.0 && RAbs(chokes[k].y - y as real) < 8.0 {
        return true;
      }
      k := k + 1;
    }
    return false;
  }

  /** The nested candidate loops over the interior. */
  method FindCandidates(width: int, height: int, placeHeight: int, pathing: seq<bv8>, placement: seq<bv8>)
    returns (cells: seq<Cell>)
    requires ScanReadable(width, height, pathing)
    ensures cells == CandidateBox(width - 1, width, height, placeHeight, pathing, placement)
  {
    cells := [];
    var x := 1;
    while x < width - 1
      invariant 1 <= x && (x <= width - 1 || x == 1)
      invariant cells == CandidateBox(x, width, height, placeHeight, pathing, placement)
      decreases width - x
    {
      var column := FindCandidateColumn(x, width, height, placeHeight, pathing, placement);
      cells := cells + column;
      x := x + 1;
    }
    assert CandidateBox(x, width, height, placeHeight, pathing, placement) ==
           CandidateBox(width - 1, width, height, placeHeight, pathing, placement);
  }

  /** The inner candidate loop over rows 1 .. height − 2 of column x. */
  method FindCandidateColumn(x: int, width: int, height: int, placeHeight: int, pathing: seq<bv8>,
                             placement: seq<bv8>) returns (cells: seq<Cell>)
    requires ScanReadable(width, height, pathing)
    requires 1 <= x < width - 1
    ensures cells == CandidateColumn(x, height - 1, width, height, placeHeight, pathing, placement)
  {
    cells := [];
    var y := 1;
    while y < height - 1
      invariant 1 <= y && (y <= height - 1 || y == 1)
      invariant cells == CandidateColumn(x, y, width, height, placeHeight, pathing, placement)
      decreases height - y
    {
      CoveredIndex(x, y, width, height - 1, |pathing|);
      var isWalkable := IsPathable(x, y, width, pathing);
      var isBuildable := IsBuildable(x, y, width, placeHeight, placement);
      if isWalkable && !isBuildable {
        cells := cells + [Cell(x, y)];
      }
      y := y + 1;
    }
    assert CandidateColumn(x, y, width, height, placeHeight, pathing, placement) ==
           CandidateColumn(x, height - 1, width, height, placeHeight, pathing, placement);
  }

  /** What one analysis pass adds to the ramps, in the system's terms: each
      new ramp is the centre of a cluster of candidate cells (walkable,
      unbuildable interior cells) that is closed under the clustering's
      adjacency and that IsValidRamp accepts, so of four or more cells. What
      it adds to the choke points is stated by ChokeScanSpec. */
  lemma RampsAddedSpec(info: GameInfo, clusters: seq<seq<Cell>>, added: seq<Point2D>)
    requires Readable(info)
    requires RampsFrom(info, clusters, added)
    ensures forall r :: r in added ==>
              exists i :: 0 <= i < |clusters| && |clusters[i]| >= 4 && r == Centroid(clusters[i]) &&
                ClusterClosed(clusters[i], Candidates(info)) &&
                (forall c :: c in clusters[i] ==> c in Candidates(info))
  {
    var w := MapWidth(info);
    var hd := info.terrainHeight.data;
    CandidateClustersReadable(info, clusters);
    var v := RampVerdicts(clusters, w, hd);
    assert added == KeptCentres(clusters, v);
    KeptCentresFacts(clusters, v);
    forall r | r in added
      ensures exists i :: 0 <= i < |clusters| && |clusters[i]| >= 4 && r == Centroid(clusters[i]) &&
                ClusterClosed(clusters[i], Candidates(info)) &&
                (forall c :: c in clusters[i] ==> c in Candidates(info))
    {
      var i :| 0 <= i < |clusters| && v[i] && r == Centroid(clusters[i]);
      assert IsValidRamp(clusters[i], w, hd);
    }
  }
}
