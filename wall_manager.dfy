/** WallManager: keeps a wall of supply depots at the main ramp. Each wall
    position gets at most one build job, and a job moves through a small
    state machine (find an SCV, walk it to the site, order the build) from
    frame to frame, gated by the minerals at hand and dropped when it stalls
    for more than 448 frames. The placement grid is read through its own
    bit-packed decoder. */
module Walls {
  import opened Common
  import MapAnalysis
  import MapData

  /** UnitType.SupplyDepot, the only structure a wall job builds. */
  const SupplyDepot: int := 19

  /** Frames a job may go without an update before it is dropped. */
  const StaleFrames: int := 448

  /** Minerals set aside for each pending job. */
  const DepotCost: int := 100

  /** FindNearestBuildable's largest search radius. */
  const MaxRadius: int := 8

  datatype BuildState = NeedingSCV | MovingToSite | ReadyToBuild | Building | Complete

  /** The fields of one BuildJob at one moment. */
  datatype Job = Job(position: Point2D, structureType: int, scvTag: nat, state: BuildState, lastUpdateFrame: int)

  /** The two commands the job code issues: a move to the site and the build
      order for the job's structure there. */
  datatype Action = Move(tag: nat, target: Point2D) | Build(tag: nat, structureType: int, target: Point2D)

  /** What the job code learns from our units in one frame: the SCV that
      FindBuilder picks (it depends on the unit list alone, so it is the same
      for every job of the frame), the positions where HasStructureAt finds a
      structure, the position of each unit by tag, and the tags of the units
      without orders. */
  datatype UnitsView = UnitsView(
    builder: Option<nat>,
    structures: set<Point2D>,
    positions: map<nat, Point2D>,
    idle: set<nat>)

  /** The SCV is closer than 3 to the site. */
  predicate Arrived(v: UnitsView, tag: nat, site: Point2D)
    requires tag in v.positions
  {
    DistSq(v.positions[tag], site) < 9.0
  }

  /** The SCV has no orders and is farther than 5 from the site. */
  predicate Stalled(v: UnitsView, tag: nat, site: Point2D)
    requires tag in v.positions
  {
    tag in v.idle && DistSq(v.positions[tag], site) > 25.0
  }

  // ---------------------------------------------------------------------
  // The transitions of one job

  /** ProcessNeedingSCV: take the builder, if there is one, and send it. */
  function NeedingStep(j: Job, v: UnitsView, frame: int): (Job, Option<Action>)
  {
    match v.builder
    case None => (j, None)
    case Some(b) => (j.(scvTag := b, state := MovingToSite, lastUpdateFrame := frame), Some(Move(b, j.position)))
  }

  /** ProcessMovingToSite: back to NeedingSCV when the SCV is gone, forward
      when it has arrived, a fresh move order when it has stalled. */
  function MovingStep(j: Job, v: UnitsView, frame: int): (Job, Option<Action>)
  {
    if j.scvTag !in v.positions then (j.(state := NeedingSCV), None)
    else if Arrived(v, j.scvTag, j.position) then (j.(state := ReadyToBuild, lastUpdateFrame := frame), None)
    else if Stalled(v, j.scvTag, j.position) then (j.(lastUpdateFrame := frame), Some(Move(j.scvTag, j.position)))
    else (j.(lastUpdateFrame := frame), None)
  }

  /** ProcessReadyToBuild: back to NeedingSCV when the SCV is gone, the build
      order otherwise. */
  function ReadyStep(j: Job, v: UnitsView, frame: int): (Job, Option<Action>)
  {
    if j.scvTag !in v.positions then (j.(state := NeedingSCV), None)
    else (j.(state := Building, lastUpdateFrame := frame), Some(Build(j.scvTag, j.structureType, j.position)))
  }

  /** ProcessBuilding: a refresh while the SCV is alive. */
  function BuildingStep(j: Job, v: UnitsView, frame: int): Job
  {
    if j.scvTag !in v.positions then j else j.(lastUpdateFrame := frame)
  }

  /** The switch of ProcessBuildJobs; a Complete job has no case. */
  function JobStep(j: Job, v: UnitsView, frame: int): (Job, Option<Action>)
  {
    match j.state
    case NeedingSCV => NeedingStep(j, v, frame)
    case MovingToSite => MovingStep(j, v, frame)
    case ReadyToBuild => ReadyStep(j, v, frame)
    case Building => (BuildingStep(j, v, frame), None)
    case Complete => (j, None)
  }

  /** The edges of the job state machine. */
  predicate Transition(s: BuildState, t: BuildState)
  {
    match s
    case NeedingSCV => t == NeedingSCV || t == MovingToSite
    case MovingToSite => t == MovingToSite || t == ReadyToBuild || t == NeedingSCV
    case ReadyToBuild => t == Building || t == NeedingSCV
    case Building => t == Building
    case Complete => t == Complete
  }

  /** Every step follows an edge of the machine, nothing reaches Complete,
      and the position and structure never change. */
  lemma StepFollowsTransitions(j: Job, v: UnitsView, frame: int)
    ensures Transition(j.state, JobStep(j, v, frame).0.state)
    ensures JobStep(j, v, frame).0.state == Complete <==> j.state == Complete
    ensures JobStep(j, v, frame).0.position == j.position
    ensures JobStep(j, v, frame).0.structureType == j.structureType
  {
  }

  /** A job waiting for an SCV leaves that state exactly when a builder is
      found; it then carries the builder's tag and was updated this frame. */
  lemma NeedingTransitions(j: Job, v: UnitsView, frame: int)
    requires j.state == NeedingSCV
    ensures JobStep(j, v, frame).0.state == MovingToSite <==> v.builder.Some?
    ensures v.builder.None? ==> JobStep(j, v, frame) == (j, None)
    ensures v.builder.Some? ==>
              JobStep(j, v, frame).0.scvTag == v.builder.value && JobStep(j, v, frame).0.lastUpdateFrame == frame
  {
  }

  /** A job on its way returns to NeedingSCV exactly when its SCV is gone,
      and then keeps its old update frame; it moves on exactly when the SCV
      has arrived; any other outcome refreshes the frame, and a move order is
      issued again exactly when the SCV has stalled. */
  lemma MovingTransitions(j: Job, v: UnitsView, frame: int)
    requires j.state == MovingToSite
    ensures JobStep(j, v, frame).0.state == NeedingSCV <==> j.scvTag !in v.positions
    ensures JobStep(j, v, frame).0.state == ReadyToBuild <==>
              j.scvTag in v.positions && Arrived(v, j.scvTag, j.position)
    ensures JobStep(j, v, frame).0.state == NeedingSCV ==>
              JobStep(j, v, frame).0.lastUpdateFrame == j.lastUpdateFrame
    ensures JobStep(j, v, frame).0.state != NeedingSCV ==> JobStep(j, v, frame).0.lastUpdateFrame == frame
    ensures JobStep(j, v, frame).1.Some? <==>
              j.scvTag in v.positions && !Arrived(v, j.scvTag, j.position) && Stalled(v, j.scvTag, j.position)
  {
  }

  /** A ready job issues its build order exactly when its SCV is alive, and
      otherwise returns to NeedingSCV without a refresh. */
  lemma ReadyTransitions(j: Job, v: UnitsView, frame: int)
    requires j.state == ReadyToBuild
    ensures JobStep(j, v, frame).0.state == Building <==> j.scvTag in v.positions
    ensures JobStep(j, v, frame).1.Some? <==> j.scvTag in v.positions
    ensures j.scvTag !in v.positions ==> JobStep(j, v, frame).0.lastUpdateFrame == j.lastUpdateFrame
    ensures j.scvTag in v.positions ==> JobStep(j, v, frame).0.lastUpdateFrame == frame
  {
  }

  /** A building job stays Building and issues nothing; it is refreshed
      exactly when its SCV is alive. */
  lemma BuildingTransitions(j: Job, v: UnitsView, frame: int)
    requires j.state == Building
    ensures JobStep(j, v, frame).0.state == Building && JobStep(j, v, frame).1.None?
    ensures JobStep(j, v, frame).0.lastUpdateFrame == frame <==>
              j.scvTag in v.positions || j.lastUpdateFrame == frame
  {
  }

  /** An action is addressed to the job's SCV (after the step) at the job's
      site; a build order only comes from a ready job, and orders the job's
      own structure. */
  lemma StepActions(j: Job, v: UnitsView, frame: int)
    ensures JobStep(j, v, frame).1.Some? ==>
              JobStep(j, v, frame).1.value.tag == JobStep(j, v, frame).0.scvTag
              && JobStep(j, v, frame).1.value.target == j.position
    ensures JobStep(j, v, frame).1.Some? && JobStep(j, v, frame).1.value.Build? ==>
              j.state == ReadyToBuild && JobStep(j, v, frame).1.value.structureType == j.structureType
  {
  }

  // ---------------------------------------------------------------------
  // The job table

  /** Jobs waiting for an SCV or on their way: the ones minerals are set
      aside for. */
  predicate IsPending(j: Job)
  {
    j.state == NeedingSCV || j.state == MovingToSite
  }

  function PendingCount(jobs: map<Point2D, Job>): nat
  {
    |set p | p in jobs && IsPending(jobs[p])|
  }

  /** The first wall position with neither a job nor a structure. */
  function FirstOpen(positions: seq<Point2D>, jobs: map<Point2D, Job>, structures: set<Point2D>): Option<Point2D>
  {
    if positions == [] then None
    else if positions[0] !in jobs && positions[0] !in structures then Some(positions[0])
    else FirstOpen(positions[1..], jobs, structures)
  }

  /** A found position is open and no earlier one is; none found means every
      position has a job or a structure. */
  lemma {:induction false} FirstOpenFacts(positions: seq<Point2D>, jobs: map<Point2D, Job>, structures: set<Point2D>)
    ensures FirstOpen(positions, jobs, structures).Some? ==>
              exists i :: 0 <= i < |positions| && positions[i] == FirstOpen(positions, jobs, structures).value
                && positions[i] !in jobs && positions[i] !in structures
                && forall k :: 0 <= k < i ==> positions[k] in jobs || positions[k] in structures
    ensures FirstOpen(positions, jobs, structures).None? <==>
              forall k :: 0 <= k < |positions| ==> positions[k] in jobs || positions[k] in structures
  {
    if positions != [] {
      FirstOpenFacts(positions[1..], jobs, structures);
      if FirstOpen(positions, jobs, structures).Some? && (positions[0] in jobs || positions[0] in structures) {
        var i :| 0 <= i < |positions[1..]| && positions[1..][i] == FirstOpen(positions, jobs, structures).value
                 && positions[1..][i] !in jobs && positions[1..][i] !in structures
                 && forall k :: 0 <= k < i ==> positions[1..][k] in jobs || positions[1..][k] in structures;
        assert positions[i + 1] == positions[1..][i];
        forall k | 0 <= k < i + 1 ensures positions[k] in jobs || positions[k] in structures {
          if k > 0 {
            assert positions[k] == positions[1..][k - 1];
          }
        }
      }
      if forall k :: 0 <= k < |positions| ==> positions[k] in jobs || positions[k] in structures {
        assert forall k :: 0 <= k < |positions[1..]| ==> positions[1..][k] == positions[k + 1];
      }
    }
  }

  /** The job CreateBuildJobs makes: waiting for an SCV, stamped with the
      frame it was made in. */
  function NewJob(p: Point2D, frame: int): Job
  {
    Job(p, SupplyDepot, 0, NeedingSCV, frame)
  }

  /** CreateBuildJobs' answer: a new job at the first open position, when
      the minerals cover it and every pending job. The count of pending jobs
      does not change while the loop looks, so when the first open position
      fails the mineral test, every later one fails it too. */
  function Created(jobs: map<Point2D, Job>, positions: seq<Point2D>, structures: set<Point2D>,
                   minerals: int, frame: int): map<Point2D, Job>
  {
    match FirstOpen(positions, jobs, structures)
    case None => jobs
    case Some(p) => if minerals < (PendingCount(jobs) + 1) * DepotCost then jobs else jobs[p := NewJob(p, frame)]
  }

  /** Creation keeps every job as it was and adds at most one. */
  lemma CreatedAddsAtMostOne(jobs: map<Point2D, Job>, positions: seq<Point2D>, structures: set<Point2D>,
                             minerals: int, frame: int)
    ensures forall p :: p in jobs ==>
              p in Created(jobs, positions, structures, minerals, frame)
              && Created(jobs, positions, structures, minerals, frame)[p] == jobs[p]
    ensures |Created(jobs, positions, structures, minerals, frame).Keys - jobs.Keys| <= 1
  {
    var c := Created(jobs, positions, structures, minerals, frame);
    FirstOpenFacts(positions, jobs, structures);
    if c != jobs {
      var p := FirstOpen(positions, jobs, structures).value;
      assert c.Keys - jobs.Keys == {p};
    } else {
      assert c.Keys - jobs.Keys == {};
    }
  }

  /** A new job sits at a wall position with no structure, waits for an
      SCV, carries this frame, and was paid for: the minerals cover it and
      every job already pending. */
  lemma CreatedJobFacts(jobs: map<Point2D, Job>, positions: seq<Point2D>, structures: set<Point2D>,
                        minerals: int, frame: int, p: Point2D)
    requires p in Created(jobs, positions, structures, minerals, frame) && p !in jobs
    ensures p in positions && p !in structures
    ensures Created(jobs, positions, structures, minerals, frame)[p].state == NeedingSCV
    ensures Created(jobs, positions, structures, minerals, frame)[p].lastUpdateFrame == frame
    ensures minerals >= DepotCost * (PendingCount(jobs) + 1)
  {
    FirstOpenFacts(positions, jobs, structures);
  }

  /** And a job is made whenever some wall position is open and the minerals
      cover it and every pending job. */
  lemma CreatedWhenAffordable(jobs: map<Point2D, Job>, positions: seq<Point2D>, structures: set<Point2D>,
                              minerals: int, frame: int, i: int)
    requires 0 <= i < |positions| && positions[i] !in jobs && positions[i] !in structures
    requires minerals >= DepotCost * (PendingCount(jobs) + 1)
    ensures |Created(jobs, positions, structures, minerals, frame).Keys - jobs.Keys| == 1
  {
    FirstOpenFacts(positions, jobs, structures);
    var p := FirstOpen(positions, jobs, structures).value;
    assert Created(jobs, positions, structures, minerals, frame).Keys - jobs.Keys == {p};
  }

  /** The job has gone more than StaleFrames frames without an update. */
  predicate Stale(j: Job, frame: int)
  {
    frame - j.lastUpdateFrame > StaleFrames
  }

  /** ProcessBuildJobs' answer: every job without a structure takes one step,
      and the jobs with a structure, and those stale after their step, are
      dropped. */
  function Processed(jobs: map<Point2D, Job>, v: UnitsView, frame: int): map<Point2D, Job>
  {
    map p | p in jobs && p !in v.structures && !Stale(JobStep(jobs[p], v, frame).0, frame) :: JobStep(jobs[p], v, frame).0
  }

  /** The commands issued for the jobs at the given keys, one at most for
      each job processed. */
  ghost function EmittedFrom(jobs: map<Point2D, Job>, keys: set<Point2D>, v: UnitsView, frame: int): set<Action>
  {
    set p | p in jobs && p in keys && p !in v.structures && JobStep(jobs[p], v, frame).1.Some? ::
      JobStep(jobs[p], v, frame).1.value
  }

  /** The commands one pass issues. */
  ghost function Emitted(jobs: map<Point2D, Job>, v: UnitsView, frame: int): set<Action>
  {
    EmittedFrom(jobs, jobs.Keys, v, frame)
  }

  /** A job without a structure is dropped only when its step did not
      refresh it, so it was already stale before the pass: a job that made
      progress, or whose SCV is alive past the first state, always stays. */
  lemma DroppedOnlyWhenIdle(jobs: map<Point2D, Job>, v: UnitsView, frame: int, p: Point2D)
    requires p in jobs && p !in v.structures && p !in Processed(jobs, v, frame)
    ensures JobStep(jobs[p], v, frame).0.lastUpdateFrame == jobs[p].lastUpdateFrame
    ensures Stale(jobs[p], frame)
    ensures jobs[p].state == NeedingSCV ==> v.builder.None?
    ensures jobs[p].state in {MovingToSite, ReadyToBuild, Building} ==> jobs[p].scvTag !in v.positions
  {
  }

  /** A job that is neither built nor stale after its step stays, with the
      step applied. */
  lemma KeptJobsStepped(jobs: map<Point2D, Job>, v: UnitsView, frame: int, p: Point2D)
    requires p in jobs && p !in v.structures && !Stale(JobStep(jobs[p], v, frame).0, frame)
    ensures p in Processed(jobs, v, frame) && Processed(jobs, v, frame)[p] == JobStep(jobs[p], v, frame).0
  {
  }

  /** A job made in a frame outlives the processing of that frame unless its
      structure is already there. */
  lemma FreshJobSurvivesItsFrame(p: Point2D, v: UnitsView, frame: int)
    requires p !in v.structures
    ensures p in Processed(map[p := NewJob(p, frame)], v, frame)
  {
    var j := NewJob(p, frame);
    assert JobStep(j, v, frame).0.lastUpdateFrame == frame;
  }

  /** The job table's invariant: every job sits at a wall position, at the
      key it is stored under, builds a supply depot and is not Complete. */
  ghost predicate JobsOk(jobs: map<Point2D, Job>, sites: seq<Point2D>)
  {
    forall p :: p in jobs ==>
      && p in sites
      && jobs[p].position == p
      && jobs[p].structureType == SupplyDepot
      && jobs[p].state != Complete
  }

  /** More wall positions keep the invariant. */
  lemma JobsOkAppend(jobs: map<Point2D, Job>, a: seq<Point2D>, b: seq<Point2D>)
    requires JobsOk(jobs, a)
    ensures JobsOk(jobs, a + b)
  {
    forall p | p in jobs ensures p in a + b {
      var i :| 0 <= i < |a| && a[i] == p;
      assert (a + b)[i] == p;
    }
  }

  /** Creation keeps the invariant. */
  lemma CreatedKeepsJobsOk(jobs: map<Point2D, Job>, positions: seq<Point2D>, structures: set<Point2D>,
                           minerals: int, frame: int)
    requires JobsOk(jobs, positions)
    ensures JobsOk(Created(jobs, positions, structures, minerals, frame), positions)
  {
    FirstOpenFacts(positions, jobs, structures);
  }

  /** Processing keeps the invariant. */
  lemma ProcessedKeepsJobsOk(jobs: map<Point2D, Job>, sites: seq<Point2D>, v: UnitsView, frame: int)
    requires JobsOk(jobs, sites)
    ensures JobsOk(Processed(jobs, v, frame), sites)
  {
    forall p | p in Processed(jobs, v, frame)
      ensures Processed(jobs, v, frame)[p].state != Complete
    {
      StepFollowsTransitions(jobs[p], v, frame);
    }
  }

  // ---------------------------------------------------------------------
  // The ring search of FindNearestBuildable, over a buildability test ok

  /** The inner dy loop: the first cell passing ok in column ix + dx, rows
      iy + dy to iy + r. */
  function ScanColumn(ok: Cell -> bool, ix: int, iy: int, r: int, dx: int, dy: int): Option<Cell>
    decreases r - dy
  {
    if dy > r then None
    else if ok(Cell(ix + dx, iy + dy)) then Some(Cell(ix + dx, iy + dy))
    else ScanColumn(ok, ix, iy, r, dx, dy + 1)
  }

  /** The dx loop: the first cell passing ok in the square of radius r,
      columns from ix + dx on. */
  function ScanSquare(ok: Cell -> bool, ix: int, iy: int, r: int, dx: int): Option<Cell>
    decreases r - dx
  {
    if dx > r then None
    else
      match ScanColumn(ok, ix, iy, r, dx, -r)
      case Some(c) => Some(c)
      case None => ScanSquare(ok, ix, iy, r, dx + 1)
  }

  /** The r loop: squares of radius r to MaxRadius in turn. */
  function ScanRadii(ok: Cell -> bool, ix: int, iy: int, r: int): Option<Cell>
    decreases MaxRadius - r
  {
    if r > MaxRadius then None
    else
      match ScanSquare(ok, ix, iy, r, -r)
      case Some(c) => Some(c)
      case None => ScanRadii(ok, ix, iy, r + 1)
  }

  /** The first cell the search around (ix, iy) finds. */
  function NearestCell(ok: Cell -> bool, ix: int, iy: int): Option<Cell>
  {
    ScanRadii(ok, ix, iy, 0)
  }

  /** The centre (px + 0.5, py + 0.5) of that cell. */
  function NearestAt(ok: Cell -> bool, ix: int, iy: int): Option<Point2D>
  {
    match NearestCell(ok, ix, iy)
    case None => None
    case Some(c) => Some(Center(c))
  }

  /** FindNearestBuildable's answer: the search around the input rounded
      half to even. */
  function Nearest(ok: Cell -> bool, x: real, y: real): Option<Point2D>
  {
    NearestAt(ok, RoundHalfEven(x), RoundHalfEven(y))
  }

  /** The Chebyshev distance of cell c from (ix, iy): the radius of the
      square ring the search finds it on. */
  function RingOf(ix: int, iy: int, c: Cell): nat
  {
    Cheb(c.x - ix, c.y - iy)
  }

  /** No cell at Chebyshev distance below r from (ix, iy) passes ok. */
  ghost predicate NoneCloser(ok: Cell -> bool, ix: int, iy: int, r: int)
  {
    forall c: Cell {:trigger RingOf(ix, iy, c)} :: RingOf(ix, iy, c) < r ==> !ok(c)
  }

  lemma {:induction false} ColumnFound(ok: Cell -> bool, ix: int, iy: int, r: int, dx: int, dy: int)
    ensures ScanColumn(ok, ix, iy, r, dx, dy).Some? ==>
              var c := ScanColumn(ok, ix, iy, r, dx, dy).value;
              ok(c) && c.x == ix + dx && dy <= c.y - iy <= r
    decreases r - dy
  {
    if dy <= r && !ok(Cell(ix + dx, iy + dy)) {
      ColumnFound(ok, ix, iy, r, dx, dy + 1);
    }
  }

  lemma {:induction false} ColumnEmpty(ok: Cell -> bool, ix: int, iy: int, r: int, dx: int, dy: int)
    ensures ScanColumn(ok, ix, iy, r, dx, dy).None? ==>
              forall c: Cell :: c.x == ix + dx && dy <= c.y - iy <= r ==> !ok(c)
    decreases r - dy
  {
    if dy <= r && !ok(Cell(ix + dx, iy + dy)) {
      ColumnEmpty(ok, ix, iy, r, dx, dy + 1);
    }
  }

  lemma {:induction false} SquareFound(ok: Cell -> bool, ix: int, iy: int, r: int, dx: int)
    ensures ScanSquare(ok, ix, iy, r, dx).Some? ==>
              var c := ScanSquare(ok, ix, iy, r, dx).value;
              ok(c) && dx <= c.x - ix <= r && -r <= c.y - iy <= r
    decreases r - dx
  {
    if dx <= r {
      ColumnFound(ok, ix, iy, r, dx, -r);
      if ScanColumn(ok, ix, iy, r, dx, -r).None? {
        SquareFound(ok, ix, iy, r, dx + 1);
      }
    }
  }

  lemma {:induction false} SquareEmpty(ok: Cell -> bool, ix: int, iy: int, r: int, dx: int)
    ensures ScanSquare(ok, ix, iy, r, dx).None? ==>
              forall c: Cell :: dx <= c.x - ix <= r && -r <= c.y - iy <= r ==> !ok(c)
    decreases r - dx
  {
    if dx <= r && ScanColumn(ok, ix, iy, r, dx, -r).None? {
      ColumnEmpty(ok, ix, iy, r, dx, -r);
      SquareEmpty(ok, ix, iy, r, dx + 1);
    }
  }

  /** An empty square of radius r pushes the clear zone out by one. */
  lemma NoneCloserStep(ok: Cell -> bool, ix: int, iy: int, r: int)
    requires 0 <= r && NoneCloser(ok, ix, iy, r) && ScanSquare(ok, ix, iy, r, -r).None?
    ensures NoneCloser(ok, ix, iy, r + 1)
  {
    SquareEmpty(ok, ix, iy, r, -r);
  }

  /** From radius r on: a found cell passes ok and lies in a square of
      radius r to MaxRadius. */
  lemma {:induction false} RadiiFound(ok: Cell -> bool, ix: int, iy: int, r: int)
    requires 0 <= r
    ensures ScanRadii(ok, ix, iy, r).Some? ==>
              var c := ScanRadii(ok, ix, iy, r).value;
              ok(c) && RingOf(ix, iy, c) <= MaxRadius
    decreases MaxRadius - r
  {
    if r <= MaxRadius {
      if ScanSquare(ok, ix, iy, r, -r).None? {
        RadiiFound(ok, ix, iy, r + 1);
      } else {
        SquareFound(ok, ix, iy, r, -r);
      }
    }
  }

  /** From radius r on, with nothing passing closer than r: nothing closer
      than a found cell passes. */
  lemma {:induction false} RadiiFirst(ok: Cell -> bool, ix: int, iy: int, r: int)
    requires 0 <= r && NoneCloser(ok, ix, iy, r)
    ensures ScanRadii(ok, ix, iy, r).Some? ==>
              var c := ScanRadii(ok, ix, iy, r).value;
              NoneCloser(ok, ix, iy, RingOf(ix, iy, c))
    decreases MaxRadius - r
  {
    if r <= MaxRadius {
      if ScanSquare(ok, ix, iy, r, -r).None? {
        NoneCloserStep(ok, ix, iy, r);
        RadiiFirst(ok, ix, iy, r + 1);
      } else {
        SquareFound(ok, ix, iy, r, -r);
        var c := ScanSquare(ok, ix, iy, r, -r).value;
        assert RingOf(ix, iy, c) >= r;
      }
    }
  }

  /** From radius r on, with nothing passing closer than r: nothing found
      means nothing within MaxRadius passes. */
  lemma {:induction false} RadiiEmpty(ok: Cell -> bool, ix: int, iy: int, r: int)
    requires 0 <= r && NoneCloser(ok, ix, iy, r)
    ensures ScanRadii(ok, ix, iy, r).None? ==> NoneCloser(ok, ix, iy, MaxRadius + 1)
    decreases MaxRadius - r
  {
    if r <= MaxRadius && ScanSquare(ok, ix, iy, r, -r).None? {
      NoneCloserStep(ok, ix, iy, r);
      RadiiEmpty(ok, ix, iy, r + 1);
    }
  }

  /** The cell found passes ok and lies at Chebyshev distance at most 8
      from (ix, iy). */
  lemma NearestFound(ok: Cell -> bool, ix: int, iy: int)
    ensures NearestCell(ok, ix, iy).Some? ==>
              var c := NearestCell(ok, ix, iy).value;
              ok(c) && RingOf(ix, iy, c) <= MaxRadius
  {
    RadiiFound(ok, ix, iy, 0);
  }

  /** No cell closer to (ix, iy) than the cell found passes ok. */
  lemma NearestClosest(ok: Cell -> bool, ix: int, iy: int)
    ensures NearestCell(ok, ix, iy).Some? ==>
              var c := NearestCell(ok, ix, iy).value;
              NoneCloser(ok, ix, iy, RingOf(ix, iy, c))
  {
    RadiiFirst(ok, ix, iy, 0);
  }

  /** Nothing is found exactly when no cell of the 17×17 box around
      (ix, iy) passes ok. */
  lemma NearestEmpty(ok: Cell -> bool, ix: int, iy: int)
    ensures NearestCell(ok, ix, iy).None? <==> NoneCloser(ok, ix, iy, MaxRadius + 1)
  {
    RadiiEmpty(ok, ix, iy, 0);
    RadiiFound(ok, ix, iy, 0);
    if NearestCell(ok, ix, iy).Some? {
      var c := NearestCell(ok, ix, iy).value;
      assert ok(c) && RingOf(ix, iy, c) < MaxRadius + 1;
    }
  }

  /** Every site is the centre of a cell passing ok. */
  ghost predicate SitesBuildable(ok: Cell -> bool, sites: seq<Point2D>)
  {
    forall p :: p in sites ==> p == Center(CellOf(p)) && ok(CellOf(p))
  }

  /** The sites found for the targets, in order; a target with none is
      skipped. */
  function FoundSites(ok: Cell -> bool, targets: seq<Point2D>): seq<Point2D>
  {
    if targets == [] then []
    else
      var rest := FoundSites(ok, targets[1..]);
      match Nearest(ok, targets[0].x, targets[0].y)
      case None => rest
      case Some(p) => [p] + rest
  }

  /** Every site found is the centre of a cell passing ok, and there is at
      most one per target. */
  lemma {:induction false} FoundSitesBuildable(ok: Cell -> bool, targets: seq<Point2D>)
    ensures SitesBuildable(ok, FoundSites(ok, targets))
    ensures |FoundSites(ok, targets)| <= |targets|
  {
    if targets != [] {
      FoundSitesBuildable(ok, targets[1..]);
      var ix, iy := RoundHalfEven(targets[0].x), RoundHalfEven(targets[0].y);
      NearestFound(ok, ix, iy);
      if NearestCell(ok, ix, iy).Some? {
        CellOfCenter(NearestCell(ok, ix, iy).value);
      }
    }
  }

  /** Appending buildable sites keeps every site buildable. */
  lemma SitesAppend(ok: Cell -> bool, a: seq<Point2D>, b: seq<Point2D>)
    requires SitesBuildable(ok, a) && SitesBuildable(ok, b)
    ensures SitesBuildable(ok, a + b)
  {
  }

  // ---------------------------------------------------------------------
  // The objects

  /** A BuildJob: the position and structure are fixed, the rest is updated
      in place by the Process* methods. */
  class BuildJob {
    const position: Point2D
    const structureType: int
    var scvTag: nat
    var state: BuildState
    var lastUpdateFrame: int

    /** A new job waits for an SCV, with no SCV tag and frame 0. */
    constructor(position: Point2D, structureType: int)
      ensures View() == Job(position, structureType, 0, NeedingSCV, 0)
    {
      this.position := position;
      this.structureType := structureType;
      scvTag := 0;
      state := NeedingSCV;
      lastUpdateFrame := 0;
    }

    function View(): Job
      reads this
    {
      Job(position, structureType, scvTag, state, lastUpdateFrame)
    }
  }

  /** CreateWallPositions' three targets, k = -1, 0, 1: two tiles from the
      ramp towards the base along the unit direction (dirX, dirY), then k
      times three tiles along its perpendicular. */
  function WallTarget(rampCenter: Point2D, dirX: real, dirY: real, k: int): Point2D
  {
    var perpX := -dirY;
    var perpY := dirX;
    Point2D(rampCenter.x + dirX * 2.0 + perpX * k as real * 3.0, rampCenter.y + dirY * 2.0 + perpY * k as real * 3.0)
  }

  /** The three targets in the order the loop visits them. */
  function WallTargets(rampCenter: Point2D, dirX: real, dirY: real): (ts: seq<Point2D>)
    ensures |ts| == 3
  {
    [WallTarget(rampCenter, dirX, dirY, -1), WallTarget(rampCenter, dirX, dirY, 0), WallTarget(rampCenter, dirX, dirY, 1)]
  }

  /** The bytes at the cell of an in-bounds read exist. */
  predicate BitsCover(data: seq<bv8>, width: int, height: int, x: int, y: int)
  {
    0 <= x < width && 0 <= y < height ==> (y * width + x) / 8 < |data|
  }

  class WallManager {
    const gameInfo: GameInfo
    const placementData: seq<bv8>
    const placeWidth: int
    const placeHeight: int
    var wallPositions: seq<Point2D>
    var buildJobs: map<Point2D, BuildJob>

    /** Every wall position is the centre of a buildable cell, and the jobs
        keep JobsOk. */
    ghost predicate Valid()
      reads this, buildJobs.Values
    {
      SitesBuildable(Buildable(), wallPositions) && JobsOk(Jobs(), wallPositions)
    }

    /** The jobs by position, as values. */
    function Jobs(): map<Point2D, Job>
      reads `buildJobs, buildJobs.Values
    {
      map p | p in buildJobs :: buildJobs[p].View()
    }

    /** The placement grid is copied out of the game info; there are no wall
        positions and no jobs yet. */
    constructor(info: GameInfo)
      ensures gameInfo == info
      ensures placementData == info.placementGrid.data
      ensures placeWidth == info.placementGrid.sizeX && placeHeight == info.placementGrid.sizeY
      ensures wallPositions == [] && buildJobs == map[]
      ensures Valid()
    {
      gameInfo := info;
      placementData := info.placementGrid.data;
      placeWidth := info.placementGrid.sizeX;
      placeHeight := info.placementGrid.sizeY;
      wallPositions := [];
      buildJobs := map[];
    }

    // -------------------------------------------------------------------
    // Decoders

    /** IsBuildable: false off the placement grid or past the end of its
        data, else the mask 1 << (7 − i % 8) on byte i / 8, i = y·width + x. */
    predicate IsBuildable(x: int, y: int)
    {
      if x < 0 || y < 0 || x >= placeWidth || y >= placeHeight then false
      else
        var cellIndex := y * placeWidth + x;
        MapAnalysis.NonNegIndex(x, y, placeWidth);
        var byteIndex := cellIndex / 8;
        var bitIndex := cellIndex % 8;
        if byteIndex >= |placementData| then false
        else (placementData[byteIndex] & ((1 as bv8) << (7 - bitIndex))) != 0
    }

    /** IsBuildable as a test on cells. */
    function Buildable(): Cell -> bool
    {
      (c: Cell) => IsBuildable(c.x, c.y)
    }

    /** The mask test reads the same bit as MapAnalysisService's shift test,
        so the two IsBuildable decoders agree everywhere. */
    lemma BuildableAgreesWithAnalysis(x: int, y: int)
      ensures IsBuildable(x, y) == MapAnalysis.IsBuildable(x, y, placeWidth, placeHeight, placementData)
    {
      if 0 <= x < placeWidth && 0 <= y < placeHeight {
        MapAnalysis.NonNegIndex(x, y, placeWidth);
        var i := y * placeWidth + x;
        if i / 8 < |placementData| {
          MaskIsShift(placementData[i / 8], 7 - i % 8);
        }
      }
    }

    /** IsPathable: false off the pathing grid, else bit 7 − i % 8 of byte
        i / 8 with no check on the length of the data. */
    predicate IsPathable(x: int, y: int)
      requires BitsCover(gameInfo.pathingGrid.data, gameInfo.pathingGrid.sizeX, gameInfo.pathingGrid.sizeY, x, y)
      ensures !(0 <= x < gameInfo.pathingGrid.sizeX && 0 <= y < gameInfo.pathingGrid.sizeY) ==> !IsPathable(x, y)
    {
      var width := gameInfo.pathingGrid.sizeX;
      var height := gameInfo.pathingGrid.sizeY;
      if x < 0 || y < 0 || x >= width || y >= height then false
      else
        MapAnalysis.NonNegIndex(x, y, width);
        var i := y * width + x;
        MapAnalysis.BitSet(gameInfo.pathingGrid.data[i / 8], 7 - i % 8)
    }

    /** Where its bytes exist, IsPathable reads the pathing grid with the
        same bit order as the placement decoder reads the placement grid. */
    lemma PathableIsBuildableOrder(x: int, y: int)
      requires BitsCover(gameInfo.pathingGrid.data, gameInfo.pathingGrid.sizeX, gameInfo.pathingGrid.sizeY, x, y)
      ensures IsPathable(x, y) ==
                MapAnalysis.IsBuildable(x, y, gameInfo.pathingGrid.sizeX, gameInfo.pathingGrid.sizeY,
                                        gameInfo.pathingGrid.data)
    {
    }

    /** GetTerrainHeight: 0 off the height map, else the unchecked byte at
        y·width + x. */
    function GetTerrainHeight(x: int, y: int): (h: int)
      requires var t := gameInfo.terrainHeight;
               0 <= x < t.sizeX && 0 <= y < t.sizeY ==> y * t.sizeX + x < |t.data|
      ensures 0 <= h < 256
      ensures !(0 <= x < gameInfo.terrainHeight.sizeX && 0 <= y < gameInfo.terrainHeight.sizeY) ==> h == 0
    {
      var heightMap := gameInfo.terrainHeight;
      var width := heightMap.sizeX;
      if x < 0 || y < 0 || x >= width || y >= heightMap.sizeY then 0
      else
        MapAnalysis.NonNegIndex(x, y, width);
        heightMap.data[y * width + x] as int
    }

    /** When the height map has the pathing grid's size, GetTerrainHeight
        reads what MapDataService's MapHeightValue reads. */
    lemma TerrainHeightAgreesWithMapData(x: int, y: int)
      requires gameInfo.terrainHeight.sizeX == gameInfo.pathingGrid.sizeX
      requires gameInfo.terrainHeight.sizeY == gameInfo.pathingGrid.sizeY
      requires var t := gameInfo.terrainHeight;
               0 <= x < t.sizeX && 0 <= y < t.sizeY ==> y * t.sizeX + x < |t.data|
      ensures GetTerrainHeight(x, y) == MapData.MapHeightValue(MapData.FromGameInfo(gameInfo), x, y)
    {
      var m := MapData.FromGameInfo(gameInfo);
      if MapData.InBounds(m, x, y) {
        MapAnalysis.NonNegIndex(x, y, m.width);
        assert MapData.Index(m, x, y) == y * m.width + x;
      }
    }

    // -------------------------------------------------------------------
    // FindNearestBuildable

    /** The innermost loop of FindNearestBuildable: rows iy − r to iy + r of
        column ix + dx, stopping at the first buildable cell. */
    method ScanColumnLoop(ix: int, iy: int, r: int, dx: int) returns (found: Option<Cell>)
      requires 0 <= r
      ensures found == ScanColumn(Buildable(), ix, iy, r, dx, -r)
    {
      var dy := -r;
      while dy <= r
        invariant -r <= dy <= r + 1
        invariant ScanColumn(Buildable(), ix, iy, r, dx, -r) == ScanColumn(Buildable(), ix, iy, r, dx, dy)
      {
        var px := ix + dx;
        var py := iy + dy;
        assert Buildable()(Cell(px, py)) == IsBuildable(px, py);
        if IsBuildable(px, py) {
          return Some(Cell(px, py));
        }
        dy := dy + 1;
      }
      return None;
    }

    /** The middle loop: columns ix − r to ix + r of the square of radius r. */
    method ScanSquareLoop(ix: int, iy: int, r: int) returns (found: Option<Cell>)
      requires 0 <= r
      ensures found == ScanSquare(Buildable(), ix, iy, r, -r)
    {
      var dx := -r;
      while dx <= r
        invariant -r <= dx <= r + 1
        invariant ScanSquare(Buildable(), ix, iy, r, -r) == ScanSquare(Buildable(), ix, iy, r, dx)
      {
        found := ScanColumnLoop(ix, iy, r, dx);
        if found.Some? {
          return;
        }
        dx := dx + 1;
      }
      return None;
    }

    /** FindNearestBuildable: the squares of radius 0 to 8 around the rounded
        input in turn, returning the centre of the first buildable cell. */
    method FindNearestBuildable(x: real, y: real) returns (result: Option<Point2D>)
      ensures result == Nearest(Buildable(), x, y)
    {
      var ix := RoundHalfEven(x);
      var iy := RoundHalfEven(y);
      var maxRadius := 8;
      var r := 0;
      while r <= maxRadius
        invariant 0 <= r <= maxRadius + 1
        invariant ScanRadii(Buildable(), ix, iy, 0) == ScanRadii(Buildable(), ix, iy, r)
      {
        var found := ScanSquareLoop(ix, iy, r);
        if found.Some? {
          return Some(Center(found.value));
        }
        r := r + 1;
      }
      return None;
    }

    /** The loop of CreateWallPositions: for each target in turn, the
        nearest buildable site, when there is one, becomes a wall position. */
    method AddWallPositions(targets: seq<Point2D>)
      modifies `wallPositions
      ensures wallPositions == old(wallPositions) + FoundSites(Buildable(), targets)
    {
      for i := 0 to |targets|
        invariant wallPositions + FoundSites(Buildable(), targets[i..]) == old(wallPositions) + FoundSites(Buildable(), targets)
      {
        var target := targets[i];
        assert targets[i..] == [target] + targets[i + 1..];
        var pos := FindNearestBuildable(target.x, target.y);
        if pos.Some? {
          wallPositions := wallPositions + [pos.value];
        }
      }
      assert targets[|targets|..] == [];
    }

    /** CreateWallPositions, given the unit direction from the ramp to the
        base: a wall position for each of the three targets that has a
        buildable cell nearby. */
    method CreateWallPositions(rampCenter: Point2D, dirX: real, dirY: real)
      requires Valid()
      modifies `wallPositions
      ensures Valid()
      ensures wallPositions == old(wallPositions) + FoundSites(Buildable(), WallTargets(rampCenter, dirX, dirY))
      ensures buildJobs == old(buildJobs)
    {
      var targets := WallTargets(rampCenter, dirX, dirY);
      AddWallPositions(targets);
      FoundSitesBuildable(Buildable(), targets);
      SitesAppend(Buildable(), old(wallPositions), FoundSites(Buildable(), targets));
      JobsOkAppend(Jobs(), old(wallPositions), FoundSites(Buildable(), targets));
    }

    // -------------------------------------------------------------------
    // Build jobs

    /** The loop of CreateBuildJobs: at the first wall position without a
        job or a structure, a new job if the minerals cover it and every
        pending job; a position that fails the mineral test is skipped. */
    method AddFirstOpenJob(v: UnitsView, minerals: int, currentFrame: int)
      modifies `buildJobs
      ensures Jobs() == Created(old(Jobs()), wallPositions, v.structures, minerals, currentFrame)
      ensures forall p :: p in old(buildJobs) ==> p in buildJobs && buildJobs[p] == old(buildJobs[p])
    {
      ghost var jobs0 := Jobs();
      var i := 0;
      while i < |wallPositions|
        invariant 0 <= i <= |wallPositions|
        invariant buildJobs == old(buildJobs) && Jobs() == jobs0
        invariant || FirstOpen(wallPositions, jobs0, v.structures) == FirstOpen(wallPositions[i..], jobs0, v.structures)
                  || (FirstOpen(wallPositions, jobs0, v.structures).Some?
                      && minerals < (PendingCount(jobs0) + 1) * DepotCost)
      {
        var position := wallPositions[i];
        assert wallPositions[i..] == [position] + wallPositions[i + 1..];
        if position in buildJobs || position in v.structures {
          i := i + 1;
          continue;
        }
        var pendingJobs := PendingCount(Jobs());
        var requiredMinerals := (pendingJobs + 1) * DepotCost;
        if minerals < requiredMinerals {
          i := i + 1;
          continue;
        }
        var job := new BuildJob(position, SupplyDepot);
        job.lastUpdateFrame := currentFrame;
        buildJobs := buildJobs[position := job];
        assert Jobs() == jobs0[position := NewJob(position, currentFrame)];
        return;
      }
      assert wallPositions[|wallPositions|..] == [];
    }

    /** CreateBuildJobs: at most one new job per call, at the first wall
        position without a job or a structure, if the minerals allow. */
    method CreateBuildJobs(v: UnitsView, minerals: int, currentFrame: int)
      requires Valid()
      modifies `buildJobs
      ensures Valid()
      ensures Jobs() == Created(old(Jobs()), wallPositions, v.structures, minerals, currentFrame)
      ensures wallPositions == old(wallPositions)
      ensures forall p :: p in old(buildJobs) ==> p in buildJobs && buildJobs[p] == old(buildJobs[p])
    {
      AddFirstOpenJob(v, minerals, currentFrame);
      CreatedKeepsJobsOk(old(Jobs()), wallPositions, v.structures, minerals, currentFrame);
    }

    method ProcessNeedingSCV(job: BuildJob, v: UnitsView, currentFrame: int) returns (action: Option<Action>)
      requires job.state == NeedingSCV
      modifies job
      ensures job.View() == NeedingStep(old(job.View()), v, currentFrame).0
      ensures action == NeedingStep(old(job.View()), v, currentFrame).1
    {
      if v.builder.None? {
        return None;
      }
      job.scvTag := v.builder.value;
      job.state := MovingToSite;
      job.lastUpdateFrame := currentFrame;
      action := Some(Move(v.builder.value, job.position));
    }

    method ProcessMovingToSite(job: BuildJob, v: UnitsView, currentFrame: int) returns (action: Option<Action>)
      requires job.state == MovingToSite
      modifies job
      ensures job.View() == MovingStep(old(job.View()), v, currentFrame).0
      ensures action == MovingStep(old(job.View()), v, currentFrame).1
    {
      action := None;
      if job.scvTag !in v.positions {
        job.state := NeedingSCV;
        return;
      }
      var distanceSq := DistSq(v.positions[job.scvTag], job.position);
      if distanceSq < 9.0 {
        job.state := ReadyToBuild;
        job.lastUpdateFrame := currentFrame;
      } else if job.scvTag in v.idle && distanceSq > 25.0 {
        action := Some(Move(job.scvTag, job.position));
      }
      job.lastUpdateFrame := currentFrame;
    }

    method ProcessReadyToBuild(job: BuildJob, v: UnitsView, currentFrame: int) returns (action: Option<Action>)
      requires job.state == ReadyToBuild
      modifies job
      ensures job.View() == ReadyStep(old(job.View()), v, currentFrame).0
      ensures action == ReadyStep(old(job.View()), v, currentFrame).1
    {
      if job.scvTag !in v.positions {
        job.state := NeedingSCV;
        return None;
      }
      action := Some(Build(job.scvTag, job.structureType, job.position));
      job.state := Building;
      job.lastUpdateFrame := currentFrame;
    }

    method ProcessBuilding(job: BuildJob, v: UnitsView, currentFrame: int)
      requires job.state == Building
      modifies job
      ensures job.View() == BuildingStep(old(job.View()), v, currentFrame)
    {
      if job.scvTag !in v.positions {
        return;
      }
      job.lastUpdateFrame := currentFrame;
    }

    /** The switch on the job's state. */
    method ProcessJob(job: BuildJob, v: UnitsView, currentFrame: int) returns (action: Option<Action>)
      modifies job
      ensures job.View() == JobStep(old(job.View()), v, currentFrame).0
      ensures action == JobStep(old(job.View()), v, currentFrame).1
    {
      action := None;
      match job.state {
        case NeedingSCV => action := ProcessNeedingSCV(job, v, currentFrame);
        case MovingToSite => action := ProcessMovingToSite(job, v, currentFrame);
        case ReadyToBuild => action := ProcessReadyToBuild(job, v, currentFrame);
        case Building => ProcessBuilding(job, v, currentFrame);
        case Complete =>
      }
    }

    /** Every job is stored under its own position, so jobs at different
        keys are different objects. */
    ghost predicate Keyed()
      reads this, buildJobs.Values
    {
      forall p :: p in buildJobs ==> buildJobs[p].position == p
    }

    /** Partway through the pass, on the objects. */
    ghost predicate PassInv(jobs0: map<Point2D, Job>, done: set<Point2D>, jobsToRemove: seq<Point2D>,
                            actions: seq<Action>, v: UnitsView, frame: int)
      reads this, buildJobs.Values
    {
      Keyed() && PassState(jobs0, done, Jobs(), jobsToRemove, actions, v, frame)
    }

    /** One turn of the pass over the dictionary. */
    method VisitJob(position: Point2D, ghost jobs0: map<Point2D, Job>, ghost done: set<Point2D>,
                    jobsToRemove: seq<Point2D>, actions: seq<Action>, v: UnitsView, currentFrame: int)
      returns (jobsToRemove': seq<Point2D>, actions': seq<Action>)
      requires PassInv(jobs0, done, jobsToRemove, actions, v, currentFrame)
      requires position in buildJobs && position !in done
      modifies buildJobs[position]
      ensures PassInv(jobs0, done + {position}, jobsToRemove', actions', v, currentFrame)
      ensures buildJobs == old(buildJobs) && wallPositions == old(wallPositions)
    {
      ghost var cur := Jobs();
      PassStep(jobs0, done, cur, jobsToRemove, actions, v, currentFrame, position);
      var job := buildJobs[position];
      jobsToRemove' := jobsToRemove;
      actions' := actions;
      if position in v.structures {
        jobsToRemove' := jobsToRemove + [position];
        return;
      }
      var action := ProcessJob(job, v, currentFrame);
      assert Jobs() == cur[position := job.View()];
      if action.Some? {
        actions' := actions + [action.value];
      }
      if currentFrame - job.lastUpdateFrame > StaleFrames {
        jobsToRemove' := jobsToRemove' + [position];
      }
    }

    /** The clean-up loop after the pass. */
    method RemoveJobs(jobsToRemove: seq<Point2D>)
      modifies `buildJobs
      ensures forall p :: p in buildJobs <==> p in old(buildJobs) && p !in jobsToRemove
      ensures forall p :: p in buildJobs ==> buildJobs[p] == old(buildJobs)[p]
      ensures wallPositions == old(wallPositions)
    {
      for i := 0 to |jobsToRemove|
        invariant forall p :: p in buildJobs <==> p in old(buildJobs) && p !in jobsToRemove[..i]
        invariant forall p :: p in buildJobs ==> buildJobs[p] == old(buildJobs)[p]
        invariant wallPositions == old(wallPositions)
      {
        assert jobsToRemove[..i + 1] == jobsToRemove[..i] + [jobsToRemove[i]];
        buildJobs := buildJobs - {jobsToRemove[i]};
      }
      assert jobsToRemove[..|jobsToRemove|] == jobsToRemove;
    }

    /** The foreach over the dictionary: every job is stepped once, the
        positions to drop are collected and the commands gathered. */
    method VisitAll(v: UnitsView, currentFrame: int) returns (jobsToRemove: seq<Point2D>, actions: seq<Action>)
      requires forall p :: p in buildJobs ==> buildJobs[p].position == p
      modifies buildJobs.Values
      ensures PassInv(old(Jobs()), old(Jobs()).Keys, jobsToRemove, actions, v, currentFrame)
      ensures buildJobs == old(buildJobs) && wallPositions == old(wallPositions)
    {
      ghost var jobs0 := Jobs();
      jobsToRemove := [];
      actions := [];
      var todo := buildJobs.Keys;
      assert EmittedFrom(jobs0, {}, v, currentFrame) == {};
      while todo != {}
        invariant todo <= buildJobs.Keys
        invariant buildJobs == old(buildJobs) && wallPositions == old(wallPositions)
        invariant PassInv(jobs0, jobs0.Keys - todo, jobsToRemove, actions, v, currentFrame)
        decreases |todo|
      {
        var position :| position in todo;
        jobsToRemove, actions := VisitJob(position, jobs0, jobs0.Keys - todo, jobsToRemove, actions, v, currentFrame);
        DoneStep(jobs0.Keys, todo, position);
        todo := todo - {position};
      }
      assert jobs0.Keys - todo == jobs0.Keys;
    }

    /** ProcessBuildJobs: each job in turn, in the dictionary's unspecified
        order; finished and stale jobs are collected and removed after the
        pass. */
    method ProcessBuildJobs(v: UnitsView, currentFrame: int) returns (actions: seq<Action>)
      requires Valid()
      modifies `buildJobs, buildJobs.Values
      ensures Valid()
      ensures Jobs() == Processed(old(Jobs()), v, currentFrame)
      ensures forall a :: a in actions <==> a in Emitted(old(Jobs()), v, currentFrame)
      ensures wallPositions == old(wallPositions)
    {
      ghost var jobs0 := Jobs();
      assert forall p :: p in buildJobs ==> buildJobs[p].position == jobs0[p].position;
      var jobsToRemove;
      jobsToRemove, actions := VisitAll(v, currentFrame);
      ghost var jobs1 := Jobs();
      assert forall p :: p in jobs1 ==>
               jobs1[p] == if p in v.structures then jobs0[p] else JobStep(jobs0[p], v, currentFrame).0;
      ghost var objs := buildJobs;
      RemoveJobs(jobsToRemove);
      ghost var jobs2 := Jobs();
      assert forall p :: p in jobs2 <==> p in jobs1 && p !in jobsToRemove;
      forall p | p in jobs2 ensures jobs2[p] == jobs1[p] {
        assert buildJobs[p] == objs[p];
        assert jobs1[p] == objs[p].View();
      }
      ProcessedFromPass(jobs0, jobs1, jobsToRemove, jobs2, v, currentFrame);
      ProcessedKeepsJobsOk(jobs0, wallPositions, v, currentFrame);
    }
  }

  /** Partway through the pass: the jobs at the keys done have taken their
      step unless their structure exists, the others are untouched, and the
      removals and commands so far are those of the keys done. */
  ghost predicate PassState(jobs0: map<Point2D, Job>, done: set<Point2D>, cur: map<Point2D, Job>,
                            jobsToRemove: seq<Point2D>, actions: seq<Action>, v: UnitsView, frame: int)
  {
    && cur.Keys == jobs0.Keys && done <= jobs0.Keys
    && (forall p :: p in cur ==>
          cur[p] == if p !in done || p in v.structures then jobs0[p] else JobStep(jobs0[p], v, frame).0)
    && (forall p :: p in jobsToRemove <==>
          p in done && (p in v.structures || Stale(JobStep(jobs0[p], v, frame).0, frame)))
    && (forall a :: a in actions <==> a in EmittedFrom(jobs0, done, v, frame))
  }

  /** Visiting key p: a job with a structure is only marked for removal;
      any other takes its step, adds its command if it has one, and is
      marked when it is stale after the step. */
  lemma PassStep(jobs0: map<Point2D, Job>, done: set<Point2D>, cur: map<Point2D, Job>,
                 jobsToRemove: seq<Point2D>, actions: seq<Action>, v: UnitsView, frame: int, p: Point2D)
    requires PassState(jobs0, done, cur, jobsToRemove, actions, v, frame)
    requires p in cur && p !in done
    ensures cur[p] == jobs0[p]
    ensures p in v.structures ==>
              PassState(jobs0, done + {p}, cur, jobsToRemove + [p], actions, v, frame)
    ensures p !in v.structures ==>
              var (j, a) := JobStep(cur[p], v, frame);
              var actions' := if a.Some? then actions + [a.value] else actions;
              var jobsToRemove' := if Stale(j, frame) then jobsToRemove + [p] else jobsToRemove;
              PassState(jobs0, done + {p}, cur[p := j], jobsToRemove', actions', v, frame)
  {
    EmittedStep(jobs0, done, p, v, frame);
  }

  /** Taking one key off the to-do set adds it to the done set. */
  lemma DoneStep(all: set<Point2D>, todo: set<Point2D>, x: Point2D)
    requires x in todo && todo <= all
    ensures all - (todo - {x}) == (all - todo) + {x}
    ensures |todo - {x}| < |todo|
  {
  }

  /** The table left after the pass and the clean-up is Processed. */
  lemma ProcessedFromPass(jobs0: map<Point2D, Job>, stepped: map<Point2D, Job>, removed: seq<Point2D>,
                          result: map<Point2D, Job>, v: UnitsView, frame: int)
    requires stepped.Keys == jobs0.Keys
    requires forall p :: p in stepped ==>
               stepped[p] == if p in v.structures then jobs0[p] else JobStep(jobs0[p], v, frame).0
    requires forall p :: p in removed <==>
               p in jobs0 && (p in v.structures || Stale(JobStep(jobs0[p], v, frame).0, frame))
    requires forall p :: p in result <==> p in stepped && p !in removed
    requires forall p :: p in result ==> result[p] == stepped[p]
    ensures result == Processed(jobs0, v, frame)
  {
  }

  /** Visiting one more key adds that job's command, if it has one. */
  lemma EmittedStep(jobs: map<Point2D, Job>, done: set<Point2D>, p: Point2D, v: UnitsView, frame: int)
    requires p in jobs
    ensures EmittedFrom(jobs, done + {p}, v, frame) ==
              EmittedFrom(jobs, done, v, frame)
              + if p !in v.structures && JobStep(jobs[p], v, frame).1.Some? then {JobStep(jobs[p], v, frame).1.value} else {}
  {
  }

  /** The mask 1 << k tests the same bit as a shift by k and a mask of 1. */
  lemma MaskIsShift(b: bv8, k: int)
    requires 0 <= k < 8
    ensures ((b & ((1 as bv8) << k)) != 0) == MapAnalysis.BitSet(b, k)
  {
    if k == 0 {
    } else if k == 1 {
    } else if k == 2 {
    } else if k == 3 {
    } else if k == 4 {
    } else if k == 5 {
    } else if k == 6 {
    } else {
    }
  }
}
