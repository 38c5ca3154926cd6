/** PathingHelper: circular waypoint paths around a point that skip points
    close to enemy combat units, and a cache of such paths by name. The
    source keeps the cache in a static dictionary; here it is the one
    field of a PathingHelper object. */
module Pathing {
  import opened Common

  const SCV := 45

  /** The protocol's alliance values. */
  datatype Alliance = Self | Ally | Neutral | Enemy

  /** An observed unit: whose it is, its type and where it stands. */
  datatype Unit = Unit(alliance: Alliance, unitType: int, pos: Point2D)

  /** Distance(a, b) < r, with the square root removed: for r > 0 this is
      DistSq(a, b) < r * r, and no distance is below a radius r <= 0. */
  predicate Closer(a: Point2D, b: Point2D, r: real)
  {
    r > 0.0 && DistSq(a, b) < r * r
  }

  /** Only enemy units that are not SCVs can block a point. */
  predicate Blocks(u: Unit, p: Point2D, avoidanceRadius: real)
  {
    u.alliance == Enemy && u.unitType != SCV && Closer(u.pos, p, avoidanceRadius)
  }

  /** Some unit of the list blocks p. */
  predicate Blocked(units: seq<Unit>, p: Point2D, avoidanceRadius: real)
  {
    exists j :: 0 <= j < |units| && Blocks(units[j], p, avoidanceRadius)
  }

  /** The i-th of `segments` points on the circle. The angle is the fraction
      i / segments of a full turn; `onCircle` gives the cosine and sine of
      such a fraction. */
  function CirclePoint(center: Point2D, radius: real, segments: int, i: int,
                       onCircle: real -> (real, real)): Point2D
    requires segments > 0
  {
    var cs := onCircle(i as real / segments as real);
    Point2D(center.x + radius * cs.0, center.y + radius * cs.1)
  }

  /** Point i is kept unless some unit to avoid blocks it; with no list
      every point is kept. */
  predicate Kept(center: Point2D, radius: real, segments: int, i: int,
                 unitsToAvoid: Option<seq<Unit>>, avoidanceRadius: real,
                 onCircle: real -> (real, real))
    requires segments > 0
  {
    unitsToAvoid.None? ||
    !Blocked(unitsToAvoid.value, CirclePoint(center, radius, segments, i, onCircle), avoidanceRadius)
  }

  /** The kept points among the first n, in order. */
  function Waypoints(center: Point2D, radius: real, segments: int, n: nat,
                     unitsToAvoid: Option<seq<Unit>>, avoidanceRadius: real,
                     onCircle: real -> (real, real)): seq<Point2D>
    requires n <= segments
  {
    if n == 0 then []
    else
      var earlier := Waypoints(center, radius, segments, n - 1, unitsToAvoid, avoidanceRadius, onCircle);
      if Kept(center, radius, segments, n - 1, unitsToAvoid, avoidanceRadius, onCircle)
      then earlier + [CirclePoint(center, radius, segments, n - 1, onCircle)]
      else earlier
  }

  /** The path CreateCircularPath returns: all `segments` points with the
      blocked ones dropped, or nothing for segments <= 0. */
  function CircularPath(center: Point2D, radius: real, segments: int,
                        unitsToAvoid: Option<seq<Unit>>, avoidanceRadius: real,
                        onCircle: real -> (real, real)): seq<Point2D>
  {
    if segments <= 0 then []
    else Waypoints(center, radius, segments, segments, unitsToAvoid, avoidanceRadius, onCircle)
  }

  /** The first n points yield at most n waypoints, exactly n when nothing
      blocks any of them, and every waypoint is an unblocked circle point. */
  lemma {:induction false} WaypointsFacts(center: Point2D, radius: real, segments: int, n: nat,
                                          unitsToAvoid: Option<seq<Unit>>, avoidanceRadius: real,
                                          onCircle: real -> (real, real))
    requires n <= segments
    ensures |Waypoints(center, radius, segments, n, unitsToAvoid, avoidanceRadius, onCircle)| <= n
    ensures (forall i :: 0 <= i < n ==> Kept(center, radius, segments, i, unitsToAvoid, avoidanceRadius, onCircle)) ==>
      |Waypoints(center, radius, segments, n, unitsToAvoid, avoidanceRadius, onCircle)| == n
    ensures forall p :: p in Waypoints(center, radius, segments, n, unitsToAvoid, avoidanceRadius, onCircle) ==>
      exists i :: 0 <= i < n && p == CirclePoint(center, radius, segments, i, onCircle)
                && Kept(center, radius, segments, i, unitsToAvoid, avoidanceRadius, onCircle)
  {
    if n > 0 {
      WaypointsFacts(center, radius, segments, n - 1, unitsToAvoid, avoidanceRadius, onCircle);
    }
  }

  /** What the source promises of the path: at most `segments` points, none
      for segments <= 0, exactly `segments` without a list of units to
      avoid, and each point on the circle and not blocked. */
  lemma CircularPathFacts(center: Point2D, radius: real, segments: int,
                          unitsToAvoid: Option<seq<Unit>>, avoidanceRadius: real,
                          onCircle: real -> (real, real))
    ensures |CircularPath(center, radius, segments, unitsToAvoid, avoidanceRadius, onCircle)| <= Max(segments, 0)
    ensures segments <= 0 ==> CircularPath(center, radius, segments, unitsToAvoid, avoidanceRadius, onCircle) == []
    ensures unitsToAvoid.None? ==>
      |CircularPath(center, radius, segments, unitsToAvoid, avoidanceRadius, onCircle)| == Max(segments, 0)
    ensures forall p :: p in CircularPath(center, radius, segments, unitsToAvoid, avoidanceRadius, onCircle) ==>
      exists i :: 0 <= i < segments && p == CirclePoint(center, radius, segments, i, onCircle)
                && !(unitsToAvoid.Some? && Blocked(unitsToAvoid.value, p, avoidanceRadius))
  {
    if segments > 0 {
      WaypointsFacts(center, radius, segments, segments, unitsToAvoid, avoidanceRadius, onCircle);
    }
  }

  /** Units that are ours, neutral, or enemy SCVs never block anything: with
      only such units to avoid, every point is kept. */
  lemma HarmlessUnitsBlockNothing(center: Point2D, radius: real, segments: int,
                                  units: seq<Unit>, avoidanceRadius: real,
                                  onCircle: real -> (real, real))
    requires forall j :: 0 <= j < |units| ==> units[j].alliance != Enemy || units[j].unitType == SCV
    ensures |CircularPath(center, radius, segments, Some(units), avoidanceRadius, onCircle)| == Max(segments, 0)
  {
    if segments > 0 {
      WaypointsFacts(center, radius, segments, segments, Some(units), avoidanceRadius, onCircle);
    }
  }

  /** The foreach over the units to avoid, stopping at the first blocker. */
  method IsBlocked(units: seq<Unit>, point: Point2D, avoidanceRadius: real) returns (blocked: bool)
    ensures blocked <==> Blocked(units, point, avoidanceRadius)
  {
    blocked := false;
    var j := 0;
    while j < |units|
      invariant 0 <= j <= |units|
      invariant forall k :: 0 <= k < j ==> !Blocks(units[k], point, avoidanceRadius)
    {
      var unit := units[j];
      j := j + 1;
      if unit.alliance != Enemy {
        continue;
      }
      if unit.unitType == SCV {
        continue;
      }
      if Closer(unit.pos, point, avoidanceRadius) {
        blocked := true;
        break;
      }
    }
  }

  method CreateCircularPath(center: Point2D, radius: real, segments: int,
                            unitsToAvoid: Option<seq<Unit>>, avoidanceRadius: real,
                            onCircle: real -> (real, real))
    returns (waypoints: seq<Point2D>)
    ensures waypoints == CircularPath(center, radius, segments, unitsToAvoid, avoidanceRadius, onCircle)
  {
    waypoints := [];
    if segments <= 0 {
      return;
    }
    for i := 0 to segments
      invariant waypoints == Waypoints(center, radius, segments, i, unitsToAvoid, avoidanceRadius, onCircle)
    {
      var point := CirclePoint(center, radius, segments, i, onCircle);
      var blocked := false;
      if unitsToAvoid.Some? {
        blocked := IsBlocked(unitsToAvoid.value, point, avoidanceRadius);
      }
      if !blocked {
        waypoints := waypoints + [point];
      }
    }
  }

  /** The cache lookup as a value: the answer and the cache afterwards. A
      hit returns the stored path and leaves the cache alone; a miss stores
      the freshly computed path under the key. */
  function Lookup(cache: map<string, seq<Point2D>>, key: string, computed: seq<Point2D>)
    : (r: (seq<Point2D>, map<string, seq<Point2D>>))
    ensures key in cache ==> r == (cache[key], cache)
    ensures key !in cache ==> r.0 == computed && r.1.Keys == cache.Keys + {key}
    ensures forall k :: k in cache && k != key ==> k in r.1 && r.1[k] == cache[k]
    ensures key in r.1 && r.1[key] == r.0
  {
    if key in cache then (cache[key], cache) else (computed, cache[key := computed])
  }

  /** Two consecutive lookups with the same key give the same path, whatever
      the second call would have computed. */
  lemma {:induction false} SecondLookupHits(cache: map<string, seq<Point2D>>, key: string,
                                            first: seq<Point2D>, second: seq<Point2D>)
    ensures Lookup(Lookup(cache, key, first).1, key, second).0 == Lookup(cache, key, first).0
    ensures Lookup(Lookup(cache, key, first).1, key, second).1 == Lookup(cache, key, first).1
  {
  }

  class PathingHelper {
    var cachedPaths: map<string, seq<Point2D>>

    constructor()
      ensures cachedPaths == map[]
    {
      cachedPaths := map[];
    }

    method GetOrCreateCircularPath(key: string, center: Point2D, radius: real, segments: int,
                                   unitsToAvoid: Option<seq<Unit>>, avoidanceRadius: real,
                                   onCircle: real -> (real, real))
      returns (path: seq<Point2D>)
      modifies `cachedPaths
      ensures (path, cachedPaths) ==
        Lookup(old(cachedPaths), key, CircularPath(center, radius, segments, unitsToAvoid, avoidanceRadius, onCircle))
    {
      if key in cachedPaths {
        return cachedPaths[key];
      }
      path := CreateCircularPath(center, radius, segments, unitsToAvoid, avoidanceRadius, onCircle);
      cachedPaths := cachedPaths[key := path];
    }

    method ClearPath(key: string)
      modifies `cachedPaths
      ensures cachedPaths == old(cachedPaths) - {key}
    {
      cachedPaths := cachedPaths - {key};
    }

    method ClearAllPaths()
      modifies `cachedPaths
      ensures cachedPaths == map[]
    {
      cachedPaths := map[];
    }
  }
}
