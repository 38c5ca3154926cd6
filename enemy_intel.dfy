/** EnemyIntel: what has been learnt about the opponent — its race, the unit
    and building types seen with how often each was seen, and which units
    each kind of building can produce. */
module Intel {
  /** The protocol's race values. */
  datatype Race = NoRace | Terran | Zerg | Protoss | Random

  // Building and unit type identifiers used by the building-to-unit table.
  const Barracks := 21
  const Factory := 27
  const Starport := 28
  const Gateway := 62
  const RoboFacility := 71
  const Stargate := 67
  const Hatchery := 86
  const Larva := 151
  const SpawningPool := 89
  const HydraliskDen := 91

  const Marine := 48
  const Marauder := 51
  const Ghost := 50
  const Reaper := 49
  const Hellion := 53
  const SiegeTank := 33
  const Thor := 52
  const Cyclone := 692
  const Medivac := 54
  const VikingFighter := 35
  const Liberator := 689
  const Banshee := 55
  const Battlecruiser := 57
  const Zealot := 73
  const Stalker := 74
  const Sentry := 77
  const Adept := 311
  const Observer := 82
  const WarpPrism := 81
  const Immortal := 83
  const Colossus := 4
  const Disruptor := 694
  const Phoenix := 78
  const VoidRay := 80
  const Oracle := 495
  const Carrier := 79
  const Tempest := 496
  const Zergling := 105
  const Drone := 104
  const Baneling := 9
  const Roach := 110
  const Hydralisk := 107
  const Mutalisk := 108
  const Infestor := 111
  const Ultralisk := 109
  const Lurker := 911

  /** The race after a report: the stored race is replaced only while it is
      still Random, and only by a race that is not Random. */
  function LatchRace(current: Race, reported: Race): (r: Race)
    ensures current != Random ==> r == current
    ensures current == Random ==> r == reported
  {
    if current == Random && reported != Random then reported else current
  }

  /** The race after a series of reports. */
  function RaceAfter(current: Race, reports: seq<Race>): Race
    decreases |reports|
  {
    if reports == [] then current else RaceAfter(LatchRace(current, reports[0]), reports[1..])
  }

  /** The first report that is not Random, or Random when there is none. */
  function FirstKnown(reports: seq<Race>): (r: Race)
    ensures r != Random ==> r in reports
  {
    if reports == [] then Random
    else if reports[0] != Random then reports[0]
    else FirstKnown(reports[1..])
  }

  /** Once known, the race never changes again. */
  lemma {:induction false} KnownRaceIsFinal(current: Race, reports: seq<Race>)
    requires current != Random
    ensures RaceAfter(current, reports) == current
    decreases |reports|
  {
    if reports != [] {
      KnownRaceIsFinal(LatchRace(current, reports[0]), reports[1..]);
    }
  }

  /** Starting from Random, the race is the first non-Random report. */
  lemma {:induction false} RaceIsFirstKnown(reports: seq<Race>)
    ensures RaceAfter(Random, reports) == FirstKnown(reports)
    decreases |reports|
  {
    if reports != [] {
      if reports[0] == Random {
        RaceIsFirstKnown(reports[1..]);
      } else {
        KnownRaceIsFinal(reports[0], reports[1..]);
      }
    }
  }

  /** The count recorded for t, zero when t has no entry. */
  function CountOf(counts: map<int, int>, t: int): int
  {
    if t in counts then counts[t] else 0
  }

  /** The count dictionary after one more sighting of t. */
  function Bump(counts: map<int, int>, t: int): (r: map<int, int>)
    ensures r.Keys == counts.Keys + {t}
    ensures r[t] == CountOf(counts, t) + 1
    ensures forall k :: k in counts && k != t ==> r[k] == counts[k]
  {
    counts[t := CountOf(counts, t) + 1]
  }

  /** A set and its count dictionary agree: the dictionary has an entry for
      exactly the types in the set, and every entry is at least one. */
  predicate Tallied(seen: set<int>, counts: map<int, int>)
  {
    counts.Keys == seen && forall k :: k in counts ==> counts[k] >= 1
  }

  /** One sighting keeps a set and its counts in agreement. */
  lemma BumpKeepsTallied(seen: set<int>, counts: map<int, int>, t: int)
    requires Tallied(seen, counts)
    ensures Tallied(seen + {t}, Bump(counts, t))
  {
    forall k | k in Bump(counts, t) ensures Bump(counts, t)[k] >= 1 {
      if k != t {
        assert k in counts;
      }
    }
  }

  /** The counts after a series of sightings. */
  function BumpAll(counts: map<int, int>, sightings: seq<int>): map<int, int>
    decreases |sightings|
  {
    if sightings == [] then counts else BumpAll(Bump(counts, sightings[0]), sightings[1..])
  }

  /** After any series of sightings, starting from nothing, each type's count
      is the number of times it was seen. */
  lemma {:induction false} BumpAllCounts(counts: map<int, int>, sightings: seq<int>, t: int)
    ensures CountOf(BumpAll(counts, sightings), t) == CountOf(counts, t) + multiset(sightings)[t]
    decreases |sightings|
  {
    if sightings != [] {
      BumpAllCounts(Bump(counts, sightings[0]), sightings[1..], t);
      assert sightings == [sightings[0]] + sightings[1..];
    }
  }

  /** The ten buildings InitializeBuildingUnitMapping writes. */
  const MappedBuildings: set<int> := {
    Barracks, Factory, Starport, Gateway, RoboFacility, Stargate, Hatchery,
    Larva, SpawningPool, HydraliskDen }

  /** The table after the ten assignments, in the order they are made. */
  function WithStandardMapping(m: map<int, seq<int>>): (r: map<int, seq<int>>)
    ensures r.Keys == m.Keys + MappedBuildings
    ensures forall b :: b in m && b !in MappedBuildings ==> r[b] == m[b]
    ensures r[Barracks] == [Marine, Marauder, Ghost, Reaper]
    ensures r[Factory] == [Hellion, SiegeTank, Thor, Cyclone]
    ensures r[Starport] == [Medivac, VikingFighter, Liberator, Banshee, Battlecruiser]
    ensures r[Gateway] == [Zealot, Stalker, Sentry, Adept]
    ensures r[RoboFacility] == [Observer, WarpPrism, Immortal, Colossus, Disruptor]
    ensures r[Stargate] == [Phoenix, VoidRay, Oracle, Carrier, Tempest]
    ensures r[Hatchery] == [Zergling, Drone]
    ensures r[Larva] == [Zergling, Baneling, Roach, Hydralisk, Mutalisk, Infestor, Ultralisk]
    ensures r[SpawningPool] == [Zergling, Baneling]
    ensures r[HydraliskDen] == [Hydralisk, Lurker]
  {
    m[Barracks := [Marine, Marauder, Ghost, Reaper]]
     [Factory := [Hellion, SiegeTank, Thor, Cyclone]]
     [Starport := [Medivac, VikingFighter, Liberator, Banshee, Battlecruiser]]
     [Gateway := [Zealot, Stalker, Sentry, Adept]]
     [RoboFacility := [Observer, WarpPrism, Immortal, Colossus, Disruptor]]
     [Stargate := [Phoenix, VoidRay, Oracle, Carrier, Tempest]]
     [Hatchery := [Zergling, Drone]]
     [Larva := [Zergling, Baneling, Roach, Hydralisk, Mutalisk, Infestor, Ultralisk]]
     [SpawningPool := [Zergling, Baneling]]
     [HydraliskDen := [Hydralisk, Lurker]]
  }

  /** The ten assignments write ten different buildings: none overwrites
      another. */
  lemma MappedBuildingsDistinct()
    ensures |MappedBuildings| == 10
  {
  }

  /** Running the initialisation twice is the same as running it once. */
  lemma InitializationIdempotent(m: map<int, seq<int>>)
    ensures WithStandardMapping(WithStandardMapping(m)) == WithStandardMapping(m)
  {
  }

  /** The units a building can produce: its table entry, or nothing. */
  function LikelyUnits(m: map<int, seq<int>>, building: int): (r: seq<int>)
    ensures building in m ==> r == m[building]
    ensures building !in m ==> r == []
  {
    if building in m then m[building] else []
  }

  /** After initialisation, a listed building yields the same units whatever
      the table held before, and a building that was in neither yields
      nothing. */
  lemma LikelyUnitsAfterInitialization(m: map<int, seq<int>>, building: int)
    ensures building in MappedBuildings ==>
      LikelyUnits(WithStandardMapping(m), building) == WithStandardMapping(map[])[building]
    ensures building !in MappedBuildings && building !in m ==>
      LikelyUnits(WithStandardMapping(m), building) == []
  {
  }

  class EnemyIntel {
    var enemyRace: Race
    var seenUnits: set<int>
    var seenUnitCounts: map<int, int>
    var seenBuildings: set<int>
    var seenBuildingCounts: map<int, int>
    var buildingToPossibleUnits: map<int, seq<int>>
    var estimatedEnemyBases: int

    /** Each set agrees with its count dictionary. */
    ghost predicate Valid()
      reads this
    {
      Tallied(seenUnits, seenUnitCounts) && Tallied(seenBuildings, seenBuildingCounts)
    }

    constructor()
      ensures Valid()
      ensures enemyRace == Random && estimatedEnemyBases == 1
      ensures seenUnits == {} && seenUnitCounts == map[]
      ensures seenBuildings == {} && seenBuildingCounts == map[]
      ensures buildingToPossibleUnits == map[]
    {
      enemyRace := Random;
      seenUnits := {};
      seenUnitCounts := map[];
      seenBuildings := {};
      seenBuildingCounts := map[];
      buildingToPossibleUnits := map[];
      estimatedEnemyBases := 1;
    }

    method UpdateEnemyRace(race: Race)
      modifies `enemyRace
      ensures enemyRace == LatchRace(old(enemyRace), race)
    {
      if enemyRace == Random && race != Random {
        enemyRace := race;
      }
    }

    method AddSeenUnit(t: int)
      modifies `seenUnits, `seenUnitCounts
      ensures seenUnits == old(seenUnits) + {t}
      ensures seenUnitCounts == Bump(old(seenUnitCounts), t)
      ensures old(Valid()) ==> Valid()
    {
      if Valid() {
        BumpKeepsTallied(seenUnits, seenUnitCounts, t);
      }
      seenUnits := seenUnits + {t};
      if t !in seenUnitCounts {
        seenUnitCounts := seenUnitCounts[t := 0];
      }
      seenUnitCounts := seenUnitCounts[t := seenUnitCounts[t] + 1];
    }

    method AddSeenBuilding(t: int)
      modifies `seenBuildings, `seenBuildingCounts
      ensures seenBuildings == old(seenBuildings) + {t}
      ensures seenBuildingCounts == Bump(old(seenBuildingCounts), t)
      ensures old(Valid()) ==> Valid()
    {
      if Valid() {
        BumpKeepsTallied(seenBuildings, seenBuildingCounts, t);
      }
      seenBuildings := seenBuildings + {t};
      if t !in seenBuildingCounts {
        seenBuildingCounts := seenBuildingCounts[t := 0];
      }
      seenBuildingCounts := seenBuildingCounts[t := seenBuildingCounts[t] + 1];
    }

    method InitializeBuildingUnitMapping()
      modifies `buildingToPossibleUnits
      ensures buildingToPossibleUnits == WithStandardMapping(old(buildingToPossibleUnits))
    {
      buildingToPossibleUnits := buildingToPossibleUnits[Barracks := [Marine, Marauder, Ghost, Reaper]];
      buildingToPossibleUnits := buildingToPossibleUnits[Factory := [Hellion, SiegeTank, Thor, Cyclone]];
      buildingToPossibleUnits := buildingToPossibleUnits[Starport := [Medivac, VikingFighter, Liberator, Banshee, Battlecruiser]];
      buildingToPossibleUnits := buildingToPossibleUnits[Gateway := [Zealot, Stalker, Sentry, Adept]];
      buildingToPossibleUnits := buildingToPossibleUnits[RoboFacility := [Observer, WarpPrism, Immortal, Colossus, Disruptor]];
      buildingToPossibleUnits := buildingToPossibleUnits[Stargate := [Phoenix, VoidRay, Oracle, Carrier, Tempest]];
      buildingToPossibleUnits := buildingToPossibleUnits[Hatchery := [Zergling, Drone]];
      buildingToPossibleUnits := buildingToPossibleUnits[Larva := [Zergling, Baneling, Roach, Hydralisk, Mutalisk, Infestor, Ultralisk]];
      buildingToPossibleUnits := buildingToPossibleUnits[SpawningPool := [Zergling, Baneling]];
      buildingToPossibleUnits := buildingToPossibleUnits[HydraliskDen := [Hydralisk, Lurker]];
    }

    /** The mapped unit list of a building, or an empty list; reads only. */
    method GetLikelyUnitsFromBuilding(building: int) returns (units: seq<int>)
      ensures units == LikelyUnits(buildingToPossibleUnits, building)
    {
      if building in buildingToPossibleUnits {
        units := buildingToPossibleUnits[building];
      } else {
        units := [];
      }
    }
  }
}
