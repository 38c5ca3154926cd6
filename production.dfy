/** ProductionManager: which structure trains a unit, which ability trains it,
    and the loop that queues `count` training commands on idle producers.
    Unit types and abilities are the protocol's numeric identifiers; a unit's
    type read from an observation can be any number, so they are `int`s. */
module Production {
  import opened Common

  // Unit type identifiers used by the tables.
  const SCV := 45
  const Marine := 48
  const Marauder := 51
  const Reaper := 49
  const SiegeTank := 33
  const Raven := 56
  const Medivac := 54
  const Ghost := 50
  const Banshee := 55
  const Battlecruiser := 57
  const Hellion := 53
  const Hellbat := 484
  const Cyclone := 692
  const Thor := 52
  const VikingFighter := 35
  const Liberator := 689
  const WidowMine := 498

  // Production structure identifiers.
  const CommandCenter := 18
  const Barracks := 21
  const BarracksTechLab := 37
  const BarracksReactor := 38
  const Factory := 27
  const FactoryTechLab := 39
  const FactoryReactor := 40
  const Starport := 28
  const StarportTechLab := 41
  const StarportReactor := 42

  /** The unit types both tables list. */
  const Trainable: set<int> := {
    SCV, Marine, Marauder, Reaper, SiegeTank, Medivac, Raven, Ghost, Hellion,
    Hellbat, Cyclone, Thor, Banshee, Battlecruiser, VikingFighter, Liberator,
    WidowMine }

  /** An observed unit of our own: its tag, its type and how many orders it
      has queued (a missing order list counts as none). */
  datatype Unit = Unit(tag: nat, unitType: int, orderCount: nat)

  /** A raw unit command naming its units and the ability to use. */
  datatype TrainAction = TrainAction(unitTags: seq<nat>, abilityId: int)

  /** The required and the alternate producer type of a unit. Both start as
      CommandCenter and only the listed cases overwrite them, so a unit with
      a single producer keeps CommandCenter as its alternate. */
  function Producers(unitType: int): (r: (int, int))
    ensures unitType !in Trainable ==> r == (CommandCenter, CommandCenter)
    ensures unitType in {Marine, Reaper} ==> r == (Barracks, BarracksReactor)
    ensures unitType in {Marauder, Ghost} ==> r == (BarracksTechLab, CommandCenter)
  {
    if unitType == SCV then (CommandCenter, CommandCenter)
    else if unitType == Marine then (Barracks, BarracksReactor)
    else if unitType == Marauder then (BarracksTechLab, CommandCenter)
    else if unitType == Reaper then (Barracks, BarracksReactor)
    else if unitType == SiegeTank then (FactoryTechLab, CommandCenter)
    else if unitType == Medivac then (Starport, StarportReactor)
    else if unitType == Raven then (StarportTechLab, CommandCenter)
    else if unitType == Ghost then (BarracksTechLab, CommandCenter)
    else if unitType == Hellion || unitType == Hellbat then (Factory, FactoryReactor)
    else if unitType == Cyclone then (Factory, FactoryReactor)
    else if unitType == Thor then (FactoryTechLab, CommandCenter)
    else if unitType == Banshee then (StarportTechLab, CommandCenter)
    else if unitType == Battlecruiser then (StarportTechLab, CommandCenter)
    else if unitType == VikingFighter then (Starport, StarportReactor)
    else if unitType == Liberator then (Starport, StarportReactor)
    else if unitType == WidowMine then (Factory, FactoryReactor)
    else (CommandCenter, CommandCenter)
  }

  /** The training ability of a unit type, 0 for a type the table does not
      list. */
  function TrainingAbility(unitType: int): (a: int)
    ensures a != 0 <==> unitType in Trainable
  {
    if unitType == SCV then 524
    else if unitType == Marine then 560
    else if unitType == Marauder then 563
    else if unitType == Reaper then 561
    else if unitType == SiegeTank then 591
    else if unitType == Medivac then 620
    else if unitType == Raven then 622
    else if unitType == Ghost then 562
    else if unitType == Hellion then 595
    else if unitType == Hellbat then 596
    else if unitType == Cyclone then 597
    else if unitType == Thor then 594
    else if unitType == Banshee then 621
    else if unitType == Battlecruiser then 623
    else if unitType == VikingFighter then 624
    else if unitType == Liberator then 626
    else if unitType == WidowMine then 614
    else 0
  }

  /** A unit can take the order: it is of the required or the alternate type
      and has no orders queued. */
  predicate CanProduce(u: Unit, unitType: int)
  {
    var (required, alternate) := Producers(unitType);
    (u.unitType == required || u.unitType == alternate) && u.orderCount == 0
  }

  /** The index of the first unit in list order that can take the order. */
  function FirstProducer(units: seq<Unit>, unitType: int): (r: Option<nat>)
    ensures r.Some? ==> r.value < |units| && CanProduce(units[r.value], unitType)
    ensures r.Some? ==> forall j :: 0 <= j < r.value ==> !CanProduce(units[j], unitType)
    ensures r.None? <==> forall j :: 0 <= j < |units| ==> !CanProduce(units[j], unitType)
  {
    if units == [] then None
    else if CanProduce(units[0], unitType) then Some(0)
    else match FirstProducer(units[1..], unitType)
      case None => None
      case Some(i) => Some(i + 1)
  }

  /** The command the source builds: one tag, one ability. */
  function BuildTrainAction(producer: Unit, ability: int): TrainAction
  {
    TrainAction([producer.tag], ability)
  }

  /** The training command used for a request of unitType, if any: none when
      no producer is idle or the ability is unknown. */
  function Order(units: seq<Unit>, unitType: int): Option<TrainAction>
  {
    match FirstProducer(units, unitType)
    case None => None
    case Some(i) =>
      if TrainingAbility(unitType) == 0 then None
      else Some(BuildTrainAction(units[i], TrainingAbility(unitType)))
  }

  /** An unlisted type still finds an idle CommandCenter as its producer,
      and only the unknown ability stops the order. */
  lemma UnlistedFindsCommandCenter(units: seq<Unit>, unitType: int, i: nat)
    requires unitType !in Trainable
    requires i < |units| && units[i].unitType == CommandCenter && units[i].orderCount == 0
    ensures FirstProducer(units, unitType).Some?
    ensures Order(units, unitType).None?
  {
    assert CanProduce(units[i], unitType);
  }

  /** A unit with a single producer type also accepts an idle CommandCenter,
      because the alternate keeps its initial value: a Marauder request is put
      on the first idle CommandCenter when no tech-lab Barracks is idle. */
  lemma SingleProducerFallsBackToCommandCenter(units: seq<Unit>)
    requires forall j :: 0 <= j < |units| ==>
      units[j].unitType != BarracksTechLab || units[j].orderCount > 0
    requires exists j :: 0 <= j < |units| && units[j].unitType == CommandCenter && units[j].orderCount == 0
    ensures Order(units, Marauder).Some?
    ensures units[FirstProducer(units, Marauder).value].unitType == CommandCenter
  {
    var j :| 0 <= j < |units| && units[j].unitType == CommandCenter && units[j].orderCount == 0;
    assert CanProduce(units[j], Marauder);
  }

  class ProductionManager {
    /** The list of our units the manager was built with; it never changes it. */
    const playerUnits: seq<Unit>

    constructor(playerUnits: seq<Unit>)
      ensures this.playerUnits == playerUnits
    {
      this.playerUnits := playerUnits;
    }

    /** The first idle unit of the required or alternate producer type, in
        list order; None when there is none. */
    method FindProducerFor(unitType: int) returns (producer: Option<Unit>)
      ensures producer.None? <==> forall j :: 0 <= j < |playerUnits| ==> !CanProduce(playerUnits[j], unitType)
      ensures producer.Some? ==> producer == Some(playerUnits[FirstProducer(playerUnits, unitType).value])
    {
      var required, alternate := Producers(unitType).0, Producers(unitType).1;
      var k := 0;
      while k < |playerUnits|
        invariant 0 <= k <= |playerUnits|
        invariant forall j :: 0 <= j < k ==> !CanProduce(playerUnits[j], unitType)
      {
        var u := playerUnits[k];
        if (u.unitType == required || u.unitType == alternate) && u.orderCount == 0 {
          return Some(u);
        }
        k := k + 1;
      }
      return None;
    }

    /** Queues up to count training commands. Nothing changes between
        iterations, so the loop either stops at once or issues exactly count
        copies of the same command for the first idle producer. */
    method CreateUnit(unitType: int, count: int) returns (actions: seq<TrainAction>)
      ensures |actions| <= Max(count, 0)
      ensures Order(playerUnits, unitType).None? ==> actions == []
      ensures Order(playerUnits, unitType).Some? ==> |actions| == Max(count, 0)
      ensures forall k :: 0 <= k < |actions| ==> Order(playerUnits, unitType) == Some(actions[k])
    {
      actions := [];
      var produced := 0;
      while produced < count
        invariant 0 <= produced <= Max(count, 0)
        invariant |actions| == produced
        invariant produced > 0 ==> Order(playerUnits, unitType).Some?
        invariant forall k :: 0 <= k < |actions| ==> Order(playerUnits, unitType) == Some(actions[k])
      {
        var producer := FindProducerFor(unitType);
        if producer.None? {
          break;
        }
        var trainAbility := TrainingAbility(unitType);
        if trainAbility == 0 {
          break;
        }
        var action := BuildTrainAction(producer.value, trainAbility);
        actions := actions + [action];
        produced := produced + 1;
      }
    }
  }

  /** Every command of a CreateUnit result names a single producer that is
      in the list, can take the order, and is the first such unit; and the
      ability is the table's. */
  lemma OrderNamesFirstIdleProducer(units: seq<Unit>, unitType: int, a: TrainAction)
    requires Order(units, unitType) == Some(a)
    ensures TrainingAbility(unitType) != 0 && a.abilityId == TrainingAbility(unitType)
    ensures exists i :: 0 <= i < |units| && a.unitTags == [units[i].tag] && CanProduce(units[i], unitType)
  {
    var i := FirstProducer(units, unitType).value;
    assert a.unitTags == [units[i].tag];
  }
}
