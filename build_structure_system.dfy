/**
 * The build stage (src/systems/tick_systems/build_structure_system.rs).
 *
 * Every build intent is removed. When the ledger covers the intent's
 * attached cost, the cost is paid and a gas trap is spawned at the centre of
 * the intent's tile. Neither the build table nor the structures already on
 * the tile are consulted. Later intents see the ledger left by earlier ones,
 * so the stage is specified as a fold (`Run`) over its visiting order.
 */
module BuildStructureSystem {
  import opened Wrappers
  import opened Resources
  import opened Components
  import opened Ecs
  import opened Collections

  function BuildIntents(entities: Entities): set<EntityId>
  {
    set id | id in entities && entities[id].tryBuildStructure.Some?
  }

  /** `build_gas_trap`: the components of a new gas trap on tile (tileX, tileY). */
  function GasTrapAt(tileX: int, tileY: int): (e: Entity)
    ensures e.tags == {}
    ensures e.structure == Some(GasTrap) && e.poisonGasTrap == Some(PoisonGasTrap(10))
    ensures e.position == Some(AtTileCenter(tileX, tileY))
    ensures e.position.Some? && ToTileCoords(e.position.value) == (tileX, tileY)
    ensures e.renderable == Some(Bitmap(-16, -16, GasTrapBitmap))
    ensures e.mobHealth.None? && e.onDeath.None? && e.waveState.None? && e.takeDamage.None?
    ensures e.userClickTile.None? && e.tryChangeTileType.None? && e.trySellStructure.None?
    ensures e.tryBuildStructure.None? && e.userKeyEvent.None?
    ensures e.sellValue.Some? && Amount(e.sellValue.value, Money) == 10 && Amount(e.sellValue.value, Wood) == 5
    ensures e.sellValue.Some? && Amount(e.sellValue.value, Metal) == 0
  {
    CentreRoundTrip(tileX, tileY);
    Blank.(
      position := Some(AtTileCenter(tileX, tileY)),
      structure := Some(GasTrap),
      poisonGasTrap := Some(PoisonGasTrap(10)),
      renderable := Some(Bitmap(-32 / 2, -32 / 2, GasTrapBitmap)),
      sellValue := Some(With(With(map[], Money, 10), Wood, 5)))
  }

  /** The ledger and the commands recorded so far. */
  datatype BuildOutcome = BuildOutcome(balances: Ledger, cmds: seq<Command>)

  /** One intent: remove it; if affordable, pay and spawn the structure. */
  function Decide(o: BuildOutcome, id: EntityId, req: TryBuildStructure): BuildOutcome
  {
    var cmds := o.cmds + [Remove(id)];
    if Affords(o.balances, req.costs) then
      match req.desired
      case GasTrap => BuildOutcome(Paid(o.balances, req.costs), cmds + [Spawn(GasTrapAt(req.x, req.y))])
    else BuildOutcome(o.balances, cmds)
  }

  predicate AreIntents(entities: Entities, order: seq<EntityId>)
  {
    forall i :: 0 <= i < |order| ==> order[i] in BuildIntents(entities)
  }

  /** The intents of `order`, decided in that order. */
  function Run(o: BuildOutcome, entities: Entities, order: seq<EntityId>): BuildOutcome
    requires AreIntents(entities, order)
  {
    if order == [] then o
    else
      var last := order[|order| - 1];
      Decide(Run(o, entities, order[..|order| - 1]), last, entities[last].tryBuildStructure.value)
  }

  /** `build_structures`: the ledger and the commands of deciding the intents in visiting order. */
  method BuildStructures(entities: Entities, owned: OwnedResources)
    returns (cmds: seq<Command>, ghost order: seq<EntityId>)
    modifies owned
    ensures Lists(order, BuildIntents(entities)) && AreIntents(entities, order)
    ensures BuildOutcome(owned.balances, cmds) == Run(BuildOutcome(old(owned.balances), []), entities, order)
  {
    ghost var start := BuildOutcome(owned.balances, []);
    cmds := [];
    order := [];
    var todo := BuildIntents(entities);
    while todo != {}
      invariant todo <= BuildIntents(entities)
      invariant forall i, j :: 0 <= i < j < |order| ==> order[i] != order[j]
      invariant forall id :: id in order <==> id in BuildIntents(entities) && id !in todo
      invariant AreIntents(entities, order)
      invariant Run(start, entities, order) == BuildOutcome(owned.balances, cmds)
      decreases todo
    {
      var entity :| entity in todo;
      assert (order + [entity])[..|order|] == order;
      cmds := cmds + [Remove(entity)];
      var req := entities[entity].tryBuildStructure.value;
      var ok := owned.CanPay(req.costs);
      if ok {
        owned.Pay(req.costs);
        match req.desired
        case GasTrap =>
          cmds := cmds + [Spawn(GasTrapAt(req.x, req.y))];
      }
      order := order + [entity];
      todo := todo - {entity};
    }
  }

  /** What deciding intent `id` appends to the commands. */
  function Appended(o: BuildOutcome, id: EntityId, req: TryBuildStructure): seq<Command>
  {
    if Affords(o.balances, req.costs) then [Remove(id), Spawn(GasTrapAt(req.x, req.y))] else [Remove(id)]
  }

  /** The entity an intent would build. */
  function TrapFor(entities: Entities, id: EntityId): Entity
    requires id in BuildIntents(entities)
  {
    GasTrapAt(entities[id].tryBuildStructure.value.x, entities[id].tryBuildStructure.value.y)
  }

  /** One more intent appends its removal and, when affordable, its structure. */
  lemma RunStep(o: BuildOutcome, entities: Entities, order: seq<EntityId>)
    requires order != [] && AreIntents(entities, order)
    ensures AreIntents(entities, order[..|order| - 1])
    ensures var last := order[|order| - 1];
      Run(o, entities, order).cmds ==
        Run(o, entities, order[..|order| - 1]).cmds +
        Appended(Run(o, entities, order[..|order| - 1]), last, entities[last].tryBuildStructure.value)
  {
  }

  /** Every visited intent is removed. */
  lemma {:induction false} RunRemoves(o: BuildOutcome, entities: Entities, order: seq<EntityId>)
    requires AreIntents(entities, order)
    ensures forall id :: id in order ==> Remove(id) in Run(o, entities, order).cmds
    decreases |order|
  {
    if order != [] {
      var front := order[..|order| - 1];
      RunStep(o, entities, order);
      RunRemoves(o, entities, front);
      assert order == front + [order[|order| - 1]];
    }
  }

  /** At most one structure is spawned per intent. */
  lemma {:induction false} RunSpawnCount(o: BuildOutcome, entities: Entities, order: seq<EntityId>)
    requires AreIntents(entities, order)
    ensures |Spawns(Run(o, entities, order).cmds)| <= |Spawns(o.cmds)| + |order|
    decreases |order|
  {
    if order != [] {
      var front := order[..|order| - 1];
      var last := order[|order| - 1];
      RunStep(o, entities, order);
      RunSpawnCount(o, entities, front);
      var extra := Appended(Run(o, entities, front), last, entities[last].tryBuildStructure.value);
      SpawnsAppend(Run(o, entities, front).cmds, extra);
      AppendedSpawnsAtMostOne(Run(o, entities, front), last, entities[last].tryBuildStructure.value);
    }
  }

  lemma AppendedSpawnsAtMostOne(o: BuildOutcome, id: EntityId, req: TryBuildStructure)
    ensures |Spawns(Appended(o, id, req))| <= 1
  {
    var extra := Appended(o, id, req);
    if Affords(o.balances, req.costs) {
      var trap := [Spawn(GasTrapAt(req.x, req.y))];
      assert trap[1..] == [] && extra[1..] == trap;
      assert Spawns(trap) == [GasTrapAt(req.x, req.y)] + Spawns([]);
      assert Spawns(extra) == [] + Spawns(trap);
    } else {
      assert extra[1..] == [];
      assert Spawns(extra) == [] + Spawns([]);
    }
  }

  /** Nothing but removals of intents and structures they ask for is queued. */
  lemma {:induction false} RunOnlyTraps(o: BuildOutcome, entities: Entities, order: seq<EntityId>)
    requires AreIntents(entities, order)
    ensures forall c :: c in Run(o, entities, order).cmds ==>
      c in o.cmds || (c.Remove? && c.id in order) || (exists id :: id in order && c == Spawn(TrapFor(entities, id)))
    decreases |order|
  {
    if order != [] {
      var front := order[..|order| - 1];
      var last := order[|order| - 1];
      RunStep(o, entities, order);
      RunOnlyTraps(o, entities, front);
      assert last in order;
      forall c | c in Run(o, entities, order).cmds
        ensures c in o.cmds || (c.Remove? && c.id in order) || (exists id :: id in order && c == Spawn(TrapFor(entities, id)))
      {
        if c in Run(o, entities, front).cmds && c !in o.cmds && !(c.Remove? && c.id in front) {
          var id :| id in front && c == Spawn(TrapFor(entities, id));
          assert id in order;
        }
      }
    }
  }

  /**
   * Every visited intent is removed; at most one structure is spawned per
   * intent, and every spawned entity is a gas trap on some intent's tile.
   */
  lemma BuildCommands(o: BuildOutcome, entities: Entities, order: seq<EntityId>)
    requires AreIntents(entities, order)
    ensures forall id :: id in order ==> Remove(id) in Run(o, entities, order).cmds
    ensures |Spawns(Run(o, entities, order).cmds)| <= |Spawns(o.cmds)| + |order|
    ensures forall c :: c in Run(o, entities, order).cmds ==>
      c in o.cmds || (c.Remove? && c.id in order) ||
      (exists id :: id in order && c == Spawn(GasTrapAt(entities[id].tryBuildStructure.value.x, entities[id].tryBuildStructure.value.y)))
  {
    RunRemoves(o, entities, order);
    RunSpawnCount(o, entities, order);
    RunOnlyTraps(o, entities, order);
  }

  /** A ledger with no debt never falls into debt through building. */
  lemma {:induction false} NoDebtFromBuilds(o: BuildOutcome, entities: Entities, order: seq<EntityId>)
    requires AreIntents(entities, order)
    requires forall k :: Amount(o.balances, k) >= 0
    ensures forall k :: Amount(Run(o, entities, order).balances, k) >= 0
  {
    if order != [] {
      var prev := Run(o, entities, order[..|order| - 1]);
      var req := entities[order[|order| - 1]].tryBuildStructure.value;
      NoDebtFromBuilds(o, entities, order[..|order| - 1]);
      if Affords(prev.balances, req.costs) {
        forall k ensures Amount(Paid(prev.balances, req.costs), k) >= 0 {
          KindIsListed(k);
          if Amount(req.costs, k) > 0 {
            PaidAffordableIsNonNegative(prev.balances, req.costs, k);
          }
        }
      }
    }
  }
}
