/**
 * The tile-change stage (src/systems/change_tile_system.rs).
 *
 * Tile-change intents are visited one after another. An intent is accepted
 * when the ledger covers its attached cost and the changed map would still
 * connect every Spawn to a Core; an accepted intent pays, changes the tile
 * and is removed. A rejected intent changes nothing and stays for a later
 * tick. Later intents see the ledger and map left by earlier ones, so the
 * stage is specified as a fold (`Run`) over the order it visited them in.
 */
module ChangeTileSystem {
  import opened Resources
  import opened Components
  import opened Ecs
  import opened Collections
  import opened TileMap

  function ChangeIntents(entities: Entities): set<EntityId>
  {
    set id | id in entities && entities[id].tryChangeTileType.Some?
  }

  /** What the stage has done so far: the ledger, the tiles and the accepted intents. */
  datatype Outcome = Outcome(balances: Ledger, tiles: map<Coord, Tile>, accepted: seq<EntityId>)

  /** One intent, seen against the ledger and map left by the intents before it. */
  ghost function Decide(o: Outcome, id: EntityId, req: TryChangeTileType): Outcome
  {
    if Affords(o.balances, req.costs) && SpawnsConnected(o.tiles[(req.x, req.y) := req.desired])
    then Outcome(Paid(o.balances, req.costs), o.tiles[(req.x, req.y) := req.desired], o.accepted + [id])
    else o
  }

  predicate AreIntents(entities: Entities, order: seq<EntityId>)
  {
    forall i :: 0 <= i < |order| ==> order[i] in ChangeIntents(entities)
  }

  /** The intents of `order`, decided in that order. */
  ghost function Run(o: Outcome, entities: Entities, order: seq<EntityId>): Outcome
    requires AreIntents(entities, order)
  {
    if order == [] then o
    else
      var last := order[|order| - 1];
      Decide(Run(o, entities, order[..|order| - 1]), last, entities[last].tryChangeTileType.value)
  }

  /**
   * `process_tile_changes`: the ledger, the tiles and the removals are those
   * of deciding the intents in the order the stage visited them.
   */
  method ProcessTileChanges(entities: Entities, tileMap: Map, owned: OwnedResources)
    returns (cmds: seq<Command>, ghost order: seq<EntityId>)
    requires tileMap.Valid()
    modifies tileMap, owned
    ensures tileMap.Valid()
    ensures Lists(order, ChangeIntents(entities)) && AreIntents(entities, order)
    ensures owned.balances == Run(Outcome(old(owned.balances), old(tileMap.tiles), []), entities, order).balances
    ensures tileMap.tiles == Run(Outcome(old(owned.balances), old(tileMap.tiles), []), entities, order).tiles
    ensures cmds == Removals(Run(Outcome(old(owned.balances), old(tileMap.tiles), []), entities, order).accepted)
    ensures tileMap.dijkstraMapsDirty ==
      (old(tileMap.dijkstraMapsDirty) || Run(Outcome(old(owned.balances), old(tileMap.tiles), []), entities, order).accepted != [])
    ensures tileMap.corePaths == old(tileMap.corePaths)
  {
    ghost var start := Outcome(owned.balances, tileMap.tiles, []);
    cmds := [];
    order := [];
    ghost var accepted: seq<EntityId> := [];
    var todo := ChangeIntents(entities);
    while todo != {}
      invariant todo <= ChangeIntents(entities)
      invariant forall i, j :: 0 <= i < j < |order| ==> order[i] != order[j]
      invariant forall id :: id in order <==> id in ChangeIntents(entities) && id !in todo
      invariant AreIntents(entities, order)
      invariant tileMap.Valid()
      invariant Run(start, entities, order) == Outcome(owned.balances, tileMap.tiles, accepted)
      invariant cmds == Removals(accepted)
      invariant tileMap.dijkstraMapsDirty == (old(tileMap.dijkstraMapsDirty) || accepted != [])
      invariant tileMap.corePaths == old(tileMap.corePaths)
      decreases todo
    {
      var entity :| entity in todo;
      var req := entities[entity].tryChangeTileType.value;
      ghost var before := Outcome(owned.balances, tileMap.tiles, accepted);
      assert (order + [entity])[..|order|] == order;
      var ok := owned.CanPay(req.costs);
      if ok {
        ok := tileMap.CanSetTile(req.x, req.y, req.desired);
      }
      if ok {
        owned.Pay(req.costs);
        tileMap.SetTile(req.x, req.y, req.desired);
        cmds := cmds + [Remove(entity)];
        accepted := accepted + [entity];
      }
      assert Decide(before, entity, req) == Outcome(owned.balances, tileMap.tiles, accepted);
      order := order + [entity];
      todo := todo - {entity};
    }
  }

  /** After any accepted change, every Spawn still has a path to a Core. */
  lemma {:induction false} AcceptedKeepsSpawnsConnected(o: Outcome, entities: Entities, order: seq<EntityId>)
    requires AreIntents(entities, order)
    requires |Run(o, entities, order).accepted| > |o.accepted|
    ensures SpawnsConnected(Run(o, entities, order).tiles)
  {
    var last := order[|order| - 1];
    var prev := Run(o, entities, order[..|order| - 1]);
    var req := entities[last].tryChangeTileType.value;
    if Affords(prev.balances, req.costs) && SpawnsConnected(prev.tiles[(req.x, req.y) := req.desired]) {
    } else {
      AcceptedKeepsSpawnsConnected(o, entities, order[..|order| - 1]);
    }
  }

  /** A ledger with no debt never falls into debt through tile changes. */
  lemma {:induction false} NoDebtFromChanges(o: Outcome, entities: Entities, order: seq<EntityId>)
    requires AreIntents(entities, order)
    requires forall k :: Amount(o.balances, k) >= 0
    ensures forall k :: Amount(Run(o, entities, order).balances, k) >= 0
  {
    if order != [] {
      var last := order[|order| - 1];
      var prev := Run(o, entities, order[..|order| - 1]);
      var req := entities[last].tryChangeTileType.value;
      NoDebtFromChanges(o, entities, order[..|order| - 1]);
      if Affords(prev.balances, req.costs) && SpawnsConnected(prev.tiles[(req.x, req.y) := req.desired]) {
        forall k ensures Amount(Paid(prev.balances, req.costs), k) >= 0 {
          KindIsListed(k);
          if Amount(req.costs, k) > 0 {
            PaidAffordableIsNonNegative(prev.balances, req.costs, k);
          }
        }
      }
    }
  }

  /**
   * The accepted intents extend those accepted before, in visiting order,
   * and every newly accepted one was visited.
   */
  lemma {:induction false} AcceptedAreVisited(o: Outcome, entities: Entities, order: seq<EntityId>)
    requires AreIntents(entities, order)
    ensures o.accepted <= Run(o, entities, order).accepted
    ensures |Run(o, entities, order).accepted| <= |o.accepted| + |order|
    ensures forall i :: |o.accepted| <= i < |Run(o, entities, order).accepted| ==> Run(o, entities, order).accepted[i] in order
  {
    if order != [] {
      var front := order[..|order| - 1];
      AcceptedAreVisited(o, entities, front);
      var prev := Run(o, entities, front);
      var r := Run(o, entities, order);
      assert r.accepted == prev.accepted || r.accepted == prev.accepted + [order[|order| - 1]];
      forall i | |o.accepted| <= i < |r.accepted|
        ensures r.accepted[i] in order
      {
        if i < |prev.accepted| {
          assert prev.accepted[i] in front;
        }
      }
    }
  }
}
