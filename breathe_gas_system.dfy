/**
 * The gas-breathing stage (src/systems/tick_systems/breathe_gas_system.rs).
 *
 * Every breathing entity standing on a tile with gas on it is sent one
 * damage event of a flat 5, however much gas there is. The stage only
 * records spawns. The gas field is maintained by code that is not part of
 * this model, so the amount of gas on a tile is a parameter (`gas`).
 */
module BreatheGasSystem {
  import opened Wrappers
  import opened Resources
  import opened Components
  import opened Ecs
  import opened Collections
  import TileMap

  /** Damage per tick of breathing any gas. */
  const GasDamage: int := 5

  /** The query of the stage: breathing entities with a position. */
  predicate IsBreather(e: Entity)
  {
    Breathes in e.tags && e.position.Some?
  }

  function Breathers(entities: Entities): set<EntityId>
  {
    set id | id in entities && IsBreather(entities[id])
  }

  /** Whether entity `id` breathes gas this tick. */
  predicate Gassed(entities: Entities, gas: TileMap.Coord -> int, id: EntityId)
  {
    id in entities && IsBreather(entities[id]) && gas(ToTileCoords(entities[id].position.value)) > 0
  }

  /** The damage event aimed at `target`. */
  function DamageEvent(target: EntityId): Entity
  {
    Blank.(takeDamage := Some(TakeDamage(target, GasDamage)))
  }

  /** The ids of `order` that breathe gas, in that order. */
  function GassedIn(entities: Entities, gas: TileMap.Coord -> int, order: seq<EntityId>): seq<EntityId>
  {
    if order == [] then []
    else
      var last := order[|order| - 1];
      GassedIn(entities, gas, order[..|order| - 1]) + (if Gassed(entities, gas, last) then [last] else [])
  }

  /**
   * `GassedIn` keeps exactly the gassed ids of `order`, and keeps each once
   * when `order` has no repeats.
   */
  lemma {:induction false} GassedInExactly(entities: Entities, gas: TileMap.Coord -> int, order: seq<EntityId>)
    ensures forall id :: id in GassedIn(entities, gas, order) <==> id in order && Gassed(entities, gas, id)
    ensures (forall i, j :: 0 <= i < j < |order| ==> order[i] != order[j]) ==>
      forall i, j :: 0 <= i < j < |GassedIn(entities, gas, order)| ==> GassedIn(entities, gas, order)[i] != GassedIn(entities, gas, order)[j]
  {
    if order != [] {
      var front := order[..|order| - 1];
      var last := order[|order| - 1];
      GassedInExactly(entities, gas, front);
      assert order == front + [last];
      if forall i, j :: 0 <= i < j < |order| ==> order[i] != order[j] {
        assert last !in front;
      }
    }
  }

  /** One damage-event spawn per id, in the same order. */
  function DamageSpawns(ids: seq<EntityId>): (r: seq<Command>)
    ensures |r| == |ids|
    ensures forall i :: 0 <= i < |ids| ==> r[i] == Spawn(DamageEvent(ids[i]))
  {
    if ids == [] then [] else [Spawn(DamageEvent(ids[0]))] + DamageSpawns(ids[1..])
  }

  /**
   * `breathe_gas`: one damage event of 5 per breathing entity on a gassy
   * tile. Entities, tiles and gas are only read.
   */
  method BreatheGas(entities: Entities, gas: TileMap.Coord -> int) returns (cmds: seq<Command>, ghost order: seq<EntityId>)
    ensures Lists(order, Breathers(entities))
    ensures cmds == DamageSpawns(GassedIn(entities, gas, order))
  {
    cmds := [];
    order := [];
    var todo := Breathers(entities);
    while todo != {}
      invariant todo <= Breathers(entities)
      invariant forall i, j :: 0 <= i < j < |order| ==> order[i] != order[j]
      invariant forall id :: id in order <==> id in Breathers(entities) && id !in todo
      invariant cmds == DamageSpawns(GassedIn(entities, gas, order))
      decreases todo
    {
      var entity :| entity in todo;
      var (tileX, tileY) := ToTileCoords(entities[entity].position.value);
      var gasAmount := gas((tileX, tileY));
      ghost var extra := if gasAmount > 0 then [entity] else [];
      assert (order + [entity])[..|order|] == order;
      assert GassedIn(entities, gas, order + [entity]) == GassedIn(entities, gas, order) + extra;
      DamageSpawnsAppend(GassedIn(entities, gas, order), extra);
      if gasAmount > 0 {
        cmds := cmds + [Spawn(DamageEvent(entity))];
      }
      order := order + [entity];
      todo := todo - {entity};
    }
  }

  lemma DamageSpawnsAppend(a: seq<EntityId>, b: seq<EntityId>)
    ensures DamageSpawns(a + b) == DamageSpawns(a) + DamageSpawns(b)
  {
  }

  /**
   * Every breather on a gassy tile gets exactly one damage event, and no
   * other entity gets any; every event deals 5.
   */
  lemma OneEventPerGassed(entities: Entities, gas: TileMap.Coord -> int, order: seq<EntityId>, cmds: seq<Command>)
    requires Lists(order, Breathers(entities))
    requires cmds == DamageSpawns(GassedIn(entities, gas, order))
    ensures forall c :: c in cmds ==> c.Spawn? && c.entity.takeDamage.Some? && c.entity.takeDamage.value.amount == GasDamage
    ensures forall c :: c in cmds ==> Gassed(entities, gas, c.entity.takeDamage.value.target)
    ensures forall id :: Gassed(entities, gas, id) ==> Spawn(DamageEvent(id)) in cmds
    ensures forall i, j :: 0 <= i < j < |cmds| ==> cmds[i] != cmds[j]
  {
    var g := GassedIn(entities, gas, order);
    GassedInExactly(entities, gas, order);
    forall id | Gassed(entities, gas, id) ensures Spawn(DamageEvent(id)) in cmds {
      assert id in Breathers(entities);
      var i :| 0 <= i < |g| && g[i] == id;
      assert cmds[i] == Spawn(DamageEvent(id));
    }
  }
}
