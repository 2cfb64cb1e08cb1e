/**
 * The core-hit stage (src/systems/tick_systems/mob_core_system.rs).
 *
 * Every mob that touched a Core tile is removed and costs the player one
 * point of health. Health has no floor here; the death stage reacts to it.
 */
module MobCoreSystem {
  import opened Resources
  import opened Components
  import opened Ecs
  import opened Collections

  /** The query of the stage: mobs carrying `TouchedCore`. */
  function CoreHitters(entities: Entities): set<EntityId>
  {
    set id | id in entities && TdMob in entities[id].tags && TouchedCore in entities[id].tags
  }

  /**
   * `mob_core_hits`: each mob that touched the core is removed, and health
   * drops by the number of such mobs.
   */
  method MobCoreHits(entities: Entities, playerHealth: PlayerHealth)
    returns (playerHealth': PlayerHealth, cmds: seq<Command>, ghost order: seq<EntityId>)
    ensures Lists(order, CoreHitters(entities))
    ensures cmds == Removals(order)
    ensures playerHealth' == playerHealth.(health := playerHealth.health - |CoreHitters(entities)|)
  {
    playerHealth' := playerHealth;
    cmds := [];
    order := [];
    var todo := CoreHitters(entities);
    while todo != {}
      invariant todo <= CoreHitters(entities)
      invariant forall i, j :: 0 <= i < j < |order| ==> order[i] != order[j]
      invariant forall id :: id in order <==> id in CoreHitters(entities) && id !in todo
      invariant cmds == Removals(order)
      invariant playerHealth' == playerHealth.(health := playerHealth.health - |order|)
      decreases todo
    {
      var entity :| entity in todo;
      cmds := cmds + [Remove(entity)];
      playerHealth' := playerHealth'.(health := playerHealth'.health - 1);
      order := order + [entity];
      todo := todo - {entity};
    }
    ListsSize(order, CoreHitters(entities));
  }

  /**
   * After the flush, the mobs that touched the core are gone and every
   * other entity is exactly as it was.
   */
  lemma OnlyHittersRemoved(s: WorldState, order: seq<EntityId>)
    requires Lists(order, CoreHitters(s.entities))
    ensures forall id :: id in ApplyAll(s, Removals(order)).entities <==> id in s.entities && id !in CoreHitters(s.entities)
    ensures forall id :: id in ApplyAll(s, Removals(order)).entities ==> ApplyAll(s, Removals(order)).entities[id] == s.entities[id]
  {
    RemovalsDrop(s, order);
  }
}
