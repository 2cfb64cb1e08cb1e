/**
 * The death clean-up stage (src/systems/tick_systems/death_cleanup.rs).
 *
 * Every entity carrying `Died` is removed at the next flush. No resource is
 * read or written.
 */
module DeathCleanup {
  import opened Resources
  import opened Components
  import opened Ecs
  import opened Collections

  function Dead(entities: Entities): set<EntityId>
  {
    set id | id in entities && Components.Died in entities[id].tags
  }

  /** `death_cleanup`: one removal per dead entity. */
  method CleanUpDead(entities: Entities) returns (cmds: seq<Command>, ghost order: seq<EntityId>)
    ensures Lists(order, Dead(entities))
    ensures cmds == Removals(order)
  {
    cmds := [];
    order := [];
    var todo := Dead(entities);
    while todo != {}
      invariant todo <= Dead(entities)
      invariant forall i, j :: 0 <= i < j < |order| ==> order[i] != order[j]
      invariant forall id :: id in order <==> id in Dead(entities) && id !in todo
      invariant cmds == Removals(order)
      decreases todo
    {
      var entity :| entity in todo;
      cmds := cmds + [Remove(entity)];
      order := order + [entity];
      todo := todo - {entity};
    }
  }

  /**
   * After the flush no entity carries `Died`, and every entity that did not
   * carry it is still there, unchanged.
   */
  lemma NoDeadAfterCleanup(s: WorldState, order: seq<EntityId>)
    requires Lists(order, Dead(s.entities))
    ensures forall id :: id in ApplyAll(s, Removals(order)).entities ==> Components.Died !in ApplyAll(s, Removals(order)).entities[id].tags
    ensures forall id :: id in s.entities && id !in Dead(s.entities) ==>
      id in ApplyAll(s, Removals(order)).entities && ApplyAll(s, Removals(order)).entities[id] == s.entities[id]
  {
    RemovalsDrop(s, order);
  }
}
