/**
 * The mob-death stage (src/systems/tick_systems/mob_death_tracker.rs).
 *
 * An active mob with no health left is marked `Died` at the next flush.
 * Mobs still waiting to be released are never marked, whatever their
 * health. Health is only read.
 */
module MobDeathTracker {
  import opened Resources
  import opened Components
  import opened Ecs
  import opened Collections

  /** The query of the stage: mobs with health and a wave state. */
  predicate IsQueried(e: Entity)
  {
    TdMob in e.tags && e.mobHealth.Some? && e.waveState.Some?
  }

  function Mobs(entities: Entities): set<EntityId>
  {
    set id | id in entities && IsQueried(entities[id])
  }

  /** Whether entity `id` is an active mob with no health left. */
  predicate Dies(entities: Entities, id: EntityId)
  {
    id in entities && IsQueried(entities[id]) &&
    entities[id].waveState.value.waitState.Active? && entities[id].mobHealth.value.currentHealth <= 0
  }

  /** The ids of `order` that die, in that order. */
  function Dying(entities: Entities, order: seq<EntityId>): seq<EntityId>
  {
    if order == [] then []
    else
      var last := order[|order| - 1];
      Dying(entities, order[..|order| - 1]) + (if Dies(entities, last) then [last] else [])
  }

  /** `Dying` keeps exactly the ids of `order` that die. */
  lemma {:induction false} DyingExactly(entities: Entities, order: seq<EntityId>)
    ensures forall id :: id in Dying(entities, order) <==> id in order && Dies(entities, id)
  {
    if order != [] {
      DyingExactly(entities, order[..|order| - 1]);
      assert order == order[..|order| - 1] + [order[|order| - 1]];
    }
  }

  /** One `AddTag(id, Died)` per id, in the same order. */
  function DeathMarks(ids: seq<EntityId>): (r: seq<Command>)
    ensures |r| == |ids|
    ensures forall i :: 0 <= i < |ids| ==> r[i] == AddTag(ids[i], Components.Died)
  {
    if ids == [] then [] else [AddTag(ids[0], Components.Died)] + DeathMarks(ids[1..])
  }

  /** `mobs_die_at_no_health`: one `Died` mark per active mob with no health left. */
  method MobsDieAtNoHealth(entities: Entities) returns (cmds: seq<Command>, ghost order: seq<EntityId>)
    ensures Lists(order, Mobs(entities))
    ensures cmds == DeathMarks(Dying(entities, order))
  {
    cmds := [];
    order := [];
    var todo := Mobs(entities);
    while todo != {}
      invariant todo <= Mobs(entities)
      invariant forall i, j :: 0 <= i < j < |order| ==> order[i] != order[j]
      invariant forall id :: id in order <==> id in Mobs(entities) && id !in todo
      invariant cmds == DeathMarks(Dying(entities, order))
      decreases todo
    {
      var entity :| entity in todo;
      var e := entities[entity];
      DyingStep(entities, order, entity);
      if e.waveState.value.waitState.Active? && e.mobHealth.value.currentHealth <= 0 {
        cmds := cmds + [AddTag(entity, Components.Died)];
      }
      order := order + [entity];
      todo := todo - {entity};
    }
  }

  /** One more visited mob extends the marks by its own mark, if it dies. */
  lemma DyingStep(entities: Entities, order: seq<EntityId>, entity: EntityId)
    requires entity in Mobs(entities)
    ensures DeathMarks(Dying(entities, order + [entity])) ==
      DeathMarks(Dying(entities, order)) +
      (if entities[entity].waveState.value.waitState.Active? && entities[entity].mobHealth.value.currentHealth <= 0
       then [AddTag(entity, Components.Died)] else [])
  {
    assert (order + [entity])[..|order|] == order;
    if Dies(entities, entity) {
      DeathMarksAppend(Dying(entities, order), [entity]);
    }
  }

  lemma DeathMarksAppend(a: seq<EntityId>, b: seq<EntityId>)
    ensures DeathMarks(a + b) == DeathMarks(a) + DeathMarks(b)
  {
  }

  /**
   * After the flush an entity carries `Died` iff it carried it before or is
   * an active mob with no health left; nothing else about any entity
   * changes, and no entity appears or disappears.
   */
  lemma MarksExactlyTheDead(s: WorldState, order: seq<EntityId>)
    requires Lists(order, Mobs(s.entities))
    ensures ApplyAll(s, DeathMarks(Dying(s.entities, order))).entities.Keys == s.entities.Keys
    ensures forall id :: id in s.entities ==>
      ApplyAll(s, DeathMarks(Dying(s.entities, order))).entities[id] ==
        (if Dies(s.entities, id) then s.entities[id].(tags := s.entities[id].tags + {Components.Died}) else s.entities[id])
  {
    DyingExactly(s.entities, order);
    MarksApply(s, Dying(s.entities, order));
  }

  /** Flushing `AddTag(id, Died)` for each id of `ids` adds the tag to exactly the live ones. */
  lemma {:induction false} MarksApply(s: WorldState, ids: seq<EntityId>)
    ensures ApplyAll(s, DeathMarks(ids)).entities.Keys == s.entities.Keys
    ensures ApplyAll(s, DeathMarks(ids)).nextId == s.nextId
    ensures forall id :: id in s.entities ==>
      ApplyAll(s, DeathMarks(ids)).entities[id] ==
        (if id in ids then s.entities[id].(tags := s.entities[id].tags + {Components.Died}) else s.entities[id])
    decreases |ids|
  {
    if ids != [] {
      var r := DeathMarks(ids);
      assert r[0] == AddTag(ids[0], Components.Died) && r[1..] == DeathMarks(ids[1..]);
      var s' := Apply(s, r[0]);
      MarksApply(s', ids[1..]);
      forall id | id in s.entities
        ensures ApplyAll(s, r).entities[id] ==
          (if id in ids then s.entities[id].(tags := s.entities[id].tags + {Components.Died}) else s.entities[id])
      {
        assert id in ids <==> id == ids[0] || id in ids[1..];
        if id == ids[0] && id in ids[1..] {
          assert s.entities[id].tags + {Components.Died} + {Components.Died} == s.entities[id].tags + {Components.Died};
        }
      }
    }
  }
}
