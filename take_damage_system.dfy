/**
 * The damage stage (src/systems/tick_systems/take_damage_system.rs).
 *
 * Every damage event is consumed. The events are grouped by target; each
 * target that still exists loses the sum of the amounts aimed at it, in
 * place. Targets that are gone are skipped. A target that exists but has no
 * health is a fatal error in the source, so it is excluded by the
 * precondition. Sums do not depend on the order of the events, so the new
 * health is specified by a sum over the set of events.
 */
module TakeDamageSystem {
  import opened Wrappers
  import opened Resources
  import opened Components
  import opened Ecs
  import opened Collections

  function Events(entities: Entities): set<EntityId>
  {
    set id | id in entities && entities[id].takeDamage.Some?
  }

  /** The ids some event aims at. */
  function Targets(entities: Entities): set<EntityId>
  {
    set ev | ev in Events(entities) :: entities[ev].takeDamage.value.target
  }

  /** Every existing target of an event has health to lose. */
  predicate TargetsHaveHealth(entities: Entities)
  {
    forall ev :: ev in Events(entities) && entities[ev].takeDamage.value.target in entities ==>
      entities[entities[ev].takeDamage.value.target].mobHealth.Some?
  }

  /** The damage event `ev` deals to `t`: its amount if it aims at `t`, else 0. */
  function DamageOf(entities: Entities, t: EntityId, ev: EntityId): int
  {
    if ev in entities && entities[ev].takeDamage.Some? && entities[ev].takeDamage.value.target == t
    then entities[ev].takeDamage.value.amount
    else 0
  }

  function DamageTo(entities: Entities, t: EntityId): EntityId -> int
  {
    (ev: EntityId) => DamageOf(entities, t, ev)
  }

  /** The total damage aimed at `t` this tick. */
  ghost function TotalDamage(entities: Entities, t: EntityId): int
  {
    SumOver(Events(entities), DamageTo(entities, t))
  }

  /** Entity `id` after the stage: health lowered by the damage aimed at it. */
  ghost function DamagedEntity(entities: Entities, id: EntityId): Entity
    requires id in entities
  {
    var e := entities[id];
    if e.mobHealth.Some? then
      e.(mobHealth := Some(MobHealth(e.mobHealth.value.currentHealth - TotalDamage(entities, id), e.mobHealth.value.maxHealth)))
    else e
  }

  ghost function Damaged(entities: Entities): (r: Entities)
    ensures r.Keys == entities.Keys
  {
    map id | id in entities :: DamagedEntity(entities, id)
  }

  /** The sum of the amounts of a list of events. */
  function SumAmounts(events: seq<TakeDamage>): int
  {
    if events == [] then 0 else SumAmounts(events[..|events| - 1]) + events[|events| - 1].amount
  }

  /** An entity no event aims at is left exactly as it was. */
  lemma UntargetedUnchanged(entities: Entities, id: EntityId)
    requires id in entities && id !in Targets(entities)
    ensures DamagedEntity(entities, id) == entities[id]
  {
    forall ev | ev in Events(entities) ensures DamageTo(entities, id)(ev) == 0 {
      assert entities[ev].takeDamage.value.target in Targets(entities);
    }
    SumOfZeros(Events(entities), DamageTo(entities, id));
  }

  /** The targets of the events of `done`. */
  function TargetsOf(entities: Entities, done: set<EntityId>): set<EntityId>
  {
    set ev | ev in done && ev in entities && entities[ev].takeDamage.Some? :: entities[ev].takeDamage.value.target
  }

  /**
   * `damages` groups the events of `done`: its keys are their targets, and
   * the amounts listed for a target add up to the damage `done` aims at it.
   */
  ghost predicate Grouped(entities: Entities, damages: map<EntityId, seq<TakeDamage>>, done: set<EntityId>)
  {
    damages.Keys == TargetsOf(entities, done) &&
    (forall t :: t in damages ==> SumAmounts(damages[t]) == SumOver(done, DamageTo(entities, t))) &&
    (forall t :: t !in damages ==> SumOver(done, DamageTo(entities, t)) == 0)
  }

  /** File one event under its target. */
  method FileEvent(entities: Entities, damages: map<EntityId, seq<TakeDamage>>, entity: EntityId, ghost done: set<EntityId>)
    returns (damages': map<EntityId, seq<TakeDamage>>)
    requires entity in Events(entities) && entity !in done
    requires Grouped(entities, damages, done)
    ensures Grouped(entities, damages', done + {entity})
  {
    var takeDamage := entities[entity].takeDamage.value;
    var events := if takeDamage.target in damages then damages[takeDamage.target] else [];
    damages' := damages[takeDamage.target := events + [takeDamage]];
    FiledIsGrouped(entities, damages, entity, done);
    assert damages' == Filed(entities, damages, entity);
  }

  /** One more event adds its target to the targets. */
  lemma TargetsOfStep(entities: Entities, done: set<EntityId>, entity: EntityId)
    requires entity in Events(entities)
    ensures TargetsOf(entities, done + {entity}) == TargetsOf(entities, done) + {entities[entity].takeDamage.value.target}
  {
  }

  /** One more event adds its damage to every target's sum. */
  lemma DamageSumsStep(entities: Entities, done: set<EntityId>, entity: EntityId)
    requires entity !in done
    ensures forall t :: SumOver(done + {entity}, DamageTo(entities, t)) == SumOver(done, DamageTo(entities, t)) + DamageOf(entities, t, entity)
  {
    forall t ensures SumOver(done + {entity}, DamageTo(entities, t)) == SumOver(done, DamageTo(entities, t)) + DamageOf(entities, t, entity) {
      SumAdd(done, DamageTo(entities, t), entity);
    }
  }

  /** The list of target `t` after filing event `entity`. */
  function Filed(entities: Entities, damages: map<EntityId, seq<TakeDamage>>, entity: EntityId): map<EntityId, seq<TakeDamage>>
    requires entity in Events(entities)
  {
    var td := entities[entity].takeDamage.value;
    damages[td.target := (if td.target in damages then damages[td.target] else []) + [td]]
  }

  /** Appending an event to its target's list keeps the grouping. */
  lemma FiledIsGrouped(entities: Entities, damages: map<EntityId, seq<TakeDamage>>, entity: EntityId, done: set<EntityId>)
    requires entity in Events(entities) && entity !in done
    requires Grouped(entities, damages, done)
    ensures Grouped(entities, Filed(entities, damages, entity), done + {entity})
  {
    var damages' := Filed(entities, damages, entity);
    assert damages'.Keys == TargetsOf(entities, done + {entity}) by {
      TargetsOfStep(entities, done, entity);
    }
    assert (forall t :: t in damages' ==> SumAmounts(damages'[t]) == SumOver(done + {entity}, DamageTo(entities, t))) &&
      (forall t :: t !in damages' ==> SumOver(done + {entity}, DamageTo(entities, t)) == 0) by {
      FiledSums(entities, damages, entity, done);
    }
  }

  /** The sums of the filed lists, and of the unlisted targets, after one more event. */
  lemma FiledSums(entities: Entities, damages: map<EntityId, seq<TakeDamage>>, entity: EntityId, done: set<EntityId>)
    requires entity in Events(entities) && entity !in done
    requires forall t :: t in damages ==> SumAmounts(damages[t]) == SumOver(done, DamageTo(entities, t))
    requires forall t :: t !in damages ==> SumOver(done, DamageTo(entities, t)) == 0
    ensures forall t :: t in Filed(entities, damages, entity) ==>
      SumAmounts(Filed(entities, damages, entity)[t]) == SumOver(done + {entity}, DamageTo(entities, t))
    ensures forall t :: t !in Filed(entities, damages, entity) ==> SumOver(done + {entity}, DamageTo(entities, t)) == 0
  {
    var td := entities[entity].takeDamage.value;
    var events := if td.target in damages then damages[td.target] else [];
    var damages' := Filed(entities, damages, entity);
    DamageSumsStep(entities, done, entity);
    forall t | t in damages' ensures SumAmounts(damages'[t]) == SumOver(done + {entity}, DamageTo(entities, t)) {
      if t == td.target {
        assert (events + [td])[..|events|] == events;
      } else {
        assert DamageOf(entities, t, entity) == 0;
      }
    }
    forall t | t !in damages' ensures SumOver(done + {entity}, DamageTo(entities, t)) == 0 {
      assert t !in damages && DamageOf(entities, t, entity) == 0;
    }
  }

  /**
   * The first loop: remove every event and collect, per target, the events
   * aimed at it. The amounts collected for a target add up to the total
   * damage aimed at it.
   */
  method GroupByTarget(entities: Entities)
    returns (damages: map<EntityId, seq<TakeDamage>>, cmds: seq<Command>, ghost order: seq<EntityId>)
    ensures Lists(order, Events(entities)) && cmds == Removals(order)
    ensures damages.Keys == Targets(entities)
    ensures forall t :: t in damages ==> SumAmounts(damages[t]) == TotalDamage(entities, t)
  {
    damages := map[];
    cmds := [];
    order := [];
    var todo := Events(entities);
    forall t ensures SumOver(Events(entities) - todo, DamageTo(entities, t)) == 0 {
      assert Events(entities) - todo == {};
    }
    while todo != {}
      invariant todo <= Events(entities)
      invariant forall i, j :: 0 <= i < j < |order| ==> order[i] != order[j]
      invariant forall id :: id in order <==> id in Events(entities) && id !in todo
      invariant cmds == Removals(order)
      invariant Grouped(entities, damages, Events(entities) - todo)
      decreases todo
    {
      var entity :| entity in todo;
      damages := FileEvent(entities, damages, entity, Events(entities) - todo);
      cmds := cmds + [Remove(entity)];
      order := order + [entity];
      assert Events(entities) - (todo - {entity}) == (Events(entities) - todo) + {entity};
      todo := todo - {entity};
    }
    assert Events(entities) - {} == Events(entities);
    assert TargetsOf(entities, Events(entities)) == Targets(entities);
  }

  /** The inner loop: one target loses the amounts of its events, one after another. */
  method ApplyDamage(world: World, target: EntityId, events: seq<TakeDamage>)
    requires target in world.entities && world.entities[target].mobHealth.Some?
    modifies world
    ensures world.nextId == old(world.nextId)
    ensures world.entities == old(world.entities)[target := old(world.entities[target]).(mobHealth :=
      Some(MobHealth(old(world.entities[target].mobHealth.value.currentHealth) - SumAmounts(events),
                     old(world.entities[target].mobHealth.value.maxHealth))))]
  {
    var mobHealth := world.entities[target].mobHealth.value;
    for i := 0 to |events|
      invariant mobHealth == MobHealth(old(world.entities[target].mobHealth.value.currentHealth) - SumAmounts(events[..i]),
                                       old(world.entities[target].mobHealth.value.maxHealth))
    {
      assert events[..i + 1][..i] == events[..i];
      mobHealth := mobHealth.(currentHealth := mobHealth.currentHealth - events[i].amount);
    }
    assert events[..|events|] == events;
    world.entities := world.entities[target := world.entities[target].(mobHealth := Some(mobHealth))];
  }

  /**
   * `take_damage`: every damage event is removed, and every entity's health
   * drops by the total damage aimed at it; entities no event aims at, and
   * maximum health, are unchanged.
   */
  method TakeDamages(world: World) returns (cmds: seq<Command>, ghost order: seq<EntityId>)
    requires world.Valid() && TargetsHaveHealth(world.entities)
    modifies world
    ensures world.Valid() && world.nextId == old(world.nextId)
    ensures Lists(order, Events(old(world.entities))) && cmds == Removals(order)
    ensures world.entities == Damaged(old(world.entities))
  {
    var damages;
    damages, cmds, order := GroupByTarget(world.entities);
    DamageTargets(world, damages);
  }

  /**
   * The second loop: every target that still exists loses the amounts
   * collected for it.
   */
  method DamageTargets(world: World, damages: map<EntityId, seq<TakeDamage>>)
    requires TargetsHaveHealth(world.entities) && damages.Keys == Targets(world.entities)
    requires forall t :: t in damages ==> SumAmounts(damages[t]) == TotalDamage(world.entities, t)
    modifies world
    ensures world.nextId == old(world.nextId)
    ensures world.entities == Damaged(old(world.entities))
  {
    ghost var start := world.entities;
    var todo := damages.Keys;
    NothingDamagedYet(start);
    while todo != {}
      invariant todo <= damages.Keys
      invariant world.nextId == old(world.nextId)
      invariant DamagedBut(start, world.entities, todo)
      decreases todo
    {
      var target :| target in todo;
      if target in world.entities {
        DamageTarget(world, target, damages[target], start, todo);
      } else {
        SkipMissing(start, world.entities, todo, target);
      }
      todo := todo - {target};
    }
    DamagedAll(start, world.entities);
  }

  /** Before the second loop, only the targets are still to be damaged. */
  lemma NothingDamagedYet(start: Entities)
    ensures DamagedBut(start, start, Targets(start))
  {
    forall id | id in start && id !in Targets(start) ensures start[id] == DamagedEntity(start, id) {
      UntargetedUnchanged(start, id);
    }
  }

  /** A target that is gone is skipped. */
  lemma SkipMissing(start: Entities, now: Entities, todo: set<EntityId>, target: EntityId)
    requires DamagedBut(start, now, todo) && target !in now
    ensures DamagedBut(start, now, todo - {target})
  {
  }

  lemma DamagedAll(start: Entities, now: Entities)
    requires DamagedBut(start, now, {})
    ensures now == Damaged(start)
  {
  }

  /** Every entity outside `todo` has taken its damage; those of `todo` are as they were. */
  ghost predicate DamagedBut(start: Entities, now: Entities, todo: set<EntityId>)
  {
    now.Keys == start.Keys &&
    (forall id :: id in start && id !in todo ==> now[id] == DamagedEntity(start, id)) &&
    (forall id :: id in start && id in todo ==> now[id] == start[id])
  }

  /** One turn of the second loop, for a target that still exists. */
  method DamageTarget(world: World, target: EntityId, events: seq<TakeDamage>, ghost start: Entities, ghost todo: set<EntityId>)
    requires target in todo && target in world.entities && target in Targets(start)
    requires TargetsHaveHealth(start) && SumAmounts(events) == TotalDamage(start, target)
    requires DamagedBut(start, world.entities, todo)
    modifies world
    ensures world.nextId == old(world.nextId)
    ensures DamagedBut(start, world.entities, todo - {target})
  {
    ghost var ev :| ev in Events(start) && start[ev].takeDamage.value.target == target;
    ApplyDamage(world, target, events);
  }
}
