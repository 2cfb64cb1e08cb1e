/**
 * The entity store and its deferred command buffer.
 *
 * The world maps entity ids to their components. A stage never edits the
 * set of entities directly: it records commands (spawn, remove, add or
 * remove a tag component) that are applied in order when the stage's buffer
 * is flushed. New entities take ids that were never used before.
 */
module Ecs {
  import opened Resources
  import opened Components

  datatype Command =
    | Spawn(entity: Entity)
    | Remove(id: EntityId)
    | AddTag(id: EntityId, tag: Tag)
    | RemoveTag(id: EntityId, tag: Tag)

  type Entities = map<EntityId, Entity>

  /** The live entities and the next unused id. */
  datatype WorldState = WorldState(entities: Entities, nextId: nat)

  /** Every live id was handed out before `nextId`. */
  predicate IdsBelow(s: WorldState)
  {
    forall id :: id in s.entities ==> id < s.nextId
  }

  /** One command. Commands on an entity that is no longer alive do nothing. */
  function Apply(s: WorldState, c: Command): WorldState
  {
    match c
    case Spawn(e) => WorldState(s.entities[s.nextId := e], s.nextId + 1)
    case Remove(id) => WorldState(s.entities - {id}, s.nextId)
    case AddTag(id, t) =>
      if id in s.entities then
        WorldState(s.entities[id := s.entities[id].(tags := s.entities[id].tags + {t})], s.nextId)
      else s
    case RemoveTag(id, t) =>
      if id in s.entities then
        WorldState(s.entities[id := s.entities[id].(tags := s.entities[id].tags - {t})], s.nextId)
      else s
  }

  /** A whole buffer, front to back. */
  function ApplyAll(s: WorldState, cmds: seq<Command>): WorldState
    decreases |cmds|
  {
    if cmds == [] then s else ApplyAll(Apply(s, cmds[0]), cmds[1..])
  }

  /** One removal per id, in the same order. */
  function Removals(ids: seq<EntityId>): (r: seq<Command>)
    ensures |r| == |ids|
    ensures forall i :: 0 <= i < |ids| ==> r[i] == Remove(ids[i])
  {
    if ids == [] then [] else [Remove(ids[0])] + Removals(ids[1..])
  }

  /** The removals of two id lists, one after the other. */
  lemma RemovalsAppend(a: seq<EntityId>, b: seq<EntityId>)
    ensures Removals(a + b) == Removals(a) + Removals(b)
  {
    assert |Removals(a + b)| == |Removals(a) + Removals(b)|;
    forall i | 0 <= i < |a + b|
      ensures Removals(a + b)[i] == (Removals(a) + Removals(b))[i]
    {
      if i >= |a| {
        assert (a + b)[i] == b[i - |a|];
      }
    }
  }

  /** Flushing a buffer of removals drops exactly the listed ids and nothing else. */
  lemma {:induction false} RemovalsDrop(s: WorldState, ids: seq<EntityId>)
    ensures ApplyAll(s, Removals(ids)) == WorldState(s.entities - (set id | id in ids), s.nextId)
    decreases |ids|
  {
    if ids == [] {
      assert s.entities - (set id | id in ids) == s.entities;
    } else {
      var r := Removals(ids);
      assert r[0] == Remove(ids[0]) && r[1..] == Removals(ids[1..]);
      RemovalsDrop(Apply(s, Remove(ids[0])), ids[1..]);
      assert (s.entities - {ids[0]}) - (set id | id in ids[1..]) == s.entities - (set id | id in ids);
    }
  }

  /** Whether a command names entity `id`. */
  predicate Mentions(c: Command, id: EntityId)
  {
    match c
    case Spawn(_) => false
    case Remove(i) => i == id
    case AddTag(i, _) => i == id
    case RemoveTag(i, _) => i == id
  }

  /** Whether a command can put `tag` on an entity. */
  predicate Grants(c: Command, tag: Tag)
  {
    (c.Spawn? && tag in c.entity.tags) || (c.AddTag? && c.tag == tag)
  }

  /** Flushing keeps ids fresh and never brings back an id it removed or never used. */
  lemma {:induction false} FlushKeepsIdsBelow(s: WorldState, cmds: seq<Command>)
    requires IdsBelow(s)
    ensures IdsBelow(ApplyAll(s, cmds)) && ApplyAll(s, cmds).nextId == s.nextId + |Spawns(cmds)|
    decreases |cmds|
  {
    if cmds != [] {
      FlushKeepsIdsBelow(Apply(s, cmds[0]), cmds[1..]);
      assert Spawns(cmds) == Spawns([cmds[0]]) + Spawns(cmds[1..]) by {
        assert cmds == [cmds[0]] + cmds[1..];
        SpawnsAppend([cmds[0]], cmds[1..]);
      }
    }
  }

  /** The entities a buffer spawns, in order. */
  function Spawns(cmds: seq<Command>): seq<Entity>
  {
    if cmds == [] then []
    else (if cmds[0].Spawn? then [cmds[0].entity] else []) + Spawns(cmds[1..])
  }

  lemma {:induction false} SpawnsAppend(a: seq<Command>, b: seq<Command>)
    ensures Spawns(a + b) == Spawns(a) + Spawns(b)
    decreases |a|
  {
    if a == [] {
      assert a + b == b;
    } else {
      assert (a + b)[0] == a[0] && (a + b)[1..] == a[1..] + b;
      SpawnsAppend(a[1..], b);
    }
  }

  /** An entity no command names is carried over unchanged. */
  lemma {:induction false} UntouchedSurvives(s: WorldState, cmds: seq<Command>, id: EntityId)
    requires IdsBelow(s) && id in s.entities
    requires forall c :: c in cmds ==> !Mentions(c, id)
    ensures id in ApplyAll(s, cmds).entities
    ensures ApplyAll(s, cmds).entities[id] == s.entities[id]
    decreases |cmds|
  {
    if cmds != [] {
      assert cmds[0] in cmds;
      UntouchedSurvives(Apply(s, cmds[0]), cmds[1..], id);
    }
  }

  /** An id a buffer removes is gone afterwards, whatever follows the removal. */
  lemma {:induction false} RemovedIsGone(s: WorldState, cmds: seq<Command>, id: EntityId)
    requires IdsBelow(s) && id < s.nextId
    requires Remove(id) in cmds
    ensures id !in ApplyAll(s, cmds).entities
    decreases |cmds|
  {
    if cmds[0] == Remove(id) {
      StaysGone(Apply(s, cmds[0]), cmds[1..], id);
    } else {
      RemovedIsGone(Apply(s, cmds[0]), cmds[1..], id);
    }
  }

  /** Every live entity of `ids` that the buffer removes is gone afterwards. */
  lemma RemovedAllGone(s: WorldState, cmds: seq<Command>, ids: set<EntityId>)
    requires IdsBelow(s)
    requires forall id :: id in ids && id in s.entities ==> Remove(id) in cmds
    ensures forall id :: id in ids && id in s.entities ==> id !in ApplyAll(s, cmds).entities
  {
    forall id | id in ids && id in s.entities
      ensures id !in ApplyAll(s, cmds).entities
    {
      RemovedIsGone(s, cmds, id);
    }
  }

  /** A used id that is not alive never comes back. */
  lemma {:induction false} StaysGone(s: WorldState, cmds: seq<Command>, id: EntityId)
    requires IdsBelow(s) && id < s.nextId && id !in s.entities
    ensures id !in ApplyAll(s, cmds).entities
    decreases |cmds|
  {
    if cmds != [] {
      StaysGone(Apply(s, cmds[0]), cmds[1..], id);
    }
  }

  /**
   * A buffer that removes every entity carrying `tag` and never grants the
   * tag leaves no entity carrying it.
   */
  lemma {:induction false} NoTagAfterFlush(s: WorldState, cmds: seq<Command>, tag: Tag)
    requires forall id :: id in s.entities && tag in s.entities[id].tags ==> Remove(id) in cmds
    requires forall c :: c in cmds ==> !Grants(c, tag)
    ensures forall id :: id in ApplyAll(s, cmds).entities ==> tag !in ApplyAll(s, cmds).entities[id].tags
    decreases |cmds|
  {
    if cmds != [] {
      var s' := Apply(s, cmds[0]);
      assert cmds[0] in cmds;
      forall id | id in s'.entities && tag in s'.entities[id].tags
        ensures Remove(id) in cmds[1..]
      {
        assert id in s.entities && tag in s.entities[id].tags;
        assert Remove(id) in cmds;
        assert cmds == [cmds[0]] + cmds[1..];
      }
      forall c | c in cmds[1..] ensures !Grants(c, tag) {
        assert c in cmds;
      }
      NoTagAfterFlush(s', cmds[1..], tag);
    }
  }

  /** The entity store. */
  class World {
    var entities: Entities
    var nextId: nat

    ghost predicate Valid()
      reads this
    {
      IdsBelow(WorldState(entities, nextId))
    }

    function State(): WorldState
      reads this
    {
      WorldState(entities, nextId)
    }

    constructor ()
      ensures Valid() && entities == map[]
    {
      entities := map[];
      nextId := 0;
    }

    /** Apply a stage's command buffer, in order. */
    method Flush(cmds: seq<Command>)
      requires Valid()
      modifies this
      ensures Valid()
      ensures State() == ApplyAll(old(State()), cmds)
    {
      ghost var start := State();
      FlushKeepsIdsBelow(start, cmds);
      for i := 0 to |cmds|
        invariant ApplyAll(State(), cmds[i..]) == ApplyAll(start, cmds)
      {
        assert cmds[i..][0] == cmds[i] && cmds[i..][1..] == cmds[i + 1..];
        match cmds[i]
        case Spawn(e) =>
          entities := entities[nextId := e];
          nextId := nextId + 1;
        case Remove(id) =>
          entities := entities - {id};
        case AddTag(id, t) =>
          if id in entities {
            entities := entities[id := entities[id].(tags := entities[id].tags + {t})];
          }
        case RemoveTag(id, t) =>
          if id in entities {
            entities := entities[id := entities[id].(tags := entities[id].tags - {t})];
          }
      }
      assert cmds[|cmds|..] == [];
    }
  }
}
