/**
 * The mob movement stage (src/systems/tick_systems/mob_movement_system.rs).
 *
 * Every active mob walks toward the centre of the tile the path field
 * points it to from its current tile: two pixels a tick along one axis, or
 * one pixel on each axis when it moves diagonally. Mobs still waiting do
 * not move. A mob that ends the tick on a Core tile is marked `TouchedCore`
 * at the next flush. The first move recomputes the path field if the map
 * changed, so every mob of the tick walks on the same field.
 */
module MobMovementSystem {
  import opened Wrappers
  import opened Resources
  import opened Components
  import opened Ecs
  import opened Collections
  import TileMap
  import TileHelpers

  /** Pixels per tick along one axis. */
  const MoveSpeed: int := 2

  /** Pixels per tick on each axis of a diagonal move. */
  const DiagMoveSpeed: int := 1

  /** `unit_diff`: the sign of `end - start`. */
  function UnitDiff(start: int, end: int): (r: int)
    ensures r == 1 <==> start < end
    ensures r == -1 <==> start > end
    ensures r == 0 <==> start == end
  {
    if start < end then 1 else if start > end then -1 else 0
  }

  /** One tick of walking from `p` toward `target`. */
  function MoveStep(p: Position, target: Position): Position
  {
    var dx := UnitDiff(p.x, target.x);
    var dy := UnitDiff(p.y, target.y);
    var speed := if dx != 0 && dy != 0 then DiagMoveSpeed else MoveSpeed;
    Position(p.x + dx * speed, p.y + dy * speed)
  }

  /** Manhattan distance between two positions. */
  function Distance(p: Position, q: Position): nat
  {
    TileHelpers.Abs(p.x - q.x) + TileHelpers.Abs(p.y - q.y)
  }

  /** Whether the two coordinates of a position have the same parity. */
  predicate EvenSum(p: Position)
  {
    (p.x + p.y) % 2 == 0
  }

  /**
   * A step moves at most two pixels, in the direction of the target on each
   * axis, and a mob already on its target stays put.
   */
  lemma StepIsSmall(p: Position, target: Position)
    ensures Distance(p, MoveStep(p, target)) <= 2
    ensures UnitDiff(p.x, MoveStep(p, target).x) == UnitDiff(p.x, target.x)
    ensures UnitDiff(p.y, MoveStep(p, target).y) == UnitDiff(p.y, target.y)
    ensures p == target <==> MoveStep(p, target) == p
  {
  }

  /** Twice any integer is even. */
  lemma DoubleIsEven(m: int)
    ensures (2 * m) % 2 == 0
  {
    TileHelpers.FloorIsUnique(2 * m, 2, (2 * m) / 2, m);
  }

  /** Adding an even amount keeps a sum even. */
  lemma AddEven(n: int, k: int)
    requires n % 2 == 0
    ensures (n + 2 * k) % 2 == 0
  {
    var h := n / 2;
    assert n + 2 * k == 2 * (h + k);
    DoubleIsEven(h + k);
  }

  /** Two even numbers are equal or at least 2 apart. */
  lemma EvenGap(a: int, b: int)
    requires a % 2 == 0 && b % 2 == 0
    ensures a == b || a - b >= 2 || b - a >= 2
  {
    var k := a / 2 - b / 2;
    assert a - b == 2 * k;
  }

  /**
   * Tile centres have an even coordinate sum, and a step toward a centre
   * keeps the sum even: straight moves change one coordinate by 2, diagonal
   * moves change both by 1.
   */
  lemma StepKeepsEvenSum(p: Position, target: Position)
    requires EvenSum(p) && EvenSum(target)
    ensures EvenSum(MoveStep(p, target))
  {
    var q := MoveStep(p, target);
    var dx := UnitDiff(p.x, target.x);
    var dy := UnitDiff(p.y, target.y);
    if dx != 0 && dy != 0 {
      var j := if dx == dy then dx else 0;
      assert q.x + q.y == p.x + p.y + 2 * j;
      AddEven(p.x + p.y, j);
    } else {
      assert q.x + q.y == p.x + p.y + 2 * (dx + dy);
      AddEven(p.x + p.y, dx + dy);
    }
  }

  /**
   * With an even coordinate sum on both ends, a step never overshoots the
   * target on either axis and brings the mob strictly closer until it
   * arrives.
   */
  lemma StepApproaches(p: Position, target: Position)
    requires EvenSum(p) && EvenSum(target)
    ensures TileHelpers.Abs(MoveStep(p, target).x - target.x) <= TileHelpers.Abs(p.x - target.x)
    ensures TileHelpers.Abs(MoveStep(p, target).y - target.y) <= TileHelpers.Abs(p.y - target.y)
    ensures p != target ==> Distance(MoveStep(p, target), target) < Distance(p, target)
  {
    // on a straight move the remaining gap is even, hence at least 2
    EvenGap(p.x + p.y, target.x + target.y);
  }

  /** A tile centre has an even coordinate sum. */
  lemma CentreIsEven(tileX: int, tileY: int)
    ensures EvenSum(AtTileCenter(tileX, tileY))
  {
    var p := AtTileCenter(tileX, tileY);
    var k := 16 * tileX + 16 * tileY + 16;
    assert p.x + p.y == 2 * k;
    DoubleIsEven(k);
  }

  /** A mob standing on the centre of a Core tile (cost 0) stays where it is. */
  lemma AtCoreCentreStays(tiles: map<TileMap.Coord, TileMap.Tile>, costs: map<TileMap.Coord, int>, tileX: int, tileY: int)
    requires TileMap.PathField(tiles, costs)
    requires (tileX, tileY) in costs && costs[(tileX, tileY)] == 0
    ensures MoveStep(AtTileCenter(tileX, tileY), Target(tiles, costs, AtTileCenter(tileX, tileY))) == AtTileCenter(tileX, tileY)
  {
    CentreRoundTrip(tileX, tileY);
    TileMap.CoreIsFixpoint(tiles, costs, (tileX, tileY));
  }

  /** The query of the stage: mobs with a position and a wave state. */
  predicate IsQueried(e: Entity)
  {
    TdMob in e.tags && e.position.Some? && e.waveState.Some?
  }

  /** A queried mob that is active, and so moves. */
  predicate IsMover(e: Entity)
  {
    IsQueried(e) && e.waveState.value.waitState.Active?
  }

  /** Whether some entity of `order` moves. */
  predicate AnyMover(entities: Entities, order: seq<EntityId>)
  {
    exists id :: id in order && id in entities && IsMover(entities[id])
  }

  function Mobs(entities: Entities): set<EntityId>
  {
    set id | id in entities && IsQueried(entities[id])
  }

  /** The centre of the tile the path field sends a mob at `p` to. */
  function Target(tiles: map<TileMap.Coord, TileMap.Tile>, costs: map<TileMap.Coord, int>, p: Position): Position
  {
    var next := TileMap.BestStep(tiles, costs, ToTileCoords(p));
    AtTileCenter(next.0, next.1)
  }

  /** One entity after the stage: a mover has taken its step, anything else is unchanged. */
  function MovedEntity(e: Entity, tiles: map<TileMap.Coord, TileMap.Tile>, costs: map<TileMap.Coord, int>): Entity
  {
    if IsMover(e) then e.(position := Some(MoveStep(e.position.value, Target(tiles, costs, e.position.value))))
    else e
  }

  function Moved(entities: Entities, tiles: map<TileMap.Coord, TileMap.Tile>, costs: map<TileMap.Coord, int>): (r: Entities)
    ensures r.Keys == entities.Keys
    ensures forall id :: id in entities ==> r[id] == MovedEntity(entities[id], tiles, costs)
  {
    map id | id in entities :: MovedEntity(entities[id], tiles, costs)
  }

  /** Whether entity `id` moves and ends its step on a Core tile. */
  predicate HitsCore(entities: Entities, tiles: map<TileMap.Coord, TileMap.Tile>, costs: map<TileMap.Coord, int>, id: EntityId)
  {
    id in entities && IsMover(entities[id]) &&
    TileMap.TileAt(tiles, ToTileCoords(MovedEntity(entities[id], tiles, costs).position.value)) == TileMap.Core
  }

  /** The ids of `order` that end their step on a Core tile, in that order. */
  function CoreHits(entities: Entities, tiles: map<TileMap.Coord, TileMap.Tile>, costs: map<TileMap.Coord, int>,
                    order: seq<EntityId>): seq<EntityId>
  {
    if order == [] then []
    else
      var last := order[|order| - 1];
      CoreHits(entities, tiles, costs, order[..|order| - 1]) + (if HitsCore(entities, tiles, costs, last) then [last] else [])
  }

  /** `CoreHits` keeps exactly the ids of `order` that end on a Core tile. */
  lemma {:induction false} CoreHitsAreExactly(entities: Entities, tiles: map<TileMap.Coord, TileMap.Tile>,
                                              costs: map<TileMap.Coord, int>, order: seq<EntityId>)
    ensures forall id :: id in CoreHits(entities, tiles, costs, order) <==> id in order && HitsCore(entities, tiles, costs, id)
  {
    if order != [] {
      CoreHitsAreExactly(entities, tiles, costs, order[..|order| - 1]);
      assert order == order[..|order| - 1] + [order[|order| - 1]];
    }
  }

  /** One `AddTag(id, TouchedCore)` per id, in the same order. */
  function TouchCommands(ids: seq<EntityId>): (r: seq<Command>)
    ensures |r| == |ids|
    ensures forall i :: 0 <= i < |ids| ==> r[i] == AddTag(ids[i], TouchedCore)
  {
    if ids == [] then [] else [AddTag(ids[0], TouchedCore)] + TouchCommands(ids[1..])
  }

  /** Move one active mob in place; answer whether it now stands on a Core tile. */
  method MoveOne(world: World, tileMap: TileMap.Map, id: EntityId) returns (touched: bool)
    requires id in world.entities && IsMover(world.entities[id])
    requires tileMap.Valid()
    modifies world, tileMap
    ensures world.nextId == old(world.nextId)
    ensures tileMap.Valid() && !tileMap.dijkstraMapsDirty && tileMap.tiles == old(tileMap.tiles)
    ensures TileMap.PathField(tileMap.tiles, tileMap.corePaths)
    ensures !old(tileMap.dijkstraMapsDirty) ==> tileMap.corePaths == old(tileMap.corePaths)
    ensures world.entities == old(world.entities)[id := MovedEntity(old(world.entities[id]), tileMap.tiles, tileMap.corePaths)]
    ensures touched == HitsCore(old(world.entities), tileMap.tiles, tileMap.corePaths, id)
  {
    var pos := world.entities[id].position.value;
    var (tileX, tileY) := ToTileCoords(pos);
    var next := tileMap.MoveTowardSpawn(tileX, tileY);
    var (nx, ny) := TileHelpers.TileToPixelCoords(next.0, next.1);
    var dx := UnitDiff(pos.x, nx);
    var dy := UnitDiff(pos.y, ny);
    var speed := if dx != 0 && dy != 0 then DiagMoveSpeed else MoveSpeed;
    pos := Position(pos.x + dx * speed, pos.y + dy * speed);
    world.entities := world.entities[id := world.entities[id].(position := Some(pos))];
    var (tx, ty) := ToTileCoords(pos);
    touched := tileMap.GetTile(tx, ty) == TileMap.Core;
  }

  /**
   * `move_mobs`: every active mob takes one step on the path field of the
   * (unchanged) tiles, and the buffer marks the mobs that reach a Core tile.
   * When at least one mob moved, the field is fresh; when none did, the
   * map is not touched at all.
   */
  method MoveMobs(world: World, tileMap: TileMap.Map) returns (cmds: seq<Command>, ghost order: seq<EntityId>)
    requires world.Valid() && tileMap.Valid()
    modifies world, tileMap
    ensures world.Valid() && world.nextId == old(world.nextId)
    ensures tileMap.Valid() && tileMap.tiles == old(tileMap.tiles)
    ensures !old(tileMap.dijkstraMapsDirty) ==> tileMap.corePaths == old(tileMap.corePaths)
    ensures Lists(order, Mobs(old(world.entities)))
    ensures AnyMover(old(world.entities), order) ==>
      !tileMap.dijkstraMapsDirty && TileMap.PathField(tileMap.tiles, tileMap.corePaths)
    ensures !AnyMover(old(world.entities), order) ==>
      tileMap.dijkstraMapsDirty == old(tileMap.dijkstraMapsDirty) && tileMap.corePaths == old(tileMap.corePaths)
    ensures world.entities == Moved(old(world.entities), tileMap.tiles, tileMap.corePaths)
    ensures cmds == TouchCommands(CoreHits(old(world.entities), tileMap.tiles, tileMap.corePaths, order))
  {
    ghost var start := world.entities;
    ghost var moved := false;
    cmds := [];
    order := [];
    var todo := Mobs(world.entities);
    while todo != {}
      invariant todo <= Mobs(start)
      invariant forall i, j :: 0 <= i < j < |order| ==> order[i] != order[j]
      invariant forall id :: id in order <==> id in Mobs(start) && id !in todo
      invariant world.nextId == old(world.nextId)
      invariant tileMap.Valid() && tileMap.tiles == old(tileMap.tiles)
      invariant !old(tileMap.dijkstraMapsDirty) ==> !tileMap.dijkstraMapsDirty && tileMap.corePaths == old(tileMap.corePaths)
      invariant Midway(start, world.entities, todo, order, tileMap.tiles, tileMap.corePaths, tileMap.dijkstraMapsDirty, moved, cmds)
      invariant !moved ==> tileMap.dijkstraMapsDirty == old(tileMap.dijkstraMapsDirty) && tileMap.corePaths == old(tileMap.corePaths)
      decreases todo
    {
      var entity :| entity in todo;
      cmds, moved := Visit(world, tileMap, entity, cmds, start, order, todo, moved);
      order := order + [entity];
      todo := todo - {entity};
    }
    MovedAll(start, world.entities, tileMap.tiles, tileMap.corePaths);
  }

  /**
   * The state of the stage midway: the visited entities have moved on the
   * current field, the others are as they were, and the buffer marks the
   * visited mobs standing on a Core tile. Once a mob has moved, the field is
   * fresh.
   */
  ghost predicate Midway(start: Entities, now: Entities, todo: set<EntityId>, order: seq<EntityId>,
                         tiles: map<TileMap.Coord, TileMap.Tile>, costs: map<TileMap.Coord, int>,
                         dirty: bool, moved: bool, cmds: seq<Command>)
  {
    (moved <==> AnyMover(start, order)) &&
    (moved ==> !dirty && TileMap.PathField(tiles, costs)) &&
    MovedBut(start, now, todo, tiles, costs) &&
    cmds == TouchCommands(CoreHits(start, tiles, costs, order))
  }

  /** One turn of the loop: move the entity if it is active, and mark it if it reached a Core tile. */
  method Visit(world: World, tileMap: TileMap.Map, entity: EntityId, cmds: seq<Command>,
               ghost start: Entities, ghost order: seq<EntityId>, ghost todo: set<EntityId>, ghost moved: bool)
    returns (cmds': seq<Command>, ghost moved': bool)
    requires entity in todo && todo <= Mobs(start)
    requires forall id :: id in order <==> id in Mobs(start) && id !in todo
    requires tileMap.Valid()
    requires Midway(start, world.entities, todo, order, tileMap.tiles, tileMap.corePaths, tileMap.dijkstraMapsDirty, moved, cmds)
    modifies world, tileMap
    ensures world.nextId == old(world.nextId)
    ensures tileMap.Valid() && tileMap.tiles == old(tileMap.tiles)
    ensures !old(tileMap.dijkstraMapsDirty) ==> !tileMap.dijkstraMapsDirty && tileMap.corePaths == old(tileMap.corePaths)
    ensures !moved' ==> tileMap.dijkstraMapsDirty == old(tileMap.dijkstraMapsDirty) && tileMap.corePaths == old(tileMap.corePaths)
    ensures Midway(start, world.entities, todo - {entity}, order + [entity], tileMap.tiles, tileMap.corePaths,
                   tileMap.dijkstraMapsDirty, moved', cmds')
  {
    assert world.entities[entity] == start[entity];
    AnyMoverSnoc(start, order, entity);
    if world.entities[entity].waveState.value.waitState.Active? {
      cmds' := VisitMover(world, tileMap, entity, cmds, start, order, todo, moved);
      moved' := true;
    } else {
      cmds' := Touch(cmds, entity, false, start, tileMap.tiles, tileMap.corePaths, order);
      moved' := moved;
    }
  }

  /** `Visit` for an active mob. */
  method VisitMover(world: World, tileMap: TileMap.Map, entity: EntityId, cmds: seq<Command>,
                    ghost start: Entities, ghost order: seq<EntityId>, ghost todo: set<EntityId>, ghost moved: bool)
    returns (cmds': seq<Command>)
    requires entity in todo && entity in start && IsMover(start[entity])
    requires forall id :: id in order <==> id in Mobs(start) && id !in todo
    requires tileMap.Valid()
    requires Midway(start, world.entities, todo, order, tileMap.tiles, tileMap.corePaths, tileMap.dijkstraMapsDirty, moved, cmds)
    modifies world, tileMap
    ensures world.nextId == old(world.nextId)
    ensures tileMap.Valid() && tileMap.tiles == old(tileMap.tiles)
    ensures !old(tileMap.dijkstraMapsDirty) ==> !tileMap.dijkstraMapsDirty && tileMap.corePaths == old(tileMap.corePaths)
    ensures !tileMap.dijkstraMapsDirty && TileMap.PathField(tileMap.tiles, tileMap.corePaths)
    ensures MovedBut(start, world.entities, todo - {entity}, tileMap.tiles, tileMap.corePaths)
    ensures cmds' == TouchCommands(CoreHits(start, tileMap.tiles, tileMap.corePaths, order + [entity]))
  {
    ghost var costs := tileMap.corePaths;
    var touched := MoveOne(world, tileMap, entity);
    if !moved {
      NothingMovedYet(start, world.entities, todo, tileMap.tiles, costs, tileMap.corePaths, order);
    }
    cmds' := Touch(cmds, entity, touched, start, tileMap.tiles, tileMap.corePaths, order);
  }

  lemma AnyMoverSnoc(entities: Entities, order: seq<EntityId>, id: EntityId)
    requires id in entities
    ensures AnyMover(entities, order + [id]) <==> AnyMover(entities, order) || IsMover(entities[id])
  {
    if IsMover(entities[id]) {
      assert id in order + [id];
    }
    if AnyMover(entities, order + [id]) && !IsMover(entities[id]) {
      var x :| x in order + [id] && x in entities && IsMover(entities[x]);
      assert x in order;
    }
  }

  /** Record the `TouchedCore` mark of a mob that reached a Core tile. */
  method Touch(cmds: seq<Command>, entity: EntityId, touched: bool, ghost start: Entities,
               ghost tiles: map<TileMap.Coord, TileMap.Tile>, ghost costs: map<TileMap.Coord, int>, ghost order: seq<EntityId>)
    returns (cmds': seq<Command>)
    requires cmds == TouchCommands(CoreHits(start, tiles, costs, order))
    requires touched == HitsCore(start, tiles, costs, entity)
    ensures cmds' == TouchCommands(CoreHits(start, tiles, costs, order + [entity]))
  {
    ghost var extra := if touched then [entity] else [];
    assert (order + [entity])[..|order|] == order;
    assert CoreHits(start, tiles, costs, order + [entity]) == CoreHits(start, tiles, costs, order) + extra;
    TouchCommandsAppend(CoreHits(start, tiles, costs, order), extra);
    cmds' := cmds;
    if touched {
      cmds' := cmds' + [AddTag(entity, TouchedCore)];
    }
  }

  lemma TouchCommandsAppend(a: seq<EntityId>, b: seq<EntityId>)
    ensures TouchCommands(a + b) == TouchCommands(a) + TouchCommands(b)
  {
  }

  /** The entities of `todo` are as they were; every other entity has been moved on the field `costs`. */
  predicate MovedBut(start: Entities, now: Entities, todo: set<EntityId>,
                     tiles: map<TileMap.Coord, TileMap.Tile>, costs: map<TileMap.Coord, int>)
  {
    now.Keys == start.Keys &&
    (forall id :: id in start && id !in todo ==> now[id] == MovedEntity(start[id], tiles, costs)) &&
    (forall id :: id in todo && id in start ==> now[id] == start[id])
  }

  /** Before the first mover, the field in use does not matter: nothing visited has moved. */
  lemma NothingMovedYet(start: Entities, now: Entities, todo: set<EntityId>,
                        tiles: map<TileMap.Coord, TileMap.Tile>, costs: map<TileMap.Coord, int>,
                        costs': map<TileMap.Coord, int>, order: seq<EntityId>)
    requires forall id :: id in order <==> id in Mobs(start) && id !in todo
    requires !AnyMover(start, order)
    ensures forall id :: id in start && id !in todo ==> MovedEntity(start[id], tiles, costs) == MovedEntity(start[id], tiles, costs')
    ensures CoreHits(start, tiles, costs, order) == CoreHits(start, tiles, costs', order)
  {
    NoMoverNoHits(start, tiles, costs, order);
    NoMoverNoHits(start, tiles, costs', order);
  }

  lemma {:induction false} NoMoverNoHits(start: Entities, tiles: map<TileMap.Coord, TileMap.Tile>,
                                         costs: map<TileMap.Coord, int>, order: seq<EntityId>)
    requires !AnyMover(start, order)
    ensures CoreHits(start, tiles, costs, order) == []
  {
    if order != [] {
      assert order[|order| - 1] in order;
      NoMoverNoHits(start, tiles, costs, order[..|order| - 1]);
    }
  }

  lemma MovedAll(start: Entities, now: Entities, tiles: map<TileMap.Coord, TileMap.Tile>, costs: map<TileMap.Coord, int>)
    requires MovedBut(start, now, {}, tiles, costs)
    ensures now == Moved(start, tiles, costs)
  {
  }
}
