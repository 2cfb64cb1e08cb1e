/**
 * The wave-timer stage (src/systems/tick_systems/wave_update_system.rs).
 *
 * With auto-launch on and the countdown at 0, a launch intent is spawned.
 * Every entity's wait state counts down by one tick; a mob whose wait runs
 * out becomes active and loses its `Hidden` tag at the next flush. The wave
 * states are written in place; the tag removals go through the buffer.
 */
module WaveUpdateSystem {
  import opened Wrappers
  import opened Resources
  import opened Components
  import opened Ecs
  import opened Collections

  /** One tick of a wait state. */
  function StepWait(w: WaitState): (r: WaitState)
    ensures w.Active? ==> r == Active
    ensures w.Waiting? && w.ticksRemaining > 0 ==> r == Waiting(w.ticksRemaining - 1)
    ensures w == Waiting(0) ==> r == Active
  {
    match w
    case Active => Active
    case Waiting(n) => if n > 0 then Waiting(n - 1) else Active
  }

  /** Whether a tick of `w` ends a wait (and so unhides the mob). */
  predicate Releases(w: WaitState)
  {
    w == Waiting(0)
  }

  /** `n` ticks of a wait state. */
  function StepsWait(w: WaitState, n: nat): WaitState
    decreases n
  {
    if n == 0 then w else StepsWait(StepWait(w), n - 1)
  }

  /** A mob waiting `k` ticks is still waiting after `j <= k` ticks, with `k - j` to go. */
  lemma {:induction false} CountsDown(k: nat, j: nat)
    requires j <= k
    ensures StepsWait(Waiting(k), j) == Waiting(k - j)
  {
    if j > 0 {
      CountsDown(k - 1, j - 1);
    }
  }

  /** An active mob stays active. */
  lemma {:induction false} ActiveStays(n: nat)
    ensures StepsWait(Active, n) == Active
  {
    if n > 0 {
      ActiveStays(n - 1);
    }
  }

  /**
   * A mob starting at `Waiting(k)` becomes active on tick k + 1 exactly:
   * it is not active before, and it is active from then on.
   */
  lemma ActiveAfter(k: nat, n: nat)
    ensures n <= k ==> StepsWait(Waiting(k), n).Waiting?
    ensures n > k ==> StepsWait(Waiting(k), n) == Active
    ensures StepsWait(Waiting(k), k).Waiting? && Releases(StepsWait(Waiting(k), k))
  {
    CountsDown(k, k);
    if n <= k {
      CountsDown(k, n);
    } else {
      StepsSplit(Waiting(k), k, n - k);
      ActiveStays(n - k - 1);
    }
  }

  lemma {:induction false} StepsSplit(w: WaitState, a: nat, b: nat)
    ensures StepsWait(w, a + b) == StepsWait(StepsWait(w, a), b)
    decreases a
  {
    if a > 0 {
      StepsSplit(StepWait(w), a - 1, b);
    }
  }

  /** The launch intent this stage spawns. */
  const LaunchIntent: Entity := Blank.(tags := {TryLaunchWave})

  /** Whether the stage asks for a launch. */
  predicate AutoLaunches(wave: NextWaveState)
  {
    wave.delayTicks == 0 && wave.autoLaunch
  }

  function Waves(entities: Entities): set<EntityId>
  {
    set id | id in entities && entities[id].waveState.Some?
  }

  /** One entity with its wave state (if any) stepped by one tick. */
  function SteppedEntity(e: Entity): (r: Entity)
    ensures e.waveState.None? ==> r == e
    ensures e.waveState.Some? ==> r == e.(waveState := Some(WaveState(e.waveState.value.waveNum, StepWait(e.waveState.value.waitState))))
  {
    match e.waveState
    case None => e
    case Some(ws) => e.(waveState := Some(ws.(waitState := StepWait(ws.waitState))))
  }

  /** Every wave state stepped by one tick; nothing else changes. */
  function Stepped(entities: Entities): (r: Entities)
    ensures r.Keys == entities.Keys
    ensures forall id :: id in entities ==> r[id] == SteppedEntity(entities[id])
  {
    map id | id in entities :: SteppedEntity(entities[id])
  }

  /** Whether entity `id` is a mob whose wait ends this tick. */
  predicate ReleasesNow(entities: Entities, id: EntityId)
  {
    id in entities && entities[id].waveState.Some? && Releases(entities[id].waveState.value.waitState)
  }

  /** The entities of `order` whose wait ends this tick, in that order. */
  function Released(entities: Entities, order: seq<EntityId>): seq<EntityId>
  {
    if order == [] then []
    else
      var last := order[|order| - 1];
      Released(entities, order[..|order| - 1]) + (if ReleasesNow(entities, last) then [last] else [])
  }

  /** `Released` keeps exactly the mobs of `order` whose wait ends, once each if `order` has no repeats. */
  lemma {:induction false} ReleasedAreExactly(entities: Entities, order: seq<EntityId>)
    ensures forall id :: id in Released(entities, order) <==> id in order && ReleasesNow(entities, id)
    ensures (forall i, j :: 0 <= i < j < |order| ==> order[i] != order[j]) ==>
      forall i, j :: 0 <= i < j < |Released(entities, order)| ==> Released(entities, order)[i] != Released(entities, order)[j]
  {
    if order != [] {
      var front := order[..|order| - 1];
      var last := order[|order| - 1];
      ReleasedAreExactly(entities, front);
      assert order == front + [last];
      if forall i, j :: 0 <= i < j < |order| ==> order[i] != order[j] {
        assert last !in front;
      }
    }
  }

  /** One `RemoveTag(id, Hidden)` per id, in the same order. */
  function Unhides(ids: seq<EntityId>): (r: seq<Command>)
    ensures |r| == |ids|
    ensures forall i :: 0 <= i < |ids| ==> r[i] == RemoveTag(ids[i], Hidden)
  {
    if ids == [] then [] else [RemoveTag(ids[0], Hidden)] + Unhides(ids[1..])
  }

  /** Step one entity's wait state in place; answer whether its wait just ended. */
  method StepOne(world: World, id: EntityId) returns (release: bool)
    requires id in world.entities && world.entities[id].waveState.Some?
    modifies world
    ensures release == ReleasesNow(old(world.entities), id)
    ensures world.nextId == old(world.nextId)
    ensures world.entities == old(world.entities)[id := SteppedEntity(old(world.entities[id]))]
  {
    var ws := world.entities[id].waveState.value;
    var next: WaitState;
    match ws.waitState {
      case Active =>
        next, release := Active, false;
      case Waiting(ticksRemaining) =>
        if ticksRemaining > 0 {
          next, release := Waiting(ticksRemaining - 1), false;
        } else {
          next, release := Active, true;
        }
    }
    world.entities := world.entities[id := world.entities[id].(waveState := Some(ws.(waitState := next)))];
  }

  /**
   * `update_wave_state`: every wave state steps one tick in place; the
   * buffer holds a launch intent iff auto-launch is on and the countdown is
   * 0, followed by one `Hidden` removal per mob whose wait ended. The wave
   * number and the next-wave state are only read.
   */
  method UpdateWaveState(world: World, wave: NextWaveState)
    returns (cmds: seq<Command>, ghost order: seq<EntityId>)
    requires world.Valid()
    modifies world
    ensures world.Valid() && world.nextId == old(world.nextId)
    ensures Lists(order, Waves(old(world.entities)))
    ensures world.entities == Stepped(old(world.entities))
    ensures cmds == (if AutoLaunches(wave) then [Spawn(LaunchIntent)] else []) + Unhides(Released(old(world.entities), order))
  {
    ghost var start := world.entities;
    cmds := [];
    if wave.delayTicks == 0 && wave.autoLaunch {
      cmds := cmds + [Spawn(LaunchIntent)];
    }
    ghost var launch := cmds;
    order := [];
    assert cmds == launch + Unhides(Released(start, order));
    var todo := Waves(world.entities);
    while todo != {}
      invariant todo <= Waves(start)
      invariant forall i, j :: 0 <= i < j < |order| ==> order[i] != order[j]
      invariant forall id :: id in order <==> id in Waves(start) && id !in todo
      invariant world.nextId == old(world.nextId)
      invariant SteppedBut(start, world.entities, todo)
      invariant cmds == launch + Unhides(Released(start, order))
      decreases todo
    {
      var entity :| entity in todo;
      var release := StepOne(world, entity);
      assert SteppedBut(start, world.entities, todo - {entity});
      cmds := Unhide(cmds, entity, release, launch, start, order);
      order := order + [entity];
      todo := todo - {entity};
    }
    assert Lists(order, Waves(start));
    SteppedAll(start, world.entities);
  }

  /** Record the `Hidden` removal of a released mob. */
  method Unhide(cmds: seq<Command>, entity: EntityId, release: bool,
                ghost launch: seq<Command>, ghost start: Entities, ghost order: seq<EntityId>)
    returns (cmds': seq<Command>)
    requires cmds == launch + Unhides(Released(start, order))
    requires release == ReleasesNow(start, entity)
    ensures cmds' == launch + Unhides(Released(start, order + [entity]))
  {
    ghost var extra := if release then [entity] else [];
    ReleasedSnoc(start, order, entity);
    UnhidesAppend(Released(start, order), extra);
    cmds' := cmds;
    if release {
      cmds' := cmds' + [RemoveTag(entity, Hidden)];
    }
    assert cmds' == launch + Unhides(Released(start, order)) + Unhides(extra);
  }

  /** Every entity has been stepped except those of `todo`, which are as they were. */
  predicate SteppedBut(start: Entities, now: Entities, todo: set<EntityId>)
  {
    now.Keys == start.Keys &&
    (forall id :: id in start && id !in todo ==> now[id] == SteppedEntity(start[id])) &&
    (forall id :: id in todo && id in start ==> now[id] == start[id])
  }

  lemma SteppedAll(start: Entities, now: Entities)
    requires SteppedBut(start, now, {})
    ensures now == Stepped(start)
  {
  }

  lemma ReleasedSnoc(entities: Entities, order: seq<EntityId>, id: EntityId)
    ensures Released(entities, order + [id]) == Released(entities, order) + (if ReleasesNow(entities, id) then [id] else [])
  {
    assert (order + [id])[..|order|] == order;
  }

  lemma UnhidesAppend(a: seq<EntityId>, b: seq<EntityId>)
    ensures Unhides(a + b) == Unhides(a) + Unhides(b)
  {
  }
}
