/**
 * The wave-launch stage (src/systems/tick_systems/launch_wave_system.rs).
 *
 * Every launch intent is removed. The first intent visited while the
 * countdown is 0 launches a wave of ten mobs spread over the spawn tiles and
 * restarts the countdown at 200, so at most one wave launches per run. At
 * the end of the stage the countdown drops by one unless it is already 0.
 */
module LaunchWaveSystem {
  import opened Wrappers
  import opened Resources
  import opened Components
  import opened Ecs
  import opened Collections
  import TileMap
  import TileHelpers

  /** Mobs per wave. */
  const WaveSize: nat := 10

  /** Ticks between the releases of consecutive mobs of a wave. */
  const ReleaseInterval: nat := 20

  function LaunchIntents(entities: Entities): set<EntityId>
  {
    set id | id in entities && TryLaunchWave in entities[id].tags
  }

  /** The `i`-th mob of a wave, placed on the spawns in turn. */
  function WaveMob(spawns: seq<TileMap.Coord>, i: nat): Entity
    requires spawns != []
  {
    var c := TileHelpers.TileToPixelCoords(spawns[i % |spawns|].0, spawns[i % |spawns|].1);
    Blank.(
      tags := {TdMob, Breathes, Hidden},
      position := Some(Position(c.0, c.1)),
      waveState := Some(WaveState(0, Waiting(ReleaseInterval * i))),
      renderable := Some(Geometry(Circle(10))),
      mobHealth := Some(MobHealth(100, 100)),
      onDeath := Some([GetResources(Money, 5)]))
  }

  /** `safe_reduce`: one less, but never below 0. */
  function SafeReduce(m: nat): (r: nat)
    ensures m > 0 ==> r == m - 1
    ensures m == 0 ==> r == 0
  {
    if m > 0 then m - 1 else m
  }

  /** Stepping an index modulo n keeps it equal to the step count modulo n. */
  lemma NextIndex(k: nat, n: nat)
    requires n > 0
    ensures (k % n + 1) % n == (k + 1) % n
  {
    var q, r := k / n, k % n;
    assert k == q * n + r;
    if r + 1 < n {
      RemainderIsUnique(k + 1, n, q, r + 1);
      RemainderIsUnique(r + 1, n, 0, r + 1);
    } else {
      assert k + 1 == (q + 1) * n + 0;
      RemainderIsUnique(k + 1, n, q + 1, 0);
      RemainderIsUnique(r + 1, n, 1, 0);
    }
  }

  lemma RemainderIsUnique(a: int, n: int, q: int, r: int)
    requires n > 0 && a == q * n + r && 0 <= r < n
    ensures a % n == r
  {
    var q', r' := a / n, a % n;
    assert a == q' * n + r';
    TileHelpers.FloorIsUnique(a, n, q', q);
  }

  /**
   * `launch_wave`: spawn the ten mobs of a wave, mob `i` released after
   * 20 * i ticks on spawn `i mod |spawns|`, and answer the largest release
   * delay plus 20.
   */
  method LaunchWave(spawns: seq<TileMap.Coord>) returns (cmds: seq<Command>, waveDelay: nat)
    requires spawns != []
    ensures |cmds| == WaveSize
    ensures forall i :: 0 <= i < WaveSize ==> cmds[i] == Spawn(WaveMob(spawns, i))
    ensures waveDelay == ReleaseInterval * (WaveSize - 1) + ReleaseInterval
  {
    cmds := [];
    var spawnIdx := 0;
    var maxDelay := 0;
    for delay := 0 to WaveSize
      invariant spawnIdx == delay % |spawns|
      invariant maxDelay == if delay == 0 then 0 else ReleaseInterval * (delay - 1)
      invariant |cmds| == delay
      invariant forall i :: 0 <= i < delay ==> cmds[i] == Spawn(WaveMob(spawns, i))
    {
      var delayTicks := delay * ReleaseInterval;
      var (tileX, tileY) := spawns[spawnIdx];
      var (x, y) := TileHelpers.TileToPixelCoords(tileX, tileY);
      NextIndex(delay, |spawns|);
      spawnIdx := (spawnIdx + 1) % |spawns|;
      var mob := Blank.(
        tags := {TdMob, Breathes, Hidden},
        position := Some(Position(x, y)),
        waveState := Some(WaveState(0, Waiting(delayTicks))),
        renderable := Some(Geometry(Circle(10))),
        mobHealth := Some(MobHealth(100, 100)),
        onDeath := Some([GetResources(Money, 5)]));
      assert mob == WaveMob(spawns, delay);
      cmds := cmds + [Spawn(mob)];
      maxDelay := if maxDelay >= delayTicks then maxDelay else delayTicks;
    }
    waveDelay := maxDelay + ReleaseInterval;
  }

  /** The spawn commands of a wave over `spawns`. */
  function WaveCommands(spawns: seq<TileMap.Coord>): (cmds: seq<Command>)
    requires spawns != []
    ensures |cmds| == WaveSize
  {
    seq(WaveSize, i requires 0 <= i < WaveSize => Spawn(WaveMob(spawns, i)))
  }

  /**
   * `process_wave_launch`. A wave launches iff there is an intent and the
   * countdown is 0; its mobs use the spawn tiles in the order `spawnOrder`.
   * Launching needs at least one Spawn tile.
   */
  method ProcessWaveLaunch(entities: Entities, tileMap: TileMap.Map, wave: NextWaveState)
    returns (wave': NextWaveState, cmds: seq<Command>, ghost order: seq<EntityId>, ghost spawnOrder: seq<TileMap.Coord>)
    requires LaunchIntents(entities) != {} && wave.delayTicks == 0 ==>
      exists p :: p in tileMap.tiles && tileMap.tiles[p] == TileMap.Spawn
    ensures Lists(order, LaunchIntents(entities))
    ensures LaunchIntents(entities) != {} && wave.delayTicks == 0 ==>
      Lists(spawnOrder, set p | p in tileMap.tiles && tileMap.tiles[p] == TileMap.Spawn) && spawnOrder != [] &&
      cmds == WaveCommands(spawnOrder) + Removals(order) &&
      wave' == wave.(nextWave := wave.nextWave + 1, delayTicks := 199)
    ensures !(LaunchIntents(entities) != {} && wave.delayTicks == 0) ==>
      cmds == Removals(order) && wave' == wave.(delayTicks := SafeReduce(wave.delayTicks))
  {
    wave' := wave;
    cmds := [];
    order := [];
    spawnOrder := [];
    var todo := LaunchIntents(entities);
    while todo != {}
      invariant todo <= LaunchIntents(entities)
      invariant forall i, j :: 0 <= i < j < |order| ==> order[i] != order[j]
      invariant forall id :: id in order <==> id in LaunchIntents(entities) && id !in todo
      invariant order == [] ==> wave' == wave && cmds == [] && todo == LaunchIntents(entities)
      invariant order != [] && wave.delayTicks == 0 ==>
        Lists(spawnOrder, set p | p in tileMap.tiles && tileMap.tiles[p] == TileMap.Spawn) && spawnOrder != [] &&
        cmds == WaveCommands(spawnOrder) + Removals(order) &&
        wave' == wave.(nextWave := wave.nextWave + 1, delayTicks := 200)
      invariant order != [] && wave.delayTicks != 0 ==> cmds == Removals(order) && wave' == wave
      decreases todo
    {
      var entity :| entity in todo;
      if wave'.delayTicks == 0 {
        var spawns := tileMap.AllSpawns();
        ghost var p :| p in tileMap.tiles && tileMap.tiles[p] == TileMap.Spawn;
        assert p in spawns;
        var waveCmds, waveDelay := LaunchWave(spawns);
        cmds := cmds + waveCmds;
        spawnOrder := spawns;
        wave' := wave'.(nextWave := wave'.nextWave + 1, delayTicks := waveDelay);
      }
      cmds := cmds + [Remove(entity)];
      order := order + [entity];
      todo := todo - {entity};
    }
    if order != [] {
      assert order[0] in LaunchIntents(entities);
    }
    wave' := wave'.(delayTicks := SafeReduce(wave'.delayTicks));
  }
}
