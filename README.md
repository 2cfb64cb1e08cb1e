# radishes — a Dafny model of the game core

radishes is a browser tower-defense game. Its core is an entity-component
world that advances one tick at a time through a fixed list of stages, plus
a handful of shared resources:

- a sparse **tile map** (`Open`, `Wall`, `Spawn`, `Core`; every coordinate
  that was never set is a `Wall`) with a lazily recomputed **path field**:
  for every coordinate, the fewest steps to some Core, spreading only from
  tiles that are passable. Mobs step to the cheapest passable neighbour;
- the player's **ledger** of Wood, Metal and Money, which pays for tile
  changes and structures and is credited when structures are sold or mobs
  die;
- the player's health, the game state, the camera, the keys held, the tile
  selection and the wave countdown.

Each stage reads the world and queues commands (spawn, remove, add or remove
a tag) into a command buffer; the buffer is flushed after every stage. Some
stages also write entities in place. The renderer computes which map tiles
cover the canvas and which renderable entities meet the camera's box.

The model follows the source file by file:

- `tile_helpers.dfy`, `components.dfy`, `resources.dfy`, `legacy_map.dfy`:
  pixel/tile arithmetic, the component and resource types, the ledger
  (`OwnedResources`, a class whose balances the methods update), the menu
  state and the build/transform tables;
- `map.dfy`: the tile map as a class, the path-field search as a method over
  a priority queue (a multiset of weights) proved to compute the unique field
  of least step counts, and the mob step rule with its descent properties;
- `world.dfy`: the entity store (`World`, a class with the entity map and
  the next id), commands and their application at a flush;
- one file per tick stage, each a method over the entity map that returns
  its commands (and, where the source writes in place, updates the `World`),
  proved against a specification function of the entities it reads;
- `map_render_helpers.dfy`, `draw_renderables.dfy`: viewport arithmetic and
  the visibility test of the renderer.

Query iteration order in the source is that of the entity store and is not
specified; the stages pick the next entity with `:|` and report the order
they used as a ghost out-parameter, and each contract holds for every order.

Where the code and its own comments disagree, the model follows the code:
the comment above the path-field search (src/resources/map.rs:41-42) says
only passable tiles are valid and coordinates that were never set are never
given a weight, but the code records the cost of every popped coordinate
before checking whether it is passable (src/resources/map.rs:80-83), so a
default `Wall` next to a passable tile does get a cost; the step rule never
moves onto it, since it only considers passable neighbours (`TileMap.ImpassableNeighbourGetsCost`). The mob/core stage
writes the player's health (src/systems/tick_systems/mob_core_system.rs:15),
and the model does too. The source files also disagree about tile
conversion: `coords_to_tile` returns an optional tile (src/tile_helpers.rs:18-24),
while `Position::to_tile_coords` (src/components/mod.rs:27-29) and the
movement stage (src/systems/tick_systems/mob_movement_system.rs:32) use its
result as a plain pair; with a tolerance of 0 it never returns None, so the
model unwraps it (`Components.ToTileCoords`).

## Model

| member | source | states |
|---|---|---|
| TileHelpers.SafeDiv | src/tile_helpers.rs:35-52 | None for a non-positive divisor or when the remainder is within the tolerance (its absolute value) of either tile border; otherwise the floor quotient, bracketing `amt` |
| TileHelpers.CoordsToTileBuffered | src/tile_helpers.rs:10-16 | None exactly when the shifted pixel is within two pixels of a border on either axis; otherwise the tile whose 32-pixel span contains it |
| TileHelpers.CoordsToTile | src/tile_helpers.rs:18-24 | always some tile, and it is the tile whose span contains the pixel on both axes |
| TileHelpers.TileToPixelCoords | src/tile_helpers.rs:27-32 | the returned pixel is half a tile right of and below the tile's corner |
| TileHelpers.TileCentreRoundTrip | src/tile_helpers.rs:18-32 | converting a tile's centre pixel back gives that tile |
| TileHelpers.TileCentreIsNotBorder | src/tile_helpers.rs:10-32 | the buffered conversion accepts every tile centre and returns its tile |
| TileHelpers.TileSpan | src/tile_helpers.rs:18-24 | every pixel of a tile's span maps to that tile |
| Components.AtTileCenter | src/components/mod.rs:22-25 | the position is the centre pixel of the tile |
| Components.ToTileCoords | src/components/mod.rs:27-29 | the tile whose span contains the position on both axes |
| Components.CentreRoundTrip | src/components/mod.rs:22-29 | the centre of a tile converts back to that tile |
| Components.TileCoordsSpan | src/components/mod.rs:27-29 | every position inside a tile's 32 x 32 square converts to that tile |
| Resources.With | src/resources/mod.rs:122-125 | the chosen kind gets the new amount, every other kind keeps its amount |
| Resources.KindIsListed | src/resources/mod.rs:92 | every resource kind appears in the list of all resources |
| Resources.PaidAffordableIsNonNegative | src/resources/mod.rs:127-149 | after paying an affordable cost, no charged balance is negative |
| Resources.PayThenReceiveAllRestores | src/resources/mod.rs:143-159 | paying a cost and then receiving the same ledger leaves every balance as it was |
| Resources.ReceivedAmounts | src/resources/mod.rs:151-159 | receiving a ledger adds its amount of each kind to that kind's balance |
| Resources.OwnedResources.constructor | src/resources/mod.rs:117-120 | a new ledger holds nothing |
| Resources.OwnedResources.CanPay | src/resources/mod.rs:127-141 | true exactly when every positive cost is covered by the balance |
| Resources.OwnedResources.Pay | src/resources/mod.rs:143-149 | every kind's balance drops by its cost; nothing else changes |
| Resources.OwnedResources.Receive | src/resources/mod.rs:151-153 | one kind's balance grows by the amount |
| Resources.OwnedResources.ReceiveAll | src/resources/mod.rs:155-159 | every kind's balance grows by the received amount |
| Resources.MenuCollapseStates.constructor | src/resources/mod.rs:19-22 | no menu starts collapsed |
| Resources.MenuCollapseStates.IsCollapsed | src/resources/mod.rs:25-27 | true exactly when the key is recorded as collapsed |
| Resources.MenuCollapseStates.SetCollapsed | src/resources/mod.rs:29-35 | the key reads back the new state; every other key is unchanged |
| Resources.IsSelected | src/resources/mod.rs:48-55 | true exactly for a selection; false only for `Unselected` |
| Resources.DefaultNextWaveState | src/resources/mod.rs:107-115 | no auto-launch, next wave 1, countdown 0 |
| Resources.DefaultPlayerHealth | src/resources/mod.rs:168-172 | the player starts with 20 of 20 health |
| Resources.StructureBuilds.constructor | src/resources/mod.rs:194-197 | no tile offers any build |
| Resources.StructureBuilds.ListAllFor | src/resources/mod.rs:206-208 | a tile with no entry offers nothing |
| Resources.StructureBuilds.Add | src/resources/mod.rs:199-204 | the table becomes the old one with the build recorded: the described tile gains (or overwrites) the kind's cost; other tiles are unchanged |
| Resources.TileTransforms.constructor | src/resources/mod.rs:223-226 | no tile offers any transform |
| Resources.TileTransforms.ListAllFor | src/resources/mod.rs:235-237 | a tile with no entry offers nothing |
| Resources.TileTransforms.Add | src/resources/mod.rs:228-233 | the table becomes the old one with the transform recorded: the source tile gains (or overwrites) the target's cost; other tiles are unchanged |
| Resources.TransformListed | src/resources/mod.rs:228-233 | recording a transform lists its cost under its source and target, keeps the source's other targets, and leaves every other source as it was |
| Resources.TransformAddOverwrites | src/resources/mod.rs:228-233 | recording two transforms with the same source and target gives the table of recording only the later one |
| Resources.BuildListed | src/resources/mod.rs:199-204 | recording a build lists its cost under its tile and kind and leaves every other tile as it was |
| Resources.BuildAddOverwrites | src/resources/mod.rs:199-204 | recording two builds with the same tile and kind gives the table of recording only the later one |
| LegacyMap.Map.constructor | src/resources.rs:37-42 | every coordinate reads as the default tile |
| LegacyMap.Map.GetTile | src/resources.rs:44-46 | a set coordinate reads its tile, any other the default |
| LegacyMap.Map.SetTile | src/resources.rs:48-50 | the coordinate reads back the tile; every other coordinate and the default are unchanged |
| TileMap.IsPassable | src/resources/map.rs:174-181 | every tile except `Wall` is passable |
| TileMap.Neighbors | src/resources/map.rs:184-186 | four neighbours |
| TileMap.NeighborsAreAdjacent | src/resources/map.rs:184-186 | the neighbours are exactly the four orthogonally adjacent coordinates, and the relation is symmetric |
| TileMap.QueueCores | src/resources/map.rs:66-70 | the queue is seeded with every Core at cost 0 and nothing else |
| TileMap.PushNeighbours | src/resources/map.rs:84-90 | the queue gains the four neighbours at the given cost |
| TileMap.ProcessCheapest | src/resources/map.rs:72-93 | one pop of the cheapest entry keeps the search invariant and either costs a new coordinate or shrinks the queue |
| TileMap.Recompute | src/resources/map.rs:43-94 | the result is the path field: exactly the reachable coordinates, each with its fewest steps to a Core |
| TileMap.CostIsLeast | src/resources/map.rs:72-93 | no cost exceeds the length of any spreading path to the coordinate |
| TileMap.PathFieldUnique | src/resources/map.rs:43-94 | two path fields of the same tiles are equal, so the queue's tie order does not matter |
| TileMap.CostIffReachable | src/resources/map.rs:66-93 | a coordinate has a cost exactly when some Core reaches it |
| TileMap.CoreCostIsZero | src/resources/map.rs:66-70 | every Core costs 0 |
| TileMap.ZeroCostIsCore | src/resources/map.rs:66-93 | only Cores cost 0 |
| TileMap.NeighbourCostBound | src/resources/map.rs:80-91 | a neighbour of a costed passable tile costs at most one more |
| TileMap.HasPredecessor | src/resources/map.rs:80-91 | every positive cost has a passable adjacent coordinate one cheaper |
| TileMap.ImpassableNeighbourGetsCost | src/resources/map.rs:80-83 | next to a lone Core, an unset (Wall) coordinate still gets cost 1 |
| TileMap.StepTowardChoice | src/resources/map.rs:148-159 | the step is the start or a passable neighbour strictly cheaper than it, and no passable neighbour is cheaper than the step |
| TileMap.StepTowardFirst | src/resources/map.rs:148-159 | among equally cheap neighbours the first in neighbour order wins |
| TileMap.MoveDescends | src/resources/map.rs:142-162 | from a reachable non-Core coordinate the step goes to an adjacent passable coordinate exactly one cheaper |
| TileMap.CoreIsFixpoint | src/resources/map.rs:142-162 | a mob on a Core stays there |
| TileMap.UnreachableIsFixpoint | src/resources/map.rs:142-162 | a mob on a coordinate with no cost stays there |
| TileMap.WalkReachesCore | src/resources/map.rs:142-162 | following steps from a reachable coordinate arrives at a Core after exactly its cost many steps and stays there |
| TileMap.StayAtCore | src/resources/map.rs:142-162 | any number of steps from a Core stays on it |
| TileMap.Map.constructor | src/resources/map.rs:98-104 | an empty, clean map with an empty path field |
| TileMap.Map.Copy | src/resources/map.rs:18-24 | the copy has the same tiles, flag and path field |
| TileMap.Map.GetTile | src/resources/map.rs:106-108 | a set coordinate reads its tile, any other `Wall` |
| TileMap.Map.SetTile | src/resources/map.rs:110-113 | one coordinate changes, the path field is marked stale and kept |
| TileMap.Map.CanSetTile | src/resources/map.rs:115-127 | true exactly when, after the change, every Spawn tile still reaches a Core; the map is unchanged |
| TileMap.Map.RecomputeDijkstraMaps | src/resources/map.rs:129-137 | afterwards the path field is current; when it was not stale it is left as it was |
| TileMap.Map.MoveTowardSpawn | src/resources/map.rs:142-162 | refreshes a stale path field, then returns the step rule's choice from the start |
| TileMap.Map.AllSpawns | src/resources/map.rs:164-170 | lists every Spawn coordinate once |
| Ecs.Removals | src/systems/tick_systems/mod.rs:27-51 | one removal command per id, in order |
| Ecs.RemovalsDrop | src/systems/tick_systems/mod.rs:27-51 | flushing removals deletes exactly those ids and allocates nothing |
| Ecs.FlushKeepsIdsBelow | src/systems/tick_systems/mod.rs:27-51 | a flush keeps every id below the next id and advances it by the number of spawns |
| Ecs.SpawnsAppend | src/systems/tick_systems/mod.rs:27-51 | the spawns of two buffers are the spawns of each, in order |
| Ecs.UntouchedSurvives | src/systems/tick_systems/mod.rs:27-51 | an entity no command mentions is unchanged by a flush |
| Ecs.RemovedIsGone | src/systems/tick_systems/mod.rs:27-51 | an existing id with a removal in the buffer is gone after the flush |
| Ecs.RemovedAllGone | src/systems/tick_systems/mod.rs:27-51 | every existing id of a removed set is gone after the flush |
| Ecs.StaysGone | src/systems/tick_systems/mod.rs:27-51 | an id already removed is never brought back |
| Ecs.NoTagAfterFlush | src/systems/tick_systems/mod.rs:27-51 | if every holder of a tag is removed and no command grants it, no entity holds it afterwards |
| Ecs.World.constructor | src/lib.rs:116 | an empty world |
| Ecs.World.Flush | src/systems/tick_systems/mod.rs:27-51 | the new state is the old one with the buffer applied in order |
| UserClickSystem.Listing | src/systems/tick_systems/user_click_system.rs:41-55 | one listing entry per structure, carrying its id, kind and sell value |
| UserClickSystem.SelectByClicks | src/systems/tick_systems/user_click_system.rs:14-25 | every click intent is removed; with no clicks the selection is kept, else the last click's tile is selected |
| UserClickSystem.ClearByUnselects | src/systems/tick_systems/user_click_system.rs:27-31 | every unselect intent is removed; any unselect clears the selection |
| UserClickSystem.ListStructures | src/systems/tick_systems/user_click_system.rs:39-54 | lists every structure on the selected tile once |
| UserClickSystem.ProcessTileClicks | src/systems/tick_systems/user_click_system.rs:11-56 | all intents removed; unselect wins over clicks, the last click picks the tile, else the old tile is kept; a selection lists exactly its tile's structures |
| ChangeTileSystem.ProcessTileChanges | src/systems/change_tile_system.rs:7-29 | ledger, tiles and removals are those of deciding the intents one by one: accept only if affordable and every Spawn stays connected, then pay, set and remove; the path field is kept and marked stale exactly when a change was accepted (or it already was) |
| ChangeTileSystem.AcceptedKeepsSpawnsConnected | src/systems/change_tile_system.rs:23-26 | once any change is accepted, every Spawn reaches a Core in the final tiles |
| ChangeTileSystem.NoDebtFromChanges | src/systems/change_tile_system.rs:23-26 | non-negative balances stay non-negative |
| ChangeTileSystem.AcceptedAreVisited | src/systems/change_tile_system.rs:7-29 | only intents that were visited are accepted, at most one each |
| SellStructureSystem.SellOne | src/systems/tick_systems/sell_structure_system.rs:12-21 | the intent and its target are removed and the target's sell value is credited |
| SellStructureSystem.SellStructures | src/systems/tick_systems/sell_structure_system.rs:8-24 | every intent and every existing target is removed; each kind grows by the sum over intents of their target's value |
| SellStructureSystem.DuplicateSellCreditsTwice | src/systems/tick_systems/sell_structure_system.rs:16-19 | two intents naming one structure worth 10 Money credit 20 Money |
| SellStructureSystem.SellStructuresOnce | src/systems/tick_systems/sell_structure_system.rs:8-24 | same removals, but each kind grows by the sum over distinct sold structures of their value |
| BuildStructureSystem.GasTrapAt | src/systems/tick_systems/build_structure_system.rs:31-44 | an untagged gas trap of strength 10 at the centre of the tile, drawn as the gas-trap bitmap offset by half a tile, selling for 10 Money, 5 Wood and no Metal, with no other component |
| BuildStructureSystem.BuildStructures | src/systems/tick_systems/build_structure_system.rs:8-29 | ledger and commands are those of deciding the intents one by one: build and pay when affordable, always remove the intent |
| BuildStructureSystem.BuildCommands | src/systems/tick_systems/build_structure_system.rs:8-29 | every intent is removed, at most one structure is spawned per intent, and nothing else is queued |
| BuildStructureSystem.NoDebtFromBuilds | src/systems/tick_systems/build_structure_system.rs:8-29 | non-negative balances stay non-negative |
| LaunchWaveSystem.SafeReduce | src/systems/tick_systems/launch_wave_system.rs:31-35 | counts down by one, never below 0 |
| LaunchWaveSystem.NextIndex | src/systems/tick_systems/launch_wave_system.rs:42-44 | advancing the spawn index with wrap-around is the next index modulo the number of spawns |
| LaunchWaveSystem.LaunchWave | src/systems/tick_systems/launch_wave_system.rs:37-71 | spawns the wave's mobs in order and returns the total release delay |
| LaunchWaveSystem.WaveCommands | src/systems/tick_systems/launch_wave_system.rs:37-71 | one spawn per wave mob |
| LaunchWaveSystem.ProcessWaveLaunch | src/systems/tick_systems/launch_wave_system.rs:7-29 | all intents removed; a wave launches exactly when there is an intent and the countdown is 0, which advances the wave and resets the countdown; otherwise the countdown drops by one |
| KeyboardSystem.SetFlag | src/systems/tick_systems/keyboard_system.rs:27-34 | the chosen key's flag reads back the new value, the others are unchanged |
| KeyboardSystem.ApplyKeyEvent | src/systems/tick_systems/keyboard_system.rs:7-25 | key down sets, key up clears one key, all-keys-up clears every key |
| KeyboardSystem.HandleKeyEvent | src/systems/tick_systems/keyboard_system.rs:12-21 | writes one event into the flags exactly as the event rule says |
| KeyboardSystem.ProcessKeyInput | src/systems/tick_systems/keyboard_system.rs:7-25 | the events are applied in query order and each is removed |
| KeyboardSystem.UntouchedFlagKept | src/systems/tick_systems/keyboard_system.rs:7-25 | a key no event touches keeps its flag |
| KeyboardSystem.LastTouchDecides | src/systems/tick_systems/keyboard_system.rs:7-25 | the last event touching a key decides its flag: held after a press, up after a release or all-keys-up, whatever came before |
| KeyboardSystem.PressedIsHeld | src/systems/tick_systems/keyboard_system.rs:7-25 | a key whose last touching event is a press is held, even after earlier releases |
| KeyboardSystem.ReleasedIsUp | src/systems/tick_systems/keyboard_system.rs:7-25 | a key whose last touching event is a release or all-keys-up is up, even after earlier presses |
| CameraMoveSystem.CameraMove | src/systems/tick_systems/camera_move_system.rs:9-22 | each held direction moves the camera 8 pixels; opposite keys cancel, and an axis moves exactly when its two keys differ |
| WaveUpdateSystem.StepWait | src/systems/tick_systems/wave_update_system.rs:19-36 | active stays active, a countdown drops by one, a countdown at 0 becomes active |
| WaveUpdateSystem.CountsDown | src/systems/tick_systems/wave_update_system.rs:21-27 | j ticks take a countdown of k to k - j |
| WaveUpdateSystem.ActiveStays | src/systems/tick_systems/wave_update_system.rs:19 | an active wave stays active |
| WaveUpdateSystem.ActiveAfter | src/systems/tick_systems/wave_update_system.rs:19-36 | a countdown of k waits for k + 1 ticks and is released on the last of them |
| WaveUpdateSystem.StepsSplit | src/systems/tick_systems/wave_update_system.rs:10-40 | stepping a + b ticks is stepping a and then b |
| WaveUpdateSystem.SteppedEntity | src/systems/tick_systems/wave_update_system.rs:19-36 | only the wait state changes, by one step |
| WaveUpdateSystem.Stepped | src/systems/tick_systems/wave_update_system.rs:10-40 | every entity is stepped, none added or removed |
| WaveUpdateSystem.ReleasedAreExactly | src/systems/tick_systems/wave_update_system.rs:28-36 | the released ids are exactly those whose countdown is at 0, each once |
| WaveUpdateSystem.Unhides | src/systems/tick_systems/wave_update_system.rs:28-36 | one unhide command per released id |
| WaveUpdateSystem.UpdateWaveState | src/systems/tick_systems/wave_update_system.rs:10-40 | every wave state is stepped in place; an auto-launch intent is queued when enabled and the countdown is 0, followed by one unhide per released entity |
| MobMovementSystem.UnitDiff | src/systems/tick_systems/mob_movement_system.rs:57-65 | the sign of end - start |
| MobMovementSystem.StepIsSmall | src/systems/tick_systems/mob_movement_system.rs:36-42 | a step moves at most 2 pixels, in the direction of the target on each axis, and not at all only at the target |
| MobMovementSystem.StepKeepsEvenSum | src/systems/tick_systems/mob_movement_system.rs:12-13 | moving between positions of even coordinate sum keeps the sum even |
| MobMovementSystem.StepApproaches | src/systems/tick_systems/mob_movement_system.rs:36-42 | a step never overshoots and strictly approaches a distinct target |
| MobMovementSystem.CentreIsEven | src/components/mod.rs:22-25 | tile centres have an even coordinate sum |
| MobMovementSystem.AtCoreCentreStays | src/systems/tick_systems/mob_movement_system.rs:32-42 | a mob at a Core's centre does not move |
| MobMovementSystem.Moved | src/systems/tick_systems/mob_movement_system.rs:20-55 | every entity is moved by the rule, none added or removed |
| MobMovementSystem.CoreHitsAreExactly | src/systems/tick_systems/mob_movement_system.rs:47-53 | the core hits are exactly the visited mobs standing on a Core after their step |
| MobMovementSystem.TouchCommands | src/systems/tick_systems/mob_movement_system.rs:47-53 | one touched-core tag per hit |
| MobMovementSystem.MoveOne | src/systems/tick_systems/mob_movement_system.rs:24-53 | one mob steps toward its target tile's centre and reports whether it now stands on a Core |
| MobMovementSystem.MoveMobs | src/systems/tick_systems/mob_movement_system.rs:20-55 | every mob moves by the rule, the path field is current once a mob needed it and untouched when none did, and exactly the mobs on a Core are tagged |
| BreatheGasSystem.GassedInExactly | src/systems/tick_systems/breathe_gas_system.rs:10-27 | the gassed ids are exactly the breathers on a tile with gas, each once |
| BreatheGasSystem.DamageSpawns | src/systems/tick_systems/breathe_gas_system.rs:18-25 | one damage event per gassed id |
| BreatheGasSystem.BreatheGas | src/systems/tick_systems/breathe_gas_system.rs:10-27 | spawns one damage event per breather standing in gas |
| BreatheGasSystem.OneEventPerGassed | src/systems/tick_systems/breathe_gas_system.rs:10-27 | every event deals the fixed gas damage to a gassed breather, every gassed breather gets one, and no two are equal |
| MobCoreSystem.MobCoreHits | src/systems/tick_systems/mob_core_system.rs:10-17 | every core hitter is removed and costs the player one health |
| MobCoreSystem.OnlyHittersRemoved | src/systems/tick_systems/mob_core_system.rs:10-17 | after the flush exactly the hitters are gone and the rest are unchanged |
| PlayerDeathSystem.PlayerDeath | src/systems/tick_systems/player_death_system.rs:8-12 | the game is over when health is at most 0, else the state is kept |
| PlayerDeathSystem.DeathIsIdempotent | src/systems/tick_systems/player_death_system.rs:8-12 | running the stage again changes nothing, and a dead player stays dead |
| TakeDamageSystem.Damaged | src/systems/tick_systems/take_damage_system.rs:11-34 | no entity is added or removed |
| TakeDamageSystem.UntargetedUnchanged | src/systems/tick_systems/take_damage_system.rs:17-31 | an entity no event aims at is unchanged |
| TakeDamageSystem.FileEvent | src/systems/tick_systems/take_damage_system.rs:17-20 | filing one more event keeps each target's listed amounts equal to the damage aimed at it |
| TakeDamageSystem.GroupByTarget | src/systems/tick_systems/take_damage_system.rs:13-21 | every event is removed, and each target's listed amounts add up to the total damage aimed at it |
| TakeDamageSystem.ApplyDamage | src/systems/tick_systems/take_damage_system.rs:29-31 | the target's current health drops by the sum of its events; its maximum is kept |
| TakeDamageSystem.TakeDamages | src/systems/tick_systems/take_damage_system.rs:11-34 | every event is removed, and every entity's health drops by the total damage aimed at it |
| TakeDamageSystem.DamageTargets | src/systems/tick_systems/take_damage_system.rs:23-33 | every existing target takes its total damage; missing targets are skipped |
| MobDeathTracker.DyingExactly | src/systems/tick_systems/mob_death_tracker.rs:12-24 | the dying ids are exactly the visited mobs that are active (released from their wave) and have health at most 0 |
| MobDeathTracker.DeathMarks | src/systems/tick_systems/mob_death_tracker.rs:20-22 | one death tag per dying id |
| MobDeathTracker.MobsDieAtNoHealth | src/systems/tick_systems/mob_death_tracker.rs:12-24 | tags every active mob whose health is at most 0 as dead, and nothing else |
| MobDeathTracker.MarksExactlyTheDead | src/systems/tick_systems/mob_death_tracker.rs:12-24 | after the flush exactly the active mobs at no health gain the death tag; all else is unchanged |
| DeathHandler.PayOut | src/systems/death_handler.rs:19-24 | each kind's balance grows by what the events grant of it |
| DeathHandler.HandleDeaths | src/systems/death_handler.rs:12-28 | each kind's balance grows by what the dead entities with death events grant of it |
| DeathHandler.KindTotalAppend | src/systems/death_handler.rs:19-24 | the grant of two event lists is the sum of their grants |
| DeathHandler.UnnamedKindNotGranted | src/systems/death_handler.rs:19-24 | a kind no event names is not granted |
| DeathHandler.NoGrantWithoutOnDeath | src/systems/death_handler.rs:13-16 | dead entities without death events grant nothing |
| DeathCleanup.CleanUpDead | src/systems/tick_systems/death_cleanup.rs:10-16 | one removal per dead entity |
| DeathCleanup.NoDeadAfterCleanup | src/systems/tick_systems/death_cleanup.rs:10-16 | after the flush no entity is dead, and every other entity is unchanged |
| MapRenderHelpers.DivRoundUp | src/systems/map_render_helpers.rs:44-52 | the ceiling of the quotient: its multiple reaches the amount, one less does not |
| MapRenderHelpers.GetMapRenderData | src/systems/map_render_helpers.rs:19-42 | the first tile starts on a tile boundary at most 31 pixels before the camera edge, and just enough tiles are drawn to cover the canvas |
| MapRenderHelpers.FirstTileHoldsCameraCorner | src/systems/map_render_helpers.rs:19-42 | the first tile is the one under the camera's top-left pixel |
| MapRenderHelpers.DrawnTilesCoverCanvas | src/systems/map_render_helpers.rs:19-42 | every canvas pixel lies in one of the drawn tiles |
| DrawRenderables.Intersects1DMeansSharedValue | src/systems/draw_renderables.rs:128-131 | a shared value makes spans overlap; non-empty overlapping spans share a value; the test is symmetric |
| DrawRenderables.IntersectsMeansSharedPixel | src/systems/draw_renderables.rs:133-136 | the same for boxes and pixels |
| DrawRenderables.GetRenderBounds | src/systems/draw_renderables.rs:138-157 | a bitmap's box is the 32 x 32 square at its offset; a circle's box is every pixel within the radius on each axis |
| DrawRenderables.CameraBounds | src/systems/draw_renderables.rs:29-34 | the camera's box holds exactly the canvas pixels |
| DrawRenderables.VisibleExactly | src/systems/draw_renderables.rs:36-45 | the drawn ids are exactly the queried entities that are not hidden and meet the camera's box |
| DrawRenderables.DrawRenderables | src/systems/draw_renderables.rs:20-45 | returns the drawn ids in query order |
| DrawRenderables.DrawnIsOnCanvas | src/systems/draw_renderables.rs:36-45 | nothing hidden is drawn, and every drawn entity shows a pixel on a non-empty canvas |

## Left out

- Integer widths: coordinates, health and pixel arithmetic are `i32` and balances `i64` in the source; the model uses unbounded integers and does not model overflow.
- The gas stages (`gas_traps_make_gas`, `disperse_gas`) and the map's gas store are not part of this model; the breathing stage takes the gas at each tile as a function parameter.
- Canvas and DOM drawing, health bars and the map/gas/mob renderers (`render_map_system`, `render_gas_system`, `render_td_mobs_system`): `DrawRenderables` returns the ids it would draw instead, and canvas width and height are parameters.
- The user interface views, asset loading and the entry point are not part of this model.
- The superseded copies of the movement, wave-update and health-reducer systems outside the tick stage directory are not part of this model.
- The entity store's internals (archetypes, generations): a command naming a missing entity does nothing.
- Iteration order of hash maps and queries, and the priority queue's tie order: these are a ghost order or a multiset; `TileMap.PathFieldUnique` shows the path field does not depend on the tie order.
- The tick schedule (src/systems/tick_systems/mod.rs:27-51) is not composed into one step; each stage is proved on its own, with `Ecs.World.Flush` for the flush that follows it.
- MapRenderHelpers.DivRoundUp: the contract describes positive divisors only; the source only divides by the tile size.
- DrawRenderables.Intersects1DMeansSharedValue: the shared-value direction holds only for non-empty spans, since the overlap test is true for some inverted spans.
- DrawRenderables.IntersectsMeansSharedPixel: the shared-pixel direction holds only for non-empty boxes, for the same reason.
- DrawRenderables.DrawnIsOnCanvas: needs non-negative radii, since a negative radius gives an empty box.
- TakeDamageSystem.TakeDamages: requires every existing target to have health; the source aborts the program otherwise.
- LaunchWaveSystem.ProcessWaveLaunch: requires a Spawn tile whenever a wave launches; the source panics on an empty spawn list.

## Findings

| source | as written | input that shows it | evidently intended | confidence | as-written member | corrected member |
|---|---|---|---|---|---|---|
| src/systems/tick_systems/sell_structure_system.rs:16-19 | each sell intent credits its target's sell value, even when several intents name the same structure | two sell intents naming one structure worth 10 Money: 20 Money credited, one structure removed | credit each sold structure once | not executed | SellStructureSystem.DuplicateSellCreditsTwice | SellStructureSystem.SellStructuresOnce |
