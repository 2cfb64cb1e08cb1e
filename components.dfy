/**
 * The components an entity may carry (src/components/mod.rs and the intent
 * messages of src/components/user_input.rs), and the pixel position helpers.
 *
 * An entity is a record with one optional slot per data component and a set
 * of the unit (tag) components it carries. Intent messages the user
 * interface spawns (`UserClickTile`, `TrySellStructure`, `TryBuildStructure`)
 * are declared in files that are not part of this model; their fields are
 * the ones the stages read.
 */
module Components {
  import opened Wrappers
  import opened Resources
  import TileMap
  import TileHelpers

  /** A world pixel position. */
  datatype Position = Position(x: int, y: int)

  /** `Position::at_tile_center`: the centre pixel of a tile. */
  function AtTileCenter(tileX: int, tileY: int): (p: Position)
    ensures p.x == 32 * tileX + 16 && p.y == 32 * tileY + 16
  {
    var c := TileHelpers.TileToPixelCoords(tileX, tileY);
    Position(c.0, c.1)
  }

  /**
   * `Position::to_tile_coords`: the tile holding the pixel, floor division by
   * 32 on each axis. `coords_to_tile` has no border tolerance, so it always
   * answers.
   */
  function ToTileCoords(p: Position): (t: (int, int))
    ensures 32 * t.0 <= p.x < 32 * t.0 + 32
    ensures 32 * t.1 <= p.y < 32 * t.1 + 32
  {
    TileHelpers.CoordsToTile(p.x, p.y).value
  }

  /** The centre of a tile lies in that tile. */
  lemma CentreRoundTrip(tileX: int, tileY: int)
    ensures ToTileCoords(AtTileCenter(tileX, tileY)) == (tileX, tileY)
  {
    var t := ToTileCoords(AtTileCenter(tileX, tileY));
    TileHelpers.FloorIsUnique(32 * tileX + 16, 32, t.0, tileX);
    TileHelpers.FloorIsUnique(32 * tileY + 16, 32, t.1, tileY);
  }

  /** Every pixel of the span [32t, 32t + 31] on an axis maps to tile t. */
  lemma TileCoordsSpan(p: Position, tx: int, ty: int)
    requires 32 * tx <= p.x <= 32 * tx + 31
    requires 32 * ty <= p.y <= 32 * ty + 31
    ensures ToTileCoords(p) == (tx, ty)
  {
    var t := ToTileCoords(p);
    TileHelpers.FloorIsUnique(p.x, 32, t.0, tx);
    TileHelpers.FloorIsUnique(p.y, 32, t.1, ty);
  }

  datatype MobHealth = MobHealth(currentHealth: int, maxHealth: int)

  datatype DeathEvent = GetResources(kind: ResourceKind, amount: int)

  /** `WaitState`: active, or waiting a number of ticks (a usize, so never negative). */
  datatype WaitState = Active | Waiting(ticksRemaining: nat)

  datatype WaveState = WaveState(waveNum: nat, waitState: WaitState)

  datatype RenderBitmap = GasTrapBitmap

  datatype RenderGeometry = Circle(radius: int)

  datatype Renderable =
    | Bitmap(dx: int, dy: int, bitmap: RenderBitmap)
    | Geometry(geometry: RenderGeometry)

  /** `PoisonGasTrap`: gas produced each tick. */
  datatype PoisonGasTrap = PoisonGasTrap(amount: int)

  datatype TakeDamage = TakeDamage(target: EntityId, amount: int)

  datatype UserKey = Up | Down | Left | Right

  datatype UserKeyEvent = KeyDown(key: UserKey) | KeyUp(key: UserKey) | AllKeysUp

  datatype TryChangeTileType = TryChangeTileType(x: int, y: int, desired: TileMap.Tile, costs: Ledger)

  datatype UserClickTile = UserClickTile(tileX: int, tileY: int)

  datatype TrySellStructure = TrySellStructure(toSell: EntityId)

  datatype TryBuildStructure = TryBuildStructure(x: int, y: int, desired: StructureKind, costs: Ledger)

  /** The components that carry no data. */
  datatype Tag =
    | TouchedCore
    | TdMob
    | Died
    | Hidden
    | Breathes
    | TryLaunchWave
    | UserUnselectTile

  /** The components of one entity. */
  datatype Entity = Entity(
    tags: set<Tag>,
    position: Option<Position>,
    mobHealth: Option<MobHealth>,
    onDeath: Option<seq<DeathEvent>>,
    renderable: Option<Renderable>,
    waveState: Option<WaveState>,
    structure: Option<StructureKind>,
    sellValue: Option<Ledger>,
    poisonGasTrap: Option<PoisonGasTrap>,
    takeDamage: Option<TakeDamage>,
    userClickTile: Option<UserClickTile>,
    tryChangeTileType: Option<TryChangeTileType>,
    trySellStructure: Option<TrySellStructure>,
    tryBuildStructure: Option<TryBuildStructure>,
    userKeyEvent: Option<UserKeyEvent>
  )

  /** An entity with no components, the base the spawn helpers extend. */
  const Blank: Entity := Entity({}, None, None, None, None, None, None, None, None, None, None, None, None, None, None)
}
