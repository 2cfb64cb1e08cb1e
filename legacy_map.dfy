/**
 * The earlier tile map of src/resources.rs: a sparse coordinate -> tile
 * dictionary whose unset cells read as a default tile chosen when the map is
 * created. It has no path field.
 */
module LegacyMap {

  datatype Tile = Open | Wall | Spawn | Core

  class Map {
    var tiles: map<(int, int), Tile>
    var defaultTile: Tile

    /** `Map::new`: an empty map, so every coordinate reads `defaultTile`. */
    constructor (defaultTile: Tile)
      ensures forall x, y :: GetTile(x, y) == defaultTile
      ensures this.defaultTile == defaultTile
    {
      tiles := map[];
      this.defaultTile := defaultTile;
    }

    /** The stored tile, or the default for a coordinate never set. */
    function GetTile(x: int, y: int): (t: Tile)
      reads this
      ensures (x, y) !in tiles ==> t == defaultTile
      ensures (x, y) in tiles ==> t == tiles[(x, y)]
    {
      if (x, y) in tiles then tiles[(x, y)] else defaultTile
    }

    /** Store `tile` at (x, y); every other coordinate reads as before. */
    method SetTile(x: int, y: int, tile: Tile)
      modifies this
      ensures GetTile(x, y) == tile
      ensures forall a, b :: (a, b) != (x, y) ==> GetTile(a, b) == old(GetTile(a, b))
      ensures defaultTile == old(defaultTile)
    {
      tiles := tiles[(x, y) := tile];
    }
  }
}
