/**
 * Pixel <-> tile conversions (src/tile_helpers.rs).
 *
 * Rust's `rem_euclid` and `div_euclid` agree with Dafny's `%` and `/` for a
 * positive divisor, which is the only case in which they are reached here.
 * Coordinates are unbounded integers: i32 wrap-around is not modelled.
 */
module TileHelpers {
  import opened Wrappers

  const TileWidthPixels: int := 32
  const TileHeightPixels: int := 32

  function Abs(n: int): nat { if n < 0 then -n else n }

  /**
   * Floor division that refuses amounts lying within `tol` pixels of a
   * border; a negative tolerance means its absolute value.
   */
  function SafeDiv(amt: int, div: int, tol: int): (r: Option<int>)
    decreases if tol < 0 then 1 else 0
    ensures div <= 0 ==> r == None
    ensures div > 0 ==>
      (r == None <==> amt % div < Abs(tol) || div - amt % div - 1 < Abs(tol))
    ensures r.Some? ==> r.value * div <= amt < r.value * div + div
  {
    if tol < 0 then
      SafeDiv(amt, div, -tol)
    else if div <= 0 then
      None
    else
      var m := amt % div;
      if m < tol || div - m - 1 < tol then None else Some(amt / div)
  }

  /**
   * The tile under a pixel, or None when the pixel (shifted by
   * `borderOffset`) lies within two pixels of a tile border.
   */
  function CoordsToTileBuffered(x: int, y: int, borderOffset: int): (r: Option<(int, int)>)
    ensures r == None <==>
      (x - borderOffset) % TileWidthPixels in {0, 1, 30, 31} ||
      (y - borderOffset) % TileHeightPixels in {0, 1, 30, 31}
    ensures r.Some? ==>
      r.value.0 * TileWidthPixels <= x - borderOffset < r.value.0 * TileWidthPixels + TileWidthPixels &&
      r.value.1 * TileHeightPixels <= y - borderOffset < r.value.1 * TileHeightPixels + TileHeightPixels
  {
    match SafeDiv(x - borderOffset, TileWidthPixels, 2)
    case None => None
    case Some(tileX) =>
      match SafeDiv(y - borderOffset, TileHeightPixels, 2)
      case None => None
      case Some(tileY) => Some((tileX, tileY))
  }

  /** The tile containing a pixel; with tolerance 0 it is never None. */
  function CoordsToTile(x: int, y: int): (r: Option<(int, int)>)
    ensures r.Some?
    ensures r.value.0 * TileWidthPixels <= x < r.value.0 * TileWidthPixels + TileWidthPixels
    ensures r.value.1 * TileHeightPixels <= y < r.value.1 * TileHeightPixels + TileHeightPixels
  {
    match SafeDiv(x, TileWidthPixels, 0)
    case None => None
    case Some(tileX) =>
      match SafeDiv(y, TileHeightPixels, 0)
      case None => None
      case Some(tileY) => Some((tileX, tileY))
  }

  /** The pixel at the centre of a tile. */
  function TileToPixelCoords(tileX: int, tileY: int): (p: (int, int))
    ensures p.0 - tileX * TileWidthPixels == TileWidthPixels / 2
    ensures p.1 - tileY * TileHeightPixels == TileHeightPixels / 2
  {
    (tileX * TileWidthPixels + TileWidthPixels / 2, tileY * TileHeightPixels + TileHeightPixels / 2)
  }

  /** The pixel at a tile's centre converts back to that tile. */
  lemma TileCentreRoundTrip(tileX: int, tileY: int)
    ensures CoordsToTile(TileToPixelCoords(tileX, tileY).0, TileToPixelCoords(tileX, tileY).1)
         == Some((tileX, tileY))
  {
    var p := TileToPixelCoords(tileX, tileY);
    var t := CoordsToTile(p.0, p.1).value;
    FloorIsUnique(p.0, TileWidthPixels, t.0, tileX);
    FloorIsUnique(p.1, TileHeightPixels, t.1, tileY);
  }

  /** A tile centre is never near a border, so the buffered conversion accepts it too. */
  lemma TileCentreIsNotBorder(tileX: int, tileY: int)
    ensures CoordsToTileBuffered(TileToPixelCoords(tileX, tileY).0, TileToPixelCoords(tileX, tileY).1, 0)
         == Some((tileX, tileY))
  {
    var p := TileToPixelCoords(tileX, tileY);
    assert p.0 == tileX * 32 + 16 && p.1 == tileY * 32 + 16;
    assert p.0 % 32 == 16 by { ModOfShift(tileX, 16); }
    assert p.1 % 32 == 16 by { ModOfShift(tileY, 16); }
    var t := CoordsToTileBuffered(p.0, p.1, 0).value;
    FloorIsUnique(p.0, TileWidthPixels, t.0, tileX);
    FloorIsUnique(p.1, TileHeightPixels, t.1, tileY);
  }

  lemma ModOfShift(t: int, r: int)
    requires 0 <= r < 32
    ensures (t * 32 + r) % 32 == r
  {
    var q := (t * 32 + r) / 32;
    var m := (t * 32 + r) % 32;
    assert t * 32 + r == q * 32 + m;
    FloorIsUnique(t * 32 + r, 32, q, t);
  }

  /** Two integers whose multiples bracket the same amount are equal. */
  lemma FloorIsUnique(amt: int, div: int, q1: int, q2: int)
    requires div > 0
    requires q1 * div <= amt < q1 * div + div
    requires q2 * div <= amt < q2 * div + div
    ensures q1 == q2
  {
    if q1 < q2 {
      Spread(q1, q2 - q1, div);
    } else if q2 < q1 {
      Spread(q2, q1 - q2, div);
    }
  }

  lemma Spread(q: int, k: int, div: int)
    requires k >= 1 && div > 0
    ensures (q + k) * div >= q * div + div
  {
    assert (q + k) * div == q * div + k * div;
    assert (k - 1) * div >= 0;
  }

  /** Every pixel of the span [32t, 32t + 31] belongs to tile t. */
  lemma TileSpan(t: int, x: int)
    requires t * TileWidthPixels <= x <= t * TileWidthPixels + TileWidthPixels - 1
    ensures CoordsToTile(x, 0).value.0 == t
  {
    FloorIsUnique(x, TileWidthPixels, CoordsToTile(x, 0).value.0, t);
  }
}
