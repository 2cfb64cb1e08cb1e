/**
 * Viewport arithmetic for drawing the map (src/systems/map_render_helpers.rs).
 *
 * Given the camera's top-left pixel and the canvas size, the renderer needs
 * the first tile to draw in each direction, how far left (up) of the canvas
 * edge that tile starts, and how many tiles it takes to cover the canvas.
 * The canvas width and height, which the source reads from the DOM, are
 * parameters here.
 */
module MapRenderHelpers {
  import opened Wrappers
  import opened TileHelpers
  import opened Resources

  datatype MapRenderData = MapRenderData(
    xMinTile: int,
    yMinTile: int,
    numTilesWide: int,
    numTilesTall: int,
    xPixelOffset: int,
    yPixelOffset: int)

  /** Rust's `/` on integers: the quotient truncated toward zero. */
  function TruncDiv(a: int, b: int): int
    requires b > 0
  {
    if a >= 0 then a / b else -((-a) / b)
  }

  /** On a multiple of the divisor, truncating division is exact. */
  lemma TruncDivExact(k: int, b: int)
    requires b > 0
    ensures TruncDiv(k * b, b) == k
  {
    if k * b >= 0 {
      assert k >= 0;
      RemainderFree(k, b);
    } else {
      assert -(k * b) == (-k) * b;
      RemainderFree(-k, b);
    }
  }

  lemma RemainderFree(k: int, b: int)
    requires b > 0
    ensures (k * b) / b == k
  {
    FloorIsUnique(k * b, b, (k * b) / b, k);
  }

  /**
   * `div_round_up`: for a positive divisor, the least `q` with
   * `q * div >= amt`, that is, the ceiling of `amt / div`.
   */
  function DivRoundUp(amt: int, div: int): (q: int)
    requires div != 0
    ensures div > 0 ==> q * div >= amt && (q - 1) * div < amt
  {
    var r := amt % div;
    var d := amt / div;
    if r > 0 then d + 1 else d
  }

  /** Any `q'` whose multiple reaches `amt` is at least `DivRoundUp(amt, div)`. */
  lemma DivRoundUpIsLeast(amt: int, div: int, q': int)
    requires div > 0 && q' * div >= amt
    ensures q' >= DivRoundUp(amt, div)
  {
  }

  /**
   * `get_map_render_data`: the first tile starts at most 31 pixels before
   * the camera edge, on a tile boundary, and just enough tiles are drawn to
   * cover the canvas from there.
   */
  function GetMapRenderData(canvasWidth: int, canvasHeight: int, camera: TdCamera): (r: MapRenderData)
    ensures -(TileWidthPixels - 1) <= r.xPixelOffset <= 0
    ensures -(TileHeightPixels - 1) <= r.yPixelOffset <= 0
    ensures r.xMinTile * TileWidthPixels == camera.left + r.xPixelOffset
    ensures r.yMinTile * TileHeightPixels == camera.top + r.yPixelOffset
    ensures camera.left - TileWidthPixels < r.xMinTile * TileWidthPixels <= camera.left
    ensures camera.top - TileHeightPixels < r.yMinTile * TileHeightPixels <= camera.top
    ensures r.numTilesWide * TileWidthPixels >= canvasWidth - r.xPixelOffset
    ensures (r.numTilesWide - 1) * TileWidthPixels < canvasWidth - r.xPixelOffset
    ensures r.numTilesTall * TileHeightPixels >= canvasHeight - r.yPixelOffset
    ensures (r.numTilesTall - 1) * TileHeightPixels < canvasHeight - r.yPixelOffset
  {
    var xPixelOffset := -(camera.left % TileWidthPixels);
    var xMinPixel := camera.left + xPixelOffset;
    assert xMinPixel == (camera.left / TileWidthPixels) * TileWidthPixels;
    TruncDivExact(camera.left / TileWidthPixels, TileWidthPixels);
    var xMinTile := TruncDiv(xMinPixel, TileWidthPixels);
    var numTilesWide := DivRoundUp(canvasWidth - xPixelOffset, TileWidthPixels);

    var yPixelOffset := -(camera.top % TileHeightPixels);
    var yMinPixel := camera.top + yPixelOffset;
    assert yMinPixel == (camera.top / TileHeightPixels) * TileHeightPixels;
    TruncDivExact(camera.top / TileHeightPixels, TileHeightPixels);
    var yMinTile := TruncDiv(yMinPixel, TileHeightPixels);
    var numTilesTall := DivRoundUp(canvasHeight - yPixelOffset, TileHeightPixels);

    MapRenderData(xMinTile, yMinTile, numTilesWide, numTilesTall, xPixelOffset, yPixelOffset)
  }

  /** The camera's top-left pixel lies in tile (`xMinTile`, `yMinTile`). */
  lemma FirstTileHoldsCameraCorner(canvasWidth: int, canvasHeight: int, camera: TdCamera)
    ensures CoordsToTile(camera.left, camera.top) ==
      Some((GetMapRenderData(canvasWidth, canvasHeight, camera).xMinTile,
            GetMapRenderData(canvasWidth, canvasHeight, camera).yMinTile))
  {
    var r := GetMapRenderData(canvasWidth, canvasHeight, camera);
    var t := CoordsToTile(camera.left, camera.top).value;
    FloorIsUnique(camera.left, TileWidthPixels, t.0, r.xMinTile);
    FloorIsUnique(camera.top, TileHeightPixels, t.1, r.yMinTile);
  }

  /**
   * Every pixel column of the canvas lies in one of the `numTilesWide`
   * tiles drawn from `xMinTile` on, and every pixel row in one of the
   * `numTilesTall` tiles drawn from `yMinTile` on.
   */
  lemma DrawnTilesCoverCanvas(canvasWidth: int, canvasHeight: int, camera: TdCamera, x: int, y: int)
    requires camera.left <= x < camera.left + canvasWidth
    requires camera.top <= y < camera.top + canvasHeight
    ensures var r := GetMapRenderData(canvasWidth, canvasHeight, camera);
      var t := CoordsToTile(x, y).value;
      r.xMinTile <= t.0 < r.xMinTile + r.numTilesWide &&
      r.yMinTile <= t.1 < r.yMinTile + r.numTilesTall
  {
  }
}
