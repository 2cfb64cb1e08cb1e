/**
 * The choice of what to draw (src/systems/draw_renderables.rs).
 *
 * Each renderable entity has a half-open pixel bounding box; it is drawn
 * when it is not `Hidden` and its box meets the camera's box. The drawing
 * itself (canvas calls, health bars) is not modelled: the stage here
 * returns the ids it would draw, in query order.
 */
module DrawRenderables {
  import opened Wrappers
  import opened TileHelpers
  import opened Resources
  import opened Components
  import opened Ecs
  import opened Collections

  /** A box of pixels: x in [xmin, xmax), y in [ymin, ymax). */
  datatype BoundingBox = BoundingBox(xmin: int, xmax: int, ymin: int, ymax: int)

  predicate InSpan(v: int, lo: int, hi: int)
  {
    lo <= v < hi
  }

  predicate Contains(b: BoundingBox, x: int, y: int)
  {
    InSpan(x, b.xmin, b.xmax) && InSpan(y, b.ymin, b.ymax)
  }

  /** `intersects_1d`: do the spans [amin, amax) and [bmin, bmax) overlap? */
  function Intersects1D(amin: int, amax: int, bmin: int, bmax: int): bool
  {
    amin < bmax && bmin < amax
  }

  /** `intersects`: do the boxes overlap along both axes? */
  function Intersects(a: BoundingBox, b: BoundingBox): bool
  {
    Intersects1D(a.xmin, a.xmax, b.xmin, b.xmax) && Intersects1D(a.ymin, a.ymax, b.ymin, b.ymax)
  }

  /**
   * A value lying in both spans makes them overlap; when neither span is
   * empty, overlapping spans share a value. The test is symmetric.
   */
  lemma Intersects1DMeansSharedValue(amin: int, amax: int, bmin: int, bmax: int)
    ensures (exists v :: InSpan(v, amin, amax) && InSpan(v, bmin, bmax)) ==> Intersects1D(amin, amax, bmin, bmax)
    ensures amin < amax && bmin < bmax && Intersects1D(amin, amax, bmin, bmax) ==>
      exists v :: InSpan(v, amin, amax) && InSpan(v, bmin, bmax)
    ensures Intersects1D(amin, amax, bmin, bmax) == Intersects1D(bmin, bmax, amin, amax)
  {
    if amin < amax && bmin < bmax && Intersects1D(amin, amax, bmin, bmax) {
      var v := if amin < bmin then bmin else amin;
      assert InSpan(v, amin, amax) && InSpan(v, bmin, bmax);
    }
  }

  predicate NonEmpty(b: BoundingBox)
  {
    b.xmin < b.xmax && b.ymin < b.ymax
  }

  /**
   * A pixel lying in both boxes makes them overlap; when neither box is
   * empty, overlapping boxes share a pixel. The test is symmetric.
   */
  lemma IntersectsMeansSharedPixel(a: BoundingBox, b: BoundingBox)
    ensures (exists x, y :: Contains(a, x, y) && Contains(b, x, y)) ==> Intersects(a, b)
    ensures NonEmpty(a) && NonEmpty(b) && Intersects(a, b) ==> exists x, y :: Contains(a, x, y) && Contains(b, x, y)
    ensures Intersects(a, b) == Intersects(b, a)
  {
    Intersects1DMeansSharedValue(a.xmin, a.xmax, b.xmin, b.xmax);
    Intersects1DMeansSharedValue(a.ymin, a.ymax, b.ymin, b.ymax);
    if NonEmpty(a) && NonEmpty(b) && Intersects(a, b) {
      var x :| InSpan(x, a.xmin, a.xmax) && InSpan(x, b.xmin, b.xmax);
      var y :| InSpan(y, a.ymin, a.ymax) && InSpan(y, b.ymin, b.ymax);
      assert Contains(a, x, y) && Contains(b, x, y);
    }
  }

  /**
   * `get_render_bounds`: a bitmap covers the 32 x 32 pixels from its offset
   * corner; a circle covers the pixels within `radius` of its centre along
   * each axis.
   */
  function GetRenderBounds(pos: Position, rend: Renderable): (r: BoundingBox)
    ensures rend.Bitmap? ==> forall x, y :: Contains(r, x, y) <==>
      0 <= x - (pos.x + rend.dx) < TileWidthPixels && 0 <= y - (pos.y + rend.dy) < TileHeightPixels
    ensures rend.Geometry? ==> forall x, y :: Contains(r, x, y) <==>
      Abs(x - pos.x) <= rend.geometry.radius && Abs(y - pos.y) <= rend.geometry.radius
  {
    match rend
    case Bitmap(dx, dy, bitmap) =>
      BoundingBox(pos.x + dx, pos.x + dx + TileWidthPixels, pos.y + dy, pos.y + dy + TileHeightPixels)
    case Geometry(Circle(radius)) =>
      BoundingBox(pos.x - radius, pos.x + radius + 1, pos.y - radius, pos.y + radius + 1)
  }

  /** The camera's box: the canvas, placed at the camera's top-left pixel. */
  function CameraBounds(camera: TdCamera, canvasWidth: int, canvasHeight: int): (r: BoundingBox)
    ensures forall x, y :: Contains(r, x, y) <==>
      0 <= x - camera.left < canvasWidth && 0 <= y - camera.top < canvasHeight
  {
    BoundingBox(camera.left, camera.left + canvasWidth, camera.top, camera.top + canvasHeight)
  }

  /** The query of the stage: entities with a position and a renderable. */
  function Renderables(entities: Entities): set<EntityId>
  {
    set id | id in entities && entities[id].position.Some? && entities[id].renderable.Some?
  }

  /** Whether entity `id` is drawn: queried, not hidden, and its box meets the camera's. */
  predicate IsDrawn(entities: Entities, box: BoundingBox, id: EntityId)
  {
    id in Renderables(entities) && Hidden !in entities[id].tags &&
    Intersects(GetRenderBounds(entities[id].position.value, entities[id].renderable.value), box)
  }

  /** The ids of `order` that are drawn, in that order. */
  function Visible(entities: Entities, box: BoundingBox, order: seq<EntityId>): seq<EntityId>
  {
    if order == [] then []
    else
      var last := order[|order| - 1];
      Visible(entities, box, order[..|order| - 1]) + (if IsDrawn(entities, box, last) then [last] else [])
  }

  /** `Visible` keeps exactly the ids of `order` that are drawn. */
  lemma {:induction false} VisibleExactly(entities: Entities, box: BoundingBox, order: seq<EntityId>)
    ensures forall id :: id in Visible(entities, box, order) <==> id in order && IsDrawn(entities, box, id)
  {
    if order != [] {
      VisibleExactly(entities, box, order[..|order| - 1]);
      assert order == order[..|order| - 1] + [order[|order| - 1]];
    }
  }

  /**
   * `draw_renderables`, less the drawing: the ids drawn, in query order,
   * are those that are not hidden and meet the camera's box.
   */
  method DrawRenderables(entities: Entities, camera: TdCamera, canvasWidth: int, canvasHeight: int)
    returns (drawn: seq<EntityId>, ghost order: seq<EntityId>)
    ensures Lists(order, Renderables(entities))
    ensures drawn == Visible(entities, CameraBounds(camera, canvasWidth, canvasHeight), order)
  {
    var cameraBounds := CameraBounds(camera, canvasWidth, canvasHeight);
    drawn := [];
    order := [];
    var todo := Renderables(entities);
    while todo != {}
      invariant todo <= Renderables(entities)
      invariant forall i, j :: 0 <= i < j < |order| ==> order[i] != order[j]
      invariant forall id :: id in order <==> id in Renderables(entities) && id !in todo
      invariant drawn == Visible(entities, cameraBounds, order)
      decreases todo
    {
      var entity :| entity in todo;
      var e := entities[entity];
      assert (order + [entity])[..|order|] == order;
      order := order + [entity];
      todo := todo - {entity};
      if Hidden in e.tags {
        continue;
      }
      var renderBounds := GetRenderBounds(e.position.value, e.renderable.value);
      if !Intersects(renderBounds, cameraBounds) {
        continue;
      }
      drawn := drawn + [entity];
    }
  }

  /** Every circle has a radius of at least 0. */
  predicate RadiiAreNonNegative(entities: Entities)
  {
    forall id :: id in entities && entities[id].renderable.Some? && entities[id].renderable.value.Geometry? ==>
      entities[id].renderable.value.geometry.radius >= 0
  }

  /**
   * No hidden entity is drawn, and, on a canvas that is not empty, every
   * drawn entity shows at least one of its pixels.
   */
  lemma DrawnIsOnCanvas(entities: Entities, camera: TdCamera, canvasWidth: int, canvasHeight: int, order: seq<EntityId>, id: EntityId)
    requires id in Visible(entities, CameraBounds(camera, canvasWidth, canvasHeight), order)
    requires canvasWidth > 0 && canvasHeight > 0 && RadiiAreNonNegative(entities)
    ensures id in Renderables(entities) && Hidden !in entities[id].tags
    ensures var bounds := GetRenderBounds(entities[id].position.value, entities[id].renderable.value);
      exists x, y :: Contains(bounds, x, y) && 0 <= x - camera.left < canvasWidth && 0 <= y - camera.top < canvasHeight
  {
    var box := CameraBounds(camera, canvasWidth, canvasHeight);
    VisibleExactly(entities, box, order);
    var bounds := GetRenderBounds(entities[id].position.value, entities[id].renderable.value);
    IntersectsMeansSharedPixel(bounds, box);
  }
}
