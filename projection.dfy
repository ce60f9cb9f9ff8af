/** Conversions between normalised Web-Mercator space, "wrapped" map space
    (Mercator x shifted by a whole world so that it lies next to the camera
    centre) and item (screen) positions. All arithmetic is over `real`:
    these are statements about exact arithmetic, not IEEE doubles. */
module Projection {

  datatype Vec2 = Vec2(x: real, y: real)

  /** The camera quantities the scene derives when it sets up its camera:
      the camera centre in Mercator units, the visible width and height of
      the screen in Mercator units, and the two reciprocals it keeps so that
      projecting to the screen needs no division. */
  datatype CameraFrame = CameraFrame(
    centerX: real, centerY: real,
    width: real, height: real,
    invWidth: real, invHeight: real)

  /** The reciprocals really are reciprocals. */
  predicate Reciprocal(cam: CameraFrame)
  {
    cam.width * cam.invWidth == 1.0 && cam.height * cam.invHeight == 1.0
  }

  /** The frame of a camera centred on `center` whose map is `mapEdgeSize`
      pixels wide, on a `screenWidth` x `screenHeight` screen. Over reals the
      divisions need non-zero operands (the double arithmetic would produce
      infinities instead). */
  function CameraFrameOf(center: Vec2, screenWidth: int, screenHeight: int, mapEdgeSize: real): (cam: CameraFrame)
    requires mapEdgeSize != 0.0 && screenWidth != 0 && screenHeight != 0
    ensures Reciprocal(cam)
    ensures cam.centerX == center.x && cam.centerY == center.y
  {
    var w := screenWidth as real / mapEdgeSize;
    var h := screenHeight as real / mapEdgeSize;
    CameraFrame(center.x, center.y, w, h, 1.0 / w, 1.0 / h)
  }

  /** Wraps a Mercator point around the camera centre: a point more than
      half a world to the right of a centre left of 0.5 moves one world
      left, a point more than half a world to the left of a centre right of
      0.5 moves one world right. A centre of exactly 0.5 never wraps. */
  function Wrap(p: Vec2, centerX: real): (r: Vec2)
    ensures r.y == p.y
    ensures r.x == p.x || r.x == p.x - 1.0 || r.x == p.x + 1.0
    ensures centerX == 0.5 ==> r == p
  {
    if centerX < 0.5 then
      if p.x - centerX > 0.5 then Vec2(p.x - 1.0, p.y) else p
    else if centerX > 0.5 then
      if p.x - centerX < -0.5 then Vec2(p.x + 1.0, p.y) else p
    else p
  }

  /** Folds a wrapped x back into the half-open world (0, 1]. */
  function Unwrap(p: Vec2): (r: Vec2)
    ensures r.y == p.y
    ensures -1.0 < p.x <= 2.0 ==> 0.0 < r.x <= 1.0
    ensures 0.0 < p.x <= 1.0 ==> r == p
  {
    if p.x > 1.0 then Vec2(p.x - 1.0, p.y)
    else if p.x <= 0.0 then Vec2(p.x + 1.0, p.y)
    else p
  }

  /** Every point of the world, seen from any camera centre in the world,
      wraps to within half a world of that centre. */
  lemma WrapNearCenter(p: Vec2, centerX: real)
    requires 0.0 <= p.x <= 1.0 && 0.0 <= centerX <= 1.0
    ensures -0.5 <= Wrap(p, centerX).x - centerX <= 0.5
  {
  }

  /** Unwrapping undoes wrapping for every point of the half-open world (0, 1],
      whatever the camera centre. */
  lemma UnwrapWrap(p: Vec2, centerX: real)
    requires 0.0 < p.x <= 1.0
    ensures Unwrap(Wrap(p, centerX)) == p
  {
  }

  /** The seam: x = 0 is the same meridian as x = 1, and unwrapping reports it as 1. */
  lemma UnwrapSeam(y: real, centerX: real)
    requires 0.0 <= centerX < 1.0
    ensures Unwrap(Wrap(Vec2(0.0, y), centerX)) == Vec2(1.0, y)
  {
  }

  /** Wrapped map space to item pixels: the camera centre is the middle of
      the item, one camera width spans the item's width, y grows downwards. */
  function WrappedToItemPosition(p: Vec2, cam: CameraFrame, screenWidth: int, screenHeight: int): (q: Vec2)
  {
    Vec2(((p.x - cam.centerX) * cam.invWidth + 0.5) * screenWidth as real,
         ((p.y - cam.centerY) * cam.invHeight + 0.5) * screenHeight as real)
  }

  /** Item pixels to wrapped map space. */
  function ItemPositionToWrapped(q: Vec2, cam: CameraFrame, screenWidth: int, screenHeight: int): (p: Vec2)
    requires screenWidth != 0 && screenHeight != 0
  {
    Vec2((q.x / screenWidth as real - 0.5) * cam.width + cam.centerX,
         (q.y / screenHeight as real - 0.5) * cam.height + cam.centerY)
  }

  /** The camera centre is drawn at the middle of the item. */
  lemma CenterAtItemMiddle(cam: CameraFrame, screenWidth: int, screenHeight: int)
    ensures WrappedToItemPosition(Vec2(cam.centerX, cam.centerY), cam, screenWidth, screenHeight)
         == Vec2(screenWidth as real / 2.0, screenHeight as real / 2.0)
  {
  }

  /** Item position back to wrapped map space inverts the forward map. */
  lemma ItemPositionInvertsWrapped(p: Vec2, cam: CameraFrame, screenWidth: int, screenHeight: int)
    requires screenWidth != 0 && screenHeight != 0 && Reciprocal(cam)
    ensures ItemPositionToWrapped(WrappedToItemPosition(p, cam, screenWidth, screenHeight), cam, screenWidth, screenHeight) == p
  {
    var sw, sh := screenWidth as real, screenHeight as real;
    var q := WrappedToItemPosition(p, cam, screenWidth, screenHeight);
    // q is the item-relative offset from the centre, scaled by the screen size
    var ax, ay := (p.x - cam.centerX) * cam.invWidth + 0.5, (p.y - cam.centerY) * cam.invHeight + 0.5;
    DivCancel(ax, sw);
    DivCancel(ay, sh);
    assert q.x / sw == ax && q.y / sh == ay;
    calc {
      (ax - 0.5) * cam.width + cam.centerX;
      (p.x - cam.centerX) * (cam.invWidth * cam.width) + cam.centerX;
      p.x;
    }
    calc {
      (ay - 0.5) * cam.height + cam.centerY;
      (p.y - cam.centerY) * (cam.invHeight * cam.height) + cam.centerY;
      p.y;
    }
  }

  /** And the forward map inverts the backward one. */
  lemma WrappedInvertsItemPosition(q: Vec2, cam: CameraFrame, screenWidth: int, screenHeight: int)
    requires screenWidth != 0 && screenHeight != 0 && Reciprocal(cam)
    ensures WrappedToItemPosition(ItemPositionToWrapped(q, cam, screenWidth, screenHeight), cam, screenWidth, screenHeight) == q
  {
    var sw, sh := screenWidth as real, screenHeight as real;
    var p := ItemPositionToWrapped(q, cam, screenWidth, screenHeight);
    calc {
      ((p.x - cam.centerX) * cam.invWidth + 0.5) * sw;
      ((q.x / sw - 0.5) * (cam.width * cam.invWidth) + 0.5) * sw;
      (q.x / sw) * sw;
      q.x;
    }
    calc {
      ((p.y - cam.centerY) * cam.invHeight + 0.5) * sh;
      ((q.y / sh - 0.5) * (cam.height * cam.invHeight) + 0.5) * sh;
      (q.y / sh) * sh;
      q.y;
    }
  }

  /** Multiplying by a non-zero scale and dividing by it again is the identity. */
  lemma DivCancel(a: real, b: real)
    requires b != 0.0
    ensures (a * b) / b == a
  {
  }

  /** Mercator point to item position: wrap around the camera, then project. */
  function MercatorToItemPosition(m: Vec2, cam: CameraFrame, screenWidth: int, screenHeight: int): (q: Vec2)
  {
    WrappedToItemPosition(Wrap(m, cam.centerX), cam, screenWidth, screenHeight)
  }

  /** Item position to Mercator point: unproject, then unwrap. */
  function ItemPositionToMercator(q: Vec2, cam: CameraFrame, screenWidth: int, screenHeight: int): (m: Vec2)
    requires screenWidth != 0 && screenHeight != 0
  {
    Unwrap(ItemPositionToWrapped(q, cam, screenWidth, screenHeight))
  }

  /** Drawing a point of the world and reading it back gives the same point. */
  lemma {:induction false} MercatorRoundTrip(m: Vec2, cam: CameraFrame, screenWidth: int, screenHeight: int)
    requires 0.0 < m.x <= 1.0
    requires screenWidth != 0 && screenHeight != 0 && Reciprocal(cam)
    ensures ItemPositionToMercator(MercatorToItemPosition(m, cam, screenWidth, screenHeight), cam, screenWidth, screenHeight) == m
  {
    ItemPositionInvertsWrapped(Wrap(m, cam.centerX), cam, screenWidth, screenHeight);
    UnwrapWrap(m, cam.centerX);
  }
}
