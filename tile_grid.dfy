/** Integer tile-grid arithmetic of the tiled map scene: how the visible tile
    set reveals a dateline crossing, the wrap threshold that follows, the
    bounding box of the visible tiles in "unwrapped" columns, and the quad a
    tile occupies in scene units. */
module TileGrid {
  import opened Wrappers

  /** A map tile: its integer zoom level and its column and row in the
      2^zoom x 2^zoom grid. */
  datatype TileSpec = TileSpec(zoom: int, x: int, y: int)


  /** The scene's fixed scale factor: it scales tile geometry and camera
      altitude alike, so it only keeps magnitudes well-conditioned. */
  const ScaleFactor: real := 10.0

  /** `1 << n`. */
  function Pow2(n: nat): (r: nat)
    ensures r >= 1
    ensures n >= 1 ==> r % 2 == 0
    ensures n >= 2 ==> r >= 4
  {
    if n == 0 then 1 else 2 * Pow2(n - 1)
  }

  // ---------------------------------------------------------------------
  // Dateline detection

  /** What the dateline scan records about one column. The scan tests the
      far-left, far-right, mid-left and mid-right columns in an else-if
      chain, so a column that is an edge is never counted as a middle one. */
  datatype Column = FarLeft | FarRight | MidLeft | MidRight | Inner

  function ColumnOf(x: int, sideLength: nat): Column
  {
    if x == 0 then FarLeft
    else if x == sideLength - 1 then FarRight
    else if x == sideLength / 2 - 1 then MidLeft
    else if x == sideLength / 2 then MidRight
    else Inner
  }

  /** Some tile at zoom level `zoom` was recorded as column kind `c`. */
  predicate HasColumn(tiles: seq<TileSpec>, zoom: int, sideLength: nat, c: Column)
  {
    exists i :: 0 <= i < |tiles| && tiles[i].zoom == zoom && ColumnOf(tiles[i].x, sideLength) == c
  }

  /** Some tile at zoom level `zoom` lies in column `x`. */
  predicate HasX(tiles: seq<TileSpec>, zoom: int, x: int)
  {
    exists i :: 0 <= i < |tiles| && tiles[i].zoom == zoom && tiles[i].x == x
  }

  /** The column below which tiles are shifted one world to the right. Only
      when both edge columns are present is a crossing assumed: the gap is
      then looked for at the mid-right column first, then at the mid-left. */
  function WrapThreshold(tiles: seq<TileSpec>, zoom: int, sideLength: nat): int
  {
    if HasColumn(tiles, zoom, sideLength, FarLeft) && HasColumn(tiles, zoom, sideLength, FarRight) then
      if !HasColumn(tiles, zoom, sideLength, MidRight) then sideLength / 2
      else if !HasColumn(tiles, zoom, sideLength, MidLeft) then sideLength / 2 - 1
      else 0
    else 0
  }

  /** When column kind `c` is exactly column `x`, recording kind `c` is
      seeing a tile in column `x`. */
  lemma {:induction false} HasColumnIsHasX(tiles: seq<TileSpec>, zoom: int, sideLength: nat, c: Column, x: int)
    requires forall x' :: ColumnOf(x', sideLength) == c <==> x' == x
    ensures HasColumn(tiles, zoom, sideLength, c) <==> HasX(tiles, zoom, x)
  {
    if HasColumn(tiles, zoom, sideLength, c) {
      var i :| 0 <= i < |tiles| && tiles[i].zoom == zoom && ColumnOf(tiles[i].x, sideLength) == c;
      assert tiles[i].x == x;
    }
    if HasX(tiles, zoom, x) {
      var i :| 0 <= i < |tiles| && tiles[i].zoom == zoom && tiles[i].x == x;
      assert ColumnOf(tiles[i].x, sideLength) == c;
    }
  }

  /** The wrap threshold in terms of plain column membership, for grids of
      at least four columns (zoom >= 2), where the four columns are distinct:
      both edges present and column side/2 missing gives side/2; both edges
      and column side/2 present but column side/2 - 1 missing gives
      side/2 - 1; anything else gives 0. */
  lemma WrapThresholdByColumns(tiles: seq<TileSpec>, zoom: int, sideLength: nat)
    requires sideLength >= 4
    ensures WrapThreshold(tiles, zoom, sideLength) ==
      if HasX(tiles, zoom, 0) && HasX(tiles, zoom, sideLength - 1) then
        if !HasX(tiles, zoom, sideLength / 2) then sideLength / 2
        else if !HasX(tiles, zoom, sideLength / 2 - 1) then sideLength / 2 - 1
        else 0
      else 0
  {
    HasColumnIsHasX(tiles, zoom, sideLength, FarLeft, 0);
    HasColumnIsHasX(tiles, zoom, sideLength, FarRight, sideLength - 1);
    HasColumnIsHasX(tiles, zoom, sideLength, MidLeft, sideLength / 2 - 1);
    HasColumnIsHasX(tiles, zoom, sideLength, MidRight, sideLength / 2);
  }

  /** On the two-column grid (zoom 1) column 1 is the far-right edge, never
      the mid-right column, so with both columns present the threshold is 1. */
  lemma WrapThresholdTwoColumns(tiles: seq<TileSpec>, zoom: int)
    ensures WrapThreshold(tiles, zoom, 2) == if HasX(tiles, zoom, 0) && HasX(tiles, zoom, 1) then 1 else 0
  {
    HasColumnIsHasX(tiles, zoom, 2, FarLeft, 0);
    HasColumnIsHasX(tiles, zoom, 2, FarRight, 1);
    assert !HasColumn(tiles, zoom, 2, MidRight);
  }

  /** On the one-column grid (zoom 0) the single column is the far-left edge,
      so no crossing is ever detected. */
  lemma WrapThresholdOneColumn(tiles: seq<TileSpec>, zoom: int)
    ensures WrapThreshold(tiles, zoom, 1) == 0
  {
    assert !HasColumn(tiles, zoom, 1, FarRight);
  }

  // ---------------------------------------------------------------------
  // Tile bounds

  /** The bounding box of the visible tiles, in unwrapped columns and rows. */
  datatype TileBounds = TileBounds(minX: int, minY: int, maxX: int, maxY: int)

  /** The bounds of an empty tile set. */
  const NoBounds := TileBounds(-1, -1, -1, -1)

  /** A column left of the threshold is moved one world to the right. */
  function UnwrappedX(x: int, wrapsBelow: int, sideLength: nat): int
  {
    if x < wrapsBelow then x + sideLength else x
  }

  predicate Within(b: TileBounds, x: int, y: int)
  {
    b.minX <= x <= b.maxX && b.minY <= y <= b.maxY
  }

  /** Tile `i` takes part in the bounds: the first tile in iteration order
      always does, whatever its zoom level; every later one only at `zoom`. */
  predicate Contributes(tiles: seq<TileSpec>, zoom: int, i: int)
    requires 0 <= i < |tiles|
  {
    i == 0 || tiles[i].zoom == zoom
  }

  /** The bounds scan over `tiles` in iteration order: seeded with the
      first tile, widened by each later tile at the current zoom level. */
  function ScanBounds(tiles: seq<TileSpec>, zoom: int, sideLength: nat, wrapsBelow: int): TileBounds
    requires tiles != []
    decreases |tiles|
  {
    var n := |tiles|;
    var t := tiles[n - 1];
    var x := UnwrappedX(t.x, wrapsBelow, sideLength);
    if n == 1 then TileBounds(x, t.y, x, t.y)
    else
      var b := ScanBounds(tiles[..n - 1], zoom, sideLength, wrapsBelow);
      if t.zoom != zoom then b
      else TileBounds(Min(b.minX, x), Min(b.minY, t.y), Max(b.maxX, x), Max(b.maxY, t.y))
  }

  /** The scan yields the tightest box around the contributing tiles: each
      of them lies inside it, with its unwrapped column, and each side is
      reached by one of them. */
  lemma {:induction false} ScanBoundsTight(tiles: seq<TileSpec>, zoom: int, sideLength: nat, wrapsBelow: int)
    requires tiles != []
    ensures var b := ScanBounds(tiles, zoom, sideLength, wrapsBelow);
      && (forall i :: 0 <= i < |tiles| && Contributes(tiles, zoom, i) ==>
            Within(b, UnwrappedX(tiles[i].x, wrapsBelow, sideLength), tiles[i].y))
      && (exists i :: 0 <= i < |tiles| && Contributes(tiles, zoom, i) && UnwrappedX(tiles[i].x, wrapsBelow, sideLength) == b.minX)
      && (exists i :: 0 <= i < |tiles| && Contributes(tiles, zoom, i) && UnwrappedX(tiles[i].x, wrapsBelow, sideLength) == b.maxX)
      && (exists i :: 0 <= i < |tiles| && Contributes(tiles, zoom, i) && tiles[i].y == b.minY)
      && (exists i :: 0 <= i < |tiles| && Contributes(tiles, zoom, i) && tiles[i].y == b.maxY)
    decreases |tiles|
  {
    var n := |tiles|;
    if n == 1 {
      assert Contributes(tiles, zoom, 0);
    } else {
      var init := tiles[..n - 1];
      ScanBoundsTight(init, zoom, sideLength, wrapsBelow);
      assert forall i :: 0 <= i < n - 1 ==> init[i] == tiles[i];
      assert forall i :: 0 <= i < n - 1 ==> (Contributes(init, zoom, i) <==> Contributes(tiles, zoom, i));
    }
  }

  /** Scanning one more tile: a tile at another zoom level leaves the
      bounds alone, a tile at the current zoom widens them to include it. */
  lemma ScanBoundsStep(tiles: seq<TileSpec>, i: int, zoom: int, sideLength: nat, wrapsBelow: int)
    requires 1 <= i < |tiles|
    ensures var b := ScanBounds(tiles[..i], zoom, sideLength, wrapsBelow);
      var x := UnwrappedX(tiles[i].x, wrapsBelow, sideLength);
      ScanBounds(tiles[..i + 1], zoom, sideLength, wrapsBelow) ==
        if tiles[i].zoom != zoom then b
        else TileBounds(Min(b.minX, x), Min(b.minY, tiles[i].y), Max(b.maxX, x), Max(b.maxY, tiles[i].y))
  {
    assert tiles[..i + 1][..i] == tiles[..i];
  }

  function Min(a: int, b: int): int { if a <= b then a else b }
  function Max(a: int, b: int): int { if a <= b then b else a }

  /** The bounds the scene records for a tile set: the empty set gives
      NoBounds, any other the scan. */
  function BoundsOf(tiles: seq<TileSpec>, zoom: int, sideLength: nat, wrapsBelow: int): TileBounds
  {
    if tiles == [] then NoBounds else ScanBounds(tiles, zoom, sideLength, wrapsBelow)
  }

  /** A tile set with non-negative rows never yields the NoBounds sentinel, so
      NoBounds marks exactly the empty set. */
  lemma BoundsSentinelOnlyWhenEmpty(tiles: seq<TileSpec>, zoom: int, sideLength: nat, wrapsBelow: int)
    requires forall i :: 0 <= i < |tiles| ==> tiles[i].y >= 0
    ensures BoundsOf(tiles, zoom, sideLength, wrapsBelow) == NoBounds <==> tiles == []
  {
    if tiles != [] {
      var b := ScanBounds(tiles, zoom, sideLength, wrapsBelow);
      ScanBoundsTight(tiles, zoom, sideLength, wrapsBelow);
      var i :| 0 <= i < |tiles| && Contributes(tiles, zoom, i) && tiles[i].y == b.minY;
    }
  }

  /** The first tile seeds the bounds even when it is not at the current
      zoom level: here a zoom-2 tile widens the bounds of a single zoom-3
      tile from one cell to a 4 x 4 box. */
  lemma FirstTileIsNotZoomFiltered()
    ensures ScanBounds([TileSpec(3, 0, 0)], 3, 8, 0) == TileBounds(0, 0, 0, 0)
    ensures ScanBounds([TileSpec(2, 3, 3), TileSpec(3, 0, 0)], 3, 8, 0) == TileBounds(0, 0, 3, 3)
    ensures ScanBounds([TileSpec(3, 0, 0), TileSpec(2, 3, 3)], 3, 8, 0) == TileBounds(0, 0, 0, 0)
  {
  }

  // ---------------------------------------------------------------------
  // Tile geometry

  /** What the geometry builder reads of the scene. */
  datatype Grid = Grid(intZoomLevel: int, sideLength: nat, tileXWrapsBelow: int, bounds: TileBounds, tileSize: int)

  /** A rectangle in scene units, top < bottom when the edge is positive. */
  datatype Quad = Quad(left: real, top: real, right: real, bottom: real)

  /** The side of one tile in scene units. */
  function Edge(g: Grid): real
  {
    ScaleFactor * g.tileSize as real
  }

  /** The quad of tile `spec`, or None when the tile is culled: its
      unwrapped column or its row lies outside the bounds, or it is at
      another zoom level. Columns run right from the minimum column, rows
      run downwards (south) from the minimum row, so a row's quad lies one
      edge below the one before it. */
  function BuildGeometry(g: Grid, spec: TileSpec): (q: Option<Quad>)
    ensures q.Some? <==>
      Within(g.bounds, UnwrappedX(spec.x, g.tileXWrapsBelow, g.sideLength), spec.y) && spec.zoom == g.intZoomLevel
  {
    var x := UnwrappedX(spec.x, g.tileXWrapsBelow, g.sideLength);
    if x < g.bounds.minX || g.bounds.maxX < x || spec.y < g.bounds.minY || g.bounds.maxY < spec.y
       || spec.zoom != g.intZoomLevel
    then None
    else
      var edge := Edge(g);
      var x1 := (x - g.bounds.minX) as real;
      var y1 := (g.bounds.minY - spec.y) as real;
      Some(Quad(x1 * edge, (y1 - 1.0) * edge, (x1 + 1.0) * edge, y1 * edge))
  }

  /** Every accepted quad is one tile edge square and lies inside the box
      spanned by the bounds, anchored at the minimum corner. */
  lemma QuadInsideBounds(g: Grid, spec: TileSpec)
    requires g.tileSize >= 0 && BuildGeometry(g, spec).Some?
    ensures var q := BuildGeometry(g, spec).value;
      && q.right - q.left == Edge(g) && q.bottom - q.top == Edge(g)
      && 0.0 <= q.left && q.right <= (g.bounds.maxX - g.bounds.minX + 1) as real * Edge(g)
      && -(g.bounds.maxY - g.bounds.minY + 1) as real * Edge(g) <= q.top && q.bottom <= 0.0
  {
    var q := BuildGeometry(g, spec).value;
    var x := UnwrappedX(spec.x, g.tileXWrapsBelow, g.sideLength);
    var e := Edge(g);
    assert e >= 0.0;
    MulMonotone((x - g.bounds.minX + 1) as real, (g.bounds.maxX - g.bounds.minX + 1) as real, e);
    MulMonotone((g.bounds.minY - g.bounds.maxY - 1) as real, (g.bounds.minY - spec.y - 1) as real, e);
    MulMonotone(0.0, (x - g.bounds.minX) as real, e);
    MulMonotone((g.bounds.minY - spec.y) as real, 0.0, e);
  }

  lemma MulMonotone(a: real, b: real, e: real)
    requires a <= b && e >= 0.0
    ensures a * e <= b * e
  {
  }

  /** Neighbouring tiles meet without gap or overlap: a tile one unwrapped
      column to the right starts where the other ends, and a tile one row
      further south has its bottom where the other has its top. */
  lemma NeighboursShareEdges(g: Grid, a: TileSpec, b: TileSpec)
    requires BuildGeometry(g, a).Some? && BuildGeometry(g, b).Some?
    ensures UnwrappedX(b.x, g.tileXWrapsBelow, g.sideLength) == UnwrappedX(a.x, g.tileXWrapsBelow, g.sideLength) + 1
            ==> BuildGeometry(g, b).value.left == BuildGeometry(g, a).value.right
    ensures b.y == a.y + 1 ==> BuildGeometry(g, b).value.bottom == BuildGeometry(g, a).value.top
  {
  }

  /** With the bounds of an empty set every tile of the grid is culled. */
  lemma NoBoundsCullsEverything(g: Grid, spec: TileSpec)
    requires g.bounds == NoBounds && spec.y >= 0
    ensures BuildGeometry(g, spec) == None
  {
  }

  /** After the bounds have been computed from a tile set, every tile of that
      set at the current zoom level gets a quad. */
  lemma ScannedTilesAreBuilt(tiles: seq<TileSpec>, g: Grid, i: int)
    requires 0 <= i < |tiles| && tiles[i].zoom == g.intZoomLevel
    requires g.bounds == ScanBounds(tiles, g.intZoomLevel, g.sideLength, g.tileXWrapsBelow)
    ensures BuildGeometry(g, tiles[i]).Some?
  {
    ScanBoundsTight(tiles, g.intZoomLevel, g.sideLength, g.tileXWrapsBelow);
    assert Contributes(tiles, g.intZoomLevel, i);
  }

  /** The 2 x 2 block of zoom-3 tiles around the antimeridian (columns 0 and
      7, rows 3 and 4): column 4 is missing, so the threshold is 4, column 0
      becomes column 8, the bounds are columns 7..8, and the quad of column 7
      ends exactly where the quad of column 0 begins. */
  lemma AntimeridianBlock(tileSize: int)
    ensures var tiles := [TileSpec(3, 0, 3), TileSpec(3, 0, 4), TileSpec(3, 7, 3), TileSpec(3, 7, 4)];
      var thr := WrapThreshold(tiles, 3, 8);
      var g := Grid(3, 8, thr, ScanBounds(tiles, 3, 8, thr), tileSize);
      && thr == 4
      && g.bounds == TileBounds(7, 3, 8, 4)
      && BuildGeometry(g, TileSpec(3, 7, 3)).Some?
      && BuildGeometry(g, TileSpec(3, 0, 3)).Some?
      && BuildGeometry(g, TileSpec(3, 7, 3)).value.right == BuildGeometry(g, TileSpec(3, 0, 3)).value.left
  {
    var tiles := [TileSpec(3, 0, 3), TileSpec(3, 0, 4), TileSpec(3, 7, 3), TileSpec(3, 7, 4)];
    WrapThresholdByColumns(tiles, 3, 8);
    assert tiles[..1] == [tiles[0]];
    ScanBoundsStep(tiles, 1, 3, 8, 4);
    ScanBoundsStep(tiles, 2, 3, 8, 4);
    ScanBoundsStep(tiles, 3, 3, 8, 4);
    assert tiles[..4] == tiles;
    assert HasX(tiles, 3, 0) by { assert tiles[0].x == 0; }
    assert HasX(tiles, 3, 7) by { assert tiles[2].x == 7; }
    assert !HasX(tiles, 3, 4);
  }
}
