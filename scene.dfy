/** The mutable state of a tiled map scene: screen and tile size, camera
    data and what is derived from it, the visible tile set, the bounds of that
    set and the texture cache of loaded tiles. */
module Scene {
  import opened Wrappers
  import opened TileGrid
  import opened Projection

  /** A decoded tile image; only whether it is null and its width matter here. */
  datatype Image = NullImage | Pixels(id: nat, width: nat)

  /** A loaded tile: the tile it belongs to and its decoded image. */
  datatype TileTexture = TileTexture(spec: TileSpec, image: Image)

  /** Camera centre (latitude, longitude in degrees) and fractional zoom level. */
  datatype CameraData = CameraData(latitude: real, longitude: real, zoomLevel: real)

  /** The image a cache lookup yields for `spec`: none when there is no
      entry, when the entry holds no texture, or when the texture's
      image is null. */
  function CachedImage(textures: map<TileSpec, Option<TileTexture>>, spec: TileSpec): Option<Image>
  {
    if spec in textures && textures[spec].Some? && textures[spec].value.image != NullImage
    then Some(textures[spec].value.image)
    else None
  }

  /** Texture filtering is linear when the zoom is more than 0.05 above the
      integer zoom level (over reals; the source takes the difference as a
      float). */
  predicate NeedsLinearScaling(zoomLevel: real)
  {
    zoomLevel - zoomLevel.Floor as real > 0.05
  }

  /** Zoom exactly 4.0 keeps nearest filtering, zoom 4.5 switches to linear. */
  lemma LinearScalingExamples()
    ensures !NeedsLinearScaling(4.0) && NeedsLinearScaling(4.5)
  {
    assert (4.5).Floor == 4;
  }

  /** An integral zoom level never asks for linear filtering. */
  lemma IntegralZoomIsNearest(z: int)
    ensures !NeedsLinearScaling(z as real)
  {
  }

  class TiledMapScene {
    var screenWidth: int     // pixels
    var screenHeight: int
    var tileSize: int        // pixel resolution of one tile
    var cameraData: CameraData
    var visibleTiles: set<TileSpec>

    /** Rounded-down zoom level and the number of tiles per grid side. */
    var intZoomLevel: int
    var sideLength: nat

    /** Loaded tile textures; a value may be a null texture. */
    var textures: map<TileSpec, Option<TileTexture>>

    var minTileX: int
    var minTileY: int
    var maxTileX: int
    var maxTileY: int
    var tileXWrapsBelow: int

    /** What the camera set-up derives, in Mercator units. */
    var camera: CameraFrame

    var linearScaling: bool
    var dropTextures: bool

    /** The cache only holds textures of visible tiles. */
    ghost predicate Valid()
      reads this
    {
      textures.Keys <= visibleTiles
    }

    function Bounds(): TileBounds
      reads this
    {
      TileBounds(minTileX, minTileY, maxTileX, maxTileY)
    }

    /** The part of the state the geometry builder reads. */
    function GridView(): Grid
      reads this
    {
      Grid(intZoomLevel, sideLength, tileXWrapsBelow, Bounds(), tileSize)
    }

    /** A fresh scene: no tiles, no textures, sentinel bounds, a side length
        of 0 until the first camera data arrives, and an invalid (-1 x -1)
        screen size. */
    constructor ()
      ensures Valid()
      ensures screenWidth == -1 && screenHeight == -1 && tileSize == 0
      ensures intZoomLevel == 0 && sideLength == 0
      ensures visibleTiles == {} && textures == map[]
      ensures Bounds() == NoBounds && tileXWrapsBelow == 0
      ensures !linearScaling && !dropTextures
    {
      screenWidth, screenHeight := -1, -1;
      tileSize := 0;
      cameraData := CameraData(0.0, 0.0, 0.0);
      visibleTiles := {};
      intZoomLevel, sideLength := 0, 0;
      textures := map[];
      minTileX, minTileY, maxTileX, maxTileY := -1, -1, -1, -1;
      tileXWrapsBelow := 0;
      camera := CameraFrame(0.0, 0.0, 0.0, 0.0, 0.0, 0.0);
      linearScaling, dropTextures := false, false;
    }

    method SetScreenSize(width: int, height: int)
      modifies this`screenWidth, this`screenHeight
      ensures screenWidth == width && screenHeight == height
    {
      screenWidth, screenHeight := width, height;
    }

    method SetTileSize(size: int)
      modifies this`tileSize
      ensures tileSize == size
    {
      tileSize := size;
    }

    /** Takes new camera data and derives the integer zoom level (the floor
        of the zoom), the grid side length 2^intZoomLevel and the filtering
        flag. Nothing else changes: the bounds, the visible set and the cache
        are only recomputed with the next visible-tile set. The zoom must be
        below 31 for the shift to fit a 32-bit int. */
    method SetCameraData(data: CameraData)
      requires 0.0 <= data.zoomLevel < 31.0
      modifies this`cameraData, this`intZoomLevel, this`linearScaling, this`sideLength
      ensures cameraData == data
      ensures intZoomLevel as real <= data.zoomLevel < intZoomLevel as real + 1.0
      ensures 0 <= intZoomLevel <= 30 && sideLength == Pow2(intZoomLevel)
      ensures linearScaling == NeedsLinearScaling(data.zoomLevel)
    {
      cameraData := data;
      intZoomLevel := data.zoomLevel.Floor;
      linearScaling := data.zoomLevel - intZoomLevel as real > 0.05;
      sideLength := Pow2(intZoomLevel);
    }

    /** Takes a new visible-tile set, listed in its iteration order: the
        bounds are recomputed for it, the camera is set up again (its result,
        `frame`, is computed outside this model), the cache drops the
        textures of tiles that are no longer visible, and the set is stored. */
    method SetVisibleTiles(tiles: seq<TileSpec>, frame: CameraFrame)
      requires Valid()
      modifies this`minTileX, this`minTileY, this`maxTileX, this`maxTileY, this`tileXWrapsBelow
      modifies this`camera, this`textures, this`visibleTiles
      ensures Valid()
      ensures visibleTiles == set t | t in tiles
      ensures textures == old(textures) - (old(visibleTiles) - visibleTiles)
      ensures Bounds() == BoundsOf(tiles, intZoomLevel, sideLength, tileXWrapsBelow)
      ensures tiles != [] ==> tileXWrapsBelow == WrapThreshold(tiles, intZoomLevel, sideLength)
      ensures tiles == [] ==> tileXWrapsBelow == old(tileXWrapsBelow)
      ensures camera == frame
    {
      SetTileBounds(tiles);
      SetupCamera(frame);
      var newSet := set t | t in tiles;
      var toRemove := visibleTiles - newSet;
      if toRemove != {} {
        RemoveTiles(toRemove);
      }
      assert textures.Keys <= newSet by {
        forall t | t in textures ensures t in newSet {
          assert t in old(textures) && t !in toRemove;
        }
      }
      visibleTiles := newSet;
    }

    /** The camera set-up: floating-point geometry outside this model, of
        which only the resulting frame is kept. */
    method SetupCamera(frame: CameraFrame)
      modifies this`camera
      ensures camera == frame
    {
      camera := frame;
    }

    /** Drops the cache entries of the given tiles, one at a time. */
    method RemoveTiles(oldTiles: set<TileSpec>)
      modifies this`textures
      ensures textures == old(textures) - oldTiles
    {
      var todo := oldTiles;
      while todo != {}
        invariant todo <= oldTiles
        invariant textures == old(textures) - (oldTiles - todo)
        decreases todo
      {
        var tile :| tile in todo;
        textures := textures - {tile};
        todo := todo - {tile};
      }
    }

    /** Recomputes the tile bounds. For an empty set they become the
        sentinel and the threshold is kept. Otherwise a first pass records
        which of the four telling columns hold a tile at the current zoom and
        fixes the threshold; a second pass seeds the bounds with the first
        tile and widens them with every later tile at the current zoom. */
    method SetTileBounds(tiles: seq<TileSpec>)
      modifies this`minTileX, this`minTileY, this`maxTileX, this`maxTileY, this`tileXWrapsBelow
      ensures Bounds() == BoundsOf(tiles, intZoomLevel, sideLength, tileXWrapsBelow)
      ensures tiles != [] ==> tileXWrapsBelow == WrapThreshold(tiles, intZoomLevel, sideLength)
      ensures tiles == [] ==> tileXWrapsBelow == old(tileXWrapsBelow)
    {
      if tiles == [] {
        minTileX, minTileY, maxTileX, maxTileY := -1, -1, -1, -1;
        return;
      }

      var zoom, side := intZoomLevel, sideLength;
      var hasFarLeft, hasFarRight, hasMidLeft, hasMidRight := ScanColumns(tiles, zoom, side);

      var wrapsBelow := 0;
      if hasFarLeft && hasFarRight {
        if !hasMidRight {
          wrapsBelow := side / 2;
        } else if !hasMidLeft {
          wrapsBelow := side / 2 - 1;
        }
      }
      tileXWrapsBelow := wrapsBelow;

      var b := ScanTileBounds(tiles, zoom, side, wrapsBelow);
      minTileX, minTileY, maxTileX, maxTileY := b.minX, b.minY, b.maxX, b.maxY;
    }

    /** Stores a loaded texture, but only for a tile that is visible; an
        earlier texture of the same tile is replaced. */
    method AddTile(spec: TileSpec, texture: Option<TileTexture>)
      requires Valid()
      modifies this`textures
      ensures Valid()
      ensures spec !in visibleTiles ==> textures == old(textures)
      ensures spec in visibleTiles ==> textures == old(textures)[spec := texture]
    {
      if spec !in visibleTiles {
        return;
      }
      textures := textures[spec := texture];
    }

    /** The tiles that have a cache entry, which are all visible. */
    method TexturedTiles() returns (textured: set<TileSpec>)
      requires Valid()
      ensures textured == textures.Keys
      ensures textured <= visibleTiles
    {
      textured := {};
      var keys := textures.Keys;
      while keys != {}
        invariant keys <= textures.Keys
        invariant textured == textures.Keys - keys
        decreases keys
      {
        var tile :| tile in keys;
        textured := textured + {tile};
        keys := keys - {tile};
      }
    }

    /** Empties the cache and asks the next scene-graph update to release
        every node and GPU texture. */
    method ClearTexturedTiles()
      requires Valid()
      modifies this`textures, this`dropTextures
      ensures Valid()
      ensures textures == map[] && dropTextures
    {
      textures := map[];
      dropTextures := true;
    }
  }

  /** The first pass of the bounds computation: which of the far-left,
      far-right, mid-left and mid-right columns hold a tile at `zoom`. */
  method ScanColumns(tiles: seq<TileSpec>, zoom: int, side: nat)
    returns (hasFarLeft: bool, hasFarRight: bool, hasMidLeft: bool, hasMidRight: bool)
    ensures hasFarLeft == HasColumn(tiles, zoom, side, FarLeft)
    ensures hasFarRight == HasColumn(tiles, zoom, side, FarRight)
    ensures hasMidLeft == HasColumn(tiles, zoom, side, MidLeft)
    ensures hasMidRight == HasColumn(tiles, zoom, side, MidRight)
  {
    hasFarLeft, hasFarRight, hasMidLeft, hasMidRight := false, false, false, false;
    var i := 0;
    while i < |tiles|
      invariant 0 <= i <= |tiles|
      invariant hasFarLeft == HasColumn(tiles[..i], zoom, side, FarLeft)
      invariant hasFarRight == HasColumn(tiles[..i], zoom, side, FarRight)
      invariant hasMidLeft == HasColumn(tiles[..i], zoom, side, MidLeft)
      invariant hasMidRight == HasColumn(tiles[..i], zoom, side, MidRight)
    {
      ColumnSeenStep(tiles, i, zoom, side);
      if tiles[i].zoom == zoom {
        var x := tiles[i].x;
        if x == 0 {
          hasFarLeft := true;
        } else if x == side as int - 1 {
          hasFarRight := true;
        } else if x == side as int / 2 - 1 {
          hasMidLeft := true;
        } else if x == side / 2 {
          hasMidRight := true;
        }
      }
      i := i + 1;
    }
    assert tiles[..|tiles|] == tiles;
  }

  /** The second pass: seed the bounds with the first tile, whatever its
      zoom level, then widen them with every later tile at `zoom`. */
  method ScanTileBounds(tiles: seq<TileSpec>, zoom: int, side: nat, wrapsBelow: int) returns (b: TileBounds)
    requires tiles != []
    ensures b == ScanBounds(tiles, zoom, side, wrapsBelow)
  {
    var tile := tiles[0];
    var x := tile.x;
    if tile.x < wrapsBelow {
      x := x + side;
    }
    b := TileBounds(x, tile.y, x, tile.y);
    assert x == UnwrappedX(tile.x, wrapsBelow, side);
    assert tiles[..1] == [tile];

    var i := 1;
    while i < |tiles|
      invariant 1 <= i <= |tiles|
      invariant b == ScanBounds(tiles[..i], zoom, side, wrapsBelow)
    {
      ScanBoundsStep(tiles, i, zoom, side, wrapsBelow);
      tile := tiles[i];
      if tile.zoom == zoom {
        x := tile.x;
        if tile.x < wrapsBelow {
          x := x + side;
        }
        assert x == UnwrappedX(tile.x, wrapsBelow, side);
        b := TileBounds(Min(b.minX, x), Min(b.minY, tile.y), Max(b.maxX, x), Max(b.maxY, tile.y));
      }
      i := i + 1;
    }
    assert tiles[..|tiles|] == tiles;
  }

  /** One step of the column scan: looking at tile `i` adds exactly what
      that tile shows, if it is at the current zoom. */
  lemma ColumnSeenStep(tiles: seq<TileSpec>, i: int, zoom: int, sideLength: nat)
    requires 0 <= i < |tiles|
    ensures forall c :: HasColumn(tiles[..i + 1], zoom, sideLength, c) <==>
      HasColumn(tiles[..i], zoom, sideLength, c) || (tiles[i].zoom == zoom && ColumnOf(tiles[i].x, sideLength) == c)
  {
    var prefix, next := tiles[..i], tiles[..i + 1];
    forall c
      ensures HasColumn(next, zoom, sideLength, c) <==>
        HasColumn(prefix, zoom, sideLength, c) || (tiles[i].zoom == zoom && ColumnOf(tiles[i].x, sideLength) == c)
    {
      if HasColumn(next, zoom, sideLength, c) {
        var j :| 0 <= j < |next| && next[j].zoom == zoom && ColumnOf(next[j].x, sideLength) == c;
        if j < i {
          assert prefix[j] == next[j];
        }
      }
      if HasColumn(prefix, zoom, sideLength, c) {
        var j :| 0 <= j < |prefix| && prefix[j].zoom == zoom && ColumnOf(prefix[j].x, sideLength) == c;
        assert next[j] == prefix[j];
      }
      assert next[i] == tiles[i];
    }
  }
}
