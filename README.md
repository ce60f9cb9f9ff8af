# Tiled map scene bookkeeping, in Dafny

This project models the bookkeeping core of Qt Location's tiled map scene,
`QGeoTiledMapScene`, which draws a slippy map from square tiles, and
proves properties of that model.

The scene tracks several things:

- the camera's zoom level, from which it derives the integer zoom level, the
  number of tiles per side of the grid (`2^zoom`) and whether textures need
  linear filtering;
- the set of visible tiles;
- the bounding box of that set, in tile columns and rows;
- the column below which tiles are "wrapped" one world to the right, when
  the visible set straddles the antimeridian;
- a cache of loaded tile textures.

For each visible tile it builds a quad in scene units. Once per frame it
brings a retained scene graph in line with that state. The graph holds one
GPU texture for each visible tile whose cached image is not null, and three copies of the map's image nodes: the
main copy and the copies one world to the left and one world to the right.

The model has four modules:

- `Projection` (`projection.dfy`) covers wrapping and unwrapping of
  normalised Mercator x around the camera centre, and the affine maps
  between wrapped map space and item (screen) pixels. All of it is over
  `real`. The claims are about exact arithmetic, not IEEE doubles.
- `TileGrid` (`tile_grid.dfy`) holds the pure integer part of the scene:
  - tile ids;
  - the antimeridian column scan and the wrap threshold;
  - the bounds scan;
  - the quad builder.
- `Scene` (`scene.dfy`) is the scene's mutable state as a class,
  `TiledMapScene`. It has the setters, the visible-set update and its cache
  eviction, the bounds computation, and the texture cache operations.
  Its invariant is that the cache only holds visible tiles.
- `SceneGraph` (`scene_graph.dfy`) models the scene-graph update. It has a
  root node with its GPU-texture map and three tile containers, the
  per-container diff, and the update of the whole graph. Nodes and textures
  are plain records. Whether a quad is in the viewport is a predicate the
  caller supplies.

The tile set the scene receives is a hash set, so its iteration order is
unspecified. The model takes it as a sequence in an arbitrary order. Only
one result depends on that order: the first tile seeds the bounds even
when it is at another zoom level (`TileGrid.FirstTileIsNotZoomFiltered`).

Notes on what the code does at points where a reader might expect
otherwise:

- **Threshold.** The code looks for the gap at the mid-right column
  (`sideLength/2`) first. If that column is missing, the threshold is
  `sideLength/2`. Only when the mid-right column is present and the
  mid-left column is missing is it `sideLength/2 - 1`.
- **Column scan.** The scan is an else-if chain, so an edge column is never
  also a mid column. At zoom 1 with both columns present, the threshold is
  therefore 1.
- **First tile.** The first tile of the iteration seeds the bounds without
  the zoom filter.
- **Initial side length.** Before the first camera data arrives the side
  length is 0, not `2^0`.
- **Initial screen size.** The screen size starts out as -1 x -1, the
  default of the source's size type.

## Model

| member | source | states |
|---|---|---|
| `Projection.Wrap` | src/location/maps/qgeotiledmapscene.cpp:295-307 | y is unchanged; x moves by -1, 0 or +1; a camera centre of exactly 0.5 never wraps |
| `Projection.Unwrap` | src/location/maps/qgeotiledmapscene.cpp:309-317 | y is unchanged; any x in (-1, 2] folds into (0, 1]; points of (0, 1] are unchanged |
| `Projection.WrappedToItemPosition` | src/location/maps/qgeotiledmapscene.cpp:319-325 | the map-to-item conversion: the offset from the camera centre, scaled by the stored reciprocal camera size, shifted by half the item and scaled by the screen size; `CenterAtItemMiddle` and the two inverse lemmas state what it promises |
| `Projection.ItemPositionToWrapped` | src/location/maps/qgeotiledmapscene.cpp:327-343 | the item-to-map conversion, which divides by the screen size and so needs a non-zero screen; `ItemPositionInvertsWrapped` and `WrappedInvertsItemPosition` show it inverts the forward conversion |
| `Projection.MercatorToItemPosition` | src/location/maps/qgeotiledmapscene.cpp:279-282 | wrap around the camera, then convert to item pixels; `MercatorRoundTrip` is its partner |
| `Projection.ItemPositionToMercator` | src/location/maps/qgeotiledmapscene.cpp:273-276 | convert item pixels to map space, then unwrap; `MercatorRoundTrip` shows it undoes `MercatorToItemPosition` on the world (0, 1] |
| `Projection.WrapNearCenter` | src/location/maps/qgeotiledmapscene.cpp:295-307 | a point of the world, seen from a centre in the world, wraps to within half a world of that centre |
| `Projection.UnwrapWrap` | src/location/maps/qgeotiledmapscene.cpp:295-317 | unwrapping undoes wrapping for every x in (0, 1], whatever the centre |
| `Projection.UnwrapSeam` | src/location/maps/qgeotiledmapscene.cpp:295-317 | the seam x = 0 wraps and unwraps to x = 1 |
| `Projection.CenterAtItemMiddle` | src/location/maps/qgeotiledmapscene.cpp:319-325 | the camera centre maps to the middle of the item |
| `Projection.ItemPositionInvertsWrapped` | src/location/maps/qgeotiledmapscene.cpp:319-343 | on a non-empty screen, with camera widths whose reciprocals are exact, the item-to-map conversion inverts the map-to-item conversion |
| `Projection.WrappedInvertsItemPosition` | src/location/maps/qgeotiledmapscene.cpp:319-343 | under the same conditions, the map-to-item conversion inverts the item-to-map conversion |
| `Projection.MercatorRoundTrip` | src/location/maps/qgeotiledmapscene.cpp:271-282 | drawing a Mercator point with x in (0, 1] and reading it back (wrap, project, unproject, unwrap) gives the same point |
| `Projection.CameraFrameOf` | src/location/maps/qgeotiledmapscene.cpp:511-514 | the camera frame keeps the centre, and its stored inverse width and height are true reciprocals |
| `TileGrid.Pow2` | src/location/maps/qgeotiledmapscene.cpp:153 | the side length `1 << n` is at least 1, even from zoom 1 up, and at least 4 from zoom 2 up (the grids `WrapThresholdByColumns` covers) |
| `TileGrid.ColumnOf` | src/location/maps/qgeotiledmapscene.cpp:440-448 | the else-if classification of a column as far-left (0), far-right (side-1), mid-left (side/2-1), mid-right (side/2) or none, in that order; `HasColumnIsHasX` and `WrapThresholdTwoColumns` state its consequences |
| `TileGrid.WrapThreshold` | src/location/maps/qgeotiledmapscene.cpp:451-461 | the wrap threshold in the code's branch order; `WrapThresholdByColumns`, `WrapThresholdTwoColumns` and `WrapThresholdOneColumn` state it per grid size |
| `TileGrid.UnwrappedX` | src/location/maps/qgeotiledmapscene.cpp:349-350 | a column below the threshold moves one world (sideLength) to the right, the same rule as lines 468-470 and 484-486 |
| `TileGrid.WrapThresholdByColumns` | src/location/maps/qgeotiledmapscene.cpp:436-461 | on grids of 4 or more columns: the threshold is side/2 if columns 0 and side-1 are present and column side/2 is missing; side/2 - 1 if those edges and column side/2 are present and side/2 - 1 is missing; 0 otherwise |
| `TileGrid.WrapThresholdTwoColumns` | src/location/maps/qgeotiledmapscene.cpp:436-461 | at zoom 1 the threshold is 1 exactly when both columns are present, because an edge column is never counted as a mid column |
| `TileGrid.WrapThresholdOneColumn` | src/location/maps/qgeotiledmapscene.cpp:436-461 | at zoom 0 no crossing is ever detected |
| `TileGrid.HasColumnIsHasX` | src/location/maps/qgeotiledmapscene.cpp:436-449 | when a column kind names exactly one column, the scan records that kind iff a tile at the current zoom sits in that column |
| `TileGrid.ScanBoundsTight` | src/location/maps/qgeotiledmapscene.cpp:463-492 | every contributing tile (the first tile, and later tiles at the current zoom) lies inside the bounds, using its unwrapped x, and each of the four bounds is attained by a contributing tile |
| `TileGrid.ScanBounds` | src/location/maps/qgeotiledmapscene.cpp:463-492 | the bounds scan in iteration order, seeded by the first tile and widened by later tiles at the current zoom; `ScanBoundsTight` proves it is the tightest box around the contributing tiles |
| `TileGrid.BoundsOf` | src/location/maps/qgeotiledmapscene.cpp:415-492 | the bounds the scene records: the -1 sentinel for the empty set and the scan otherwise; `BoundsSentinelOnlyWhenEmpty` proves the sentinel arises only from the empty set |
| `TileGrid.BoundsSentinelOnlyWhenEmpty` | src/location/maps/qgeotiledmapscene.cpp:415-423 | for tiles with non-negative rows, the -1 sentinel bounds arise exactly from the empty set |
| `TileGrid.FirstTileIsNotZoomFiltered` | src/location/maps/qgeotiledmapscene.cpp:466-482 | a first tile at another zoom seeds the bounds; the same tile placed later is ignored |
| `TileGrid.BuildGeometry` | src/location/maps/qgeotiledmapscene.cpp:345-378 | a quad is produced iff the unwrapped column and the row lie inside the bounds and the tile is at the current zoom level |
| `TileGrid.QuadInsideBounds` | src/location/maps/qgeotiledmapscene.cpp:360-373 | an accepted quad is one edge (scale factor x tile size) square and lies in the box the bounds span, anchored at the minimum corner |
| `TileGrid.NeighboursShareEdges` | src/location/maps/qgeotiledmapscene.cpp:360-373 | a tile one unwrapped column to the right starts where its neighbour ends; a tile one row south has its bottom at its neighbour's top |
| `TileGrid.NoBoundsCullsEverything` | src/location/maps/qgeotiledmapscene.cpp:349-358 | with the sentinel bounds every tile with non-negative y is culled |
| `TileGrid.ScannedTilesAreBuilt` | src/location/maps/qgeotiledmapscene.cpp:345-358 | once the bounds are computed from a tile set, every tile of it at the current zoom gets a quad |
| `TileGrid.AntimeridianBlock` | src/location/maps/qgeotiledmapscene.cpp:436-492 | a zoom-3 block in columns 0 and 7 gets threshold 4 and bounds columns 7..8, and the quad of column 7 ends where the quad of column 0 begins |
| `Scene.CachedImage` | src/location/maps/qgeotiledmapscene.cpp:710-712 | the definition of a usable cached image: an entry exists, holds a texture, and that texture's image is not null (also lines 773-774); it promises nothing of its own, and the promises that use it are those of `SceneGraph.SyncedTextures` and `SceneGraph.UpdatedNodesSound` |
| `Scene.NeedsLinearScaling` | src/location/maps/qgeotiledmapscene.cpp:151-152 | the linear-filtering test: the zoom is more than 0.05 above its floor; `LinearScalingExamples` and `IntegralZoomIsNearest` are its partners |
| `Scene.LinearScalingExamples` | src/location/maps/qgeotiledmapscene.cpp:150-152 | zoom 4.0 keeps nearest filtering; zoom 4.5 asks for linear filtering |
| `Scene.IntegralZoomIsNearest` | src/location/maps/qgeotiledmapscene.cpp:150-152 | an integral zoom level never asks for linear filtering |
| `Scene.TiledMapScene.constructor` | src/location/maps/qgeotiledmapscene.cpp:246-266 | a fresh scene has no tiles, no cache entries, sentinel bounds, side length 0 and both flags false |
| `Scene.TiledMapScene.SetScreenSize` | src/location/maps/qgeotiledmapscene.cpp:134-138 | stores the screen size |
| `Scene.TiledMapScene.SetTileSize` | src/location/maps/qgeotiledmapscene.cpp:140-144 | stores the tile size |
| `Scene.TiledMapScene.SetCameraData` | src/location/maps/qgeotiledmapscene.cpp:146-155 | the integer zoom is the floor of the zoom, the side length is 2^intZoom, and the linear flag is set iff the fraction exceeds 0.05; bounds, visible set and cache are untouched |
| `Scene.TiledMapScene.SetVisibleTiles` | src/location/maps/qgeotiledmapscene.cpp:388-401 | the visible set becomes the new set; exactly the entries of tiles that stopped being visible are evicted; the bounds and the threshold are those of the new set; the cache stays within the visible set |
| `Scene.TiledMapScene.SetupCamera` | src/location/maps/qgeotiledmapscene.cpp:495-587 | only the camera frame changes |
| `Scene.TiledMapScene.RemoveTiles` | src/location/maps/qgeotiledmapscene.cpp:403-413 | the cache loses exactly the given tiles |
| `Scene.TiledMapScene.SetTileBounds` | src/location/maps/qgeotiledmapscene.cpp:415-493 | the empty set gives the sentinel bounds and keeps the threshold; any other set gets the wrap threshold and the scanned bounds |
| `Scene.ScanColumns` | src/location/maps/qgeotiledmapscene.cpp:425-449 | each flag is set iff a tile at the current zoom falls in that column kind of the else-if chain |
| `Scene.ScanTileBounds` | src/location/maps/qgeotiledmapscene.cpp:463-492 | the loop computes the scanned bounds of the sequence |
| `Scene.TiledMapScene.AddTile` | src/location/maps/qgeotiledmapscene.cpp:380-386 | a tile that is not visible leaves the cache untouched; a visible one gets the texture, replacing any earlier one; the cache stays within the visible set |
| `Scene.TiledMapScene.TexturedTiles` | src/location/maps/qgeotiledmapscene.cpp:229-237 | returns exactly the cached tiles, all of which are visible |
| `Scene.TiledMapScene.ClearTexturedTiles` | src/location/maps/qgeotiledmapscene.cpp:239-244 | empties the cache and raises the drop flag |
| `SceneGraph.FilteringChoice` | src/location/maps/qgeotiledmapscene.cpp:695-723 | filtering is nearest iff the scene is not scaling and the texture is no wider than a tile, and linear otherwise; a wider texture also gets linear mipmapping; texture and rect are untouched |
| `SceneGraph.Filtered` | src/location/maps/qgeotiledmapscene.cpp:695-701 | the filtering choice for a node, the same at lines 718-723; `FilteringChoice` states it as iff conditions |
| `SceneGraph.KeptNode` | src/location/maps/qgeotiledmapscene.cpp:684-706 | a surviving node takes its rebuilt quad and is refiltered only when the flag changed; `UpdatedNodesSound` states that it sits at its quad and keeps its texture |
| `SceneGraph.NewNode` | src/location/maps/qgeotiledmapscene.cpp:710-724 | a new node gets the tile's GPU texture and its quad, filtered from nearest with no mipmapping; `UpdatedNodesSound` states that it carries that texture |
| `SceneGraph.UpdatedNodes` | src/location/maps/qgeotiledmapscene.cpp:663-729 | the nodes of one copy after an update; `UpdatedNodesSound` states what they are in both directions, and `UpdateInThreePasses` ties it to the three passes |
| `SceneGraph.SyncedTextures` | src/location/maps/qgeotiledmapscene.cpp:767-777 | GPU textures exist only for visible tiles; every visible tile with a usable cached image has one; a new one is made from that image; the textures of tiles still visible are kept |
| `SceneGraph.UpdatedNodesSound` | src/location/maps/qgeotiledmapscene.cpp:677-729 | after a container update: every node is of a visible tile, sits at its tile's quad and passes the viewport test; a new node exists only for a tile with a usable cached image and carries that tile's GPU texture; a kept node keeps its texture; no visible, shown node is lost; every visible, shown tile with a usable cached image and no node gets a new node with its GPU texture; a kept node keeps its filtering and mipmap filtering unless the linear-scaling flag changed (lines 695-703); and a new or refiltered node gets nearest filtering exactly when the flag is off and its texture is no wider than a tile, and linear mipmapping whenever its texture is wider (lines 696-701, 718-723) |
| `SceneGraph.HardResetLeavesNothing` | src/location/maps/qgeotiledmapscene.cpp:754-764 | after a hard reset with an emptied cache, an update creates no GPU texture and no node |
| `SceneGraph.UpdateInThreePasses` | src/location/maps/qgeotiledmapscene.cpp:677-729 | deleting hidden nodes, rebuilding the kept ones and adding the new ones computes the specified container update |
| `SceneGraph.TileContainer.RemoveHidden` | src/location/maps/qgeotiledmapscene.cpp:677-682 | deletes exactly the nodes of tiles that are no longer visible |
| `SceneGraph.TileContainer.RebuildKept` | src/location/maps/qgeotiledmapscene.cpp:684-708 | each node either gets its rebuilt quad (and new filtering when the flag changed) or is deleted when culled |
| `SceneGraph.TileContainer.AddNew` | src/location/maps/qgeotiledmapscene.cpp:710-728 | adds a filtered node for each new tile with a usable cached image that is not culled |
| `SceneGraph.TileContainer.AddChild` | src/location/maps/qgeotiledmapscene.cpp:592-596 | the node is stored under its tile, replacing nothing else |
| `SceneGraph.TileContainer.RemoveAll` | src/location/maps/qgeotiledmapscene.cpp:755-760 | deletes every node of the container |
| `SceneGraph.RootNode.constructor` | src/location/maps/qgeotiledmapscene.cpp:603-617 | a new root has three distinct, empty containers, no textures and nearest filtering |
| `SceneGraph.RootNode.DropAll` | src/location/maps/qgeotiledmapscene.cpp:754-764 | the hard reset empties all three containers and the GPU-texture map |
| `SceneGraph.RootNode.SyncTextures` | src/location/maps/qgeotiledmapscene.cpp:766-777 | the GPU-texture map becomes the synced map for the visible set and the cache |
| `SceneGraph.RootNode.UpdateTiles` | src/location/maps/qgeotiledmapscene.cpp:663-729 | the container becomes the specified update of its old nodes, refiltering iff the scene's linear flag differs from the one last drawn with |
| `SceneGraph.RootNode.Refresh` | src/location/maps/qgeotiledmapscene.cpp:766-784 | the GPU textures become the synced map; each copy becomes the specified update of its old nodes with its camera offset; the root records the linear flag |
| `SceneGraph.UpdateSceneGraph` | src/location/maps/qgeotiledmapscene.cpp:731-787 | a non-positive screen dimension gives no node; otherwise the root is reused or made; a pending hard reset is done and cleared; the textures are synced; the three copies are updated with camera offsets 0 and plus and minus one world width; the root records the linear flag |

## Left out

- Camera set-up (`setupCamera`): the source derives the camera from `std::pow`, Web-Mercator conversions, 3D vector products and a frustum matrix, all floating-point geometry. The model keeps only its result, the camera frame (centre, width and height in Mercator units and their reciprocals), which `SetVisibleTiles` takes as a parameter. `Projection.CameraFrameOf` states the part of it that the screen maps rely on.
- `geoToMapProjection`/`mapProjectionToGeo`: these are wrappers over the Web-Mercator conversion, whose source is not part of this model.
- `m_mapEdgeSize` and its public accessor `mapEdgeSize()`: a `pow`-based float, read by the camera set-up and returned by the accessor.
- The viewport test (`qgeotiledmapscene_isTileInViewport`) and the look-at and projection matrices: float matrix maths. The model takes the test as a predicate over a quad and the camera's x offset.
- Scene-graph and GPU calls (`createImageNode`, `createTextureFromImage`, deletion, `markDirty`, texture-coordinate transforms and source rects, the clip rect and the item-space matrix): nodes and textures are records, and only their contents and filtering are modelled. A new image node's default mipmap filtering is taken as none.
- The `m_screenWidth`/`m_screenHeight` copies: they feed only the clip rect.
- The commented-out tilt, bearing and roll code in the camera set-up.
- The place-manager tests and the mapping-manager header: the tests exercise an unrelated asynchronous service, and the header holds declarations only.
- Floating point: all screen and quad arithmetic is over `real`, so rounding is not modelled. The zoom fraction in `SetCameraData` is compared exactly rather than as a `float`.
- Integer width: tile coordinates, bounds and the side length are unbounded. `Scene.TiledMapScene.SetCameraData` requires a zoom level in [0, 31), which keeps `1 << intZoomLevel` within a 32-bit int.
- `Projection.ItemPositionInvertsWrapped` and `Projection.WrappedInvertsItemPosition`: they assume the stored reciprocals are exact. Before the first camera set-up the source leaves them uninitialised, and the model starts them at 0.
- `Projection.ItemPositionToWrapped` and `Projection.ItemPositionToMercator`: they require a non-zero screen width and height. The source divides by the integer screen size regardless, which for a zero size gives an infinity or NaN in double arithmetic; real division has no such value.
- `Projection.CameraFrameOf`: it requires a non-zero map edge size and a non-zero screen width and height. The source divides unconditionally at lines 511-514, and `setupCamera` runs from `setVisibleTiles` whatever the screen size. While the tile size is 0 the map edge size is 0, and a zero-size screen is expected (the scene-graph update checks for it). In those cases the source stores an infinite or NaN camera size or reciprocal. Real arithmetic cannot represent that degenerate frame, so the model has no frame for these inputs.
- Hash iteration order: tile sets are arbitrary-order sequences. Nothing is claimed about order except that the first tile seeds the bounds.
- The source deletes the old root node when the screen has no area. The model returns no node and leaves the old one as it was.
