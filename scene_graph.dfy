/** The retained scene graph of the tiled map: a root node that owns the
    GPU textures of the visible tiles and three containers of image nodes,
    one for the main copy of the map and one for each copy wrapped one world
    to the left and to the right. Each update diffs them against the scene's
    visible-tile set and texture cache. Nodes and textures are plain records;
    the camera matrix and the viewport test are abstracted as a predicate
    `inViewport(quad, camAdjust)`. */
module SceneGraph {
  import opened Wrappers
  import opened TileGrid
  import opened Scene

  datatype Filtering = NoFiltering | Nearest | Linear

  /** A GPU texture, created from a tile image. */
  datatype GpuTexture = GpuTexture(image: Image)

  function TextureWidth(t: GpuTexture): int
  {
    if t.image.Pixels? then t.image.width else 0
  }

  /** An image node: its texture, its destination rectangle and its
      (mipmap) filtering. */
  datatype ImageNode = ImageNode(texture: GpuTexture, rect: Quad, filtering: Filtering, mipmapFiltering: Filtering)

  /** The filtering a node is given: a texture wider than a tile always gets
      linear filtering and linear mipmapping; otherwise filtering follows the
      scene's linear-scaling flag and the mipmap filtering is left as is. */
  function Filtered(n: ImageNode, tileSize: int, linearScaling: bool): (r: ImageNode)
  {
    if TextureWidth(n.texture) > tileSize then n.(filtering := Linear, mipmapFiltering := Linear)
    else n.(filtering := if linearScaling then Linear else Nearest)
  }

  /** Filtering only changes filtering, and nearest filtering is chosen
      exactly for a texture no wider than a tile when the zoom is close to
      an integer level; otherwise it is linear. */
  lemma FilteringChoice(n: ImageNode, tileSize: int, linearScaling: bool)
    ensures var r := Filtered(n, tileSize, linearScaling);
      && r.texture == n.texture && r.rect == n.rect
      && (r.filtering == Nearest <==> !linearScaling && TextureWidth(n.texture) <= tileSize)
      && (r.filtering == Linear <==> linearScaling || TextureWidth(n.texture) > tileSize)
      && (TextureWidth(n.texture) > tileSize ==> r.mipmapFiltering == Linear)
  {
  }

  /** One instance draws tile `spec`: it gets a quad and the quad, seen
      through this instance's camera, meets the viewport. */
  predicate Shown(g: Grid, spec: TileSpec, camAdjust: real, inViewport: (Quad, real) -> bool)
  {
    BuildGeometry(g, spec).Some? && inViewport(BuildGeometry(g, spec).value, camAdjust)
  }

  /** An existing node that survives an update: it takes its rebuilt quad
      and, when the scene's filtering flag changed, new filtering. */
  function KeptNode(n: ImageNode, q: Quad, tileSize: int, linearScaling: bool, refilter: bool): ImageNode
  {
    var m := n.(rect := q);
    if refilter then Filtered(m, tileSize, linearScaling) else m
  }

  /** A node created for a newly visible tile: nearest filtering and no
      mipmapping until its filtering is chosen. */
  function NewNode(t: GpuTexture, q: Quad, tileSize: int, linearScaling: bool): ImageNode
  {
    Filtered(ImageNode(t, q, Nearest, NoFiltering), tileSize, linearScaling)
  }

  /** Every visible tile with a usable cached image has a GPU texture. */
  predicate TexturesReady(gpu: map<TileSpec, GpuTexture>, visible: set<TileSpec>, cache: map<TileSpec, Option<TileTexture>>)
  {
    forall s :: s in visible && CachedImage(cache, s).Some? ==> s in gpu
  }

  /** The GPU textures after an update: textures of tiles that are no longer
      visible are released, and every visible tile without one gets a texture
      from its cached image, if it has one. */
  function SyncedTextures(gpu: map<TileSpec, GpuTexture>, visible: set<TileSpec>, cache: map<TileSpec, Option<TileTexture>>)
    : (r: map<TileSpec, GpuTexture>)
    ensures r.Keys <= visible
    ensures TexturesReady(r, visible, cache)
    ensures forall s :: s in r && s !in gpu ==> CachedImage(cache, s).Some? && r[s] == GpuTexture(CachedImage(cache, s).value)
    ensures forall s :: s in gpu && s in visible ==> s in r && r[s] == gpu[s]
  {
    map s | s in visible && (s in gpu || CachedImage(cache, s).Some?) ::
      if s in gpu then gpu[s] else GpuTexture(CachedImage(cache, s).value)
  }

  /** The first pass of an update: the nodes of tiles that are still visible. */
  function WithoutHidden(nodes: map<TileSpec, ImageNode>, visible: set<TileSpec>): map<TileSpec, ImageNode>
  {
    map s | s in nodes && s in visible :: nodes[s]
  }

  /** The second pass: every node gets its rebuilt quad (and new filtering
      when `refilter` holds), and the nodes that are culled are dropped. */
  function Rebuilt(nodes: map<TileSpec, ImageNode>, g: Grid, linearScaling: bool, refilter: bool,
                   camAdjust: real, inViewport: (Quad, real) -> bool): map<TileSpec, ImageNode>
  {
    map s | s in nodes && Shown(g, s, camAdjust, inViewport) ::
      KeptNode(nodes[s], BuildGeometry(g, s).value, g.tileSize, linearScaling, refilter)
  }

  /** The third pass: a node for every tile of `toAdd` with a usable cached
      image that is not culled. */
  function Added(toAdd: set<TileSpec>, cache: map<TileSpec, Option<TileTexture>>, gpu: map<TileSpec, GpuTexture>,
                 g: Grid, linearScaling: bool, camAdjust: real, inViewport: (Quad, real) -> bool): map<TileSpec, ImageNode>
    requires forall s :: s in toAdd && CachedImage(cache, s).Some? ==> s in gpu
  {
    map s | s in toAdd && CachedImage(cache, s).Some? && Shown(g, s, camAdjust, inViewport) ::
      NewNode(gpu[s], BuildGeometry(g, s).value, g.tileSize, linearScaling)
  }

  /** The nodes of one instance after an update: a node survives when its
      tile is still visible and still shown (with its quad rebuilt), and a
      visible tile without a node gets one when it has a cached image and is
      shown. */
  function UpdatedNodes(nodes: map<TileSpec, ImageNode>, visible: set<TileSpec>,
                        cache: map<TileSpec, Option<TileTexture>>, gpu: map<TileSpec, GpuTexture>,
                        g: Grid, linearScaling: bool, refilter: bool,
                        camAdjust: real, inViewport: (Quad, real) -> bool): (r: map<TileSpec, ImageNode>)
    requires TexturesReady(gpu, visible, cache)
  {
    map s | s in visible && Shown(g, s, camAdjust, inViewport) && (s in nodes || CachedImage(cache, s).Some?) ::
      if s in nodes then KeptNode(nodes[s], BuildGeometry(g, s).value, g.tileSize, linearScaling, refilter)
      else NewNode(gpu[s], BuildGeometry(g, s).value, g.tileSize, linearScaling)
  }

  /** What an instance draws after an update: only visible tiles, each at
      the quad its tile builds to and inside the viewport; a new node only
      for a tile with a usable cached image, carrying that tile's GPU
      texture; a kept node keeps its texture; no node of a visible, shown
      tile is lost; every visible, shown tile with a usable cached image
      and no node gets one; a kept node keeps its filtering unless the
      linear-scaling flag changed; and a new or refiltered node gets nearest
      filtering exactly when the zoom is near an integer level and its
      texture is no wider than a tile, and linear mipmapping when the
      texture is wider. */
  lemma UpdatedNodesSound(nodes: map<TileSpec, ImageNode>, visible: set<TileSpec>,
                          cache: map<TileSpec, Option<TileTexture>>, gpu: map<TileSpec, GpuTexture>,
                          g: Grid, linearScaling: bool, refilter: bool,
                          camAdjust: real, inViewport: (Quad, real) -> bool)
    requires TexturesReady(gpu, visible, cache)
    ensures var r := UpdatedNodes(nodes, visible, cache, gpu, g, linearScaling, refilter, camAdjust, inViewport);
      && r.Keys <= visible
      && (forall s :: s in r ==>
            BuildGeometry(g, s).Some? && r[s].rect == BuildGeometry(g, s).value && inViewport(r[s].rect, camAdjust))
      && (forall s :: s in r && s !in nodes ==> CachedImage(cache, s).Some? && r[s].texture == gpu[s])
      && (forall s :: s in r && s in nodes ==> r[s].texture == nodes[s].texture)
      && (forall s :: s in nodes && s in visible && Shown(g, s, camAdjust, inViewport) ==> s in r)
      && (forall s :: s in visible && s !in nodes && CachedImage(cache, s).Some? && Shown(g, s, camAdjust, inViewport) ==>
            s in r && r[s].texture == gpu[s])
      && (forall s :: s in r && s in nodes && !refilter ==>
            r[s].filtering == nodes[s].filtering && r[s].mipmapFiltering == nodes[s].mipmapFiltering)
      && (forall s :: s in r && (s !in nodes || refilter) ==>
            (r[s].filtering == Nearest <==> !linearScaling && TextureWidth(r[s].texture) <= g.tileSize)
            && (TextureWidth(r[s].texture) > g.tileSize ==> r[s].mipmapFiltering == Linear))
  {
    var r := UpdatedNodes(nodes, visible, cache, gpu, g, linearScaling, refilter, camAdjust, inViewport);
    forall s | s in r
      ensures r[s].rect == BuildGeometry(g, s).value
      ensures s !in nodes || refilter ==>
        (r[s].filtering == Nearest <==> !linearScaling && TextureWidth(r[s].texture) <= g.tileSize)
        && (TextureWidth(r[s].texture) > g.tileSize ==> r[s].mipmapFiltering == Linear)
    {
      if s in nodes {
        FilteringChoice(nodes[s].(rect := BuildGeometry(g, s).value), g.tileSize, linearScaling);
      } else {
        FilteringChoice(ImageNode(gpu[s], BuildGeometry(g, s).value, Nearest, NoFiltering), g.tileSize, linearScaling);
      }
    }
  }

  /** After a hard reset the cache is empty, so an update starting from no
      nodes and no GPU textures creates none. */
  lemma HardResetLeavesNothing(visible: set<TileSpec>, g: Grid, linearScaling: bool, refilter: bool,
                               camAdjust: real, inViewport: (Quad, real) -> bool)
    ensures SyncedTextures(map[], visible, map[]) == map[]
    ensures UpdatedNodes(map[], visible, map[], map[], g, linearScaling, refilter, camAdjust, inViewport) == map[]
  {
  }

  /** The width of the whole world in scene units: the offset of the two
      wrapped copies of the map. */
  function WorldWidth(g: Grid): real
  {
    Edge(g) * g.sideLength as real
  }

  /** The image nodes of one copy of the map, by tile. */
  class TileContainer {
    var tiles: map<TileSpec, ImageNode>

    constructor ()
      ensures tiles == map[]
    {
      tiles := map[];
    }

    method AddChild(spec: TileSpec, node: ImageNode)
      modifies this
      ensures tiles == old(tiles)[spec := node]
    {
      tiles := tiles[spec := node];
    }

    /** Deletes the nodes of tiles that are no longer visible. */
    method RemoveHidden(visible: set<TileSpec>)
      modifies this
      ensures tiles == WithoutHidden(old(tiles), visible)
    {
      var toRemove := tiles.Keys - visible;
      while toRemove != {}
        invariant toRemove <= old(tiles).Keys - visible
        invariant tiles == old(tiles) - ((old(tiles).Keys - visible) - toRemove)
        decreases toRemove
      {
        var s :| s in toRemove;
        tiles := tiles - {s};
        toRemove := toRemove - {s};
      }
      assert tiles == WithoutHidden(old(tiles), visible);
    }

    /** Rebuilds the quad of every node, deleting the nodes that are culled
        and refiltering the others when `refilter` holds. */
    method RebuildKept(g: Grid, linearScaling: bool, refilter: bool, camAdjust: real, inViewport: (Quad, real) -> bool)
      modifies this
      ensures tiles == Rebuilt(old(tiles), g, linearScaling, refilter, camAdjust, inViewport)
    {
      var pending := tiles.Keys;
      while pending != {}
        invariant pending <= old(tiles).Keys
        invariant forall s :: s in tiles <==>
          s in pending || (s in old(tiles) && Shown(g, s, camAdjust, inViewport))
        invariant forall s :: s in tiles ==> (tiles[s] ==
          if s in pending then old(tiles)[s]
          else KeptNode(old(tiles)[s], BuildGeometry(g, s).value, g.tileSize, linearScaling, refilter))
        decreases pending
      {
        var s :| s in pending;
        var node := tiles[s];
        var quad := BuildGeometry(g, s);
        if quad.Some? && inViewport(quad.value, camAdjust) {
          node := node.(rect := quad.value);
          if refilter {
            node := Filtered(node, g.tileSize, linearScaling);
          }
          tiles := tiles[s := node];
        } else {
          tiles := tiles - {s};
        }
        pending := pending - {s};
      }
      assert tiles == Rebuilt(old(tiles), g, linearScaling, refilter, camAdjust, inViewport);
    }

    /** Creates a node for every tile of `toAdd` that has a usable cached
        image and is not culled. */
    method AddNew(toAdd: set<TileSpec>, cache: map<TileSpec, Option<TileTexture>>, gpu: map<TileSpec, GpuTexture>,
                  g: Grid, linearScaling: bool, camAdjust: real, inViewport: (Quad, real) -> bool)
      requires forall s :: s in toAdd && CachedImage(cache, s).Some? ==> s in gpu
      modifies this
      ensures tiles == old(tiles) + Added(toAdd, cache, gpu, g, linearScaling, camAdjust, inViewport)
    {
      var pending := toAdd;
      while pending != {}
        invariant pending <= toAdd
        invariant forall s :: s in tiles <==>
          s in old(tiles) || (s in toAdd - pending && CachedImage(cache, s).Some? && Shown(g, s, camAdjust, inViewport))
        invariant forall s :: s in tiles ==> (tiles[s] ==
          if s in toAdd - pending && CachedImage(cache, s).Some? && Shown(g, s, camAdjust, inViewport)
          then NewNode(gpu[s], BuildGeometry(g, s).value, g.tileSize, linearScaling)
          else old(tiles)[s])
        decreases pending
      {
        var s :| s in pending;
        var image := CachedImage(cache, s);
        if image.Some? {
          var node := ImageNode(gpu[s], Quad(0.0, 0.0, 0.0, 0.0), Nearest, NoFiltering);
          var quad := BuildGeometry(g, s);
          if quad.Some? && inViewport(quad.value, camAdjust) {
            node := Filtered(node.(rect := quad.value), g.tileSize, linearScaling);
            AddChild(s, node);
          }
        }
        pending := pending - {s};
      }
      assert tiles == old(tiles) + Added(toAdd, cache, gpu, g, linearScaling, camAdjust, inViewport);
    }

    /** Deletes every node. */
    method RemoveAll()
      modifies this
      ensures tiles == map[]
    {
      while tiles != map[]
        decreases |tiles|
      {
        var s :| s in tiles;
        tiles := tiles - {s};
      }
    }
  }

  class RootNode {
    var isTextureLinear: bool
    const tiles: TileContainer       // the main copy
    const wrapLeft: TileContainer    // the copy one world to the left
    const wrapRight: TileContainer   // the copy one world to the right
    var textures: map<TileSpec, GpuTexture>

    /** The three copies are distinct containers. */
    ghost predicate Valid()
    {
      tiles != wrapLeft && tiles != wrapRight && wrapLeft != wrapRight
    }

    constructor ()
      ensures Valid() && fresh(tiles) && fresh(wrapLeft) && fresh(wrapRight)
      ensures tiles.tiles == map[] && wrapLeft.tiles == map[] && wrapRight.tiles == map[]
      ensures textures == map[] && !isTextureLinear
    {
      isTextureLinear := false;
      tiles := new TileContainer();
      wrapLeft := new TileContainer();
      wrapRight := new TileContainer();
      textures := map[];
    }

    /** The hard reset: every node of every copy and every GPU texture is
        released. */
    method DropAll()
      requires Valid()
      modifies this`textures, tiles, wrapLeft, wrapRight
      ensures tiles.tiles == map[] && wrapLeft.tiles == map[] && wrapRight.tiles == map[]
      ensures textures == map[]
    {
      tiles.RemoveAll();
      wrapLeft.RemoveAll();
      wrapRight.RemoveAll();
      while textures != map[]
        invariant tiles.tiles == map[] && wrapLeft.tiles == map[] && wrapRight.tiles == map[]
        decreases |textures|
      {
        var s :| s in textures;
        textures := textures - {s};
      }
    }

    /** Brings the GPU textures in line with the scene: release those of
        tiles no longer visible, create those of newly visible tiles whose
        cached image is usable. */
    method SyncTextures(d: TiledMapScene)
      modifies this`textures
      ensures textures == SyncedTextures(old(textures), d.visibleTiles, d.textures)
    {
      var visible := d.visibleTiles;
      var toRemove := textures.Keys - visible;
      var toAdd := visible - textures.Keys;

      while toRemove != {}
        invariant toRemove <= old(textures).Keys - visible
        invariant textures == old(textures) - ((old(textures).Keys - visible) - toRemove)
        decreases toRemove
      {
        var s :| s in toRemove;
        textures := textures - {s};
        toRemove := toRemove - {s};
      }
      assert textures.Keys == old(textures).Keys * visible;

      ghost var pending0 := toAdd;
      while toAdd != {}
        invariant toAdd <= pending0
        invariant forall s :: s in textures <==>
          (s in old(textures) && s in visible) || (s in pending0 - toAdd && CachedImage(d.textures, s).Some?)
        invariant forall s :: s in textures ==>
          textures[s] == if s in old(textures) then old(textures)[s] else GpuTexture(CachedImage(d.textures, s).value)
        decreases toAdd
      {
        var s :| s in toAdd;
        var image := CachedImage(d.textures, s);
        if image.Some? {
          textures := textures[s := GpuTexture(image.value)];
        }
        toAdd := toAdd - {s};
      }
      assert textures == SyncedTextures(old(textures), visible, d.textures);
    }

    /** Everything an update does once the root exists and a pending hard
        reset is done: sync the GPU textures, update the three copies with
        the camera at 0, +1 and -1 world widths, and remember the filtering
        flag drawn with. */
    method Refresh(d: TiledMapScene, inViewport: (Quad, real) -> bool)
      requires Valid()
      modifies this`textures, this`isTextureLinear, tiles, wrapLeft, wrapRight
      ensures textures == SyncedTextures(old(textures), d.visibleTiles, d.textures)
      ensures isTextureLinear == d.linearScaling
      ensures tiles.tiles == UpdatedNodes(old(tiles.tiles), d.visibleTiles, d.textures, textures, d.GridView(),
                                          d.linearScaling, old(isTextureLinear) != d.linearScaling, 0.0, inViewport)
      ensures wrapLeft.tiles == UpdatedNodes(old(wrapLeft.tiles), d.visibleTiles, d.textures, textures, d.GridView(),
                                             d.linearScaling, old(isTextureLinear) != d.linearScaling, WorldWidth(d.GridView()), inViewport)
      ensures wrapRight.tiles == UpdatedNodes(old(wrapRight.tiles), d.visibleTiles, d.textures, textures, d.GridView(),
                                              d.linearScaling, old(isTextureLinear) != d.linearScaling, -WorldWidth(d.GridView()), inViewport)
    {
      SyncTextures(d);
      var worldWidth := WorldWidth(d.GridView());
      UpdateTiles(tiles, d, 0.0, inViewport);
      UpdateTiles(wrapLeft, d, worldWidth, inViewport);
      UpdateTiles(wrapRight, d, -worldWidth, inViewport);
      isTextureLinear := d.linearScaling;
    }

    /** Updates one copy of the map, drawn with the camera moved by
        `camAdjust`: nodes of tiles no longer visible are deleted, the other
        nodes get their quad rebuilt and are deleted when culled (and are
        refiltered when the filtering flag changed), and newly visible tiles
        with a usable cached image get a node unless culled. */
    method UpdateTiles(root: TileContainer, d: TiledMapScene, camAdjust: real, inViewport: (Quad, real) -> bool)
      requires TexturesReady(textures, d.visibleTiles, d.textures)
      modifies root
      ensures root.tiles == UpdatedNodes(old(root.tiles), d.visibleTiles, d.textures, textures, d.GridView(),
                                         d.linearScaling, isTextureLinear != d.linearScaling, camAdjust, inViewport)
    {
      var visible := d.visibleTiles;
      var g := d.GridView();
      var refilter := isTextureLinear != d.linearScaling;
      var toAdd := visible - root.tiles.Keys;
      root.RemoveHidden(visible);
      root.RebuildKept(g, d.linearScaling, refilter, camAdjust, inViewport);
      root.AddNew(toAdd, d.textures, textures, g, d.linearScaling, camAdjust, inViewport);
      UpdateInThreePasses(old(root.tiles), visible, d.textures, textures, g, d.linearScaling, refilter, camAdjust, inViewport);
    }
  }

  /** The three passes of an update (delete hidden nodes, rebuild the kept
      ones, add the new ones) together compute `UpdatedNodes`. */
  lemma UpdateInThreePasses(nodes: map<TileSpec, ImageNode>, visible: set<TileSpec>,
                            cache: map<TileSpec, Option<TileTexture>>, gpu: map<TileSpec, GpuTexture>,
                            g: Grid, linearScaling: bool, refilter: bool,
                            camAdjust: real, inViewport: (Quad, real) -> bool)
    requires TexturesReady(gpu, visible, cache)
    ensures Rebuilt(WithoutHidden(nodes, visible), g, linearScaling, refilter, camAdjust, inViewport)
          + Added(visible - nodes.Keys, cache, gpu, g, linearScaling, camAdjust, inViewport)
         == UpdatedNodes(nodes, visible, cache, gpu, g, linearScaling, refilter, camAdjust, inViewport)
  {
    var kept := WithoutHidden(nodes, visible);
    var rebuilt := Rebuilt(kept, g, linearScaling, refilter, camAdjust, inViewport);
    var added := Added(visible - nodes.Keys, cache, gpu, g, linearScaling, camAdjust, inViewport);
    var r := UpdatedNodes(nodes, visible, cache, gpu, g, linearScaling, refilter, camAdjust, inViewport);
    forall s
      ensures s in rebuilt + added <==> s in r
    {
      if s in nodes {
        assert s in kept <==> s in visible;
        assert s !in added;
      } else {
        assert s !in kept && s !in rebuilt;
      }
    }
    forall s | s in r
      ensures (rebuilt + added)[s] == r[s]
    {
      if s in nodes {
        assert s in kept && kept[s] == nodes[s];
        assert s in rebuilt && s !in added;
      } else {
        assert s in added;
      }
    }
  }

  /** The nodes a container holds before an update, after the hard reset
      if one is pending. */
  ghost function NodesBefore(c: TileContainer?, drop: bool): map<TileSpec, ImageNode>
    reads c
  {
    if c == null || drop then map[] else c.tiles
  }

  ghost function TexturesBefore(root: RootNode?, drop: bool): map<TileSpec, GpuTexture>
    reads root
  {
    if root == null || drop then map[] else root.textures
  }

  /** One scene-graph update. With a non-positive screen dimension there is
      nothing to draw and no root node. Otherwise the root is reused (or
      made), a pending hard reset releases every node and GPU texture and is
      cleared, the GPU textures follow the visible set and the cache, the
      three copies of the map are updated with the camera at 0, +1 and -1
      world widths, and the root remembers the filtering flag it drew with. */
  method UpdateSceneGraph(d: TiledMapScene, oldNode: RootNode?, inViewport: (Quad, real) -> bool)
    returns (node: RootNode?)
    requires oldNode != null ==> oldNode.Valid()
    modifies d`dropTextures
    modifies if oldNode == null then {} else {oldNode, oldNode.tiles, oldNode.wrapLeft, oldNode.wrapRight}
    ensures d.screenWidth <= 0 || d.screenHeight <= 0 ==> node == null && d.dropTextures == old(d.dropTextures)
    ensures (d.screenWidth <= 0 || d.screenHeight <= 0) && oldNode != null ==>
      unchanged(oldNode, oldNode.tiles, oldNode.wrapLeft, oldNode.wrapRight)
    ensures d.screenWidth > 0 && d.screenHeight > 0 ==>
      && node != null && node.Valid() && !d.dropTextures
      && (oldNode != null ==> node == oldNode)
      && (oldNode == null ==> fresh(node) && fresh(node.tiles) && fresh(node.wrapLeft) && fresh(node.wrapRight))
      && node.isTextureLinear == d.linearScaling
      && node.textures == SyncedTextures(old(TexturesBefore(oldNode, d.dropTextures)), d.visibleTiles, d.textures)
      && var refilter := (oldNode != null && old(oldNode.isTextureLinear)) != d.linearScaling;
      && node.tiles.tiles == UpdatedNodes(old(NodesBefore(if oldNode == null then null else oldNode.tiles, d.dropTextures)),
           d.visibleTiles, d.textures, node.textures, d.GridView(), d.linearScaling, refilter, 0.0, inViewport)
      && node.wrapLeft.tiles == UpdatedNodes(old(NodesBefore(if oldNode == null then null else oldNode.wrapLeft, d.dropTextures)),
           d.visibleTiles, d.textures, node.textures, d.GridView(), d.linearScaling, refilter, WorldWidth(d.GridView()), inViewport)
      && node.wrapRight.tiles == UpdatedNodes(old(NodesBefore(if oldNode == null then null else oldNode.wrapRight, d.dropTextures)),
           d.visibleTiles, d.textures, node.textures, d.GridView(), d.linearScaling, refilter, -WorldWidth(d.GridView()), inViewport)
  {
    if d.screenWidth <= 0 || d.screenHeight <= 0 {
      return null;
    }
    var mapRoot := oldNode;
    if mapRoot == null {
      mapRoot := new RootNode();
    }
    if d.dropTextures {
      mapRoot.DropAll();
      d.dropTextures := false;
    }
    mapRoot.Refresh(d, inViewport);
    node := mapRoot;
  }
}
