/**
 * The per-chunk mesh builder (`__generate_chunk_data`): it samples heights
 * on a (W+2) x (W+2) grid that extends one tile past every edge of the chunk,
 * emits a top quad for each of the W*W tiles, and a wall quad on each side
 * whose neighbour is strictly lower.  Colours are not modelled; a vertex only
 * records whether it carries the top colour or the darkened wall colour.
 */
module ChunkMesh {
  import opened SeqUtil
  import opened ChunkGrid

  /** The terrain height of a world tile: a pure, deterministic function. */
  type HeightField = (int, int) -> real

  /** Which colour a vertex carries: the height colour, or that colour darkened for walls. */
  datatype Shade = TopShade | WallShade

  datatype Vertex = Vertex(x: int, y: real, z: int, shade: Shade)

  /** The four sides in the order the builder checks them. */
  datatype Side = North | South | East | West

  const Sides: seq<Side> := [North, South, East, West]

  /** The grid offset (di, dj) of the neighbour across a side. */
  function Offset(s: Side): (int, int) {
    match s
    case North => (0, 1)
    case South => (0, -1)
    case East => (1, 0)
    case West => (-1, 0)
  }

  /** The side's top edge, as two corners in tile-local coordinates. */
  function EdgeEnds(s: Side): ((int, int), (int, int)) {
    match s
    case North => ((0, 1), (1, 1))
    case South => ((0, 0), (1, 0))
    case East => ((1, 0), (1, 1))
    case West => ((0, 0), (0, 1))
  }

  function Opposite(s: Side): Side {
    match s
    case North => South
    case South => North
    case East => West
    case West => East
  }

  function Neighbor(t: Coord, s: Side): Coord {
    (t.0 + Offset(s).0, t.1 + Offset(s).1)
  }

  /** Two triangles p1 p2 p3 and p1 p3 p4 covering the tile's top at height y. */
  function TopQuad(x: int, z: int, y: real): seq<Vertex> {
    var p1 := Vertex(x, y, z, TopShade);
    var p2 := Vertex(x + 1, y, z, TopShade);
    var p3 := Vertex(x + 1, y, z + 1, TopShade);
    var p4 := Vertex(x, y, z + 1, TopShade);
    [p1, p2, p3, p1, p3, p4]
  }

  /** The vertical quad on side s, from the tile's height `top` down to `bottom`. */
  function WallQuad(x: int, z: int, top: real, bottom: real, s: Side): seq<Vertex> {
    var ((lx0, lz0), (lx1, lz1)) := EdgeEnds(s);
    var topStart := Vertex(x + lx0, top, z + lz0, WallShade);
    var topEnd := Vertex(x + lx1, top, z + lz1, WallShade);
    var bottomStart := Vertex(x + lx0, bottom, z + lz0, WallShade);
    var bottomEnd := Vertex(x + lx1, bottom, z + lz1, WallShade);
    [topStart, bottomStart, bottomEnd, topStart, bottomEnd, topEnd]
  }

  /** The sides among `sides`, in order, whose neighbour is strictly lower than tile t. */
  function LowerSides(h: HeightField, t: Coord, sides: seq<Side>): seq<Side> {
    if sides == [] then []
    else
      var s := sides[|sides| - 1];
      var n := Neighbor(t, s);
      LowerSides(h, t, sides[..|sides| - 1]) + (if h(t.0, t.1) > h(n.0, n.1) then [s] else [])
  }

  /** The wall quads that tile t emits while checking `sides` in order. */
  function Walls(h: HeightField, t: Coord, sides: seq<Side>): seq<Vertex> {
    if sides == [] then []
    else
      var s := sides[|sides| - 1];
      var n := Neighbor(t, s);
      Walls(h, t, sides[..|sides| - 1])
        + (if h(t.0, t.1) > h(n.0, n.1) then WallQuad(t.0, t.1, h(t.0, t.1), h(n.0, n.1), s) else [])
  }

  /** Everything one world tile contributes: its top quad, then its walls. */
  function TileMesh(h: HeightField, t: Coord): seq<Vertex> {
    TopQuad(t.0, t.1, h(t.0, t.1)) + Walls(h, t, Sides)
  }

  /** Tiles (x, z0), ..., (x, z0 + m - 1), the inner loop of the builder. */
  function TileRow(h: HeightField, x: int, z0: int, m: nat): seq<Vertex> {
    if m == 0 then [] else TileRow(h, x, z0, m - 1) + TileMesh(h, (x, z0 + m - 1))
  }

  /** Rows x0, ..., x0 + n - 1 of w tiles each, the outer loop of the builder. */
  function TileRows(h: HeightField, x0: int, z0: int, n: nat, w: nat): seq<Vertex> {
    if n == 0 then [] else TileRows(h, x0, z0, n - 1, w) + TileRow(h, x0 + n - 1, z0, w)
  }

  /** The vertex list generated for chunk c of width w. */
  function ChunkMeshOf(h: HeightField, w: nat, c: Coord): seq<Vertex> {
    TileRows(h, c.0 * w, c.1 * w, w, w)
  }

  /** Number of walls emitted by the tiles of a row / of a block of rows. */
  function RowWalls(h: HeightField, x: int, z0: int, m: nat): nat {
    if m == 0 then 0 else RowWalls(h, x, z0, m - 1) + |LowerSides(h, (x, z0 + m - 1), Sides)|
  }

  function BlockWalls(h: HeightField, x0: int, z0: int, n: nat, w: nat): nat {
    if n == 0 then 0 else BlockWalls(h, x0, z0, n - 1, w) + RowWalls(h, x0 + n - 1, z0, w)
  }

  // ---------------------------------------------------------------------
  // The builder itself.

  /**
   * `__generate_chunk_data(chunk_x, chunk_z)`: fill the halo height grid,
   * then emit each tile's top face and its walls.  The vertex count is the
   * number of vertices (the source divides the flat float list by 6).
   */
  method GenerateChunkData(h: HeightField, width: nat, chunkX: int, chunkZ: int)
    returns (vertices: seq<Vertex>, vertexCount: int)
    ensures vertices == ChunkMeshOf(h, width, (chunkX, chunkZ))
    ensures vertexCount == |vertices| && vertexCount % 6 == 0
  {
    var startX := chunkX * width;
    var startZ := chunkZ * width;
    var heights := SampleHeights(h, width, startX, startZ);
    vertices := [];
    for i := 1 to width + 1
      modifies {}
      invariant vertices == TileRows(h, startX, startZ, i - 1, width)
    {
      vertices := AppendRow(h, heights, startX, startZ, i, vertices);
    }
    ChunkMeshSize(h, width, (chunkX, chunkZ));
    vertexCount := |vertices|;
  }

  /** The inner loop over j for one row i of tiles. */
  method AppendRow(h: HeightField, heights: array2<real>, startX: int, startZ: int, i: int, vertices: seq<Vertex>)
    returns (out: seq<Vertex>)
    requires heights.Length0 == heights.Length1 && heights.Length0 >= 2
    requires 1 <= i < heights.Length0 - 1
    requires HaloGrid(h, heights, startX, startZ)
    ensures out == vertices + TileRow(h, startX + (i - 1), startZ, heights.Length0 - 2)
  {
    var width := heights.Length0 - 2;
    out := vertices;
    for m := 0 to width
      invariant out == vertices + TileRow(h, startX + (i - 1), startZ, m)
    {
      out := AppendTile(h, heights, startX, startZ, i, m + 1, out);
      assert startZ + (m + 1 - 1) == startZ + m;
      TileRowStep(h, startX + (i - 1), startZ, m);
      ConcatAssoc(vertices, TileRow(h, startX + (i - 1), startZ, m), TileMesh(h, (startX + (i - 1), startZ + m)));
    }
  }

  lemma TileRowStep(h: HeightField, x: int, z0: int, m: nat)
    ensures TileRow(h, x, z0, m + 1) == TileRow(h, x, z0, m) + TileMesh(h, (x, z0 + m))
  {
  }

  /** heights[i, j] is the height of world tile (start_x + i - 1, start_z + j - 1). */
  ghost predicate HaloGrid(h: HeightField, heights: array2<real>, startX: int, startZ: int)
    reads heights
  {
    forall a, b :: 0 <= a < heights.Length0 && 0 <= b < heights.Length1 ==>
      heights[a, b] == h(startX + (a - 1), startZ + (b - 1))
  }

  /** Fill the halo grid of a chunk whose first tile is (start_x, start_z). */
  method SampleHeights(h: HeightField, width: nat, startX: int, startZ: int) returns (heights: array2<real>)
    ensures fresh(heights)
    ensures heights.Length0 == width + 2 && heights.Length1 == width + 2
    ensures HaloGrid(h, heights, startX, startZ)
  {
    var gridSize := width + 2;
    heights := new real[gridSize, gridSize];
    for i := 0 to gridSize
      invariant forall a, b :: 0 <= a < i && 0 <= b < gridSize ==>
        heights[a, b] == h(startX + (a - 1), startZ + (b - 1))
    {
      for j := 0 to gridSize
        invariant forall a, b :: 0 <= a < i && 0 <= b < gridSize ==>
          heights[a, b] == h(startX + (a - 1), startZ + (b - 1))
        invariant forall b :: 0 <= b < j ==> heights[i, b] == h(startX + (i - 1), startZ + (b - 1))
      {
        heights[i, j] := h(startX + (i - 1), startZ + (j - 1));
      }
    }
  }

  /** One pass of the tile loop: the top quad, then a wall for each strictly lower side. */
  method AppendTile(h: HeightField, heights: array2<real>, startX: int, startZ: int, i: int, j: int,
                    vertices: seq<Vertex>)
    returns (out: seq<Vertex>)
    requires 1 <= i < heights.Length0 - 1 && 1 <= j < heights.Length1 - 1
    requires HaloGrid(h, heights, startX, startZ)
    ensures out == vertices + TileMesh(h, (startX + (i - 1), startZ + (j - 1)))
  {
    var tileHeight := heights[i, j];
    var worldX := startX + (i - 1);
    var worldZ := startZ + (j - 1);
    ghost var t := (worldX, worldZ);
    assert tileHeight == h(t.0, t.1);
    out := vertices + TopQuad(worldX, worldZ, tileHeight);
    ghost var base := out;
    for k := 0 to |Sides|
      invariant out == base + Walls(h, t, Sides[..k])
    {
      var side := Sides[k];
      var offset := Offset(side);
      HaloNeighbor(h, heights, startX, startZ, i, j, side);
      var neighborHeight := heights[i + offset.0, j + offset.1];
      WallsStep(h, t, Sides, k);
      if tileHeight > neighborHeight {
        ConcatAssoc(base, Walls(h, t, Sides[..k]), WallQuad(worldX, worldZ, tileHeight, neighborHeight, side));
        out := out + WallQuad(worldX, worldZ, tileHeight, neighborHeight, side);
      }
    }
    assert Sides[..|Sides|] == Sides;
    ConcatAssoc(vertices, TopQuad(worldX, worldZ, tileHeight), Walls(h, t, Sides));
  }

  /** The halo grid holds every interior tile's four neighbours. */
  lemma HaloNeighbor(h: HeightField, heights: array2<real>, startX: int, startZ: int, i: int, j: int, side: Side)
    requires 1 <= i < heights.Length0 - 1 && 1 <= j < heights.Length1 - 1
    requires HaloGrid(h, heights, startX, startZ)
    ensures 0 <= i + Offset(side).0 < heights.Length0 && 0 <= j + Offset(side).1 < heights.Length1
    ensures var n := Neighbor((startX + (i - 1), startZ + (j - 1)), side);
      heights[i + Offset(side).0, j + Offset(side).1] == h(n.0, n.1)
  {
  }

  /** One more side checked: the walls so far, then this side's wall if it is lower. */
  lemma WallsStep(h: HeightField, t: Coord, sides: seq<Side>, k: int)
    requires 0 <= k < |sides|
    ensures var n := Neighbor(t, sides[k]);
      h(t.0, t.1) > h(n.0, n.1) ==>
        Walls(h, t, sides[..k + 1]) == Walls(h, t, sides[..k]) + WallQuad(t.0, t.1, h(t.0, t.1), h(n.0, n.1), sides[k])
    ensures var n := Neighbor(t, sides[k]);
      h(t.0, t.1) <= h(n.0, n.1) ==> Walls(h, t, sides[..k + 1]) == Walls(h, t, sides[..k])
  {
    assert sides[..k + 1][..k] == sides[..k];
  }

  // ---------------------------------------------------------------------
  // Counting vertices.

  lemma {:induction false} WallsLength(h: HeightField, t: Coord, sides: seq<Side>)
    ensures |Walls(h, t, sides)| == 6 * |LowerSides(h, t, sides)|
  {
    if sides != [] {
      WallsLength(h, t, sides[..|sides| - 1]);
    }
  }

  /** A tile emits 6 top vertices plus 6 per strictly lower side. */
  lemma TileMeshLength(h: HeightField, t: Coord)
    ensures |TileMesh(h, t)| == 6 + 6 * |LowerSides(h, t, Sides)|
  {
    WallsLength(h, t, Sides);
  }

  lemma {:induction false} RowLength(h: HeightField, x: int, z0: int, m: nat)
    ensures |TileRow(h, x, z0, m)| == 6 * m + 6 * RowWalls(h, x, z0, m)
  {
    if m > 0 {
      RowLength(h, x, z0, m - 1);
      TileMeshLength(h, (x, z0 + m - 1));
    }
  }

  lemma MulStep(n: nat, w: nat)
    requires n > 0
    ensures n * w == (n - 1) * w + w
  {
  }

  lemma {:induction false} RowsLength(h: HeightField, x0: int, z0: int, n: nat, w: nat)
    ensures |TileRows(h, x0, z0, n, w)| == 6 * (n * w) + 6 * BlockWalls(h, x0, z0, n, w)
  {
    if n > 0 {
      RowsLength(h, x0, z0, n - 1, w);
      RowLength(h, x0 + n - 1, z0, w);
      MulStep(n, w);
    }
  }

  /**
   * A chunk has 6*W^2 top vertices plus 6 per wall; so its vertex count is a
   * multiple of 6 (whole quads, hence whole triangles).
   */
  lemma ChunkMeshSize(h: HeightField, w: nat, c: Coord)
    ensures |ChunkMeshOf(h, w, c)| == 6 * (w * w) + 6 * BlockWalls(h, c.0 * w, c.1 * w, w, w)
    ensures |ChunkMeshOf(h, w, c)| % 6 == 0
  {
    RowsLength(h, c.0 * w, c.1 * w, w, w);
  }

  // ---------------------------------------------------------------------
  // The wall rule.

  lemma {:induction false} LowerSidesIff(h: HeightField, t: Coord, sides: seq<Side>, s: Side)
    ensures s in LowerSides(h, t, sides) <==>
      s in sides && h(t.0, t.1) > h(Neighbor(t, s).0, Neighbor(t, s).1)
  {
    if sides != [] {
      LowerSidesIff(h, t, sides[..|sides| - 1], s);
      assert sides == sides[..|sides| - 1] + [sides[|sides| - 1]];
    }
  }

  /** A tile emits a wall on side s iff it is strictly higher than the neighbour across s. */
  lemma WallIff(h: HeightField, t: Coord, s: Side)
    ensures s in LowerSides(h, t, Sides) <==> h(t.0, t.1) > h(Neighbor(t, s).0, Neighbor(t, s).1)
  {
    LowerSidesIff(h, t, Sides, s);
  }

  /**
   * Of two edge-adjacent tiles (in the same chunk or not), at most one emits
   * the wall on their shared edge, and exactly one does when their heights differ.
   */
  lemma SharedEdgeWall(h: HeightField, t: Coord, s: Side)
    ensures Neighbor(Neighbor(t, s), Opposite(s)) == t
    ensures !(s in LowerSides(h, t, Sides) && Opposite(s) in LowerSides(h, Neighbor(t, s), Sides))
    ensures h(t.0, t.1) != h(Neighbor(t, s).0, Neighbor(t, s).1) ==>
      (s in LowerSides(h, t, Sides) || Opposite(s) in LowerSides(h, Neighbor(t, s), Sides))
  {
    WallIff(h, t, s);
    WallIff(h, Neighbor(t, s), Opposite(s));
  }

  /** The ground-plane corners of a tile's side. */
  function EdgeCorners(t: Coord, s: Side): set<Coord> {
    var ((lx0, lz0), (lx1, lz1)) := EdgeEnds(s);
    {(t.0 + lx0, t.1 + lz0), (t.0 + lx1, t.1 + lz1)}
  }

  /**
   * The two tiles of a shared edge would place their walls on the same
   * ground-plane segment: this is why emitting from both sides would duplicate it.
   */
  lemma SharedEdgeSameSegment(t: Coord, s: Side)
    ensures EdgeCorners(t, s) == EdgeCorners(Neighbor(t, s), Opposite(s))
  {
  }

  /** Every wall vertex stands on the side's edge and spans from the neighbour's height to the tile's. */
  lemma WallQuadOnEdge(x: int, z: int, top: real, bottom: real, s: Side, v: Vertex)
    requires v in WallQuad(x, z, top, bottom, s)
    ensures (v.x, v.z) in EdgeCorners((x, z), s)
    ensures v.y == top || v.y == bottom
    ensures v.shade == WallShade
  {
  }

  // ---------------------------------------------------------------------
  // Flat terrain and a concrete instance.

  lemma {:induction false} FlatRowWalls(h: HeightField, x: int, z0: int, m: nat)
    requires forall a, b :: h(a, b) == h(0, 0)
    ensures RowWalls(h, x, z0, m) == 0
  {
    if m > 0 {
      FlatRowWalls(h, x, z0, m - 1);
      var t := (x, z0 + m - 1);
      if |LowerSides(h, t, Sides)| > 0 {
        var s := LowerSides(h, t, Sides)[0];
        WallIff(h, t, s);
      }
    }
  }

  lemma {:induction false} FlatBlockWalls(h: HeightField, x0: int, z0: int, n: nat, w: nat)
    requires forall a, b :: h(a, b) == h(0, 0)
    ensures BlockWalls(h, x0, z0, n, w) == 0
  {
    if n > 0 {
      FlatBlockWalls(h, x0, z0, n - 1, w);
      FlatRowWalls(h, x0 + n - 1, z0, w);
    }
  }

  /** On constant terrain a chunk is exactly its W^2 top quads: 6*W^2 vertices, 2*W^2 triangles. */
  lemma FlatChunk(h: HeightField, w: nat, c: Coord)
    requires forall a, b :: h(a, b) == h(0, 0)
    ensures |ChunkMeshOf(h, w, c)| == 6 * (w * w)
    ensures |ChunkMeshOf(h, w, c)| / 3 == 2 * (w * w)
  {
    ChunkMeshSize(h, w, c);
    FlatBlockWalls(h, c.0 * w, c.1 * w, w, w);
  }

  /** chunk_width = 4 over height 0 everywhere: 32 triangles, all of them top faces. */
  lemma FlatChunkWidthFour(c: Coord)
    ensures |ChunkMeshOf((a: int, b: int) => 0.0, 4, c)| / 3 == 32
  {
    FlatChunk((a: int, b: int) => 0.0, 4, c);
  }

  // ---------------------------------------------------------------------
  // Where each tile's geometry sits in its chunk's vertex list.

  /** The block of n vertices of s starting at k. */
  function Block(s: seq<Vertex>, k: int, n: int): seq<Vertex>
    requires 0 <= k && 0 <= n && k + n <= |s|
  {
    s[k..k + n]
  }

  /** t occurs as a contiguous block of s. */
  ghost predicate Occurs(t: seq<Vertex>, s: seq<Vertex>) {
    exists k :: 0 <= k && k + |t| <= |s| && Block(s, k, |t|) == t
  }

  lemma {:induction false} RowPrefix(h: HeightField, x: int, z0: int, b: nat, m: nat)
    requires b <= m
    ensures TileRow(h, x, z0, b) <= TileRow(h, x, z0, m)
    decreases m
  {
    if b < m {
      RowPrefix(h, x, z0, b, m - 1);
      var rest := TileRow(h, x, z0, m - 1);
      assert TileRow(h, x, z0, m) == rest + TileMesh(h, (x, z0 + m - 1));
      assert TileRow(h, x, z0, b) <= rest;
    }
  }

  lemma {:induction false} RowsPrefix(h: HeightField, x0: int, z0: int, a: nat, n: nat, w: nat)
    requires a <= n
    ensures TileRows(h, x0, z0, a, w) <= TileRows(h, x0, z0, n, w)
    decreases n
  {
    if a < n {
      RowsPrefix(h, x0, z0, a, n - 1, w);
      var rest := TileRows(h, x0, z0, n - 1, w);
      assert TileRows(h, x0, z0, n, w) == rest + TileRow(h, x0 + n - 1, z0, w);
      assert TileRows(h, x0, z0, a, w) <= rest;
    }
  }

  lemma OccursInPrefix(t: seq<Vertex>, p: seq<Vertex>, s: seq<Vertex>)
    requires p <= s && Occurs(t, p)
    ensures Occurs(t, s)
  {
    var k :| 0 <= k && k + |t| <= |p| && Block(p, k, |t|) == t;
    assert Block(s, k, |t|) == Block(p, k, |t|);
  }

  lemma OccursAtEnd(t: seq<Vertex>, p: seq<Vertex>)
    ensures Occurs(t, p + t)
  {
    assert Block(p + t, |p|, |t|) == t;
  }

  lemma OccursAfter(t: seq<Vertex>, p: seq<Vertex>, q: seq<Vertex>)
    requires Occurs(t, q)
    ensures Occurs(t, p + q)
  {
    var k :| 0 <= k && k + |t| <= |q| && Block(q, k, |t|) == t;
    assert Block(p + q, |p| + k, |t|) == t;
  }

  /**
   * Every tile of a chunk contributes its own TileMesh, which depends only on
   * the tile's world position: tiles on a chunk border get the same geometry
   * whichever chunk generates them, so neighbouring chunks stitch seamlessly.
   */
  lemma TileInChunk(h: HeightField, w: nat, c: Coord, a: nat, b: nat)
    requires a < w && b < w
    ensures Occurs(TileMesh(h, (c.0 * w + a, c.1 * w + b)), ChunkMeshOf(h, w, c))
  {
    TileInBlock(h, c.0 * w, c.1 * w, w, a, b);
  }

  /** Tile (x0 + a, z0 + b) occurs in the block of w rows of w tiles starting at (x0, z0). */
  lemma TileInBlock(h: HeightField, x0: int, z0: int, w: nat, a: nat, b: nat)
    requires a < w && b < w
    ensures Occurs(TileMesh(h, (x0 + a, z0 + b)), TileRows(h, x0, z0, w, w))
  {
    var tile := TileMesh(h, (x0 + a, z0 + b));
    TileInRow(h, x0 + a, z0, w, b);
    TileRowsStep(h, x0, z0, a, w);
    OccursAfter(tile, TileRows(h, x0, z0, a, w), TileRow(h, x0 + a, z0, w));
    RowsPrefix(h, x0, z0, a + 1, w, w);
    OccursInPrefix(tile, TileRows(h, x0, z0, a + 1, w), TileRows(h, x0, z0, w, w));
  }

  /** Tile (x, z0 + b) occurs in the row of m tiles starting at (x, z0). */
  lemma TileInRow(h: HeightField, x: int, z0: int, m: nat, b: nat)
    requires b < m
    ensures Occurs(TileMesh(h, (x, z0 + b)), TileRow(h, x, z0, m))
  {
    var tile := TileMesh(h, (x, z0 + b));
    TileRowStep(h, x, z0, b);
    OccursAtEnd(tile, TileRow(h, x, z0, b));
    RowPrefix(h, x, z0, b + 1, m);
    OccursInPrefix(tile, TileRow(h, x, z0, b + 1), TileRow(h, x, z0, m));
  }

  lemma TileRowsStep(h: HeightField, x0: int, z0: int, a: nat, w: nat)
    ensures TileRows(h, x0, z0, a + 1, w) == TileRows(h, x0, z0, a, w) + TileRow(h, x0 + a, z0, w)
  {
  }

  /**
   * Two adjacent chunks: when a border tile of chunk A is strictly higher than
   * the adjacent tile across side s, A's geometry contains that wall quad and the
   * tile across the border emits no wall on the mirrored side.
   */
  lemma BorderWall(h: HeightField, w: nat, c: Coord, a: nat, b: nat, s: Side)
    requires a < w && b < w
    requires var t := (c.0 * w + a, c.1 * w + b);
      h(t.0, t.1) > h(Neighbor(t, s).0, Neighbor(t, s).1)
    ensures var t := (c.0 * w + a, c.1 * w + b);
      s in LowerSides(h, t, Sides) && Occurs(TileMesh(h, t), ChunkMeshOf(h, w, c))
    ensures var t := (c.0 * w + a, c.1 * w + b);
      Opposite(s) !in LowerSides(h, Neighbor(t, s), Sides)
  {
    var t := (c.0 * w + a, c.1 * w + b);
    TileInChunk(h, w, c, a, b);
    SharedEdgeWall(h, t, s);
    WallIff(h, t, s);
  }
}
