/**
 * Chunk-coordinate arithmetic of the terrain engine: which chunk a world
 * position falls in, and the Chebyshev square of chunk coordinates that
 * `update`, `render` and the initial preload walk with their nested loops.
 */
module ChunkGrid {
  import opened SeqUtil

  /** A chunk coordinate (chunk_x, chunk_z); also used for world tile coordinates. */
  type Coord = (int, int)

  /** Multiplying both sides of an inequality by a positive real. */
  lemma ScaleLe(a: real, b: real, w: real)
    requires 0.0 < w && a <= b
    ensures a * w <= b * w
  {
  }

  lemma ScaleLt(a: real, b: real, w: real)
    requires 0.0 < w && a < b
    ensures a * w < b * w
  {
  }

  lemma DivMul(x: real, w: real)
    requires 0.0 < w
    ensures (x / w) * w == x
  {
  }

  lemma FloorScaled(q: real, w: real, x: real)
    requires 0.0 < w && q * w == x
    ensures q.Floor as real * w <= x < (q.Floor + 1) as real * w
  {
    ScaleLe(q.Floor as real, q, w);
    ScaleLt(q, (q.Floor + 1) as real, w);
  }

  /** x lies between floor(x / w) * w and (floor(x / w) + 1) * w. */
  lemma FloorSpan(x: real, w: real)
    requires 0.0 < w
    ensures (x / w).Floor as real * w <= x < ((x / w).Floor + 1) as real * w
  {
    DivMul(x, w);
    FloorScaled(x / w, w, x);
  }

  /**
   * math.floor(x / chunk_width): the index of the chunk whose tiles span the
   * world position x.  The target is a real-valued position.
   */
  function ChunkIndex(x: real, width: int): (c: int)
    requires width > 0
    ensures c as real * width as real <= x < (c + 1) as real * width as real
  {
    FloorSpan(x, width as real);
    (x / width as real).Floor
  }

  /** Spans of distinct chunk indices do not overlap: the end of span a is at most the start of span b. */
  lemma SpanOrder(a: int, b: int, w: real)
    requires 0.0 < w && a < b
    ensures (a + 1) as real * w <= b as real * w
  {
    ScaleLe((a + 1) as real, b as real, w);
  }

  /** Two chunk spans that both contain x belong to the same index. */
  lemma SpansDisjoint(x: real, w: real, a: int, b: int)
    requires 0.0 < w
    requires a as real * w <= x < (a + 1) as real * w
    requires b as real * w <= x < (b + 1) as real * w
    ensures a == b
  {
    if a < b {
      SpanOrder(a, b, w);
      assert false;
    } else if b < a {
      SpanOrder(b, a, w);
      assert false;
    }
  }

  /** The chunk index is the only integer whose span contains x. */
  lemma ChunkIndexUnique(x: real, width: int, c: int)
    requires width > 0
    requires c as real * width as real <= x < (c + 1) as real * width as real
    ensures ChunkIndex(x, width) == c
  {
    SpansDisjoint(x, width as real, ChunkIndex(x, width), c);
  }

  /** The chunk containing a target (x, z). */
  function ChunkOf(target: (real, real), width: int): Coord
    requires width > 0
  {
    (ChunkIndex(target.0, width), ChunkIndex(target.1, width))
  }

  /** Chebyshev distance at most r from the centre chunk. */
  predicate InSquare(c: Coord, center: Coord, r: int) {
    -r <= c.0 - center.0 <= r && -r <= c.1 - center.1 <= r
  }

  /** Python's range(lo, hi). */
  function Range(lo: int, hi: int): (s: seq<int>)
    ensures |s| == if hi <= lo then 0 else hi - lo
    decreases hi - lo
  {
    if hi <= lo then [] else Range(lo, hi - 1) + [hi - 1]
  }

  /** range(lo, hi) holds exactly the integers lo <= v < hi ... */
  lemma {:induction false} RangeMembers(lo: int, hi: int, v: int)
    ensures v in Range(lo, hi) <==> lo <= v < hi
    decreases hi - lo
  {
    if lo < hi {
      RangeMembers(lo, hi - 1, v);
    }
  }

  /** ... each of them once. */
  lemma {:induction false} RangeDistinct(lo: int, hi: int)
    ensures Distinct(Range(lo, hi))
    decreases hi - lo
  {
    if lo < hi {
      RangeDistinct(lo, hi - 1);
      RangeMembers(lo, hi - 1, hi - 1);
    }
  }

  /** The coordinates (x, z) for every z in zs, in order. */
  function Row(x: int, zs: seq<int>): (s: seq<Coord>)
  {
    seq(|zs|, k requires 0 <= k < |zs| => (x, zs[k]))
  }

  /** Row after row, as two nested for-loops visit them. */
  function Rows(xs: seq<int>, zs: seq<int>): seq<Coord>
  {
    if xs == [] then [] else Rows(xs[..|xs| - 1], zs) + Row(xs[|xs| - 1], zs)
  }

  /**
   * The coordinates (cx + dx, cz + dz) for dx, dz in range(-r, r + 1), in the
   * order of the source's nested loops (dx outer, dz inner).
   */
  function SquareSeq(center: Coord, r: int): seq<Coord>
  {
    Rows(Range(center.0 - r, center.0 + r + 1), Range(center.1 - r, center.1 + r + 1))
  }

  lemma {:induction false} RowsMembers(xs: seq<int>, zs: seq<int>, c: Coord)
    ensures c in Rows(xs, zs) <==> c.0 in xs && c.1 in zs
  {
    if xs != [] {
      var init := xs[..|xs| - 1];
      RowsMembers(init, zs, c);
      assert xs == init + [xs[|xs| - 1]];
      if c.0 == xs[|xs| - 1] && c.1 in zs {
        var k :| 0 <= k < |zs| && zs[k] == c.1;
        assert Row(c.0, zs)[k] == c;
      }
    }
  }

  lemma {:induction false} RowsLength(xs: seq<int>, zs: seq<int>)
    ensures |Rows(xs, zs)| == |xs| * |zs|
  {
    if xs != [] {
      RowsLength(xs[..|xs| - 1], zs);
      assert |xs| * |zs| == (|xs| - 1) * |zs| + |zs|;
    }
  }

  lemma {:induction false} RowsDistinct(xs: seq<int>, zs: seq<int>)
    requires Distinct(xs) && Distinct(zs)
    ensures Distinct(Rows(xs, zs))
  {
    if xs != [] {
      var init := xs[..|xs| - 1];
      var x := xs[|xs| - 1];
      assert Distinct(init);
      RowsDistinct(init, zs);
      var a := Rows(init, zs);
      var b := Row(x, zs);
      forall i, j | 0 <= i < j < |a + b| ensures (a + b)[i] != (a + b)[j] {
        if j >= |a| && i < |a| {
          RowsMembers(init, zs, a[i]);
          assert a[i].0 in init;
          assert x !in init by {
            assert xs == init + [x];
          }
        }
      }
    }
  }

  /** A coordinate is visited by the square's loops iff it is within Chebyshev distance r. */
  lemma {:induction false} SquareSeqMembers(center: Coord, r: int, c: Coord)
    ensures c in SquareSeq(center, r) <==> InSquare(c, center, r)
  {
    var xs := Range(center.0 - r, center.0 + r + 1);
    var zs := Range(center.1 - r, center.1 + r + 1);
    RowsMembers(xs, zs, c);
    RangeMembers(center.0 - r, center.0 + r + 1, c.0);
    RangeMembers(center.1 - r, center.1 + r + 1, c.1);
  }

  /** The loops visit no coordinate twice and visit (2r+1)^2 of them. */
  lemma SquareSeqShape(center: Coord, r: int)
    requires r >= 0
    ensures Distinct(SquareSeq(center, r))
    ensures |SquareSeq(center, r)| == (2 * r + 1) * (2 * r + 1)
  {
    var xs := Range(center.0 - r, center.0 + r + 1);
    var zs := Range(center.1 - r, center.1 + r + 1);
    RangeDistinct(center.0 - r, center.0 + r + 1);
    RangeDistinct(center.1 - r, center.1 + r + 1);
    RowsDistinct(xs, zs);
    RowsLength(xs, zs);
    SquareOfSide(|xs|, |zs|, 2 * r + 1);
  }

  lemma SquareOfSide(a: int, b: int, n: int)
    requires a == n && b == n
    ensures a * b == n * n
  {
  }

  /** The set `required_chunks` (resp. `visible_chunks`) that the loops build. */
  function Square(center: Coord, r: int): (s: set<Coord>)
    ensures forall c :: c in s <==> InSquare(c, center, r)
  {
    var s := Elems(SquareSeq(center, r));
    forall c ensures c in s <==> InSquare(c, center, r) {
      SquareSeqMembers(center, r, c);
    }
    s
  }

  /** The required set has exactly (2r+1)^2 chunk coordinates. */
  lemma SquareCard(center: Coord, r: int)
    requires r >= 0
    ensures |Square(center, r)| == (2 * r + 1) * (2 * r + 1)
  {
    SquareSeqShape(center, r);
    DistinctCard(SquareSeq(center, r));
  }

  /** The preload square (radius 2R, side 4R+1) contains the update square. */
  lemma PreloadSquare(center: Coord, r: int)
    requires r >= 0
    ensures |Square(center, 2 * r)| == (4 * r + 1) * (4 * r + 1)
    ensures Square(center, r) <= Square(center, 2 * r)
  {
    SquareCard(center, 2 * r);
  }
}
