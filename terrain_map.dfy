/**
 * The MeshMap terrain manager: two dictionaries keyed by chunk coordinate,
 * `__chunks` (Ready chunks with their vertex data and buffer handle) and
 * `__chunk_futures` (Pending generation jobs).  A coordinate is Absent,
 * Pending or Ready.  Jobs run on a thread pool in the original; here a job
 * is an abstract future whose status is reported by an oracle, and a buffer
 * handle is a fresh number.
 */
module TerrainMap {
  import opened SeqUtil
  import opened Wrappers
  import opened ChunkGrid
  import opened ChunkMesh

  /** What `future.done()` / `future.result()` would report for a job right now. */
  datatype Poll = Running | Failed | Finished

  predicate Done(p: Poll) { p != Running }

  /** One entry of `__chunks`: the vertex data, its buffer handle and its vertex count. */
  datatype ChunkRecord = ChunkRecord(vertices: seq<Vertex>, vbo: nat, vertexCount: int)

  /** One `glDrawArrays` call issued by `render`, tagged with the chunk it draws. */
  datatype Draw = Draw(coord: Coord, vbo: nat, vertexCount: int)

  // ---------------------------------------------------------------------
  // Specification functions over the dictionaries' key sequences.

  /**
   * The futures dictionary after walking `cs` in order and submitting every
   * coordinate that is in neither the ready set nor the futures so far.
   */
  function Submit(futs: seq<Coord>, cs: seq<Coord>, ready: set<Coord>): seq<Coord>
  {
    if cs == [] then futs
    else
      var f := Submit(futs, cs[..|cs| - 1], ready);
      var c := cs[|cs| - 1];
      if c in ready || c in f then f else f + [c]
  }

  /** `s` with every element of `rm` deleted (`del d[k]` on a dictionary's keys). */
  function Minus(s: seq<Coord>, rm: set<Coord>): (r: seq<Coord>)
    ensures |r| <= |s|
  {
    if s == [] then []
    else Minus(s[..|s| - 1], rm) + (if s[|s| - 1] in rm then [] else [s[|s| - 1]])
  }

  /** The elements of `s` whose job is done (finished or failed), in order. */
  function DoneIn(s: seq<Coord>, poll: Coord -> Poll): (r: seq<Coord>)
    ensures |r| <= |s|
  {
    if s == [] then []
    else DoneIn(s[..|s| - 1], poll) + (if Done(poll(s[|s| - 1])) then [s[|s| - 1]] else [])
  }

  /** The elements of `s` that satisfy `ok`, in order. */
  function Keep(s: seq<Coord>, ok: Coord -> bool): seq<Coord>
  {
    if s == [] then []
    else Keep(s[..|s| - 1], ok) + (if ok(s[|s| - 1]) then [s[|s| - 1]] else [])
  }

  /** Whether the job for a coordinate finished with a result. */
  function FinishedBy(poll: Coord -> Poll): Coord -> bool
  {
    c => poll(c) == Finished
  }

  /** The elements of `s` within Chebyshev distance r of `center`, in order. */
  function Visible(s: seq<Coord>, center: Coord, r: int): seq<Coord>
  {
    if s == [] then []
    else Visible(s[..|s| - 1], center, r) + (if InSquare(s[|s| - 1], center, r) then [s[|s| - 1]] else [])
  }

  /** The first n elements of s (all of them if there are fewer). */
  function Take(s: seq<Coord>, n: nat): (r: seq<Coord>)
    ensures |r| <= n && |r| <= |s|
    ensures r == s[..|r|]
  {
    if |s| <= n then s else s[..n]
  }

  /** The futures that one `update` drains: the first `limit` done ones, in dictionary order. */
  function Drained(futs: seq<Coord>, poll: Coord -> Poll, limit: nat): seq<Coord>
  {
    Take(DoneIn(futs, poll), limit)
  }

  /**
   * The two dictionaries as the model keeps them: `order` lists the keys of
   * `chunks` once each, the futures are distinct, and no coordinate is both
   * Ready and Pending.
   */
  ghost predicate DictsOk(chunks: map<Coord, ChunkRecord>, order: seq<Coord>, futures: seq<Coord>)
  {
    Distinct(order)
    && (forall c :: c in chunks <==> c in order)
    && Distinct(futures)
    && (forall c :: c in futures ==> c !in chunks)
  }

  /**
   * Every Ready record holds its chunk's mesh and vertex count, and a handle
   * already handed out that no other chunk holds.
   */
  ghost predicate RecordsOk(chunks: map<Coord, ChunkRecord>, h: HeightField, w: nat, nextHandle: nat)
  {
    (forall c {:trigger ChunkMeshOf(h, w, c)} :: c in chunks ==> chunks[c].vertices == ChunkMeshOf(h, w, c))
    && (forall c :: c in chunks ==> chunks[c].vertexCount == |chunks[c].vertices| && chunks[c].vbo < nextHandle)
    && (forall c1, c2 :: c1 in chunks && c2 in chunks && c1 != c2 ==> chunks[c1].vbo != chunks[c2].vbo)
  }

  function Coords(draws: seq<Draw>): (r: seq<Coord>)
    ensures |r| == |draws|
  {
    seq(|draws|, k requires 0 <= k < |draws| => draws[k].coord)
  }

  // ---------------------------------------------------------------------
  // The manager.

  class MeshMap {
    const chunkWidth: nat
    const renderDistance: int
    const chunksPerUpdate: nat
    /** get_tile_height: deterministic, uninterpreted. */
    const height: HeightField

    /** `__chunks`: its entries, and its keys in insertion order. */
    var chunks: map<Coord, ChunkRecord>
    var chunkOrder: seq<Coord>
    /** `__chunk_futures`: its keys in insertion order; the future is the job for that key. */
    var futures: seq<Coord>
    /** The next buffer handle that glGenBuffers hands out. */
    var nextHandle: nat

    ghost predicate Valid()
      reads this
    {
      chunkWidth > 0 && chunksPerUpdate > 0
      && DictsOk(chunks, chunkOrder, futures)
      && RecordsOk(chunks, height, chunkWidth, nextHandle)
    }

    /**
     * `__init__`, then `__preload_initial(initial_target)` when a target is
     * given.  `succeeds` says which preload jobs finish without an exception.
     */
    constructor (chunkWidth: nat, renderDistance: int, chunksPerUpdate: nat, height: HeightField,
                 initialTarget: Option<(real, real)>, succeeds: Coord -> bool)
      requires chunkWidth > 0 && chunksPerUpdate > 0
      ensures Valid()
      ensures this.chunkWidth == chunkWidth && this.renderDistance == renderDistance
      ensures this.chunksPerUpdate == chunksPerUpdate && this.height == height
      ensures initialTarget.None? ==> chunks == map[] && futures == []
      ensures initialTarget.Some? ==> (futures == [] &&
        forall c :: InSquare(c, ChunkOf(initialTarget.value, chunkWidth), 2 * renderDistance) ==>
          (c in chunks <==> succeeds(c)))
    {
      this.chunkWidth := chunkWidth;
      this.renderDistance := renderDistance;
      this.chunksPerUpdate := chunksPerUpdate;
      this.height := height;
      chunks := map[];
      chunkOrder := [];
      futures := [];
      nextHandle := 0;
      new;
      if initialTarget.Some? {
        PreloadInitial(initialTarget.value, succeeds);
        forall c | InSquare(c, ChunkOf(initialTarget.value, chunkWidth), 2 * renderDistance)
          ensures c in chunks <==> succeeds(c)
        {
          assert c in Square(ChunkOf(initialTarget.value, chunkWidth), 2 * renderDistance);
        }
      }
    }

    /** `__create_vbo`: a handle no stored chunk holds. */
    method CreateVbo() returns (vbo: nat)
      requires Valid()
      modifies this
      ensures Valid()
      ensures vbo == old(nextHandle) && nextHandle == old(nextHandle) + 1
      ensures chunks == old(chunks) && chunkOrder == old(chunkOrder) && futures == old(futures)
      ensures forall c :: c in chunks ==> chunks[c].vbo != vbo
    {
      vbo := nextHandle;
      nextHandle := nextHandle + 1;
    }

    /**
     * The body shared by the drain loops of `update` and `__preload_initial`
     * for one done future: on success generate the data, create the buffer
     * and store the chunk; either way delete the future.
     */
    method Complete(c: Coord, ok: bool)
      requires Valid() && c in futures
      modifies this
      ensures Valid()
      ensures futures == Minus(old(futures), {c})
      ensures chunkOrder == old(chunkOrder) + (if ok then [c] else [])
      ensures ok ==> c in chunks
      ensures !ok ==> chunks == old(chunks)
      ensures forall d :: d in old(chunks) ==> d in chunks && chunks[d] == old(chunks)[d]
      ensures forall d :: d in chunks ==> d in old(chunks) || d == c
    {
      if ok {
        var vertices, vertexCount := GenerateChunkData(height, chunkWidth, c.0, c.1);
        var vbo := CreateVbo();
        chunks := chunks[c := ChunkRecord(vertices, vbo, vertexCount)];
        chunkOrder := chunkOrder + [c];
      }
      MinusDistinctOne(futures, c);
      futures := Minus(futures, {c});
      MinusMembersAll(old(futures), {c});
    }

    /**
     * The nested dx/dz loops of `update` (and the scheduling loop of
     * `__preload_initial`): submit a job for every coordinate of the square
     * around `center` that is neither Ready nor Pending.
     */
    method SubmitMissing(center: Coord, r: int)
      requires Valid()
      modifies this
      ensures Valid()
      ensures futures == Submit(old(futures), SquareSeq(center, r), old(chunks).Keys)
      ensures chunks == old(chunks) && chunkOrder == old(chunkOrder) && nextHandle == old(nextHandle)
    {
      var xs := Range(center.0 - r, center.0 + r + 1);
      var zs := Range(center.1 - r, center.1 + r + 1);
      ghost var start := futures;
      var pending := futures;
      for a := 0 to |xs|
        modifies {}
        invariant DictsOk(chunks, chunkOrder, pending) && pending == Submit(start, Rows(xs[..a], zs), chunks.Keys)
      {
        RowsStep(xs, zs, a);
        pending := SubmitRow(xs[a], zs, pending, start, Rows(xs[..a], zs));
      }
      assert xs[..|xs|] == xs;
      futures := pending;
    }

    /**
     * The inner dz loop for one dx: add (x, z) for each z in zs to the
     * pending futures unless it is Ready or already pending.
     */
    method SubmitRow(x: int, zs: seq<int>, pending: seq<Coord>, ghost start: seq<Coord>, ghost before: seq<Coord>)
      returns (r: seq<Coord>)
      requires DictsOk(chunks, chunkOrder, pending) && pending == Submit(start, before, chunks.Keys)
      ensures DictsOk(chunks, chunkOrder, r) && r == Submit(start, before + Row(x, zs), chunks.Keys)
    {
      r := pending;
      ghost var visited := before;
      assert Row(x, zs[..0]) == [];
      for b := 0 to |zs|
        invariant visited == before + Row(x, zs[..b])
        invariant DictsOk(chunks, chunkOrder, r) && r == Submit(start, visited, chunks.Keys)
      {
        var coord := (x, zs[b]);
        SubmitOne(chunks, chunkOrder, r, start, visited, coord);
        if coord !in chunks && coord !in r {
          r := r + [coord];
        }
        RowAppend(before, x, zs, b);
        visited := visited + [coord];
      }
      assert zs[..|zs|] == zs;
    }

    /**
     * `update(target)`: submit the missing chunks around the target's chunk,
     * then drain at most `chunks_per_update` done futures in dictionary order.
     */
    method Update(target: (real, real), poll: Coord -> Poll)
      requires Valid()
      modifies this
      ensures Valid()
      ensures var submitted := Submit(old(futures), SquareSeq(ChunkOf(target, chunkWidth), renderDistance), old(chunks).Keys);
        var d := Drained(submitted, poll, chunksPerUpdate);
        futures == Minus(submitted, Elems(d))
        && chunkOrder == old(chunkOrder) + Keep(d, FinishedBy(poll))
      ensures forall c :: c in old(chunks) ==> c in chunks && chunks[c] == old(chunks)[c]
    {
      var center := ChunkOf(target, chunkWidth);
      SubmitMissing(center, renderDistance);
      DrainCompleted(poll);
    }

    /** The futures of `snapshot` up to index i that `done` selects have been processed. */
    ghost predicate ProcessedUpTo(snapshot: seq<Coord>, done: seq<Coord>, order0: seq<Coord>, ok: Coord -> bool)
      reads this
    {
      futures == Minus(snapshot, Elems(done)) && chunkOrder == order0 + Keep(done, ok)
    }

    /**
     * The `processed`-counted loop of `update`: walk a snapshot of the
     * futures in dictionary order, stop once `chunks_per_update` done
     * futures have been processed (the source's `break` at the top of the
     * loop body), and process each done one.
     */
    method DrainCompleted(poll: Coord -> Poll)
      requires Valid()
      modifies this
      ensures Valid()
      ensures var d := Drained(old(futures), poll, chunksPerUpdate);
        futures == Minus(old(futures), Elems(d))
        && chunkOrder == old(chunkOrder) + Keep(d, FinishedBy(poll))
      ensures forall c :: c in old(chunks) ==> c in chunks && chunks[c] == old(chunks)[c]
    {
      var snapshot := futures;
      ghost var order0 := chunkOrder;
      var processed := 0;
      var i := 0;
      ghost var done: seq<Coord> := [];
      ProcessedNone(snapshot, order0, FinishedBy(poll));
      while i < |snapshot| && processed < chunksPerUpdate
        invariant 0 <= i <= |snapshot|
        invariant Valid() && Distinct(snapshot)
        invariant done == DoneIn(snapshot[..i], poll)
        invariant processed == |done| <= chunksPerUpdate
        invariant ProcessedUpTo(snapshot, done, order0, FinishedBy(poll))
        invariant forall c :: c in old(chunks) ==> c in chunks && chunks[c] == old(chunks)[c]
      {
        var coord := snapshot[i];
        var status := poll(coord);
        DoneInStep(snapshot, poll, i);
        if status != Running {
          ProcessPolled(snapshot, poll, i, done, order0);
          done := done + [coord];
          processed := processed + 1;
        }
        i := i + 1;
      }
      DrainExit(snapshot, poll, i, chunksPerUpdate);
    }

    /** The drain loop's step for the i-th future of the snapshot, which is done. */
    method ProcessPolled(snapshot: seq<Coord>, poll: Coord -> Poll, i: nat, ghost done: seq<Coord>, ghost order0: seq<Coord>)
      requires Valid() && Distinct(snapshot) && i < |snapshot| && Done(poll(snapshot[i]))
      requires done == DoneIn(snapshot[..i], poll) && ProcessedUpTo(snapshot, done, order0, FinishedBy(poll))
      modifies this
      ensures Valid() && ProcessedUpTo(snapshot, done + [snapshot[i]], order0, FinishedBy(poll))
      ensures forall c :: c in old(chunks) ==> c in chunks && chunks[c] == old(chunks)[c]
    {
      DoneInMember(snapshot[..i], poll, snapshot[i]);
      DistinctPrefixExcludes(snapshot, i);
      ProcessOne(snapshot, done, order0, FinishedBy(poll), snapshot[i]);
    }

    /**
     * The body of both drain loops for one done future `coord` of the
     * snapshot that has not been processed yet: complete it, with success
     * as `ok` says.
     */
    method ProcessOne(snapshot: seq<Coord>, ghost done: seq<Coord>, ghost order0: seq<Coord>, ok: Coord -> bool,
                      coord: Coord)
      requires Valid() && ProcessedUpTo(snapshot, done, order0, ok)
      requires coord in snapshot && coord !in done
      modifies this
      ensures Valid() && ProcessedUpTo(snapshot, done + [coord], order0, ok)
      ensures forall c :: c in old(chunks) ==> c in chunks && chunks[c] == old(chunks)[c]
    {
      MinusMember(snapshot, Elems(done), coord);
      Complete(coord, ok(coord));
      ProcessStep(snapshot, done, order0, ok, coord);
    }

    /** The wait-then-process-everything loop of `__preload_initial`. */
    method CompleteAll(succeeds: Coord -> bool)
      requires Valid()
      modifies this
      ensures Valid()
      ensures futures == []
      ensures chunkOrder == old(chunkOrder) + Keep(old(futures), succeeds)
      ensures forall c :: c in old(chunks) ==> c in chunks && chunks[c] == old(chunks)[c]
    {
      var snapshot := futures;
      ghost var order0 := chunkOrder;
      ProcessedNone(snapshot, order0, succeeds);
      assert snapshot[..0] == [];
      for i := 0 to |snapshot|
        invariant Valid() && Distinct(snapshot)
        invariant ProcessedUpTo(snapshot, snapshot[..i], order0, succeeds)
        invariant forall c :: c in old(chunks) ==> c in chunks && chunks[c] == old(chunks)[c]
      {
        var coord := snapshot[i];
        DistinctPrefixExcludes(snapshot, i);
        ProcessOne(snapshot, snapshot[..i], order0, succeeds, coord);
        PrefixStep(snapshot, i);
      }
      assert snapshot[..|snapshot|] == snapshot;
      MinusCovered(snapshot, Elems(snapshot));
    }

    /**
     * `__preload_initial(target)`: submit every missing chunk of the square
     * of radius 2R, wait for all jobs, then process every future (no limit).
     */
    method PreloadInitial(target: (real, real), succeeds: Coord -> bool)
      requires Valid()
      modifies this
      ensures Valid()
      ensures futures == []
      ensures var submitted := Submit(old(futures), SquareSeq(ChunkOf(target, chunkWidth), 2 * renderDistance), old(chunks).Keys);
        chunkOrder == old(chunkOrder) + Keep(submitted, succeeds)
      ensures forall c :: c in old(chunks) ==> c in chunks && chunks[c] == old(chunks)[c]
      ensures forall c :: InSquare(c, ChunkOf(target, chunkWidth), 2 * renderDistance) ==>
        (c in chunks <==> c in old(chunks) || succeeds(c))
    {
      var center := ChunkOf(target, chunkWidth);
      SubmitMissing(center, 2 * renderDistance);
      CompleteAll(succeeds);
      forall c | InSquare(c, center, 2 * renderDistance)
        ensures c in chunks <==> c in old(chunks) || succeeds(c)
      {
        PreloadCoverage(old(futures), old(chunkOrder), old(chunks).Keys, center, 2 * renderDistance, succeeds, c);
      }
    }

    /**
     * `render(target)`: one draw for each Ready chunk within the render
     * distance, in `__chunks` insertion order.
     */
    method Render(target: (real, real)) returns (draws: seq<Draw>)
      requires Valid()
      ensures forall c :: c in Coords(draws) <==> c in chunks && InSquare(c, ChunkOf(target, chunkWidth), renderDistance)
      ensures Distinct(Coords(draws))
      ensures Coords(draws) == Visible(chunkOrder, ChunkOf(target, chunkWidth), renderDistance)
      ensures forall k :: 0 <= k < |draws| ==> (draws[k].coord in chunks
        && draws[k].vbo == chunks[draws[k].coord].vbo
        && draws[k].vertexCount == chunks[draws[k].coord].vertexCount)
    {
      var center := ChunkOf(target, chunkWidth);
      var visible := Square(center, renderDistance);
      draws := [];
      for k := 0 to |chunkOrder|
        invariant Coords(draws) == Visible(chunkOrder[..k], center, renderDistance)
        invariant forall n :: 0 <= n < |draws| ==> (draws[n].coord in chunks
          && draws[n].vbo == chunks[draws[n].coord].vbo
          && draws[n].vertexCount == chunks[draws[n].coord].vertexCount)
      {
        var coord := chunkOrder[k];
        assert chunkOrder[..k + 1][..k] == chunkOrder[..k];
        if coord in visible {
          var chunk := chunks[coord];
          assert Coords(draws + [Draw(coord, chunk.vbo, chunk.vertexCount)]) == Coords(draws) + [coord];
          draws := draws + [Draw(coord, chunk.vbo, chunk.vertexCount)];
        }
      }
      assert chunkOrder[..|chunkOrder|] == chunkOrder;
      VisibleDistinct(chunkOrder, center, renderDistance);
      forall c ensures c in Coords(draws) <==> c in chunks && InSquare(c, center, renderDistance) {
        VisibleMembers(chunkOrder, center, renderDistance, c);
      }
    }

    /** `cleanup`: free every stored buffer once, empty both dictionaries. */
    method Cleanup() returns (freed: seq<nat>)
      requires Valid()
      modifies this
      ensures Valid()
      ensures chunks == map[] && chunkOrder == [] && futures == []
      ensures |freed| == |old(chunkOrder)|
      ensures forall k :: 0 <= k < |freed| ==> freed[k] == old(chunks)[old(chunkOrder)[k]].vbo
      ensures forall k, n :: 0 <= k < n < |freed| ==> freed[k] != freed[n]
    {
      freed := [];
      for k := 0 to |chunkOrder|
        invariant |freed| == k
        invariant forall n :: 0 <= n < k ==> freed[n] == chunks[chunkOrder[n]].vbo
      {
        freed := freed + [chunks[chunkOrder[k]].vbo];
      }
      chunks := map[];
      chunkOrder := [];
      futures := [];
    }
  }

  // ---------------------------------------------------------------------
  // Lemmas about submission.

  /** A coordinate ends up Pending iff it was Pending, or it is in the square and not Ready. */
  lemma {:induction false} SubmitMembers(futs: seq<Coord>, cs: seq<Coord>, ready: set<Coord>, c: Coord)
    ensures c in Submit(futs, cs, ready) <==> c in futs || (c in cs && c !in ready)
  {
    if cs != [] {
      var init := cs[..|cs| - 1];
      SubmitMembers(futs, init, ready, c);
      assert cs == init + [cs[|cs| - 1]];
    }
  }

  /** Earlier futures keep their place: submission only appends. */
  lemma {:induction false} SubmitPrefix(futs: seq<Coord>, cs: seq<Coord>, ready: set<Coord>)
    ensures |futs| <= |Submit(futs, cs, ready)|
    ensures Submit(futs, cs, ready)[..|futs|] == futs
  {
    if cs != [] {
      SubmitPrefix(futs, cs[..|cs| - 1], ready);
    }
  }

  /**
   * No duplicate submission: the futures stay distinct, and nothing Ready
   * or already Pending is submitted.
   */
  lemma {:induction false} SubmitFresh(futs: seq<Coord>, cs: seq<Coord>, ready: set<Coord>)
    requires Distinct(futs)
    ensures Distinct(Submit(futs, cs, ready))
    ensures forall k :: |futs| <= k < |Submit(futs, cs, ready)| ==>
      Submit(futs, cs, ready)[k] !in ready && Submit(futs, cs, ready)[k] !in futs
  {
    if cs != [] {
      var init := cs[..|cs| - 1];
      SubmitFresh(futs, init, ready);
      SubmitPrefix(futs, init, ready);
    }
  }

  /** After submission every coordinate of the square is Ready or Pending. */
  lemma SquareCovered(futs: seq<Coord>, center: Coord, r: int, ready: set<Coord>, c: Coord)
    requires InSquare(c, center, r)
    ensures c in ready || c in Submit(futs, SquareSeq(center, r), ready)
  {
    SquareSeqMembers(center, r, c);
    SubmitMembers(futs, SquareSeq(center, r), ready, c);
  }

  /**
   * After the preload, a coordinate of the preload square is Ready iff it
   * was Ready before or its job succeeded.
   */
  lemma PreloadCoverage(futs: seq<Coord>, order: seq<Coord>, ready: set<Coord>, center: Coord, r: int,
                        succeeds: Coord -> bool, c: Coord)
    requires forall x :: x in order <==> x in ready
    requires InSquare(c, center, r)
    ensures c in order + Keep(Submit(futs, SquareSeq(center, r), ready), succeeds) <==> c in ready || succeeds(c)
  {
    SquareSeqMembers(center, r, c);
    SubmitMembers(futs, SquareSeq(center, r), ready, c);
    KeepMembers(Submit(futs, SquareSeq(center, r), ready), succeeds, c);
  }

  /** Submitting the same square twice in a row adds nothing the second time. */
  lemma {:induction false} SubmitIdempotent(futs: seq<Coord>, cs: seq<Coord>, ready: set<Coord>)
    ensures Submit(Submit(futs, cs, ready), cs, ready) == Submit(futs, cs, ready)
  {
    var f := Submit(futs, cs, ready);
    forall n | 0 <= n <= |cs| ensures Submit(f, cs[..n], ready) == f {
      SubmitStable(f, cs, ready, n, futs);
    }
    assert cs[..|cs|] == cs;
  }

  lemma {:induction false} SubmitStable(f: seq<Coord>, cs: seq<Coord>, ready: set<Coord>, n: nat, futs: seq<Coord>)
    requires f == Submit(futs, cs, ready) && n <= |cs|
    ensures Submit(f, cs[..n], ready) == f
  {
    if n > 0 {
      SubmitStable(f, cs, ready, n - 1, futs);
      assert cs[..n][..n - 1] == cs[..n - 1];
      var c := cs[n - 1];
      SubmitMembers(futs, cs, ready, c);
      assert c in ready || c in f;
    }
  }

  lemma SubmitStep(futs: seq<Coord>, cs: seq<Coord>, c: Coord, ready: set<Coord>)
    ensures var f := Submit(futs, cs, ready);
      Submit(futs, cs + [c], ready) == if c in ready || c in f then f else f + [c]
  {
    assert (cs + [c])[..|cs|] == cs;
  }

  /** One step of the inner loop: submitting `coord` if it is neither Ready nor Pending keeps the dictionaries consistent. */
  lemma SubmitOne(chunks: map<Coord, ChunkRecord>, order: seq<Coord>, futs: seq<Coord>, start: seq<Coord>,
                  visited: seq<Coord>, coord: Coord)
    requires DictsOk(chunks, order, futs) && futs == Submit(start, visited, chunks.Keys)
    ensures var f := if coord !in chunks && coord !in futs then futs + [coord] else futs;
      DictsOk(chunks, order, f) && f == Submit(start, visited + [coord], chunks.Keys)
  {
    SubmitStep(start, visited, coord, chunks.Keys);
  }

  lemma RowAppend(before: seq<Coord>, x: int, zs: seq<int>, b: int)
    requires 0 <= b < |zs|
    ensures before + Row(x, zs[..b + 1]) == before + Row(x, zs[..b]) + [(x, zs[b])]
  {
    RowStep(x, zs, b);
  }

  lemma RowsStep(xs: seq<int>, zs: seq<int>, a: int)
    requires 0 <= a < |xs|
    ensures Rows(xs[..a + 1], zs) == Rows(xs[..a], zs) + Row(xs[a], zs)
  {
    assert xs[..a + 1][..a] == xs[..a];
  }

  lemma RowStep(x: int, zs: seq<int>, b: int)
    requires 0 <= b < |zs|
    ensures Row(x, zs[..b + 1]) == Row(x, zs[..b]) + [(x, zs[b])]
  {
  }

  // ---------------------------------------------------------------------
  // Lemmas about deletion and draining.

  lemma {:induction false} MinusMembersAll(s: seq<Coord>, rm: set<Coord>)
    ensures forall c :: c in Minus(s, rm) <==> c in s && c !in rm
  {
    if s != [] {
      MinusMembersAll(s[..|s| - 1], rm);
      assert s == s[..|s| - 1] + [s[|s| - 1]];
    }
  }

  lemma MinusMember(s: seq<Coord>, rm: set<Coord>, c: Coord)
    ensures c in Minus(s, rm) <==> c in s && c !in rm
  {
    MinusMembersAll(s, rm);
  }

  lemma {:induction false} MinusDistinct(s: seq<Coord>, rm: set<Coord>)
    requires Distinct(s)
    ensures Distinct(Minus(s, rm))
  {
    if s != [] {
      var init := s[..|s| - 1];
      MinusDistinct(init, rm);
      MinusMembersAll(init, rm);
      assert s == init + [s[|s| - 1]];
    }
  }

  lemma MinusDistinctOne(s: seq<Coord>, c: Coord)
    requires Distinct(s)
    ensures Distinct(Minus(s, {c}))
  {
    MinusDistinct(s, {c});
  }

  /** Deleting one more key after a set of keys is deleting their union. */
  lemma {:induction false} MinusTwice(s: seq<Coord>, rm: set<Coord>, c: Coord)
    ensures Minus(Minus(s, rm), {c}) == Minus(s, rm + {c})
  {
    if s != [] {
      var init := s[..|s| - 1];
      var last := s[|s| - 1];
      MinusTwice(init, rm, c);
      var m := Minus(init, rm);
      if last in rm {
        assert Minus(s, rm) == m;
        assert Minus(s, rm + {c}) == Minus(init, rm + {c});
      } else {
        assert Minus(s, rm) == m + [last];
        assert (m + [last])[..|m|] == m;
        assert Minus(m + [last], {c}) == Minus(m, {c}) + (if last in {c} then [] else [last]);
      }
    }
  }

  /** Before the first iteration nothing has been processed. */
  lemma ProcessedNone(snapshot: seq<Coord>, order0: seq<Coord>, ok: Coord -> bool)
    ensures Minus(snapshot, Elems([])) == snapshot && order0 + Keep([], ok) == order0
  {
    MinusNothing(snapshot);
  }

  /** Processing one more future: delete its key, and append it to the Ready order if it succeeded. */
  lemma ProcessStep(snapshot: seq<Coord>, done: seq<Coord>, order0: seq<Coord>, ok: Coord -> bool, c: Coord)
    ensures Minus(Minus(snapshot, Elems(done)), {c}) == Minus(snapshot, Elems(done + [c]))
    ensures order0 + Keep(done, ok) + (if ok(c) then [c] else []) == order0 + Keep(done + [c], ok)
  {
    MinusTwice(snapshot, Elems(done), c);
    ElemsAppend(done, c);
    KeepAppend(done, ok, c);
  }

  /**
   * When the drain loop stops, either every future was looked at with at
   * most `limit` of them done, or `limit` done ones were processed: in both
   * cases what was processed is the first `limit` done futures.
   */
  lemma DrainExit(s: seq<Coord>, poll: Coord -> Poll, i: nat, limit: nat)
    requires i <= |s| && |DoneIn(s[..i], poll)| <= limit
    requires i == |s| || |DoneIn(s[..i], poll)| == limit
    ensures Drained(s, poll, limit) == DoneIn(s[..i], poll)
  {
    assert s[..|s|] == s;
    DoneInPrefix(s, poll, i, |s|);
  }

  lemma {:induction false} MinusNothing(s: seq<Coord>)
    ensures Minus(s, {}) == s
  {
    if s != [] {
      MinusNothing(s[..|s| - 1]);
      assert s == s[..|s| - 1] + [s[|s| - 1]];
    }
  }

  /** Deleting every key leaves the dictionary empty. */
  lemma {:induction false} MinusCovered(s: seq<Coord>, rm: set<Coord>)
    requires forall k :: 0 <= k < |s| ==> s[k] in rm
    ensures Minus(s, rm) == []
  {
    if s != [] {
      MinusCovered(s[..|s| - 1], rm);
    }
  }

  lemma DoneInStep(s: seq<Coord>, poll: Coord -> Poll, i: int)
    requires 0 <= i < |s|
    ensures Done(poll(s[i])) ==> DoneIn(s[..i + 1], poll) == DoneIn(s[..i], poll) + [s[i]]
    ensures !Done(poll(s[i])) ==> DoneIn(s[..i + 1], poll) == DoneIn(s[..i], poll)
  {
    assert s[..i + 1][..i] == s[..i];
  }

  lemma KeepAppend(d: seq<Coord>, ok: Coord -> bool, c: Coord)
    ensures Keep(d + [c], ok) == Keep(d, ok) + (if ok(c) then [c] else [])
  {
    assert (d + [c])[..|d|] == d;
  }

  lemma {:induction false} DoneInWithin(s: seq<Coord>, poll: Coord -> Poll)
    ensures forall c :: c in DoneIn(s, poll) <==> c in s && Done(poll(c))
  {
    if s != [] {
      DoneInWithin(s[..|s| - 1], poll);
      assert s == s[..|s| - 1] + [s[|s| - 1]];
    }
  }

  lemma DoneInMember(s: seq<Coord>, poll: Coord -> Poll, c: Coord)
    ensures c in DoneIn(s, poll) <==> c in s && Done(poll(c))
  {
    DoneInWithin(s, poll);
  }

  /** The done futures among a prefix are a prefix of the done futures. */
  lemma {:induction false} DoneInPrefix(s: seq<Coord>, poll: Coord -> Poll, i: nat, j: nat)
    requires i <= j <= |s|
    ensures |DoneIn(s[..i], poll)| <= |DoneIn(s[..j], poll)|
    ensures DoneIn(s[..j], poll)[..|DoneIn(s[..i], poll)|] == DoneIn(s[..i], poll)
  {
    if i < j {
      DoneInPrefix(s, poll, i, j - 1);
      assert s[..j][..j - 1] == s[..j - 1];
    }
  }

  lemma PrefixStep(s: seq<Coord>, i: int)
    requires 0 <= i < |s|
    ensures s[..i + 1] == s[..i] + [s[i]]
  {
  }

  lemma DistinctPrefixExcludes(s: seq<Coord>, i: int)
    requires Distinct(s) && 0 <= i < |s|
    ensures s[i] !in s[..i]
  {
  }

  lemma {:induction false} KeepMembers(s: seq<Coord>, ok: Coord -> bool, c: Coord)
    ensures c in Keep(s, ok) <==> c in s && ok(c)
  {
    if s != [] {
      KeepMembers(s[..|s| - 1], ok, c);
      assert s == s[..|s| - 1] + [s[|s| - 1]];
    }
  }

  lemma {:induction false} VisibleMembers(s: seq<Coord>, center: Coord, r: int, c: Coord)
    ensures c in Visible(s, center, r) <==> c in s && InSquare(c, center, r)
  {
    if s != [] {
      VisibleMembers(s[..|s| - 1], center, r, c);
      assert s == s[..|s| - 1] + [s[|s| - 1]];
    }
  }

  lemma {:induction false} VisibleDistinct(s: seq<Coord>, center: Coord, r: int)
    requires Distinct(s)
    ensures Distinct(Visible(s, center, r))
  {
    if s != [] {
      var init := s[..|s| - 1];
      VisibleDistinct(init, center, r);
      VisibleMembers(init, center, r, s[|s| - 1]);
      assert s == init + [s[|s| - 1]];
    }
  }

  /**
   * One `update` drains at most `chunks_per_update` futures, each of them
   * done; a job still running keeps its future; a failed job leaves its
   * coordinate in neither dictionary, so it can be submitted again.
   */
  lemma DrainBounds(futs: seq<Coord>, poll: Coord -> Poll, limit: nat, c: Coord)
    ensures |Drained(futs, poll, limit)| <= limit
    ensures c in Drained(futs, poll, limit) ==> c in futs && Done(poll(c))
    ensures c in futs && poll(c) == Running ==> c in Minus(futs, Elems(Drained(futs, poll, limit)))
    ensures c in Drained(futs, poll, limit) && poll(c) == Failed ==>
      c !in Minus(futs, Elems(Drained(futs, poll, limit))) && c !in Keep(Drained(futs, poll, limit), FinishedBy(poll))
  {
    var d := Drained(futs, poll, limit);
    var all := DoneIn(futs, poll);
    DoneInWithin(futs, poll);
    assert d == all[..|d|];
    MinusMembersAll(futs, Elems(d));
    KeepMembers(d, FinishedBy(poll), c);
    if c in d {
      assert c in all;
    }
  }
}
