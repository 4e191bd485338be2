/**
 * The chunk renderer's mesh building and mesh queue
 * (client/src/render/chunk_renderer.rs): `add_face` writes one face's four
 * packed vertices into the fixed vertex array, `ChunkMesh::new` walks the
 * chunk and emits the visible faces, and `chunk_mesh_gen` drains the
 * manager's update queue and evicts meshes that left the render distance.
 */
module ChunkRenderer {
  import opened Wrappers
  import opened Chunks
  import opened ChunkManagement
  import opened MeshVertex
  import opened MeshSpec
  import opened FaceBound

  /**
   * `add_face`: the four vertices of face `dir` of the block at `blockPos`
   * go to `vertexI .. vertexI + 3`, in corner order, and the returned index
   * is four further on; every other entry is left as it was.
   */
  method AddFace(verts: array<Vertex>, vertexI: nat, dir: nat, blockPos: UVec3) returns (next: nat)
    requires dir < 6 && InChunk(blockPos)
    requires vertexI + 4 <= verts.Length
    modifies verts
    ensures next == vertexI + 4
    ensures verts[..next] == old(verts[..vertexI]) + FaceVerts(blockPos, dir)
    ensures verts[next..] == old(verts[next..])
  {
    hide Pack, FaceVerts;
    ghost var face := FaceVerts(blockPos, dir);
    next := vertexI;
    for i := 0 to 4
      invariant next == vertexI + i
      invariant forall j | 0 <= j < verts.Length ::
        verts[j] == if vertexI <= j < next then face[j - vertexI] else old(verts[j])
    {
      var pos := Corner(dir, i).Plus(blockPos);
      verts[next] := Pack(pos, i, dir);
      FaceVertsAt(blockPos, dir, i);
      next := next + 1;
    }
    ghost var written := old(verts[..vertexI]) + face;
    assert forall j | 0 <= j < next :: verts[..next][j] == written[j];
  }

  /** The faces of a block only add to the faces emitted before it. */
  lemma {:induction false} BlockFacesBelowAll(v: seq<seq<bool>>, i: nat, d: nat)
    requires IsTable(v) && i < CHUNK_VOLUME && d < 6
    ensures |BlockFaces(v, i, d + 1)| <= |BlockFaces(v, i, 6)|
    decreases 6 - d
  {
    if d + 1 < 6 {
      BlockFacesBelowAll(v, i, d + 1);
    }
  }

  /** The faces of the first `i` blocks are no more than those of the first `n`, for `i <= n`. */
  lemma {:induction false} FacesGrow(v: seq<seq<bool>>, i: nat, n: nat)
    requires IsTable(v) && i <= n <= CHUNK_VOLUME
    ensures |Faces(v, i)| <= |Faces(v, n)|
    decreases n - i
  {
    if i < n {
      FacesGrow(v, i + 1, n);
    }
  }

  /** An air block shows no face. */
  lemma {:induction false} AirBlockFaces(v: seq<seq<bool>>, i: nat, d: nat)
    requires IsTable(v) && i < CHUNK_VOLUME && d <= 6
    requires forall e | 0 <= e < 6 :: !v[i][e]
    ensures BlockFaces(v, i, d) == []
  {
    if d > 0 {
      AirBlockFaces(v, i, d - 1);
    }
  }

  /** The blocks up to an air block show the same faces as the blocks before it. */
  lemma AirBlockShowsNothing(c: ChunkData, store: Store, i: nat)
    requires i < CHUNK_VOLUME && BlockAt(c, i) == 0
    ensures Faces(Visible(c, store), i + 1) == Faces(Visible(c, store), i)
  {
    var v := Visible(c, store);
    AirBlockFaces(v, i, 6);
    assert Faces(v, i + 1) == Faces(v, i) + [];
  }

  /** The faces emitted before direction `d` of block `i`. */
  function EmittedUpTo(v: seq<seq<bool>>, i: nat, d: nat): (fs: seq<Face>)
    requires IsTable(v) && i < CHUNK_VOLUME && d <= 6
    ensures ValidFaces(fs)
  {
    var fs := Faces(v, i) + BlockFaces(v, i, d);
    assert forall j | 0 <= j < |fs| :: fs[j] in fs;
    fs
  }

  /**
   * The direction loop starts after the blocks before `i`, adds face `d`
   * exactly when it is visible, and ends where block `i + 1` starts.
   */
  lemma EmittedUpToStep(v: seq<seq<bool>>, i: nat, d: nat)
    requires IsTable(v) && i < CHUNK_VOLUME && d < 6
    ensures EmittedUpTo(v, i, 0) == Faces(v, i)
    ensures EmittedUpTo(v, i, 6) == Faces(v, i + 1)
    ensures EmittedUpTo(v, i, d + 1) ==
      if v[i][d] then EmittedUpTo(v, i, d) + [Face(i, d)] else EmittedUpTo(v, i, d)
    ensures |EmittedUpTo(v, i, d + 1)| <= |Faces(v, i + 1)|
  {
    assert Faces(v, i) + BlockFaces(v, i, 0) == Faces(v, i);
    BlockFacesBelowAll(v, i, d);
  }

  /**
   * The direction loop of `ChunkMesh::new` for the solid block at flat index
   * `i`: each face whose neighbour is air, read from the chunk inside it and
   * from the chunk store at its edges, gets its four vertices, in direction
   * order, after those of the blocks before it.
   */
  method AddBlockFaces(c: ChunkData, store: Store, ghost v: seq<seq<bool>>, i: nat,
                       verts: array<Vertex>, vertexI: nat) returns (next: nat)
    requires v == Visible(c, store) && i < CHUNK_VOLUME && PosToIndex(IndexToPos(i)) == i
    requires c.GetBlock(IndexToPos(i)) != 0
    requires verts.Length == MAX_QUADS * 4
    requires vertexI == 4 * |Faces(v, i)| <= verts.Length && verts[..vertexI] == QuadVerts(Faces(v, i))
    modifies verts
    ensures next == 4 * |Faces(v, i + 1)| <= verts.Length
    ensures verts[..next] == QuadVerts(Faces(v, i + 1))
  {
    hide Pack, FaceVerts, QuadVerts, Visible, Faces, BlockFaces, EmittedUpTo;
    FacesAtMostMaxQuads(c, store);
    FacesGrow(v, i + 1, CHUNK_VOLUME);
    var blockPos := IndexToPos(i);
    var chunkBlockPos := c.pos.TimesChunkSize();
    next := vertexI;
    EmittedUpToStep(v, i, 0);
    for dir := 0 to 6
      invariant next == 4 * |EmittedUpTo(v, i, dir)| <= verts.Length
      invariant verts[..next] == QuadVerts(EmittedUpTo(v, i, dir))
    {
      var neighbourPos := blockPos.Plus(DirectionToVector(dir));
      var neighbour := match c.TryGetBlock(AsUVec3(neighbourPos))
        case Some(b) => b
        case None => GetBlock(store, neighbourPos.Plus(chunkBlockPos));
      assert v[i][dir] <==> neighbour == 0;
      EmittedUpToStep(v, i, dir);
      if neighbour == 0 {
        ghost var prefix := verts[..next];
        next := AddFace(verts, next, dir, blockPos);
        QuadVertsAppend(EmittedUpTo(v, i, dir), Face(i, dir));
      }
    }
    EmittedUpToStep(v, i, 5);
  }

  /**
   * The block loop of `ChunkMesh::new`, minus the upload: the vertex array
   * has room for `MAX_QUADS` quads, and its first `vertexI` entries are the
   * four vertices of every visible face, in emission order. The array never
   * overflows because no chunk shows more than `MAX_QUADS` faces.
   */
  method BuildVertices(c: ChunkData, store: Store) returns (verts: array<Vertex>, vertexI: nat)
    ensures fresh(verts) && verts.Length == MAX_QUADS * 4
    ensures vertexI == 4 * |Faces(Visible(c, store), CHUNK_VOLUME)| <= verts.Length
    ensures verts[..vertexI] == QuadVerts(Faces(Visible(c, store), CHUNK_VOLUME))
  {
    hide Pack, FaceVerts, QuadVerts, Visible, BlockFaces, Emits;
    verts := new Vertex[MAX_QUADS * 4](_ => 0);
    vertexI := 0;
    ghost var v := Visible(c, store);
    FacesAtMostMaxQuads(c, store);
    for i := 0 to CHUNK_VOLUME
      invariant vertexI == 4 * |Faces(v, i)| <= verts.Length
      invariant verts[..vertexI] == QuadVerts(Faces(v, i))
    {
      var blockPos := IndexToPos(i);
      IndexToPosInverse(i);
      if c.GetBlock(blockPos) == 0 {
        AirBlockShowsNothing(c, store, i);
        continue;
      }
      vertexI := AddBlockFaces(c, store, v, i, verts, vertexI);
      assert verts[..vertexI] == QuadVerts(Faces(v, i + 1));
    }
  }

  /**
   * `ChunkMesh::new` with the upload slice ending at the last written vertex:
   * the mesh of the chunk's visible faces at the chunk's position, or `None`
   * when it shows no face.
   */
  method NewChunkMesh(c: ChunkData, store: Store) returns (mesh: Option<ChunkMesh>)
    ensures mesh == MeshFor(c, store)
  {
    var verts, vertexI := BuildVertices(c, store);
    if vertexI > 0 {
      mesh := Some(ChunkMesh(verts[0..vertexI], c.pos));
    } else {
      mesh := None;
    }
  }

  /** The result of the upload step as written: a mesh (or none), or a slice out of range. */
  datatype Upload = OutOfRange | Uploaded(mesh: Option<ChunkMesh>)

  /**
   * The end of `ChunkMesh::new` as written: the vertex buffer is filled from
   * `verticies[0..vertex_i + 1]`, one entry past the last written vertex,
   * and the slice is out of range when that end passes the array.
   */
  function UploadAsWritten(verts: seq<Vertex>, vertexI: nat, chunkPos: IVec3): (u: Upload)
    ensures u.OutOfRange? <==> vertexI > 0 && vertexI + 1 > |verts|
    ensures u.Uploaded? && vertexI > 0 ==>
      u.mesh.Some? && |u.mesh.value.vertices| == vertexI + 1 && u.mesh.value.chunkPos == chunkPos
    ensures vertexI == 0 ==> u == Uploaded(None)
  {
    if vertexI > 0 then
      if vertexI + 1 <= |verts| then Uploaded(Some(ChunkMesh(verts[0..vertexI + 1], chunkPos)))
      else OutOfRange
    else Uploaded(None)
  }

  /** The 3D chessboard: a block is solid exactly when the sum of its coordinates is even. */
  function Chessboard(): ChunkData {
    ChunkData(seq(CHUNK_VOLUME, i requires 0 <= i < CHUNK_VOLUME =>
      var p := IndexToPos(i); if (p.x + p.y + p.z) % 2 == 0 then 1 else 0), IVec3(0, 0, 0))
  }

  /** A block of the chessboard is solid exactly when its coordinate sum is even. */
  lemma ChessboardAt(p: UVec3)
    requires InChunk(p)
    ensures PosToIndex(p) < CHUNK_VOLUME
    ensures Chessboard().GetBlock(p) == if (p.x + p.y + p.z) % 2 == 0 then 1 else 0
  {
    PosToIndexInRange(p);
  }

  /** A step along one direction changes the coordinate sum by one. */
  lemma DirectionSum(d: nat)
    requires d < 6
    ensures var e := DirectionToVector(d); e.x + e.y + e.z == 1 || e.x + e.y + e.z == -1
  {
  }

  /** One step away from an even sum is an odd sum. */
  lemma OddNeighbour(s: int, t: int)
    requires s % 2 == 0 && (t == s + 1 || t == s - 1)
    ensures t % 2 == 1
  {
    assert s == 2 * (s / 2);
  }

  /** Across every face of a solid chessboard block lies air: a hollow block inside, the empty store outside. */
  lemma ChessboardNeighbourAir(l: UVec3, d: nat)
    requires InChunk(l) && d < 6 && (l.x + l.y + l.z) % 2 == 0
    ensures NeighbourBlock(Chessboard(), map[], l, d) == 0
  {
    var n := l.Plus(DirectionToVector(d));
    NeighbourBlockSource(Chessboard(), map[], l, d);
    if InChunk(n) {
      ChessboardAt(n);
      DirectionSum(d);
      OddNeighbour(l.x + l.y + l.z, n.x + n.y + n.z);
    }
  }

  /** With nothing around it, every face of a solid chessboard block is visible. */
  lemma ChessboardFace(i: nat, d: nat)
    requires i < CHUNK_VOLUME && d < 6
    ensures Emits(Chessboard(), map[], i, d) <==> BlockAt(Chessboard(), i) != 0
  {
    var l := IndexToPos(i);
    IndexToPosInverse(i);
    ChessboardAt(l);
    if (l.x + l.y + l.z) % 2 == 0 {
      ChessboardNeighbourAir(l, d);
    }
  }

  /** A block whose faces are all visible, or all hidden, shows six faces or none. */
  lemma {:induction false} UniformBlockFaces(v: seq<seq<bool>>, i: nat, d: nat, shown: bool)
    requires IsTable(v) && i < CHUNK_VOLUME && d <= 6
    requires forall e | 0 <= e < 6 :: v[i][e] == shown
    ensures |BlockFaces(v, i, d)| == if shown then d else 0
  {
    if d > 0 {
      UniformBlockFaces(v, i, d - 1, shown);
    }
  }

  /** An even flat index and the next one are neighbours along x, on the same row. */
  lemma NextOnRow(i: nat)
    requires i + 1 < CHUNK_VOLUME && i % 2 == 0
    ensures IndexToPos(i + 1) == IndexToPos(i).Plus(IVec3(1, 0, 0))
  {
    var q, r := i / 32, i % 32;
    assert i == 32 * q + r && r % 2 == 0 && r <= 30;
    assert i + 1 == 32 * q + (r + 1);
    assert (i + 1) / 32 == q && (i + 1) % 32 == r + 1;
    assert i / (32 * 32) == q / 32 == (i + 1) / (32 * 32);
  }

  /** Exactly one of two neighbouring sums is even. */
  lemma ParitySucc(s: int)
    ensures (s % 2 == 0) != ((s + 1) % 2 == 0)
  {
  }

  /** A solid chessboard block shows all six faces, an air block none. */
  lemma ChessboardBlockFaces(i: nat)
    requires i < CHUNK_VOLUME
    ensures |BlockFaces(Visible(Chessboard(), map[]), i, 6)| == if BlockAt(Chessboard(), i) != 0 then 6 else 0
  {
    hide Chessboard, Emits, BlockFaces, Faces;
    var v := Visible(Chessboard(), map[]);
    var solid := BlockAt(Chessboard(), i) != 0;
    forall d | 0 <= d < 6
      ensures v[i][d] == solid
    {
      ChessboardFace(i, d);
    }
    UniformBlockFaces(v, i, 6, solid);
  }

  /** Blocks 2p and 2p + 1 lie side by side on a row, so exactly one of them is solid. */
  lemma ChessboardPairSolid(p: nat)
    requires 2 * p + 1 < CHUNK_VOLUME
    ensures (BlockAt(Chessboard(), 2 * p) != 0) != (BlockAt(Chessboard(), 2 * p + 1) != 0)
  {
    hide Chessboard, IndexToPos, PosToIndex;
    var a, b := IndexToPos(2 * p), IndexToPos(2 * p + 1);
    NextOnRow(2 * p);
    IndexToPosInverse(2 * p);
    IndexToPosInverse(2 * p + 1);
    ChessboardAt(a);
    ChessboardAt(b);
    ParitySucc(a.x + a.y + a.z);
  }

  /** One of blocks 2p and 2p + 1 is solid and shows six faces, the other none. */
  lemma ChessboardPair(p: nat)
    requires 2 * p + 1 < CHUNK_VOLUME
    ensures |BlockFaces(Visible(Chessboard(), map[]), 2 * p, 6)| + |BlockFaces(Visible(Chessboard(), map[]), 2 * p + 1, 6)| == 6
  {
    hide Chessboard, Visible, Emits, BlockFaces, Faces, BlockAt;
    ChessboardPairSolid(p);
    ChessboardBlockFaces(2 * p);
    ChessboardBlockFaces(2 * p + 1);
  }

  /** The first `2p` blocks of the chessboard show `6p` faces. */
  lemma {:induction false} ChessboardFaces(p: nat)
    requires 2 * p <= CHUNK_VOLUME
    ensures |Faces(Visible(Chessboard(), map[]), 2 * p)| == 6 * p
  {
    if p > 0 {
      ChessboardFaces(p - 1);
      ChessboardPair(p - 1);
    }
  }

  /**
   * The chessboard with no loaded neighbours shows exactly `MAX_QUADS`
   * faces, so `vertex_i` ends at the length of the vertex array and the
   * upload slice as written runs one past its end.
   */
  lemma ChessboardOverrunsUpload(verts: seq<Vertex>)
    requires |verts| == MAX_QUADS * 4
    ensures |Faces(Visible(Chessboard(), map[]), CHUNK_VOLUME)| == MAX_QUADS
    ensures UploadAsWritten(verts, 4 * |Faces(Visible(Chessboard(), map[]), CHUNK_VOLUME)|, IVec3(0, 0, 0)).OutOfRange?
  {
    hide Chessboard, Visible, Emits, BlockFaces, Faces;
    ChessboardFaces(CHUNK_VOLUME / 2);
  }

  /** `in_bounds(c, center, d)`: every axis of `c - center` lies strictly between `-d` and `d`. */
  predicate InBounds(c: IVec3, center: IVec3, d: int) {
    && -d < c.x - center.x < d
    && -d < c.y - center.y < d
    && -d < c.z - center.z < d
  }

  /**
   * A mesh is kept exactly when its chunk lies in the box `chunk_update`
   * loads around the same center, so no mesh of a loaded chunk is evicted.
   */
  lemma InBoundsIsLoadedBox(c: IVec3, center: IVec3)
    ensures InBounds(c, center, RENDER_DISTANCE) <==> InBox(c, center, RENDER_DISTANCE - 1)
  {
  }

  /** A chunk-mesh entity as the despawn query sees it. */
  datatype MeshEntity = MeshEntity(entity: EntityId, chunkPos: IVec3)

  /** The entities of `meshes` whose chunk is out of bounds of `center`, in query order. */
  function OutOfBounds(meshes: seq<MeshEntity>, center: IVec3): (gone: seq<EntityId>)
    ensures |gone| <= |meshes|
    ensures forall e :: e in gone <==>
      exists j | 0 <= j < |meshes| :: meshes[j].entity == e && !InBounds(meshes[j].chunkPos, center, RENDER_DISTANCE)
  {
    if meshes == [] then []
    else
      var m := meshes[|meshes| - 1];
      var init := OutOfBounds(meshes[..|meshes| - 1], center);
      assert forall j | 0 <= j < |meshes| - 1 :: meshes[..|meshes| - 1][j] == meshes[j];
      init + (if InBounds(m.chunkPos, center, RENDER_DISTANCE) then [] else [m.entity])
  }

  /** The meshes spawned for the chunks at `popped`, in order: one per chunk that shows a face. */
  function Spawned(chunkMap: map<IVec3, ChunkData>, popped: seq<IVec3>): (ms: seq<ChunkMesh>)
    requires forall p | p in popped :: p in chunkMap
    ensures |ms| <= |popped|
    ensures forall m | m in ms :: exists p | p in popped :: MeshFor(chunkMap[p], chunkMap) == Some(m)
  {
    if popped == [] then []
    else
      var p := popped[|popped| - 1];
      var init := Spawned(chunkMap, popped[..|popped| - 1]);
      init + match MeshFor(chunkMap[p], chunkMap) case Some(m) => [m] case None => []
  }

  /** The indices below `j` of the popped chunks that show a face. */
  ghost function ShowingBefore(chunkMap: map<IVec3, ChunkData>, popped: seq<IVec3>, j: nat): set<nat> {
    set i: nat | i < j && i < |popped| && popped[i] in chunkMap && MeshFor(chunkMap[popped[i]], chunkMap).Some?
  }

  /** Below `j`, the popped chunks that show a face are the same in `popped` and in any extension of it. */
  lemma ShowingBeforePrefix(chunkMap: map<IVec3, ChunkData>, popped: seq<IVec3>, more: seq<IVec3>, j: nat)
    requires j <= |popped|
    ensures ShowingBefore(chunkMap, popped + more, j) == ShowingBefore(chunkMap, popped, j)
  {
    hide MeshFor;
    forall i: nat | i < j
      ensures (popped + more)[i] == popped[i]
    {
    }
  }

  /** One mesh is spawned for every popped chunk that shows a face, and no more. */
  lemma {:induction false} SpawnedCount(chunkMap: map<IVec3, ChunkData>, popped: seq<IVec3>)
    requires forall p | p in popped :: p in chunkMap
    ensures |Spawned(chunkMap, popped)| == |ShowingBefore(chunkMap, popped, |popped|)|
  {
    hide MeshFor;
    if popped != [] {
      var n := |popped| - 1;
      var init := popped[..n];
      assert popped == init + [popped[n]];
      SpawnedCount(chunkMap, init);
      ShowingBeforePrefix(chunkMap, init, [popped[n]], n);
      var before := ShowingBefore(chunkMap, popped, n);
      if MeshFor(chunkMap[popped[n]], chunkMap).Some? {
        assert ShowingBefore(chunkMap, popped, |popped|) == before + {n};
        assert n !in before;
      } else {
        assert ShowingBefore(chunkMap, popped, |popped|) == before;
      }
    }
  }

  /**
   * The mesh of the j-th popped chunk, when it shows a face, is spawned at
   * the position given by the number of earlier popped chunks that show a
   * face: the meshes are spawned in pop order.
   */
  lemma {:induction false} SpawnedAt(chunkMap: map<IVec3, ChunkData>, popped: seq<IVec3>, j: nat)
    requires forall p | p in popped :: p in chunkMap
    requires j < |popped| && MeshFor(chunkMap[popped[j]], chunkMap).Some?
    ensures |ShowingBefore(chunkMap, popped, j)| < |Spawned(chunkMap, popped)|
    ensures Spawned(chunkMap, popped)[|ShowingBefore(chunkMap, popped, j)|] == MeshFor(chunkMap[popped[j]], chunkMap).value
  {
    hide MeshFor;
    var n := |popped| - 1;
    var init := popped[..n];
    assert popped == init + [popped[n]];
    var initMeshes := Spawned(chunkMap, init);
    if j == n {
      SpawnedCount(chunkMap, init);
      ShowingBeforePrefix(chunkMap, init, [popped[n]], n);
    } else {
      assert init[j] == popped[j];
      SpawnedAt(chunkMap, init, j);
      ShowingBeforePrefix(chunkMap, init, [popped[n]], j);
    }
  }

  /** The outcome of one `chunk_mesh_gen` tick; `Panicked` stands for a failed `unwrap`. */
  datatype Tick = Skipped | Panicked | Ran(spawned: seq<ChunkMesh>, despawned: seq<EntityId>)

  /** How many queued chunks one tick takes: at most four. */
  function Drained(queued: nat): (k: nat)
    ensures k <= queued && k <= 4
    ensures k < 4 ==> k == queued
  {
    if queued < 4 then queued else 4
  }

  /**
   * The first loop of `chunk_mesh_gen`: up to four times, take the chunk
   * coordinate at the front of the queue and build its mesh; `None` stands
   * for the panic of a coordinate that is not loaded.
   */
  method MeshQueued(mgr: ChunkManager) returns (spawned: Option<seq<ChunkMesh>>)
    modifies mgr`chunkUpdateQueue
    ensures var queue := old(mgr.chunkUpdateQueue);
      var popped := queue[..Drained(|queue|)];
      && (spawned.None? <==> exists j | 0 <= j < |popped| :: popped[j] !in mgr.chunkMap)
      && (spawned.Some? ==>
            && mgr.chunkUpdateQueue == queue[Drained(|queue|)..]
            && (forall p | p in popped :: p in mgr.chunkMap)
            && spawned.value == Spawned(mgr.chunkMap, popped))
  {
    hide Pack, FaceVerts, QuadVerts, Visible, Faces, MeshFor;
    ghost var queue := mgr.chunkUpdateQueue;
    ghost var k := Drained(|queue|);
    ghost var taken: nat := 0;
    var meshes: seq<ChunkMesh> := [];
    for n := 0 to 4
      invariant taken <= n && taken <= k && (taken < n ==> taken == k)
      invariant mgr.chunkUpdateQueue == queue[taken..]
      invariant forall p | p in queue[..taken] :: p in mgr.chunkMap
      invariant meshes == Spawned(mgr.chunkMap, queue[..taken])
    {
      if mgr.chunkUpdateQueue != [] {
        var chunkPos := mgr.chunkUpdateQueue[0];
        mgr.chunkUpdateQueue := mgr.chunkUpdateQueue[1..];
        if chunkPos !in mgr.chunkMap {
          assert queue[..k][taken] == chunkPos;
          return None;
        }
        var mesh := NewChunkMesh(mgr.chunkMap[chunkPos], mgr.chunkMap);
        assert queue[..taken + 1] == queue[..taken] + [chunkPos];
        if mesh.Some? {
          meshes := meshes + [mesh.value];
        }
        taken := taken + 1;
      }
    }
    spawned := Some(meshes);
  }

  /**
   * The second loop of `chunk_mesh_gen`: the entities of the meshes out of
   * bounds of the center. Each iteration unwraps the center, so with no
   * center it panics (`None`) as soon as there is a mesh.
   */
  method Despawn(center: Option<IVec3>, meshes: seq<MeshEntity>) returns (gone: Option<seq<EntityId>>)
    ensures center.Some? ==> gone == Some(OutOfBounds(meshes, center.value))
    ensures center.None? ==> gone == if meshes == [] then Some([]) else None
  {
    var despawned: seq<EntityId> := [];
    for j := 0 to |meshes|
      invariant center.Some? || j == 0
      invariant center.Some? ==> despawned == OutOfBounds(meshes[..j], center.value)
      invariant center.None? ==> despawned == []
    {
      if center.None? {
        return None;
      }
      assert meshes[..j + 1][..j] == meshes[..j];
      if !InBounds(meshes[j].chunkPos, center.value, RENDER_DISTANCE) {
        despawned := despawned + [meshes[j].entity];
      }
    }
    assert meshes[..|meshes|] == meshes;
    gone := Some(despawned);
  }

  /**
   * `chunk_mesh_gen`, given the chunk-mesh entities the query sees. While
   * chunks are still loading it does nothing. Otherwise it takes up to four
   * chunk coordinates from the front of the queue and spawns a mesh for each
   * of them that shows a face; it panics if one of them is not loaded. Then
   * it despawns every mesh whose chunk is out of bounds of the center, which
   * panics if there is no center and some mesh exists.
   */
  method ChunkMeshGen(mgr: ChunkManager, meshes: seq<MeshEntity>) returns (tick: Tick)
    modifies mgr`chunkUpdateQueue
    ensures mgr.chunksLeftLoading != 0 ==> tick == Skipped && mgr.chunkUpdateQueue == old(mgr.chunkUpdateQueue)
    ensures mgr.chunksLeftLoading == 0 ==>
      var queue := old(mgr.chunkUpdateQueue);
      var popped := queue[..Drained(|queue|)];
      && (tick.Panicked? <==>
            (exists j | 0 <= j < |popped| :: popped[j] !in mgr.chunkMap)
            || (mgr.chunkPosCenter.None? && meshes != []))
      && (tick.Ran? ==>
            && mgr.chunkUpdateQueue == queue[Drained(|queue|)..]
            && (forall p | p in popped :: p in mgr.chunkMap)
            && tick.spawned == Spawned(mgr.chunkMap, popped)
            && tick.despawned == if meshes == [] then [] else OutOfBounds(meshes, mgr.chunkPosCenter.value))
    ensures tick != Skipped ==> mgr.chunksLeftLoading == 0
  {
    hide Spawned, OutOfBounds;
    if mgr.chunksLeftLoading != 0 {
      return Skipped;
    }
    var spawned := MeshQueued(mgr);
    if spawned.None? {
      return Panicked;
    }
    var despawned := Despawn(mgr.chunkPosCenter, meshes);
    if despawned.None? {
      return Panicked;
    }
    tick := Ran(spawned.value, despawned.value);
  }
}
