/**
 * What `ChunkMesh::new` (client/src/render/chunk_renderer.rs) computes, as
 * functions: which block faces are visible, in which order they are emitted,
 * and the packed vertices of the resulting mesh.
 *
 * The blocks are visited in flat storage order (index 0 .. CHUNK_VOLUME - 1)
 * and, for each solid block, the six directions in `DIRECTION_TO_VECTOR`
 * order. A face is visible when the block across it is air; that block is
 * read from the chunk itself when it lies inside the chunk and from the
 * client's chunk store otherwise.
 */
module MeshSpec {
  import opened Wrappers
  import opened Chunks
  import opened ChunkManagement
  import opened MeshVertex

  /** The chunk store the mesh builder falls back to at the chunk's edges. */
  type Store = map<IVec3, ChunkData>

  /** `MAX_QUADS`: the quads of a 3D chessboard, half the blocks with six faces each. */
  const MAX_QUADS: nat := CHUNK_VOLUME / 2 * 6

  /** The block across face `d` of local block `l`: `try_get_block`, else the store. */
  function NeighbourBlock(c: ChunkData, store: Store, l: UVec3, d: nat): BlockId
    requires d < 6
  {
    var n := l.Plus(DirectionToVector(d));
    match c.TryGetBlock(AsUVec3(n))
    case Some(b) => b
    case None => GetBlock(store, n.Plus(c.pos.TimesChunkSize()))
  }

  /**
   * The neighbour comes from the chunk exactly when it lies inside the
   * chunk, and otherwise from the store at its world position, where a
   * chunk that is not loaded reads as air.
   */
  lemma NeighbourBlockSource(c: ChunkData, store: Store, l: UVec3, d: nat)
    requires InChunk(l) && d < 6
    ensures var n := l.Plus(DirectionToVector(d));
      && (InChunk(n) ==> n.IsU32() && PosToIndex(n) < CHUNK_VOLUME && NeighbourBlock(c, store, l, d) == c.GetBlock(n))
      && (!InChunk(n) ==> NeighbourBlock(c, store, l, d) == GetBlock(store, n.Plus(c.pos.TimesChunkSize())))
      && (!InChunk(n) && ChunkOf(n.Plus(c.pos.TimesChunkSize())) !in store ==> NeighbourBlock(c, store, l, d) == 0)
  {
    var n := l.Plus(DirectionToVector(d));
    DirectionsAreUnitAxes();
    if InChunk(n) {
      assert AsUVec3(n) == n;
    } else {
      assert !InChunk(AsUVec3(n));
    }
  }

  /** The block stored at flat index `i`, read as `chunk.get_block(block_pos)`. */
  function BlockAt(c: ChunkData, i: nat): BlockId
    requires i < CHUNK_VOLUME
  {
    IndexToPosInverse(i);
    c.GetBlock(IndexToPos(i))
  }

  /** Whether a quad is emitted for face `d` of the block at flat index `i`. */
  predicate Emits(c: ChunkData, store: Store, i: nat, d: nat)
    requires i < CHUNK_VOLUME && d < 6
  {
    BlockAt(c, i) != 0 && NeighbourBlock(c, store, IndexToPos(i), d) == 0
  }

  /**
   * A face whose neighbour lies inside the chunk is emitted exactly when the
   * block is solid and that neighbour, read from the chunk, is air.
   */
  lemma EmitsInside(c: ChunkData, store: Store, i: nat, d: nat, j: nat)
    requires i < CHUNK_VOLUME && d < 6
    requires InChunk(IndexToPos(i).Plus(DirectionToVector(d)))
    requires j == PosToIndex(IndexToPos(i).Plus(DirectionToVector(d)))
    ensures j < CHUNK_VOLUME
    ensures Emits(c, store, i, d) <==> BlockAt(c, i) != 0 && BlockAt(c, j) == 0
  {
    var n := IndexToPos(i).Plus(DirectionToVector(d));
    NeighbourBlockSource(c, store, IndexToPos(i), d);
    PosToIndexInRange(n);
  }

  /** One emitted quad: face `dir` of the block at flat index `block`. */
  datatype Face = Face(block: nat, dir: nat) {
    predicate Valid() { block < CHUNK_VOLUME && dir < 6 }
  }

  /** Every face of the list names a block of the chunk and one of the six directions. */
  predicate ValidFaces(fs: seq<Face>) {
    forall j | 0 <= j < |fs| :: fs[j].Valid()
  }

  /** A visibility table: one row per block, one entry per direction. */
  predicate IsTable(v: seq<seq<bool>>) {
    |v| == CHUNK_VOLUME && forall i | 0 <= i < |v| :: |v[i]| == 6
  }

  /** The visibility table of chunk `c`: entry `[i][d]` says whether face `d` of block `i` is emitted. */
  function Visible(c: ChunkData, store: Store): (v: seq<seq<bool>>)
    ensures IsTable(v)
    ensures forall i, d | 0 <= i < CHUNK_VOLUME && 0 <= d < 6 :: v[i][d] == Emits(c, store, i, d)
  {
    seq(CHUNK_VOLUME, i requires 0 <= i < CHUNK_VOLUME => seq(6, d requires 0 <= d < 6 => Emits(c, store, i, d)))
  }

  /** The visible faces of block `i` with direction below `d`, in direction order. */
  function BlockFaces(v: seq<seq<bool>>, i: nat, d: nat): (fs: seq<Face>)
    requires IsTable(v) && i < CHUNK_VOLUME && d <= 6
    ensures |fs| <= d
    ensures forall f | f in fs :: f.Valid() && f.block == i && f.dir < d
  {
    if d == 0 then []
    else BlockFaces(v, i, d - 1) + (if v[i][d - 1] then [Face(i, d - 1)] else [])
  }

  /** The visible faces of the blocks below index `n`, in the order `ChunkMesh::new` emits them. */
  function Faces(v: seq<seq<bool>>, n: nat): (fs: seq<Face>)
    requires IsTable(v) && n <= CHUNK_VOLUME
    ensures ValidFaces(fs)
    ensures forall f | f in fs :: f.block < n
  {
    if n == 0 then []
    else
      var fs := Faces(v, n - 1) + BlockFaces(v, n - 1, 6);
      assert forall j | 0 <= j < |fs| :: fs[j] in fs;
      fs
  }

  /** The quads of `qs`, one after another. */
  function Flatten<T>(qs: seq<seq<T>>): seq<T> {
    if qs == [] then [] else Flatten(qs[..|qs| - 1]) + qs[|qs| - 1]
  }

  /** Each quad's vertices: the four `add_face` writes for its face. */
  function Quads(fs: seq<Face>): (qs: seq<seq<Vertex>>)
    requires ValidFaces(fs)
    ensures |qs| == |fs|
    ensures forall j | 0 <= j < |qs| :: |qs[j]| == 4
  {
    seq(|fs|, j requires 0 <= j < |fs| => FaceVerts(IndexToPos(fs[j].block), fs[j].dir))
  }

  /** The four vertices of each face, one face after another. */
  function QuadVerts(fs: seq<Face>): (vs: seq<Vertex>)
    requires ValidFaces(fs)
    ensures |vs| == 4 * |fs|
  {
    FlattenLength(Quads(fs));
    Flatten(Quads(fs))
  }

  /** A built mesh: its packed vertices and the chunk it shows. */
  datatype ChunkMesh = ChunkMesh(vertices: seq<Vertex>, chunkPos: IVec3)

  /** The mesh of chunk `c`: `None` when no face is visible. */
  function MeshFor(c: ChunkData, store: Store): Option<ChunkMesh> {
    var fs := Faces(Visible(c, store), CHUNK_VOLUME);
    if |fs| > 0 then Some(ChunkMesh(QuadVerts(fs), c.pos)) else None
  }

  /** Face `d` of block `i` is in the block's list exactly when the table marks it visible. */
  lemma {:induction false} BlockFacesExactly(v: seq<seq<bool>>, i: nat, d: nat, f: Face)
    requires IsTable(v) && i < CHUNK_VOLUME && d <= 6
    ensures f in BlockFaces(v, i, d) <==> f.block == i && f.dir < d && v[i][f.dir]
  {
    if d > 0 {
      BlockFacesExactly(v, i, d - 1, f);
    }
  }

  /** A face of a block below `n` is in the list exactly when the table marks it visible. */
  lemma {:induction false} FacesExactly(v: seq<seq<bool>>, n: nat, f: Face)
    requires IsTable(v) && n <= CHUNK_VOLUME
    ensures f in Faces(v, n) <==> f.Valid() && f.block < n && v[f.block][f.dir]
  {
    if n > 0 {
      FacesExactly(v, n - 1, f);
      BlockFacesExactly(v, n - 1, 6, f);
    }
  }

  /**
   * The emitted faces of a chunk are exactly the visible ones: a face is in
   * the list iff its block is solid and the block across it is air.
   */
  lemma ChunkFacesExactly(c: ChunkData, store: Store, f: Face)
    ensures f in Faces(Visible(c, store), CHUNK_VOLUME) <==>
      f.Valid() && BlockAt(c, f.block) != 0 && NeighbourBlock(c, store, IndexToPos(f.block), f.dir) == 0
  {
    FacesExactly(Visible(c, store), CHUNK_VOLUME, f);
  }

  /** Face f comes strictly before face g in the emission order. */
  predicate EmittedBefore(f: Face, g: Face) {
    f.block < g.block || (f.block == g.block && f.dir < g.dir)
  }

  /** Within a block, faces come in increasing direction order. */
  lemma {:induction false} BlockFacesOrdered(v: seq<seq<bool>>, i: nat, d: nat)
    requires IsTable(v) && i < CHUNK_VOLUME && d <= 6
    ensures forall j, k | 0 <= j < k < |BlockFaces(v, i, d)| ::
      EmittedBefore(BlockFaces(v, i, d)[j], BlockFaces(v, i, d)[k])
  {
    if d > 0 {
      BlockFacesOrdered(v, i, d - 1);
      var prev := BlockFaces(v, i, d - 1);
      forall j | 0 <= j < |prev|
        ensures prev[j].dir < d - 1
      {
        assert prev[j] in prev;
      }
    }
  }

  /** Faces are emitted in strictly increasing (block, direction) order, so none is emitted twice. */
  lemma {:induction false} FacesOrdered(v: seq<seq<bool>>, n: nat)
    requires IsTable(v) && n <= CHUNK_VOLUME
    ensures forall j, k | 0 <= j < k < |Faces(v, n)| ::
      EmittedBefore(Faces(v, n)[j], Faces(v, n)[k])
  {
    if n > 0 {
      FacesOrdered(v, n - 1);
      BlockFacesOrdered(v, n - 1, 6);
      var prev := Faces(v, n - 1);
      var last := BlockFaces(v, n - 1, 6);
      forall j, k | 0 <= j < |prev| && 0 <= k < |last|
        ensures EmittedBefore(prev[j], last[k])
      {
        assert prev[j] in prev;
        assert last[k] in last;
      }
    }
  }

  /** Four entries per quad. */
  lemma {:induction false} FlattenLength<T>(qs: seq<seq<T>>)
    requires forall j | 0 <= j < |qs| :: |qs[j]| == 4
    ensures |Flatten(qs)| == 4 * |qs|
  {
    if qs != [] {
      FlattenLength(qs[..|qs| - 1]);
    }
  }

  /** The quads of a prefix flatten to a prefix. */
  lemma {:induction false} FlattenPrefix<T>(qs: seq<seq<T>>, k: nat)
    requires forall j | 0 <= j < |qs| :: |qs[j]| == 4
    requires k <= |qs|
    ensures 4 * k <= |Flatten(qs)| && Flatten(qs)[..4 * k] == Flatten(qs[..k])
    decreases |qs|
  {
    FlattenLength(qs);
    if k < |qs| {
      var init := qs[..|qs| - 1];
      assert init[..k] == qs[..k];
      FlattenPrefix(init, k);
      FlattenLength(init);
      assert Flatten(qs)[..4 * k] == Flatten(init)[..4 * k];
    } else {
      assert qs[..k] == qs;
    }
  }

  /** Entries 4q .. 4q + 4 of the flattened list are quad q. */
  lemma FlattenAt<T>(qs: seq<seq<T>>, q: nat)
    requires forall j | 0 <= j < |qs| :: |qs[j]| == 4
    requires q < |qs|
    ensures 4 * q + 4 <= |Flatten(qs)| && Flatten(qs)[4 * q .. 4 * q + 4] == qs[q]
  {
    FlattenPrefix(qs, q + 1);
    var pre := qs[..q + 1];
    assert pre[..q] == qs[..q];
    FlattenLength(pre[..q]);
    assert Flatten(qs)[4 * q .. 4 * q + 4] == Flatten(pre)[4 * q ..];
  }

  /** Quad q of the vertex list is the four vertices of face q. */
  lemma QuadVertsAt(fs: seq<Face>, q: nat)
    requires ValidFaces(fs)
    requires q < |fs|
    ensures QuadVerts(fs)[4 * q .. 4 * q + 4] == FaceVerts(IndexToPos(fs[q].block), fs[q].dir)
  {
    FlattenAt(Quads(fs), q);
  }

  /** Appending a face appends its four vertices. */
  lemma QuadVertsAppend(fs: seq<Face>, f: Face)
    requires ValidFaces(fs)
    requires f.Valid()
    ensures QuadVerts(fs + [f]) == QuadVerts(fs) + FaceVerts(IndexToPos(f.block), f.dir)
  {
    var qs := Quads(fs + [f]);
    assert qs[..|fs|] == Quads(fs);
  }

  /**
   * `ChunkMesh::new` returns `None` exactly when no block of the chunk has
   * a visible face, and a returned mesh shows the chunk's own position and
   * holds four vertices per visible face.
   */
  lemma MeshForCases(c: ChunkData, store: Store)
    ensures MeshFor(c, store).None? <==>
      forall i, d | 0 <= i < CHUNK_VOLUME && 0 <= d < 6 :: !Emits(c, store, i, d)
    ensures MeshFor(c, store).Some? ==>
      && MeshFor(c, store).value.chunkPos == c.pos
      && |MeshFor(c, store).value.vertices| == 4 * |Faces(Visible(c, store), CHUNK_VOLUME)|
  {
    var v := Visible(c, store);
    var fs := Faces(v, CHUNK_VOLUME);
    if fs != [] {
      FacesExactly(v, CHUNK_VOLUME, fs[0]);
    } else {
      forall i, d | 0 <= i < CHUNK_VOLUME && 0 <= d < 6
        ensures !Emits(c, store, i, d)
      {
        FacesExactly(v, CHUNK_VOLUME, Face(i, d));
      }
    }
  }

  /**
   * Every vertex of a mesh decodes to a corner inside [0, 32]^3 of the
   * chunk, to its position in the quad as corner index and to a direction
   * below 6, which is what the vertex shader relies on.
   */
  lemma MeshVerticesDecode(fs: seq<Face>, v: nat)
    requires ValidFaces(fs)
    requires v < |QuadVerts(fs)|
    ensures XBits(QuadVerts(fs)[v]) <= 32 && YBits(QuadVerts(fs)[v]) <= 32 && ZBits(QuadVerts(fs)[v]) <= 32
    ensures CornerBits(QuadVerts(fs)[v]) == (v % 4) as bv32
    ensures DirBits(QuadVerts(fs)[v]) == fs[v / 4].dir as bv32 && fs[v / 4].dir < 6
  {
    var q, r := v / 4, v % 4;
    assert v == 4 * q + r;
    QuadVertsAt(fs, q);
    var face := fs[q];
    var quad := FaceVerts(IndexToPos(face.block), face.dir);
    assert QuadVerts(fs)[v] == QuadVerts(fs)[4 * q .. 4 * q + 4][r] == quad[r];
    FaceVertsDecode(IndexToPos(face.block), face.dir, r);
  }
}
