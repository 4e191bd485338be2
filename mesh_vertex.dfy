/**
 * The packed chunk-mesh vertex and the cube tables of the chunk renderer
 * (client/src/render/chunk_renderer.rs). A vertex is one `u32`: bits 0-5 hold
 * x, 6-11 y, 12-17 z, 18-19 the corner of the quad and 20-22 the face
 * direction.
 */
module MeshVertex {
  import opened Chunks

  /** `Vertex(u32)`. */
  type Vertex = bv32

  /** The corners of the unit cube a face's corners are taken from. */
  const CUBE_VERTICES: seq<UVec3> := [
    IVec3(0, 0, 0), IVec3(1, 0, 0), IVec3(1, 1, 0), IVec3(0, 1, 0),
    IVec3(0, 0, 1), IVec3(1, 0, 1), IVec3(1, 1, 1), IVec3(0, 1, 1)
  ]

  /** Four `CUBE_VERTICES` indices per direction, in `DIRECTION_TO_VECTOR` order. */
  const CUBE_INDICES: seq<nat> := [
    6, 7, 4, 5,
    3, 2, 1, 0,
    2, 6, 5, 1,
    7, 3, 0, 4,
    2, 3, 7, 6,
    0, 1, 5, 4
  ]

  /** Every table lookup of `add_face` is in bounds and every corner is a 0/1 vector. */
  lemma CubeTablesWellFormed()
    ensures |CUBE_INDICES| == 24 && |CUBE_VERTICES| == 8
    ensures forall k | 0 <= k < 24 :: CUBE_INDICES[k] < 8
    ensures forall k | 0 <= k < 8 ::
      CUBE_VERTICES[k].x in {0, 1} && CUBE_VERTICES[k].y in {0, 1} && CUBE_VERTICES[k].z in {0, 1}
  {
  }

  /** Corner `k` (< 4) of the face of the unit cube that faces direction `d` (< 6). */
  function Corner(d: nat, k: nat): (v: UVec3)
    requires d < 6 && k < 4
    ensures 0 <= v.x <= 1 && 0 <= v.y <= 1 && 0 <= v.z <= 1
  {
    CUBE_VERTICES[CUBE_INDICES[d * 4 + k]]
  }

  /**
   * Component of `v` along the axis of direction `d`, measured so that the
   * side of the unit cube that `d` points at is at 1 and the other at 0.
   */
  function Depth(v: IVec3, d: nat): int
    requires d < 6
  {
    var e := DirectionToVector(d);
    if e.x + e.y + e.z > 0 then e.x * v.x + e.y * v.y + e.z * v.z
    else 1 + e.x * v.x + e.y * v.y + e.z * v.z
  }

  /** Corner k of direction d, read from the two tables. */
  lemma CornerOnSide(d: nat, k: nat)
    requires d < 6 && k < 4
    ensures Depth(Corner(d, k), d) == 1
  {
    var i := d * 4 + k;
    assert CUBE_INDICES[i] == [6, 7, 4, 5, 3, 2, 1, 0, 2, 6, 5, 1, 7, 3, 0, 4, 2, 3, 7, 6, 0, 1, 5, 4][i];
    if d == 0 {
      assert i in {0, 1, 2, 3};
    } else if d == 1 {
      assert i in {4, 5, 6, 7};
    } else if d == 2 {
      assert i in {8, 9, 10, 11};
    } else if d == 3 {
      assert i in {12, 13, 14, 15};
    } else if d == 4 {
      assert i in {16, 17, 18, 19};
    } else {
      assert i in {20, 21, 22, 23};
    }
  }

  /**
   * Every direction's quad is a full face of the block, on the side the
   * direction names: its corners lie on that side and are all different.
   */
  lemma FacesLieOnTheirSide()
    ensures forall d, k | 0 <= d < 6 && 0 <= k < 4 :: Depth(Corner(d, k), d) == 1
    ensures forall d, k, k' | 0 <= d < 6 && 0 <= k < k' < 4 :: Corner(d, k) != Corner(d, k')
  {
    forall d, k | 0 <= d < 6 && 0 <= k < 4
      ensures Depth(Corner(d, k), d) == 1
    {
      CornerOnSide(d, k);
    }
  }

  /** The bit layout of `add_face`: `x | y << 6 | z << 12 | corner << 18 | dir << 20` on `u32`. */
  function PackBits(x: bv32, y: bv32, z: bv32, corner: bv32, dir: bv32): bv32 {
    x | (y << 6) | (z << 12) | (corner << 18) | (dir << 20)
  }

  /** The fields, as the vertex shader reads them. */
  function XBits(v: bv32): bv32 { v & 0x3F }
  function YBits(v: bv32): bv32 { (v >> 6) & 0x3F }
  function ZBits(v: bv32): bv32 { (v >> 12) & 0x3F }
  function CornerBits(v: bv32): bv32 { (v >> 18) & 0x3 }
  function DirBits(v: bv32): bv32 { (v >> 20) & 0x7 }

  /** Fields that fit their widths are read back unchanged. */
  lemma PackBitsRoundTrip(x: bv32, y: bv32, z: bv32, corner: bv32, dir: bv32)
    requires x < 64 && y < 64 && z < 64 && corner < 4 && dir < 8
    ensures XBits(PackBits(x, y, z, corner, dir)) == x
    ensures YBits(PackBits(x, y, z, corner, dir)) == y
    ensures ZBits(PackBits(x, y, z, corner, dir)) == z
    ensures CornerBits(PackBits(x, y, z, corner, dir)) == corner
    ensures DirBits(PackBits(x, y, z, corner, dir)) == dir
    ensures PackBits(x, y, z, corner, dir) < 0x80_0000
  {
  }

  /** A small natural stays below the same bounds as a `u32`. */
  lemma SmallToBits(n: nat)
    requires n < 64
    ensures (n as bv32) < 64
    ensures n <= 32 ==> (n as bv32) <= 32
    ensures n < 8 ==> (n as bv32) < 8
    ensures n < 4 ==> (n as bv32) < 4
  {
  }

  /** The vertex `add_face` writes for corner `corner` of face `dir` at corner position `pos`. */
  function Pack(pos: UVec3, corner: nat, dir: nat): Vertex
    requires corner < 4 && dir < 6
  {
    PackBits(pos.x as bv32, pos.y as bv32, pos.z as bv32, corner as bv32, dir as bv32)
  }

  /**
   * Packing round trip: a corner position with every axis at most 32 (a
   * block corner inside a chunk), a corner index below 4 and a direction
   * below 6 all fit their fields, so the vertex shader reads back the same
   * `u32` values that were packed.
   */
  lemma PackRoundTrip(pos: UVec3, corner: nat, dir: nat)
    requires pos.x <= 32 && pos.y <= 32 && pos.z <= 32 && corner < 4 && dir < 6
    ensures XBits(Pack(pos, corner, dir)) == pos.x as bv32 <= 32
    ensures YBits(Pack(pos, corner, dir)) == pos.y as bv32 <= 32
    ensures ZBits(Pack(pos, corner, dir)) == pos.z as bv32 <= 32
    ensures CornerBits(Pack(pos, corner, dir)) == corner as bv32
    ensures DirBits(Pack(pos, corner, dir)) == dir as bv32
  {
    SmallToBits(pos.x);
    SmallToBits(pos.y);
    SmallToBits(pos.z);
    SmallToBits(corner);
    SmallToBits(dir);
    var x, y, z, c, d := pos.x as bv32, pos.y as bv32, pos.z as bv32, corner as bv32, dir as bv32;
    assert Pack(pos, corner, dir) == PackBits(x, y, z, c, d);
    PackBitsRoundTrip(x, y, z, c, d);
  }

  /**
   * The four vertices `add_face` writes for face `dir` of the block at
   * `blockPos`; the corner sum is a `u32` addition, which must not overflow.
   */
  function FaceVerts(blockPos: UVec3, dir: nat): (vs: seq<Vertex>)
    requires dir < 6
    requires blockPos.Plus(IVec3(1, 1, 1)).IsU32()
    ensures |vs| == 4
  {
    seq(4, k requires 0 <= k < 4 => Pack(Corner(dir, k).Plus(blockPos), k, dir))
  }

  /** Vertex k of a face is corner k of the face, moved to the block and packed with k and the direction. */
  lemma FaceVertsAt(blockPos: UVec3, dir: nat, k: nat)
    requires dir < 6 && InChunk(blockPos) && k < 4
    ensures FaceVerts(blockPos, dir)[k] == Pack(Corner(dir, k).Plus(blockPos), k, dir)
  {
  }

  /**
   * For a block inside the chunk, vertex k of its face `dir` holds corner k
   * of that face, offset by the block position (each axis at most 32), the
   * corner index k and the direction `dir`.
   */
  lemma FaceVertsDecode(blockPos: UVec3, dir: nat, k: nat)
    requires InChunk(blockPos) && dir < 6 && k < 4
    ensures XBits(FaceVerts(blockPos, dir)[k]) == (blockPos.x + Corner(dir, k).x) as bv32 <= 32
    ensures YBits(FaceVerts(blockPos, dir)[k]) == (blockPos.y + Corner(dir, k).y) as bv32 <= 32
    ensures ZBits(FaceVerts(blockPos, dir)[k]) == (blockPos.z + Corner(dir, k).z) as bv32 <= 32
    ensures CornerBits(FaceVerts(blockPos, dir)[k]) == k as bv32
    ensures DirBits(FaceVerts(blockPos, dir)[k]) == dir as bv32
  {
    PackRoundTrip(Corner(dir, k).Plus(blockPos), k, dir);
  }
}
