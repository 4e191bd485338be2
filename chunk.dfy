/**
 * Chunk storage shared by client and server (common/src/chunk.rs): a cube of
 * 32 x 32 x 32 block ids stored flat in row-major order, its chunk
 * coordinate, and the six face directions.
 */
module Chunks {
  import opened Wrappers

  /** Side length of a chunk, in blocks. */
  const CHUNK_SIZE: nat := 32
  /** Number of blocks in a chunk. */
  const CHUNK_VOLUME: nat := 32 * 32 * 32

  /** A block id is a `u8`; 0 is air, anything else is solid. */
  type BlockId = b: int | 0 <= b < 256

  /** 2^32: `as u32` / `as_uvec3()` wrap modulo this. */
  const U32_MODULUS: int := 0x1_0000_0000

  /** An integer 3-vector (`glam::IVec3`, unbounded here). */
  datatype IVec3 = IVec3(x: int, y: int, z: int) {
    function Plus(o: IVec3): IVec3 { IVec3(x + o.x, y + o.y, z + o.z) }
    function Minus(o: IVec3): IVec3 { IVec3(x - o.x, y - o.y, z - o.z) }
    function Negated(): IVec3 { IVec3(-x, -y, -z) }
    /** `self * CHUNK_SIZE`: the world position of a chunk's first block. */
    function TimesChunkSize(): IVec3 { IVec3(x * 32, y * 32, z * 32) }
    /** Every component fits a `u32`. */
    predicate IsU32() { 0 <= x < U32_MODULUS && 0 <= y < U32_MODULUS && 0 <= z < U32_MODULUS }
  }

  /** A `glam::UVec3`: every component is a `u32`. */
  type UVec3 = v: IVec3 | v.IsU32() witness IVec3(0, 0, 0)

  /** `as u32` of an `i32`: two's-complement wrap. */
  function WrapU32(v: int): (r: int)
    ensures 0 <= r < U32_MODULUS
    ensures 0 <= v < U32_MODULUS ==> r == v
    ensures -U32_MODULUS <= v < 0 ==> r == v + U32_MODULUS
  {
    v % U32_MODULUS
  }

  /** `IVec3::as_uvec3`: component-wise wrap. */
  function AsUVec3(v: IVec3): UVec3 {
    IVec3(WrapU32(v.x), WrapU32(v.y), WrapU32(v.z))
  }

  /** Every axis lies in [0, CHUNK_SIZE). */
  predicate InChunk(p: IVec3) {
    0 <= p.x < 32 && 0 <= p.y < 32 && 0 <= p.z < 32
  }

  /** `pos.as_uvec3() % CHUNK_SIZE`: the position of world block `w` inside its chunk. */
  function LocalPos(w: IVec3): (l: UVec3)
    ensures InChunk(l)
  {
    var u := AsUVec3(w);
    IVec3(u.x % 32, u.y % 32, u.z % 32)
  }

  /** The `u32` wrap keeps the remainder modulo 32, because 32 divides 2^32. */
  lemma WrapKeepsLowBits(v: int)
    ensures WrapU32(v) % 32 == v % 32
  {
    var q := v / U32_MODULUS;
    assert v == q * U32_MODULUS + WrapU32(v);
    assert q * U32_MODULUS == (q * 0x800_0000) * 32;
  }

  /** On one axis: a coordinate `v` less than 32 past a chunk start `s` wraps to the offset `v - s`. */
  lemma LocalAxis(s: int, v: int)
    requires s % 32 == 0 && 0 <= v - s < 32
    ensures WrapU32(v) % 32 == v - s
  {
    WrapKeepsLowBits(v);
    assert v == s + (v - s);
  }

  /**
   * For a world block of the chunk at `chunkPos`, the local position is its
   * offset from the chunk's first block, even for negative coordinates.
   */
  lemma LocalPosIsOffset(chunkPos: IVec3, w: IVec3)
    requires InChunk(w.Minus(chunkPos.TimesChunkSize()))
    ensures LocalPos(w) == w.Minus(chunkPos.TimesChunkSize())
  {
    LocalAxis(chunkPos.x * 32, w.x);
    LocalAxis(chunkPos.y * 32, w.y);
    LocalAxis(chunkPos.z * 32, w.z);
  }

  /** `pos_to_index`: row-major flat index, y outermost, x innermost. */
  function PosToIndex(p: UVec3): nat {
    p.y * (32 * 32) + p.z * 32 + p.x
  }

  /** The local position stored at flat index `i`. */
  function IndexToPos(i: nat): (p: UVec3)
    requires i < CHUNK_VOLUME
    ensures InChunk(p)
  {
    IVec3(i % 32, i / (32 * 32), (i / 32) % 32)
  }

  /** The flat index of an in-chunk position is in range and decodes back. */
  lemma PosToIndexInRange(p: UVec3)
    requires InChunk(p)
    ensures PosToIndex(p) < CHUNK_VOLUME
    ensures IndexToPos(PosToIndex(p)) == p
  {
    var i := PosToIndex(p);
    assert i == (p.y * 32 + p.z) * 32 + p.x;
    assert i % 32 == p.x && i / 32 == p.y * 32 + p.z;
    assert (i / 32) % 32 == p.z && (i / 32) / 32 == p.y;
    assert i / (32 * 32) == (i / 32) / 32;
  }

  /** Every flat index is the index of exactly the position it decodes to. */
  lemma IndexToPosInverse(i: nat)
    requires i < CHUNK_VOLUME
    ensures PosToIndex(IndexToPos(i)) == i
  {
    assert i / (32 * 32) == (i / 32) / 32;
    assert i / 32 == (i / 32) / 32 * 32 + (i / 32) % 32;
    assert i == (i / 32) * 32 + i % 32;
  }

  /** Two in-chunk positions share an index only if they are equal. */
  lemma PosToIndexInjective(p: UVec3, q: UVec3)
    requires InChunk(p) && InChunk(q)
    ensures PosToIndex(p) == PosToIndex(q) <==> p == q
  {
    PosToIndexInRange(p);
    PosToIndexInRange(q);
  }

  /**
   * Without the axis bound, the index of an out-of-range position can land
   * on another cell: x = 32 aliases the first block of the next z row.
   */
  lemma OutOfRangeAxisAliases(y: nat, z: nat)
    requires y < 32 && z < 31
    ensures !InChunk(IVec3(32, y, z))
    ensures PosToIndex(IVec3(32, y, z)) == PosToIndex(IVec3(0, y, z + 1))
  {
  }

  /** A chunk-sized block array. */
  type Blocks = s: seq<BlockId> | |s| == CHUNK_VOLUME witness seq(CHUNK_VOLUME, _ => 0)

  /** The all-air block array of `Chunk::new`. */
  function AirBlocks(): Blocks { seq(CHUNK_VOLUME, _ => 0) }

  /** A finished chunk, as stored by value in the client's chunk map. */
  datatype ChunkData = ChunkData(blocks: Blocks, pos: IVec3) {

    /** `Chunk::get_block`: the array is indexed directly, so the index must be in range. */
    function GetBlock(p: UVec3): BlockId
      requires PosToIndex(p) < CHUNK_VOLUME
    {
      blocks[PosToIndex(p)]
    }

    /** `Chunk::try_get_block`: a block only for positions inside the chunk. */
    function TryGetBlock(p: UVec3): (r: Option<BlockId>)
      ensures r.Some? <==> InChunk(p)
      ensures r.Some? ==> PosToIndex(p) < CHUNK_VOLUME && r.value == GetBlock(p)
    {
      if InChunk(p) then (PosToIndexInRange(p); Some(GetBlock(p))) else None
    }
  }

  /** `Chunk`, while it is being filled in place. */
  class Chunk {
    const blocks: array<BlockId>
    var pos: IVec3

    ghost predicate Valid()
      reads this
    {
      blocks.Length == CHUNK_VOLUME
    }

    /** The chunk's current contents as a value. */
    function Data(): ChunkData
      requires Valid()
      reads this, blocks
    {
      ChunkData(blocks[..], pos)
    }

    /** `Chunk::new`: every block is air and the position is `pos`. */
    constructor (pos: IVec3)
      ensures Valid() && fresh(blocks)
      ensures Data() == ChunkData(AirBlocks(), pos)
    {
      blocks := new BlockId[CHUNK_VOLUME](_ => 0);
      this.pos := pos;
    }

    /**
     * `Chunk::set_block`: writes the cell the flat index of `p` selects. The
     * block at `p` reads back as `id`; when `p` is inside the chunk every other
     * in-chunk block and the position are unchanged.
     */
    method SetBlock(p: UVec3, id: BlockId)
      requires Valid()
      requires PosToIndex(p) < CHUNK_VOLUME
      modifies blocks
      ensures Valid() && pos == old(pos)
      ensures blocks[..] == old(blocks[..])[PosToIndex(p) := id]
      ensures Data().GetBlock(p) == id
      ensures InChunk(p) ==> forall q: UVec3 | InChunk(q) && q != p ::
                PosToIndex(q) < CHUNK_VOLUME && Data().GetBlock(q) == old(Data()).GetBlock(q)
    {
      blocks[PosToIndex(p)] := id;
      if InChunk(p) {
        forall q: UVec3 | InChunk(q) && q != p
          ensures PosToIndex(q) < CHUNK_VOLUME && Data().GetBlock(q) == old(Data()).GetBlock(q)
        {
          PosToIndexInRange(q);
          PosToIndexInjective(p, q);
        }
      }
    }
  }

  /** The number of face directions. */
  const DIRECTION_COUNT: nat := 6

  /** `DIRECTION_TO_VECTOR[d]`: North, South, East, West, Top, Bottom. */
  function DirectionToVector(d: nat): IVec3
    requires d < DIRECTION_COUNT
  {
    if d == 0 then IVec3(0, 0, 1)
    else if d == 1 then IVec3(0, 0, -1)
    else if d == 2 then IVec3(1, 0, 0)
    else if d == 3 then IVec3(-1, 0, 0)
    else if d == 4 then IVec3(0, 1, 0)
    else IVec3(0, -1, 0)
  }

  /** `v` has exactly one non-zero component, and it is +1 or -1. */
  predicate IsUnitAxis(v: IVec3) {
    || (v.x in {1, -1} && v.y == 0 && v.z == 0)
    || (v.x == 0 && v.y in {1, -1} && v.z == 0)
    || (v.x == 0 && v.y == 0 && v.z in {1, -1})
  }

  /** Each direction is a unit vector along one axis. */
  lemma DirectionsAreUnitAxes()
    ensures forall d | 0 <= d < DIRECTION_COUNT :: IsUnitAxis(DirectionToVector(d))
  {
  }

  /** Entries 2k and 2k+1 point in opposite directions along the same axis. */
  lemma DirectionsPairUp(k: nat)
    requires k < 3
    ensures DirectionToVector(2 * k + 1) == DirectionToVector(2 * k).Negated()
  {
    if k == 0 {
      assert DirectionToVector(0) == IVec3(0, 0, 1) && DirectionToVector(1) == IVec3(0, 0, -1);
    } else if k == 1 {
      assert DirectionToVector(2) == IVec3(1, 0, 0) && DirectionToVector(3) == IVec3(-1, 0, 0);
    } else {
      assert DirectionToVector(4) == IVec3(0, 1, 0) && DirectionToVector(5) == IVec3(0, -1, 0);
    }
  }

  /** No direction is listed twice. */
  lemma DirectionsDistinct()
    ensures forall d, e | 0 <= d < e < DIRECTION_COUNT :: DirectionToVector(d) != DirectionToVector(e)
  {
  }
}
