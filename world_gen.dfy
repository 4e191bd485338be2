/**
 * Terrain generation (server/src/world_gen.rs; the client's copy in
 * client/src/world/chunk_manager.rs is the same loop). Every block of a
 * column that lies below the column's height is set to block id 1. The
 * trigonometric height field is a parameter `h`.
 */
module WorldGen {
  import opened Chunks

  /** Terrain height of the world column (x, z). */
  type HeightField = (int, int) -> int

  /** The solid block id that generation writes. */
  const STONE: BlockId := 1

  /** Whether local block `l` of the chunk at `chunkPos` lies below the surface. */
  predicate BelowSurface(chunkPos: IVec3, h: HeightField, l: IVec3) {
    chunkPos.y * 32 + l.y < h(chunkPos.x * 32 + l.x, chunkPos.z * 32 + l.z)
  }

  /** The blocks after `gen_blocks`: below-surface cells become 1, the rest keep their id. */
  function Filled(before: Blocks, chunkPos: IVec3, h: HeightField): Blocks {
    seq(CHUNK_VOLUME, i requires 0 <= i < CHUNK_VOLUME =>
      if BelowSurface(chunkPos, h, IndexToPos(i)) then STONE else before[i])
  }

  /** The chunk the server sends for `chunkPos`: `Chunk::new` followed by `gen_blocks`. */
  function Generated(chunkPos: IVec3, h: HeightField): ChunkData {
    ChunkData(Filled(AirBlocks(), chunkPos, h), chunkPos)
  }

  /** Local position `l` has been visited once the x/z/y loops stand at (cx, cz, cy). */
  predicate Visited(l: IVec3, cx: int, cz: int, cy: int) {
    l.x < cx || (l.x == cx && (l.z < cz || (l.z == cz && l.y < cy)))
  }

  /** The block at index `i` once the positions before (cx, cz, cy) are visited. */
  function PartlyFilled(before: Blocks, chunkPos: IVec3, h: HeightField, i: nat, cx: int, cz: int, cy: int): BlockId
    requires i < CHUNK_VOLUME
  {
    if Visited(IndexToPos(i), cx, cz, cy) then Filled(before, chunkPos, h)[i] else before[i]
  }

  /**
   * `gen_blocks`: the x, z, y loops over the chunk's world footprint. The
   * result depends only on `chunkPos`, `h` and the blocks it started from, and
   * the chunk's own `pos` is neither read nor changed.
   */
  method GenBlocks(chunk: Chunk, chunkPos: IVec3, h: HeightField)
    requires chunk.Valid()
    modifies chunk.blocks
    ensures chunk.Valid() && chunk.pos == old(chunk.pos)
    ensures chunk.blocks[..] == Filled(old(chunk.blocks[..]), chunkPos, h)
  {
    ghost var before: Blocks := chunk.blocks[..];
    var start := chunkPos.TimesChunkSize();
    var end := start.Plus(IVec3(32, 32, 32));
    var x := start.x;
    while x < end.x
      invariant start.x <= x <= end.x
      invariant chunk.Valid()
      invariant forall i | 0 <= i < CHUNK_VOLUME ::
        chunk.blocks[i] == PartlyFilled(before, chunkPos, h, i, x - start.x, 0, 0)
    {
      var z := start.z;
      while z < end.z
        invariant start.z <= z <= end.z
        invariant chunk.Valid()
        invariant forall i | 0 <= i < CHUNK_VOLUME ::
          chunk.blocks[i] == PartlyFilled(before, chunkPos, h, i, x - start.x, z - start.z, 0)
      {
        var trigY := h(x, z);
        var y := start.y;
        while y < end.y
          invariant start.y <= y <= end.y
          invariant chunk.Valid()
          invariant forall i | 0 <= i < CHUNK_VOLUME ::
            chunk.blocks[i] == PartlyFilled(before, chunkPos, h, i, x - start.x, z - start.z, y - start.y)
        {
          ghost var cur := IVec3(x - start.x, y - start.y, z - start.z);
          ghost var k := PosToIndex(cur);
          PosToIndexInRange(cur);
          if y < trigY {
            var localPos := LocalPos(IVec3(x, y, z));
            LocalPosIsOffset(chunkPos, IVec3(x, y, z));
            PosToIndexInRange(localPos);
            chunk.SetBlock(localPos, STONE);
          }
          forall i | 0 <= i < CHUNK_VOLUME
            ensures chunk.blocks[i] == PartlyFilled(before, chunkPos, h, i, x - start.x, z - start.z, y + 1 - start.y)
          {
            IndexToPosInverse(i);
            if i != k {
              assert IndexToPos(i) != cur;
            }
          }
          y := y + 1;
        }
        z := z + 1;
      }
      x := x + 1;
    }
    assert forall i | 0 <= i < CHUNK_VOLUME :: chunk.blocks[i] == Filled(before, chunkPos, h)[i];
  }

  /** Generation writes only the id 1: every block is either unchanged or 1. */
  lemma FilledWritesOnlyStone(before: Blocks, chunkPos: IVec3, h: HeightField)
    ensures forall i | 0 <= i < CHUNK_VOLUME ::
      Filled(before, chunkPos, h)[i] == before[i] || Filled(before, chunkPos, h)[i] == 1
  {
  }

  /** Local block `l` is 1 after generation iff it is below the surface; otherwise it is untouched. */
  lemma FilledAt(before: Blocks, chunkPos: IVec3, h: HeightField, l: UVec3)
    requires InChunk(l)
    ensures PosToIndex(l) < CHUNK_VOLUME
    ensures Filled(before, chunkPos, h)[PosToIndex(l)] ==
      if BelowSurface(chunkPos, h, l) then 1 else before[PosToIndex(l)]
  {
    PosToIndexInRange(l);
  }

  /** Running generation a second time changes nothing. */
  lemma FilledIdempotent(before: Blocks, chunkPos: IVec3, h: HeightField)
    ensures Filled(Filled(before, chunkPos, h), chunkPos, h) == Filled(before, chunkPos, h)
  {
    var once := Filled(before, chunkPos, h);
    assert forall i | 0 <= i < CHUNK_VOLUME :: Filled(once, chunkPos, h)[i] == once[i];
  }

  /**
   * Starting from `Chunk::new`, each column is filled from the bottom: a solid
   * block has only solid blocks below it in the same column of the chunk.
   */
  lemma GeneratedColumnsDownwardClosed(chunkPos: IVec3, h: HeightField, l: UVec3, lower: UVec3)
    requires InChunk(l) && InChunk(lower)
    requires lower.x == l.x && lower.z == l.z && lower.y < l.y
    ensures PosToIndex(l) < CHUNK_VOLUME && PosToIndex(lower) < CHUNK_VOLUME
    ensures Generated(chunkPos, h).GetBlock(l) != 0 ==> Generated(chunkPos, h).GetBlock(lower) != 0
  {
    FilledAt(AirBlocks(), chunkPos, h, l);
    FilledAt(AirBlocks(), chunkPos, h, lower);
  }
}
