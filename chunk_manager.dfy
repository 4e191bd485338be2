/**
 * The client's chunk store (client/src/world/chunk_manager.rs): the map from
 * chunk coordinate to chunk, the block lookup in world coordinates, and the
 * recenter step that regenerates the box of chunks around the viewer.
 *
 * The manager also carries the mesh queue and the count of chunks still
 * loading, which the mesh generation step of the renderer reads
 * (client/src/render/chunk_renderer.rs); the recenter step leaves them alone.
 */
module ChunkManagement {
  import opened Wrappers
  import opened Chunks
  import opened WorldGen

  /** `RENDER_DISTANCE`: rings 0 .. RENDER_DISTANCE - 1 are loaded. */
  const RENDER_DISTANCE: nat := 3

  /** An ECS entity id (of a chunk-mesh entity). */
  type EntityId = nat

  /** The chunk containing world block `pos`: per-axis `floor(pos / CHUNK_SIZE)`. */
  function ChunkOf(pos: IVec3): IVec3 {
    IVec3(pos.x / 32, pos.y / 32, pos.z / 32)
  }

  /** A world position is its chunk's first block plus its local position. */
  lemma ChunkOfAndLocalPos(pos: IVec3)
    ensures InChunk(LocalPos(pos))
    ensures ChunkOf(pos).TimesChunkSize().Plus(LocalPos(pos)) == pos
  {
    LocalPosIsOffset(ChunkOf(pos), pos);
  }

  /** Local position `l` of chunk `k` is owned by chunk `k`, at local position `l`. */
  lemma ChunkOfChunkBlock(k: IVec3, l: IVec3)
    requires InChunk(l)
    ensures ChunkOf(k.TimesChunkSize().Plus(l)) == k
    ensures LocalPos(k.TimesChunkSize().Plus(l)) == l
  {
    LocalPosIsOffset(k, k.TimesChunkSize().Plus(l));
  }

  /**
   * `ChunkManager::get_block` on the manager's chunk map: the block at world
   * position `pos`, or air when the owning chunk is not loaded.
   */
  function GetBlock(chunkMap: map<IVec3, ChunkData>, pos: IVec3): (r: BlockId)
    ensures ChunkOf(pos) !in chunkMap ==> r == 0
  {
    var chunkPos := ChunkOf(pos);
    if chunkPos in chunkMap then
      var local := LocalPos(pos);
      PosToIndexInRange(local);
      chunkMap[chunkPos].GetBlock(local)
    else
      0
  }

  /**
   * Looking up local block `l` of chunk `k` through world coordinates finds
   * that chunk's block `l` when the chunk is loaded, and air otherwise.
   */
  lemma GetBlockFindsOwner(chunkMap: map<IVec3, ChunkData>, k: IVec3, l: UVec3)
    requires InChunk(l)
    ensures PosToIndex(l) < CHUNK_VOLUME
    ensures GetBlock(chunkMap, k.TimesChunkSize().Plus(l)) ==
      if k in chunkMap then chunkMap[k].GetBlock(l) else 0
  {
    PosToIndexInRange(l);
    ChunkOfChunkBlock(k, l);
  }

  /** Max-norm distance from `center` is at most `r`. */
  predicate InBox(p: IVec3, center: IVec3, r: int) {
    && center.x - r <= p.x <= center.x + r
    && center.y - r <= p.y <= center.y + r
    && center.z - r <= p.z <= center.z + r
  }

  /** The coordinates (x, y, z) with zlo <= z < zhi. */
  ghost function Row(x: int, y: int, zlo: int, zhi: int): set<IVec3> {
    set z: int | zlo <= z < zhi :: IVec3(x, y, z)
  }

  /** The coordinates (x, y, z) with ylo <= y < yhi and zlo <= z < zhi. */
  ghost function Slab(x: int, ylo: int, yhi: int, zlo: int, zhi: int): set<IVec3> {
    set y: int, z: int | ylo <= y < yhi && zlo <= z < zhi :: IVec3(x, y, z)
  }

  /** The coordinates with lo <= p < hi on every axis. */
  ghost function Cuboid(lo: IVec3, hi: IVec3): set<IVec3> {
    set x: int, y: int, z: int | lo.x <= x < hi.x && lo.y <= y < hi.y && lo.z <= z < hi.z :: IVec3(x, y, z)
  }

  lemma InRow(p: IVec3, x: int, y: int, zlo: int, zhi: int)
    ensures p in Row(x, y, zlo, zhi) <==> p.x == x && p.y == y && zlo <= p.z < zhi
  {
    if p.x == x && p.y == y && zlo <= p.z < zhi {
      assert p == IVec3(x, y, p.z);
    }
  }

  lemma InSlab(p: IVec3, x: int, ylo: int, yhi: int, zlo: int, zhi: int)
    ensures p in Slab(x, ylo, yhi, zlo, zhi) <==> p.x == x && ylo <= p.y < yhi && zlo <= p.z < zhi
  {
    if p.x == x && ylo <= p.y < yhi && zlo <= p.z < zhi {
      assert p == IVec3(x, p.y, p.z);
    }
  }

  lemma InCuboid(p: IVec3, lo: IVec3, hi: IVec3)
    ensures p in Cuboid(lo, hi) <==> lo.x <= p.x < hi.x && lo.y <= p.y < hi.y && lo.z <= p.z < hi.z
  {
    if lo.x <= p.x < hi.x && lo.y <= p.y < hi.y && lo.z <= p.z < hi.z {
      assert p == IVec3(p.x, p.y, p.z);
    }
  }

  lemma InCuboidAll(lo: IVec3, hi: IVec3)
    ensures forall p :: p in Cuboid(lo, hi) <==> lo.x <= p.x < hi.x && lo.y <= p.y < hi.y && lo.z <= p.z < hi.z
  {
    forall p ensures p in Cuboid(lo, hi) <==> lo.x <= p.x < hi.x && lo.y <= p.y < hi.y && lo.z <= p.z < hi.z {
      InCuboid(p, lo, hi);
    }
  }

  lemma {:induction false} RowSize(x: int, y: int, zlo: int, zhi: int)
    requires zlo <= zhi
    ensures |Row(x, y, zlo, zhi)| == zhi - zlo
    decreases zhi - zlo
  {
    if zlo == zhi {
      assert Row(x, y, zlo, zhi) == {} by {
        forall p ensures p !in Row(x, y, zlo, zhi) { InRow(p, x, y, zlo, zhi); }
      }
    } else {
      var rest := Row(x, y, zlo, zhi - 1);
      assert Row(x, y, zlo, zhi) == rest + {IVec3(x, y, zhi - 1)} by {
        forall p ensures p in Row(x, y, zlo, zhi) <==> p in rest || p == IVec3(x, y, zhi - 1) {
          InRow(p, x, y, zlo, zhi);
          InRow(p, x, y, zlo, zhi - 1);
        }
      }
      InRow(IVec3(x, y, zhi - 1), x, y, zlo, zhi - 1);
      RowSize(x, y, zlo, zhi - 1);
    }
  }

  lemma {:induction false} SlabSize(x: int, ylo: int, yhi: int, zlo: int, zhi: int)
    requires ylo <= yhi && zlo <= zhi
    ensures |Slab(x, ylo, yhi, zlo, zhi)| == (yhi - ylo) * (zhi - zlo)
    decreases yhi - ylo
  {
    if ylo == yhi {
      assert Slab(x, ylo, yhi, zlo, zhi) == {} by {
        forall p ensures p !in Slab(x, ylo, yhi, zlo, zhi) { InSlab(p, x, ylo, yhi, zlo, zhi); }
      }
    } else {
      var rest := Slab(x, ylo, yhi - 1, zlo, zhi);
      var row := Row(x, yhi - 1, zlo, zhi);
      assert Slab(x, ylo, yhi, zlo, zhi) == rest + row && rest !! row by {
        forall p ensures (p in Slab(x, ylo, yhi, zlo, zhi) <==> p in rest || p in row) && !(p in rest && p in row) {
          InSlab(p, x, ylo, yhi, zlo, zhi);
          InSlab(p, x, ylo, yhi - 1, zlo, zhi);
          InRow(p, x, yhi - 1, zlo, zhi);
        }
      }
      SlabSize(x, ylo, yhi - 1, zlo, zhi);
      RowSize(x, yhi - 1, zlo, zhi);
      var w := zhi - zlo;
      assert (yhi - 1 - ylo) * w + w == (yhi - ylo) * w;
    }
  }

  /** A cuboid holds the product of its side lengths. */
  lemma {:induction false} CuboidSize(lo: IVec3, hi: IVec3)
    requires lo.x <= hi.x && lo.y <= hi.y && lo.z <= hi.z
    ensures |Cuboid(lo, hi)| == (hi.x - lo.x) * ((hi.y - lo.y) * (hi.z - lo.z))
    decreases hi.x - lo.x
  {
    if lo.x == hi.x {
      assert Cuboid(lo, hi) == {} by {
        forall p ensures p !in Cuboid(lo, hi) { InCuboid(p, lo, hi); }
      }
    } else {
      var cut := IVec3(hi.x - 1, hi.y, hi.z);
      var rest := Cuboid(lo, cut);
      var slab := Slab(hi.x - 1, lo.y, hi.y, lo.z, hi.z);
      assert Cuboid(lo, hi) == rest + slab && rest !! slab by {
        forall p ensures (p in Cuboid(lo, hi) <==> p in rest || p in slab) && !(p in rest && p in slab) {
          InCuboid(p, lo, hi);
          InCuboid(p, lo, cut);
          InSlab(p, hi.x - 1, lo.y, hi.y, lo.z, hi.z);
        }
      }
      CuboidSize(lo, cut);
      SlabSize(hi.x - 1, lo.y, hi.y, lo.z, hi.z);
      var a := (hi.y - lo.y) * (hi.z - lo.z);
      assert (hi.x - 1 - lo.x) * a + a == (hi.x - lo.x) * a;
    }
  }

  /** The coordinates within max-norm distance `r` of `center`. */
  ghost function Box(center: IVec3, r: nat): (s: set<IVec3>)
    ensures forall p :: p in s <==> InBox(p, center, r)
  {
    InCuboidAll(center.Minus(IVec3(r, r, r)), center.Plus(IVec3(r + 1, r + 1, r + 1)));
    Cuboid(center.Minus(IVec3(r, r, r)), center.Plus(IVec3(r + 1, r + 1, r + 1)))
  }

  /** The box of radius r holds (2r + 1)^3 chunks. */
  lemma BoxSize(center: IVec3, r: nat)
    ensures |Box(center, r)| == (2 * r + 1) * ((2 * r + 1) * (2 * r + 1))
  {
    CuboidSize(center.Minus(IVec3(r, r, r)), center.Plus(IVec3(r + 1, r + 1, r + 1)));
  }

  /**
   * Where the mesh slots of ring r start: the sizes of the boxes of the rings
   * before it, 1 = 1^3 and 27 = 3^3.
   */
  function RingStart(r: nat): nat
    requires r <= RENDER_DISTANCE
  {
    [0, 1, 28, 153][r]
  }

  /**
   * What happened to one mesh entity during recentering: an existing entity
   * (`Some`) or a newly spawned one (`None`) now shows chunk `chunkPos`.
   */
  datatype MeshSlot = MeshSlot(entity: Option<EntityId>, chunkPos: IVec3)

  /** Slots lo .. hi - 1 show each chunk of `keys` exactly once. */
  ghost predicate Enumerates(slots: seq<MeshSlot>, lo: nat, hi: nat, keys: set<IVec3>)
    requires lo <= hi <= |slots|
  {
    && (forall j | lo <= j < hi :: slots[j].chunkPos in keys)
    && (forall p | p in keys :: exists j | lo <= j < hi :: slots[j].chunkPos == p)
    && (forall j, j' | lo <= j < j' < hi :: slots[j].chunkPos != slots[j'].chunkPos)
  }


  /** Appending slots does not disturb an enumeration among the earlier ones. */
  lemma EnumeratesAppendAfter(a: seq<MeshSlot>, b: seq<MeshSlot>, lo: nat, hi: nat, keys: set<IVec3>)
    requires lo <= hi <= |a|
    requires Enumerates(a, lo, hi, keys)
    ensures Enumerates(a + b, lo, hi, keys)
  {
    forall p | p in keys
      ensures exists j | lo <= j < hi :: (a + b)[j].chunkPos == p
    {
      var j :| lo <= j < hi && a[j].chunkPos == p;
      assert (a + b)[j] == a[j];
    }
  }

  /** An enumeration in `b` is one in `a + b` after shifting by |a|. */
  lemma EnumeratesAppendShift(a: seq<MeshSlot>, b: seq<MeshSlot>, keys: set<IVec3>)
    requires Enumerates(b, 0, |b|, keys)
    ensures Enumerates(a + b, |a|, |a| + |b|, keys)
  {
    forall p | p in keys
      ensures exists j | |a| <= j < |a| + |b| :: (a + b)[j].chunkPos == p
    {
      var j :| 0 <= j < |b| && b[j].chunkPos == p;
      assert (a + b)[|a| + j] == b[j];
    }
  }

  /** Slots that enumerate a set without repetition are as many as its elements. */
  lemma EnumerationSize(slots: seq<MeshSlot>, keys: set<IVec3>)
    requires Enumerates(slots, 0, |slots|, keys)
    ensures |slots| == |keys|
  {
    var shown := set j | 0 <= j < |slots| :: slots[j].chunkPos;
    assert shown == keys;
    SetOfDistinctSize(slots);
  }

  /** The chunk coordinates of pairwise distinct slots form a set of the same size. */
  lemma {:induction false} SetOfDistinctSize(slots: seq<MeshSlot>)
    requires forall j, j' | 0 <= j < j' < |slots| :: slots[j].chunkPos != slots[j'].chunkPos
    ensures |set j | 0 <= j < |slots| :: slots[j].chunkPos| == |slots|
  {
    if slots != [] {
      var init := slots[..|slots| - 1];
      SetOfDistinctSize(init);
      var last := slots[|slots| - 1].chunkPos;
      var shownInit := set j | 0 <= j < |init| :: init[j].chunkPos;
      assert (set j | 0 <= j < |slots| :: slots[j].chunkPos) == shownInit + {last};
      assert last !in shownInit;
    }
  }

  /**
   * The slots so far show each chunk of `keys` outside `remaining` exactly
   * once, and nothing else.
   */
  ghost predicate Assigned(slots: seq<MeshSlot>, keys: set<IVec3>, remaining: set<IVec3>) {
    && remaining <= keys
    && |slots| + |remaining| == |keys|
    && (forall j | 0 <= j < |slots| :: slots[j].chunkPos in keys && slots[j].chunkPos !in remaining)
    && (forall p | p in keys && p !in remaining :: exists j | 0 <= j < |slots| :: slots[j].chunkPos == p)
    && (forall j, j' | 0 <= j < j' < |slots| :: slots[j].chunkPos != slots[j'].chunkPos)
  }

  /** Before the first slot, every chunk remains. */
  lemma AssignedNone(keys: set<IVec3>)
    ensures Assigned([], keys, keys)
  {
  }

  /** Handing a slot to one more remaining chunk keeps the slots an enumeration of the chunks done. */
  lemma AssignedStep(slots: seq<MeshSlot>, keys: set<IVec3>, remaining: set<IVec3>, slot: MeshSlot)
    requires Assigned(slots, keys, remaining) && slot.chunkPos in remaining
    ensures Assigned(slots + [slot], keys, remaining - {slot.chunkPos})
  {
    var next := slots + [slot];
    forall q | q in keys && q !in remaining - {slot.chunkPos}
      ensures exists j | 0 <= j < |next| :: next[j].chunkPos == q
    {
      if q == slot.chunkPos {
        assert next[|slots|].chunkPos == q;
      } else {
        var j :| 0 <= j < |slots| && slots[j].chunkPos == q;
        assert next[j] == slots[j];
      }
    }
  }

  /** Once no chunk remains, the slots enumerate all of them. */
  lemma AssignedAll(slots: seq<MeshSlot>, keys: set<IVec3>)
    requires Assigned(slots, keys, {})
    ensures |slots| == |keys| && Enumerates(slots, 0, |slots|, keys)
  {
  }

  /**
   * One pass of the mesh loop over the chunk map (chunk_manager.rs, the inner
   * `for` over `chunk_map.iter()`): every key, in the map's own order, gets the
   * next unconsumed mesh entity from `meshes[meshIter..]`, or a new entity once
   * those are used up. Returns the slots and how far the iterator advanced.
   */
  method AssignMeshes(keys: set<IVec3>, meshes: seq<EntityId>, meshIter: nat)
    returns (slots: seq<MeshSlot>, newIter: nat)
    requires meshIter <= |meshes|
    ensures |slots| == |keys|
    ensures Enumerates(slots, 0, |slots|, keys)
    ensures forall j | 0 <= j < |slots| ::
      slots[j].entity == if meshIter + j < |meshes| then Some(meshes[meshIter + j]) else None
    ensures newIter == if |meshes| <= meshIter + |slots| then |meshes| else meshIter + |slots|
  {
    hide Assigned, Enumerates;
    slots := [];
    newIter := meshIter;
    var remaining := keys;
    AssignedNone(keys);
    while remaining != {}
      invariant Assigned(slots, keys, remaining)
      invariant forall j | 0 <= j < |slots| ::
        slots[j].entity == if meshIter + j < |meshes| then Some(meshes[meshIter + j]) else None
      invariant newIter == if |meshes| <= meshIter + |slots| then |meshes| else meshIter + |slots|
      decreases |remaining|
    {
      var p :| p in remaining;
      var entity: Option<EntityId>;
      if newIter < |meshes| {
        entity := Some(meshes[newIter]);
        newIter := newIter + 1;
      } else {
        entity := None;
      }
      AssignedStep(slots, keys, remaining, MeshSlot(entity, p));
      slots := slots + [MeshSlot(entity, p)];
      remaining := remaining - {p};
    }
    AssignedAll(slots, keys);
  }

  /**
   * `m` is `before` with the chunks of the box of radius `r` around `center`
   * that the x, z, y loops have passed when standing at (x, z, y) generated
   * and inserted.
   */
  ghost predicate Inserted(m: map<IVec3, ChunkData>, before: map<IVec3, ChunkData>, center: IVec3, r: nat,
                           h: HeightField, x: int, z: int, y: int)
  {
    && (forall p :: p in m <==> p in before || (InBox(p, center, r) && Visited(p, x, z, y)))
    && (forall p | p in m ::
          m[p] == if InBox(p, center, r) && Visited(p, x, z, y) then Generated(p, h) else before[p])
  }

  /** Inserting the chunk at (x, y, z) advances the innermost loop by one. */
  lemma InsertedStep(m: map<IVec3, ChunkData>, before: map<IVec3, ChunkData>, center: IVec3, r: nat,
                     h: HeightField, x: int, z: int, y: int)
    requires Inserted(m, before, center, r, h, x, z, y)
    requires InBox(IVec3(x, y, z), center, r)
    ensures Inserted(m[IVec3(x, y, z) := Generated(IVec3(x, y, z), h)], before, center, r, h, x, z, y + 1)
  {
  }

  /** Two loop positions that have passed the same chunks of the box describe the same map. */
  lemma InsertedSame(m: map<IVec3, ChunkData>, before: map<IVec3, ChunkData>, center: IVec3, r: nat,
                     h: HeightField, x: int, z: int, y: int, x2: int, z2: int, y2: int)
    requires Inserted(m, before, center, r, h, x, z, y)
    requires forall p | InBox(p, center, r) :: Visited(p, x, z, y) <==> Visited(p, x2, z2, y2)
    ensures Inserted(m, before, center, r, h, x2, z2, y2)
  {
  }

  /**
   * The mesh slots after the first n rings: ring r's pass over the map fills
   * slots RingStart(r) .. RingStart(r + 1) - 1 with the box of radius r, and
   * slot j holds the j-th existing entity while there is one.
   */
  ghost predicate SlotsFor(slots: seq<MeshSlot>, meshes: seq<EntityId>, center: IVec3, n: nat)
    requires n <= RENDER_DISTANCE
  {
    && |slots| == RingStart(n)
    && (forall j | 0 <= j < |slots| :: slots[j].entity == if j < |meshes| then Some(meshes[j]) else None)
    && (forall r | 0 <= r < n :: Enumerates(slots, RingStart(r), RingStart(r + 1), Box(center, r)))
  }

  /** Ring i's pass over the map fills as many slots as its box holds. */
  lemma RingSize(center: IVec3, i: nat)
    requires i < RENDER_DISTANCE
    ensures |Box(center, i)| == RingStart(i + 1) - RingStart(i)
  {
    if i == 0 {
      BoxSize(center, 0);
    } else if i == 1 {
      BoxSize(center, 1);
    } else {
      BoxSize(center, 2);
    }
  }

  /** One ring's pass of the mesh loop extends the slots of the rings before it. */
  lemma SlotsForStep(before: seq<MeshSlot>, newSlots: seq<MeshSlot>, meshes: seq<EntityId>, center: IVec3, i: nat)
    requires i < RENDER_DISTANCE
    requires SlotsFor(before, meshes, center, i)
    requires Enumerates(newSlots, 0, |newSlots|, Box(center, i))
    requires forall j | 0 <= j < |newSlots| ::
      var k := if |meshes| <= |before| then |meshes| else |before|;
      newSlots[j].entity == if k + j < |meshes| then Some(meshes[k + j]) else None
    ensures SlotsFor(before + newSlots, meshes, center, i + 1)
  {
    var slots := before + newSlots;
    EnumerationSize(newSlots, Box(center, i));
    RingSize(center, i);
    forall j | 0 <= j < |slots|
      ensures slots[j].entity == if j < |meshes| then Some(meshes[j]) else None
    {
      if j >= |before| {
        assert slots[j] == newSlots[j - |before|];
      }
    }
    forall r | 0 <= r < i
      ensures Enumerates(slots, RingStart(r), RingStart(r + 1), Box(center, r))
    {
      EnumeratesAppendAfter(before, newSlots, RingStart(r), RingStart(r + 1), Box(center, r));
    }
    EnumeratesAppendShift(before, newSlots, Box(center, i));
  }

  /** `ChunkManager`: the union of the fields the core reads. */
  class ChunkManager {
    var chunkMap: map<IVec3, ChunkData>
    var chunkPosCenter: Option<IVec3>
    var chunkUpdateQueue: seq<IVec3>
    var chunksLeftLoading: nat

    /** `ChunkManager::default`: nothing loaded, no center yet. */
    constructor ()
      ensures chunkMap == map[] && chunkPosCenter == None
      ensures chunkUpdateQueue == [] && chunksLeftLoading == 0
    {
      chunkMap := map[];
      chunkPosCenter := None;
      chunkUpdateQueue := [];
      chunksLeftLoading := 0;
    }

    /**
     * The innermost `y` loop of one ring of `chunk_update`: the chunks of
     * column (x, z) of the box of radius `r` around `center` are created,
     * generated and inserted, bottom to top.
     */
    method InsertColumn(center: IVec3, r: nat, h: HeightField, ghost before: map<IVec3, ChunkData>,
                        x: int, z: int, y0: int)
      requires y0 == center.y - r && Inserted(chunkMap, before, center, r, h, x, z, y0)
      requires center.x - r <= x <= center.x + r && center.z - r <= z <= center.z + r
      modifies this`chunkMap
      ensures Inserted(chunkMap, before, center, r, h, x, z + 1, y0)
    {
      var y := y0;
      while y <= center.y + r
        invariant y0 <= y <= center.y + r + 1
        invariant Inserted(chunkMap, before, center, r, h, x, z, y)
      {
        var chunkPos := IVec3(x, y, z);
        var chunk := new Chunk(chunkPos);
        GenBlocks(chunk, chunkPos, h);
        InsertedStep(chunkMap, before, center, r, h, x, z, y);
        chunkMap := chunkMap[chunkPos := chunk.Data()];
        y := y + 1;
      }
      InsertedSame(chunkMap, before, center, r, h, x, z, y, x, z + 1, y0);
    }

    /**
     * The x, z, y loops of one ring of `chunk_update`: every chunk of the box
     * of radius `r` around `center` is created, generated and inserted,
     * replacing what the map held there; the other entries stay.
     */
    method InsertRing(center: IVec3, r: nat, h: HeightField)
      modifies this`chunkMap
      ensures forall p :: p in chunkMap <==> p in old(chunkMap) || InBox(p, center, r)
      ensures forall p | p in chunkMap ::
        chunkMap[p] == if InBox(p, center, r) then Generated(p, h) else old(chunkMap)[p]
    {
      hide Filled, Generated;
      ghost var before := chunkMap;
      // `start_pos` and `end_pos`, axis by axis.
      var x0, y0, z0 := center.x - r, center.y - r, center.z - r;
      var x1, z1 := center.x + r, center.z + r;
      var x := x0;
      while x <= x1
        invariant x0 <= x <= x1 + 1
        invariant Inserted(chunkMap, before, center, r, h, x, z0, y0)
      {
        var z := z0;
        while z <= z1
          invariant z0 <= z <= z1 + 1
          invariant Inserted(chunkMap, before, center, r, h, x, z, y0)
        {
          InsertColumn(center, r, h, before, x, z, y0);
          z := z + 1;
        }
        InsertedSame(chunkMap, before, center, r, h, x, z, y0, x + 1, z0, y0);
        x := x + 1;
      }
    }

    /**
     * One pass of the ring loop of `chunk_update`: ring `i` is inserted, so the
     * map holds the box of radius `i`, and the mesh loop hands every chunk of
     * the map a slot, continuing with the existing entities where the
     * previous rings stopped.
     */
    method LoadRing(center: IVec3, i: nat, h: HeightField, meshes: seq<EntityId>, slots: seq<MeshSlot>, meshIter: nat)
      returns (slots': seq<MeshSlot>, meshIter': nat)
      requires i < RENDER_DISTANCE
      requires forall p :: p in chunkMap <==> i > 0 && InBox(p, center, i - 1)
      requires SlotsFor(slots, meshes, center, i)
      requires meshIter == if |meshes| <= |slots| then |meshes| else |slots|
      modifies this`chunkMap
      ensures forall p :: p in chunkMap <==> InBox(p, center, i)
      ensures forall p | p in chunkMap :: chunkMap[p] == Generated(p, h)
      ensures SlotsFor(slots', meshes, center, i + 1)
      ensures meshIter' == if |meshes| <= |slots'| then |meshes| else |slots'|
    {
      hide SlotsFor, Enumerates, Filled;
      InsertRing(center, i, h);
      assert chunkMap.Keys == Box(center, i);
      var newSlots;
      newSlots, meshIter' := AssignMeshes(chunkMap.Keys, meshes, meshIter);
      slots' := slots + newSlots;
      SlotsForStep(slots, newSlots, meshes, center, i);
    }

    /**
     * `chunk_update`, given the viewer's chunk. If the center is already that
     * chunk nothing happens. Otherwise the center moves there, the map is
     * cleared and refilled ring by ring with freshly generated chunks, so that
     * it ends with exactly the 125 chunks within distance 2. After each ring
     * every stored chunk is handed a mesh entity: the existing entities are
     * reused in order, each once, new ones are spawned when they run out, and
     * the entities still unconsumed at the end are despawned.
     */
    method ChunkUpdate(viewerChunk: IVec3, h: HeightField, meshes: seq<EntityId>)
      returns (slots: seq<MeshSlot>, despawned: seq<EntityId>)
      modifies this
      ensures chunkUpdateQueue == old(chunkUpdateQueue) && chunksLeftLoading == old(chunksLeftLoading)
      ensures old(chunkPosCenter) == Some(viewerChunk) ==>
        chunkMap == old(chunkMap) && chunkPosCenter == old(chunkPosCenter) && slots == [] && despawned == []
      ensures old(chunkPosCenter) != Some(viewerChunk) ==>
        && chunkPosCenter == Some(viewerChunk)
        && (forall p :: p in chunkMap <==> InBox(p, viewerChunk, RENDER_DISTANCE - 1))
        && |chunkMap| == 125
        && (forall p | p in chunkMap :: chunkMap[p] == Generated(p, h) && chunkMap[p].pos == p)
        && |slots| == RingStart(RENDER_DISTANCE) == 153
        && (forall r | 0 <= r < RENDER_DISTANCE ::
              Enumerates(slots, RingStart(r), RingStart(r + 1), Box(viewerChunk, r)))
        && (forall j | 0 <= j < |slots| :: slots[j].entity == if j < |meshes| then Some(meshes[j]) else None)
        && despawned == if |meshes| <= |slots| then [] else meshes[|slots|..]
    {
      hide Enumerates, Filled, Box;
      if chunkPosCenter == Some(viewerChunk) {
        return [], [];
      }
      chunkPosCenter := Some(viewerChunk);
      chunkMap := map[];
      slots := [];
      var meshIter := 0;
      var i := 0;
      while i < RENDER_DISTANCE
        invariant 0 <= i <= RENDER_DISTANCE
        invariant chunkPosCenter == Some(viewerChunk)
        invariant chunkUpdateQueue == old(chunkUpdateQueue) && chunksLeftLoading == old(chunksLeftLoading)
        invariant forall p :: p in chunkMap <==> i > 0 && InBox(p, viewerChunk, i - 1)
        invariant forall p | p in chunkMap :: chunkMap[p] == Generated(p, h)
        invariant SlotsFor(slots, meshes, viewerChunk, i)
        invariant meshIter == if |meshes| <= |slots| then |meshes| else |slots|
      {
        slots, meshIter := LoadRing(viewerChunk, i, h, meshes, slots, meshIter);
        i := i + 1;
      }
      despawned := meshes[meshIter..];
      BoxSize(viewerChunk, RENDER_DISTANCE - 1);
      assert chunkMap.Keys == Box(viewerChunk, RENDER_DISTANCE - 1);
    }
  }
}
