/**
 * The worst case of the mesh builder (client/src/render/chunk_renderer.rs,
 * `MAX_QUADS`): no chunk has more visible faces than the 3D chessboard, so
 * the vertex array of `MAX_QUADS * 4` entries is never overrun.
 *
 * The count is taken axis by axis. Along one axis, split the blocks into
 * pairs of neighbours whose lower member has an even coordinate on that
 * axis. The two faces between the members of a pair cannot both be visible,
 * and a pair shows at most two faces along the axis in every case, so each
 * axis contributes at most one face per block: three faces per block in
 * all, which is `MAX_QUADS`.
 */
module FaceBound {
  import opened Chunks
  import opened MeshSpec

  /** Visible faces of block `i` along axis `k`: directions 2k (positive) and 2k + 1 (negative). */
  function AxisFaces(v: seq<seq<bool>>, i: nat, k: nat): (n: nat)
    requires IsTable(v) && i < CHUNK_VOLUME && k < 3
    ensures n <= 2
  {
    (if v[i][2 * k] then 1 else 0) + (if v[i][2 * k + 1] then 1 else 0)
  }

  /** The visible faces along axis `k` of every block, in flat index order. */
  function AxisCounts(v: seq<seq<bool>>, k: nat): (a: seq<nat>)
    requires IsTable(v) && k < 3
    ensures |a| == CHUNK_VOLUME
    ensures forall i | 0 <= i < CHUNK_VOLUME :: a[i] == AxisFaces(v, i, k)
  {
    seq(CHUNK_VOLUME, i requires 0 <= i < CHUNK_VOLUME => AxisFaces(v, i, k))
  }

  /** The sum of `a[lo..hi]`. */
  function Sum(a: seq<nat>, lo: nat, hi: nat): nat
    requires lo <= hi <= |a|
    decreases hi - lo
  {
    if lo == hi then 0 else Sum(a, lo, hi - 1) + a[hi - 1]
  }

  /** A block's faces, counted axis by axis. */
  lemma BlockFacesByAxis(v: seq<seq<bool>>, i: nat)
    requires IsTable(v) && i < CHUNK_VOLUME
    ensures |BlockFaces(v, i, 6)| == AxisFaces(v, i, 0) + AxisFaces(v, i, 1) + AxisFaces(v, i, 2)
  {
    assert |BlockFaces(v, i, 2)| == AxisFaces(v, i, 0);
    assert |BlockFaces(v, i, 4)| == |BlockFaces(v, i, 2)| + AxisFaces(v, i, 1);
  }

  /** The faces of the first `n` blocks, counted axis by axis. */
  lemma {:induction false} FacesByAxis(v: seq<seq<bool>>, n: nat)
    requires IsTable(v) && n <= CHUNK_VOLUME
    ensures |Faces(v, n)| == Sum(AxisCounts(v, 0), 0, n) + Sum(AxisCounts(v, 1), 0, n) + Sum(AxisCounts(v, 2), 0, n)
  {
    if n > 0 {
      FacesByAxis(v, n - 1);
      BlockFacesByAxis(v, n - 1);
    }
  }

  /** A range sum splits at any midpoint. */
  lemma {:induction false} SumSplit(a: seq<nat>, lo: nat, mid: nat, hi: nat)
    requires lo <= mid <= hi <= |a|
    ensures Sum(a, lo, hi) == Sum(a, lo, mid) + Sum(a, mid, hi)
    decreases hi - mid
  {
    if mid < hi {
      SumSplit(a, lo, mid, hi - 1);
    }
  }

  /** The flat-index distance between neighbours along axis `k`. */
  function Stride(k: nat): nat
    requires k < 3
  {
    if k == 0 then 32 else if k == 1 then 1 else 32 * 32
  }

  /** The coordinate of `p` along axis `k` (z, x, y for the N/S, E/W, Top/Bottom pairs). */
  function AxisCoord(p: IVec3, k: nat): int
    requires k < 3
  {
    if k == 0 then p.z else if k == 1 then p.x else p.y
  }

  /** Block `i` is the lower member of its pair along axis `k`. */
  predicate Lower(k: nat, i: nat)
    requires k < 3 && i < CHUNK_VOLUME
  {
    AxisCoord(IndexToPos(i), k) % 2 == 0
  }

  /** Stepping by `e` from the position of index `i` lands inside the chunk, `s` indices further on. */
  lemma Step(i: nat, e: IVec3, s: nat)
    requires i < CHUNK_VOLUME && InChunk(IndexToPos(i).Plus(e))
    requires e.y * 1024 + e.z * 32 + e.x == s
    ensures i + s < CHUNK_VOLUME && IndexToPos(i + s) == IndexToPos(i).Plus(e)
  {
    var q := IndexToPos(i).Plus(e);
    IndexToPosInverse(i);
    assert PosToIndex(q) == i + s;
    PosToIndexInRange(q);
  }

  /**
   * The upper member of a pair is the lower one's neighbour in direction 2k,
   * one stride further on, and the lower one is its neighbour in direction 2k + 1.
   */
  lemma PairNeighbour(k: nat, i: nat)
    requires k < 3 && i < CHUNK_VOLUME && Lower(k, i)
    ensures i + Stride(k) < CHUNK_VOLUME
    ensures IndexToPos(i + Stride(k)) == IndexToPos(i).Plus(DirectionToVector(2 * k))
    ensures IndexToPos(i) == IndexToPos(i + Stride(k)).Plus(DirectionToVector(2 * k + 1))
  {
    if k == 0 {
      Step(i, IVec3(0, 0, 1), 32);
    } else if k == 1 {
      Step(i, IVec3(1, 0, 0), 1);
    } else {
      Step(i, IVec3(0, 1, 0), 1024);
    }
  }

  /**
   * Two blocks that face each other across directions `d` and `e`: if the
   * face of one towards the other is visible, the other one is air.
   */
  lemma FacingBlocks(c: ChunkData, store: Store, i: nat, j: nat, d: nat, e: nat)
    requires i < CHUNK_VOLUME && j < CHUNK_VOLUME && d < 6 && e < 6
    requires IndexToPos(j) == IndexToPos(i).Plus(DirectionToVector(d))
    requires IndexToPos(i) == IndexToPos(j).Plus(DirectionToVector(e))
    ensures Emits(c, store, i, d) ==> BlockAt(c, j) == 0
    ensures Emits(c, store, j, e) ==> BlockAt(c, i) == 0
  {
    IndexToPosInverse(i);
    IndexToPosInverse(j);
    EmitsInside(c, store, i, d, j);
    EmitsInside(c, store, j, e, i);
  }

  /** A pair of neighbours shows at most two faces along their axis. */
  lemma PairAtMostTwo(c: ChunkData, store: Store, k: nat, i: nat)
    requires k < 3 && i < CHUNK_VOLUME && Lower(k, i)
    ensures i + Stride(k) < CHUNK_VOLUME
    ensures AxisFaces(Visible(c, store), i, k) + AxisFaces(Visible(c, store), i + Stride(k), k) <= 2
  {
    PairNeighbour(k, i);
    var j := i + Stride(k);
    // The face of i towards j needs j to be air; the face of j towards i needs i to be air.
    FacingBlocks(c, store, i, j, 2 * k, 2 * k + 1);
  }

  /** Number of blocks in one group of pairs along axis `k`: a lower half and an upper half. */
  function GroupSize(k: nat): nat
    requires k < 3
  {
    2 * Stride(k)
  }

  /** Index `b` starts a group of pairs along axis `k`. */
  predicate GroupStart(k: nat, b: nat)
    requires k < 3
  {
    if k == 0 then b % 64 == 0 else if k == 1 then b % 2 == 0 else b % 2048 == 0
  }

  /** An even number stays even modulo 32. */
  lemma EvenModChunkSize(m: nat)
    requires m % 2 == 0
    ensures (m % 32) % 2 == 0
  {
    var h, q := m / 2, m / 32;
    assert m == 2 * h;
    assert m % 32 == 2 * (h - 16 * q);
  }

  /** Past a group start of axis k, the first half of the group is one even row, column or layer. */
  lemma EvenQuotient(n: nat, t: nat, j: nat)
    requires (n == 32 || n == 1024) && j < n
    ensures (2 * n * t + j) / n == 2 * t
  {
    if n == 32 {
      assert 2 * n * t + j == 32 * (2 * t) + j;
    } else {
      assert 2 * n * t + j == 1024 * (2 * t) + j;
    }
  }

  /** North/South groups are two z rows: the first row has an even z. */
  lemma LowerInGroupZ(b: nat, j: nat)
    requires b % 64 == 0 && b + 64 <= CHUNK_VOLUME && j < 32
    ensures IndexToPos(b + j).z % 2 == 0
  {
    var i := b + j;
    assert i == 2 * 32 * (b / 64) + j;
    EvenQuotient(32, b / 64, j);
    EvenModChunkSize(i / 32);
  }

  /** East/West groups are two blocks of a row: the first has an even x. */
  lemma LowerInGroupX(b: nat)
    requires b % 2 == 0 && b + 2 <= CHUNK_VOLUME
    ensures IndexToPos(b).x % 2 == 0
  {
    EvenModChunkSize(b);
  }

  /** Top/Bottom groups are two layers: the first layer has an even y. */
  lemma LowerInGroupY(b: nat, j: nat)
    requires b % 2048 == 0 && b + 2048 <= CHUNK_VOLUME && j < 1024
    ensures IndexToPos(b + j).y % 2 == 0
  {
    assert b + j == 2 * 1024 * (b / 2048) + j;
    EvenQuotient(1024, b / 2048, j);
  }

  /** In a group along axis k, the blocks of the first half are the lower members of the pairs. */
  lemma LowerInGroup(k: nat, b: nat, j: nat)
    requires k < 3 && GroupStart(k, b) && b + GroupSize(k) <= CHUNK_VOLUME && j < Stride(k)
    ensures b + j < CHUNK_VOLUME && Lower(k, b + j)
  {
    if k == 0 {
      LowerInGroupZ(b, j);
    } else if k == 1 {
      LowerInGroupX(b);
    } else {
      LowerInGroupY(b, j);
    }
  }

  /** Along axis `k`, the two members of every pair of neighbours count at most two together. */
  predicate PairsBounded(a: seq<nat>, k: nat)
    requires k < 3 && |a| == CHUNK_VOLUME
  {
    forall i | 0 <= i < CHUNK_VOLUME && Lower(k, i) :: i + Stride(k) < CHUNK_VOLUME && a[i] + a[i + Stride(k)] <= 2
  }

  /** The visible faces of a chunk along any axis are bounded pair by pair. */
  lemma AxisCountsPaired(c: ChunkData, store: Store, k: nat)
    requires k < 3
    ensures PairsBounded(AxisCounts(Visible(c, store), k), k)
  {
    var a := AxisCounts(Visible(c, store), k);
    forall i | 0 <= i < CHUNK_VOLUME && Lower(k, i)
      ensures i + Stride(k) < CHUNK_VOLUME && a[i] + a[i + Stride(k)] <= 2
    {
      PairAtMostTwo(c, store, k, i);
    }
  }

  /** The first j pairs of the group at b count at most 2j. */
  lemma {:induction false} PairHalves(a: seq<nat>, k: nat, b: nat, j: nat)
    requires k < 3 && |a| == CHUNK_VOLUME && PairsBounded(a, k)
    requires GroupStart(k, b) && b + GroupSize(k) <= CHUNK_VOLUME && j <= Stride(k)
    ensures Sum(a, b, b + j) + Sum(a, b + Stride(k), b + Stride(k) + j) <= 2 * j
  {
    if j > 0 {
      var s, i := Stride(k), b + j - 1;
      PairHalves(a, k, b, j - 1);
      LowerInGroup(k, b, j - 1);
      assert a[i] + a[i + s] <= 2;
    }
  }

  /** A group of pairs counts at most one per block. */
  lemma GroupBound(a: seq<nat>, k: nat, b: nat)
    requires k < 3 && |a| == CHUNK_VOLUME && PairsBounded(a, k)
    requires GroupStart(k, b) && b + GroupSize(k) <= CHUNK_VOLUME
    ensures Sum(a, b, b + GroupSize(k)) <= GroupSize(k)
  {
    SumSplit(a, b, b + Stride(k), b + GroupSize(k));
    PairHalves(a, k, b, Stride(k));
  }

  /** The blocks below a group start count at most one per block. */
  lemma {:induction false} AxisBoundBelow(a: seq<nat>, k: nat, b: nat)
    requires k < 3 && |a| == CHUNK_VOLUME && PairsBounded(a, k)
    requires GroupStart(k, b) && b <= CHUNK_VOLUME
    ensures Sum(a, 0, b) <= b
    decreases b
  {
    if b > 0 {
      var g := b - GroupSize(k);
      assert g >= 0 && GroupStart(k, g) by {
        if k == 0 {} else if k == 1 {} else {}
      }
      AxisBoundBelow(a, k, g);
      SumSplit(a, 0, g, b);
      GroupBound(a, k, g);
    }
  }

  /** Below an index that starts a group on every axis, at most three faces per block are visible. */
  lemma FacesBelowGroupStart(c: ChunkData, store: Store, n: nat)
    requires n <= CHUNK_VOLUME && GroupStart(0, n) && GroupStart(1, n) && GroupStart(2, n)
    ensures |Faces(Visible(c, store), n)| <= 3 * n
  {
    var v := Visible(c, store);
    FacesByAxis(v, n);
    AxisCountsPaired(c, store, 0);
    AxisCountsPaired(c, store, 1);
    AxisCountsPaired(c, store, 2);
    AxisBoundBelow(AxisCounts(v, 0), 0, n);
    AxisBoundBelow(AxisCounts(v, 1), 1, n);
    AxisBoundBelow(AxisCounts(v, 2), 2, n);
  }

  /** `MAX_QUADS` is three quads per block. */
  lemma MaxQuadsPerBlock()
    ensures MAX_QUADS == 3 * CHUNK_VOLUME
  {
  }

  /**
   * No chunk shows more than `MAX_QUADS` faces, whatever its blocks and
   * whatever the chunk store holds around it.
   */
  lemma FacesAtMostMaxQuads(c: ChunkData, store: Store)
    ensures |Faces(Visible(c, store), CHUNK_VOLUME)| <= MAX_QUADS
  {
    FacesBelowGroupStart(c, store, CHUNK_VOLUME);
    MaxQuadsPerBlock();
  }
}
