/**
 * The index sequence of `Buffer::new_quad_index`
 * (client/src/render/buffer.rs): the corner pattern of one quad, cycled,
 * cut to six entries per quad, offset by four vertices per quad and cast to
 * `u16`.
 */
module QuadIndex {
  /** The two triangles of a quad, as corners 0-3 of its four vertices. */
  const QUAD_PATTERN: seq<nat> := [0, 1, 2, 2, 3, 0]

  /** 2^16: `as u16` keeps the value modulo this. */
  const U16_MODULUS: nat := 0x1_0000

  /** `QUAD_PATTERN.iter().cycle().take(n)`: the first `n` entries of the pattern repeated forever. */
  function CycleTake(n: nat): (c: seq<nat>)
    ensures |c| == n
  {
    if n <= 6 then QUAD_PATTERN[..n] else QUAD_PATTERN + CycleTake(n - 6)
  }

  /** Entry `i` of the cycled sequence is entry `i mod 6` of the pattern. */
  lemma {:induction false} CycleTakeAt(n: nat, i: nat)
    requires i < n
    ensures CycleTake(n)[i] == QUAD_PATTERN[i % 6]
  {
    if n > 6 && i >= 6 {
      CycleTakeAt(n - 6, i - 6);
    }
  }

  /** The `u16` index buffer for `quadCount` quads: `.enumerate().map(|(i, c)| (i / 6 * 4 + c) as u16)`. */
  function QuadIndices(quadCount: nat): (idx: seq<nat>)
    ensures |idx| == quadCount * 6
    ensures forall i | 0 <= i < |idx| :: idx[i] < U16_MODULUS
  {
    var corners := CycleTake(quadCount * 6);
    seq(quadCount * 6, i requires 0 <= i < quadCount * 6 => (i / 6 * 4 + corners[i]) % U16_MODULUS)
  }

  /** Entry `i` is the pattern corner `i mod 6` of quad `i / 6`, truncated to 16 bits. */
  lemma QuadIndexAt(quadCount: nat, i: nat)
    requires i < quadCount * 6
    ensures QuadIndices(quadCount)[i] == (i / 6 * 4 + QUAD_PATTERN[i % 6]) % U16_MODULUS
  {
    CycleTakeAt(quadCount * 6, i);
  }

  /** No quads, no indices. */
  lemma NoQuadsNoIndices()
    ensures QuadIndices(0) == []
  {
  }

  /** The six indices of quad `q` are the pattern corners offset by 4q, each taken modulo 2^16. */
  lemma QuadGroup(quadCount: nat, q: nat)
    requires q < quadCount
    ensures forall j | 0 <= j < 6 ::
      QuadIndices(quadCount)[6 * q + j] == (4 * q + QUAD_PATTERN[j]) % U16_MODULUS
  {
    forall j | 0 <= j < 6
      ensures QuadIndices(quadCount)[6 * q + j] == (4 * q + QUAD_PATTERN[j]) % U16_MODULUS
    {
      QuadIndexAt(quadCount, 6 * q + j);
      assert (6 * q + j) / 6 == q && (6 * q + j) % 6 == j;
    }
  }

  /**
   * While its vertices fit in 16 bits, quad `q` is drawn as the triangles
   * (4q, 4q+1, 4q+2) and (4q+2, 4q+3, 4q): only its own four vertices.
   */
  lemma QuadTriangles(quadCount: nat, q: nat)
    requires q < quadCount && 4 * q + 3 < U16_MODULUS
    ensures QuadIndices(quadCount)[6 * q .. 6 * q + 6] ==
      [4 * q, 4 * q + 1, 4 * q + 2, 4 * q + 2, 4 * q + 3, 4 * q]
  {
    hide QuadIndices;
    QuadGroup(quadCount, q);
    var idx := QuadIndices(quadCount);
    var group := [4 * q, 4 * q + 1, 4 * q + 2, 4 * q + 2, 4 * q + 3, 4 * q];
    forall j | 0 <= j < 6
      ensures idx[6 * q .. 6 * q + 6][j] == group[j]
    {
      assert idx[6 * q .. 6 * q + 6][j] == idx[6 * q + j];
      assert group[j] == 4 * q + QUAD_PATTERN[j] < U16_MODULUS;
    }
  }

  /**
   * Up to 16384 quads nothing is truncated: every index is the untruncated
   * one, all lie below 4 * quadCount, and the last vertex 4 * quadCount - 1
   * is referenced.
   */
  lemma NoTruncationUpTo16384(quadCount: nat)
    requires 0 < quadCount <= 16384
    ensures var idx := QuadIndices(quadCount);
      && (forall i | 0 <= i < |idx| :: idx[i] == i / 6 * 4 + QUAD_PATTERN[i % 6] < 4 * quadCount)
      && idx[6 * quadCount - 2] == 4 * quadCount - 1
  {
    var idx := QuadIndices(quadCount);
    forall i | 0 <= i < |idx|
      ensures idx[i] == i / 6 * 4 + QUAD_PATTERN[i % 6] < 4 * quadCount
    {
      QuadIndexAt(quadCount, i);
      assert i / 6 < quadCount;
    }
    assert (6 * quadCount - 2) / 6 == quadCount - 1 && (6 * quadCount - 2) % 6 == 4;
  }

  /**
   * Past 16384 quads the `u16` cast wraps: quad 16384 indexes vertices 0-3
   * again, the vertices of quad 0.
   */
  lemma WrapsPast16384(quadCount: nat)
    requires quadCount > 16384
    ensures QuadIndices(quadCount)[6 * 16384 .. 6 * 16384 + 6] == QuadIndices(quadCount)[0..6]
    ensures QuadIndices(quadCount)[0..6] == [0, 1, 2, 2, 3, 0]
  {
    hide QuadIndices;
    QuadGroup(quadCount, 16384);
    QuadTriangles(quadCount, 0);
    var idx := QuadIndices(quadCount);
    forall j | 0 <= j < 6
      ensures idx[6 * 16384 .. 6 * 16384 + 6][j] == idx[0..6][j]
    {
      assert idx[6 * 16384 .. 6 * 16384 + 6][j] == idx[6 * 16384 + j];
    }
  }
}
