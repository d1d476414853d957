/** World layout: the geometry shared by edit ingestion and log generation.
    Positions are integer voxel indices; a chunk coordinate addresses one
    chunk of the world's chunk grid. */
module Coords {

  /** A point with integer components: a world-space voxel position, a
      chunk-space coordinate, or a chunk-local voxel offset. */
  datatype Vec3 = Vec3(x: int, y: int, z: int)

  /** Extent of the world, in chunks, along each axis. */
  datatype Dims = Dims(x: nat, y: nat, z: nat)

  /** Voxels along one chunk edge. */
  type ChunkSize = n: int | 0 < n witness 16

  /** The layout the world starts with (`chunkSize = 16`, `dim = (20, 5, 20)`). */
  const DefaultChunkSize: ChunkSize := 16
  const DefaultDim: Dims := Dims(20, 5, 20)

  /** Number of chunk records in a store of this extent. */
  function Total(d: Dims): int {
    d.x * d.y * d.z
  }

  /** A world-space position lies inside the world: `0 <= p < chunkSize * dim` on every axis. */
  predicate InBounds(p: Vec3, cs: ChunkSize, d: Dims) {
    && 0 <= p.x < cs * d.x
    && 0 <= p.y < cs * d.y
    && 0 <= p.z < cs * d.z
  }

  /** A chunk coordinate addresses a chunk of the world: `0 <= c < dim` on every axis. */
  predicate InDim(c: Vec3, d: Dims) {
    0 <= c.x < d.x && 0 <= c.y < d.y && 0 <= c.z < d.z
  }

  /** `floor(p / chunkSize)` per axis: the chunk holding voxel `p`. */
  function WorldToChunk(p: Vec3, cs: ChunkSize): Vec3 {
    Vec3(p.x / cs, p.y / cs, p.z / cs)
  }

  /** `mod(p, chunkSize)` per axis: the voxel's offset inside its chunk. */
  function LocalOffset(p: Vec3, cs: ChunkSize): Vec3 {
    Vec3(p.x % cs, p.y % cs, p.z % cs)
  }

  /** The chunk of a voxel spans `[c * cs, c * cs + cs)` on every axis, also
      for negative components (flooring, not truncation). */
  lemma VoxelInItsChunk(p: Vec3, cs: ChunkSize)
    ensures var c := WorldToChunk(p, cs);
      && c.x * cs <= p.x < c.x * cs + cs
      && c.y * cs <= p.y < c.y * cs + cs
      && c.z * cs <= p.z < c.z * cs + cs
  {
  }

  /** The offset lies in `[0, cs)` on every axis and, added to the chunk's
      origin, gives back the voxel. */
  lemma OffsetRebuildsVoxel(p: Vec3, cs: ChunkSize)
    ensures var o := LocalOffset(p, cs);
      0 <= o.x < cs && 0 <= o.y < cs && 0 <= o.z < cs
    ensures var o, c := LocalOffset(p, cs), WorldToChunk(p, cs);
      p == Vec3(c.x * cs + o.x, c.y * cs + o.y, c.z * cs + o.z)
  {
  }

  /** One axis of the bound: a voxel index in `[0, cs * n)` lies in a chunk index in `[0, n)`. */
  lemma AxisChunkInRange(v: int, cs: ChunkSize, n: nat)
    requires 0 <= v < cs * n
    ensures 0 <= v / cs < n
  {
    var q := v / cs;
    assert q * cs <= v < q * cs + cs;
    if n <= q {
      MulMonotone(n, q, cs);
    }
  }

  /** Multiplying by a non-negative factor keeps the order. */
  lemma MulMonotone(a: int, b: int, k: int)
    requires a <= b && 0 <= k
    ensures a * k <= b * k
  {
    assert b * k - a * k == (b - a) * k;
  }

  /** Every position that passes the bounds check lies in a chunk of the world. */
  lemma InBoundsChunkInDim(p: Vec3, cs: ChunkSize, d: Dims)
    requires InBounds(p, cs, d)
    ensures InDim(WorldToChunk(p, cs), d)
  {
    AxisChunkInRange(p.x, cs, d.x);
    AxisChunkInRange(p.y, cs, d.y);
    AxisChunkInRange(p.z, cs, d.z);
  }

  /** A voxel is determined by its chunk and its offset inside that chunk. */
  lemma ChunkAndOffsetDetermineVoxel(p: Vec3, q: Vec3, cs: ChunkSize)
    requires WorldToChunk(p, cs) == WorldToChunk(q, cs)
    requires LocalOffset(p, cs) == LocalOffset(q, cs)
    ensures p == q
  {
    OffsetRebuildsVoxel(p, cs);
    OffsetRebuildsVoxel(q, cs);
  }
}
