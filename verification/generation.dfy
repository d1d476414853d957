/** The blank store: one default record per chunk coordinate, in the order of
    three nested loops (x outer, y middle, z inner). Each run below is the
    output of one loop level. */
module Generation {
  import opened Coords
  import opened ChunkOrder
  import opened Records

  /** A freshly generated record: void biome, the world's chunk size, no blocks set. */
  function BlankChunk(p: Vec3, cs: ChunkSize): Chunk {
    Chunk(p, cs, BiomeVoid, map[])
  }

  /** Records `(i, j, 0) .. (i, j, n - 1)`: the first `n` turns of the z loop. */
  function ZRun(i: int, j: int, n: nat, cs: ChunkSize): seq<Chunk> {
    if n == 0 then [] else ZRun(i, j, n - 1, cs) + [BlankChunk(Vec3(i, j, n - 1), cs)]
  }

  /** The first `m` turns of the y loop inside x turn `i`. */
  function YRun(i: int, m: nat, nz: nat, cs: ChunkSize): seq<Chunk> {
    if m == 0 then [] else YRun(i, m - 1, nz, cs) + ZRun(i, m - 1, nz, cs)
  }

  /** The first `l` turns of the x loop. */
  function XRun(l: nat, ny: nat, nz: nat, cs: ChunkSize): seq<Chunk> {
    if l == 0 then [] else XRun(l - 1, ny, nz, cs) + YRun(l - 1, ny, nz, cs)
  }

  /** The whole store written for a world of extent `d`. */
  function BlankLog(d: Dims, cs: ChunkSize): seq<Chunk> {
    XRun(d.x, d.y, d.z, cs)
  }

  lemma {:induction false} ZRunAt(i: int, j: int, n: nat, cs: ChunkSize)
    ensures |ZRun(i, j, n, cs)| == n
    ensures forall k :: 0 <= k < n ==> ZRun(i, j, n, cs)[k] == BlankChunk(Vec3(i, j, k), cs)
  {
    if n > 0 {
      ZRunAt(i, j, n - 1, cs);
    }
  }

  /** Record `t` of the y loop inside x turn `i` is the blank record with x
      coordinate `i` and offset `t` inside the x block (`y * nz + z == t`). */
  lemma {:induction false} YRunAt(i: int, m: nat, nz: nat, cs: ChunkSize)
    ensures |YRun(i, m, nz, cs)| == m * nz
    ensures forall t :: 0 <= t < m * nz ==>
      var c := YRun(i, m, nz, cs)[t];
      && c == BlankChunk(c.pos, cs)
      && c.pos.x == i && 0 <= c.pos.y < m && 0 <= c.pos.z < nz
      && c.pos.y * nz + c.pos.z == t
  {
    if m > 0 {
      YRunAt(i, m - 1, nz, cs);
      ZRunAt(i, m - 1, nz, cs);
      var prev := YRun(i, m - 1, nz, cs);
      var run := YRun(i, m, nz, cs);
      var base := (m - 1) * nz;
      assert base + nz == m * nz;
      forall t | 0 <= t < m * nz
        ensures var c := run[t];
          && c == BlankChunk(c.pos, cs)
          && c.pos.x == i && 0 <= c.pos.y < m && 0 <= c.pos.z < nz
          && c.pos.y * nz + c.pos.z == t
      {
        if t < base {
          assert run[t] == prev[t];
        } else {
          assert run[t] == ZRun(i, m - 1, nz, cs)[t - base];
        }
      }
    }
  }

  /** Record `t` of the first `l` turns of the x loop has rank `t`. */
  lemma {:induction false} XRunAt(l: nat, ny: nat, nz: nat, cs: ChunkSize)
    ensures |XRun(l, ny, nz, cs)| == l * (ny * nz)
    ensures forall t :: 0 <= t < l * (ny * nz) ==>
      var c := XRun(l, ny, nz, cs)[t];
      && c == BlankChunk(c.pos, cs)
      && InDim(c.pos, Dims(l, ny, nz))
      && Rank(c.pos, Dims(l, ny, nz)) == t
  {
    if l > 0 {
      XRunAt(l - 1, ny, nz, cs);
      YRunAt(l - 1, ny, nz, cs);
      var prev := XRun(l - 1, ny, nz, cs);
      var log := XRun(l, ny, nz, cs);
      var p := ny * nz;
      var base := (l - 1) * p;
      assert base + p == l * p;
      forall t | 0 <= t < l * p
        ensures var c := log[t];
          && c == BlankChunk(c.pos, cs)
          && InDim(c.pos, Dims(l, ny, nz))
          && Rank(c.pos, Dims(l, ny, nz)) == t
      {
        var c := log[t];
        if t < base {
          assert c == prev[t];
          assert Rank(c.pos, Dims(l, ny, nz)) == Rank(c.pos, Dims(l - 1, ny, nz));
        } else {
          assert c == YRun(l - 1, ny, nz, cs)[t - base];
          RankExpand(c.pos.x, c.pos.y, c.pos.z, ny, nz);
        }
      }
    }
  }

  /** `generateBlank` writes exactly `dim.x * dim.y * dim.z` records, and the
      record at file index `n` is the blank record of the coordinate of rank `n`. */
  lemma BlankLogShape(d: Dims, cs: ChunkSize)
    ensures |BlankLog(d, cs)| == Total(d)
    ensures forall n :: 0 <= n < |BlankLog(d, cs)| ==>
      var c := BlankLog(d, cs)[n];
      c == BlankChunk(c.pos, cs) && InDim(c.pos, d) && Rank(c.pos, d) == n
  {
    XRunAt(d.x, d.y, d.z, cs);
    assert d.x * (d.y * d.z) == d.x * d.y * d.z;
  }

  /** Every chunk of the world has its blank record in the store, at index `Rank(p)`:
      coordinates appear in x-outer, z-inner order. */
  lemma BlankLogCovers(d: Dims, cs: ChunkSize, p: Vec3)
    requires InDim(p, d)
    ensures 0 <= Rank(p, d) < |BlankLog(d, cs)|
    ensures BlankLog(d, cs)[Rank(p, d)] == BlankChunk(p, cs)
  {
    BlankLogShape(d, cs);
    RankSplit(p, d);
    assert d.x * (d.y * d.z) == Total(d);
    var c := BlankLog(d, cs)[Rank(p, d)];
    RankInjective(c.pos, p, d);
  }

  /** The layout of a store that `generateBlank` writes and every pass keeps:
      exactly `Total(d)` records, record `n` at the chunk coordinate of rank `n`. */
  predicate Layout(store: seq<Chunk>, d: Dims) {
    && |store| == Total(d)
    && forall n :: 0 <= n < |store| ==> InDim(store[n].pos, d) && Rank(store[n].pos, d) == n
  }

  /** The generated store has the layout. */
  lemma BlankLogLayout(d: Dims, cs: ChunkSize)
    ensures Layout(BlankLog(d, cs), d)
  {
    BlankLogShape(d, cs);
  }

  /** A store with the layout is strictly increasing in the canonical order. */
  lemma LayoutSorted(store: seq<Chunk>, d: Dims)
    requires Layout(store, d)
    ensures StrictlyIncreasing(store)
  {
    forall i, j | 0 <= i < j < |store|
      ensures Less(store[i].pos, store[j].pos)
    {
      LessMatchesRank(store[i].pos, store[j].pos, d);
    }
  }

  /** A store with the layout holds a record for every chunk of the world,
      at index `Rank(p)`. */
  lemma LayoutCovers(store: seq<Chunk>, d: Dims, p: Vec3)
    requires Layout(store, d) && InDim(p, d)
    ensures 0 <= Rank(p, d) < |store| && store[Rank(p, d)].pos == p
    ensures p in Positions(store)
  {
    RankSplit(p, d);
    assert d.x * (d.y * d.z) == Total(d);
    RankInjective(store[Rank(p, d)].pos, p, d);
  }

  /** The generated store is strictly increasing in the canonical order. */
  lemma BlankLogSorted(d: Dims, cs: ChunkSize)
    ensures StrictlyIncreasing(BlankLog(d, cs))
  {
    BlankLogLayout(d, cs);
    LayoutSorted(BlankLog(d, cs), d);
  }

  /** Hence no chunk coordinate is written twice. */
  lemma BlankLogUnique(d: Dims, cs: ChunkSize, i: int, j: int)
    requires 0 <= i < j < |BlankLog(d, cs)|
    ensures BlankLog(d, cs)[i].pos != BlankLog(d, cs)[j].pos
  {
    BlankLogSorted(d, cs);
    StrictlyIncreasingIsUnique(BlankLog(d, cs), i, j);
  }
}
