/** The two record kinds the merge works on: a chunk record of the store and
    a pending edit of the edit buffer. */
module Records {
  import opened Coords
  import opened ChunkOrder

  /** A block value, one enumerator of the world's block enumeration. */
  type BlockType = int

  /** The biome tag a chunk is generated with; content producers are not modelled. */
  datatype Biome = BiomeVoid

  /** A chunk record: its chunk-space coordinate, its edge size, its biome and
      its blocks, addressed by chunk-local voxel offset. An offset missing
      from `blocks` holds the default block. */
  datatype Chunk = Chunk(pos: Vec3, size: int, biome: Biome, blocks: map<Vec3, BlockType>)

  /** A pending edit (`bufferObject`): a world-space position, the chunk
      coordinate derived from it when it was enqueued, and the new block. */
  datatype Edit = Edit(pos: Vec3, cpos: Vec3, blockType: BlockType)

  /** `Chunk::setPosition`: the block at a chunk-local offset becomes `t`. */
  function SetPosition(c: Chunk, offset: Vec3, t: BlockType): Chunk {
    c.(blocks := c.blocks[offset := t])
  }

  /** One edit applied to one chunk, at the edit's offset inside its chunk. */
  function Apply(c: Chunk, e: Edit, cs: ChunkSize): (r: Chunk)
    ensures r.pos == c.pos && r.size == c.size && r.biome == c.biome
    ensures r.blocks.Keys == c.blocks.Keys + {LocalOffset(e.pos, cs)}
    ensures r.blocks[LocalOffset(e.pos, cs)] == e.blockType
    ensures forall o :: o in c.blocks && o != LocalOffset(e.pos, cs) ==> r.blocks[o] == c.blocks[o]
  {
    SetPosition(c, LocalOffset(e.pos, cs), e.blockType)
  }

  /** The edit was built by the ingestion step: its chunk coordinate is the
      chunk of its position, and that chunk belongs to the world. */
  predicate WellFormed(e: Edit, cs: ChunkSize, d: Dims) {
    e.cpos == WorldToChunk(e.pos, cs) && InDim(e.cpos, d)
  }

  /** Records in strictly increasing canonical order (so no position twice). */
  predicate StrictlyIncreasing(log: seq<Chunk>) {
    forall i, j :: 0 <= i < j < |log| ==> Less(log[i].pos, log[j].pos)
  }

  /** The chunk coordinates present in a store. */
  function Positions(log: seq<Chunk>): set<Vec3> {
    set i | 0 <= i < |log| :: log[i].pos
  }

  /** A strictly increasing store holds each position once. */
  lemma StrictlyIncreasingIsUnique(log: seq<Chunk>, i: int, j: int)
    requires StrictlyIncreasing(log)
    requires 0 <= i < |log| && 0 <= j < |log| && i != j
    ensures log[i].pos != log[j].pos
  {
    if i < j {
      LessIsStrictOrder(log[i].pos, log[j].pos, log[j].pos);
    } else {
      LessIsStrictOrder(log[j].pos, log[i].pos, log[i].pos);
    }
  }
}
