/** The world object: its layout, the edit buffer producers fill, and the
    region file holding the chunk log. The region file is modelled as the
    sequence of records it holds; writing a record appends to it, and the
    final rename replaces it with the scratch file's records. */
module WorldStore {
  import opened Coords
  import opened ChunkOrder
  import opened Records
  import opened Generation
  import opened EditSort
  import opened Merge

  class World {
    const chunkSize: ChunkSize
    const dim: Dims
    /** Pending edits, in insertion order until a pass sorts them. */
    var editBuffer: seq<Edit>
    /** The records of the region file, in file order. */
    var region: seq<Chunk>

    /** Every buffered edit was accepted by `AddEditBuffer`. */
    ghost predicate Valid()
      reads this
    {
      forall k :: 0 <= k < |editBuffer| ==> WellFormed(editBuffer[k], chunkSize, dim)
    }

    constructor (cs: ChunkSize, d: Dims)
      ensures chunkSize == cs && dim == d
      ensures editBuffer == [] && region == [] && Valid()
    {
      chunkSize, dim := cs, d;
      editBuffer, region := [], [];
    }

    /** The layout a world starts with: chunks of 16 voxels, 20 x 5 x 20 chunks. */
    constructor Default()
      ensures chunkSize == DefaultChunkSize && dim == DefaultDim
      ensures editBuffer == [] && region == [] && Valid()
    {
      chunkSize, dim := DefaultChunkSize, DefaultDim;
      editBuffer, region := [], [];
    }

    /** Appends one blank record per chunk coordinate, x outer, y middle,
        z inner. */
    method GenerateBlank()
      modifies this`region
      ensures region == old(region) + BlankLog(dim, chunkSize)
      ensures old(region) == [] ==> Layout(region, dim)
    {
      BlankLogLayout(dim, chunkSize);
      var i := 0;
      while i < dim.x
        invariant 0 <= i <= dim.x
        invariant region == old(region) + XRun(i, dim.y, dim.z, chunkSize)
      {
        var j := 0;
        while j < dim.y
          invariant 0 <= j <= dim.y
          invariant region == old(region) + XRun(i, dim.y, dim.z, chunkSize) + YRun(i, j, dim.z, chunkSize)
        {
          var k := 0;
          while k < dim.z
            invariant 0 <= k <= dim.z
            invariant region == old(region) + XRun(i, dim.y, dim.z, chunkSize)
                                 + YRun(i, j, dim.z, chunkSize) + ZRun(i, j, k, chunkSize)
          {
            var chunk := Chunk(Vec3(i, j, k), chunkSize, BiomeVoid, map[]);
            region := region + [chunk];
            k := k + 1;
          }
          j := j + 1;
        }
        i := i + 1;
      }
    }

    /** Enqueues an edit at world position `pos`, rejecting positions outside
        the world. */
    method AddEditBuffer(pos: Vec3, t: BlockType) returns (ok: bool)
      requires Valid()
      modifies this`editBuffer
      ensures Valid()
      ensures ok <==> InBounds(pos, chunkSize, dim)
      ensures ok ==> editBuffer == old(editBuffer) + [Edit(pos, WorldToChunk(pos, chunkSize), t)]
      ensures !ok ==> editBuffer == old(editBuffer)
    {
      if pos.x < 0 || pos.y < 0 || pos.z < 0
         || pos.x >= chunkSize * dim.x || pos.y >= chunkSize * dim.y || pos.z >= chunkSize * dim.z
      {
        return false;
      }
      var cpos := Vec3(pos.x / chunkSize, pos.y / chunkSize, pos.z / chunkSize);
      InBoundsChunkInDim(pos, chunkSize, dim);
      editBuffer := editBuffer + [Edit(pos, cpos, t)];
      return true;
    }

    /** The loop that runs while edits are pending: reads records from
        `input`, copies those no edit targets and applies each group of
        edits to its record, popping the buffer from the back. `es` is the
        buffer in popping order. On success the buffer is empty and `out`
        holds the records written. */
    method ScanPass(input: seq<Chunk>, ghost es: seq<Edit>) returns (ok: bool, out: seq<Chunk>)
      requires editBuffer == Reverse(es)
      modifies this`editBuffer
      ensures ok == Scan(input, es, chunkSize).Some?
      ensures ok ==> out == Scan(input, es, chunkSize).value && editBuffer == []
      ensures |editBuffer| <= |old(editBuffer)| && editBuffer == old(editBuffer)[..|editBuffer|]
    {
      var rd := 0;
      out := [];
      ghost var left := es;
      ScanFromStart(input, es, chunkSize);

      while editBuffer != []
        invariant 0 <= rd <= |input| && |out| == rd
        invariant |editBuffer| <= |old(editBuffer)| && editBuffer == old(editBuffer)[..|editBuffer|]
        invariant editBuffer == Reverse(left)
        invariant Scan(input, es, chunkSize) == Concat(out, Scan(input[rd..], left, chunkSize))
        decreases |input| - rd
      {
        // read the next record
        if rd == |input| {
          ScanExhausted(input, left, chunkSize);
          return false, out;
        }
        var chunk := input[rd];
        rd := rd + 1;

        // copy records that no pending edit targets
        var found, skipped;
        found, chunk, rd, skipped := CopyUntargeted(input, rd, left);
        if !found {
          ConcatAssoc(out, [], None);
          return false, out;
        }
        ConcatAssoc(out, skipped, Scan(input[rd - 1..], left, chunkSize));
        out := out + skipped;

        // apply every pending edit for this record
        ScanStep(input, rd - 1, left, chunkSize);
        ghost var g := ApplyGroup(chunk, left, chunkSize);
        chunk := ApplyPending(chunk, left);
        left := g.1;

        // write the edited record
        ConcatAssoc(out, [chunk], Scan(input[rd..], left, chunkSize));
        out := out + [chunk];
      }
      ConcatDone(out);
      return true, out;
    }

    /** The inner loop that copies records while the next pending edit is
        for another chunk. It starts with record `rd - 1` read; it stops at
        the record the edit targets, or fails at the end of the input. */
    method CopyUntargeted(input: seq<Chunk>, rd0: nat, ghost es: seq<Edit>)
      returns (found: bool, chunk: Chunk, rd: nat, skipped: seq<Chunk>)
      requires 0 < rd0 <= |input| && es != [] && editBuffer == Reverse(es)
      ensures found ==> rd0 <= rd <= |input| && chunk == input[rd - 1] && chunk.pos == es[0].cpos
      ensures found ==> skipped == input[rd0 - 1..rd - 1]
      ensures found ==> forall m :: rd0 - 1 <= m < rd - 1 ==> input[m].pos != es[0].cpos
      ensures found ==> Scan(input[rd0 - 1..], es, chunkSize) == Concat(skipped, Scan(input[rd - 1..], es, chunkSize))
      ensures !found ==> forall m :: rd0 - 1 <= m < |input| ==> input[m].pos != es[0].cpos
      ensures !found ==> Scan(input[rd0 - 1..], es, chunkSize) == None
    {
      ReversePop(es);
      rd := rd0;
      chunk := input[rd - 1];
      skipped := [];
      assert input[rd0 - 1..rd - 1] == [];
      ScanFromStart(input[rd0 - 1..], es, chunkSize);
      assert input[rd0 - 1..][0..] == input[rd - 1..];
      while chunk.pos != editBuffer[|editBuffer| - 1].cpos
        invariant rd0 <= rd <= |input| && chunk == input[rd - 1]
        invariant skipped == input[rd0 - 1..rd - 1]
        invariant forall m :: rd0 - 1 <= m < rd - 1 ==> input[m].pos != es[0].cpos
        invariant Scan(input[rd0 - 1..], es, chunkSize) == Concat(skipped, Scan(input[rd - 1..], es, chunkSize))
        decreases |input| - rd
      {
        ScanStep(input, rd - 1, es, chunkSize);
        GroupMismatch(chunk, es, chunkSize);
        ConcatAssoc(skipped, [chunk], Scan(input[rd..], es, chunkSize));
        if rd == |input| {
          // end of file with an edit still unmatched
          ScanExhausted(input, es, chunkSize);
          return false, chunk, rd, skipped;
        }
        skipped := skipped + [chunk];
        chunk := input[rd];
        rd := rd + 1;
      }
      return true, chunk, rd, skipped;
    }

    /** The inner loop that applies the pending edits for `chunk`: while the
        back of the buffer targets it, set the edit's voxel and pop it. */
    method ApplyPending(chunk0: Chunk, ghost es: seq<Edit>) returns (chunk: Chunk)
      requires editBuffer == Reverse(es)
      modifies this`editBuffer
      ensures chunk == ApplyGroup(chunk0, es, chunkSize).0
      ensures editBuffer == Reverse(ApplyGroup(chunk0, es, chunkSize).1)
      ensures |editBuffer| <= |old(editBuffer)| && editBuffer == old(editBuffer)[..|editBuffer|]
    {
      chunk := chunk0;
      ghost var left := es;
      while editBuffer != [] && chunk.pos == editBuffer[|editBuffer| - 1].cpos
        invariant |editBuffer| <= |old(editBuffer)| && editBuffer == old(editBuffer)[..|editBuffer|]
        invariant editBuffer == Reverse(left)
        invariant ApplyGroup(chunk, left, chunkSize) == ApplyGroup(chunk0, es, chunkSize)
        decreases |editBuffer|
      {
        ReversePop(left);
        var e := editBuffer[|editBuffer| - 1];
        GroupMatch(chunk, left, chunkSize);
        chunk := SetPosition(chunk, LocalOffset(e.pos, chunkSize), e.blockType);
        editBuffer := editBuffer[..|editBuffer| - 1];
        left := left[1..];
      }
      if left != [] {
        ReversePop(left);
      }
      GroupMismatch(chunk, left, chunkSize);
    }

    /** Applies every buffered edit in one pass over the region file and
        replaces the file with the result; on failure the file is left as it
        was and the buffer is left partly consumed. */
    method EvaluateEditBuffer() returns (ok: bool)
      requires Valid()
      modifies this`editBuffer, this`region
      ensures Valid()
      ensures old(editBuffer) == [] ==> !ok && editBuffer == old(editBuffer) && region == old(region)
      ensures ok == Evaluate(old(region), old(editBuffer), Total(dim), chunkSize).Some?
      ensures ok ==> region == Evaluate(old(region), old(editBuffer), Total(dim), chunkSize).value
      ensures ok ==> editBuffer == []
      ensures !ok ==> region == old(region)
      ensures old(editBuffer) != [] ==>
        |editBuffer| <= |SortForMerge(old(editBuffer))| && editBuffer == SortForMerge(old(editBuffer))[..|editBuffer|]
    {
      if |editBuffer| == 0 {
        return false;
      }

      ghost var buffer := editBuffer;
      editBuffer := SortForMerge(editBuffer);
      ghost var sorted := editBuffer;
      assert sorted == Reverse(SortAsc(buffer));
      PrefixKeepsWellFormed(buffer, sorted, |sorted|, chunkSize, dim);

      var input := region;
      var total := dim.x * dim.y * dim.z;
      assert Total(dim) == total;
      var scanned, out := ScanPass(input, SortAsc(buffer));
      PrefixKeepsWellFormed(buffer, sorted, |editBuffer|, chunkSize, dim);
      ok := false;
      if scanned {
        ScanShape(input, SortAsc(buffer), chunkSize);
        // copy the records after the last edited one
        var copied;
        copied, out := CopyRemaining(input, out, total);
        if copied {
          // replace the region file with the output file
          region := out;
          ok := true;
        }
      }
    }
  }

  /** The loop after the scan: the records after the last one read are
      copied unchanged until `total` records have been written. It fails when
      the input runs out first. */
  method CopyRemaining(input: seq<Chunk>, w: seq<Chunk>, total: int) returns (ok: bool, out: seq<Chunk>)
    requires |w| <= |input|
    ensures ok <==> |w| >= total || total <= |input|
    ensures ok && |w| >= total ==> out == w
    ensures ok && |w| < total ==> out == w + input[|w|..total]
  {
    var nChunks := |w|;
    var rd := |w|;
    out := w;
    while nChunks < total
      invariant |w| <= rd <= |input| && |out| == rd && nChunks == rd
      invariant |w| < total ==> rd <= total
      invariant |w| >= total ==> rd == |w|
      invariant out == w + input[|w|..rd]
      decreases total - nChunks
    {
      if rd >= |input| {
        return false, out;
      }
      out := out + [input[rd]];
      rd := rd + 1;
      nChunks := nChunks + 1;
    }
    return true, out;
  }

  /** The entry state of the scan: nothing written yet. */
  lemma ScanFromStart(input: seq<Chunk>, es: seq<Edit>, cs: ChunkSize)
    ensures Scan(input, es, cs) == Concat([], Scan(input[0..], es, cs))
  {
    assert input[0..] == input;
    match Scan(input, es, cs)
    case None =>
    case Some(v) => assert [] + v == v;
  }

  /** The exit state of the scan: no edit left, nothing more written. */
  lemma ConcatDone(out: seq<Chunk>)
    ensures Concat(out, Some([])) == Some(out)
  {
    assert out + [] == out;
  }

  /** Every edit of a prefix of a permutation of a well-formed buffer is well formed. */
  lemma PrefixKeepsWellFormed(buffer: seq<Edit>, sorted: seq<Edit>, n: nat, cs: ChunkSize, d: Dims)
    requires forall k :: 0 <= k < |buffer| ==> WellFormed(buffer[k], cs, d)
    requires multiset(sorted) == multiset(buffer) && n <= |sorted|
    ensures forall k :: 0 <= k < n ==> WellFormed(sorted[k], cs, d)
  {
    forall k | 0 <= k < n
      ensures WellFormed(sorted[k], cs, d)
    {
      assert sorted[k] in multiset(buffer);
      var j :| 0 <= j < |buffer| && buffer[j] == sorted[k];
    }
  }
}
