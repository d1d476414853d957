/** The single pass of the merge, as functions of the store and of the
    pending edits in the order they are popped (ascending), together with a
    random-access reference (apply each edit, in insertion order, to every
    record at its chunk coordinate) and the lemmas connecting the two. */
module Merge {
  import opened Coords
  import opened ChunkOrder
  import opened Records
  import opened EditSort
  import opened Generation

  datatype Option<T> = None | Some(value: T)

  /** `out` followed by what the rest of the pass writes; failure stays failure. */
  function Concat(out: seq<Chunk>, o: Option<seq<Chunk>>): Option<seq<Chunk>> {
    match o
    case None => None
    case Some(w) => Some(out + w)
  }

  /** The edits of `es` that target `c`'s coordinate applied to `c`, in order. */
  function ApplyToChunk(c: Chunk, es: seq<Edit>, cs: ChunkSize): (r: Chunk)
    ensures r.pos == c.pos
    decreases |es|
  {
    if es == [] then c
    else ApplyToChunk(if es[0].cpos == c.pos then Apply(c, es[0], cs) else c, es[1..], cs)
  }

  /** The inner loop at the current record: while the next pending edit
      targets this record, apply it and pop it. Returns the record and the
      edits still pending. */
  function ApplyGroup(c: Chunk, es: seq<Edit>, cs: ChunkSize): (Chunk, seq<Edit>)
    decreases |es|
  {
    if es != [] && es[0].cpos == c.pos then ApplyGroup(Apply(c, es[0], cs), es[1..], cs)
    else (c, es)
  }

  /** The group is the longest prefix of the pending edits that targets the
      record: what is left is a suffix whose first edit is for another chunk,
      and the record has the dropped edits applied in order. */
  lemma {:induction false} ApplyGroupShape(c: Chunk, es: seq<Edit>, cs: ChunkSize)
    ensures var r := ApplyGroup(c, es, cs);
      && |r.1| <= |es| && r.1 == es[|es| - |r.1|..]
      && (forall k :: 0 <= k < |es| - |r.1| ==> es[k].cpos == c.pos)
      && (r.1 != [] ==> r.1[0].cpos != c.pos)
      && r.0 == ApplyToChunk(c, es[..|es| - |r.1|], cs)
    decreases |es|
  {
    if es != [] && es[0].cpos == c.pos {
      var r := ApplyGroup(Apply(c, es[0], cs), es[1..], cs);
      ApplyGroupShape(Apply(c, es[0], cs), es[1..], cs);
      assert es[..|es| - |r.1|][1..] == es[1..][..|es[1..]| - |r.1|];
      assert es[1..][|es[1..]| - |r.1|..] == es[|es| - |r.1|..];
    } else {
      assert es[..0] == [];
    }
  }

  /** The record-by-record scan that runs while edits are pending. Each record
      read is written once: unchanged when the next pending edit is for
      another chunk, with its group of edits applied when it is the one.
      It fails when edits remain and no record is left to read. On success
      it gives the records written so far; as many records have been read. */
  function Scan(input: seq<Chunk>, es: seq<Edit>, cs: ChunkSize): Option<seq<Chunk>>
    decreases |input|
  {
    if es == [] then Some([])
    else if input == [] then None
    else
      var g := ApplyGroup(input[0], es, cs);
      Concat([g.0], Scan(input[1..], g.1, cs))
  }

  /** A successful scan writes at most as many records as it reads, and the
      record it writes at index `i` keeps the position of input record `i`. */
  lemma {:induction false} ScanShape(input: seq<Chunk>, es: seq<Edit>, cs: ChunkSize)
    requires Scan(input, es, cs).Some?
    ensures |Scan(input, es, cs).value| <= |input|
    ensures forall i :: 0 <= i < |Scan(input, es, cs).value| ==> Scan(input, es, cs).value[i].pos == input[i].pos
    decreases |input|
  {
    if es != [] {
      var g := ApplyGroup(input[0], es, cs);
      ApplyGroupShape(input[0], es, cs);
      ScanShape(input[1..], g.1, cs);
      var w := Scan(input, es, cs).value;
      forall i | 1 <= i < |w|
        ensures w[i].pos == input[i].pos
      {
        assert w[i] == Scan(input[1..], g.1, cs).value[i - 1];
      }
    }
  }

  /** While edits are pending, a successful scan writes at least one record. */
  lemma ScanWritesSomething(input: seq<Chunk>, es: seq<Edit>, cs: ChunkSize)
    requires es != [] && Scan(input, es, cs).Some?
    ensures |Scan(input, es, cs).value| > 0
  {
  }

  /** The whole pass over `input` with pending edits `es`: the scan, then the
      remaining records copied unchanged until `total` records have been
      written. Fails when the input runs out first. */
  function MergePass(input: seq<Chunk>, es: seq<Edit>, total: int, cs: ChunkSize): Option<seq<Chunk>> {
    match Scan(input, es, cs)
    case None => None
    case Some(w) =>
      if |w| >= total then Some(w)
      else if |input| < total then None
      else Some(w + input[|w|..total])
  }

  /** What `evaluateEditBuffer` commits: nothing for an empty buffer, otherwise
      the pass over the store with the buffer in the order it is popped. */
  function Evaluate(store: seq<Chunk>, buffer: seq<Edit>, total: int, cs: ChunkSize): Option<seq<Chunk>> {
    if buffer == [] then None else MergePass(store, SortAsc(buffer), total, cs)
  }

  // Steps of the pass, one record or one edit at a time

  /** Reading and handling the record at cursor `rd`. */
  lemma ScanStep(input: seq<Chunk>, rd: nat, es: seq<Edit>, cs: ChunkSize)
    requires rd < |input| && es != []
    ensures Scan(input[rd..], es, cs)
      == Concat([ApplyGroup(input[rd], es, cs).0], Scan(input[rd + 1..], ApplyGroup(input[rd], es, cs).1, cs))
  {
    assert input[rd..][1..] == input[rd + 1..];
  }

  /** No record is left to read while an edit is pending. */
  lemma ScanExhausted(input: seq<Chunk>, es: seq<Edit>, cs: ChunkSize)
    requires es != []
    ensures Scan(input[|input|..], es, cs) == None
  {
    assert input[|input|..] == [];
  }

  /** The record does not match the next pending edit: it is written unchanged. */
  lemma GroupMismatch(c: Chunk, es: seq<Edit>, cs: ChunkSize)
    requires es == [] || es[0].cpos != c.pos
    ensures ApplyGroup(c, es, cs) == (c, es)
  {
  }

  /** The record matches the next pending edit: it is applied and popped. */
  lemma GroupMatch(c: Chunk, es: seq<Edit>, cs: ChunkSize)
    requires es != [] && es[0].cpos == c.pos
    ensures ApplyGroup(c, es, cs) == ApplyGroup(Apply(c, es[0], cs), es[1..], cs)
  {
  }

  lemma ConcatAssoc(a: seq<Chunk>, b: seq<Chunk>, o: Option<seq<Chunk>>)
    ensures Concat(a, Concat(b, o)) == Concat(a + b, o)
  {
    if o.Some? {
      assert a + (b + o.value) == (a + b) + o.value;
    }
  }

  // ---------------------------------------------------------------------------
  // Random-access reference

  /** Edit `e` applied to an in-memory copy of the store: every record whose
      position is `e`'s chunk coordinate is updated in place. */
  function ApplyEdit(log: seq<Chunk>, e: Edit, cs: ChunkSize): (r: seq<Chunk>)
    ensures |r| == |log|
  {
    seq(|log|, i requires 0 <= i < |log| => if log[i].pos == e.cpos then Apply(log[i], e, cs) else log[i])
  }

  /** Every edit applied to the in-memory copy, in buffer order. */
  function RandomAccessApply(log: seq<Chunk>, es: seq<Edit>, cs: ChunkSize): seq<Chunk>
    decreases |es|
  {
    if es == [] then log else RandomAccessApply(ApplyEdit(log, es[0], cs), es[1..], cs)
  }

  /** The reference acts record by record: record `i` ends up as its own
      edits applied to it, in buffer order. */
  lemma {:induction false} RandomAccessPointwise(log: seq<Chunk>, es: seq<Edit>, cs: ChunkSize)
    ensures |RandomAccessApply(log, es, cs)| == |log|
    ensures forall i :: 0 <= i < |log| ==>
      RandomAccessApply(log, es, cs)[i] == ApplyToChunk(log[i], es, cs)
    decreases |es|
  {
    if es != [] {
      var next := ApplyEdit(log, es[0], cs);
      RandomAccessPointwise(next, es[1..], cs);
    }
  }

  lemma {:induction false} ApplyToChunkConcat(c: Chunk, a: seq<Edit>, b: seq<Edit>, cs: ChunkSize)
    ensures ApplyToChunk(c, a + b, cs) == ApplyToChunk(ApplyToChunk(c, a, cs), b, cs)
    decreases |a|
  {
    if a == [] {
      assert a + b == b;
    } else {
      assert (a + b)[1..] == a[1..] + b;
      ApplyToChunkConcat(if a[0].cpos == c.pos then Apply(c, a[0], cs) else c, a[1..], b, cs);
    }
  }

  /** Edits for other chunks leave a record alone. */
  lemma {:induction false} ApplyToChunkUntargeted(c: Chunk, es: seq<Edit>, cs: ChunkSize)
    requires forall k :: 0 <= k < |es| ==> es[k].cpos != c.pos
    ensures ApplyToChunk(c, es, cs) == c
  {
    if es != [] {
      ApplyToChunkUntargeted(c, es[1..], cs);
    }
  }

  /** Only the record's own edits matter, in their order. */
  lemma {:induction false} ApplyToChunkFilter(c: Chunk, es: seq<Edit>, cs: ChunkSize)
    ensures ApplyToChunk(c, es, cs) == ApplyToChunk(c, Filter(es, c.pos), cs)
    decreases |es|
  {
    if es != [] {
      var c' := if es[0].cpos == c.pos then Apply(c, es[0], cs) else c;
      ApplyToChunkFilter(c', es[1..], cs);
      var head := if es[0].cpos == c.pos then [es[0]] else [];
      ApplyToChunkConcat(c, head, Filter(es[1..], c.pos), cs);
      if head != [] {
        assert head[1..] == [];
      }
    }
  }

  /** Reordering by the stable sort does not change the random-access result. */
  lemma SortedOrderSameResult(log: seq<Chunk>, b: seq<Edit>, cs: ChunkSize)
    ensures RandomAccessApply(log, SortAsc(b), cs) == RandomAccessApply(log, b, cs)
  {
    RandomAccessPointwise(log, SortAsc(b), cs);
    RandomAccessPointwise(log, b, cs);
    forall i | 0 <= i < |log|
      ensures ApplyToChunk(log[i], SortAsc(b), cs) == ApplyToChunk(log[i], b, cs)
    {
      ApplyToChunkFilter(log[i], SortAsc(b), cs);
      ApplyToChunkFilter(log[i], b, cs);
      SortAscStable(b, log[i].pos);
    }
  }

  // ---------------------------------------------------------------------------
  // The pass against the reference

  /** After the group at the first record, every pending edit targets a
      later record of the rest of the store, still in ascending order. */
  lemma PendingAfterGroup(input: seq<Chunk>, es: seq<Edit>, cs: ChunkSize)
    requires StrictlyIncreasing(input) && input != []
    requires Ascending(es)
    requires forall k :: 0 <= k < |es| ==> es[k].cpos in Positions(input)
    ensures var rest := ApplyGroup(input[0], es, cs).1;
      && Ascending(rest)
      && (forall k :: 0 <= k < |rest| ==> Less(input[0].pos, rest[k].cpos))
      && (forall k :: 0 <= k < |rest| ==> rest[k].cpos in Positions(input[1..]))
  {
    var rest := ApplyGroup(input[0], es, cs).1;
    ApplyGroupShape(input[0], es, cs);
    var n := |es| - |rest|;
    RestIsLater(input, es, cs);
    forall k | 0 <= k < |rest|
      ensures rest[k].cpos in Positions(input[1..])
    {
      assert rest[k] == es[n + k];
      LaterIsInTail(input, rest[k].cpos);
    }
    forall i, j | 0 <= i < j < |rest|
      ensures !Less(rest[j].cpos, rest[i].cpos)
    {
      assert rest[i] == es[n + i] && rest[j] == es[n + j];
    }
  }

  /** The edits left after the group target chunks after the first record. */
  lemma RestIsLater(input: seq<Chunk>, es: seq<Edit>, cs: ChunkSize)
    requires StrictlyIncreasing(input) && input != []
    requires Ascending(es)
    requires forall k :: 0 <= k < |es| ==> es[k].cpos in Positions(input)
    ensures var rest := ApplyGroup(input[0], es, cs).1;
      forall k :: 0 <= k < |rest| ==> Less(input[0].pos, rest[k].cpos)
  {
    var r := input[0];
    var rest := ApplyGroup(r, es, cs).1;
    ApplyGroupShape(r, es, cs);
    var n := |es| - |rest|;
    if rest != [] {
      assert rest[0] == es[n];
      var j :| 0 <= j < |input| && input[j].pos == rest[0].cpos;
      assert j != 0;
      assert Less(r.pos, rest[0].cpos);
      forall k | 0 <= k < |rest|
        ensures Less(r.pos, rest[k].cpos)
      {
        assert rest[k] == es[n + k];
        NotAfterThenBefore(r.pos, rest[0].cpos, rest[k].cpos);
      }
    }
  }

  /** A position of the store after its first record's is a position of the rest. */
  lemma LaterIsInTail(input: seq<Chunk>, p: Vec3)
    requires StrictlyIncreasing(input) && input != []
    requires p in Positions(input) && Less(input[0].pos, p)
    ensures p in Positions(input[1..])
  {
    var j :| 0 <= j < |input| && input[j].pos == p;
    LessIsStrictOrder(input[0].pos, p, p);
    assert input[1..][j - 1].pos == p;
  }

  /** The record the group was popped at: when every edit left pending is
      for a later chunk, what the group makes of it is all its edits applied. */
  lemma GroupIsWholeChunk(r: Chunk, es: seq<Edit>, cs: ChunkSize)
    requires forall k :: 0 <= k < |ApplyGroup(r, es, cs).1| ==> Less(r.pos, ApplyGroup(r, es, cs).1[k].cpos)
    ensures ApplyGroup(r, es, cs).0 == ApplyToChunk(r, es, cs)
  {
    var g := ApplyGroup(r, es, cs);
    ApplyGroupShape(r, es, cs);
    var c, rest := g.0, g.1;
    var dropped := es[..|es| - |rest|];
    assert es == dropped + rest;
    ApplyToChunkConcat(r, dropped, rest, cs);
    forall k | 0 <= k < |rest| ensures rest[k].cpos != c.pos {
      LessIsStrictOrder(r.pos, rest[k].cpos, rest[k].cpos);
    }
    ApplyToChunkUntargeted(c, rest, cs);
  }

  /** A later record is not touched by the group popped at `r`. */
  lemma LaterRecordSkipsGroup(r: Chunk, x: Chunk, es: seq<Edit>, cs: ChunkSize)
    requires Less(r.pos, x.pos)
    ensures ApplyToChunk(x, es, cs) == ApplyToChunk(x, ApplyGroup(r, es, cs).1, cs)
  {
    var rest := ApplyGroup(r, es, cs).1;
    ApplyGroupShape(r, es, cs);
    var dropped := es[..|es| - |rest|];
    assert es == dropped + rest;
    LessIsStrictOrder(r.pos, x.pos, x.pos);
    ApplyToChunkConcat(x, dropped, rest, cs);
    ApplyToChunkUntargeted(x, dropped, cs);
  }

  /** On a strictly increasing store, with ascending edits that all target
      records of the store, the scan succeeds; record `i` of what it writes
      is record `i` of the input with its edits applied, and the records it
      has not reached have no edits. */
  lemma {:induction false} ScanApplies(input: seq<Chunk>, es: seq<Edit>, cs: ChunkSize)
    requires StrictlyIncreasing(input)
    requires Ascending(es)
    requires forall k :: 0 <= k < |es| ==> es[k].cpos in Positions(input)
    ensures Scan(input, es, cs).Some? && |Scan(input, es, cs).value| <= |input|
    ensures forall i :: 0 <= i < |Scan(input, es, cs).value| ==>
      Scan(input, es, cs).value[i] == ApplyToChunk(input[i], es, cs)
    ensures forall i :: |Scan(input, es, cs).value| <= i < |input| ==>
      ApplyToChunk(input[i], es, cs) == input[i]
    decreases |input|
  {
    if es == [] {
      return;
    }
    assert es[0].cpos in Positions(input);
    var g := ApplyGroup(input[0], es, cs);
    var tail := input[1..];
    PendingAfterGroup(input, es, cs);
    GroupIsWholeChunk(input[0], es, cs);
    ScanApplies(tail, g.1, cs);
    ScanShape(input, es, cs);
    var w' := Scan(tail, g.1, cs).value;
    var w := [g.0] + w';
    assert Scan(input, es, cs) == Some(w);
    forall i | 0 <= i < |w|
      ensures w[i] == ApplyToChunk(input[i], es, cs)
    {
      if i > 0 {
        assert w[i] == w'[i - 1] && tail[i - 1] == input[i];
        LaterRecordSkipsGroup(input[0], input[i], es, cs);
      }
    }
    forall i | |w| <= i < |input|
      ensures ApplyToChunk(input[i], es, cs) == input[i]
    {
      assert tail[i - 1] == input[i];
      LaterRecordSkipsGroup(input[0], input[i], es, cs);
    }
  }

  /** Single-pass equivalence for edits in merge order: on a strictly increasing
      store of exactly `total` records whose positions cover every pending
      edit, the pass equals the random-access application. */
  lemma MergeMatchesRandomAccess(input: seq<Chunk>, es: seq<Edit>, total: int, cs: ChunkSize)
    requires StrictlyIncreasing(input) && |input| == total
    requires Ascending(es)
    requires forall k :: 0 <= k < |es| ==> es[k].cpos in Positions(input)
    ensures MergePass(input, es, total, cs) == Some(RandomAccessApply(input, es, cs))
  {
    ScanApplies(input, es, cs);
    RandomAccessPointwise(input, es, cs);
    var w := Scan(input, es, cs).value;
    var out := if |w| >= total then w else w + input[|w|..total];
    assert MergePass(input, es, total, cs) == Some(out);
    assert |out| == |input|;
    forall i | 0 <= i < |input|
      ensures out[i] == RandomAccessApply(input, es, cs)[i]
    {
      if i < |w| {
        assert out[i] == w[i];
      } else {
        assert out[i] == input[i];
      }
    }
    assert out == RandomAccessApply(input, es, cs);
  }

  /** Single-pass equivalence for the buffer as the producers filled it:
      sorting and streaming gives the store that applying every edit, in
      insertion order, to an in-memory copy gives (last inserted wins). */
  lemma SinglePassEquivalence(input: seq<Chunk>, buffer: seq<Edit>, total: int, cs: ChunkSize)
    requires StrictlyIncreasing(input) && |input| == total
    requires forall k :: 0 <= k < |buffer| ==> buffer[k].cpos in Positions(input)
    ensures MergePass(input, SortAsc(buffer), total, cs) == Some(RandomAccessApply(input, buffer, cs))
  {
    var es := SortAsc(buffer);
    SortAscAscending(buffer);
    forall k | 0 <= k < |es|
      ensures es[k].cpos in Positions(input)
    {
      assert es[k] in multiset(buffer);
      var m :| 0 <= m < |buffer| && buffer[m] == es[k];
    }
    MergeMatchesRandomAccess(input, es, total, cs);
    SortedOrderSameResult(input, buffer, cs);
  }

  /** A pending edit whose chunk coordinate is no record's position is never
      consumed, so the pass fails and nothing is committed. */
  lemma {:induction false} MissingChunkFails(input: seq<Chunk>, es: seq<Edit>, e: Edit, total: int, cs: ChunkSize)
    requires e in es
    requires e.cpos !in Positions(input)
    ensures Scan(input, es, cs) == None
    ensures MergePass(input, es, total, cs) == None
    decreases |input|
  {
    if input != [] {
      var g := ApplyGroup(input[0], es, cs);
      ApplyGroupShape(input[0], es, cs);
      var k :| 0 <= k < |es| && es[k] == e;
      assert input[0].pos in Positions(input);
      assert es[k].cpos != input[0].pos;
      assert g.1[k - (|es| - |g.1|)] == e;
      assert Positions(input[1..]) <= Positions(input) by {
        forall p | p in Positions(input[1..]) ensures p in Positions(input) {
          var j :| 0 <= j < |input[1..]| && input[1..][j].pos == p;
          assert input[j + 1].pos == p;
        }
      }
      MissingChunkFails(input[1..], g.1, e, total, cs);
    }
  }

  /** The same, stated on the buffer `evaluateEditBuffer` is called with: an
      edit whose chunk is missing from the store makes the whole evaluation
      fail, so the store is not replaced. */
  lemma MissingChunkAborts(store: seq<Chunk>, buffer: seq<Edit>, e: Edit, total: int, cs: ChunkSize)
    requires e in buffer
    requires e.cpos !in Positions(store)
    ensures Evaluate(store, buffer, total, cs) == None
  {
    assert e in multiset(SortAsc(buffer));
    MissingChunkFails(store, SortAsc(buffer), e, total, cs);
  }

  /** A record that no pending edit targets is written by the scan unchanged. */
  lemma {:induction false} ScanLeavesUntargeted(input: seq<Chunk>, es: seq<Edit>, cs: ChunkSize)
    requires Scan(input, es, cs).Some?
    ensures |Scan(input, es, cs).value| <= |input|
    ensures forall i :: 0 <= i < |Scan(input, es, cs).value| ==>
      (forall k :: 0 <= k < |es| ==> es[k].cpos != input[i].pos) ==>
      Scan(input, es, cs).value[i] == input[i]
    decreases |input|
  {
    ScanShape(input, es, cs);
    if es != [] {
      var g := ApplyGroup(input[0], es, cs);
      ApplyGroupShape(input[0], es, cs);
      var n := |es| - |g.1|;
      ScanLeavesUntargeted(input[1..], g.1, cs);
      var w := Scan(input, es, cs).value;
      if forall k :: 0 <= k < |es| ==> es[k].cpos != input[0].pos {
        ApplyToChunkUntargeted(input[0], es[..n], cs);
      }
      forall i | 1 <= i < |w| && (forall k :: 0 <= k < |es| ==> es[k].cpos != input[i].pos)
        ensures w[i] == input[i]
      {
        forall k | 0 <= k < |g.1| ensures g.1[k].cpos != input[1..][i - 1].pos {
          assert g.1[k] == es[n + k];
        }
      }
    }
  }

  /** Conservation and order: a successful pass writes between `total` and
      `|input|` records, keeps every record's position at its index (so the
      output stays in the store's order), and writes every record no edit
      targets unchanged. */
  lemma MergePassShape(input: seq<Chunk>, es: seq<Edit>, total: int, cs: ChunkSize)
    requires MergePass(input, es, total, cs).Some?
    ensures var out := MergePass(input, es, total, cs).value;
      && total <= |out| <= |input|
      && (forall i :: 0 <= i < |out| ==> out[i].pos == input[i].pos)
      && (forall i :: 0 <= i < |out| ==>
            (forall k :: 0 <= k < |es| ==> es[k].cpos != input[i].pos) ==> out[i] == input[i])
  {
    ScanShape(input, es, cs);
    ScanLeavesUntargeted(input, es, cs);
    var w := Scan(input, es, cs).value;
    var out := MergePass(input, es, total, cs).value;
    forall i | 0 <= i < |out|
      ensures out[i].pos == input[i].pos
      ensures (forall k :: 0 <= k < |es| ==> es[k].cpos != input[i].pos) ==> out[i] == input[i]
    {
      if i < |w| {
        assert out[i] == w[i];
      } else {
        assert out[i] == input[i];
      }
    }
  }

  /** The output of a successful pass over a canonical store is canonical again,
      so the next pass can merge against it. */
  lemma MergeKeepsCanonicalOrder(input: seq<Chunk>, es: seq<Edit>, total: int, cs: ChunkSize)
    requires StrictlyIncreasing(input)
    requires MergePass(input, es, total, cs).Some?
    ensures StrictlyIncreasing(MergePass(input, es, total, cs).value)
  {
    MergePassShape(input, es, total, cs);
  }

  /** An empty buffer commits nothing. */
  lemma EmptyBufferIsNoOp(store: seq<Chunk>, total: int, cs: ChunkSize)
    ensures Evaluate(store, [], total, cs) == None
  {
  }

  /** A pass keeps the layout: over a store with the generated layout, a
      buffer of accepted edits is merged successfully, the result is what
      random-access application gives, and it has the layout again, so the
      next pass can merge against it. */
  lemma EvaluateKeepsLayout(store: seq<Chunk>, d: Dims, cs: ChunkSize, buffer: seq<Edit>)
    requires Layout(store, d) && buffer != []
    requires forall k :: 0 <= k < |buffer| ==> WellFormed(buffer[k], cs, d)
    ensures Evaluate(store, buffer, Total(d), cs) == Some(RandomAccessApply(store, buffer, cs))
    ensures Layout(RandomAccessApply(store, buffer, cs), d)
  {
    LayoutSorted(store, d);
    forall k | 0 <= k < |buffer|
      ensures buffer[k].cpos in Positions(store)
    {
      LayoutCovers(store, d, buffer[k].cpos);
    }
    SinglePassEquivalence(store, buffer, Total(d), cs);
    MergePassShape(store, SortAsc(buffer), Total(d), cs);
  }

  /** End to end: on a freshly generated store, a buffer of accepted edits is
      merged successfully into the store that random-access application gives,
      with exactly `dim.x * dim.y * dim.z` records in canonical order. */
  lemma EvaluateOnBlankStore(d: Dims, cs: ChunkSize, buffer: seq<Edit>)
    requires buffer != []
    requires forall k :: 0 <= k < |buffer| ==> WellFormed(buffer[k], cs, d)
    ensures Evaluate(BlankLog(d, cs), buffer, Total(d), cs) == Some(RandomAccessApply(BlankLog(d, cs), buffer, cs))
    ensures |RandomAccessApply(BlankLog(d, cs), buffer, cs)| == Total(d)
    ensures StrictlyIncreasing(RandomAccessApply(BlankLog(d, cs), buffer, cs))
  {
    BlankLogLayout(d, cs);
    EvaluateKeepsLayout(BlankLog(d, cs), d, cs, buffer);
    LayoutSorted(RandomAccessApply(BlankLog(d, cs), buffer, cs), d);
  }

  /** Last inserted wins: after every edit is applied, the voxel of edit `e`
      holds `e`'s block unless a later edit targets the same voxel. */
  lemma {:induction false} LastInsertedWins(c: Chunk, before: seq<Edit>, e: Edit, after: seq<Edit>, cs: ChunkSize, d: Dims)
    requires c.pos == e.cpos && WellFormed(e, cs, d)
    requires forall k :: 0 <= k < |after| ==> WellFormed(after[k], cs, d) && after[k].pos != e.pos
    ensures LocalOffset(e.pos, cs) in ApplyToChunk(c, before + [e] + after, cs).blocks
    ensures ApplyToChunk(c, before + [e] + after, cs).blocks[LocalOffset(e.pos, cs)] == e.blockType
  {
    ApplyToChunkConcat(c, before + [e], after, cs);
    ApplyToChunkConcat(c, before, [e], cs);
    var mid := ApplyToChunk(c, before + [e], cs);
    assert mid.blocks[LocalOffset(e.pos, cs)] == e.blockType;
    OtherVoxelsKeep(mid, after, e.pos, cs, d);
  }

  /** Edits at other voxels of the world do not change voxel `p` of a chunk:
      a voxel left at the default block stays so, and a set one keeps its block. */
  lemma {:induction false} OtherVoxelsKeep(c: Chunk, es: seq<Edit>, p: Vec3, cs: ChunkSize, d: Dims)
    requires c.pos == WorldToChunk(p, cs)
    requires forall k :: 0 <= k < |es| ==> WellFormed(es[k], cs, d) && es[k].pos != p
    ensures (LocalOffset(p, cs) in ApplyToChunk(c, es, cs).blocks) == (LocalOffset(p, cs) in c.blocks)
    ensures LocalOffset(p, cs) in c.blocks ==>
      ApplyToChunk(c, es, cs).blocks[LocalOffset(p, cs)] == c.blocks[LocalOffset(p, cs)]
    decreases |es|
  {
    if es != [] {
      if es[0].cpos == c.pos && LocalOffset(es[0].pos, cs) == LocalOffset(p, cs) {
        ChunkAndOffsetDetermineVoxel(es[0].pos, p, cs);
      }
      var c' := if es[0].cpos == c.pos then Apply(c, es[0], cs) else c;
      OtherVoxelsKeep(c', es[1..], p, cs, d);
    }
  }

  // ---------------------------------------------------------------------------
  // The drain loop as the source writes it

  /** Each turn of the drain loop as written: write the record held in the
      chunk variable, then read the next record into it. */
  function DrainAsWritten(held: Chunk, input: seq<Chunk>, rd: nat, count: nat): Option<seq<Chunk>>
    decreases count
  {
    if count == 0 then Some([])
    else if rd >= |input| then None
    else Concat([held], DrainAsWritten(input[rd], input, rd + 1, count - 1))
  }

  /** The pass with the drain as written. The buffer is non-empty here: an
      empty one returns before the pass starts. The chunk variable holds the
      last record the scan wrote when the drain starts. */
  function MergePassAsWritten(input: seq<Chunk>, es: seq<Edit>, total: int, cs: ChunkSize): Option<seq<Chunk>>
    requires es != []
  {
    match Scan(input, es, cs)
    case None => None
    case Some(w) =>
      ScanWritesSomething(input, es, cs);
      if |w| >= total then Some(w)
      else Concat(w, DrainAsWritten(w[|w| - 1], input, |w|, total - |w|))
  }

  lemma {:induction false} DrainAsWrittenShape(held: Chunk, input: seq<Chunk>, rd: nat, count: nat)
    requires 0 < count && rd + count <= |input|
    ensures DrainAsWritten(held, input, rd, count) == Some([held] + input[rd..rd + count - 1])
    decreases count
  {
    if count > 1 {
      DrainAsWrittenShape(input[rd], input, rd + 1, count - 1);
      assert [input[rd]] + input[rd + 1..rd + count - 1] == input[rd..rd + count - 1];
    } else {
      assert [held] + input[rd..rd] == [held];
    }
  }

  /** As written, the pass commits the scan's output followed by the drain. */
  lemma AsWrittenUnfold(input: seq<Chunk>, es: seq<Edit>, total: int, cs: ChunkSize)
    requires es != [] && Scan(input, es, cs).Some?
    requires |Scan(input, es, cs).value| < total
    ensures var w := Scan(input, es, cs).value;
      && |w| > 0
      && MergePassAsWritten(input, es, total, cs) == Concat(w, DrainAsWritten(w[|w| - 1], input, |w|, total - |w|))
  {
    ScanWritesSomething(input, es, cs);
  }

  /** As written, the pass commits the scan's output, its last record again,
      and the records after the scan but the last one it reads. */
  lemma AsWrittenOutput(input: seq<Chunk>, es: seq<Edit>, total: int, cs: ChunkSize)
    requires es != [] && Scan(input, es, cs).Some?
    requires |Scan(input, es, cs).value| < total <= |input|
    ensures var w := Scan(input, es, cs).value;
      && |w| > 0
      && MergePassAsWritten(input, es, total, cs) == Some(w + ([w[|w| - 1]] + input[|w|..total - 1]))
  {
    AsWrittenUnfold(input, es, total, cs);
    var w := Scan(input, es, cs).value;
    DrainAsWrittenShape(w[|w| - 1], input, |w|, total - |w|);
    assert |w| + (total - |w|) - 1 == total - 1;
  }

  /** As written, the drain writes the last edited record a second time and
      never writes the last record it reads: position `|w|` repeats position
      `|w| - 1`, and every later slot holds the record one before its own. */
  lemma AsWrittenRepeatsLastEdited(input: seq<Chunk>, es: seq<Edit>, total: int, cs: ChunkSize)
    requires es != [] && Scan(input, es, cs).Some?
    requires |Scan(input, es, cs).value| < total <= |input|
    ensures MergePassAsWritten(input, es, total, cs).Some?
    ensures var w := Scan(input, es, cs).value;
      var out := MergePassAsWritten(input, es, total, cs).value;
      && |out| == total
      && out[|w|] == out[|w| - 1]
      && forall i :: |w| < i < total ==> out[i] == input[i - 1]
  {
    AsWrittenOutput(input, es, total, cs);
    var w := Scan(input, es, cs).value;
    var tail := input[|w|..total - 1];
    var out := w + ([w[|w| - 1]] + tail);
    forall i | |w| < i < total
      ensures out[i] == input[i - 1]
    {
      assert out[i] == tail[i - |w| - 1];
    }
  }

  /** Consequently, on a canonical store the as-written pass commits a store
      that is no longer canonical and has lost the record at index `total - 1`;
      the corrected pass keeps the store canonical (`MergeKeepsCanonicalOrder`). */
  lemma AsWrittenBreaksStore(input: seq<Chunk>, es: seq<Edit>, total: int, cs: ChunkSize)
    requires StrictlyIncreasing(input)
    requires es != [] && Scan(input, es, cs).Some?
    requires |Scan(input, es, cs).value| < total <= |input|
    ensures MergePassAsWritten(input, es, total, cs).Some?
    ensures !StrictlyIncreasing(MergePassAsWritten(input, es, total, cs).value)
    ensures input[total - 1].pos !in Positions(MergePassAsWritten(input, es, total, cs).value)
  {
    var w := Scan(input, es, cs).value;
    ScanShape(input, es, cs);
    AsWrittenRepeatsLastEdited(input, es, total, cs);
    var out := MergePassAsWritten(input, es, total, cs).value;
    ScanWritesSomething(input, es, cs);
    LessIsStrictOrder(out[|w| - 1].pos, out[|w|].pos, out[|w|].pos);
    forall j | 0 <= j < |out|
      ensures out[j].pos != input[total - 1].pos
    {
      var src := if j < |w| then j else if j == |w| then |w| - 1 else j - 1;
      assert out[j].pos == input[src].pos;
      StrictlyIncreasingIsUnique(input, src, total - 1);
    }
  }

  /** The store generated for a world of 2 x 1 x 2 chunks of 16 voxels. */
  lemma SmallBlankLog()
    ensures BlankLog(Dims(2, 1, 2), 16)
      == [BlankChunk(Vec3(0, 0, 0), 16), BlankChunk(Vec3(0, 0, 1), 16),
          BlankChunk(Vec3(1, 0, 0), 16), BlankChunk(Vec3(1, 0, 1), 16)]
  {
    BlankLogShape(Dims(2, 1, 2), 16);
  }

  /** The drain defect on a concrete input: a world of 2 x 1 x 2 chunks of 16
      voxels, freshly generated, and one edit at voxel (5, 0, 20), in chunk
      (0, 0, 1). The store holds (0,0,0), (0,0,1), (1,0,0), (1,0,1). As
      written the pass commits (0,0,0), (0,0,1), (0,0,1), (1,0,0); the
      corrected pass commits the four chunks once each. */
  lemma AsWrittenExample()
    ensures var log := BlankLog(Dims(2, 1, 2), 16);
      var e := Edit(Vec3(5, 0, 20), Vec3(0, 0, 1), 7);
      var edited := Apply(log[1], e, 16);
      && MergePassAsWritten(log, [e], 4, 16) == Some([log[0], edited, edited, log[2]])
      && MergePass(log, [e], 4, 16) == Some([log[0], edited, log[2], log[3]])
  {
    SmallBlankLog();
    var log := BlankLog(Dims(2, 1, 2), 16);
    var e := Edit(Vec3(5, 0, 20), Vec3(0, 0, 1), 7);
    var edited := Apply(log[1], e, 16);
    GroupMismatch(log[0], [e], 16);
    assert [e][1..] == [];
    GroupMatch(log[1], [e], 16);
    GroupMismatch(edited, [], 16);
    assert ApplyGroup(log[1], [e], 16) == (edited, []);
    ScanStep(log, 1, [e], 16);
    assert Scan(log[2..], [], 16) == Some([]);
    assert [edited] + [] == [edited];
    assert Scan(log[1..], [e], 16) == Some([edited]);
    ScanStep(log, 0, [e], 16);
    assert log[0..] == log;
    assert Scan(log, [e], 16) == Some([log[0]] + [edited]);
    var w := [log[0], edited];
    assert w == [log[0]] + [edited];
    AsWrittenOutput(log, [e], 4, 16);
    assert log[2..3] == [log[2]] && log[2..4] == [log[2], log[3]];
    assert w + ([w[1]] + log[2..3]) == [log[0], edited, edited, log[2]];
    assert MergePass(log, [e], 4, 16) == Some(w + log[2..4]);
    assert w + log[2..4] == [log[0], edited, log[2], log[3]];
  }
}
