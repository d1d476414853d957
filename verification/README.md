# editBuffer: a verified model of the single-pass world edit buffer

This project models, in Dafny, the edit buffer of a chunked voxel world
(`editBuffer.cpp`). The world is stored as a region file. That file is a log
of chunk records written in a fixed order: x outer, y middle, z inner.
Producers do not touch the file. They queue block edits in world space
(`World::addEditBuffer`). `World::evaluateEditBuffer` then applies the whole
queue in one sequential pass:

1. It sorts the queue descending with `operator>`, so `back()` is the edit
   with the smallest chunk coordinate.
2. It reads the records one by one and copies the untargeted ones unchanged.
3. For each targeted record, it pops and applies every pending edit at its
   chunk-local offset, then writes the edited record.
4. It drains the rest of the file until `dim.x * dim.y * dim.z` records have
   been written. As written, this drain writes the last edited record twice
   and drops the last record it reads (see "## Findings"). The model's pass
   uses the corrected drain, which copies the remaining records unchanged.
5. It replaces the region file with the new one.

What is modelled:

- **Modules and state.**
  - `Coords`: world geometry. Bounds, `floor(pos / chunkSize)`, and `mod(pos, chunkSize)`.
  - `ChunkOrder`: `operator<` and `operator>` on chunk coordinates, and the file rank of a coordinate.
  - `Records`: chunk records, `bufferObject` (as `Edit`), and `setPosition`.
  - `Generation`: the blank log `generateBlank` writes, and the layout it establishes.
  - `EditSort`: the sort of the buffer. Among the orders `std::sort` may produce, the model picks reverse insertion order for edits with equal chunk coordinates.
  - `Merge`: the pass as functions of the store and the popped edits.
    - It also holds a random-access reference for the pass and the lemmas tying the two together.
    - It also holds the drain loop as the source writes it.
  - `WorldStore`: class `World`, holding the buffer and the region file as fields.
    - Its methods carry loops and invariants, and are proved against the functions above.
- **Central result.** With the drain corrected (see "## Findings"): on a store with the generated layout and a non-empty buffer of accepted edits, `evaluateEditBuffer` commits the same store as applying every edit, in insertion order, directly to its record. The store also keeps its layout. This is proved by `Merge.EvaluateKeepsLayout`, together with `WorldStore.World.EvaluateEditBuffer`, whose contract ties the committed store to `Merge.Evaluate`.

## Model

| member | source | states |
|---|---|---|
| Coords.VoxelInItsChunk | editBuffer.cpp:107 | the chunk coordinate `floor(pos / chunkSize)` puts the voxel in `[c * chunkSize, c * chunkSize + chunkSize)` on every axis |
| Coords.OffsetRebuildsVoxel | editBuffer.cpp:212 | the local offset `mod(pos, chunkSize)` lies in `[0, chunkSize)` on every axis, and chunk times size plus offset gives back the voxel |
| Coords.InBoundsChunkInDim | editBuffer.cpp:99-107 | a position the bounds check accepts has its chunk coordinate inside `[0, dim)` on every axis |
| Coords.ChunkAndOffsetDetermineVoxel | editBuffer.cpp:212 | two voxels with the same chunk and the same local offset are the same voxel, so `setPosition` addresses exactly one world voxel |
| ChunkOrder.LessIsStrictOrder | editBuffer.cpp:126-137 | `operator<` is irreflexive, asymmetric and transitive |
| ChunkOrder.LessIsTotal | editBuffer.cpp:126-137 | two distinct chunk coordinates are comparable one way or the other |
| ChunkOrder.GreaterIsConverse | editBuffer.cpp:126-151 | `a > b` holds exactly when `b < a`; neither holds on equal coordinates |
| ChunkOrder.LessIsLexicographic | editBuffer.cpp:126-137 | `operator<` is the lexicographic (x, y, z) order |
| ChunkOrder.NotAfterThenBefore | editBuffer.cpp:126-137 | `a < b` and not `c < b` give `a < c` |
| ChunkOrder.RankSplit | editBuffer.cpp:53-55 | the file index of an in-world coordinate is its x block times `dim.y * dim.z` plus its offset in the block, and lies below the record count |
| ChunkOrder.LessMatchesRank | editBuffer.cpp:126-137 | on in-world coordinates, `operator<` holds exactly when the first is written earlier in the file |
| ChunkOrder.RankInjective | editBuffer.cpp:53-55 | distinct in-world coordinates have distinct file indices |
| Records.Apply | editBuffer.cpp:212 | `setPosition` at the edit's local offset sets that block and keeps the position, size, biome and every other block |
| Records.StrictlyIncreasingIsUnique | editBuffer.cpp:70 | a log sorted strictly in the canonical order holds no coordinate twice |
| Generation.ZRunAt | editBuffer.cpp:55-68 | the z loop writes `dim.z` blank records `(i, j, 0) .. (i, j, dim.z - 1)` in order |
| Generation.YRunAt | editBuffer.cpp:54-72 | record `t` of the y loop is a blank record at x `i` with `y * dim.z + z == t` |
| Generation.XRunAt | editBuffer.cpp:53-73 | the x loop writes `l * dim.y * dim.z` blank in-world records, with record `t` of rank `t` |
| Generation.BlankLogShape | editBuffer.cpp:50-74 | `generateBlank` writes exactly `dim.x * dim.y * dim.z` blank records, record `n` at the coordinate of rank `n` |
| Generation.BlankLogCovers | editBuffer.cpp:53-73 | every chunk of the world has its blank record in the log, at index `Rank(p)` |
| Generation.BlankLogLayout | editBuffer.cpp:50-74 | the generated log has the layout every later pass relies on |
| Generation.LayoutSorted | editBuffer.cpp:70 | a log with the layout is strictly increasing under `operator<` |
| Generation.LayoutCovers | editBuffer.cpp:53-73 | a log with the layout holds the record of every in-world coordinate, at its rank |
| Generation.BlankLogSorted | editBuffer.cpp:53-70 | the generated log is strictly increasing under `operator<` |
| Generation.BlankLogUnique | editBuffer.cpp:53-70 | no coordinate is written twice by `generateBlank` |
| EditSort.Insert | editBuffer.cpp:166 | one insertion step of the sort is a permutation of the input plus the inserted edit |
| EditSort.SortAsc | editBuffer.cpp:166 | the ascending order the buffer is popped in is a permutation of the buffer |
| EditSort.Reverse | editBuffer.cpp:166 | element `k` of the reversal is element `len - 1 - k` of the input |
| EditSort.ReversePop | editBuffer.cpp:215 | `pop_back` on the sorted buffer takes the first edit of the ascending order and leaves the reversal of the rest |
| EditSort.SortForMerge | editBuffer.cpp:166 | the buffer after `std::sort` with `std::greater` is a permutation of the buffer, sorted so that no later edit is `>` an earlier one |
| EditSort.ReverseDescending | editBuffer.cpp:166 | reversing an ascending sequence gives one sorted for `operator>` |
| EditSort.ReverseMultiset | editBuffer.cpp:166 | reversal is a permutation |
| EditSort.InsertAscending | editBuffer.cpp:166 | an insertion step keeps the sequence ascending |
| EditSort.SortAscAscending | editBuffer.cpp:166 | popping from the back consumes edits in non-decreasing chunk order |
| EditSort.InsertStable | editBuffer.cpp:166 | an insertion step keeps the relative order of the edits of each chunk, with the new edit last among its chunk |
| EditSort.SortAscStable | editBuffer.cpp:166 | for every chunk, its edits are popped in insertion order |
| Merge.ApplyToChunk | editBuffer.cpp:210-216 | applying edits to a record never moves it to another chunk coordinate |
| Merge.ApplyGroupShape | editBuffer.cpp:210-216 | the apply loop pops exactly the leading edits that target the current record, applies them in order, and stops at the first that does not |
| Merge.ScanShape | editBuffer.cpp:183-226 | the edit loop writes no more records than it reads, each at the position of the record read at that index |
| Merge.RandomAccessPointwise | editBuffer.cpp:192-222 | applying each edit directly to the store changes record `i` exactly by the edits that target it |
| Merge.ApplyToChunkConcat | editBuffer.cpp:210-216 | applying two batches in turn equals applying their concatenation |
| Merge.ApplyToChunkUntargeted | editBuffer.cpp:199-206 | in the direct-application reference, edits that all target other chunks leave a record unchanged |
| Merge.ApplyToChunkFilter | editBuffer.cpp:210-216 | only the edits targeting a record, in their order, affect it |
| Merge.SortedOrderSameResult | editBuffer.cpp:166 | applying the edits in popped order or in insertion order gives the same store |
| Merge.PendingAfterGroup | editBuffer.cpp:166-215 | after a record's edits are popped, the rest stay ascending, target only later records, and each of them is still present in the unread input |
| Merge.GroupIsWholeChunk | editBuffer.cpp:210-216 | when the remaining edits all target later records, the apply loop has applied every edit of this record |
| Merge.LaterRecordSkipsGroup | editBuffer.cpp:210-216 | popping an earlier record's edits does not change what a later record receives |
| Merge.ScanApplies | editBuffer.cpp:183-226 | on a sorted store whose records cover every pending edit, the edit loop succeeds; each written record carries exactly its edits, and no unread record has any |
| Merge.MergeMatchesRandomAccess | editBuffer.cpp:183-235 | on a sorted store of `dim.x * dim.y * dim.z` records covering every edit, the single pass equals applying every edit directly to its record |
| Merge.SinglePassEquivalence | editBuffer.cpp:166-235 | with the sort included, the single pass equals applying the buffer, in insertion order, edit by edit |
| Merge.MissingChunkFails | editBuffer.cpp:192-197 | an edit whose chunk is not in the store makes the pass fail, so nothing is committed |
| Merge.MissingChunkAborts | editBuffer.cpp:192-197 | an edit in the buffer whose chunk is not in the store makes `evaluateEditBuffer` fail, so the store is not replaced |
| Merge.ScanLeavesUntargeted | editBuffer.cpp:192-206 | every written record that no edit targets is the record read |
| Merge.MergePassShape | editBuffer.cpp:183-235 | a successful pass writes at least `dim.x * dim.y * dim.z` records, no more than it reads, at the input positions, with untargeted records unchanged |
| Merge.MergeKeepsCanonicalOrder | editBuffer.cpp:183-235 | the pass keeps a sorted store sorted |
| Merge.EmptyBufferIsNoOp | editBuffer.cpp:160-163 | the pass's specification yields no store for an empty buffer; the method-level promise (false returned, store and buffer unchanged) is the first clause of `WorldStore.World.EvaluateEditBuffer` |
| Merge.EvaluateKeepsLayout | editBuffer.cpp:158-247 | on a store with the generated layout and a non-empty buffer of accepted edits, the pass commits the directly-applied store, which keeps the layout |
| Merge.EvaluateOnBlankStore | editBuffer.cpp:158-247 | the same on the store `generateBlank` writes: the result has `dim.x * dim.y * dim.z` records in canonical order |
| Merge.LastInsertedWins | editBuffer.cpp:166-215 | of the edits to one voxel, the last one inserted decides its block |
| Merge.OtherVoxelsKeep | editBuffer.cpp:210-216 | a voxel that no edit addresses stays unset if it was unset, and keeps its block if it was set |
| Merge.DrainAsWrittenShape | editBuffer.cpp:229-235 | the drain as written emits the held record followed by all but the last of the records it reads |
| Merge.AsWrittenOutput | editBuffer.cpp:229-235 | the pass as written commits the edit loop's output, then that output's last record again, then the following records minus the last |
| Merge.AsWrittenRepeatsLastEdited | editBuffer.cpp:229-235 | whenever a drain is needed, the pass as written commits the last edited record twice in a row and shifts every later record by one |
| Merge.AsWrittenBreaksStore | editBuffer.cpp:229-235 | the pass as written leaves the store out of canonical order and loses the coordinate of the last record |
| Merge.SmallBlankLog | editBuffer.cpp:53-73 | the blank log of a 2 x 1 x 2 world is the four blank records in loop order |
| Merge.AsWrittenExample | editBuffer.cpp:229-235 | one edit at (5, 0, 20) in a 2 x 1 x 2 world of 16-voxel chunks: the pass as written commits `(0,0,0), (0,0,1)*, (0,0,1)*, (1,0,0)`, and the corrected pass commits `(0,0,0), (0,0,1)*, (1,0,0), (1,0,1)` |
| WorldStore.World.constructor | editBuffer.cpp:26-40 | a world has the given layout, an empty buffer and an empty region file |
| WorldStore.World.Default | editBuffer.cpp:28-29 | the default world has chunks of 16 voxels and 20 x 5 x 20 chunks |
| WorldStore.World.GenerateBlank | editBuffer.cpp:50-74 | the three nested loops append exactly the blank log; on an empty region file the result has the layout |
| WorldStore.World.AddEditBuffer | editBuffer.cpp:97-112 | returns true exactly for in-bounds positions, and then appends one edit with the given position and block and chunk `floor(pos / chunkSize)`; otherwise the buffer is unchanged; every buffered edit stays well formed |
| WorldStore.World.ScanPass | editBuffer.cpp:183-226 | the outer loop succeeds exactly when the edit loop's specification does, and then writes its records and empties the buffer; the buffer only ever shrinks from the back |
| WorldStore.World.CopyUntargeted | editBuffer.cpp:192-207 | the mismatch loop copies the records up to the one the next edit targets, and none of those matches the next edit; it fails only at end of file, when no remaining record matches the next edit, and then the specification fails too |
| WorldStore.World.ApplyPending | editBuffer.cpp:210-216 | the apply loop returns the record with its group of edits applied and leaves the rest of the buffer, popped from the back |
| WorldStore.World.EvaluateEditBuffer | editBuffer.cpp:158-247 | an empty buffer returns false and changes nothing; otherwise it succeeds exactly when the pass does, then commits the pass's store and empties the buffer; on failure the region file is untouched and the buffer is what is left of the sorted buffer |
| WorldStore.CopyRemaining | editBuffer.cpp:229-235 | the drain (corrected) copies the unread records until `dim.x * dim.y * dim.z` have been written, failing only when the file is too short |

## Left out

- File I/O is not modelled. The boost path building, the ifstream/ofstream pair, `remove_all` and `rename` become a `seq<Chunk>` field. Reading is a cursor step, writing is an append, and the commit replaces the field. The scratch file the source leaves behind on failure is therefore not represented.
- Boost text archive serialisation is not modelled. A record is read and written whole.
- `in.eof()` is read as "the record just read was the last one".
- Reading past the end of the file is modelled as failure without commit; the source would throw from the archive. This covers the outer-loop read with edits still pending and the drain when the file is shorter than `dim.x * dim.y * dim.z`.
- `generate` and `addCrap1..3` are not modelled. They are content producers that use `rand()` and a `getHeight` that is not part of this model.
- `std::cout` logging is not modelled.
- The unused `chunks` vector of `World` is not modelled.
- The `chunkSize` field of `bufferObject` is not modelled. The source never sets or reads it.
- Chunk internals are not modelled beyond the position, size, biome and `setPosition`, which becomes a map update.
- The `glm::vec3` float arithmetic is not modelled. Coordinates are integers, and `glm::floor(pos / chunkSize)` and `glm::mod(pos, chunkSize)` become Euclidean `/` and `%`. With a positive chunk size these agree with flooring for every integer position.
- EditSort.SortForMerge: `std::sort` is not stable, so the source leaves unspecified which of two edits to the same voxel wins. Among the orders `std::sort` may produce, the model picks reverse insertion order for equal chunk coordinates. `pop_back` then applies those edits in insertion order, so the last inserted one wins (`Merge.LastInsertedWins`). A `std::stable_sort` with `std::greater` would keep insertion order in the vector instead, and the first inserted edit would win.
- WorldStore.World.EvaluateEditBuffer: its contract ties the committed store to `Merge.Evaluate`. The consequences are stated as lemmas about that function rather than in the method's own contract: the store equals the direct application of every edit, and it keeps the layout (`Merge.EvaluateKeepsLayout`).

## Findings

| source | as written | input that shows it | evidently intended | confidence | as-written member | corrected member |
|---|---|---|---|---|---|---|
| editBuffer.cpp:229-235 | The drain loop writes the chunk variable and then reads the next record. It starts while the variable still holds the last edited record, which was already written at lines 219-223. That record is written a second time, every later record moves down by one, and the last record read is never written. | A 2 x 1 x 2 world of 16-voxel chunks, its blank log, and one edit at world position (5, 0, 20), which is chunk (0, 0, 1). The pass commits records (0,0,0), (0,0,1) edited, (0,0,1) edited again, and (1,0,0). Record (1,0,1) is lost. | Read each remaining record and write it, so that the unread records are copied unchanged until `dim.x * dim.y * dim.z` have been written. | not executed | Merge.AsWrittenExample | WorldStore.CopyRemaining |
