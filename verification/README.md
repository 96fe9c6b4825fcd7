# A verified model of the inference engine's core

Dafny modules that model the parts of the engine whose correctness is not visible in
one function body, and prove what its documentation and tests promise of them.

- **The cached forward path** (`Network`, `KvStore`, `Kernels`, `LayerPass`, `Graphs`,
  `GpuModel`) against the reference model (`FlatRows`, `CpuModel`), with prefix reuse on
  top (`Session`). Floats are opaque bit patterns and float operations are uninterpreted,
  so equalities hold without tolerance, under the hypotheses below. `Network` defines what a token list means; both models are
  proved to compute it, and so to agree.
- **Command recording** (`Barriers`): what the recorded barriers guarantee when the device
  interleaves everything between them.
- **The tokenizer** (`Bpe`, `Utf8`, `Detok`, `Vocab`, `Tokenizer`): the merge engine against
  "merge the best pair until none is left", streaming decoding against batch decoding, and
  the encode/decode round trip.
- **Tool calls** (`Values`, `ToolCall`, `ToolRoundTrip`, `TurnParser`, `ToolCallPath`): printer and
  parser as inverses, the turn state machine against a segment-by-segment reading, and the
  whole path from a rendered call through tokens to the parsed event.
- **Sampling and output** (`Ranking`, `Sampler`, `Rng`, `StopStream`).
- **Files** (`GgufValues`, `Gguf`, `GgufReader`, `GgufRoundTrip`, `Loader`).

`Arithmetic` holds shared facts about products and remainders. Code that mutates state is
modelled by classes and loops proved against functions on values; the lemmas are about those
functions. `dafny verify dfyconfig.toml` checks everything.

Where the code and its comments differ, the model follows the code: the turn parser's state is
not reset at end of turn (`crates/sg-tokenizer/src/toolcall.rs:104-108`; `NextTurnIsFreshIff` says when
that shows), and a tool-call close outside a call drops the state while withheld bytes stay
(`toolcall.rs:115-128` in the same crate; `StreamIsReferenceIff` says when that shows).

Four hypotheses the code does not check are stated where they are used:

- a prefill chunk is no longer than the sliding ring (part of a configuration's type);
- prefill's matrix product and decode's matrix-vector product compute the same row. The session's own
  comment (`crates/sg-model/src/session.rs:9-13`) promises agreement between them only to a tolerance,
  so what is exact here is exact up to that difference;
- mixing a window of keys and values does not depend on the order they are read in (decoding only);
- a run stays within the global capacity.

Only calls that succeed are considered.

## Model

| member | source | states |
|---|---|---|
| `Sessions.FastAgreesWithReference` | crates/sg-model/src/graph.rs:1451-1481 | from any buffer contents, any prompt cut into chunks and any tokens decoded after it give the logits of one linear pass of the reference model over all of them, the two models sharing one row function per projection |
| `GpuModels.GpuModel.Prefill` | crates/sg-model/src/graph.rs:1451-1481 | chunking at `max_chunk`, padding to 64 rows and submitting segments leaves the stores of, and returns the logits of, one pass over history and prompt |
| `GpuModels.GpuModel.PrefillPlain` | crates/sg-model/src/graph.rs:885-900 | the same stores without running the head |
| `GpuModels.GpuModel.RunChunk` | crates/sg-model/src/graph.rs:1451-1481 | one staged and submitted chunk extends the resident history by exactly its tokens; logits only when asked for |
| `GpuModels.GpuModel.DecodeStep` | crates/sg-model/src/graph.rs:1587-1592 | a decoded token extends the resident history by one and returns the logits of the whole history |
| `GpuModels.GpuModel.StagePrefillChunk` | crates/sg-model/src/graph.rs:1392-1446 | the real rows carry the embeddings and rotations of positions `pos ..`; nothing is said of padding rows, so nothing later may depend on them |
| `GpuModels.GpuModel.StageToken` | crates/sg-model/src/graph.rs:1485-1529 | position, ring length `min(pos + 1, window)` and global length `pos + 1` are those of the history with the token appended |
| `GpuModels.GpuModel.RunPrefillLayer` | crates/sg-model/src/graph.rs:1016-1352 | a recorded layer carries the chunk's real rows and one store from layer `l` to `l + 1` of the linear pass |
| `GpuModels.GpuModel.RunDecodeLayer` | crates/sg-model/src/graph.rs:478-729 | the same for a decoded token, appending before attending |
| `GpuModels.GpuModel.RunPrefillLogits` | crates/sg-model/src/graph.rs:1357-1388 | the head over the chunk's last real row gives the logits of the whole history |
| `GpuModels.GpuModel.RunDecodeLogits` | crates/sg-model/src/graph.rs:731-751 | the head over the decoded row gives the logits of the whole history |
| `GpuModels.GpuModel.RunSegments` | crates/sg-model/src/graph.rs:759-783 | submitting the segments one after another runs every layer once, in order, then the head |
| `GpuModels.GpuModel.GraphFor` | crates/sg-model/src/graph.rs:1469-1473 | a cached recording is reused only for the same padded size, real size and mode, and always spells the whole command list |
| `GpuModels.GpuModel.Reset` | crates/sg-model/src/graph.rs:1562-1564 | moving the position to zero, with every stale row left in place, is the state of an empty conversation |
| `GpuModels.GpuModel.constructor` | crates/sg-model/src/graph.rs:262-456 | freshly allocated buffers, whatever they contain, hold the empty conversation |
| `GpuModels.AnyStoreHoldsNothing` | crates/sg-model/src/graph.rs:1560-1564 | stale KV rows cannot be seen: any store contents hold the empty history in every layer |
| `Graphs.RecordPrefill` | crates/sg-model/src/graph.rs:759-783 | cutting the layers into segments of six neither drops, repeats nor reorders a command, whatever the layer count |
| `Graphs.RecordDecode` | crates/sg-model/src/graph.rs:462-476 | the decode graph is every layer once, in order, then the head |
| `KvStore.AppendSliding` | crates/sg-gpu/tests/parity_kv.rs:36-128 | rows land in slot `(pos + t) % window` in any thread order, and no other slot changes |
| `KvStore.AppendGlobal` | crates/sg-model/src/graph.rs:1149-1172 | rows land at `pos ..` of the linear store and nothing else changes |
| `KvStore.SlotIsRemainder` | crates/sg-gpu/tests/parity_kv.rs:36-128 | the ring slot of a position is its remainder by the window |
| `KvStore.SlotsDistinctIffChunkFits` | crates/sg-model/src/graph.rs:262-456 | parallel appends of one chunk write distinct slots if and only if the chunk is no longer than the ring, which construction does not check |
| `KvStore.SlidingAppendHolds` | crates/sg-model/src/graph.rs:1133-1148 | appending a chunk to a ring keeps every row a later query can still see |
| `KvStore.GlobalAppendHolds` | crates/sg-model/src/graph.rs:1149-1172 | appending to the linear store extends its history |
| `KvStore.RingSeenIsVisible` | crates/sg-gpu/tests/parity_attn.rs:5-9 | a chunk's query at `q` sees, through ring and chunk, exactly rows `max(0, q + 1 - window) ..= q` of the linear history, in order |
| `KvStore.LinearSeenIsVisible` | crates/sg-gpu/tests/parity_attn.rs:336-432 | a query on a global layer sees exactly rows `0 ..= q` |
| `KvStore.SlotsAreRotation` | crates/sg-model/src/graph.rs:1497-1503 | decoding reads the ring in slot order: a rotation of exactly the visible window |
| `KvStore.AttendIgnoresRotation` | crates/sg-gpu/tests/parity_attn.rs:5-9 | attention that does not depend on reading order gives the same row on a rotated window |
| `LayerPass.AttendThenAppend` | crates/sg-model/src/graph.rs:1175-1191 | sliding prefill reads the ring before overwriting it: each real query attends its window of the linear history, and the ring ends holding history and chunk |
| `LayerPass.AppendThenAttend` | crates/sg-model/src/graph.rs:1192-1225 | global prefill appends first: each real query attends the whole history up to itself |
| `LayerPass.PrefillRows` | crates/sg-model/src/graph.rs:1016-1352 | one layer over a padded chunk equals that layer of the linear pass on the real rows, independent of padding and stale rows |
| `LayerPass.DecodeRow` | crates/sg-model/src/graph.rs:478-729 | one layer over one token, append before attend, equals that layer of the linear pass |
| `Kernels.Project` | crates/sg-model/src/graph.rs:1016-1125 | norm, projections, per-head norms and the two in-place rotations give query, key and value rows of the model definition |
| `Kernels.SplitPasses` | crates/sg-model/src/graph.rs:1016-1125 | normalising all heads and then rotating all heads is doing both head by head |
| `Kernels.Finish` | crates/sg-model/src/graph.rs:1225-1352 | output projection, residuals and feed-forward give the layer's output row |
| `Network.StreamIsCausal` | crates/sg-model/src/reference.rs:157-316 | the stream of a prefix is the prefix of the stream: later tokens never change earlier rows, through all layers |
| `Network.KvsAreCausal` | crates/sg-model/src/reference.rs:157-316 | so the keys and values kept for a prefix are those a longer pass computes |
| `CpuModels.CpuKvCache.Forward` | crates/sg-model/src/reference.rs:157-316 | from the cache of any history, a forward pass leaves the cache of, and returns the logits of, one pass over history and tokens |
| `CpuModels.CpuKvCache.constructor` | crates/sg-model/src/reference.rs:61-66 | a new cache is the cache of no tokens |
| `CpuModels.ForwardInTwo` | crates/sg-model/src/reference.rs:157-316 | split invariance from any common history: `forward(a)` then `forward(b)` leaves bit-identical histories and logits to `forward(a ++ b)` |
| `CpuModels.SameHistory` | crates/sg-model/src/reference.rs:53-75 | the flat key and value histories of a token list are unique, element for element |
| `CpuModels.ForwardLayer` | crates/sg-model/src/reference.rs:185-300 | a layer of the in-place pass turns layer `l`'s stream and history into layer `l + 1`'s |
| `CpuModels.Matmul` | crates/sg-model/src/reference.rs:422-444 | the row-by-row product written output-major and transposed back is the matrix-vector product of every token's row |
| `CpuModels.Transpose` | crates/sg-model/src/reference.rs:422-444 | the transposing copy places element `(r, t)` at `(t, r)`, every element once |
| `CpuModels.Attention` | crates/sg-model/src/reference.rs:482-530 | the flat attention loop over tokens and query heads writes, for each token, the attention row over exactly its visible window |
| `CpuModels.AttendFlat` | crates/sg-model/src/reference.rs:482-530 | scores and weighted values read from flat histories equal attention over the window's rows |
| `CpuModels.GroupInRange` | crates/sg-model/src/reference.rs:495-499 | the grouped-query head index stays in range because query heads divide evenly among key/value heads |
| `CpuModels.GroupsCoverHeads` | crates/sg-model/src/reference.rs:495-499 | the query heads read by one key/value head, times the key/value heads, are all the query heads |
| `CpuModels.BlockReadsItsHead` | crates/sg-model/src/reference.rs:495-499 | over one row, the query heads fall into consecutive blocks of equal size covering all of them, and block `g` attends key/value head `g` |
| `CpuModels.RmsNormOne` | crates/sg-model/src/reference.rs:367-382 | every element is normalised against the whole row, with its weight when there is one |
| `CpuModels.ApplyRope` | crates/sg-model/src/rope.rs:54-64 | rotating pairs `(i, i + half)` in place is rotating each element of the head by its pair |
| `CpuModels.HeadPass` | crates/sg-model/src/reference.rs:387-395 | the per-head in-place pass over flat rows is the head map of each row, rotated by its own position |
| `CpuModels.LayerFlat` | crates/sg-model/src/reference.rs:202-300 | one layer over flat arrays equals one layer over rows, and extends the flat histories by the new rows |
| `CpuModels.HeadFlat` | crates/sg-model/src/reference.rs:304-315 | the logits come from the last row only |
| `FlatRows.CatRows` | crates/sg-model/src/reference.rs:482-530 | head chunks written one after another are the rows, heads to a row |
| `FlatRows.NestedHead` | crates/sg-model/src/reference.rs:387-395 | the flat index `(t * heads + h) * dim` addresses head `h` of row `t` |
| `Sessions.Session.Request` | crates/sg-model/src/session.rs:53-101 | a request returns the cache-free answer to its prompt whatever was served before (prefill and decode projecting rows alike), and leaves as history the prompt and all samples but the last |
| `Sessions.Serve` | crates/sg-model/src/session.rs:53-101 | over every sequence of requests each reply is the one a fresh session would give, prefill and decode projecting rows alike |
| `Sessions.Session.Prepare` | crates/sg-model/src/session.rs:60-76 | the history is kept exactly when it is a proper prefix of the prompt, and dropped otherwise |
| `Sessions.Session.Feed` | crates/sg-model/src/session.rs:77-82 | only the part not resident is prefilled, and the logits are those of the whole prompt |
| `Sessions.Session.Reset` | crates/sg-model/src/session.rs:43-47 | history and position are emptied together |
| `Sessions.RepliesStopWell` | crates/sg-model/src/session.rs:86-100 | no token of a reply but the last is an end marker (ids 1 and 106), is declined or reaches the limit; the last gives the reason: declined, an end marker, or the limit |
| `Barriers.AnyScheduleIsRecordOrder` | crates/sg-gpu/src/graph.rs:383-401 | when steps not ordered by a barrier or by their invocation never touch each other's data, every schedule that keeps the ordered pairs leaves the memory of the recorded order |
| `Barriers.GraphIsSequential` | crates/sg-gpu/src/graph.rs:199-232 | dispatches not separated by a barrier having independent footprints, any interleaving of loads and stores within the barriers computes what record order computes |
| `Barriers.SeparatedIff` | crates/sg-gpu/src/graph.rs:199-232 | dispatches having independent footprints unless a barrier lies between, and invocations of one dispatch always, is exactly freedom from races between the recorded steps |
| `Barriers.EventsInOrder` | crates/sg-gpu/src/graph.rs:225-324 | no step is left out, added or moved: each stands where the commands, invocations and steps before it end, behind the barriers recorded before it |
| `Barriers.RecordOrderIsSchedule` | crates/sg-gpu/src/graph.rs:383-401 | the record order is one of the orders the device may take |
| `Barriers.SwapIsSchedule` | crates/sg-gpu/src/graph.rs:383-401 | any two neighbouring steps of different invocations with no barrier between them may run the other way round |
| `Barriers.SerialIsSeparatedIff` | crates/sg-gpu/src/graph.rs:199-211 | a graph recorded only with `dispatch` needs nothing of its dispatches relative to each other: it is race-free if and only if each kernel is |
| `Barriers.SerialIsSequential` | crates/sg-gpu/src/graph.rs:199-211 | such a graph is sequential under every schedule, whatever its dispatches read and write |
| `Barriers.GraphRecorder.RecordDispatch` | crates/sg-gpu/src/graph.rs:225-324 | a barrier precedes a dispatch exactly when asked for and something was dispatched before; explicit barriers do not count as dispatches |
| `Barriers.GraphRecorder.EmitBarrier` | crates/sg-gpu/src/graph.rs:326-330 | an explicit barrier is appended and the dispatch count is untouched |
| `Barriers.RecordSerial` | crates/sg-gpu/src/graph.rs:203-211 | recording only with `dispatch` puts one barrier between each two neighbours |
| `Barriers.OverlapIsSafeIff` | crates/sg-gpu/src/graph.rs:213-223 | leaving the barrier out is safe for all steps with given footprints if and only if the footprints do not conflict: otherwise there are steps with those footprints, a memory and a schedule that leaves other memory than the recorded order |
| `Bpe.MergeSymbols` | crates/sg-tokenizer/src/bpe.rs:49-99 | the heap and linked-list engine returns exactly the result of repeatedly merging the lowest-rank, leftmost pair, with at most `3(n - 1)` pops |
| `Bpe.PopStep` | crates/sg-tokenizer/src/bpe.rs:66-97 | a pop either is stale and changes nothing, or performs exactly the next specified merge, and keeps list and heap consistent |
| `Bpe.LiveMinIsBest` | crates/sg-tokenizer/src/bpe.rs:66-80 | the least heap entry that is still live is the lowest-rank, leftmost mergeable pair |
| `Bpe.DeadEntryIsNotNeeded` | crates/sg-tokenizer/src/bpe.rs:67-80 | skipping a stale entry loses no mergeable pair |
| `Bpe.MergeLive` | crates/sg-tokenizer/src/bpe.rs:82-96 | unlinking the right symbol and pushing both neighbour pairs keeps the list linked and every mergeable pair in the heap |
| `Bpe.Seed` | crates/sg-tokenizer/src/bpe.rs:49-64 | the seeded heap holds every mergeable adjacent pair |
| `Bpe.MergeAllIsFinal` | crates/sg-tokenizer/src/bpe.rs:49-99 | the specified result admits no further merge |
| `Bpe.BestIsUnique` | crates/sg-tokenizer/src/bpe.rs:13-14 | rank then position leaves no choice: there is one best pair |
| `Bpe.PushSym` | crates/sg-tokenizer/src/bpe.rs:102-113 | pushing keeps the symbols one doubly linked chain in order |
| `Bpe.Collect` | crates/sg-tokenizer/src/bpe.rs:99-99 | the surviving symbols, in array order, are the list in link order |
| `Bpe.PopMin` | crates/sg-tokenizer/src/bpe.rs:66-66 | a least entry by (rank, position, left, right) leaves the heap and the others stay |
| `Bpe.EntryOrder` | crates/sg-tokenizer/src/bpe.rs:66-66 | heap entries are totally ordered, by rank first and position next, and no two different ones tie |
| `Vocabs.FromMetadata` | crates/sg-tokenizer/src/vocab.rs:104-239 | metadata are accepted if and only if the listed checks pass, and then the vocabulary is consistent (pieces and ids in bijection, byte-table bijection, merges that spell) and holds what the file lists: its pieces, byte tokens, specials longest first, merges, end markers |
| `Vocabs.VocabIsDetermined` | crates/sg-tokenizer/src/vocab.rs:104-239 | consistency and the listing leave no freedom: one vocabulary answers to the metadata |
| `Vocabs.FullTable` | crates/sg-tokenizer/src/vocab.rs:171-173 | the byte-table check passes if and only if the payload has exactly 256 byte tokens, one for every byte |
| `Vocabs.ByteTableIsBijective` | crates/sg-tokenizer/src/vocab.rs:140-173 | 256 byte tokens that leave no table slot empty are one per byte: the table and its inverse agree (pigeonhole) |
| `Vocabs.AddTokens` | crates/sg-tokenizer/src/vocab.rs:145-170 | the token loop succeeds if and only if types are known, no piece repeats and byte tokens spell bytes; it collects exactly the control and user-defined pieces, in order, and exactly the byte tokens |
| `Vocabs.AddMerges` | crates/sg-tokenizer/src/vocab.rs:176-196 | succeeds if and only if every entry is two pieces whose joint spelling is a piece; exactly the listed pairs are in the table, each ranked by its last entry and yielding the piece spelled by both |
| `Vocabs.SortByLen` | crates/sg-tokenizer/src/vocab.rs:174-174 | the specials are permuted into longest-first order by byte length |
| `Vocabs.ByteNameIff` | crates/sg-tokenizer/src/vocab.rs:301-307 | the pieces that name byte `b` are exactly `<0x` with its two hex digits, in either letter case, and `>`, or with a plus sign and its one digit |
| `Vocabs.PrintedByteBack` | crates/sg-tokenizer/src/vocab.rs:301-307 | a byte printed in upper or lower case hex is read back as itself |
| `Vocabs.ByteTokensSpell` | crates/sg-tokenizer/src/vocab.rs:140-173 | in a consistent vocabulary the piece of the token of byte `b` prints `b` |
| `Utf8.ScanOfEncode` | crates/sg-tokenizer/src/detok.rs:26-55 | the encoding of a character is recognised as that character whatever follows |
| `Utf8.ScanFindsEncoding` | crates/sg-tokenizer/src/detok.rs:26-55 | what is recognised as a character is spelled by exactly its encoding (section 4 of RFC 3629) |
| `Utf8.BadIsMaximalSubpart` | crates/sg-tokenizer/src/detok.rs:42-46 | a rejected stretch is one byte or the longest start of a character, never more (section 3.9 of the Unicode Standard) |
| `Utf8.FromUtf8OfEncoding` | crates/sg-tokenizer/src/detok.rs:30-33 | encoding then checking gives the text back |
| `Utf8.FromUtf8IsInverse` | crates/sg-tokenizer/src/detok.rs:30-33 | text that checks out is spelled by exactly the bytes checked |
| `Utf8.LossyOfEncoding` | crates/sg-tokenizer/src/detok.rs:26-63 | on well-formed input the lossy decoder loses nothing |
| `Detok.DetokBuffer.PushByte` | crates/sg-tokenizer/src/detok.rs:26-55 | a push emits every settled character or replacement and withholds at most three bytes of one unfinished character |
| `Detok.DetokBuffer.Flush` | crates/sg-tokenizer/src/detok.rs:58-63 | an unfinished character becomes one replacement |
| `Detok.StreamBytes` | crates/sg-tokenizer/src/detok.rs:26-63 | pushing bytes one at a time and flushing is the lossy decoding of all of them, and every intermediate output is a prefix of it |
| `Detok.EmittedIsPrefix` | crates/sg-tokenizer/src/detok.rs:26-55 | text already emitted is never taken back, whatever bytes arrive later |
| `Detok.DrainIsIncremental` | crates/sg-tokenizer/src/detok.rs:26-55 | draining can be interrupted anywhere and continued from the withheld tail |
| `Detok.LossyIsDrain` | crates/sg-tokenizer/src/detok.rs:58-63 | the lossy decoding is the settled text and one replacement for an undecided tail |
| `Detok.CheckedDrain` | crates/sg-tokenizer/src/detok.rs:30-50 | the split that the UTF-8 check reports is the split draining makes |
| `Tokenizers.PlainRoundTripIff` | crates/sg-tokenizer/src/tokenizer.rs:48-121 | plain text comes back from encoding and decoding if and only if it has no marker character (or no space, for a vocabulary without the marker piece) |
| `Tokenizers.MatchRoundTripIff` | crates/sg-tokenizer/src/tokenizer.rs:48-121 | with special matching, wherever splitting ends, text comes back if and only if it has no marker character (for a vocabulary with the marker piece), or no plain stretch has a space and no special in it a marker (without) |
| `Tokenizers.EncodeText` | crates/sg-tokenizer/src/tokenizer.rs:48-70 | wherever the splitting loop ends, it returns the segments' merges with the leftmost-longest specials between them |
| `Tokenizers.SplittingEndsIff` | crates/sg-tokenizer/src/tokenizer.rs:53-67 | the splitting loop ends on every text if and only if no special is empty or `<` is a special |
| `Tokenizers.EndsIff` | crates/sg-tokenizer/src/tokenizer.rs:53-67 | on one text it ends if and only if every special it takes consumes something |
| `Tokenizers.NeverStops` | crates/sg-tokenizer/src/tokenizer.rs:53-67 | the failing run: with an empty special and no special `<`, each turn on the text `<` leaves `<`, for any number of turns |
| `Tokenizers.FindSpecial` | crates/sg-tokenizer/src/tokenizer.rs:73-86 | the scan finds the leftmost-longest special, or there is none |
| `Tokenizers.MatchIsUnique` | crates/sg-tokenizer/src/tokenizer.rs:72-86 | position and length decide the match: piece and id leave no choice |
| `Tokenizers.EncodeSegment` | crates/sg-tokenizer/src/bpe.rs:26-99 | a segment becomes the full merge of its characters' pieces, unknown characters as their bytes |
| `Tokenizers.KnownTextHasNoBytes` | crates/sg-tokenizer/src/bpe.rs:31-47 | text whose characters, spaces marked, are all pieces is never encoded with byte tokens, when merges avoid them |
| `Tokenizers.UnmergedTextIsItsPieces` | crates/sg-tokenizer/src/bpe.rs:31-47 | where no neighbouring characters merge, the ids are one per character and spell it, spaces marked |
| `Tokenizers.UnknownCharIsItsBytes` | crates/sg-tokenizer/src/bpe.rs:39-45 | a character that is no piece becomes the byte tokens of its encoding, one by one |
| `Tokenizers.MergeAllKeepsRun` | crates/sg-tokenizer/src/bpe.rs:66-99 | merging never changes what the ids decode to, even after withheld bytes |
| `Tokenizers.PlainNeverInjects` | crates/sg-tokenizer/src/tokenizer.rs:15-23 | plain encoding never yields a special longer than a character that no merge produces, however the text reads |
| `Tokenizers.Decode` | crates/sg-tokenizer/src/tokenizer.rs:89-97 | decoding fails exactly on an id outside the vocabulary and otherwise gives the streamed text with the tail flushed |
| `Tokenizers.DecodeStreaming` | crates/sg-tokenizer/src/tokenizer.rs:102-121 | a byte token extends the withheld run, any other token flushes it first; an unknown id changes nothing |
| `Tokenizers.RunAppend` | crates/sg-tokenizer/src/tokenizer.rs:89-121 | decoding a concatenation is decoding the parts in turn with the withheld bytes carried over |
| `ToolRoundTrips.CallRoundTripIff` | crates/sg-tokenizer/src/toolcall.rs:209-228 | with keys that a bare printing brings back, rendering a call and parsing it returns the same name and, up to entry order, the same arguments, if and only if the name is trimmed, non-empty and free of braces, every integer fits 64 bits and no string holds the quote marker |
| `ToolRoundTrips.PrintedBack` | crates/sg-tokenizer/src/toolcall.rs:305-358 | every printed tree of good leaves parses back to itself and leaves what followed it |
| `ToolRoundTrips.StuckPrinted` | crates/sg-tokenizer/src/toolcall.rs:236-373 | the converse inside a tree: where a string holds the marker the parse fails, or stands before a character no list or object can go on with |
| `ToolRoundTrips.ParsedIsReadable` | crates/sg-tokenizer/src/toolcall.rs:305-373 | whatever the parser returns on any text has strings and keys that were quoted without the marker or read bare, and integers of 64 bits |
| `ToolRoundTrips.UnreadableIsLost` | crates/sg-tokenizer/src/toolcall.rs:209-228 | so arguments with any other leaf or key come back from no text at all |
| `ToolRoundTrips.StringRoundTripIff` | crates/sg-tokenizer/src/toolcall.rs:362-372 | a quoted string comes back if and only if it does not contain the quote marker |
| `ToolRoundTrips.KeyRoundTripIff` | crates/sg-tokenizer/src/toolcall.rs:288-303 | a printed key comes back with the colon next if and only if it is (bare) trimmed, non-empty, not starting with the marker and free of structure, or (quoted) free of the marker |
| `ToolRoundTrips.IntRoundTripIff` | crates/sg-tokenizer/src/toolcall.rs:344-347 | a printed integer comes back as an integer if and only if it fits 64 bits |
| `ToolRoundTrips.WordBack` | crates/sg-tokenizer/src/toolcall.rs:331-358 | a bare word ends at the next structural character and is read whole |
| `ToolRoundTrips.CanonIsGood` | crates/sg-tokenizer/src/template.rs:498-502 | `dictsort` order keeps keys distinct and leaves good |
| `ToolRoundTrips.RenderToolCall` | crates/sg-tokenizer/src/template.rs:161-180 | the call loop emits the printed object between the call markers, a pre-serialised string verbatim, and nothing for other arguments |
| `ToolRoundTrips.OtherArgumentsAreDropped` | crates/sg-tokenizer/src/template.rs:176-178 | arguments that are neither object nor string parse back as the empty object |
| `ToolCallPaths.RenderedCallIsUnderstood` | crates/sg-tokenizer/src/toolcall.rs:96-164 | a rendered call encoded as plain text between the call markers and pushed token by token is reported as the same call, from any parser state |
| `ToolCallPaths.PlainIsOrdinary` | crates/sg-tokenizer/src/toolcall.rs:12-13 | lookalike text never becomes a structural token |
| `ToolCalls.TryParseToolCall` | crates/sg-tokenizer/src/toolcall.rs:209-228 | the parser object started at the first brace computes the grammar's result and the trailing-input check |
| `ToolCalls.ArgParser.TakeValue` | crates/sg-tokenizer/src/toolcall.rs:305-358 | the position-advancing parser ends on every input, gives the grammar's value or error, and stands at what the grammar leaves |
| `ToolCalls.ArgParser.TakeObject` | crates/sg-tokenizer/src/toolcall.rs:255-285 | the same for objects; repeated keys keep their place and take the last value |
| `ToolCalls.ArgParser.TakeKey` | crates/sg-tokenizer/src/toolcall.rs:288-303 | the same for keys, quoted or bare |
| `ToolCalls.ArgParser.TakeQuoted` | crates/sg-tokenizer/src/toolcall.rs:362-372 | the closing marker is the next occurrence |
| `ToolCalls.ArgParser.TakeBare` | crates/sg-tokenizer/src/toolcall.rs:331-358 | a bare word is a keyword, an integer, a float or, failing those, a string |
| `ToolCalls.InsertIs` | crates/sg-tokenizer/src/toolcall.rs:275-275 | after an entry is read its key has the new value and every other key what it had; no key moves, and a new one is added last |
| `ToolCalls.TrimIs` | crates/sg-tokenizer/src/toolcall.rs:296-337 | trimming removes all white space at both ends and nothing else |
| `ToolCalls.WhitespaceIs` | crates/sg-tokenizer/src/toolcall.rs:242-244 | white space is the 25 code points of the Unicode property |
| `Values.FormatArgument` | crates/sg-tokenizer/src/template.rs:434-481 | the recursive printer appends the print of the tree in `dictsort` order |
| `Values.DictSortSorts` | crates/sg-tokenizer/src/template.rs:498-502 | keys come out in order of their lowercase forms |
| `Values.DictSortIsStable` | crates/sg-tokenizer/src/template.rs:498-502 | sorting rearranges the entries, and entries with the same lowercase key keep their order |
| `Values.AtMostIff` | crates/sg-tokenizer/src/template.rs:498-502 | the order of keys is lexicographic: a prefix, or a smaller character at the first difference |
| `Values.SortPermutes` | crates/sg-tokenizer/src/template.rs:498-502 | sorting keeps every entry |
| `Values.CanonIsSame` | crates/sg-tokenizer/src/template.rs:498-502 | the reordered tree is equal as a JSON value, at every depth |
| `Values.SameObjects` | crates/sg-tokenizer/src/template.rs:498-502 | objects with distinct keys are equal when they have the same keys and equal values under each |
| `Values.PrintedForm` | crates/sg-tokenizer/src/template.rs:434-481 | integers are printed without leading zeros, signed exactly when negative |
| `Values.IntRoundTrip` | crates/sg-tokenizer/src/toolcall.rs:344-345 | decimal printing and `parse::<i64>` are inverse exactly on 64-bit integers |
| `Values.IntegerWords` | crates/sg-tokenizer/src/toolcall.rs:344-345 | the words read as integers are exactly the decimal words of 64-bit value, with an optional sign and leading zeros allowed |
| `TurnParsers.ParseStream` | crates/sg-tokenizer/src/toolcall.rs:96-195 | pushing any stream token by token and finishing shows what the segment-by-segment batch reading shows if and only if its stray call closes are harmless |
| `TurnParsers.StreamIsReferenceIff` | crates/sg-tokenizer/src/toolcall.rs:96-195 | the deltas between structural tokens concatenate to the batch decode, and each closed call is the parse of the batch text since it was opened, if and only if every stray close arrives with nothing withheld, or in content with a character that no later byte continues |
| `TurnParsers.CleanIsReference` | crates/sg-tokenizer/src/toolcall.rs:96-195 | were a stray close to end the segment like every other structural token, the agreement would hold on all streams |
| `TurnParsers.InsideIsHarmless` | crates/sg-tokenizer/src/toolcall.rs:115-128 | call closes that arrive inside an open call are harmless, whatever is withheld |
| `TurnParsers.CallIsInside` | crates/sg-tokenizer/src/toolcall.rs:109-128 | a call opened, filled with ordinary ids and closed is such a close, whatever came before |
| `TurnParsers.StrayCloseDiffers` | crates/sg-tokenizer/src/toolcall.rs:114-121 | the failing stream: part of a character in a channel, then a call close, comes out as content where the batch reading has thinking |
| `TurnParsers.NextTurnIsFreshIff` | crates/sg-tokenizer/src/toolcall.rs:60-61 | after an end of turn the parser reads every stream as a fresh one if and only if the ended turn was in content: the state is not reset as the comment says |
| `TurnParsers.CallIsParsedText` | crates/sg-tokenizer/src/toolcall.rs:115-128 | a closed call reports the parse of the batch decode of what stood between its markers, from any state before it |
| `TurnParsers.TurnParser.Push` | crates/sg-tokenizer/src/toolcall.rs:96-164 | one push moves the machine and appends events as specified; it fails exactly on an unknown ordinary id, changing nothing |
| `TurnParsers.TurnParser.PushStructural` | crates/sg-tokenizer/src/toolcall.rs:104-147 | each structural token's effect: a stray call close drops the state but keeps withheld bytes, end of turn keeps the state |
| `TurnParsers.TurnParser.CloseSegment` | crates/sg-tokenizer/src/toolcall.rs:182-195 | an unfinished character goes to the current segment as a replacement; in a header it counts as thinking |
| `TurnParsers.TurnParser.End` | crates/sg-tokenizer/src/toolcall.rs:168-179 | a pending tail is shown, a non-empty unterminated call is reported invalid, and the machine is ready for new content |
| `TurnParsers.OrdinaryRun` | crates/sg-tokenizer/src/toolcall.rs:149-163 | ordinary ids show, or collect, exactly their decoded text in the current state |
| `TurnParsers.GrownTwice` | crates/sg-tokenizer/src/toolcall.rs:149-163 | where text is cut into deltas does not matter, across the header newline too |
| `Samplers.Sampler.Sample` | crates/sg-model/src/sampler.rs:78-157 | greedy without temperature; otherwise the generator state, and always the logit, of one pass over the ranked vocabulary (over its best 1024 when both filters are off or top-k is larger), and its token when no tie reaches from the drawn place across the final working set |
| `Samplers.Narrow` | crates/sg-model/src/sampler.rs:84-146 | the widening loop ends at the first width that suffices, and keeps as many of that selection as the single pass keeps |
| `Samplers.KeptIsForcedIff` | crates/sg-model/src/sampler.rs:84-146 | the kept list is that of the single pass for every legal selection if and only if the final working set is the vocabulary or the last kept logit is larger than the first left out |
| `Samplers.SampleIsForcedIff` | crates/sg-model/src/sampler.rs:78-157 | the token drawn is that of the single pass for every legal selection if and only if the working set is the vocabulary or the drawn logit is larger than the first left out |
| `Samplers.ReturnedLogit` | crates/sg-model/src/sampler.rs:78-157 | ties never change the logit of the token returned |
| `Samplers.CutOfSelection` | crates/sg-model/src/sampler.rs:121-146 | how many are kept and whether to widen do not depend on how the selection broke ties |
| `Samplers.EqualLogitsCanWiden` | crates/sg-model/src/sampler.rs:283-292 | 4096 equal logits at top-p 0.9: the set widens to the vocabulary and the kept list is forced |
| `Samplers.EqualLogitsCanDiffer` | crates/sg-model/src/sampler.rs:172-181 | the failing input: 4096 equal logits at top-p 0.2, where some legal selection keeps another list |
| `Samplers.WideningIsInvisible` | crates/sg-model/src/sampler.rs:125-146 | a prefix reached within the working set, or the whole vocabulary, is cut where the full ranking is cut |
| `Samplers.KeptIsSmallestPrefix` | crates/sg-model/src/sampler.rs:125-146 | top-p keeps the smallest descending prefix whose mass reaches its share of the reference mass: the candidates' with top-k on, the whole vocabulary's with it off |
| `Samplers.DrawIsInverseCdf` | crates/sg-model/src/sampler.rs:148-156 | the index drawn is the one whose cumulative interval contains the scaled uniform number |
| `Samplers.EveryCandidateIsDrawn` | crates/sg-model/src/sampler.rs:73-156 | every kept candidate whose share of the kept mass exceeds `2^-53` is the one drawn for some word of the generator |
| `Units.UnitIsFraction` | crates/sg-model/src/sampler.rs:73-75 | the uniform number is the word over `2^64`, rounded down by less than `2^-53` |
| `Units.EveryFraction` | crates/sg-model/src/sampler.rs:73-75 | every multiple of `2^-53` below 1 is the number of some word |
| `Samplers.Draw` | crates/sg-model/src/sampler.rs:148-156 | the subtract-and-test loop computes that index and never reaches its fallback |
| `Samplers.Prefix` | crates/sg-model/src/sampler.rs:128-139 | the accumulation loop stops at the first cumulative weight that reaches the target, or reports that none does |
| `Samplers.ArgMax` | crates/sg-model/src/sampler.rs:161-169 | the greedy token is the first in rank: the largest logit, lowest id |
| `Samplers.WholeMass` | crates/sg-model/src/sampler.rs:99-103 | the mass summed by id equals the mass of the ranked vocabulary |
| `Samplers.RankedMass` | crates/sg-model/src/sampler.rs:99-103 | in exact arithmetic ranking does not change the mass |
| `Samplers.DistinctIsForced` | crates/sg-model/src/sampler.rs:172-181 | pairwise distinct logits leave nothing to the selection: the token is that of the single pass |
| `Rankings.PrefixIsForcedIff` | crates/sg-model/src/sampler.rs:172-181 | the first `n` of the sorted candidates are the best `n` for every legal partial selection if and only if no tie reaches from the last of them across the boundary |
| `Rankings.PlaceIsForcedIff` | crates/sg-model/src/sampler.rs:172-181 | the same for the candidate at one place |
| `Rankings.SelectedLogits` | crates/sg-model/src/sampler.rs:172-181 | every legal selection, sorted, has the logits of the best `k` |
| `Rankings.RankingIsUnique` | crates/sg-model/src/sampler.rs:106-113 | descending logit with ties by id orders a candidate set in one way |
| `Rng.GeneratorLives` | crates/sg-model/src/sampler.rs:42-70 | no state of any run from any seed is all zeros |
| `Rng.SeededFromZero` | crates/sg-model/src/sampler.rs:42-56 | the four words of seed 0, as numbers |
| `Rng.FirstDraw` | crates/sg-model/src/sampler.rs:59-71 | the first word drawn from seed 0 and the state it leaves, as numbers |
| `Rng.FinaliseIsBijection` | crates/sg-model/src/sampler.rs:46-52 | the splitmix finaliser is a bijection of 64-bit words that fixes zero and only zero |
| `Rng.SeededIsNotZero` | crates/sg-model/src/sampler.rs:42-56 | the four expanded words are never all zero: the first two never both are |
| `Rng.SeedsDiffer` | crates/sg-model/src/sampler.rs:42-56 | different seeds give different states |
| `Rng.NextIsInjective` | crates/sg-model/src/sampler.rs:59-70 | the xoshiro step can be undone, and only zero steps to zero |
| `Rng.Generator.NextWord` | crates/sg-model/src/sampler.rs:59-70 | the in-place updates compute the step and its output word |
| `Rng.Generator.constructor` | crates/sg-model/src/sampler.rs:42-56 | seeding stores the four finalised counter values |
| `StopStreams.Generation` | crates/sg-model/examples/run.rs:104-146 | what a whole generation shows: the text before the earliest match once a piece completes a stop, everything otherwise |
| `StopStreams.Printer.OnText` | crates/sg-model/examples/run.rs:105-140 | while no stop has matched exactly all but the holdback is on screen and the amount never decreases; on a match exactly the text before it is |
| `StopStreams.HoldbackCoversLaterMatches` | crates/sg-model/examples/run.rs:123-128 | nothing printed can belong to a stop that completes later |
| `StopStreams.HoldbackIsNeeded` | crates/sg-model/examples/run.rs:123-128 | the holdback is tight: some continuation completes a stop right where it starts |
| `StopStreams.PrintedBeforeMatch` | crates/sg-model/examples/run.rs:117-122 | when a stop matches, nothing past its start is on screen, so the printed slice is in order |
| `StopStreams.SafeGrows` | crates/sg-model/examples/run.rs:129-138 | the safe length never goes back |
| `StopStreams.HoldbackAtBoundary` | crates/sg-model/examples/run.rs:130-134 | the safe length is a character boundary, so the search backwards for one never moves |
| `StopStreams.EncodedIsWhole` | crates/sg-model/examples/run.rs:117-146 | encoded texts never start inside a character |
| `StopStreams.BoundaryIff` | crates/sg-model/examples/run.rs:130-167 | the boundaries of encoded text are exactly the ends of its characters |
| `StopStreams.SlicesAreWhole` | crates/sg-model/examples/run.rs:117-138 | every printed slice lies between character boundaries |
| `StopStreams.TailOverlap` | crates/sg-model/examples/run.rs:157-167 | the descending search returns the longest tail that is a proper prefix of the stop and starts at a character |
| `StopStreams.Printer.Finish` | crates/sg-model/examples/run.rs:142-146 | after a generation that was not aborted all text is on screen |
| `GgufRoundTrips.ParseOfBuild` | crates/sg-gguf/src/parse.rs:113-209 | parsing a written file returns the same keys, values, order, tensor table, offsets and data section |
| `GgufRoundTrips.DataOfBuild` | crates/sg-gguf/src/parse.rs:227-243 | the slice found under each tensor's name is the data that was written for it |
| `GgufRoundTrips.PackAt` | crates/sg-gguf/tests/common/mod.rs:233-281 | packed tensors lie at aligned offsets, in range and unaltered by later ones |
| `GgufRoundTrips.KvsBack` | crates/sg-gguf/src/parse.rs:127-135 | a written metadata list reads back in order |
| `GgufRoundTrips.InfoBack` | crates/sg-gguf/src/parse.rs:246-283 | a written tensor header reads back with its byte length |
| `GgufValues.ArrayBack` | crates/sg-gguf/src/parse.rs:321-375 | a written array of any element type, nested to the parser's cap, reads back whatever follows |
| `GgufValues.FitsIff` | crates/sg-gguf/src/parse.rs:321-375 | an array is the reading of some bytes if and only if it fits the format: nesting within the cap, counts and lengths of 64 bits, elements of their width |
| `GgufValues.ValueBack` | crates/sg-gguf/src/parse.rs:285-308 | a written value of any type reads back |
| `GgufValues.FitsValueIff` | crates/sg-gguf/src/parse.rs:285-308 | the same for values: what reading can return is exactly what writing takes |
| `GgufValues.TextBack` | crates/sg-gguf/src/parse.rs:447-451 | a written string reads back |
| `GgufValues.LeRoundTrip` | crates/sg-gguf/src/parse.rs:390-400 | little-endian bytes of a value that fits give the value back |
| `Ggufs.ParseAccepts` | crates/sg-gguf/src/parse.rs:165-209 | an accepted file starts with the magic and version 3; its keys are distinct, and each of its tensors is aligned, in range, as large as its elements, distinct by name and found by it |
| `Ggufs.HeaderSize` | crates/sg-gguf/src/parse.rs:263-275 | the byte length of a header of up to four dimensions is that of its elements: the product written out, 4 or 2 bytes each, or 18, 34 and 210 bytes to 32, 32 and 256 of them |
| `Ggufs.SizeOfPermutation` | crates/sg-gguf/src/parse.rs:263-275 | permuting the dimensions leaves the length unchanged |
| `Ggufs.AlignmentIs` | crates/sg-gguf/src/parse.rs:134-150 | without the key the alignment is 32; with it, any unsigned integer that is a power of two |
| `Ggufs.TensorData` | crates/sg-gguf/src/parse.rs:232-243 | slicing a tensor's data is total on accepted files and has its byte length |
| `Ggufs.IndexedIsOk` | crates/sg-gguf/src/parse.rs:152-161 | the name index names every tensor and only tensors |
| `GgufReaders.ParseFile` | crates/sg-gguf/src/parse.rs:113-209 | the cursor-driven parse computes the specified result, errors in the source's order |
| `GgufReaders.Cur.NextArray` | crates/sg-gguf/src/parse.rs:321-375 | the recursive cursor ends, respects the nesting cap and stands at what the reading leaves |
| `GgufReaders.Cur.NextInfos` | crates/sg-gguf/src/parse.rs:152-161 | the table loop refuses a repeated name through the index it builds |
| `GgufReaders.CheckInfo` | crates/sg-gguf/src/parse.rs:258-282 | the checks on a header in the source's order: type, overflow of the element count, whole blocks, overflow of the length |
| `GgufReaders.KindWidth` | crates/sg-gguf/src/parse.rs:285-375 | each type code reads as its type and width |
| `GgufReaders.FindAlignment` | crates/sg-gguf/src/parse.rs:134-150 | the key is looked up, typed and tested as specified |
| `GgufReaders.Cur.TakeBytes` | crates/sg-gguf/src/parse.rs:404-418 | bytes are taken only when present, and the cursor moves past exactly them |
| `GgufReaders.ValidateTensors` | crates/sg-gguf/src/parse.rs:180-198 | the check loop accepts exactly when every tensor is aligned and in range |
| `Loaders.DirectLoad` | crates/sg-gguf/src/weights.rs:123-172 | success means the destination holds exactly the data section, for every offset, length, address phase and pattern of short reads; without device failures success is exactly that the file is long enough |
| `Loaders.ReadFull` | crates/sg-gguf/src/weights.rs:176-193 | a window is filled from the file, short only at its end; no progress is an error |
| `Loaders.ReadDirect` | crates/sg-gguf/src/weights.rs:151-156 | a chunk read straight into the destination lands in place and in bounds |
| `Loaders.ReadChunk` | crates/sg-gguf/src/weights.rs:142-170 | each chunk that can return bytes starts at a block boundary, asks for whole blocks and targets an aligned address, directly only when the phase allows |
| `Loaders.CopyOverlap` | crates/sg-gguf/src/weights.rs:157-169 | the part of the bounce buffer inside the data section lands in place and in bounds |
| `Loaders.MmapLoad` | crates/sg-gguf/src/weights.rs:70-74 | a destination of the right length receives the data, any other is refused untouched |
| `Loaders.LoadBothWays` | crates/sg-gguf/src/weights.rs:70-74 | both sources fill a destination with the parsed file's data section |
| `Loaders.SectionOfParsed` | crates/sg-gguf/src/parse.rs:218-225 | the data section the loader is built for runs from the parsed offset to the end of the file |

## Left out

- Numerics: rounding, quantised weights and activations, f16 storage of keys and values, tolerances. A weight row is a row of opaque floats, the quantised and the single-row kernels are the same row function, and storing a row in the cache is the identity.
- Kernels: the shader sources are not part of this model. Each dispatch is the row function its tests pin down, over all padded rows; the frozen rotation pairs are the identity of the opaque rotation.
- Graph commands: a recorded layer is one command; its dispatches are run in record order, which `Barriers` justifies for graphs built with `dispatch`.
- GpuModels.GpuModel.Prefill: assumes a chunk no longer than the window, as a type of the configuration, and history plus prompt within the global capacity, which is the error check of the source; an error in the middle of a prefill, after which the position and a session's history disagree, is not modelled.
- GpuModels.GpuModel.DecodeStep: requires room in the global store, which the source does not check when decoding, and attention that ignores reading order.
- GpuModels.GpuModel.PrefillPlain: requires the run to stay within the global capacity, which only `prefill` checks.
- `prefill_all_logits`, profiling graphs, timestamps, activation taps, buffer read-back and device errors.
- Vulkan objects, fences, queues, pipelines, descriptor pools and memory mapping.
- Sessions.Session.Request: the sampler and the caller's callback are arbitrary deterministic functions; errors between prefill and history update are not modelled; a reply is taken to be requested within capacity.
- Tokenizers.EncodeText: requires a text on which splitting ends when specials are matched; for a vocabulary with an empty special and no special `<` there are texts on which the source's loop runs for ever (`SplittingEndsIff`, `NeverStops`). Also a text whose bytes a machine word can count.
- Tokenizers.MatchRoundTripIff: for merges that neither consume nor yield byte tokens; specials that do not start with `<` are never matched by the source and are ordinary text here too.
- Vocabs.FromMetadata: takes the typed metadata fields as given; reading them from the key/value list, and a vocabulary of 2^32 - 1 pieces or more, are not modelled. Acceptance is exact; of several faults, which one is reported is not stated.
- Positions inside strings count characters rather than bytes in the tokenizer and the tool-call parser, and error values carry no byte offsets.
- Rust's float parsing and printing and Unicode lowercasing are parameters; a float survives a tool-call round trip under the stated condition on those two functions.
- ToolRoundTrips.CallRoundTripIff: for keys and floats that come back one by one (`KeyRoundTripIff`, `GoodFloat`). A key that no text can yield is lost whatever the rest (`UnreadableIsLost`); for a bare-printed key that only a quoted spelling could yield, that no other part of the same text happens to spell it is not proved.
- Schema serialisation (`render_declaration`, `format_parameters`), `strip_thinking` and the rest of the prompt template.
- Samplers.Sampler.Sample: exact real arithmetic with an arbitrary positive exponential, so underflow and NaN are not modelled. With both filters off, or top-k above 1024, the source looks at the best 1024 tokens only, and so does the definition it is compared with (`Kept`).
- The selection algorithm itself: `SelectTop` states the partial selection's contract and meets it in the simplest way.
- Loaders.DirectLoad: the device answers from a finite plan of short reads, interruptions and failures, then in full; each chunk is asked for in whole blocks (`InBlocks`), while the reads that finish a chunk after a short one start where the device stopped. Opening the file is a yes or no.
- GgufRoundTrips.ParseOfBuild: the writer packs tensors; files with explicit, possibly overlapping offsets are covered by the acceptance theorem only. Values are kept as bit patterns.
- Recursion depth of the tool-call parser on deeply nested input (the machine stack).
- The server, the benches, the probes, argument parsing, and the Python fixture generators.
