# gonano: verified models of its algorithmic cores

gonano is a small language-model stack: tokenizer training and encoding, a transformer with
compressed attention and a key/value cache, generation protocols, model and prefix caches, data
loading and a Snappy decoder. This project models the algorithms in it that compare a fast, stateful
form with a simple meaning, in the form the program has them (loops over arrays, classes whose
methods update their fields), and proves that the two agree. `dafny verify dfyconfig.toml` checks
everything.

The main results, each for all inputs and all runs:

- **Byte-level BPE.** The incremental trainer (counts, inverted index, lazily invalidated heap)
  performs exactly the merges of recounting from scratch, the most frequent pair each time
  (`TrainBPE`, `MostFrequent`, `TrainingDeterministic`). No merge ever spells an existing token
  (`SpellingInjective`), and the byte-keyed greedy encoder equals replaying the training merges on
  every byte string (`EncoderReplaysMerges`). Decoding undoes encoding exactly on valid UTF-8, and no
  encoded id is a special id (`TrainedTokenizer`).
- **Sparse selection.** The bounded heap returns the prefix of the full sort, ties included
  (`TopKIndices`). Coarse-to-fine selection has the scores of the exhaustive one if and only if the
  groups per token reach min(topK, allowed groups) (`HierarchicalExactIff`). Chunked and whole-matrix
  selection agree (`ChunkedIsWhole`) and neither looks at or beyond the query's own block
  (`SelectionCausal`, `MatrixCausal`, `ScorerCausal`), while every block before it can be selected
  (`TokenPast`).
- **Chunk invariance.** Feeding tokens through the cached forward in any chunking gives the outputs
  and the cache state of one forward over all of them (`FeedChunks`): smear, raw rows, tail,
  compressed entries, visible entries, layer reuse, published selections and the decoder half that
  compresses the encoder's rows. What a row of any layer reads is written out (`LayerReads`), and
  exactly the raw rows of its window reach it (`OutsideWindow`, `InsideWindow`).
- **Splitting.** The split pattern is a regular expression with possessive quantifiers, a lookahead
  and case folding. Where folding and lower-casing agree on the text's runes, the scanner written by
  hand for it splits a text the same way if and only if no two blanks stand right before a word
  (`ScannerIsPatternIff`), and that premise is exact (`SameOnAllTextsIff`).
- **Cache codec.** Every well-formed cache survives serialisation, and every strict prefix of its
  bytes is rejected (`UnmarshalKVBuffer`). How many words of each buffer come back is written out
  (`RawKept`, `LayerKept`, `LatentsKept`).
- **Generation.** Speculative decoding over the batched, rewindable layer cache yields exactly plain
  greedy decoding for every drafter (`SpeculativeGenerate`). The ordinary loop, its full cache
  included, is the run the row protocol defines (`OrdinaryGenerate`). A request gives the same tokens
  in both loops, whatever the network chooses and the consumer accepts, if and only if its limit is
  positive and fits the context window, no tool answers a call that fits the limit, and no thinking
  budget can be spent within it (`SameForAllIff`). The row protocol answers every tool call with
  exactly its output block and keeps the thinking budget in every reachable state
  (`ToolCallAnswered`, `ThinkingBounded`). The calculator accepts exactly the grammar, with exact
  values (`ParseIff`, `ParsePrinted`).
- **Caches.** The bank and the prefix cache keep map, order and byte count in agreement over all
  runs, and hold exactly what their limits and last use say (`Acquire`, `MostRecent`, `Store`,
  `Lookup`).
- **Packing, dispatch, Snappy.** Best-fit packing conserves documents and crops only when it must
  (`Next`, `CroppedLast`). Expert dispatch equals the naive mixture (`Forward` in `Dispatch`). The
  Snappy decoder returns bytes if and only if the input is a block that stands for them
  (`SnappyDecode`, `MeaningIs`).

## Layout

One module per component, in this order: `Bpe`, `BpeEncoder`, `BpeTrainer`, `Utf8`, `Splitter`,
`Patterns`, `Tokenizers` (tokenizer); `TopK`, `BlockSelection`, `BlockSelector` (index selection);
`Smear`, `Compressors`, `LayerCaches`, `Networks`, `Reach`, `ChunkedForward` (cached forward);
`KvWire`, `KvLists`, `KvLayers`, `KvFormat`, `KvEncode`, `KvDecode`, `KvExample` (cache codec);
`RowProtocol`, `Streams`, `Speculative`, `Ordinary`, `Requests`, `Generation` (generation); `Syntax`,
`Arithmetic`, `Calculator`, `ArithParsers` (calculator); `Snappy`, `SnappyDecoder`, `SnappyExample`;
`Recency`, `Ledger`, `Banks`, `PrefixCaches` (caches); `Dispatch`; `Packing`.
`Bytes`, `Vectors`, `Division`, `Sequences` and `Wrappers` hold what several of them share.

Each loop or method is proved equal to a specification function; what the program promises is then
proved about that function, or is the method's own postcondition. The parameters that stand for
parts outside the model are: the Unicode classes, the model's numerics (embedding, projection,
attention, experts, `exp`), the drafter, the sampler and its tokens, the tools, clocks, the document
provider, and whether a checkpoint loads.

## Findings

- Speculative and ordinary decoding part at the edges (inference/speculative.go:86,
  inference/engine.go:194-198, 240-326). Speculation yields nothing for a limit of zero or less, and
  nothing beyond the context window. The ordinary loop never looks at the window. Its decode cache has
  room for the limit's tokens only, none for a limit of zero or less, so there it yields one column
  and then crashes unless the consumer refused more (`NoLimit`). It also yields the stop token's own
  column, which speculation keeps back (`RunShape`). And it forces tool output and closing tokens, which
  speculation never does. `SameTokensIff` says for every run when the tokens are the same,
  `SameForAllIff` for every request, before it runs, whether they always will be. `ZeroLimitDiffers`,
  `FullWindowDiffers` and `ToolCallDiffers` are inputs on which they differ.
- The scanner is called a faithful implementation of its pattern (tokenizer/splitter.go:5-9), but it
  parts from it in two ways. It takes a whole run of blanks where the pattern's lookahead leaves the
  last one to the word behind it. And it lower-cases where the pattern folds case, which is not the
  same for a long s (tokenizer/splitter.go:65-78). `ScannerIsPatternIff` is the exact condition on a
  text on whose runes the case rules agree, `SameOnAllTextsIff` shows that any other rune parts the
  two on some text, and `BlanksDiffer` and `LongSDiffers` are texts on which they differ. The model
  follows the code.
- Hierarchical selection with too few groups per token loses scores on some row of every such shape:
  `HierarchicalExactIff` gives the exact condition, with one best entry per group as the witness.
- The codec drops the recorded widths of compression, indexer and latents when the feature itself is
  off, an indexer without compression altogether, and all compression state at a ratio of 1:
  `GeometryKept` states exactly when the geometry survives, `GeometryLost` is a buffer that loses its
  own.
- When the thinking budget is spent while q forced tokens are still queued, each of them queues
  another closing token (inference/engine.go:305-310): q + 1 closers come out, q of them after the
  trace was closed (`ClosersExactly`). There is one closer if and only if the queue was empty
  (`OneCloserIff`); `StrayClosers` is a run with a tool call inside the trace.

## Model

| member | source | states |
|---|---|---|
| `Bpe.MergePairs` | tokenizer/bpe.go:150-163 | The cursor loop computes the left-to-right pass that replaces non-overlapping occurrences of the pair; the lemmas below fix what that pass means. |
| `Bpe.PassExpand` | tokenizer/bpe.go:147-163 | A merge pass changes the segmentation but not the bytes it spells. |
| `Bpe.ReplayExpand` | tokenizer/bpe.go:108-144 | Replaying any number of merges over any byte string leaves its bytes unchanged and uses only symbols that exist by then. |
| `Bpe.ReplayCut` | tokenizer/bpe.go:150-163 | Span independence: if a boundary survives k merges, each side of it is segmented exactly as it would be alone. |
| `Bpe.GroundedIsCanonical` | tokenizer/bpe.go:108-144 | If every merged pair was adjacent in some training piece when it was merged, every merged symbol, spelled out alone, is its own two parts just before its merge. |
| `Bpe.SpellingReplay` | tokenizer/bpe.go:122-138 | From its merge on, the bytes of a merged symbol replay to that one symbol. |
| `Bpe.SpellingInjective` | tokenizer/bpe.go:122-126 | Merge freshness: no two symbols, byte or merged, spell the same byte string, for every corpus and merge count. |
| `Bpe.AdjacentRank` | tokenizer/tokenizer.go:146-159 | Two symbols adjacent after k merges never spell a symbol older than merge k, and spell symbol 256+k only if they are merge k's own pair. |
| `BpeEncoder.FindBest` | tokenizer/tokenizer.go:146-156 | The scan returns the leftmost of the lowest-ranked adjacent pairs that form a token, and a negative index only when no pair does. |
| `BpeEncoder.BpeMergePiece` | tokenizer/tokenizer.go:139-164 | For any rank table the in-place merge loop yields the greedy segmentation and stops only when no adjacent pair is a token. |
| `BpeEncoder.GreedyConcat` | tokenizer/tokenizer.go:139-164 | Greedy merging loses no byte and reorders none. |
| `BpeEncoder.GreedyTokens` | tokenizer/tokenizer.go:89-97 | When every single byte is a token, every part of the result is one, so every lookup of Encode succeeds. |
| `BpeEncoder.EncoderReplaysMerges` | tokenizer/tokenizer.go:139-164 | With a trained table, the byte-keyed leftmost-lowest-rank loop gives, for every byte string, exactly the segmentation of applying the training merges in order. |
| `BpeTrainer.TopUnique` | tokenizer/bpe.go:17-25 | The order on count and then smaller symbols leaves exactly one best pair. |
| `BpeTrainer.TrainedUnique` | tokenizer/bpe.go:108-144 | Training by recounting from scratch determines the merge list: two merge lists that follow the rule are equal. |
| `BpeTrainer.TrainedIsCanonical` | tokenizer/bpe.go:108-144 | Every merge list that naive training can produce satisfies the premise of freshness and of the encoder equivalence. |
| `BpeTrainer.RecountUpdate` | tokenizer/bpe.go:134-138 | Re-segmenting one piece changes each pair's total by exactly the difference of that piece's occurrences. |
| `BpeTrainer.Trainer.AddPiecePairs` | tokenizer/bpe.go:64-77 | Adds exactly the piece's occurrences to the counts, the piece to the member set of each of its pairs, and those pairs to the touched set. |
| `BpeTrainer.Trainer.RemovePiecePairs` | tokenizer/bpe.go:78-91 | Takes exactly the piece's occurrences out of the counts and the piece out of the member sets, and marks those pairs touched. |
| `BpeTrainer.Trainer.MergePiece` | tokenizer/bpe.go:135-137 | Keeps counts and index equal to a full recount while one piece is re-segmented; only touched pairs change count. |
| `BpeTrainer.Trainer.MergeMembers` | tokenizer/bpe.go:128-138 | Visiting only the indexed pieces, in any order, re-segments the whole corpus; counts and index still equal a recount. |
| `BpeTrainer.Trainer.PushCounts` | tokenizer/bpe.go:139-142 | Every given pair gets an up-to-date heap entry and no entry is lost. |
| `BpeTrainer.Trainer.Load` | tokenizer/bpe.go:93-101 | The initial counts and index equal a recount and every pair that occurs has a fresh heap entry. |
| `BpeTrainer.PopTop` | tokenizer/bpe.go:17-25 | The contract of the heap library: no other entry in the heap has a higher count, nor the same count and smaller symbols. |
| `BpeTrainer.Trainer.PopFresh` | tokenizer/bpe.go:109-120 | The lazily invalidated heap yields the pair of highest recount, of those the smallest left symbol, then the smallest right one; nothing only when no pair occurs. |
| `BpeTrainer.Trainer.Apply` | tokenizer/bpe.go:127-142 | One merge re-segments every piece and restores both invariants: counts and index equal a recount, and the heap is fresh. |
| `BpeTrainer.ByteRanks` | tokenizer/bpe.go:55-58 | The 256 single-byte tokens carry the ids 0..255. |
| `BpeTrainer.RanksStep` | tokenizer/bpe.go:122-126 | The new token's bytes are not yet a key, and adding them keeps the table a bijection between spellings and symbols. |
| `BpeTrainer.TrainBPE` | tokenizer/bpe.go:46-145 | For every corpus and merge count the incremental trainer performs exactly the merges of recounting from scratch: each merged pair has the highest count of its step, ties going to the smaller left and then right symbol. It stops early only when no pair is left, and returns a bijection onto 0..len-1. |
| `BpeTrainer.MostFrequent` | tokenizer/bpe.go:17-25 | In any naive training no pair ever counts more than the merged one, and an equally frequent pair has larger symbols. |
| `BpeTrainer.OccurrencesAre` | tokenizer/bpe.go:64-68 | A pair's count in a piece is the number of places where its symbols stand side by side, overlaps included. |
| `BpeTrainer.TrainingDeterministic` | tokenizer/bpe.go:99-142 | The result does not depend on map iteration order or on the heap's internals. |
| `Utf8.DecodeEncoded` | tokenizer/splitter.go:11 | An encoded rune followed by anything decodes to that rune and its width. |
| `Utf8.EncodeDecoded` | tokenizer/splitter.go:11-17 | A well-formed sequence at the front of a text is the encoding of the rune it decodes to. |
| `Utf8.Utf8Valid` | tokenizer/splitter.go:17 | Converting runes to a string always gives valid text. |
| `Utf8.ValidRoundTrip` | tokenizer/splitter.go:11-17 | String to runes and back is the identity on valid text. |
| `Utf8.RuneBytes` | tokenizer/splitter.go:17 | Lead byte, continuation bytes and value of a rune's encoding, by its range. |
| `Utf8.FrontIff` | tokenizer/splitter.go:11 | A front decodes to a scalar if and only if the bytes of some rune stand there. |
| `Utf8.DecodeFirst` | tokenizer/splitter.go:11 | Decoding takes the rune whose bytes stand in front; where there is none, U+FFFD for one byte. |
| `Utf8.ValidIff` | tokenizer/splitter.go:11-17 | Text is valid if and only if some runes encode to it. |
| `Splitter.MatchContraction` | tokenizer/splitter.go:59-80 | Matches an apostrophe and a listed suffix, two letters before one, letter case ignored; otherwise -1. |
| `Splitter.MatchLetter` | tokenizer/splitter.go:83-98 | Ends after the longest letter run behind an optional prefix rune, or does not advance. |
| `Splitter.MatchNumber` | tokenizer/splitter.go:101-110 | Takes one or two number runes. |
| `Splitter.MatchPunctuation` | tokenizer/splitter.go:113-130 | Takes an optional space, the longest symbol run and the newlines after it, or does not advance. |
| `Splitter.MatchNewline` | tokenizer/splitter.go:136-149 | Ends after the last newline of the whitespace run, or does not advance when the run has none. |
| `Splitter.MatchWhitespace` | tokenizer/splitter.go:152-161 | Ends after the whole whitespace run. |
| `Splitter.NextPiece` | tokenizer/splitter.go:15-49 | Takes the first alternative that advances, and always advances. |
| `Splitter.SplitPieces` | tokenizer/splitter.go:10-51 | The scanner yields the pieces of the ordered choice, for any Unicode classification. |
| `Splitter.PiecesJoin` | tokenizer/splitter.go:10-51 | The pieces concatenate to the text: nothing is lost, repeated or reordered. |
| `Splitter.PieceMatches` | tokenizer/splitter.go:41-48 | Every piece matches one of the pattern's alternatives, so the fallback that takes a single rune is never reached. |
| `Patterns.ContractionLeads` | tokenizer/special.go:37 | Under backtracking the pattern's contraction alternative first matches what the matcher's branches take, with the pattern's own case rule in place of lower-casing. |
| `Patterns.LetterLeads` | tokenizer/special.go:38 | The possessive prefix and the letter run match what the hand-written matcher takes. |
| `Patterns.PunctuationLeads` | tokenizer/special.go:40 | Optional space, possessive symbol run and newlines match what the hand-written matcher takes; a space handed back is no symbol. |
| `Patterns.NewlineLeads` | tokenizer/special.go:41 | Backtracking out of the whitespace run first reaches the last newline, as the matcher has it. |
| `Patterns.TrailingLeads` | tokenizer/special.go:42 | The lookahead alternative leaves the last blank to the rune behind the run, unless the run ends the text. |
| `Patterns.PatternLeads` | tokenizer/special.go:33-47 | At every position of every text, under one case rule, the whole regular expression matches what the scanner takes, or one blank less when several blanks precede another rune. |
| `Patterns.ScannerIsPatternIff` | tokenizer/splitter.go:5-51 | On a text whose runes play the same part in a contraction when folded and when made lower-case, the scanner splits as the split pattern does if and only if no two blanks that are no newlines stand right before a rune that is no whitespace. |
| `Patterns.SameOnAllTextsIff` | tokenizer/splitter.go:59-80 | The premise on case is exact: all texts without crowded blanks are split alike if and only if no rune plays a different part in a contraction under case folding than under lower-casing. |
| `Patterns.LongSDiffers` | tokenizer/splitter.go:65-78 | On apostrophe, long s and a letter, without any blank, the pattern takes a contraction and the scanner one word. |
| `Patterns.BlanksDiffer` | tokenizer/splitter.go:151-161 | On two blanks and a letter the scanner's pieces and the pattern's pieces differ. |
| `Tokenizers.LayTokens` | tokenizer/tokenizer.go:44-46 | Whatever the map's order, the slot of every rank holds a token of that rank. |
| `Tokenizers.LaySpecials` | tokenizer/tokenizer.go:47-52 | Special tokens take the ids from the table's size on in order, leave the slots below untouched, and a repeated name keeps its last id. |
| `Tokenizers.Tokenizer.constructor` | tokenizer/tokenizer.go:33-55 | Every id below the vocabulary size means one thing: the token of that rank, or the special at that place behind them. |
| `Tokenizers.Tokenizer.EncodePiece` | tokenizer/tokenizer.go:92-94 | A piece's ids are the ranks of its greedy parts. |
| `Tokenizers.Tokenizer.Encode` | tokenizer/tokenizer.go:89-97 | The ids are those of the greedy parts of the split pieces, in order. |
| `Tokenizers.Tokenizer.Decode` | tokenizer/tokenizer.go:110-118 | Concatenates the bytes of the known ids and skips the unknown ones. |
| `Tokenizers.PieceIds` | tokenizer/tokenizer.go:89-97 | The ids of a piece are the symbols the trainer itself would end with. |
| `Tokenizers.PiecesRoundTrip` | tokenizer/tokenizer.go:89-118 | Decoding the ids of any pieces gives the pieces' bytes, and no id is a special id. |
| `Tokenizers.EncodeDecodeRoundTrip` | tokenizer/tokenizer.go:88-118 | Decode of Encode is the text if and only if the text is valid UTF-8; every id lies below the specials. |
| `Tokenizers.TrainedTokenizer` | tokenizer/tokenizer.go:33-118 | Over any trained table and any special list, no token's rank and no encoded id is a special id, and the round trip holds exactly on valid text. |
| `TopK.SortedRanked` | model/indexer.go:208-220 | Sorting ranks every index exactly once by value, ties toward the smaller index. |
| `TopK.RankedUnique` | model/indexer.go:262-269 | The order is strict, so a set of indices has exactly one ranked arrangement. |
| `TopK.BestPrefix` | model/indexer.go:222-226 | A ranked selection that nothing outside beats is the prefix of the full sort, tie order included. |
| `TopK.SiftUpIndex` | model/indexer.go:273-282 | Restores the worst-at-root heap order in place and keeps the heap's contents. |
| `TopK.SiftDownIndex` | model/indexer.go:285-305 | Restores the heap order below a replaced entry in place and keeps the contents. |
| `TopK.FillHeap` | model/indexer.go:238-249 | After the scan the heap holds exactly k indices and no index left out beats any of them. |
| `TopK.PopWorst` | model/indexer.go:254-257 | Removes exactly the worst retained index and restores the heap order. |
| `TopK.Drain` | model/indexer.go:252-259 | Popping until empty and filling from the back gives the contents in ranked order. |
| `TopK.TopRanked` | model/indexer.go:222-226 | The first k of the sort are distinct and ranked, and every index left out is worse than each of them. |
| `TopK.TopKIndices` | model/indexer.go:226-260 | For every value array and k the bounded heap, or the sort it falls back to, returns exactly the first min(k, len) of the full sort. |
| `BlockSelection.GroupsCover` | model/indexer.go:470-474 | As many groups as the budget needs entries for, and no fewer than one. |
| `BlockSelection.MembersIff` | model/indexer.go:484-491 | An entry is a candidate exactly when its group was chosen. |
| `BlockSelection.HierarchicalLeads` | model/indexer.go:461-493 | With enough groups the selected entries are distinct, in descending score, and no entry left out beats any of them. |
| `BlockSelection.HierarchicalExact` | model/indexer.go:461-511 | With at least min(topK, allowed groups) groups per token the selection has the same score sequence as the exhaustive one. |
| `BlockSelection.HierarchicalSameEntries` | model/indexer.go:461-511 | Under the same condition and with pairwise distinct scores the very same entries are selected. |
| `BlockSelection.HierarchicalOfOne` | model/indexer.go:461-511 | Under the same condition and with pool 1 the very same entries are selected, ties included. |
| `BlockSelection.HierarchicalExactIff` | model/indexer.go:468-483 | The condition is exact: coarse-to-fine selection agrees in scores with the exhaustive one on every row of a given length if and only if groups per token reach min(topK, allowed groups). |
| `BlockSelector.IndexerBlockMax` | kernels/backend.go:107-115 | Each row of the destination is the maximum of every group of columns, the last group short. |
| `BlockSelector.PatchedCoarse` | model/indexer.go:472-482 | Replacing the cut trailing group's maximum makes the row's maxima those of the visible prefix alone. |
| `BlockSelector.PatchRow` | model/indexer.go:472-482 | Patches the buffer in place so that its visible part equals the block maxima of the visible scores. |
| `BlockSelector.TopKFromScoreRow` | model/indexer.go:497-511 | Selects the top candidates by score, ties toward the earlier candidate. |
| `BlockSelector.SelectRowBlockMax` | model/indexer.go:461-493 | The row's selection and pool are those of the visible scores alone, for every topK, pool and budget, including none and negative ones. |
| `BlockSelector.SelectRows` | model/indexer.go:442-455 | Every row is selected from its own visible scores although all rows patch one shared buffer. Each entry e selected or pooled for token t has (e + 1) * ratio at most positionOffset + t, without duplicates, and with topK and budget no smaller than the block count every such block is selected. |
| `BlockSelector.SelectFromScoreMatrix` | model/indexer.go:358-377 | Whole-matrix selection gives every row its own selection and pool, with the causal bound of each row in plain arithmetic, from both sides. |
| `BlockSelector.SelectChunk` | model/indexer.go:411-428 | A chunk of rows over reused scratch is selected as if it stood alone at its own offset, within the causal bound of each row. |
| `BlockSelector.SelectProjectedScores` | model/indexer.go:383-437 | Chunked selection puts every row's selection at its place, for every batch size and length, within the causal bound of each row and complete where the budgets allow. |
| `BlockSelector.ChunkedIsWhole` | model/indexer.go:353-437 | Chunked and whole-matrix selection agree on every row, selection and pool. |
| `BlockSelector.SelectionCausal` | model/indexer.go:461-493 | Two runs that agree below the query's own block select the same entries from the same pool; pool and selection lie below that block and the selection has no duplicates. |
| `BlockSelector.AllowedIff` | model/indexer.go:446-449 | A query may use block e if and only if the block exists and ends at or before the query's position. |
| `BlockSelector.TokenPast` | model/indexer.go:442-455 | What one token selects and pools lies in the past; with budgets for all blocks nothing of the past is missing. |
| `BlockSelector.MatrixCausal` | model/indexer.go:358-377 | Score matrices that agree on the blocks b with (b + 1) * ratio at most positionOffset + t select and pool alike. |
| `BlockSelector.ScorerCausal` | model/indexer.go:383-437 | The same for projected scores: what the scorer says of later blocks never matters. |
| `BlockSelector.SelectBlocks` | model/indexer.go:186-204 | The exhaustive selector takes the top entries of each row's visible prefix: only blocks that end at or before the query, and all of them when topK allows. |
| `Smear.SmearAdd` | model/helpers.go:35-48 | In place, and still every row is mixed with its predecessor as it was before smearing. |
| `Smear.SmearSeed` | model/helpers.go:54-65 | Mixes the stored embedding into row 0 and leaves the others alone. |
| `Smear.SmearedPrefix` | model/transformer.go:266-301 | Smeared rows do not depend on later rows. |
| `Smear.SmearedAt` | model/helpers.go:41-45 | Each channel of a smeared row is the embedding's plus the gate times that of the unsmeared embedding before it. |
| `Smear.SmearRows` | model/transformer.go:275-301 | Every row of a chunk is mixed with its unsmeared predecessor in place, the first one with the kept embedding if there is one. |
| `Smear.SmearChunk` | model/transformer.go:275-301 | A chunk smeared against the kept embedding gives exactly its rows of one whole forward, and keeps the last unsmeared embedding. |
| `Smear.SmearWhole` | model/transformer.go:268-274 | A forward without a cache smears the same rows. |
| `Compressors.PoolBetween` | model/compress.go:139-161 | The pooled value lies between the smallest and the largest value of its block. |
| `Compressors.EntryIsSoftmax` | model/compress.go:100-161 | There is a block exactly where there is a row for it; its entry is, per channel, the softmax average of the rows it has, with the logit plus the bias of the row's place as exponent, less the largest. |
| `Compressors.PoolBlock` | model/compress.go:121-161 | One channel of one block is the softmax average of its existing rows, padded rows excluded. |
| `Compressors.Forward` | model/compress.go:93-177 | Every block, a short trailing one included, is pooled from exactly its own rows, for every length and ratio. |
| `Compressors.BlockAlone` | model/compress.go:98-110 | A complete block pools the same alone as at its place in any longer sequence, because the bias goes by position within the block. |
| `LayerCaches.EntriesAreForward` | model/compress_attention.go:848-870 | The entries of complete blocks are those one compressor forward over all rows puts there, per head, for keys and values. |
| `LayerCaches.EntriesPrefix` | model/compress_attention.go:875-890 | Earlier rows alone fix earlier entries. |
| `LayerCaches.LayerCache.WriteKeyValue` | model/kvcache.go:131-140 | Writes the chunk at the position, leaves every other slot, and returns the whole prefix. |
| `LayerCaches.LayerCache.AppendTailRow` | model/kvcache.go:323-334 | The tail grows by exactly the row. |
| `LayerCaches.LayerCache.CompressTail` | model/compress_attention.go:848-870 | Appends the pooled entry of the full tail, keys, values and indexer projection per head, and empties the tail. |
| `LayerCaches.LayerCache.PushRow` | model/compress_attention.go:878-889 | One row in keeps the invariant: n/ratio entries, those of the complete blocks, and a tail of exactly the last n mod ratio rows. |
| `LayerCaches.LayerCache.AppendGlobalTail` | model/compress_attention.go:875-890 | A chunk of any size leads from the state of the rows before it to the state of all rows. |
| `Networks.LayerPrefix` | model/transformer.go:303-327 | A layer's inputs and rows up to n do not depend on later tokens. |
| `Networks.OutputsPrefix` | model/transformer.go:243-342 | Causality: an output row is a function of the tokens up to it. |
| `Networks.StepPrefix` | model/transformer.go:303-327 | One layer on the first n positions of a stage gives the first n positions of one layer on the stage. |
| `Networks.AfterPrefix` | model/transformer.go:303-327 | Activations, entries, backout rows, published selections and encoder rows of every layer up to n do not depend on later tokens. |
| `Reach.RowReads` | model/compress_attention.go:956-1000 | What a layer makes of one position: attention gets the input, the entries of the position / ratio blocks before its own, what the group published, and the last min(position, window) + 1 raw rows. |
| `Reach.OutsideWindow` | model/compress_attention.go:543-560 | Raw rows before position - window, or behind the position, change no output row. |
| `Reach.InsideWindow` | model/compress_attention.go:543-560 | Each raw row of the window reaches attention: for some attention arithmetic another row there changes the output row. |
| `Reach.LayerReads` | model/transformer.go:303-327 | The same for any layer of the whole trunk, over what the layers below it computed from the tokens. |
| `Reach.RawReads` | model/transformer.go:312-318 | A layer's input is its activations and the initial residual of the same position combined; its raw row is projected from that input alone. |
| `Reach.KeptReads` | model/transformer.go:304-326 | Above the backout layer the kept rows are that layer's output and no other's. |
| `Reach.EncoderReads` | model/transformer.go:309-311 | From the split on the encoder rows are what the layers below the split put out. |
| `Reach.OwnerReads` | model/transformer.go:317-322 | A layer reads the rows of the last owner up to it: rows of the encoder's output where that owner encodes, else the owner's own projections. |
| `Reach.ResultReads` | model/transformer.go:243-342 | A row of the result comes from the top layer's row and the backout layer's row of the same position. |
| `ChunkedForward.LocalRows` | model/compress_attention.go:543-560 | The local branch sees min(position, window) + 1 rows, the last of them the query's own, in order. |
| `ChunkedForward.VisibleEntries` | model/compress_attention.go:971-975 | The query at p sees exactly p/ratio entries; the cap at the available count never bites. |
| `ChunkedForward.KVBuffer.constructor` | model/kvcache.go:69-88 | A fresh cache stands for no tokens and has room for its capacity. |
| `ChunkedForward.KVBuffer.EmbedChunk` | model/transformer.go:255-301 | Embedded and smeared chunk rows are those of the whole sequence. |
| `ChunkedForward.KVBuffer.Trunk` | model/transformer.go:303-327 | All layers in turn turn the chunk into its rows of the whole-sequence trunk, backout rows included. |
| `ChunkedForward.KVBuffer.Forward` | model/transformer.go:243-342 | The cached forward returns the chunk's rows of a forward over everything and leaves the state of everything. |
| `ChunkedForward.GlobalRows` | model/compress_attention.go:895-955 | An owner compresses its own rows, or those projected from the encoder's output in the decoder half. |
| `ChunkedForward.Attend` | model/compress_attention.go:956-1102 | Every query of the chunk gets the row, and hands on the selection and candidate pool, that it would in one whole forward. |
| `ChunkedForward.WriteLayer` | model/compress_attention.go:906-946 | All rows of the chunk are written and compressed before any query reads, and leave the state of all tokens. |
| `ChunkedForward.ForwardLayer` | model/compress_attention.go:895-1102 | One attention layer over a chunk keeps the cache in step with all tokens and returns the chunk's rows of the whole-sequence layer. |
| `ChunkedForward.KVBuffer.LayerStep` | model/transformer.go:308-327 | Bare layers, owners, and readers that take the last owner's entries and their group's published selection give the same result as over the whole sequence. |
| `ChunkedForward.FeedChunks` | model/transformer.go:211-215 | Chunk invariance over whole runs: any chunking of the same tokens gives the same outputs and the same state, for any mixture of bare, owner and reader layers, windows, published selections and an encoder-decoder split. |
| `ChunkedForward.KVBuffer.SetPosition` | model/kvcache.go:96-105 | Moves the position only; stale rows stay. |
| `ChunkedForward.KVBuffer.SetPreviousEmbeddingForToken` | model/dspark.go:92-102 | Stores the token's unsmeared embedding and nothing else. |
| `ChunkedForward.Rewound` | inference/speculative.go:135-137 | Without compressed entries, position n and the embedding of the n-th token make the cache that of the first n tokens: rejected rows never matter again. |
| `ChunkedForward.OwnerFixesLength` | model/kvcache.go:96-99 | A layer with compressed entries stands for one length only, so such a cache cannot be rewound. |
| `Bytes.LittleEndianRoundTrip` | model/kvcache_codec.go:311-317 | A 32-bit word survives its four bytes, which weigh 1, 256, 65536 and 16777216 in order. |
| `KvWire.KvWriter.U32` | model/kvcache_codec.go:311-317 | Appends the word's four bytes, low byte first, and nothing else. |
| `KvWire.KvWriter.F32s` | model/kvcache_codec.go:319-323 | Appends the values' bit patterns in order. |
| `KvWire.KvReader.Need` | model/kvcache_codec.go:332-341 | Answers whether the bytes are there and records the first shortage for good. |
| `KvWire.KvReader.U32` | model/kvcache_codec.go:343-350 | Reads the next word of a stream, or 0 once the input is cut. |
| `KvWire.KvReader.F32s` | model/kvcache_codec.go:354-362 | Reads a run of words whole or not at all. |
| `KvLists.WriteList` | model/kvcache_codec.go:109-112 | Writes exactly the used prefix of every buffer of a list. |
| `KvLists.ReadList` | model/kvcache_codec.go:242-245 | Reads the prefixes back into zeroed buffers, fails on a cut stream, and is out of range only for a count that does not fit. |
| `KvLists.WritePairs` | model/kvcache_codec.go:113-118 | Writes key and value prefixes interleaved. |
| `KvLists.ReadPairs` | model/kvcache_codec.go:246-251 | Reads interleaved key and value prefixes back, with the same guarantees. |
| `KvLayers.WriteLayered` | model/kvcache_codec.go:82-87 | Writes a pair of lists per layer. |
| `KvLayers.ReadLayered` | model/kvcache_codec.go:196-201 | Reads a pair of lists per layer back. |
| `KvFormat.FlagsRoundTrip` | model/kvcache_codec.go:16-22 | The five header flags survive their bit mask. |
| `KvFormat.LayerFlagsRoundTrip` | model/kvcache_codec.go:25-29 | The three layer flags survive theirs, and a zero word names no tier. |
| `KvEncode.WriteHeader` | model/kvcache_codec.go:43-75 | Writes the fourteen header words in order. |
| `KvEncode.WriteRaw` | model/kvcache_codec.go:80-88 | Writes the raw rows up to the position, none for a stripped snapshot. |
| `KvEncode.WriteCounters` | model/kvcache_codec.go:103-106 | Writes both counters of every row. |
| `KvEncode.WriteTail` | model/kvcache_codec.go:107-119 | Writes the used tail rows if the layer has a tail. |
| `KvEncode.WriteEntries` | model/kvcache_codec.go:120-135 | Writes the used entries and indexer keys of the tiers the layer owns. |
| `KvEncode.WriteLayer` | model/kvcache_codec.go:91-135 | Writes a layer's flags, counters and present tiers in order. |
| `KvEncode.WriteLayers` | model/kvcache_codec.go:90-137 | Writes every layer, and nothing without compression. |
| `KvEncode.WriteLatents` | model/kvcache_codec.go:139-149 | Writes latents and rotary keys up to the position if present. |
| `KvEncode.WritePrevious` | model/kvcache_codec.go:151-155 | Writes the previous embedding's width and data if present. |
| `KvEncode.MarshalBinary` | model/kvcache_codec.go:40-157 | The bytes are exactly the documented layout of the buffer: magic, header, raw rows, layers, latents, embedding. |
| `KvDecode.ReadHeader` | model/kvcache_codec.go:166-182 | Reads the fourteen header words back, or fails on a cut stream. |
| `KvDecode.ReadCounters` | model/kvcache_codec.go:225-230 | Reads every row's counters back; on a cut stream they still stay in range. |
| `KvDecode.ReadTail` | model/kvcache_codec.go:231-252 | Reads the tail tier back, and never runs out of range on what a writer produced. |
| `KvDecode.ReadLayer` | model/kvcache_codec.go:223-278 | Reads one layer back, absent tiers absent. |
| `KvDecode.ReadLayers` | model/kvcache_codec.go:204-279 | Reads all layers back, or fails on a cut stream without going out of range. |
| `KvDecode.ReadRaw` | model/kvcache_codec.go:194-202 | Reads the raw rows back, or leaves zeroed buffers for a stripped snapshot. |
| `KvDecode.ReadPrevious` | model/kvcache_codec.go:292-299 | Reads the previous embedding back, and reports an error exactly when the input is cut. |
| `KvDecode.ReadBody` | model/kvcache_codec.go:190-303 | Everything after the header: the buffer's normal form on whole input, an error on cut input. |
| `KvDecode.UnmarshalKVBuffer` | model/kvcache_codec.go:160-304 | Round trip for every well-formed buffer: a whole serialisation decodes to the buffer with unused slots zeroed, and every strict prefix of it is rejected with an error. |
| `KvDecode.RawKept` | model/kvcache_codec.go:80-88 | Of every layer, row and head the first sequenceLength * headDimension words of keys and values survive the round trip, none of them when stripped, and zeros follow. |
| `KvDecode.LayerKept` | model/kvcache_codec.go:90-137 | Every layer keeps its counters and tiers. Of row b and its head h the tail keeps tailLength[b] rows of its embeddings, keys and values, and the compressed tiers keep compressedCount[b] blocks of keys, values and indexer keys; zeros follow. |
| `KvDecode.LatentsKept` | model/kvcache_codec.go:139-149 | Of every layer and row the first sequenceLength * latentWidth words of the latents and sequenceLength * ropeWidth of the rotary keys survive the round trip, and zeros follow. |
| `KvExample.SampleFile` | model/kvcache_codec.go:40-158 | The file of a two-row buffer with every tier, word by word, whole and stripped. |
| `KvDecode.ReadEntries` | model/kvcache_codec.go:253-266 | Reads the compressed tier back; crashes on a tier of no blocks and never on what a writer produced. |
| `KvDecode.ReadIndexer` | model/kvcache_codec.go:267-277 | Reads the indexer tier back; crashes on a tier of no blocks or no width and never on what a writer produced. |
| `KvDecode.ReadLatents` | model/kvcache_codec.go:281-290 | Reads latents and rotary keys back, and crashes exactly when a width is zero. |
| `KvDecode.GeometryKept` | model/kvcache_codec.go:204-222 | The geometry survives if and only if a buffer without compression, indexer or latents carries none of their widths; stripped mark, embedding and presence of latents always survive. |
| `KvDecode.GeometryLost` | model/kvcache_codec.go:58-66 | A concrete buffer compressed at ratio 1 comes back without its widths and without its compression state. |
| `RowProtocol.RowState.constructor` | inference/engine.go:212-236 | A prompt that ends in the thinking opener starts the row inside the trace, exactly when thinking is tracked. |
| `RowProtocol.RowState.ToolSwitch` | inference/engine.go:279-297 | Opens, fills and closes a call; a closed, nonempty call that ran queues its output block. |
| `RowProtocol.RowState.ThinkingSwitch` | inference/engine.go:300-313 | Counts the trace and queues its end at the budget. |
| `RowProtocol.RowState.Step` | inference/engine.go:260-314 | One column's step of a row: the token and mask it emits and the state it leaves. |
| `RowProtocol.SafeStep` | inference/engine.go:260-314 | Every step keeps the safety invariant: a row in thinking at or past its budget has the closing token queued, and nothing queued opens or closes a call, starts thinking or ends the row. |
| `RowProtocol.AlwaysSafe` | inference/engine.go:212-314 | The invariant holds in every reachable state, for every prompt and every sampled sequence. |
| `RowProtocol.QueueDrains` | inference/engine.go:261-270 | What is queued comes out next, in order and with mask 0, however long the run goes on. |
| `RowProtocol.CallState` | inference/engine.go:279-297 | In every reachable state the recorded call is exactly the tokens since the last opener. |
| `RowProtocol.ToolCallAnswered` | inference/engine.go:283-294 | Every closing token of an open call was sampled, and what follows it, uninterrupted and with mask 0, is exactly the output opener, the tokens the tools return for what stood between opener and closer, and the output closer, as far as the run goes. |
| `RowProtocol.ThinkingBounded` | inference/engine.go:300-313 | With a budget, at most that many tokens are sampled between the start of thinking and the next delimiter. |
| `RowProtocol.ThinkingCloses` | inference/engine.go:305-310 | Once the budget is spent the closing token is in the queue and comes out of it. |
| `RowProtocol.ClosersExactly` | inference/engine.go:305-310 | In every run, if q tokens are queued as the budget is spent, those q tokens come out, then exactly q + 1 closing tokens, and then the queue is empty and the trace is closed. |
| `RowProtocol.OneCloserIff` | inference/engine.go:305-310 | A single closing token comes out if and only if nothing was queued as the budget was spent. |
| `RowProtocol.StrayClosers` | inference/engine.go:283-310 | A concrete run with a tool call inside thinking, whatever is sampled later: the tool's output of three tokens is followed by three closing tokens, two of them after the trace was closed. |
| `RowProtocol.StepColumn` | inference/engine.go:258-314 | A column steps every row by its own state and leaves the others alone. |
| `RowProtocol.GenerateRows` | inference/engine.go:211-326 | Over whole runs every row's column entries are its own protocol run, and generation ends only at the limit, at the consumer's refusal or when every row has completed. |
| `Streams.PlainStream` | inference/speculative.go:47-49 | The reference stream is exactly greedy decoding: each token is the greedy one after those before it, and it ends only at a stop token, the limit, the context window or the consumer's refusal. |
| `Streams.EmitRun` | inference/speculative.go:74-84 | Emitting a run either hands out exactly what the stream still owed and stops, or leaves the rest owed. |
| `Speculative.ArgmaxSlice` | inference/speculative.go:167-175 | The first index of the largest score. |
| `Speculative.ScoresAt` | inference/speculative.go:124-127 | A row of a longer forward holds the scores a forward that ends there would give, so one forward verifies a block. |
| `Speculative.ScheduledLength` | inference/speculative.go:21-35 | One plus the longest leading run of drafts whose survival product stays at or above the threshold. |
| `Speculative.Candidates` | inference/speculative.go:95-122 | The block is the target's own token and the draft, whatever its length, cut exactly where the estimated survival first falls below the threshold. |
| `Speculative.DraftedConfident` | inference/speculative.go:21-35 | Where confidences are probabilities, every drafted token that is kept has itself at least the threshold, 0.5 when none is given. |
| `Speculative.Accept` | inference/speculative.go:128-147 | The accepted candidates are greedy tokens, the run is the longest such prefix, and the carried token is the greedy one after it. |
| `Speculative.ScoreRows` | inference/speculative.go:124-127 | One batched forward over the layered cache scores every candidate as decoding up to it would, whatever stale rows the cache holds. |
| `Speculative.VerifyRound` | inference/speculative.go:124-147 | One round accepts at least one greedy token and, after position and embedding are rewound, leaves the layered cache as if only the accepted tokens had been fed. |
| `Speculative.Prefill` | inference/speculative.go:61-64 | A fresh cache stands for the prompt, with the scores after its last token. |
| `Speculative.BoundedFits` | inference/speculative.go:95-122 | A drafter that returns no more than it was asked for never overflows the context window. |
| `Speculative.SpeculativeGenerate` | inference/speculative.go:50-157 | Over the batched layer-by-layer cache, for every network without compressed entries, drafter, truncation, limit and consumer, the yielded tokens are exactly those of plain greedy decoding; it panics only at a draft that does not fit the context window, and then has yielded how greedy decoding begins. |
| `Ordinary.NoLimit` | inference/engine.go:194-198 | With a limit of zero or less the ordinary loop over an uncompressed cache yields exactly one column and then crashes, unless the consumer refused more. |
| `Ordinary.SilentUnforced` | inference/engine.go:260-314 | A run in which no call is opened and no budgeted trace is entered samples every column. |
| `Ordinary.RunShape` | inference/engine.go:240-326 | A run with a positive limit whose tokens are all greedy choices is tokens that do not stop, then at most the stop token's own column; it crashes only past the rotary tables. |
| `Ordinary.SpeculativeIsCut` | inference/speculative.go:86 | On the same request speculative decoding yields that run's tokens without the stop token, cut where the context window is full. |
| `Ordinary.SameTokensIff` | inference/speculative.go:86 | For every run, forced tokens included, and a consumer that does not tell forced from sampled tokens: both loops give the same tokens, the stop token's column aside, if and only if the limit is positive, the run stays in the context window and every token is the greedy choice, or the limit is not positive and the first greedy token stops. |
| `Ordinary.AgreementIsGreedy` | inference/engine.go:261-270 | Where the two agree, for any consumer, every token is the greedy choice after those before it and the run fits the context window; the converse is part of `SameTokensIff`. |
| `Ordinary.ZeroLimitDiffers` | inference/engine.go:194-198 | A concrete request with limit zero: the ordinary loop yields a token and crashes, speculation yields nothing. |
| `Ordinary.FullWindowDiffers` | inference/engine.go:240-326 | A concrete request whose prompt fills the context window: the ordinary loop goes on, speculation yields nothing. |
| `Requests.AllSampled` | inference/engine.go:260-314 | If no tool answers a call that fits the limit and no budget can be spent within it, every column of every run is sampled. |
| `Requests.CallDiffers` | inference/engine.go:283-294 | Every writable call that a tool answers and that fits the limit parts the two loops for some choice of next tokens. |
| `Requests.BudgetDiffers` | inference/engine.go:300-313 | Every thinking budget that can be spent within the limit parts the two loops for some choice of next tokens. |
| `Requests.SameForAllIff` | inference/engine.go:194-326 | Told before the run: a request gives the same tokens for every choice of next tokens and every consumer if and only if its limit is positive, prompt and limit fit the context window, no tool answers a writable call of at most limit - 3 tokens, and a thinking budget cannot be spent before the limit. |
| `Requests.ToolCallDiffers` | inference/engine.go:283-294 | A concrete request within limit and window on which the two loops differ: a tool call whose output is forced. |
| `Generation.PrefillFrom` | model/kvcache.go:379-448 | The larger decode cache stands for the same tokens as the prefilled one, without compressed entries. |
| `Generation.DecodeCache` | inference/engine.go:193-209 | The decode cache holds the prompt and has room for exactly the limit's tokens behind it, none without a positive limit. |
| `Generation.OrdinaryGenerate` | inference/engine.go:112-326 | The whole loop for one greedy row over the layered cache: its columns and how it ends, crash included, are the run that the row protocol and greedy choice define. |
| `Syntax.PrintedTree` | inference/tooluse.go:174-255 | The minimal-parentheses printer loses nothing: what it writes denotes the tree it was given. |
| `Syntax.FewestParens` | inference/tooluse.go:231-255 | No other way to write the tree uses fewer parentheses. |
| `Arithmetic.NumberTaken` | inference/tooluse.go:257-273 | A number's text is exactly what the scanner takes. |
| `Arithmetic.NumberShape` | inference/tooluse.go:257-273 | The scanner takes digits, perhaps a point, and digits again, and nothing else. |
| `Calculator.CompleteExpr` | inference/tooluse.go:174-199 | Any written expression, with any spaces, followed by anything that cannot continue it, is read to its end with its exact left-associated value, or fails when a divisor is zero. |
| `Calculator.CompleteTerm` | inference/tooluse.go:201-229 | The same for products and quotients. |
| `Syntax.SumValue` | inference/tooluse.go:177-199 | Sums, differences and signs have the value of the operands' arithmetic. |
| `Syntax.ProductValue` | inference/tooluse.go:219-220 | A product has the product of its operands' values. |
| `Syntax.QuotientValue` | inference/tooluse.go:221-226 | A quotient has a value if and only if the divisor is not zero, and times the divisor it gives the dividend. |
| `Syntax.NoValueLaws` | inference/tooluse.go:177-226 | A part without a value leaves the whole without one. |
| `Syntax.PointValue` | inference/tooluse.go:274-291 | Digits, a point and digits are worth the whole part plus the fraction over its power of ten. |
| `Calculator.CompleteFactor` | inference/tooluse.go:231-255 | The same for numbers, negations and parentheses. |
| `Calculator.SoundExpr` | inference/tooluse.go:174-199 | Whatever prefix is accepted is a written expression with the value returned. |
| `Calculator.SoundTerm` | inference/tooluse.go:201-229 | The same for products and quotients. |
| `Calculator.SoundFactor` | inference/tooluse.go:231-255 | The same for factors. |
| `Calculator.ParseIff` | inference/tooluse.go:162-172 | A string evaluates to a value if and only if it is some written expression, trailing spaces allowed, with that value. |
| `Calculator.ParseWritten` | inference/tooluse.go:162-172 | A written expression is read whole: its value, or failure exactly when a divisor is zero. |
| `Calculator.ParsePrinted` | inference/tooluse.go:162-303 | Parsing the printed tree gives the tree's value, or failure exactly on a zero divisor, with any number of spaces before each token and behind the last. |
| `ArithParsers.NumberOf` | inference/tooluse.go:274-291 | The digit loop gives the number's exact decimal value. |
| `ArithParsers.ArithParser.SkipSpace` | inference/tooluse.go:294-298 | Drops exactly the leading spaces of what is left. |
| `ArithParsers.ArithParser.Number` | inference/tooluse.go:257-292 | Reads the number here and its value, or fails when there is no digit. |
| `ArithParsers.ArithParser.Factor` | inference/tooluse.go:231-255 | Succeeds exactly where the grammar has a factor, moves forward and leaves the rest. |
| `ArithParsers.ArithParser.Term` | inference/tooluse.go:201-229 | The same for a chain of products and quotients. |
| `ArithParsers.ArithParser.Expr` | inference/tooluse.go:174-199 | The same for a chain of sums and differences; terminates on the input left. |
| `ArithParsers.EvalArithmetic` | inference/tooluse.go:300-303 | The evaluator over its mutable position equals the parsing function on every string. |
| `ArithParsers.AcceptedIsTidy` | inference/tooluse.go:30-33 | Whatever the evaluator accepts passes both guards, so the guards refuse nothing that has a value. |
| `ArithParsers.IsArithmetic` | inference/tooluse.go:93-102 | True exactly for nonempty strings over the digits, the four operators, the point, parentheses and the space. |
| `ArithParsers.ContainsPower` | inference/tooluse.go:31-33 | True exactly when two stars are adjacent. |
| `ArithParsers.Call` | inference/tooluse.go:27-38 | For every input an arithmetic value is returned exactly when the text without its commas has one. |
| `ArithParsers.CommaDropped` | inference/tooluse.go:28 | A comma makes no difference wherever it stands; the other characters stay in order. |
| `Snappy.LowRoundTrip` | data/parquet/snappy.go:133-135 | Little-endian fields of any width give their number back. |
| `Snappy.ElementRead` | data/parquet/snappy.go:26-108 | Every legal literal or copy, in every tag form of sections 2.1 and 2.2 of Google's snappy format_description.txt, is read back from the front of any input. |
| `Snappy.ElementWritten` | data/parquet/snappy.go:26-108 | Whatever is read off the front is the serialisation of a legal element. |
| `SnappyDecoder.VarintUnique` | data/parquet/snappy.go:116-131 | No input has two varint prefixes. |
| `SnappyDecoder.CopyBytes` | data/parquet/snappy.go:76-78 | The byte loop repeats the last offset bytes, self-overlap included. |
| `SnappyDecoder.LiteralLength` | data/parquet/snappy.go:31-59 | The literal length of each tag form, and failure exactly when its bytes are missing. |
| `SnappyDecoder.DecodeElement` | data/parquet/snappy.go:26-108 | One turn of the loop consumes one element, or fails exactly when decoding cannot go on. |
| `SnappyDecoder.DecodeComplete` | data/parquet/snappy.go:26-109 | Every serialised list of legal elements decodes to its meaning, or fails exactly where an offset points outside the output. |
| `SnappyDecoder.DecodeSound` | data/parquet/snappy.go:26-109 | Whatever decodes is such a serialised list with that meaning. |
| `SnappyDecoder.MeaningIs` | data/parquet/snappy.go:40-109 | Elements have a meaning if and only if no copy reaches back behind the start; then each literal stands where the elements before it end, and each byte of a copy equals the byte its offset before it. |
| `SnappyExample.SampleBlock` | data/parquet/snappy.go:26-109 | A block with every form of element and the bytes it stands for. |
| `SnappyDecoder.Uvarint` | data/parquet/snappy.go:116-131 | Accepts exactly a prefix that is a 64-bit varint (section 1 of the format), with its value, which never leaves 64 bits. |
| `SnappyDecoder.SnappyDecode` | data/parquet/snappy.go:17-114 | Returns bytes if and only if the input is a preamble and a serialised list that stands for exactly those bytes, as many as the preamble says and as can be allocated; panics if and only if the preamble announces more than can be allocated. |
| `Recency.RemoveFirst` | bank/bank.go:268-273 | The removal loop drops the first occurrence and keeps the order of the rest. |
| `Recency.RankedByLastUse` | bank/bank.go:226-235 | Moving each used id to the end keeps the list in order of last use. |
| `Recency.TouchSuffix` | bank/bank.go:226-235 | A held list that is the recent part of the history's ranking stays so when an id is used. |
| `Banks.Bank.TouchLocked` | bank/bank.go:227-235 | Moves the id to the recent end and keeps the order of the others. |
| `Banks.Bank.RemoveLocked` | bank/bank.go:261-274 | Removes an entry from map, order and byte count together; an unknown id changes nothing. |
| `Banks.Bank.Victim` | bank/bank.go:246-255 | The oldest id other than the one to keep, the empty string exactly when there is none. |
| `Banks.Bank.EvictLocked` | bank/bank.go:239-258 | Keeps the longest recent end of the order that meets both budgets, or the kept id alone, and changes no surviving entry. |
| `Banks.Bank.Hit` | bank/bank.go:158-162 | A resident model gets the new clock and the recent end; the invariant holds. |
| `Banks.Bank.Load` | bank/bank.go:177-187 | A loaded model joins at the recent end and the budgets are restored; the invariant holds. |
| `Banks.Bank.Acquire` | bank/bank.go:153-188 | Hit, unknown domain, failed load and success each leave exactly the stated map, order and history; every call keeps: same ids in map and order, no duplicates, bytes the sum of sizes, clocks strictly increasing along the order, order a suffix of the recency ranking, budgets met or one model alone. |
| `Banks.MostRecent` | bank/bank.go:239-258 | With only a count budget the bank holds, after any run, exactly the most recently used distinct ids. |
| `PrefixCaches.CacheManager.RemoveEntryLocked` | inference/cache.go:202-214 | Removes one key from map, order and byte count together. |
| `PrefixCaches.CacheManager.EvictOldestLocked` | inference/cache.go:227-233 | Drops exactly the oldest entry. |
| `PrefixCaches.CacheManager.ExpiredKeys` | inference/cache.go:240-245 | Finds exactly the entries stored longer ago than the time to live, in whatever order the map is walked. |
| `PrefixCaches.CacheManager.ExpireLocked` | inference/cache.go:236-251 | Keeps exactly the live entries and their order. |
| `PrefixCaches.CacheManager.Longest` | inference/cache.go:85-105 | Finds the longest stored strict prefix, in whatever order the map is walked. |
| `PrefixCaches.CacheManager.Lookup` | inference/cache.go:79-118 | Returns the state last stored for the longest live strict prefix and marks it most recent; misses exactly when there is none. What it returns was stored within the time to live, and every longer entry was stored before. |
| `PrefixCaches.LongestUnique` | inference/cache.go:87-102 | The longest match is unique, so map iteration order cannot show. |
| `PrefixCaches.CacheManager.EvictLocked` | inference/cache.go:218-225 | Keeps exactly as many of the most recent entries as both limits allow. |
| `PrefixCaches.CacheManager.Store` | inference/cache.go:122-159 | Replaces or adds the entry at the recent end and evicts to the limits; a missing state changes nothing; map, order and bytes agree after every call. |
| `PrefixCaches.CacheManager.Invalidate` | inference/cache.go:162-173 | Empties the manager and keeps its invariant. |
| `PrefixCaches.ExpireLimits` | inference/cache.go:236-251 | Expiry cannot break a limit. |
| `Dispatch.PlaceOrder` | model/moe.go:128-153 | Places are ordered by expert and then by pair, so no two pairs share one. |
| `Dispatch.PlaceTaken` | model/moe.go:128-153 | Every place below the number of pairs is taken: the map is a bijection. |
| `Dispatch.OrderSorted` | model/moe.go:128-153 | The gathered order is a permutation of the pairs, ascending by expert and stable within an expert. |
| `Dispatch.TokenCounts` | model/moe.go:129-132 | Counts the pairs of every expert. |
| `Dispatch.Offsets` | model/moe.go:133-138 | Each offset is the number of pairs of smaller experts. |
| `Dispatch.PlacePair` | model/moe.go:145-151 | Puts one pair at its place without disturbing those placed before. |
| `Dispatch.Gather` | model/moe.go:139-153 | Every pair's row and weight end up at its place. |
| `Dispatch.GroupedExperts` | model/moe.go:155-159 | The contract of the grouped products: each place holds its expert's output on its row. |
| `Dispatch.Combine` | model/moe.go:161-169 | The scatter adds to each row exactly the shares of its own pairs. |
| `Dispatch.SumPermuted` | model/moe.go:161-169 | A sum does not depend on the order its terms are added in. |
| `Dispatch.RowOnly` | model/moe.go:161-169 | Over all pairs a row receives just the shares of its own slots. |
| `Dispatch.Forward` | model/moe.go:118-173 | Every channel of every row is the scaled, weighted sum over exactly that row's own selected experts. |
| `Dispatch.NaiveIs` | model/moe.go:118-173 | A row's mixture is the sum over its slots of weight times scale times the selected expert's output on that row. |
| `Packing.Choose` | data/dataloader.go:106-129 | The first longest document that fits, and when none fits the first shortest of all. |
| `Packing.DocumentStands` | data/dataloader.go:104-137 | Each chosen document stands behind the room taken before it, from its first token on, as far as there was room, under its own segment number. |
| `Packing.CroppedLast` | data/dataloader.go:113-139 | Only a row's last document is ever cropped, only when no buffered document fits, and it is a shortest one. |
| `Packing.RoomLeft` | data/dataloader.go:104 | The room offered to each choice is the row capacity less what the row holds. |
| `Packing.ShiftedByOne` | data/dataloader.go:142-143 | A row's targets are its inputs one place further on, and the first input is BOS. |
| `Packing.SegmentStarts` | data/dataloader.go:97-141 | The row and every segment in it begin with BOS. |
| `Packing.PretrainLoader.PullBatch` | data/dataloader.go:52-60 | Appends one batch, every document behind BOS; the batch may be empty. |
| `Packing.PretrainLoader.Refill` | data/dataloader.go:49-62 | Fills the buffer to its size, keeps what was there and loses nothing. |
| `Packing.PretrainLoader.Place` | data/dataloader.go:116-121 | Writes a document and its segment id at the position and leaves what is before it. |
| `Packing.PretrainLoader.TakeOne` | data/dataloader.go:101-139 | Takes the best choice out of the refilled buffer, cropped to the room only if it must be. |
| `Packing.PretrainLoader.FillRow` | data/dataloader.go:97-141 | The scratch row is exactly the concatenation of distinct chosen documents with segment ids counting them. |
| `Packing.PretrainLoader.Next` | data/dataloader.go:88-149 | Every row of the batch is a full row with targets shifted by one; over any run documents supplied are documents consumed plus documents buffered. |

## Left out

- Numerics: activations, scores and logits are exact reals; float rounding, NaN and infinities are not modelled, nor are the SIMD and scalar kernels (their contracts are used) and goroutine pools.
- Calculator values: exact reals stand for 64-bit floats, and a value's formatting (inference/tooluse.go:305-310) and the string-counting expressions (inference/tooluse.go:104-154) are not modelled.
- Library contracts: the heap library and the stable sort are modelled by what they guarantee, not by their code; Unicode tables are parameters.
- Batches and heads: the cached forward is modelled for one batch row, with the per-head key and value buffers of a position kept as one record; a layer's attention over its visible entries and window is an arbitrary function of them.
- ChunkedForward.FeedChunks: does not model the encoder's separate prefill, bounded replay of stripped snapshots, latent attention or the cached indexer keys of reindex layers (what a layer publishes is a function of its input, its visible entries and what its group published before; that selections depend on nothing else is `SelectionCausal`).
- Generation.PrefillFrom: models one source row and one destination row without compressed entries, as the only case that speculation shares; replicating compressed state over several rows is left out.
- Generation.OrdinaryGenerate: models one row at temperature zero on a network without compressed entries and without a stored prefix; several rows and arbitrary samples are `GenerateRows`, stored prefixes `Lookup`.
- Patterns.ScannerIsPatternIff: takes letters, numbers and whitespace to be the same classes for scanner and pattern, so a difference between Unicode versions is not seen; case folding is the pattern's own.
- Requests.SameForAllIff: ranges over every way to choose the next token after a sequence, of which networks are instances (a vocabulary that cannot write some call is not considered), and assumes distinct special ids and tool results without them, which `TrainedTokenizer` proves of `Encode`.
- Compressors.Forward: is stated without document segments, because inference always passes none; the training masks are left out.
- Networks.OutputsPrefix: covers inference layers without segment masks; training-only paths and backpropagation are left out.
- BlockSelection.HierarchicalExact: claims scores, not entries, when the pool is larger than 1 and scores tie, because candidates are listed by group rank and ties need not go to the smaller entry.
- BlockSelector.IndexerBlockMax: keeps each row's maxima as an array of its own instead of one flat buffer, with the rows required not to overlap.
- Speculative.SpeculativeGenerate: assumes a prompt within the context window (a longer one panics) and a network without compressed entries, which the source demands of this path; a drafter is a function of the context and the count; sampling above temperature zero never takes this path.
- Tokenizers.Tokenizer.constructor: requires ranks below the vocabulary size; the source indexes out of range otherwise.
- KvDecode.UnmarshalKVBuffer: says nothing about bytes that are not a prefix of some serialisation; on such garbage the source may index out of range or ask for a tensor with a zero dimension (a crash outcome here) or allocate what the header asks for (not modelled).
- RowProtocol.GenerateRows: bounds by a parameter how many columns the consumer accepts, for every value of it, since without a limit the loop need not end; sampled tokens are arbitrary, so the model's forward and the sampler are not part of it.
- RowProtocol.ToolCallAnswered: assumes that special ids are distinct and that no tool's encoded result contains one, which `TrainedTokenizer` proves of `Encode`.
- Banks.Bank.Acquire: models loading as a parameter, requires nonempty ids as the manifest loader does, and leaves out the mutex and `AcquireMany`.
- PrefixCaches.CacheManager.Store: models the in-memory tier; the disk tier is left out, token sequences stand for their hashes (no collisions), stripping and cloning are one function of the state, and time is a parameter.
- Packing.PretrainLoader.Next: requires that some later batch always holds a document, without which the source loops forever; tokenization is done before the provider's documents enter the model, and the dataset position is left out.
- Dispatch.Forward: takes the gate's selection and weights as given and leaves out load counts, balance loss and the backward pass.
- SnappyDecoder.SnappyDecode: takes how much can be allocated as a parameter and puts no limit on output that grows past the announced length.
- Parquet metadata and encodings, the chat-data loader, checkpoints, the HTTP server, command-line tools, downloads, Python execution, optimizers and schedules are outside the model.
