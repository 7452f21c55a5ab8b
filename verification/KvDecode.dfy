/** Reading a snapshot back. The ghost parameters name what the input was written from; nothing
    the program computes depends on them. */
module KvDecode {
  import opened Bytes
  import opened Division
  import opened KvFormat
  import opened KvLayers
  import opened KvLists
  import opened KvWire
  import opened Wrappers

  lemma ScaledInRange(x: int, limit: nat, width: nat)
    requires 0 <= x <= limit
    ensures 0 <= x * width <= limit * width
  {
    assert (limit - x) * width >= 0;
  }

  lemma RepeatInRange(n: nat, x: nat, limit: nat, width: nat)
    requires x <= limit
    ensures InRange(Repeat(n, x * width), limit * width)
  {
    ScaledInRange(x, limit, width);
  }

  // ---------- header and counters ----------

  method ReadHeader(reader: KvReader, ghost header: seq<Word>, ghost rest: seq<Word>, ghost cut: bool)
      returns (fields: seq<Word>)
    requires reader.Valid()
    modifies reader
    ensures reader.Valid() && |fields| == 14
    ensures old(reader.Expects(header + rest, cut)) && |header| == 14 ==>
              reader.Expects(rest, cut) && (!reader.failed ==> fields == header)
  {
    hide KvReader.Expects;
    ghost var follows := reader.Expects(header + rest, cut) && |header| == 14;
    fields := [];
    assert header[0..] == header;
    for i := 0 to 14
      invariant reader.Valid() && |fields| == i
      invariant follows ==> reader.Expects(header[i..] + rest, cut)
      invariant follows && !reader.failed ==> fields == header[..i]
    {
      ghost var word := if follows then header[i] else 0;
      ghost var after := if follows then header[i + 1..] + rest else [];
      assert follows ==> header[i..] + rest == [word] + after;
      var value := reader.U32(word, after, cut);
      fields := fields + [value];
    }
    assert follows ==> header[14..] + rest == rest && header[..14] == header;
  }

  ghost predicate Within(counters: seq<int>, limit: nat) {
    forall b | 0 <= b < |counters| :: 0 <= counters[b] <= limit
  }

  lemma WithinPush(counters: seq<int>, limit: nat, x: int)
    requires Within(counters, limit) && 0 <= x <= limit
    ensures Within(counters + [x], limit)
  {
  }

  lemma CounterUnfold(tailLength: seq<int>, compressedCount: seq<int>, b: nat, rest: seq<Word>)
    ensures b < |tailLength| && b < |compressedCount| ==>
              CounterWords(tailLength, compressedCount, b) + rest
              == [ToWord(tailLength[b])] + ([ToWord(compressedCount[b])] + (CounterWords(tailLength, compressedCount, b + 1) + rest))
    ensures b >= |tailLength| ==> CounterWords(tailLength, compressedCount, b) + rest == rest
  {
  }

  /** Every row's two counters. Words past an error read as 0, which is always in range. */
  method ReadCounters(
      reader: KvReader, rows: nat, ghost tailLength: seq<int>, ghost compressedCount: seq<int>,
      ghost tailLimit: nat, ghost countLimit: nat, ghost rest: seq<Word>, ghost cut: bool)
      returns (first: seq<int>, second: seq<int>)
    requires reader.Valid()
    modifies reader
    ensures reader.Valid() && |first| == |second| == rows && (old(reader.failed) ==> reader.failed)
    ensures old(reader.Expects(CounterWords(tailLength, compressedCount, 0) + rest, cut))
            && (old(reader.failed)
                || (CountersFit(tailLength, rows, tailLimit) && CountersFit(compressedCount, rows, countLimit)))
            ==> && reader.Expects(rest, cut)
                && Within(first, tailLimit) && Within(second, countLimit)
                && (!reader.failed ==> first == tailLength && second == compressedCount)
  {
    hide KvReader.Expects, CounterWords, Within;
    ghost var follows := reader.Expects(CounterWords(tailLength, compressedCount, 0) + rest, cut)
                         && (reader.failed
                             || (CountersFit(tailLength, rows, tailLimit) && CountersFit(compressedCount, rows, countLimit)));
    first, second := [], [];
    WithinNone(tailLimit);
    WithinNone(countLimit);
    for b := 0 to rows
      invariant reader.Valid() && |first| == |second| == b && (old(reader.failed) ==> reader.failed)
      invariant follows ==> reader.Expects(CounterWords(tailLength, compressedCount, b) + rest, cut)
      invariant follows ==> Within(first, tailLimit) && Within(second, countLimit)
      invariant follows && !reader.failed ==>
                  forall j | 0 <= j < b :: first[j] == tailLength[j] && second[j] == compressedCount[j]
    {
      ghost var a := if b < |tailLength| then ToWord(tailLength[b]) else 0;
      ghost var c := if b < |compressedCount| then ToWord(compressedCount[b]) else 0;
      ghost var after := CounterWords(tailLength, compressedCount, b + 1) + rest;
      CounterUnfold(tailLength, compressedCount, b, rest);
      if reader.failed {
        FailedAgain(reader, cut);
      }
      var x := reader.U32(a, [c] + after, cut);
      var y := reader.U32(c, after, cut);
      if follows {
        WithinPush(first, tailLimit, ToI32(x));
        WithinPush(second, countLimit, ToI32(y));
      }
      first, second := first + [ToI32(x)], second + [ToI32(y)];
    }
    CounterUnfold(tailLength, compressedCount, rows, rest);
    if reader.failed {
      FailedAgain(reader, cut);
    }
  }

  lemma WithinNone(limit: nat)
    ensures Within([], limit)
  {
  }

  lemma PerHeadInRange(counters: seq<int>, g: Geometry, width: nat, limit: nat)
    requires g.heads > 0 && Within(counters, limit)
    ensures InRange(PerHead(counters, g, width), limit * width)
  {
    forall i | 0 <= i < Slots(g) ensures 0 <= PerHead(counters, g, width)[i] <= limit * width {
      var counter := if i / g.heads < |counters| then counters[i / g.heads] else 0;
      ScaledInRange(counter, limit, width);
    }
  }

  lemma PerBatchInRange(counters: seq<int>, width: nat, limit: nat)
    requires Within(counters, limit)
    ensures InRange(PerBatch(counters, width), limit * width)
  {
    forall b | 0 <= b < |counters| ensures 0 <= PerBatch(counters, width)[b] <= limit * width {
      ScaledInRange(counters[b], limit, width);
    }
  }

  // ---------- one layer ----------

  method ReadTail(
      reader: KvReader, g: Geometry, present: bool, tailLength: seq<int>,
      ghost layer: LayerState, ghost rest: seq<Word>, ghost cut: bool)
      returns (tail: Option<Tail>, crashed: bool)
    requires reader.Valid() && g.heads > 0
    modifies reader
    ensures reader.Valid() && (old(reader.failed) ==> reader.failed)
    ensures Within(tailLength, g.ratio) ==> !crashed
    ensures old(reader.Expects(TailWords(g, layer) + rest, cut)) && !crashed
            && (old(reader.failed)
                || (present == layer.tail.Some? && tailLength == layer.tailLength && TailOk(g, layer)))
            ==> reader.Expects(rest, cut)
                && (!reader.failed ==> TailOk(g, layer) && tail == NormalTail(g, layer))
  {
    hide KvReader.Expects, ListWords, PairWords, InRange, Within, Matches;
    tail, crashed := None, false;
    ghost var follows := reader.Expects(TailWords(g, layer) + rest, cut)
                         && (reader.failed
                             || (present == layer.tail.Some? && tailLength == layer.tailLength && TailOk(g, layer)));
    if !present {
      if reader.failed {
        FailedAgain(reader, cut);
      } else if follows {
        assert TailWords(g, layer) + rest == rest;
      }
      return;
    }
    var batchCounts, counts := PerBatch(tailLength, g.embeddingDimension), PerHead(tailLength, g, g.headDimension);
    if Within(tailLength, g.ratio) {
      PerBatchInRange(tailLength, g.embeddingDimension, g.ratio);
      PerHeadInRange(tailLength, g, g.headDimension, g.ratio);
    }
    ghost var known := if layer.tail.Some? then layer.tail.value else Tail([], [], []);
    ghost var pairs := PairWords(known.keys, known.values, counts, counts, 0);
    if reader.failed {
      FailedAgain(reader, cut);
    } else if follows {
      assert TailWords(g, layer) + rest == ListWords(known.hidden, batchCounts, 0) + (pairs + rest);
    }
    var hidden, keys, values;
    hidden, crashed := ReadList(reader, batchCounts, g.ratio * g.embeddingDimension, known.hidden, pairs + rest, cut);
    if crashed {
      return;
    }
    keys, values, crashed := ReadPairs(reader, counts, g.ratio * g.headDimension, counts, g.ratio * g.headDimension,
                                       known.keys, known.values, rest, cut);
    if crashed {
      return;
    }
    tail := Some(Tail(hidden, keys, values));
  }

  method ReadEntries(
      reader: KvReader, g: Geometry, present: bool, compressedCount: seq<int>,
      ghost layer: LayerState, ghost rest: seq<Word>, ghost cut: bool)
      returns (entries: Option<Entries>, crashed: bool)
    requires reader.Valid() && g.heads > 0
    modifies reader
    ensures reader.Valid() && (old(reader.failed) ==> reader.failed)
    ensures Within(compressedCount, g.maxBlocks) && (present ==> g.maxBlocks > 0) ==> !crashed
    ensures present && g.maxBlocks == 0 ==> crashed
    ensures old(reader.Expects(EntryWords(g, layer) + rest, cut)) && !crashed
            && (old(reader.failed)
                || (present == layer.entries.Some? && compressedCount == layer.compressedCount && EntriesOk(g, layer)))
            ==> reader.Expects(rest, cut)
                && (!reader.failed ==> EntriesOk(g, layer) && entries == NormalEntries(g, layer))
  {
    hide KvReader.Expects, PairWords, InRange, Within, Matches;
    entries, crashed := None, false;
    ghost var follows := reader.Expects(EntryWords(g, layer) + rest, cut)
                         && (reader.failed
                             || (present == layer.entries.Some? && compressedCount == layer.compressedCount
                                 && EntriesOk(g, layer)));
    if !present {
      if reader.failed {
        FailedAgain(reader, cut);
      } else if follows {
        assert EntryWords(g, layer) + rest == rest;
      }
      return;
    }
    if g.maxBlocks == 0 {
      return None, true;
    }
    var counts := PerHead(compressedCount, g, g.headDimension);
    if Within(compressedCount, g.maxBlocks) {
      PerHeadInRange(compressedCount, g, g.headDimension, g.maxBlocks);
    }
    ghost var known := if layer.entries.Some? then layer.entries.value else Entries([], []);
    if reader.failed {
      FailedAgain(reader, cut);
    }
    var keys, values;
    keys, values, crashed := ReadPairs(reader, counts, g.maxBlocks * g.headDimension, counts, g.maxBlocks * g.headDimension,
                                       known.keys, known.values, rest, cut);
    if !crashed {
      entries := Some(Entries(keys, values));
    }
  }

  method ReadIndexer(
      reader: KvReader, g: Geometry, present: bool, compressedCount: seq<int>,
      ghost layer: LayerState, ghost rest: seq<Word>, ghost cut: bool)
      returns (indexer: Option<seq<Floats>>, crashed: bool)
    requires reader.Valid() && g.heads > 0
    modifies reader
    ensures reader.Valid() && (old(reader.failed) ==> reader.failed)
    ensures Within(compressedCount, g.maxBlocks) && (present ==> g.maxBlocks > 0 && g.indexerWidth > 0) ==> !crashed
    ensures present && (g.maxBlocks == 0 || g.indexerWidth == 0) ==> crashed
    ensures old(reader.Expects(IndexerWords(g, layer) + rest, cut)) && !crashed
            && (old(reader.failed)
                || (present == layer.indexer.Some? && compressedCount == layer.compressedCount && IndexerOk(g, layer)))
            ==> reader.Expects(rest, cut)
                && (!reader.failed ==> IndexerOk(g, layer) && indexer == NormalIndexer(g, layer))
  {
    hide KvReader.Expects, ListWords, InRange, Within, Matches;
    indexer, crashed := None, false;
    ghost var follows := reader.Expects(IndexerWords(g, layer) + rest, cut)
                         && (reader.failed
                             || (present == layer.indexer.Some? && compressedCount == layer.compressedCount
                                 && IndexerOk(g, layer)));
    if !present {
      if reader.failed {
        FailedAgain(reader, cut);
      } else if follows {
        assert IndexerWords(g, layer) + rest == rest;
      }
      return;
    }
    if g.maxBlocks == 0 || g.indexerWidth == 0 {
      return None, true;
    }
    var counts := PerHead(compressedCount, g, g.indexerWidth);
    if Within(compressedCount, g.maxBlocks) {
      PerHeadInRange(compressedCount, g, g.indexerWidth, g.maxBlocks);
    }
    ghost var known := if layer.indexer.Some? then layer.indexer.value else [];
    if reader.failed {
      FailedAgain(reader, cut);
    }
    var keys;
    keys, crashed := ReadList(reader, counts, g.maxBlocks * g.indexerWidth, known, rest, cut);
    if !crashed {
      indexer := Some(keys);
    }
  }

  ghost predicate LayerFollows(
      g: Geometry, hasIndexer: bool, failed: bool, layer: LayerState)
    requires g.heads > 0
  {
    failed || LayerFits(g, hasIndexer, layer)
  }

  lemma LayerSplit(g: Geometry, layer: LayerState, rest: seq<Word>)
    requires g.heads > 0
    ensures LayerWords(g, layer) + rest
            == [LayerFlagWord(LayerFlagsOf(layer))]
               + (CounterWords(layer.tailLength, layer.compressedCount, 0)
                  + (TailWords(g, layer) + (EntryWords(g, layer) + (IndexerWords(g, layer) + rest))))
  {
    hide CounterWords, TailWords, EntryWords, IndexerWords;
  }

  /** A tier's buffers are not empty. */
  lemma TiersHaveBlocks(g: Geometry, hasIndexer: bool, layer: LayerState)
    requires g.heads > 0 && LayerFits(g, hasIndexer, layer)
    ensures layer.entries.Some? ==> g.maxBlocks > 0
    ensures layer.indexer.Some? ==> g.maxBlocks > 0 && g.indexerWidth > 0
  {
  }

  /** One layer: its flags, its counters, then the tiers the flags name. */
  method ReadLayer(
      reader: KvReader, g: Geometry, hasIndexer: bool, ghost layer: LayerState, ghost rest: seq<Word>, ghost cut: bool)
      returns (state: LayerState, crashed: bool)
    requires reader.Valid() && g.heads > 0
    modifies reader
    ensures reader.Valid() && (old(reader.failed) ==> reader.failed)
    ensures old(reader.Expects(LayerWords(g, layer) + rest, cut)) && LayerFollows(g, hasIndexer, old(reader.failed), layer)
            ==> && !crashed && reader.Expects(rest, cut)
                && (!reader.failed ==> LayerFits(g, hasIndexer, layer) && state == NormalLayer(g, hasIndexer, layer))
  {
    hide KvReader.Expects, CounterWords, TailWords, EntryWords, IndexerWords, LayerWords, Within, CountersFit,
         TailOk, EntriesOk, IndexerOk;
    ghost var follows := reader.Expects(LayerWords(g, layer) + rest, cut)
                         && LayerFollows(g, hasIndexer, reader.failed, layer);
    ghost var fromIndexer := IndexerWords(g, layer) + rest;
    ghost var fromEntries := EntryWords(g, layer) + fromIndexer;
    ghost var fromTail := TailWords(g, layer) + fromEntries;
    LayerSplit(g, layer, rest);
    LayerFlagsRoundTrip(LayerFlagsOf(layer));
    state := LayerState([], [], None, None, None);
    var word := reader.U32(LayerFlagWord(LayerFlagsOf(layer)),
                           CounterWords(layer.tailLength, layer.compressedCount, 0) + fromTail, cut);
    var flags := WordLayerFlags(word);
    if follows && !reader.failed {
      TiersHaveBlocks(g, hasIndexer, layer);
    }
    var tailLength, compressedCount := ReadCounters(reader, g.batchSize, layer.tailLength, layer.compressedCount,
                                                    g.ratio, g.maxBlocks, fromTail, cut);
    var tail, entries, indexer;
    tail, crashed := ReadTail(reader, g, flags.tail, tailLength, layer, fromEntries, cut);
    if crashed {
      return;
    }
    entries, crashed := ReadEntries(reader, g, flags.entries, compressedCount, layer, fromIndexer, cut);
    if crashed {
      return;
    }
    if flags.indexer && !hasIndexer {
      return state, true;
    }
    indexer, crashed := ReadIndexer(reader, g, flags.indexer, compressedCount, layer, rest, cut);
    if crashed {
      return;
    }
    state := LayerState(tailLength, compressedCount, tail, entries, indexer);
  }

  ghost predicate AllFit(g: Geometry, hasIndexer: bool, layers: seq<LayerState>)
    requires g.heads > 0
  {
    |layers| == g.layerCount && forall l | 0 <= l < |layers| :: LayerFits(g, hasIndexer, layers[l])
  }

  ghost predicate NormalSoFar(g: Geometry, hasIndexer: bool, layers: seq<LayerState>, read: seq<LayerState>)
    requires g.heads > 0 && AllFit(g, hasIndexer, layers)
  {
    && |read| <= |layers|
    && forall l | 0 <= l < |read| :: read[l] == NormalLayer(g, hasIndexer, layers[l])
  }

  lemma NormalPush(g: Geometry, hasIndexer: bool, layers: seq<LayerState>, read: seq<LayerState>, more: LayerState)
    requires g.heads > 0 && AllFit(g, hasIndexer, layers) && NormalSoFar(g, hasIndexer, layers, read)
    requires |read| < |layers| && more == NormalLayer(g, hasIndexer, layers[|read|])
    ensures NormalSoFar(g, hasIndexer, layers, read + [more])
  {
    hide LayerFits;
  }

  lemma LayersUnfold(g: Geometry, layers: seq<LayerState>, l: nat, rest: seq<Word>)
    requires g.heads > 0
    ensures l < |layers| ==> LayersWords(g, layers, l) + rest
                             == LayerWords(g, layers[l]) + (LayersWords(g, layers, l + 1) + rest)
    ensures l >= |layers| ==> LayersWords(g, layers, l) + rest == rest
  {
    hide LayerWords;
  }

  method ReadLayers(
      reader: KvReader, g: Geometry, hasIndexer: bool, ghost layers: seq<LayerState>, ghost rest: seq<Word>,
      ghost cut: bool)
      returns (read: seq<LayerState>, crashed: bool)
    requires reader.Valid() && g.heads > 0
    modifies reader
    ensures reader.Valid() && (old(reader.failed) ==> reader.failed)
    ensures old(reader.Expects(LayersWords(g, layers, 0) + rest, cut))
            && (old(reader.failed) || AllFit(g, hasIndexer, layers))
            ==> && !crashed && reader.Expects(rest, cut)
                && (!reader.failed ==> AllFit(g, hasIndexer, layers) && read == NormalLayers(g, hasIndexer, layers))
  {
    hide KvReader.Expects, LayersWords, LayerWords, LayerFits;
    ghost var follows := reader.Expects(LayersWords(g, layers, 0) + rest, cut)
                         && (reader.failed || AllFit(g, hasIndexer, layers));
    read, crashed := [], false;
    for l := 0 to g.layerCount
      invariant reader.Valid() && |read| == l && (old(reader.failed) ==> reader.failed)
      invariant follows ==> reader.Expects(LayersWords(g, layers, l) + rest, cut)
      invariant follows && !reader.failed ==>
                  AllFit(g, hasIndexer, layers) && NormalSoFar(g, hasIndexer, layers, read)
    {
      ghost var layer := if l < |layers| then layers[l] else LayerState([], [], None, None, None);
      ghost var after := LayersWords(g, layers, l + 1) + rest;
      LayersUnfold(g, layers, l, rest);
      if reader.failed {
        FailedAgain(reader, cut);
      }
      var state;
      state, crashed := ReadLayer(reader, g, hasIndexer, layer, after, cut);
      if crashed {
        return;
      }
      if follows && !reader.failed {
        NormalPush(g, hasIndexer, layers, read, state);
      }
      read := read + [state];
    }
    LayersUnfold(g, layers, g.layerCount, rest);
    if reader.failed {
      FailedAgain(reader, cut);
    }
  }

  // ---------- the parts of the file ----------

  /** The raw rows, or the zeroed buffers of a stripped snapshot. */
  method ReadRaw(
      reader: KvReader, g: Geometry, stripped: bool,
      ghost c: Snapshot, ghost rest: seq<Word>, ghost cut: bool)
      returns (keys: seq<seq<Floats>>, values: seq<seq<Floats>>)
    requires reader.Valid() && g.sequenceLength <= g.maximumSequenceLength
    modifies reader
    ensures reader.Valid() && (old(reader.failed) ==> reader.failed)
    ensures old(reader.Expects(RawPart(c) + rest, cut)) && WellFormed(c) && c.geometry == g && c.stripped == stripped
            ==> && reader.Expects(rest, cut)
                && (!reader.failed ==> keys == Normal(c).keys && values == Normal(c).values)
  {
    hide KvReader.Expects, LayeredWords, InRange, LayerFits, LatentsFit, NormalLayers, NormalLatents, PairsFit,
         TrimmedSoFar, TrimLayers;
    ghost var follows := reader.Expects(RawPart(c) + rest, cut) && WellFormed(c) && c.geometry == g
                         && c.stripped == stripped;
    if stripped {
      assert follows ==> RawPart(c) + rest == rest;
      var zeros := seq(Slots(g), i => Zeros(RawCapacity(g)));
      keys := seq(g.layerCount, l => zeros);
      values := keys;
      if follows {
        StrippedIsZero(c, c.keys, zeros);
        StrippedIsZero(c, c.values, zeros);
      }
    } else {
      var counts := RawCounts(g);
      RepeatInRange(Slots(g), g.sequenceLength, g.maximumSequenceLength, g.headDimension);
      assert follows ==> RawPart(c) == LayeredWords(c.keys, c.values, counts, counts, 0);
      keys, values := ReadLayered(reader, g.layerCount, counts, RawCapacity(g), counts, RawCapacity(g),
                                  c.keys, c.values, rest, cut);
      if follows && !reader.failed {
        PairsFitLength(c.keys, c.values, counts, counts, RawCapacity(g), RawCapacity(g), g.layerCount);
        TrimmedWhole(keys, c.keys, counts);
        TrimmedWhole(values, c.values, counts);
      }
    }
  }

  lemma StrippedIsZero(c: Snapshot, buffers: seq<seq<Floats>>, zeros: seq<Floats>)
    requires WellFormed(c) && c.stripped && (buffers == c.keys || buffers == c.values)
    requires zeros == seq(Slots(c.geometry), i => Zeros(RawCapacity(c.geometry)))
    ensures forall l | 0 <= l < |buffers| :: |buffers[l]| == Slots(c.geometry)
    ensures TrimLayers(buffers, KeptCounts(c.geometry, true)) == seq(c.geometry.layerCount, l => zeros)
  {
    hide LayerFits, LatentsFit;
    var g, counts := c.geometry, KeptCounts(c.geometry, true);
    RowsPerLayer(c);
    forall l | 0 <= l < |buffers| ensures TrimAll(buffers[l], counts) == zeros {
      assert Matches(buffers[l], RawCounts(g), RawCapacity(g));
      forall i | 0 <= i < Slots(g) ensures Trim(buffers[l][i], 0) == Zeros(RawCapacity(g)) {
      }
    }
  }

  method ReadLatents(
      reader: KvReader, g: Geometry, present: bool, ghost mla: Option<Latents>, ghost rest: seq<Word>, ghost cut: bool)
      returns (read: Option<Latents>, crashed: bool)
    requires reader.Valid() && g.sequenceLength <= g.maximumSequenceLength
    modifies reader
    ensures reader.Valid() && (old(reader.failed) ==> reader.failed)
    ensures crashed <==> present && (g.latentWidth == 0 || g.ropeWidth == 0)
    ensures old(reader.Expects(LatentPart(g, mla) + rest, cut))
            && present == mla.Some? && (present ==> LatentsFit(g, mla.value))
            ==> && !crashed && reader.Expects(rest, cut)
                && (!reader.failed ==> read == if present then Some(NormalLatents(g, mla.value)) else None)
  {
    hide KvReader.Expects, LayeredWords, InRange, PairsFit, TrimmedSoFar, TrimLayers;
    ghost var follows := reader.Expects(LatentPart(g, mla) + rest, cut)
                         && present == mla.Some? && (present ==> LatentsFit(g, mla.value));
    read, crashed := None, false;
    if !present {
      if follows {
        assert LatentPart(g, mla) + rest == rest;
      }
      return;
    }
    if g.latentWidth == 0 || g.ropeWidth == 0 {
      return None, true;
    }
    var latentCounts, ropeCounts := LatentCounts(g, g.latentWidth), LatentCounts(g, g.ropeWidth);
    RepeatInRange(g.batchSize, g.sequenceLength, g.maximumSequenceLength, g.latentWidth);
    RepeatInRange(g.batchSize, g.sequenceLength, g.maximumSequenceLength, g.ropeWidth);
    ghost var known := if mla.Some? then mla.value else Latents([], []);
    var capacityA, capacityB := g.maximumSequenceLength * g.latentWidth, g.maximumSequenceLength * g.ropeWidth;
    var latent, ropeKey := ReadLayered(reader, g.layerCount, latentCounts, capacityA, ropeCounts, capacityB,
                                       known.latent, known.ropeKey, rest, cut);
    if follows && !reader.failed {
      PairsFitLength(known.latent, known.ropeKey, latentCounts, ropeCounts, capacityA, capacityB, g.layerCount);
      TrimmedWhole(latent, known.latent, latentCounts);
      TrimmedWhole(ropeKey, known.ropeKey, ropeCounts);
    }
    read := Some(Latents(latent, ropeKey));
  }

  lemma NothingLeft()
    ensures WordBytes([]) == []
  {
  }

  /** `invalid` reports a channel count of zero, which is also what a cut input reads as. */
  method ReadPrevious(
      reader: KvReader, g: Geometry, present: bool, ghost previous: Option<Embedding>, ghost cut: bool)
      returns (read: Option<Embedding>, invalid: bool)
    requires reader.Valid()
    modifies reader
    ensures reader.Valid() && (old(reader.failed) ==> reader.failed)
    ensures old(reader.Expects(PreviousPart(previous), cut))
            && present == previous.Some? && (present ==> EmbeddingFits(g, previous.value))
            ==> (invalid || reader.failed <==> cut) && (!cut ==> read == previous)
  {
    hide WordBytes;
    read, invalid := None, false;
    NothingLeft();
    ghost var follows := reader.Expects(PreviousPart(previous), cut) && present == previous.Some?
                         && (present ==> EmbeddingFits(g, previous.value));
    if !present {
      return;
    }
    ghost var known := if previous.Some? then previous.value else Embedding(0, []);
    assert known.data + [] == known.data;
    var channels := reader.U32((known.channels % 0x1_0000_0000) as Word, known.data + [], cut);
    if channels <= 0 {
      return None, true;
    }
    var data := reader.F32s(g.batchSize * channels, known.data, [], cut);
    read := Some(Embedding(channels, data));
  }

  // ---------- the whole file ----------

  datatype Decoded = Ok(snapshot: Snapshot) | InvalidKVCache | UnexpectedEof | Crashed

  ghost predicate IsError(result: Decoded) {
    result.InvalidKVCache? || result.UnexpectedEof?
  }

  /** Everything after the header. Crashing stands for an index out of range. */
  method ReadBody(reader: KvReader, g: Geometry, flags: Flags, ghost c: Snapshot, ghost cut: bool)
      returns (result: Decoded)
    requires reader.Valid() && g.heads > 0 && g.sequenceLength <= g.maximumSequenceLength
    modifies reader
    ensures WellFormed(c) && c.geometry == g && FlagsOf(c) == flags
            && old(reader.Expects(RawPart(c) + (LayersPart(c) + LastParts(c)), cut))
            ==> if cut then IsError(result) else result == Ok(Normal(c))
  {
    hide KvReader.Expects, RawPart, LatentPart, PreviousPart, LayersWords, LayerFits, LatentsFit, RawFits,
         EmbeddingFits, NormalLatents, NormalLayers, TrimLayers;
    ghost var follows := WellFormed(c) && c.geometry == g && FlagsOf(c) == flags
                         && reader.Expects(RawPart(c) + (LayersPart(c) + LastParts(c)), cut);
    var keys, values := ReadRaw(reader, g, flags.stripped, c, LayersPart(c) + LastParts(c), cut);
    var layers: seq<LayerState>, crashed := [], false;
    if flags.compression {
      layers, crashed := ReadLayers(reader, g, flags.indexer, c.layers, LastParts(c), cut);
      if crashed {
        return Crashed;
      }
    } else if follows {
      assert LayersPart(c) + LastParts(c) == LastParts(c);
    }
    var mla;
    mla, crashed := ReadLatents(reader, g, flags.mla, c.mla, PreviousPart(c.previous), cut);
    if crashed {
      return Crashed;
    }
    var previous, invalid := ReadPrevious(reader, g, flags.previous, c.previous, cut);
    if invalid {
      return InvalidKVCache;
    }
    if reader.failed {
      return UnexpectedEof;
    }
    result := Ok(Snapshot(NormalGeometry(g, flags), flags.stripped, keys, values, layers,
                          flags.compression && flags.indexer, mla, previous));
  }

  lemma PrefixOfFormat(c: Snapshot, n: nat, data: seq<Byte>)
    requires Fits(c.geometry) && n <= |Format(c)| && data == Format(c)[..n]
    ensures |MAGIC| <= |Format(c)|
    ensures var words := Header(c) + (RawPart(c) + (LayersPart(c) + LastParts(c)));
            if n < |MAGIC| then |data| < |MAGIC|
            else && data[..|MAGIC|] == MAGIC && data[|MAGIC|..] <= WordBytes(words)
                 && (n < |Format(c)| <==> data[|MAGIC|..] != WordBytes(words))
  {
    hide WordBytes, Header, RawPart, LayersPart, LastParts;
    var words := Header(c) + (RawPart(c) + (LayersPart(c) + LastParts(c)));
    if n >= |MAGIC| {
      assert data[|MAGIC|..] == WordBytes(words)[..n - |MAGIC|];
    }
  }

  /** Decodes a file. For every well-formed buffer: its file decodes to the buffer, and every
      strict prefix of its file is rejected with an error. */
  method UnmarshalKVBuffer(data: seq<Byte>, ghost c: Snapshot, ghost n: nat) returns (result: Decoded)
    ensures WellFormed(c) && n <= |Format(c)| && data == Format(c)[..n] ==>
              if n < |Format(c)| then IsError(result) else result == Ok(Normal(c))
  {
    hide WordBytes, RawPart, LayersPart, LastParts, LayerFits, LatentsFit, RawFits, EmbeddingFits, Format, Normal,
         KvReader.Expects;
    ghost var known := WellFormed(c) && n <= |Format(c)| && data == Format(c)[..n];
    ghost var cut := known && n < |Format(c)|;
    if known {
      PrefixOfFormat(c, n, data);
    }
    if |data| < |MAGIC| || data[..|MAGIC|] != MAGIC {
      return InvalidKVCache;
    }
    var reader := new KvReader(data, |MAGIC|);
    ghost var body := RawPart(c) + (LayersPart(c) + LastParts(c));
    ghost var header: seq<Word> := if known then Header(c) else [];
    if known {
      Starts(reader, header + body, cut);
    }
    var fields := ReadHeader(reader, header, body, cut);
    if reader.failed {
      if known {
        FailedAgain(reader, cut);
        assert reader.Expects(body, cut);
      }
      return UnexpectedEof;
    }
    var sequenceLength := ToI32(fields[5]);
    if fields[0] == 0 || fields[2] == 0 || fields[3] == 0 || fields[4] == 0 || fields[1] == 0 {
      return InvalidKVCache;
    }
    if sequenceLength < 0 || sequenceLength > fields[1] {
      return InvalidKVCache;
    }
    var g := Geometry(fields[0], fields[1], fields[2], fields[3], fields[4], sequenceLength, fields[6], fields[7],
                      fields[8], fields[9], fields[10], fields[11], fields[12]);
    var flags := WordFlags(fields[13]);
    FlagsRoundTrip(FlagsOf(c));
    assert known ==> g == c.geometry;
    result := ReadBody(reader, g, flags, c, cut);
  }

  lemma Starts(reader: KvReader, words: seq<Word>, cut: bool)
    requires reader.Valid() && !reader.failed
    requires reader.data[reader.pos..] <= WordBytes(words)
    requires cut <==> reader.data[reader.pos..] != WordBytes(words)
    ensures reader.Expects(words, cut)
  {
  }

  // ---------- what the round trip keeps ----------

  /** The first `count` words are kept, and zeros follow them. */
  ghost predicate KeepsFirst(was: Floats, now: Floats, count: int) {
    && 0 <= count <= |was| == |now|
    && forall k | 0 <= k < |was| :: now[k] == if k < count then was[k] else 0
  }

  lemma TrimKeeps(buffers: seq<Floats>, counts: seq<int>, capacity: nat, i: nat, rows: nat, count: int)
    requires Matches(buffers, counts, capacity) && |counts| == rows && i < rows && counts[i] == count
    ensures |buffers| == |TrimAll(buffers, counts)| == rows
    ensures KeepsFirst(buffers[i], TrimAll(buffers, counts)[i], count)
  {
  }

  ghost predicate TailKept(g: Geometry, was: Tail, now: Tail, b: nat, slot: nat, rows: int) {
    && b < |was.hidden| == |now.hidden| == g.batchSize
    && slot < |was.keys| == |now.keys| == |was.values| == |now.values| == g.batchSize * g.heads
    && KeepsFirst(was.hidden[b], now.hidden[b], rows * g.embeddingDimension)
    && KeepsFirst(was.keys[slot], now.keys[slot], rows * g.headDimension)
    && KeepsFirst(was.values[slot], now.values[slot], rows * g.headDimension)
  }

  ghost predicate EntriesKept(g: Geometry, was: Entries, now: Entries, slot: nat, blocks: int) {
    && slot < |was.keys| == |now.keys| == |was.values| == |now.values| == g.batchSize * g.heads
    && KeepsFirst(was.keys[slot], now.keys[slot], blocks * g.headDimension)
    && KeepsFirst(was.values[slot], now.values[slot], blocks * g.headDimension)
  }

  ghost predicate IndexerKept(g: Geometry, was: seq<Floats>, now: seq<Floats>, slot: nat, blocks: int) {
    && slot < |was| == |now| == g.batchSize * g.heads
    && KeepsFirst(was[slot], now[slot], blocks * g.indexerWidth)
  }

  ghost predicate LayerKeeps(g: Geometry, was: LayerState, now: LayerState, b: nat, slot: nat) {
    && now.tailLength == was.tailLength && now.compressedCount == was.compressedCount
    && b < |was.tailLength| == |was.compressedCount| == g.batchSize
    && now.tail.Some? == was.tail.Some? && now.entries.Some? == was.entries.Some?
    && now.indexer.Some? == was.indexer.Some?
    && (was.tail.Some? ==> TailKept(g, was.tail.value, now.tail.value, b, slot, was.tailLength[b]))
    && (was.entries.Some? ==> EntriesKept(g, was.entries.value, now.entries.value, slot, was.compressedCount[b]))
    && (was.indexer.Some? ==> IndexerKept(g, was.indexer.value, now.indexer.value, slot, was.compressedCount[b]))
  }

  /** Row `b`'s head `h` has slot `b * heads + h`, and its count is row `b`'s. */
  lemma HeadCounts(counters: seq<int>, g: Geometry, width: nat, b: nat, h: nat)
    requires b < g.batchSize == |counters| && h < g.heads
    ensures b * g.heads + h < g.batchSize * g.heads == |PerHead(counters, g, width)|
    ensures PerHead(counters, g, width)[b * g.heads + h] == counters[b] * width
  {
    MultipleApart(b, g.batchSize, g.heads);
    QuotientIs(g.heads, b, h);
  }

  /** Every layer keeps its counters and its tiers. Of row `b` and its head `h`, the tail keeps
      `tailLength[b]` rows, the compressed tiers `compressedCount[b]` blocks. */
  lemma LayerKept(c: Snapshot, l: nat, b: nat, h: nat)
    requires WellFormed(c) && c.geometry.ratio > 1 && l < |c.layers|
    requires b < c.geometry.batchSize && h < c.geometry.heads
    ensures |Normal(c).layers| == |c.layers| == c.geometry.layerCount
    ensures LayerKeeps(c.geometry, c.layers[l], Normal(c).layers[l], b, b * c.geometry.heads + h)
  {
    hide RawFits, LatentsFit, TrimLayers, NormalLatents, Matches, KeepsFirst, TrimAll, PerHead, TailKept, EntriesKept,
         IndexerKept;
    var g, layer := c.geometry, c.layers[l];
    assert LayerFits(g, c.hasIndexer, layer);
    if layer.tail.Some? {
      TailKeeps(g, layer, b, h);
    }
    if layer.entries.Some? {
      EntriesKeep(g, layer, b, h);
    }
    if layer.indexer.Some? {
      IndexerKeeps(g, layer, b, h);
    }
  }

  lemma TailKeeps(g: Geometry, layer: LayerState, b: nat, h: nat)
    requires g.heads > 0 && layer.tail.Some? && TailOk(g, layer)
    requires b < g.batchSize == |layer.tailLength| && h < g.heads
    ensures NormalTail(g, layer).Some?
    ensures TailKept(g, layer.tail.value, NormalTail(g, layer).value, b, b * g.heads + h, layer.tailLength[b])
  {
    hide Matches, KeepsFirst, TrimAll, PerHead;
    var tail, slot, rows, count := layer.tail.value, b * g.heads + h, g.batchSize * g.heads,
                                   layer.tailLength[b] * g.headDimension;
    var counts := PerHead(layer.tailLength, g, g.headDimension);
    HeadCounts(layer.tailLength, g, g.headDimension, b, h);
    TrimKeeps(tail.hidden, PerBatch(layer.tailLength, g.embeddingDimension), g.ratio * g.embeddingDimension,
              b, g.batchSize, layer.tailLength[b] * g.embeddingDimension);
    TrimKeeps(tail.keys, counts, g.ratio * g.headDimension, slot, rows, count);
    TrimKeeps(tail.values, counts, g.ratio * g.headDimension, slot, rows, count);
  }

  lemma EntriesKeep(g: Geometry, layer: LayerState, b: nat, h: nat)
    requires g.heads > 0 && layer.entries.Some? && EntriesOk(g, layer)
    requires b < g.batchSize == |layer.compressedCount| && h < g.heads
    ensures NormalEntries(g, layer).Some?
    ensures EntriesKept(g, layer.entries.value, NormalEntries(g, layer).value, b * g.heads + h, layer.compressedCount[b])
  {
    hide Matches, KeepsFirst, TrimAll, PerHead;
    var entries, slot, rows, count := layer.entries.value, b * g.heads + h, g.batchSize * g.heads,
                                      layer.compressedCount[b] * g.headDimension;
    var counts := PerHead(layer.compressedCount, g, g.headDimension);
    HeadCounts(layer.compressedCount, g, g.headDimension, b, h);
    TrimKeeps(entries.keys, counts, g.maxBlocks * g.headDimension, slot, rows, count);
    TrimKeeps(entries.values, counts, g.maxBlocks * g.headDimension, slot, rows, count);
  }

  lemma IndexerKeeps(g: Geometry, layer: LayerState, b: nat, h: nat)
    requires g.heads > 0 && layer.indexer.Some? && IndexerOk(g, layer)
    requires b < g.batchSize == |layer.compressedCount| && h < g.heads
    ensures NormalIndexer(g, layer).Some?
    ensures IndexerKept(g, layer.indexer.value, NormalIndexer(g, layer).value, b * g.heads + h, layer.compressedCount[b])
  {
    hide Matches, KeepsFirst, TrimAll, PerHead;
    HeadCounts(layer.compressedCount, g, g.indexerWidth, b, h);
    TrimKeeps(layer.indexer.value, PerHead(layer.compressedCount, g, g.indexerWidth), g.maxBlocks * g.indexerWidth,
              b * g.heads + h, g.batchSize * g.heads, layer.compressedCount[b] * g.indexerWidth);
  }

  /** Every row and head keeps the raw rows up to the position, or none when stripped. */
  lemma RawKept(c: Snapshot, l: nat, slot: nat)
    requires WellFormed(c) && l < c.geometry.layerCount && slot < c.geometry.batchSize * c.geometry.heads
    ensures |Normal(c).keys| == |Normal(c).values| == |c.keys| == |c.values| == c.geometry.layerCount
    ensures |Normal(c).keys[l]| == |Normal(c).values[l]| == |c.keys[l]| == |c.values[l]|
            == c.geometry.batchSize * c.geometry.heads
    ensures KeepsFirst(c.keys[l][slot], Normal(c).keys[l][slot],
                       if c.stripped then 0 else c.geometry.sequenceLength * c.geometry.headDimension)
    ensures KeepsFirst(c.values[l][slot], Normal(c).values[l][slot],
                       if c.stripped then 0 else c.geometry.sequenceLength * c.geometry.headDimension)
  {
    hide LayerFits, LatentsFit, NormalLayers, NormalLatents, KeepsFirst, TrimAll;
    var g := c.geometry;
    var count := if c.stripped then 0 else g.sequenceLength * g.headDimension;
    var counts := KeptCounts(g, c.stripped);
    assert Matches(c.keys[l], RawCounts(g), RawCapacity(g)) && Matches(c.values[l], RawCounts(g), RawCapacity(g));
    TrimKeeps(c.keys[l], counts, RawCapacity(g), slot, g.batchSize * g.heads, count);
    TrimKeeps(c.values[l], counts, RawCapacity(g), slot, g.batchSize * g.heads, count);
  }

  /** Every row keeps its latents and its rotary keys up to the position. */
  lemma LatentsKept(c: Snapshot, l: nat, b: nat)
    requires WellFormed(c) && c.mla.Some? && l < c.geometry.layerCount && b < c.geometry.batchSize
    ensures Normal(c).mla.Some?
    ensures var g, was, now := c.geometry, c.mla.value, Normal(c).mla.value;
            && |now.latent| == |now.ropeKey| == |was.latent| == |was.ropeKey| == g.layerCount
            && |now.latent[l]| == |now.ropeKey[l]| == |was.latent[l]| == |was.ropeKey[l]| == g.batchSize
            && KeepsFirst(was.latent[l][b], now.latent[l][b], g.sequenceLength * g.latentWidth)
            && KeepsFirst(was.ropeKey[l][b], now.ropeKey[l][b], g.sequenceLength * g.ropeWidth)
  {
    hide LayerFits, RawFits, NormalLayers, KeepsFirst, TrimAll;
    var g, mla := c.geometry, c.mla.value;
    assert Matches(mla.latent[l], LatentCounts(g, g.latentWidth), g.maximumSequenceLength * g.latentWidth);
    assert Matches(mla.ropeKey[l], LatentCounts(g, g.ropeWidth), g.maximumSequenceLength * g.ropeWidth);
    TrimKeeps(mla.latent[l], LatentCounts(g, g.latentWidth), g.maximumSequenceLength * g.latentWidth, b, g.batchSize,
              g.sequenceLength * g.latentWidth);
    TrimKeeps(mla.ropeKey[l], LatentCounts(g, g.ropeWidth), g.maximumSequenceLength * g.ropeWidth, b, g.batchSize,
              g.sequenceLength * g.ropeWidth);
  }

  /** The widths of state the buffer does not have are not kept; that is the only way the geometry
      or the flags can change. */
  lemma GeometryKept(c: Snapshot)
    requires WellFormed(c)
    ensures Normal(c).geometry == c.geometry && Normal(c).hasIndexer == c.hasIndexer <==>
              && (c.geometry.ratio <= 1 ==>
                    c.geometry.ratio == c.geometry.maxBlocks == c.geometry.embeddingDimension == c.geometry.kvWidth == 0
                    && !c.hasIndexer)
              && (!c.hasIndexer ==> c.geometry.indexerWidth == 0)
              && (c.mla.None? ==> c.geometry.latentWidth == c.geometry.ropeWidth == 0)
    ensures Normal(c).stripped == c.stripped && Normal(c).previous == c.previous
    ensures Normal(c).mla.Some? == c.mla.Some?
  {
    hide RawFits, LayerFits, LatentsFit, NormalLayers, NormalLatents, TrimLayers;
  }

  /** A buffer that loses its geometry and its compression state: one row, layer, head and channel,
      compressed at ratio 1. */
  lemma GeometryLost() returns (c: Snapshot)
    ensures WellFormed(c) && c.geometry == Geometry(1, 1, 1, 1, 1, 0, 1, 1, 1, 1, 0, 0, 0) && |c.layers| == 1
    ensures LayerFits(c.geometry, c.hasIndexer, c.layers[0]) && c.layers[0].entries.Some?
    ensures Normal(c).geometry == Geometry(1, 1, 1, 1, 1, 0, 0, 0, 0, 0, 0, 0, 0) && Normal(c).layers == []
  {
    var g := Geometry(1, 1, 1, 1, 1, 0, 1, 1, 1, 1, 0, 0, 0);
    var layer := LayerState([0], [0], Some(Tail([[0]], [[0]], [[0]])), Some(Entries([[0]], [[0]])), None);
    c := Snapshot(g, false, [[[0]]], [[[0]]], [layer], false, None, None);
  }
}
