/** Serialising a cache snapshot. */
module KvEncode {
  import opened Bytes
  import opened KvFormat
  import opened KvLayers
  import opened KvLists
  import opened KvWire
  import opened Wrappers

  // ---------- writing ----------

  method WriteRaw(writer: KvWriter, c: Snapshot)
    requires WellFormed(c)
    modifies writer
    ensures writer.buffer == old(writer.buffer) + WordBytes(RawPart(c))
  {
    NothingOwed(writer.buffer);
    if !c.stripped {
      var counts := RawCounts(c.geometry);
      WriteLayered(writer, c.keys, c.values, counts, counts, RawCapacity(c.geometry), RawCapacity(c.geometry));
    }
  }

  method WriteCounters(writer: KvWriter, tailLength: seq<int>, compressedCount: seq<int>)
    requires |tailLength| == |compressedCount|
    modifies writer
    ensures writer.buffer == old(writer.buffer) + WordBytes(CounterWords(tailLength, compressedCount, 0))
  {
    hide WordBytes;
    ghost var all := writer.buffer + WordBytes(CounterWords(tailLength, compressedCount, 0));
    for b := 0 to |tailLength|
      invariant writer.buffer + WordBytes(CounterWords(tailLength, compressedCount, b)) == all
    {
      var first, second := ToWord(tailLength[b]), ToWord(compressedCount[b]);
      ghost var rest := CounterWords(tailLength, compressedCount, b + 1);
      Paid(writer.buffer, [first], [second] + rest);
      writer.U32(first);
      Paid(writer.buffer, [second], rest);
      writer.U32(second);
    }
    NothingOwed(writer.buffer);
  }

  method WriteTail(writer: KvWriter, g: Geometry, layer: LayerState)
    requires g.heads > 0 && TailOk(g, layer)
    modifies writer
    ensures writer.buffer == old(writer.buffer) + WordBytes(TailWords(g, layer))
  {
    hide WordBytes, PairWords, ListWords, Matches;
    NothingOwed(writer.buffer);
    if layer.tail.Some? {
      var tail, counts := layer.tail.value, PerHead(layer.tailLength, g, g.headDimension);
      var batchCounts := PerBatch(layer.tailLength, g.embeddingDimension);
      Paid(writer.buffer, ListWords(tail.hidden, batchCounts, 0), PairWords(tail.keys, tail.values, counts, counts, 0));
      WriteList(writer, tail.hidden, batchCounts, g.ratio * g.embeddingDimension);
      SameLength(tail.keys, tail.values, counts, counts, g.ratio * g.headDimension, g.ratio * g.headDimension);
      WritePairs(writer, tail.keys, tail.values, counts, counts, g.ratio * g.headDimension, g.ratio * g.headDimension);
    }
  }

  method WriteEntries(writer: KvWriter, g: Geometry, layer: LayerState)
    requires g.heads > 0 && EntriesOk(g, layer) && IndexerOk(g, layer)
    modifies writer
    ensures writer.buffer == old(writer.buffer) + WordBytes(EntryWords(g, layer) + IndexerWords(g, layer))
  {
    hide WordBytes, PairWords, ListWords, Matches;
    Paid(writer.buffer, EntryWords(g, layer), IndexerWords(g, layer));
    NothingOwed(writer.buffer);
    if layer.entries.Some? {
      var entries, counts := layer.entries.value, PerHead(layer.compressedCount, g, g.headDimension);
      var capacity := g.maxBlocks * g.headDimension;
      SameLength(entries.keys, entries.values, counts, counts, capacity, capacity);
      WritePairs(writer, entries.keys, entries.values, counts, counts, capacity, capacity);
    }
    NothingOwed(writer.buffer);
    if layer.indexer.Some? {
      WriteList(writer, layer.indexer.value, PerHead(layer.compressedCount, g, g.indexerWidth),
                g.maxBlocks * g.indexerWidth);
    }
  }

  method WriteLayer(writer: KvWriter, g: Geometry, layer: LayerState, ghost hasIndexer: bool)
    requires g.heads > 0 && LayerFits(g, hasIndexer, layer)
    modifies writer
    ensures writer.buffer == old(writer.buffer) + WordBytes(LayerWords(g, layer))
  {
    hide WordBytes, CounterWords, TailWords, EntryWords, IndexerWords, TailOk, EntriesOk, IndexerOk;
    var flagWord := LayerFlagWord(LayerFlagsOf(layer));
    ghost var after := EntryWords(g, layer) + IndexerWords(g, layer);
    ghost var counters := CounterWords(layer.tailLength, layer.compressedCount, 0);
    Paid(writer.buffer, [flagWord], counters + (TailWords(g, layer) + after));
    writer.U32(flagWord);
    Paid(writer.buffer, counters, TailWords(g, layer) + after);
    WriteCounters(writer, layer.tailLength, layer.compressedCount);
    Paid(writer.buffer, TailWords(g, layer), after);
    WriteTail(writer, g, layer);
    WriteEntries(writer, g, layer);
  }

  method WriteLayers(writer: KvWriter, c: Snapshot)
    requires WellFormed(c)
    modifies writer
    ensures writer.buffer == old(writer.buffer) + WordBytes(LayersPart(c))
  {
    hide WordBytes, LayerWords, LayerFits;
    NothingOwed(writer.buffer);
    if c.geometry.ratio > 1 {
      ghost var all := writer.buffer + WordBytes(LayersPart(c));
      for l := 0 to c.geometry.layerCount
        invariant writer.buffer + WordBytes(LayersWords(c.geometry, c.layers, l)) == all
      {
        Paid(writer.buffer, LayerWords(c.geometry, c.layers[l]), LayersWords(c.geometry, c.layers, l + 1));
        WriteLayer(writer, c.geometry, c.layers[l], c.hasIndexer);
      }
      NothingOwed(writer.buffer);
    }
  }

  method WriteLatents(writer: KvWriter, c: Snapshot)
    requires WellFormed(c)
    modifies writer
    ensures writer.buffer == old(writer.buffer) + WordBytes(LatentPart(c.geometry, c.mla))
  {
    NothingOwed(writer.buffer);
    if c.mla.Some? {
      var g := c.geometry;
      WriteLayered(writer, c.mla.value.latent, c.mla.value.ropeKey,
                   LatentCounts(g, g.latentWidth), LatentCounts(g, g.ropeWidth),
                   g.maximumSequenceLength * g.latentWidth, g.maximumSequenceLength * g.ropeWidth);
    }
  }

  method WritePrevious(writer: KvWriter, c: Snapshot)
    modifies writer
    ensures writer.buffer == old(writer.buffer) + WordBytes(PreviousPart(c.previous))
  {
    hide WordBytes;
    NothingOwed(writer.buffer);
    if c.previous.Some? {
      var channels := (c.previous.value.channels % 0x1_0000_0000) as Word;
      Paid(writer.buffer, [channels], c.previous.value.data);
      writer.U32(channels);
      writer.F32s(c.previous.value.data);
    }
  }

  method WriteHeader(writer: KvWriter, c: Snapshot)
    requires Fits(c.geometry)
    modifies writer
    ensures writer.buffer == old(writer.buffer) + WordBytes(Header(c))
  {
    var g := c.geometry;
    var fields: seq<Word> :=
      [g.batchSize, g.maximumSequenceLength, g.layerCount, g.heads, g.headDimension, g.sequenceLength, g.ratio,
       g.maxBlocks, g.embeddingDimension, g.kvWidth, g.indexerWidth, g.latentWidth, g.ropeWidth, FlagWord(FlagsOf(c))];
    writer.F32s(fields);
  }

  method MarshalBinary(c: Snapshot) returns (data: seq<Byte>)
    requires WellFormed(c)
    ensures data == Format(c)
  {
    hide WordBytes, RawPart, LayersPart, LatentPart, PreviousPart, RawFits, LayerFits, LatentsFit;
    var writer := new KvWriter(MAGIC);
    Paid(writer.buffer, Header(c), RawPart(c) + (LayersPart(c) + LastParts(c)));
    WriteHeader(writer, c);
    Paid(writer.buffer, RawPart(c), LayersPart(c) + LastParts(c));
    WriteRaw(writer, c);
    Paid(writer.buffer, LayersPart(c), LastParts(c));
    WriteLayers(writer, c);
    Paid(writer.buffer, LatentPart(c.geometry, c.mla), PreviousPart(c.previous));
    WriteLatents(writer, c);
    WritePrevious(writer, c);
    data := writer.buffer;
  }
}
