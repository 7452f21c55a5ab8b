/** A cache snapshot as a value, and the words it is written as. */
module KvFormat {
  import opened Bytes
  import opened KvLayers
  import opened KvLists
  import opened KvWire
  import opened Wrappers

  const MAGIC: seq<Byte> := [71, 79, 78, 65, 75, 86, 0, 1]

  const I32_LIMIT := 0x8000_0000

  datatype Geometry = Geometry(
    batchSize: nat,
    maximumSequenceLength: nat,
    layerCount: nat,
    heads: nat,
    headDimension: nat,
    sequenceLength: nat,
    ratio: nat,
    maxBlocks: nat,
    embeddingDimension: nat,
    kvWidth: nat,
    indexerWidth: nat,
    latentWidth: nat,
    ropeWidth: nat)

  datatype Tail = Tail(hidden: seq<Floats>, keys: seq<Floats>, values: seq<Floats>)

  datatype Entries = Entries(keys: seq<Floats>, values: seq<Floats>)

  /** One layer's compression state; a tier the layer does not own is absent. */
  datatype LayerState = LayerState(
    tailLength: seq<int>,
    compressedCount: seq<int>,
    tail: Option<Tail>,
    entries: Option<Entries>,
    indexer: Option<seq<Floats>>)

  datatype Latents = Latents(latent: seq<seq<Floats>>, ropeKey: seq<seq<Floats>>)

  datatype Embedding = Embedding(channels: nat, data: Floats)

  /** Every buffer at its full capacity, by layer and then by row or by row and head. */
  datatype Snapshot = Snapshot(
    geometry: Geometry,
    stripped: bool,
    keys: seq<seq<Floats>>,
    values: seq<seq<Floats>>,
    layers: seq<LayerState>,
    hasIndexer: bool,
    mla: Option<Latents>,
    previous: Option<Embedding>)

  // ---------- used counts ----------

  function Slots(g: Geometry): nat {
    g.batchSize * g.heads
  }

  function PerBatch(counters: seq<int>, width: nat): (counts: seq<int>)
    ensures |counts| == |counters|
    ensures forall b | 0 <= b < |counts| :: counts[b] == counters[b] * width
  {
    seq(|counters|, b requires 0 <= b < |counters| => counters[b] * width)
  }

  /** Slot `i` belongs to row `i / heads`. */
  function PerHead(counters: seq<int>, g: Geometry, width: nat): (counts: seq<int>)
    requires g.heads > 0
    ensures |counts| == Slots(g)
  {
    seq(Slots(g), i requires 0 <= i < Slots(g) => if i / g.heads < |counters| then counters[i / g.heads] * width else 0)
  }

  function RawCounts(g: Geometry): seq<int> {
    Repeat(Slots(g), g.sequenceLength * g.headDimension)
  }

  function RawCapacity(g: Geometry): nat {
    g.maximumSequenceLength * g.headDimension
  }

  // ---------- well-formed snapshots ----------

  ghost predicate Fits(g: Geometry) {
    && 0 < g.batchSize <= 0xFFFF_FFFF && 0 < g.maximumSequenceLength <= 0xFFFF_FFFF
    && 0 < g.layerCount <= 0xFFFF_FFFF && 0 < g.heads <= 0xFFFF_FFFF && 0 < g.headDimension <= 0xFFFF_FFFF
    && g.sequenceLength <= g.maximumSequenceLength && g.sequenceLength < I32_LIMIT
    && g.ratio <= 0xFFFF_FFFF && g.maxBlocks <= 0xFFFF_FFFF && g.embeddingDimension <= 0xFFFF_FFFF
    && g.kvWidth <= 0xFFFF_FFFF && g.indexerWidth <= 0xFFFF_FFFF
    && g.latentWidth <= 0xFFFF_FFFF && g.ropeWidth <= 0xFFFF_FFFF
  }

  ghost predicate CountersFit(counters: seq<int>, rows: nat, limit: nat) {
    |counters| == rows && forall b | 0 <= b < rows :: 0 <= counters[b] <= limit && counters[b] < I32_LIMIT
  }

  ghost predicate TailFits(g: Geometry, layer: LayerState, tail: Tail)
    requires g.heads > 0
  {
    && Matches(tail.hidden, PerBatch(layer.tailLength, g.embeddingDimension), g.ratio * g.embeddingDimension)
    && Matches(tail.keys, PerHead(layer.tailLength, g, g.headDimension), g.ratio * g.headDimension)
    && Matches(tail.values, PerHead(layer.tailLength, g, g.headDimension), g.ratio * g.headDimension)
  }

  ghost predicate EntriesFit(g: Geometry, layer: LayerState, entries: Entries)
    requires g.heads > 0
  {
    && g.maxBlocks > 0
    && Matches(entries.keys, PerHead(layer.compressedCount, g, g.headDimension), g.maxBlocks * g.headDimension)
    && Matches(entries.values, PerHead(layer.compressedCount, g, g.headDimension), g.maxBlocks * g.headDimension)
  }

  ghost predicate IndexerFits(g: Geometry, layer: LayerState, keys: seq<Floats>)
    requires g.heads > 0
  {
    && g.maxBlocks > 0 && g.indexerWidth > 0
    && Matches(keys, PerHead(layer.compressedCount, g, g.indexerWidth), g.maxBlocks * g.indexerWidth)
  }

  ghost predicate TailOk(g: Geometry, layer: LayerState)
    requires g.heads > 0
  {
    layer.tail.Some? ==> TailFits(g, layer, layer.tail.value)
  }

  ghost predicate EntriesOk(g: Geometry, layer: LayerState)
    requires g.heads > 0
  {
    layer.entries.Some? ==> EntriesFit(g, layer, layer.entries.value)
  }

  ghost predicate IndexerOk(g: Geometry, layer: LayerState)
    requires g.heads > 0
  {
    layer.indexer.Some? ==> IndexerFits(g, layer, layer.indexer.value)
  }

  ghost predicate LayerFits(g: Geometry, hasIndexer: bool, layer: LayerState)
    requires g.heads > 0
  {
    && CountersFit(layer.tailLength, g.batchSize, g.ratio)
    && CountersFit(layer.compressedCount, g.batchSize, g.maxBlocks)
    && TailOk(g, layer) && EntriesOk(g, layer) && IndexerOk(g, layer)
    && (layer.indexer.Some? ==> hasIndexer)
  }

  ghost predicate LatentsFit(g: Geometry, mla: Latents) {
    && g.latentWidth > 0 && g.ropeWidth > 0
    && PairsFit(mla.latent, mla.ropeKey, LatentCounts(g, g.latentWidth), LatentCounts(g, g.ropeWidth),
                g.maximumSequenceLength * g.latentWidth, g.maximumSequenceLength * g.ropeWidth, g.layerCount)
  }

  function LatentCounts(g: Geometry, width: nat): seq<int> {
    Repeat(g.batchSize, g.sequenceLength * width)
  }

  ghost predicate RawFits(g: Geometry, keys: seq<seq<Floats>>, values: seq<seq<Floats>>) {
    PairsFit(keys, values, RawCounts(g), RawCounts(g), RawCapacity(g), RawCapacity(g), g.layerCount)
  }

  /** A buffer as the allocation methods shape it: no tensor has a zero dimension. Compression state
      exists above ratio 1. */
  ghost predicate WellFormed(c: Snapshot) {
    && Fits(c.geometry)
    && RawFits(c.geometry, c.keys, c.values)
    && (c.geometry.ratio > 1 ==>
          && |c.layers| == c.geometry.layerCount
          && forall l | 0 <= l < |c.layers| :: LayerFits(c.geometry, c.hasIndexer, c.layers[l]))
    && (c.mla.Some? ==> LatentsFit(c.geometry, c.mla.value))
    && (c.previous.Some? ==> EmbeddingFits(c.geometry, c.previous.value))
  }

  ghost predicate EmbeddingFits(g: Geometry, previous: Embedding) {
    0 < previous.channels <= 0xFFFF_FFFF && |previous.data| == g.batchSize * previous.channels
  }

  // ---------- flags ----------

  datatype Flags = Flags(compression: bool, indexer: bool, previous: bool, stripped: bool, mla: bool)

  function Bit(on: bool, weight: nat): nat {
    if on then weight else 0
  }

  function FlagWord(flags: Flags): Word {
    Bit(flags.compression, 1) + Bit(flags.indexer, 2) + Bit(flags.previous, 4) + Bit(flags.stripped, 8) + Bit(flags.mla, 16)
  }

  function WordFlags(w: Word): Flags {
    Flags(w % 2 == 1, w / 2 % 2 == 1, w / 4 % 2 == 1, w / 8 % 2 == 1, w / 16 % 2 == 1)
  }

  lemma FlagsRoundTrip(flags: Flags)
    ensures WordFlags(FlagWord(flags)) == flags
  {
    var w := FlagWord(flags);
    assert w / 2 == Bit(flags.indexer, 1) + Bit(flags.previous, 2) + Bit(flags.stripped, 4) + Bit(flags.mla, 8);
    assert w / 4 == Bit(flags.previous, 1) + Bit(flags.stripped, 2) + Bit(flags.mla, 4);
    assert w / 8 == Bit(flags.stripped, 1) + Bit(flags.mla, 2);
    assert w / 16 == Bit(flags.mla, 1);
  }

  datatype LayerFlags = LayerFlags(tail: bool, entries: bool, indexer: bool)

  function LayerFlagWord(flags: LayerFlags): Word {
    Bit(flags.tail, 1) + Bit(flags.entries, 2) + Bit(flags.indexer, 4)
  }

  function WordLayerFlags(w: Word): LayerFlags {
    LayerFlags(w % 2 == 1, w / 2 % 2 == 1, w / 4 % 2 == 1)
  }

  lemma LayerFlagsRoundTrip(flags: LayerFlags)
    ensures WordLayerFlags(LayerFlagWord(flags)) == flags
    ensures WordLayerFlags(0) == LayerFlags(false, false, false)
  {
  }

  function FlagsOf(c: Snapshot): Flags {
    Flags(c.geometry.ratio > 1, c.hasIndexer, c.previous.Some?, c.stripped, c.mla.Some?)
  }

  function LayerFlagsOf(layer: LayerState): LayerFlags {
    LayerFlags(layer.tail.Some?, layer.entries.Some?, layer.indexer.Some?)
  }

  /** Two's complement. */
  function ToI32(w: Word): (x: int)
    ensures -I32_LIMIT <= x < I32_LIMIT && (x - w) % 0x1_0000_0000 == 0
  {
    if w < I32_LIMIT then w else w - 0x1_0000_0000
  }

  // ---------- the words ----------

  ghost function Header(c: Snapshot): (header: seq<Word>)
    requires Fits(c.geometry)
    ensures |header| == 14
  {
    var g := c.geometry;
    [g.batchSize, g.maximumSequenceLength, g.layerCount, g.heads, g.headDimension, g.sequenceLength, g.ratio,
     g.maxBlocks, g.embeddingDimension, g.kvWidth, g.indexerWidth, g.latentWidth, g.ropeWidth, FlagWord(FlagsOf(c))]
  }

  ghost function CounterWords(tailLength: seq<int>, compressedCount: seq<int>, b: nat): seq<Word>
    decreases |tailLength| - b
  {
    if b >= |tailLength| || b >= |compressedCount| then []
    else [ToWord(tailLength[b])] + ([ToWord(compressedCount[b])] + CounterWords(tailLength, compressedCount, b + 1))
  }

  /** `uint32(int32(x))`: the low 32 bits. */
  function ToWord(x: int): (w: Word)
    ensures -I32_LIMIT <= x < I32_LIMIT ==> ToI32(w) == x
  {
    x % 0x1_0000_0000
  }

  ghost function TailWords(g: Geometry, layer: LayerState): seq<Word>
    requires g.heads > 0
  {
    if layer.tail.None? then []
    else
      var counts := PerHead(layer.tailLength, g, g.headDimension);
      ListWords(layer.tail.value.hidden, PerBatch(layer.tailLength, g.embeddingDimension), 0)
      + PairWords(layer.tail.value.keys, layer.tail.value.values, counts, counts, 0)
  }

  ghost function EntryWords(g: Geometry, layer: LayerState): seq<Word>
    requires g.heads > 0
  {
    if layer.entries.None? then []
    else
      var counts := PerHead(layer.compressedCount, g, g.headDimension);
      PairWords(layer.entries.value.keys, layer.entries.value.values, counts, counts, 0)
  }

  ghost function IndexerWords(g: Geometry, layer: LayerState): seq<Word>
    requires g.heads > 0
  {
    if layer.indexer.None? then []
    else ListWords(layer.indexer.value, PerHead(layer.compressedCount, g, g.indexerWidth), 0)
  }

  ghost function LayerWords(g: Geometry, layer: LayerState): seq<Word>
    requires g.heads > 0
  {
    [LayerFlagWord(LayerFlagsOf(layer))]
    + (CounterWords(layer.tailLength, layer.compressedCount, 0)
       + (TailWords(g, layer) + (EntryWords(g, layer) + IndexerWords(g, layer))))
  }

  ghost function LayersWords(g: Geometry, layers: seq<LayerState>, l: nat): seq<Word>
    requires g.heads > 0
    decreases |layers| - l
  {
    if l >= |layers| then [] else LayerWords(g, layers[l]) + LayersWords(g, layers, l + 1)
  }

  ghost function RawPart(c: Snapshot): seq<Word> {
    if c.stripped then [] else LayeredWords(c.keys, c.values, RawCounts(c.geometry), RawCounts(c.geometry), 0)
  }

  ghost function LayersPart(c: Snapshot): seq<Word> {
    if c.geometry.ratio > 1 && c.geometry.heads > 0 then LayersWords(c.geometry, c.layers, 0) else []
  }

  ghost function LatentWords(g: Geometry, mla: Latents): seq<Word> {
    LayeredWords(mla.latent, mla.ropeKey, LatentCounts(g, g.latentWidth), LatentCounts(g, g.ropeWidth), 0)
  }

  ghost function LatentPart(g: Geometry, mla: Option<Latents>): seq<Word> {
    if mla.Some? then LatentWords(g, mla.value) else []
  }

  ghost function EmbeddingWords(previous: Embedding): seq<Word> {
    [(previous.channels % 0x1_0000_0000) as Word] + previous.data
  }

  ghost function PreviousPart(previous: Option<Embedding>): seq<Word> {
    if previous.Some? then EmbeddingWords(previous.value) else []
  }

  ghost function LastParts(c: Snapshot): seq<Word> {
    LatentPart(c.geometry, c.mla) + PreviousPart(c.previous)
  }

  /** The whole file. */
  ghost function Format(c: Snapshot): seq<Byte>
    requires Fits(c.geometry)
  {
    MAGIC + WordBytes(Header(c) + (RawPart(c) + (LayersPart(c) + LastParts(c))))
  }

  // ---------- what comes back ----------

  ghost function NormalTail(g: Geometry, layer: LayerState): Option<Tail>
    requires g.heads > 0 && TailOk(g, layer)
  {
    if layer.tail.None? then None
    else
      var counts := PerHead(layer.tailLength, g, g.headDimension);
      Some(Tail(TrimAll(layer.tail.value.hidden, PerBatch(layer.tailLength, g.embeddingDimension)),
                TrimAll(layer.tail.value.keys, counts), TrimAll(layer.tail.value.values, counts)))
  }

  ghost function NormalEntries(g: Geometry, layer: LayerState): Option<Entries>
    requires g.heads > 0 && EntriesOk(g, layer)
  {
    if layer.entries.None? then None
    else
      var counts := PerHead(layer.compressedCount, g, g.headDimension);
      Some(Entries(TrimAll(layer.entries.value.keys, counts), TrimAll(layer.entries.value.values, counts)))
  }

  ghost function NormalIndexer(g: Geometry, layer: LayerState): Option<seq<Floats>>
    requires g.heads > 0 && IndexerOk(g, layer)
  {
    if layer.indexer.None? then None
    else Some(TrimAll(layer.indexer.value, PerHead(layer.compressedCount, g, g.indexerWidth)))
  }

  ghost function NormalLayer(g: Geometry, hasIndexer: bool, layer: LayerState): LayerState
    requires g.heads > 0 && LayerFits(g, hasIndexer, layer)
  {
    LayerState(layer.tailLength, layer.compressedCount,
               NormalTail(g, layer), NormalEntries(g, layer), NormalIndexer(g, layer))
  }

  ghost function NormalLayers(g: Geometry, hasIndexer: bool, layers: seq<LayerState>): (normal: seq<LayerState>)
    requires g.heads > 0
    requires forall l | 0 <= l < |layers| :: LayerFits(g, hasIndexer, layers[l])
    ensures |normal| == |layers|
    ensures forall l | 0 <= l < |layers| :: normal[l] == NormalLayer(g, hasIndexer, layers[l])
  {
    seq(|layers|, l requires 0 <= l < |layers| => NormalLayer(g, hasIndexer, layers[l]))
  }

  function NormalGeometry(g: Geometry, flags: Flags): Geometry {
    g.(ratio := if flags.compression then g.ratio else 0,
       maxBlocks := if flags.compression then g.maxBlocks else 0,
       embeddingDimension := if flags.compression then g.embeddingDimension else 0,
       kvWidth := if flags.compression then g.kvWidth else 0,
       indexerWidth := if flags.compression && flags.indexer then g.indexerWidth else 0,
       latentWidth := if flags.mla then g.latentWidth else 0,
       ropeWidth := if flags.mla then g.ropeWidth else 0)
  }

  /** A stripped snapshot keeps none of the raw rows. */
  function KeptCounts(g: Geometry, stripped: bool): (counts: seq<int>)
    ensures |counts| == Slots(g)
  {
    if stripped then Repeat(Slots(g), 0) else RawCounts(g)
  }

  lemma RowsPerLayer(c: Snapshot)
    requires WellFormed(c)
    ensures forall l | 0 <= l < |c.keys| :: |c.keys[l]| == Slots(c.geometry)
    ensures forall l | 0 <= l < |c.values| :: |c.values[l]| == Slots(c.geometry)
  {
  }

  ghost function NormalLatents(g: Geometry, mla: Latents): Latents
    requires LatentsFit(g, mla)
  {
    assert forall l | 0 <= l < g.layerCount :: Matches(mla.latent[l], LatentCounts(g, g.latentWidth),
                                                       g.maximumSequenceLength * g.latentWidth);
    assert forall l | 0 <= l < g.layerCount :: Matches(mla.ropeKey[l], LatentCounts(g, g.ropeWidth),
                                                       g.maximumSequenceLength * g.ropeWidth);
    Latents(TrimLayers(mla.latent, LatentCounts(g, g.latentWidth)),
            TrimLayers(mla.ropeKey, LatentCounts(g, g.ropeWidth)))
  }

  /** The snapshot with everything that is not written cleared: unused slots zero, raw rows zero
      when stripped, widths of absent state zero. */
  ghost function Normal(c: Snapshot): Snapshot
    requires WellFormed(c)
  {
    RowsPerLayer(c);
    var g, raw := c.geometry, KeptCounts(c.geometry, c.stripped);
    Snapshot(
      NormalGeometry(g, FlagsOf(c)),
      c.stripped,
      TrimLayers(c.keys, raw),
      TrimLayers(c.values, raw),
      if g.ratio > 1 then NormalLayers(g, c.hasIndexer, c.layers) else [],
      g.ratio > 1 && c.hasIndexer,
      if c.mla.None? then None else Some(NormalLatents(g, c.mla.value)),
      c.previous)
  }
}
