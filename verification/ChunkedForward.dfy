/** The cached forward pass of a transformer: feeding a sequence in any chunks leaves the same state
    and returns the same rows, and a cache without compressed entries can be rewound. */
module ChunkedForward {
  import opened Compressors
  import opened Division
  import opened LayerCaches
  import opened Networks
  import opened Smear
  import opened Vectors
  import opened Wrappers

  /** A layer's cache stands for exactly these rows. */
  ghost predicate LayerHolds(packer: Packer, layer: Layer, cache: LayerCache, raws: seq<Row>, owned: seq<Row>)
    requires RowsFit(packer, owned)
    reads cache.Repr()
  {
    && (layer.window.Some? ==> cache.RawHolds(raws))
    && (layer.role.Owner? ==> cache.TailHolds(packer, owned))
  }

  ghost predicate Room(layer: Layer, cache: LayerCache, length: nat)
    requires layer.packer.compressor.ratio > 0
  {
    && cache.raw != cache.tail
    && (layer.window.Some? ==> length <= cache.raw.Length)
    && (layer.role.Owner? ==> length / layer.packer.compressor.ratio <= cache.compressed.Length)
  }

  method ProjectRows(layer: Layer, chunk: seq<int>, inputs: seq<Vec>, position: nat) returns (rows: seq<Row>)
    requires |chunk| == |inputs|
    ensures |rows| == |chunk|
    ensures forall i | 0 <= i < |rows| :: rows[i] == layer.project(chunk[i], position + i, inputs[i])
  {
    rows := [];
    for i := 0 to |chunk|
      invariant |rows| == i
      invariant forall j | 0 <= j < i :: rows[j] == layer.project(chunk[j], position + j, inputs[j])
    {
      rows := rows + [layer.project(chunk[i], position + i, inputs[i])];
    }
  }

  /** The rows to compress: the encoder's for a decoder's owner layer, else the layer's own. */
  method GlobalRows(layer: Layer, chunk: seq<int>, inputs: seq<Vec>, encoder: seq<Vec>, raws: seq<Row>, position: nat)
      returns (rows: seq<Row>)
    requires |chunk| == |inputs| == |encoder| == |raws|
    requires forall i | 0 <= i < |raws| :: raws[i] == layer.project(chunk[i], position + i, inputs[i])
    ensures |rows| == |chunk|
    ensures forall i | 0 <= i < |rows| :: rows[i] == GlobalRow(layer, chunk[i], position + i, inputs[i], encoder[i])
  {
    if layer.encode.None? {
      return raws;
    }
    rows := [];
    for i := 0 to |chunk|
      invariant |rows| == i
      invariant forall j | 0 <= j < i :: rows[j] == GlobalRow(layer, chunk[j], position + j, inputs[j], encoder[j])
    {
      rows := rows + [(layer.encode.value)(position + i, encoder[i])];
    }
  }

  /** The rows a query sees in the raw prefix. */
  method LocalRows(window: nat, prefix: seq<Row>, position: nat) returns (local: seq<Row>)
    requires position < |prefix|
    ensures |local| == (if position < window then position else window) + 1
    ensures forall i | 0 <= i < |local| :: local[i] == prefix[position + 1 - |local| + i]
    ensures local == Local(Some(window), prefix, position)
  {
    var start: int := position - window;
    if start < 0 {
      start := 0;
    }
    var count := position - start + 1;
    if count > position + 1 {
      count := position + 1;
    }
    local := prefix[start..start + count];
  }

  method CombineResidual(layer: Layer, acts: seq<Vec>, start: seq<Vec>) returns (inputs: seq<Vec>)
    requires |acts| == |start|
    ensures |inputs| == |acts|
    ensures forall i | 0 <= i < |inputs| :: inputs[i] == layer.combine(acts[i], start[i])
  {
    inputs := [];
    for i := 0 to |acts|
      invariant |inputs| == i
      invariant forall j | 0 <= j < i :: inputs[j] == layer.combine(acts[j], start[j])
    {
      inputs := inputs + [layer.combine(acts[i], start[i])];
    }
  }

  /** Appends the chunk's rows to the layer's state; the rows written so far are the prefix. */
  method WriteLayer(
      layer: Layer, own: LayerCache,
      chunk: seq<int>, chunkInputs: seq<Vec>, chunkEncoder: seq<Vec>, position: nat,
      ghost tokens: seq<int>, ghost inputs: seq<Vec>, ghost encoder: seq<Vec>, ghost raws: seq<Row>, ghost owned: seq<Row>,
      ghost packer: Packer)
      returns (prefix: seq<Row>)
    requires layer.packer.compressor.ratio > 0 && LayerFits(layer) && (layer.role.Owner? ==> packer == layer.packer)
    requires |tokens| == |inputs| == |encoder| == |owned| && RowsFit(packer, owned)
    requires raws == Raws(layer, tokens, inputs)
    requires position <= |tokens| && chunk == tokens[position..] && chunkInputs == inputs[position..]
    requires chunkEncoder == encoder[position..]
    requires Room(layer, own, |tokens|)
    requires RowsFit(packer, owned[..position])
    requires LayerHolds(packer, layer, own, raws[..position], owned[..position])
    requires layer.role.Owner? ==> owned == Globals(layer, tokens, inputs, encoder)
    modifies own.Repr()
    ensures LayerHolds(packer, layer, own, raws, owned)
    ensures layer.window.Some? ==> prefix == raws
  {
    hide Entries, RowFits, Compressors.Blocks, GlobalRow, LayerFits;
    var chunkRows := ProjectRows(layer, chunk, chunkInputs, position);
    assert chunkRows == raws[position..] && raws == raws[..position] + chunkRows;
    prefix := [];
    if layer.window.Some? {
      prefix := own.WriteKeyValue(position, chunkRows);
    }
    if layer.role.Owner? {
      var globals := GlobalRows(layer, chunk, chunkInputs, chunkEncoder, chunkRows, position);
      assert globals == owned[position..] && owned == owned[..position] + globals;
      own.AppendGlobalTail(layer.packer, globals, owned[..position]);
    }
  }

  /** One attention layer over a chunk: write the raw rows, buffer and compress, attend. All rows of
      the chunk are written before any query reads. */
  method ForwardLayer(
      layer: Layer, own: LayerCache, producer: LayerCache,
      chunk: seq<int>, chunkInputs: seq<Vec>, chunkEncoder: seq<Vec>, chunkShares: seq<Share>, position: nat,
      ghost tokens: seq<int>, ghost inputs: seq<Vec>, ghost encoder: seq<Vec>, ghost shares: seq<Share>,
      ghost raws: seq<Row>, ghost owned: seq<Row>, ghost packer: Packer, ghost live: bool)
      returns (outs: seq<Vec>, published: seq<Share>)
    requires layer.packer.compressor.ratio > 0 && LayerFits(layer) && (layer.role.Owner? ==> packer == layer.packer)
    requires |tokens| == |inputs| == |encoder| == |shares| == |owned| && RowsFit(packer, owned)
    requires raws == Raws(layer, tokens, inputs)
    requires position <= |tokens| && chunk == tokens[position..] && chunkInputs == inputs[position..]
    requires chunkEncoder == encoder[position..] && chunkShares == shares[position..]
    requires Room(layer, own, |tokens|)
    requires RowsFit(packer, owned[..position])
    requires LayerHolds(packer, layer, own, raws[..position], owned[..position])
    requires layer.role.Owner? ==> producer == own && owned == Globals(layer, tokens, inputs, encoder)
    requires layer.role.Reader? ==> live
    requires packer.compressor.ratio == layer.packer.compressor.ratio
    requires !layer.role.Owner? && live ==> producer.TailHolds(packer, owned) && producer.Repr() !! own.Repr()
    modifies own.Repr()
    ensures LayerHolds(packer, layer, own, raws, owned)
    ensures layer.role.Owner? || live ==> producer.TailHolds(packer, owned)
    ensures |outs| == |published| == |chunk|
    ensures Answers(packer, layer, inputs, raws, owned, shares, position, outs, published)
  {
    hide RowsFit, Raws, Globals, Answers, LayerFits, LayerCache.TailHolds;
    var prefix :=
      WriteLayer(layer, own, chunk, chunkInputs, chunkEncoder, position, tokens, inputs, encoder, raws, owned, packer);
    outs, published :=
      Attend(layer, producer, chunkInputs, chunkShares, prefix, position, inputs, raws, owned, shares, packer);
  }

  /** The entries strictly before the query's block. The cap at what is available never bites. */
  method VisibleEntries(ratio: nat, producer: LayerCache, absolute: nat, ghost owned: seq<Row>, ghost packer: Packer)
      returns (visible: seq<Entry>)
    requires RowsFit(packer, owned) && producer.TailHolds(packer, owned) && absolute < |owned|
    requires ratio == packer.compressor.ratio
    ensures visible == Visible(packer, owned, absolute)
    ensures |visible| == absolute / ratio
  {
    hide Entries, RowFits;
    var count := absolute / ratio;
    QuotientMonotone(ratio, absolute, |owned|);
    var available := producer.compressedCount;
    if available < count {
      count := available;
    }
    visible := producer.compressed[..count];
    assert visible == producer.compressed[..producer.compressedCount][..count];
  }

  /** The rows handed up from `position` on are those of the whole sequence. */
  ghost predicate Answers(
      packer: Packer, layer: Layer, inputs: seq<Vec>, raws: seq<Row>, owned: seq<Row>, shares: seq<Share>,
      position: nat, outs: seq<Vec>, published: seq<Share>)
    requires RowsFit(packer, owned) && |inputs| == |raws| == |owned| == |shares|
    requires |outs| == |published| && position + |outs| <= |inputs|
  {
    forall i | 0 <= i < |outs| ::
      && outs[i] == OutputRow(packer, layer, inputs, raws, owned, shares, position + i)
      && published[i] == ShareRow(packer, layer, inputs, owned, shares, position + i)
  }

  /** Every query of the chunk attends to the entries before its block and to its window, and hands
      on what its group shares. */
  method Attend(
      layer: Layer, producer: LayerCache, chunkInputs: seq<Vec>, chunkShares: seq<Share>,
      prefix: seq<Row>, position: nat,
      ghost inputs: seq<Vec>, ghost raws: seq<Row>, ghost owned: seq<Row>, ghost shares: seq<Share>, ghost packer: Packer)
      returns (outs: seq<Vec>, published: seq<Share>)
    requires packer.compressor.ratio == layer.packer.compressor.ratio
    requires RowsFit(packer, owned) && (!layer.role.Bare? ==> producer.TailHolds(packer, owned))
    requires |inputs| == |raws| == |owned| == |shares| && position <= |inputs|
    requires chunkInputs == inputs[position..] && chunkShares == shares[position..]
    requires layer.window.Some? ==> prefix == raws
    ensures |outs| == |published| == |chunkInputs|
    ensures Answers(packer, layer, inputs, raws, owned, shares, position, outs, published)
  {
    hide Entries, RowsFit, Visible, LayerCache.TailHolds;
    outs, published := [], [];
    for i := 0 to |chunkInputs|
      invariant |outs| == |published| == i
      invariant forall j | 0 <= j < i ::
                  && outs[j] == OutputRow(packer, layer, inputs, raws, owned, shares, position + j)
                  && published[j] == ShareRow(packer, layer, inputs, owned, shares, position + j)
    {
      var absolute := position + i;
      var visible: seq<Entry> := [];
      if !layer.role.Bare? {
        visible := VisibleEntries(layer.packer.compressor.ratio, producer, absolute, owned, packer);
      }
      var local: seq<Row> := [];
      if layer.window.Some? {
        local := LocalRows(layer.window.value, prefix, absolute);
      }
      var share := layer.publish(chunkInputs[i], absolute, visible, chunkShares[i]);
      published := published + [share];
      outs := outs + [layer.finish(chunkInputs[i], layer.attend(chunkInputs[i], absolute, visible, share, local))];
    }
  }

  lemma RatioAtLeastOne(net: Network)
    requires WellFormed(net)
    ensures net.ratio > 0 && forall l | 0 <= l < |net.layers| :: net.layers[l].packer.compressor.ratio == net.ratio
  {
  }

  lemma NothingFed(net: Network, cache: LayerCache, l: nat)
    requires WellFormed(net) && l < |net.layers|
    requires cache.tailLength == cache.compressedCount == 0
    requires net.layers[l].role.Owner? ==> cache.tail.Length == net.ratio
    ensures LayerHolds(PackerOf(net, l + 1), net.layers[l], cache, LayerRaws(net, [], l), LayerOwned(net, [], l))
  {
    hide LayerRaws, LayerOwned, WellFormed;
    RatioAtLeastOne(net);
  }

  lemma EmbeddingsSplit(net: Network, before: seq<int>, chunk: seq<int>)
    requires WellFormed(net)
    ensures Embeddings(net, before + chunk) == Embeddings(net, before) + Embeddings(net, chunk)
  {
  }

  /** The rows of the layers cached for `before` are the first rows of the layers for more. */
  lemma RowsKept(net: Network, before: seq<int>, chunk: seq<int>, l: nat)
    requires WellFormed(net) && l < |net.layers|
    ensures LayerRaws(net, before, l) == LayerRaws(net, before + chunk, l)[..|before|]
    ensures LayerOwned(net, before, l) == LayerOwned(net, before + chunk, l)[..|before|]
    ensures RowsFit(PackerOf(net, l + 1), LayerOwned(net, before + chunk, l)[..|before|])
  {
    hide LayerRaws, LayerOwned;
    assert (before + chunk)[..|before|] == before;
    LayerPrefix(net, before + chunk, |before|, l);
  }

  /** The rows of the chunk in a stage of the whole sequence. */
  ghost predicate Tail(
      stage: Stage, n: nat, acts: seq<Vec>, kept: seq<Vec>, shares: seq<Share>, encoder: seq<Vec>)
  {
    && n <= |stage.acts| == |stage.kept| == |stage.shares| == |stage.encoder|
    && acts == stage.acts[n..] && kept == stage.kept[n..]
    && shares == stage.shares[n..] && encoder == stage.encoder[n..]
  }

  /** The whole cache: one state per layer, a position and the last unsmeared embedding. */
  class KVBuffer {
    const layers: seq<LayerCache>
    const capacity: nat
    var position: nat
    var previous: Option<Vec>

    constructor (net: Network, capacity: nat, maxBlocks: nat)
      requires WellFormed(net) && capacity / net.ratio <= maxBlocks
      ensures fresh(Repr()) && Fits(net, capacity) && Holds(net, [])
      ensures this.capacity == capacity
    {
      hide WellFormed;
      RatioAtLeastOne(net);
      var caches: seq<LayerCache> := [];
      for l := 0 to |net.layers|
        invariant |caches| == l
        invariant forall m | 0 <= m < l :: fresh(caches[m]) && fresh(caches[m].Repr())
        invariant forall m, o | 0 <= m < l && o in caches[m].Repr() :: allocated(o)
        invariant forall m, k | 0 <= m < k < l :: caches[m].Repr() !! caches[k].Repr()
        invariant forall m | 0 <= m < l ::
                    && caches[m].raw.Length == capacity
                    && Room(net.layers[m], caches[m], capacity)
                    && caches[m].tailLength == caches[m].compressedCount == 0
                    && (net.layers[m].role.Owner? ==> caches[m].tail.Length == net.ratio)
      {
        var cache := new LayerCache(capacity, net.ratio, maxBlocks, net.layers[l].role.Owner?);
        caches := caches + [cache];
      }
      layers, this.capacity := caches, capacity;
      position, previous := 0, None;
      new;
      forall l | 0 <= l < |layers| ensures LayerAt(net, [], l) {
        NothingFed(net, layers[l], l);
      }
      assert previous == LastOf(Embeddings(net, []));
    }

    ghost function Repr(): set<object> {
      set l, o | 0 <= l < |layers| && o in layers[l].Repr() :: o
    }

    ghost predicate Apart() {
      && this !in Repr()
      && (forall l | 0 <= l < |layers| :: layers[l].raw.Length == capacity)
      && forall l, m | 0 <= l < m < |layers| :: layers[l].Repr() !! layers[m].Repr()
    }

    ghost predicate Fits(net: Network, length: nat) {
      && WellFormed(net) && Apart() && |layers| == |net.layers| && length <= capacity
      && forall l | 0 <= l < |layers| :: Room(net.layers[l], layers[l], length)
    }

    ghost predicate LayerAt(net: Network, tokens: seq<int>, l: nat)
      requires WellFormed(net) && l < |layers| == |net.layers|
      reads layers[l].Repr()
    {
      LayerHolds(PackerOf(net, l + 1), net.layers[l], layers[l], LayerRaws(net, tokens, l), LayerOwned(net, tokens, l))
    }

    /** The state depends on the tokens fed so far and not on how they were chunked. */
    ghost predicate Holds(net: Network, tokens: seq<int>)
      requires WellFormed(net) && |layers| == |net.layers|
      reads this, Repr()
    {
      && position == |tokens| <= capacity
      && previous == LastOf(Embeddings(net, tokens))
      && forall l | 0 <= l < |layers| :: LayerAt(net, tokens, l)
    }

    /** The layer's producer, once there is one, holds the rows the layers above `l` may read. */
    ghost predicate Produced(net: Network, tokens: seq<int>, l: nat, producer: nat)
      requires WellFormed(net) && l <= |layers| == |net.layers|
      reads Repr()
    {
      OwnerBelow(net, l) ==>
        && producer < l
        && RowsFit(PackerOf(net, l), After(net, tokens, l).owned)
        && (assert layers[producer].Repr() <= Repr(); layers[producer].TailHolds(PackerOf(net, l), After(net, tokens, l).owned))
    }

    /** One layer of the trunk over the chunk. */
    method LayerStep(
        net: Network, l: nat, producer: nat, chunk: seq<int>, start: seq<Vec>, acts: seq<Vec>, kept: seq<Vec>,
        shares: seq<Share>, encoder: seq<Vec>, ghost before: seq<int>)
        returns (outs: seq<Vec>, nextKept: seq<Vec>, published: seq<Share>, nextEncoder: seq<Vec>)
      requires Fits(net, |before| + |chunk|) && producer <= l < |layers|
      requires position == |before|
      requires start == Start(net, before + chunk)[|before|..]
      requires Tail(After(net, before + chunk, l), |before|, acts, kept, shares, encoder)
      requires LayerAt(net, before, l)
      requires net.layers[l].role.Owner? ==> producer == l
      requires !net.layers[l].role.Owner? ==> Produced(net, before + chunk, l, producer)
      modifies layers[l].Repr()
      ensures LayerAt(net, before + chunk, l)
      ensures Produced(net, before + chunk, l + 1, producer)
      ensures Tail(After(net, before + chunk, l + 1), |before|, outs, nextKept, published, nextEncoder)
    {
      hide Inputs, Raws, Globals, Start, After, Answers, RowsFit, StageFits, LayerRaws, LayerOwned, PackerOf;
      ghost var tokens, n := before + chunk, |before|;
      ghost var stage := After(net, tokens, l);
      var layer := net.layers[l];
      LayerParts(net, tokens, l);
      ghost var inputs := LayerInputs(net, tokens, l);
      var chunkInputs := CombineResidual(layer, acts, start);
      ChunkOfInputs(net, tokens, n, l, acts, start, chunkInputs);
      RowsKept(net, before, chunk, l);
      nextEncoder := if l == net.split then acts else encoder;
      outs, published :=
        ForwardLayer(layer, layers[l], layers[producer], chunk, chunkInputs, nextEncoder, shares, position,
                     tokens, inputs, EncoderAt(net, l, stage), stage.shares, LayerRaws(net, tokens, l),
                     LayerOwned(net, tokens, l), PackerOf(net, l + 1), OwnerBelow(net, l));
      nextKept := if l == net.backout then outs else kept;
      StageAbove(net, tokens, n, l, kept, outs, published, nextEncoder);
    }

    /** The layers below `l` have seen the chunk, the others have not. */
    ghost predicate Progress(net: Network, before: seq<int>, tokens: seq<int>, l: nat)
      requires WellFormed(net) && l <= |layers| == |net.layers|
      reads Repr()
    {
      && (forall m | 0 <= m < l :: LayerAt(net, tokens, m))
      && forall m | l <= m < |layers| :: LayerAt(net, before, m)
    }

    /** A layer's step leaves every other layer alone. */
    method StepUp(
        net: Network, l: nat, producer: nat, chunk: seq<int>, start: seq<Vec>, acts: seq<Vec>, kept: seq<Vec>,
        shares: seq<Share>, encoder: seq<Vec>, ghost before: seq<int>)
        returns (outs: seq<Vec>, nextKept: seq<Vec>, published: seq<Share>, nextEncoder: seq<Vec>)
      requires Fits(net, |before| + |chunk|) && producer <= l < |layers|
      requires position == |before|
      requires start == Start(net, before + chunk)[|before|..]
      requires Tail(After(net, before + chunk, l), |before|, acts, kept, shares, encoder)
      requires Progress(net, before, before + chunk, l)
      requires net.layers[l].role.Owner? ==> producer == l
      requires !net.layers[l].role.Owner? ==> Produced(net, before + chunk, l, producer)
      modifies Repr()
      ensures Progress(net, before, before + chunk, l + 1)
      ensures Produced(net, before + chunk, l + 1, producer)
      ensures Tail(After(net, before + chunk, l + 1), |before|, outs, nextKept, published, nextEncoder)
    {
      hide Start, After, Tail, Produced, LayerAt, LayerFits, Room, LayerCache.TailHolds;
      assert LayerAt(net, before, l);
      outs, nextKept, published, nextEncoder :=
        LayerStep(net, l, producer, chunk, start, acts, kept, shares, encoder, before);
    }

    /** Embeds and smears the chunk, and keeps the last unsmeared embedding for the next one. */
    method EmbedChunk(net: Network, chunk: seq<int>, ghost before: seq<int>) returns (start: seq<Vec>)
      requires WellFormed(net) && chunk != [] && previous == LastOf(Embeddings(net, before))
      modifies this`previous
      ensures start == Start(net, before + chunk)[|before|..]
      ensures previous == LastOf(Embeddings(net, before + chunk))
    {
      var activations := new Vec[|chunk|](i requires 0 <= i < |chunk| => net.embed(chunk[i]));
      assert activations[..] == Embeddings(net, chunk);
      hide Embeddings, Smeared, LastOf;
      EmbeddingsSplit(net, before, chunk);
      previous := SmearChunk(net.gate, net.width, activations, previous, Embeddings(net, before));
      start := activations[..];
    }

    /** Every layer in turn; readers use the entries of the last owner below them. */
    method Trunk(net: Network, chunk: seq<int>, start: seq<Vec>, ghost before: seq<int>)
        returns (acts: seq<Vec>, kept: seq<Vec>)
      requires Fits(net, |before| + |chunk|) && position == |before|
      requires start == Start(net, before + chunk)[|before|..]
      requires Progress(net, before, before + chunk, 0)
      modifies Repr()
      ensures Progress(net, before, before + chunk, |layers|)
      ensures acts == After(net, before + chunk, |layers|).acts[|before|..]
      ensures kept == After(net, before + chunk, |layers|).kept[|before|..]
    {
      hide Start, After, Progress, Tail, Produced, Room, LayerCache.TailHolds, PackerOf, WellFormed;
      ghost var tokens, n := before + chunk, |before|;
      acts, kept := start, start;
      var shares, encoder := seq(|chunk|, _ => NO_SHARE), start;
      var producer := 0;
      TrunkStart(net, tokens, n, start, shares);
      assert Produced(net, tokens, 0, 0) by {
        NothingProduced(net, tokens);
      }
      for l := 0 to |layers|
        invariant Tail(After(net, tokens, l), n, acts, kept, shares, encoder)
        invariant (l > 0 ==> producer < l) && (l == 0 ==> producer == 0)
        invariant Produced(net, tokens, l, producer)
        invariant Progress(net, before, tokens, l)
      {
        if net.layers[l].role.Owner? {
          producer := l;
        }
        acts, kept, shares, encoder := StepUp(net, l, producer, chunk, start, acts, kept, shares, encoder, before);
      }
      TailParts(After(net, tokens, |layers|), n, acts, kept, shares, encoder);
    }

    lemma NothingProduced(net: Network, tokens: seq<int>)
      requires WellFormed(net) && |layers| == |net.layers|
      ensures Produced(net, tokens, 0, 0)
    {
    }

    /** The cached forward pass. */
    method Forward(net: Network, chunk: seq<int>, ghost before: seq<int>) returns (outputs: seq<Vec>)
      requires Fits(net, |before| + |chunk|) && chunk != [] && Holds(net, before)
      modifies this, Repr()
      ensures Holds(net, before + chunk)
      ensures outputs == Outputs(net, before + chunk)[|before|..]
    {
      hide After, Start, Embeddings, LayerRaws, LayerOwned, Smeared, LayerAt, PackerOf;
      ghost var tokens, n := before + chunk, |before|;
      var start := EmbedChunk(net, chunk, before);
      var acts, kept := Trunk(net, chunk, start, before);
      outputs := [];
      for i := 0 to |chunk|
        invariant |outputs| == i
        invariant forall j | 0 <= j < i :: outputs[j] == net.output(acts[j], kept[j])
        modifies {}
      {
        outputs := outputs + [net.output(acts[i], kept[i])];
      }
      assert outputs == Outputs(net, tokens)[n..];
      position := position + |chunk|;
    }

    /** Moves the position; what lies past it stays behind, stale. */
    method SetPosition(target: nat)
      requires target <= capacity
      modifies this`position
      ensures position == target
    {
      position := target;
    }

    method SetPreviousEmbeddingForToken(net: Network, token: int)
      modifies this`previous
      ensures previous == Some(net.embed(token))
    {
      previous := Some(net.embed(token));
    }
  }

  lemma TailParts(
      stage: Stage, n: nat, acts: seq<Vec>, kept: seq<Vec>, shares: seq<Share>, encoder: seq<Vec>)
    requires Tail(stage, n, acts, kept, shares, encoder)
    ensures n <= |stage.acts| == |stage.kept| && acts == stage.acts[n..] && kept == stage.kept[n..]
  {
  }

  lemma TrunkStart(net: Network, tokens: seq<int>, n: nat, start: seq<Vec>, shares: seq<Share>)
    requires WellFormed(net) && n <= |tokens| && start == Start(net, tokens)[n..]
    requires shares == seq(|tokens| - n, _ => NO_SHARE)
    ensures Tail(After(net, tokens, 0), n, start, start, shares, start)
  {
    hide Start;
  }

  lemma LayerParts(net: Network, tokens: seq<int>, l: nat)
    requires WellFormed(net) && l < |net.layers|
    ensures LayerFits(net.layers[l]) && net.layers[l].packer.compressor.ratio == net.ratio
    ensures PackerOf(net, l + 1) == if net.layers[l].role.Owner? then net.layers[l].packer else PackerOf(net, l)
    ensures net.layers[l].role.Reader? ==> OwnerBelow(net, l)
    ensures var layer, stage := net.layers[l], After(net, tokens, l);
            && StageFits(PackerOf(net, l), stage, |tokens|)
            && |Start(net, tokens)| == |tokens|
            && |EncoderAt(net, l, stage)| == |tokens|
            && LayerRaws(net, tokens, l) == Raws(layer, tokens, LayerInputs(net, tokens, l))
            && LayerOwned(net, tokens, l)
               == (if layer.role.Owner? then Globals(layer, tokens, LayerInputs(net, tokens, l), EncoderAt(net, l, stage))
                   else stage.owned)
  {
    hide After, Start, Raws, Globals, LayerFits;
  }

  lemma ChunkOfInputs(
      net: Network, tokens: seq<int>, n: nat, l: nat, acts: seq<Vec>, start: seq<Vec>, chunkInputs: seq<Vec>)
    requires WellFormed(net) && l < |net.layers| && n <= |tokens|
    requires start == Start(net, tokens)[n..] && acts == After(net, tokens, l).acts[n..]
    requires |chunkInputs| == |tokens| - n
    requires forall j | 0 <= j < |chunkInputs| :: chunkInputs[j] == net.layers[l].combine(acts[j], start[j])
    ensures chunkInputs == LayerInputs(net, tokens, l)[n..]
  {
    hide After, Start;
  }

  /** The chunk's rows of the stage above a layer. */
  lemma StageAbove(
      net: Network, tokens: seq<int>, n: nat, l: nat, kept: seq<Vec>, outs: seq<Vec>, published: seq<Share>,
      encoder: seq<Vec>)
    requires WellFormed(net) && l < |net.layers| && n <= |tokens| && |outs| == |published| == |tokens| - n
    requires StageFits(PackerOf(net, l), After(net, tokens, l), |tokens|)
    requires kept == After(net, tokens, l).kept[n..]
    requires |EncoderAt(net, l, After(net, tokens, l))| == |tokens|
    requires encoder == EncoderAt(net, l, After(net, tokens, l))[n..]
    requires Answers(PackerOf(net, l + 1), net.layers[l], LayerInputs(net, tokens, l), LayerRaws(net, tokens, l),
                     LayerOwned(net, tokens, l), After(net, tokens, l).shares, n, outs, published)
    ensures Tail(After(net, tokens, l + 1), n, outs, if l == net.backout then outs else kept, published, encoder)
    ensures After(net, tokens, l + 1).owned == LayerOwned(net, tokens, l)
  {
    hide OutputRow, ShareRow, After, Start, Inputs, RawsAt, OwnedAt;
    AfterStep(net, tokens, l);
    var next := Step(net, tokens, Start(net, tokens), l, After(net, tokens, l));
    assert outs == next.acts[n..];
    assert published == next.shares[n..];
  }

  // ---------- whole runs ----------

  ghost function Joined(chunks: seq<seq<int>>): seq<int> {
    if chunks == [] then [] else Joined(chunks[..|chunks| - 1]) + chunks[|chunks| - 1]
  }

  lemma {:induction false} JoinedPrefix(chunks: seq<seq<int>>, n: nat)
    requires n <= |chunks|
    ensures |Joined(chunks[..n])| <= |Joined(chunks)|
  {
    if n < |chunks| {
      JoinedPrefix(chunks[..|chunks| - 1], n);
      assert chunks[..|chunks| - 1][..n] == chunks[..n];
    } else {
      assert chunks[..n] == chunks;
    }
  }

  /** Chunk invariance: whatever the chunks, the rows returned are those of one forward over the
      joined sequence, and so is the state left behind. */
  method FeedChunks(net: Network, chunks: seq<seq<int>>, capacity: nat, maxBlocks: nat)
      returns (cache: KVBuffer, outputs: seq<Vec>)
    requires WellFormed(net) && capacity / net.ratio <= maxBlocks
    requires forall c | 0 <= c < |chunks| :: chunks[c] != []
    requires |Joined(chunks)| <= capacity
    ensures |cache.layers| == |net.layers| && cache.Holds(net, Joined(chunks))
    ensures outputs == Outputs(net, Joined(chunks))
  {
    hide WellFormed, Outputs, KVBuffer.Holds, Room;
    RatioAtLeastOne(net);
    cache := new KVBuffer(net, capacity, maxBlocks);
    outputs := [];
    for c := 0 to |chunks|
      invariant cache.Fits(net, capacity) && fresh(cache) && fresh(cache.Repr())
      invariant cache.Holds(net, Joined(chunks[..c]))
      invariant outputs == Outputs(net, Joined(chunks[..c]))
    {
      ghost var before := Joined(chunks[..c]);
      assert chunks[..c + 1][..c] == chunks[..c];
      assert Joined(chunks[..c + 1]) == before + chunks[c];
      JoinedPrefix(chunks, c + 1);
      LessRoom(net, cache, capacity, |before| + |chunks[c]|);
      var rows := cache.Forward(net, chunks[c], before);
      OutputsPrefix(net, before + chunks[c], |before|);
      assert (before + chunks[c])[..|before|] == before;
      outputs := outputs + rows;
    }
    assert chunks[..|chunks|] == chunks;
  }

  lemma LessRoom(net: Network, cache: KVBuffer, capacity: nat, length: nat)
    requires length <= capacity && cache.Fits(net, capacity)
    ensures cache.Fits(net, length)
  {
    hide WellFormed;
    RatioAtLeastOne(net);
    QuotientMonotone(net.ratio, length, capacity);
  }

  // ---------- rewinding ----------

  /** No layer owns compressed entries. */
  ghost predicate Uncompressed(net: Network) {
    forall l | 0 <= l < |net.layers| :: net.layers[l].role.Bare?
  }

  /** With the position set back and the embedding of the last kept token, a cache without compressed
      entries stands for the kept tokens: the rows past them no longer matter. */
  lemma Rewound(net: Network, cache: KVBuffer, tokens: seq<int>, n: nat)
    requires WellFormed(net) && Uncompressed(net) && |cache.layers| == |net.layers| && 0 < n <= |tokens|
    requires forall l | 0 <= l < |net.layers| :: cache.LayerAt(net, tokens, l)
    requires cache.position == n <= cache.capacity && cache.previous == Some(net.embed(tokens[n - 1]))
    ensures cache.Holds(net, tokens[..n])
  {
    hide LayerRaws, LayerOwned, WellFormed;
    forall l | 0 <= l < |net.layers| ensures cache.LayerAt(net, tokens[..n], l) {
      assert cache.LayerAt(net, tokens, l);
      LayerPrefix(net, tokens, n, l);
    }
  }

  /** A compressed cache cannot be rewound: its counters name the one length it stands for. */
  lemma OwnerFixesLength(net: Network, cache: KVBuffer, tokens: seq<int>, n: nat, l: nat)
    requires WellFormed(net) && |cache.layers| == |net.layers| && n <= |tokens|
    requires l < |net.layers| && net.layers[l].role.Owner?
    requires cache.LayerAt(net, tokens, l) && cache.LayerAt(net, tokens[..n], l)
    ensures n == |tokens|
  {
    hide LayerRaws, LayerOwned, WellFormed, Entries;
    RatioAtLeastOne(net);
    var ratio := net.ratio;
    assert n == (n / ratio) * ratio + n % ratio;
    assert |tokens| == (|tokens| / ratio) * ratio + |tokens| % ratio;
  }
}
