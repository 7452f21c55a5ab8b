/** The program's ordinary decoding loop for one greedy row of an uncompressed network. */
module Generation {
  import opened ChunkedForward
  import opened Division
  import opened LayerCaches
  import opened Networks
  import opened Ordinary
  import opened Speculative
  import opened Wrappers
  import RowProtocol

  method CopyRows(from: array<Row>, to: array<Row>, count: nat)
    requires from != to && count <= from.Length && count <= to.Length
    modifies to
    ensures to[..count] == from[..count]
  {
    for i := 0 to count
      invariant to[..i] == from[..i]
    {
      to[i] := from[i];
    }
  }

  /** Copies the used rows, the position and the smear state into an empty cache. */
  method PrefillFrom(net: Network, destination: KVBuffer, source: KVBuffer, ghost tokens: seq<int>)
    requires Ready(net, source, tokens) && |tokens| <= destination.capacity
    requires destination.Fits(net, destination.capacity) && destination.position == 0
    requires {source} + source.Repr() !! {destination} + destination.Repr()
    modifies destination, destination.Repr()
    ensures Ready(net, destination, tokens)
  {
    hide Decodes, Uncompressed, WellFormed, LayerRaws, LayerOwned, Networks.Embeddings, Room;
    hide KVBuffer.LayerAt, Copied;
    PositionOf(net, source, tokens);
    CopyLayers(source, destination, source.position);
    LayersCopied(net, source, destination, tokens);
    destination.position := source.position;
    destination.previous := source.previous;
  }

  method CopyLayers(source: KVBuffer, destination: KVBuffer, count: nat)
    requires source.Apart() && destination.Apart() && source.Repr() !! destination.Repr()
    requires |source.layers| == |destination.layers|
    requires count <= source.capacity && count <= destination.capacity
    modifies destination.Repr()
    ensures forall m | 0 <= m < |source.layers| :: Copied(source, destination, m, count)
  {
    for l := 0 to |destination.layers|
      invariant forall m | 0 <= m < l :: Copied(source, destination, m, count)
    {
      RawInside(destination, l);
      CopyLayer(source, destination, l, count);
    }
  }

  lemma LayersCopied(net: Network, source: KVBuffer, destination: KVBuffer, tokens: seq<int>)
    requires Ready(net, source, tokens) && |source.layers| == |destination.layers| == |net.layers|
    requires forall m | 0 <= m < |source.layers| :: Copied(source, destination, m, |tokens|)
    ensures forall l | 0 <= l < |net.layers| :: destination.LayerAt(net, tokens, l)
  {
    hide Copied, KVBuffer.LayerAt, Decodes, Uncompressed;
    DecodesIsWell(net);
    forall l | 0 <= l < |net.layers| ensures destination.LayerAt(net, tokens, l) {
      assert source.LayerAt(net, tokens, l) && Copied(source, destination, l, |tokens|);
      CopiedHolds(net, source, destination, tokens, l);
    }
  }

  method CopyLayer(source: KVBuffer, destination: KVBuffer, l: nat, count: nat)
    requires source.Apart() && destination.Apart() && source.Repr() !! destination.Repr()
    requires l < |source.layers| == |destination.layers|
    requires count <= source.capacity && count <= destination.capacity
    requires forall m | 0 <= m < l :: Copied(source, destination, m, count)
    modifies destination.layers[l].raw
    ensures forall m | 0 <= m <= l :: Copied(source, destination, m, count)
  {
    RawInside(source, l);
    RawInside(destination, l);
    CopyRows(source.layers[l].raw, destination.layers[l].raw, count);
    forall m | 0 <= m < l ensures Copied(source, destination, m, count) {
      RawInside(source, m);
      RawInside(destination, m);
    }
  }

  lemma RawInside(cache: KVBuffer, l: nat)
    requires l < |cache.layers|
    ensures cache.layers[l].raw in cache.layers[l].Repr() && cache.layers[l].raw in cache.Repr()
  {
  }

  ghost predicate Copied(source: KVBuffer, destination: KVBuffer, l: nat, count: nat)
    reads source.Repr(), destination.Repr()
  {
    && l < |source.layers| && l < |destination.layers|
    && (assert source.layers[l].Repr() <= source.Repr(); count <= source.layers[l].raw.Length)
    && (assert destination.layers[l].Repr() <= destination.Repr(); count <= destination.layers[l].raw.Length)
    && destination.layers[l].raw[..count] == source.layers[l].raw[..count]
  }

  lemma CopiedHolds(net: Network, source: KVBuffer, destination: KVBuffer, tokens: seq<int>, l: nat)
    requires WellFormed(net) && Uncompressed(net) && |source.layers| == |destination.layers| == |net.layers|
    requires l < |net.layers| && source.LayerAt(net, tokens, l) && Copied(source, destination, l, |tokens|)
    ensures destination.LayerAt(net, tokens, l)
  {
    hide LayerRaws, LayerOwned, WellFormed;
    BareAt(net, l);
  }

  lemma BareAt(net: Network, l: nat)
    requires Uncompressed(net) && l < |net.layers|
    ensures net.layers[l].role.Bare?
  {
  }

  lemma AfterTokens(config: RowProtocol.Config, row: RowProtocol.Row, sampled: int)
    ensures RowProtocol.After(config, row, sampled).tokens == row.tokens + [RowProtocol.Next(row, sampled).token]
  {
    hide RowProtocol.Output;
  }

  lemma ChooserIs(net: Network, tokens: seq<int>)
    requires Decodes(net) && tokens != []
    ensures GreedyOf(net)(tokens) == Greedy(net, tokens)
  {
    hide Greedy, Decodes;
  }

  /** Replicates the prompt's prefill into a cache with room for the limit, then decodes column by
      column until the row is done, the limit is reached, the consumer has enough, or the next token
      has nowhere to go. */
  method OrdinaryGenerate(
      net: Network, config: RowProtocol.Config, contextLength: nat, prompt: seq<int>, maxTokens: int,
      consumer: seq<RowProtocol.Event> -> bool)
      returns (columns: seq<RowProtocol.Event>, crashed: bool)
    requires Decodes(net) && Uncompressed(net)
    ensures IsRun(Engine(config, GreedyOf(net), contextLength), prompt, maxTokens, consumer, columns, crashed)
  {
    hide Decodes, Uncompressed, Ready, Greedy, ScoresAfter, RowProtocol.After, RowProtocol.Next, WellFormed;
    hide Running, IsRun, GreedyOf;
    columns, crashed := [], false;
    ghost var engine := Engine(config, GreedyOf(net), contextLength);
    if prompt == [] || |prompt| > contextLength {
      Refused(engine, prompt, maxTokens, consumer);
      crashed := true;
      return;
    }
    var cache, lastLogits := DecodeCache(net, prompt, maxTokens);
    var state := new RowProtocol.RowState(config, prompt);
    NothingYet(engine, prompt, maxTokens, consumer);
    while maxTokens <= 0 || |columns| < maxTokens
      invariant maxTokens > 0 ==> |columns| <= maxTokens
      invariant fresh(cache) && fresh(cache.Repr()) && fresh(state) && state !in {cache as object} + cache.Repr()
      invariant cache.capacity == Capacity(|prompt|, maxTokens)
      invariant |state.currentTokens| == |prompt| + |columns| <= cache.capacity
      invariant Ready(net, cache, state.currentTokens) && lastLogits == ScoresAfter(net, state.currentTokens)
      invariant state.Value() == RowAt(engine, prompt, |columns|)
      invariant Running(engine, prompt, maxTokens, consumer, columns)
      decreases cache.capacity + 1 - |columns|
    {
      if state.completed {
        RunningDone(engine, prompt, maxTokens, consumer, columns);
        return;
      }
      ghost var tokens := state.currentTokens;
      var sampled := ArgmaxSlice(lastLogits);
      GreedyIs(net, tokens, sampled);
      ChooserIs(net, tokens);
      AfterTokens(config, state.Value(), sampled);
      var event := state.Step(config, sampled);
      assert state.Value().tokens == tokens + [event.token];
      RunningColumn(engine, prompt, maxTokens, consumer, columns, event);
      columns := columns + [event];
      if !consumer(columns) {
        return;
      }
      if Overruns(contextLength, |prompt|, maxTokens, |prompt| + |columns| - 1) {
        crashed := true;
        return;
      }
      lastLogits := Feed(net, cache, event.token, tokens);
    }
    RunningDone(engine, prompt, maxTokens, consumer, columns);
  }

  lemma Refused(engine: Engine, prompt: seq<int>, maxTokens: int, consumer: seq<RowProtocol.Event> -> bool)
    requires !Accepted(engine, prompt)
    ensures IsRun(engine, prompt, maxTokens, consumer, [], true)
  {
  }

  /** The prompt's prefill, in a cache with room for the limit. */
  method DecodeCache(net: Network, prompt: seq<int>, maxTokens: int) returns (cache: KVBuffer, lastLogits: seq<real>)
    requires Decodes(net) && Uncompressed(net) && prompt != []
    ensures fresh(cache) && fresh(cache.Repr()) && cache.capacity == Capacity(|prompt|, maxTokens)
    ensures Ready(net, cache, prompt) && lastLogits == ScoresAfter(net, prompt)
  {
    hide WellFormed, Uncompressed, ScoresAfter, KVBuffer.Holds, Room;
    var prefillCache;
    prefillCache, lastLogits := Prefill(net, |prompt|, prompt);
    RatioAtLeastOne(net);
    var capacity := Capacity(|prompt|, maxTokens);
    QuotientAtMost(net.ratio, capacity);
    cache := new KVBuffer(net, capacity, capacity);
    EmptyPosition(net, cache);
    PrefillFrom(net, cache, prefillCache, prompt);
  }

  lemma EmptyPosition(net: Network, cache: KVBuffer)
    requires WellFormed(net) && |cache.layers| == |net.layers| && cache.Holds(net, [])
    ensures cache.position == 0
  {
  }

  /** Feeds one token and returns the scores after it. */
  method Feed(net: Network, cache: KVBuffer, token: int, ghost tokens: seq<int>) returns (logits: seq<real>)
    requires Ready(net, cache, tokens) && |tokens| < cache.capacity
    modifies cache, cache.Repr()
    ensures Ready(net, cache, tokens + [token]) && logits == ScoresAfter(net, tokens + [token])
  {
    hide WellFormed, Uncompressed, ScoresAfter, KVBuffer.Holds, Room;
    var rows := ScoreRows(net, cache, [token], tokens);
    logits := rows[0];
    assert [token][..1] == [token];
  }
}
