/** What a transformer computes for a whole sequence, row by row, and the proof that a row depends
    on nothing after it. */
module Networks {
  import opened Division
  import opened LayerCaches
  import opened Sequences
  import opened Smear
  import opened Vectors
  import opened Wrappers

  /** Which compressed entries a layer works with: none, its own, or those of the last owner below. */
  datatype Role = Bare | Owner | Reader

  /** What the layers of a group hand on about one position, per head: the selected entries and the
      candidate pool. */
  datatype Share = Share(selection: seq<seq<nat>>, pool: seq<seq<nat>>)

  const NO_SHARE := Share([], [])

  /** One block of the trunk. `packer` turns an owner's rows into entries; `window` is the reach of the
      raw rows, absent without a local branch; `encode` makes the rows a decoder's owner layer compresses
      from the encoder's output. The arithmetic of a row is opaque: what it may read is what matters. */
  datatype Layer = Layer(
    role: Role,
    packer: Packer,
    window: Option<nat>,
    combine: (Vec, Vec) -> Vec,
    project: (int, nat, Vec) -> Row,
    encode: Option<(nat, Vec) -> Row>,
    publish: (Vec, nat, seq<Entry>, Share) -> Share,
    attend: (Vec, nat, seq<Entry>, Share, seq<Row>) -> Vec,
    finish: (Vec, Vec) -> Vec)

  /** `ratio` is how many rows make an entry; `split` is the first decoder layer, if there is one. */
  datatype Network = Network(
    ratio: nat,
    width: nat,
    embed: int -> Vec,
    gate: Vec -> real,
    layers: seq<Layer>,
    split: nat,
    backout: nat,
    output: (Vec, Vec) -> Vec)

  ghost predicate LayerFits(layer: Layer) {
    && (forall token, position, input :: ProjectFits(layer, token, position, input))
    && forall position, input :: EncodeFits(layer, position, input)
  }

  ghost predicate ProjectFits(layer: Layer, token: int, position: nat, input: Vec) {
    RowFits(layer.packer, layer.project(token, position, input))
  }

  ghost predicate EncodeFits(layer: Layer, position: nat, input: Vec) {
    layer.encode.Some? ==> RowFits(layer.packer, (layer.encode.value)(position, input))
  }

  ghost predicate EmbedFits(net: Network, token: int) {
    |net.embed(token)| == net.width
  }

  /** Some layer below `l` owns entries. */
  ghost predicate OwnerBelow(net: Network, l: nat)
    requires l <= |net.layers|
  {
    exists k :: 0 <= k < l && net.layers[k].role.Owner?
  }

  ghost predicate WellFormed(net: Network) {
    && net.ratio > 0 && (forall l | 0 <= l < |net.layers| :: net.layers[l].packer.compressor.ratio == net.ratio)
    && (forall token :: EmbedFits(net, token))
    && net.backout < |net.layers|
    && (forall l | 0 <= l < |net.layers| :: LayerFits(net.layers[l]))
    && (forall l | 0 <= l < |net.layers| && net.layers[l].role.Reader? :: OwnerBelow(net, l))
    && forall l | 0 <= l < |net.layers| && net.layers[l].encode.Some? :: net.split <= l
  }

  ghost function Embeddings(net: Network, tokens: seq<int>): (rows: seq<Vec>)
    requires WellFormed(net)
    ensures |rows| == |tokens| && Wide(rows, net.width)
    ensures forall i | 0 <= i < |tokens| :: rows[i] == net.embed(tokens[i])
  {
    var rows := seq(|tokens|, i requires 0 <= i < |tokens| => net.embed(tokens[i]));
    assert forall i | 0 <= i < |tokens| :: EmbedFits(net, tokens[i]) && rows[i] == net.embed(tokens[i]);
    rows
  }

  ghost function Start(net: Network, tokens: seq<int>): (rows: seq<Vec>)
    requires WellFormed(net)
    ensures |rows| == |tokens|
  {
    Smeared(net.gate, Embeddings(net, tokens), net.width)
  }

  // ---------- one layer over a whole sequence ----------

  ghost function Inputs(layer: Layer, acts: seq<Vec>, start: seq<Vec>): (inputs: seq<Vec>)
    requires |acts| == |start|
    ensures |inputs| == |acts|
    ensures forall p | 0 <= p < |acts| :: inputs[p] == layer.combine(acts[p], start[p])
  {
    seq(|acts|, p requires 0 <= p < |acts| => layer.combine(acts[p], start[p]))
  }

  /** The keys and values of the layer's own inputs. */
  ghost function Raws(layer: Layer, tokens: seq<int>, inputs: seq<Vec>): (rows: seq<Row>)
    requires layer.packer.compressor.ratio > 0 && LayerFits(layer) && |tokens| == |inputs|
    ensures |rows| == |tokens| && RowsFit(layer.packer, rows)
    ensures forall p | 0 <= p < |tokens| :: rows[p] == layer.project(tokens[p], p, inputs[p])
  {
    var rows := seq(|tokens|, p requires 0 <= p < |tokens| => layer.project(tokens[p], p, inputs[p]));
    assert forall p | 0 <= p < |tokens| ::
        ProjectFits(layer, tokens[p], p, inputs[p]) && rows[p] == layer.project(tokens[p], p, inputs[p]);
    rows
  }

  function GlobalRow(layer: Layer, token: int, position: nat, input: Vec, encoder: Vec): Row {
    if layer.encode.Some? then (layer.encode.value)(position, encoder) else layer.project(token, position, input)
  }

  /** The rows an owner layer compresses. */
  ghost function Globals(layer: Layer, tokens: seq<int>, inputs: seq<Vec>, encoder: seq<Vec>): (rows: seq<Row>)
    requires layer.packer.compressor.ratio > 0 && LayerFits(layer) && |tokens| == |inputs| == |encoder|
    ensures |rows| == |tokens| && RowsFit(layer.packer, rows)
    ensures forall p | 0 <= p < |tokens| :: rows[p] == GlobalRow(layer, tokens[p], p, inputs[p], encoder[p])
  {
    var rows := seq(|tokens|, p requires 0 <= p < |tokens| => GlobalRow(layer, tokens[p], p, inputs[p], encoder[p]));
    assert forall p | 0 <= p < |tokens| ::
        && ProjectFits(layer, tokens[p], p, inputs[p]) && EncodeFits(layer, p, encoder[p])
        && rows[p] == GlobalRow(layer, tokens[p], p, inputs[p], encoder[p]);
    rows
  }

  /** The raw rows the query at `p` sees: its window and itself. */
  ghost function Local(window: Option<nat>, rows: seq<Row>, p: nat): seq<Row>
    requires p < |rows|
  {
    if window.None? then [] else rows[if p < window.value then 0 else p - window.value..p + 1]
  }

  /** The entries the query at `p` sees: those of the blocks that end at or before its own block. */
  ghost function Visible(packer: Packer, owned: seq<Row>, p: nat): seq<Entry>
    requires RowsFit(packer, owned) && p < |owned|
  {
    QuotientMonotone(packer.compressor.ratio, p, |owned|);
    Entries(packer, owned)[..p / packer.compressor.ratio]
  }

  ghost function Seen(packer: Packer, layer: Layer, owned: seq<Row>, p: nat): seq<Entry>
    requires RowsFit(packer, owned) && p < |owned|
  {
    if layer.role.Bare? then [] else Visible(packer, owned, p)
  }

  ghost function ShareRow(
      packer: Packer, layer: Layer, inputs: seq<Vec>, owned: seq<Row>, shares: seq<Share>, p: nat): Share
    requires RowsFit(packer, owned) && p < |inputs| == |owned| == |shares|
  {
    layer.publish(inputs[p], p, Seen(packer, layer, owned, p), shares[p])
  }

  ghost function OutputRow(
      packer: Packer, layer: Layer, inputs: seq<Vec>, raws: seq<Row>, owned: seq<Row>, shares: seq<Share>, p: nat): Vec
    requires RowsFit(packer, owned) && p < |inputs| == |raws| == |owned| == |shares|
  {
    layer.finish(inputs[p], layer.attend(inputs[p], p, Seen(packer, layer, owned, p),
                                         ShareRow(packer, layer, inputs, owned, shares, p),
                                         Local(layer.window, raws, p)))
  }

  /** What flows upwards between layers: activations, the last owner's rows, the backout rows, what
      the group shares, and the encoder's output. */
  datatype Stage = Stage(acts: seq<Vec>, owned: seq<Row>, kept: seq<Vec>, shares: seq<Share>, encoder: seq<Vec>)

  ghost predicate StageFits(packer: Packer, stage: Stage, n: nat) {
    && |stage.acts| == |stage.owned| == |stage.kept| == |stage.shares| == |stage.encoder| == n
    && RowsFit(packer, stage.owned)
  }

  /** Stands in for the rows of an owner before there is one. */
  function Blank(packer: Packer): Row {
    var zero := seq(packer.compressor.channels, _ => 0.0);
    Row([], seq(packer.heads, _ => zero), seq(packer.heads, _ => zero))
  }

  /** How the last owner among the first `l` layers packs its rows; a stand-in before there is one. */
  ghost function PackerOf(net: Network, l: nat): (packer: Packer)
    requires WellFormed(net) && l <= |net.layers|
    ensures packer.compressor.ratio == net.ratio
  {
    if l == 0 then net.layers[0].packer
    else if net.layers[l - 1].role.Owner? then net.layers[l - 1].packer
    else PackerOf(net, l - 1)
  }

  ghost function Bottom(net: Network, start: seq<Vec>): (stage: Stage)
    requires WellFormed(net)
    ensures StageFits(PackerOf(net, 0), stage, |start|)
  {
    Stage(start, seq(|start|, _ => Blank(PackerOf(net, 0))), start, seq(|start|, _ => NO_SHARE), start)
  }

  ghost function EncoderAt(net: Network, l: nat, stage: Stage): seq<Vec> {
    if l == net.split then stage.acts else stage.encoder
  }

  /** The rows whose entries layer `l` reads. */
  ghost function OwnedAt(net: Network, tokens: seq<int>, start: seq<Vec>, l: nat, stage: Stage): (rows: seq<Row>)
    requires WellFormed(net) && l < |net.layers| && |start| == |tokens| && StageFits(PackerOf(net, l), stage, |tokens|)
    ensures |rows| == |tokens| && RowsFit(PackerOf(net, l + 1), rows)
  {
    var layer := net.layers[l];
    if layer.role.Owner? then Globals(layer, tokens, Inputs(layer, stage.acts, start), EncoderAt(net, l, stage))
    else stage.owned
  }

  ghost function RawsAt(net: Network, tokens: seq<int>, start: seq<Vec>, l: nat, stage: Stage): (rows: seq<Row>)
    requires WellFormed(net) && l < |net.layers| && |start| == |tokens| && StageFits(PackerOf(net, l), stage, |tokens|)
    ensures |rows| == |tokens| && RowsFit(net.layers[l].packer, rows)
  {
    Raws(net.layers[l], tokens, Inputs(net.layers[l], stage.acts, start))
  }

  /** One layer on top of the stage. */
  ghost function Step(net: Network, tokens: seq<int>, start: seq<Vec>, l: nat, stage: Stage): (next: Stage)
    requires WellFormed(net) && l < |net.layers| && |start| == |tokens| && StageFits(PackerOf(net, l), stage, |tokens|)
    ensures StageFits(PackerOf(net, l + 1), next, |tokens|)
  {
    var layer, packer, n := net.layers[l], PackerOf(net, l + 1), |tokens|;
    var inputs := Inputs(layer, stage.acts, start);
    var raws, owned := RawsAt(net, tokens, start, l, stage), OwnedAt(net, tokens, start, l, stage);
    var acts := seq(n, p requires 0 <= p < n => OutputRow(packer, layer, inputs, raws, owned, stage.shares, p));
    Stage(acts, owned, if l == net.backout then acts else stage.kept,
          seq(n, p requires 0 <= p < n => ShareRow(packer, layer, inputs, owned, stage.shares, p)),
          EncoderAt(net, l, stage))
  }

  /** The state above the first `l` layers. */
  ghost function After(net: Network, tokens: seq<int>, l: nat): (stage: Stage)
    requires WellFormed(net) && l <= |net.layers|
    ensures StageFits(PackerOf(net, l), stage, |tokens|)
  {
    hide WellFormed, PackerOf, StageFits, Start, Step, Bottom;
    if l == 0 then Bottom(net, Start(net, tokens))
    else Step(net, tokens, Start(net, tokens), l - 1, After(net, tokens, l - 1))
  }

  ghost function LayerInputs(net: Network, tokens: seq<int>, l: nat): (inputs: seq<Vec>)
    requires WellFormed(net) && l < |net.layers|
    ensures |inputs| == |tokens|
  {
    Inputs(net.layers[l], After(net, tokens, l).acts, Start(net, tokens))
  }

  ghost function LayerRaws(net: Network, tokens: seq<int>, l: nat): (rows: seq<Row>)
    requires WellFormed(net) && l < |net.layers|
    ensures |rows| == |tokens| && RowsFit(net.layers[l].packer, rows)
  {
    RawsAt(net, tokens, Start(net, tokens), l, After(net, tokens, l))
  }

  ghost function LayerOwned(net: Network, tokens: seq<int>, l: nat): (rows: seq<Row>)
    requires WellFormed(net) && l < |net.layers|
    ensures |rows| == |tokens| && RowsFit(PackerOf(net, l + 1), rows)
  {
    OwnedAt(net, tokens, Start(net, tokens), l, After(net, tokens, l))
  }

  ghost function Outputs(net: Network, tokens: seq<int>): (rows: seq<Vec>)
    requires WellFormed(net)
    ensures |rows| == |tokens|
  {
    var top := After(net, tokens, |net.layers|);
    seq(|tokens|, p requires 0 <= p < |tokens| => net.output(top.acts[p], top.kept[p]))
  }

  // ---------- causality ----------

  lemma StartPrefix(net: Network, tokens: seq<int>, n: nat)
    requires WellFormed(net) && n <= |tokens|
    ensures Start(net, tokens[..n]) == Start(net, tokens)[..n]
  {
    assert Embeddings(net, tokens[..n]) == Embeddings(net, tokens)[..n];
    SmearedPrefix(net.gate, Embeddings(net, tokens), net.width, n);
  }

  /** The stage of the first `n` positions. */
  ghost function Cut(stage: Stage, n: nat): Stage
    requires n <= |stage.acts| == |stage.owned| == |stage.kept| == |stage.shares| == |stage.encoder|
  {
    Stage(stage.acts[..n], stage.owned[..n], stage.kept[..n], stage.shares[..n], stage.encoder[..n])
  }

  lemma SeenPrefix(packer: Packer, layer: Layer, owned: seq<Row>, n: nat, p: nat)
    requires p < n <= |owned| && RowsFit(packer, owned) && RowsFit(packer, owned[..n])
    ensures Seen(packer, layer, owned[..n], p) == Seen(packer, layer, owned, p)
  {
    hide Entries;
    EntriesPrefix(packer, owned, n);
    QuotientMonotone(packer.compressor.ratio, p, n);
    QuotientMonotone(packer.compressor.ratio, p, |owned|);
    assert Visible(packer, owned[..n], p) == Visible(packer, owned, p);
  }

  lemma RowsPrefix(
      packer: Packer, layer: Layer, inputs: seq<Vec>, raws: seq<Row>, owned: seq<Row>, shares: seq<Share>, n: nat, p: nat)
    requires p < n <= |inputs| == |raws| == |owned| == |shares|
    requires RowsFit(packer, owned) && RowsFit(packer, owned[..n])
    ensures ShareRow(packer, layer, inputs[..n], owned[..n], shares[..n], p)
            == ShareRow(packer, layer, inputs, owned, shares, p)
    ensures OutputRow(packer, layer, inputs[..n], raws[..n], owned[..n], shares[..n], p)
            == OutputRow(packer, layer, inputs, raws, owned, shares, p)
  {
    hide Seen, RowsFit;
    SeenPrefix(packer, layer, owned, n, p);
    if layer.window.Some? {
      SliceOfTake(raws, n, if p < layer.window.value then 0 else p - layer.window.value, p + 1);
    }
  }

  lemma CutFits(packer: Packer, stage: Stage, n: nat)
    requires n <= |stage.acts| && StageFits(packer, stage, |stage.acts|)
    ensures StageFits(packer, Cut(stage, n), n)
  {
  }

  /** The rows of a layer up to `n` are the same whether or not anything follows them. */
  lemma LayerRowsPrefix(net: Network, tokens: seq<int>, start: seq<Vec>, l: nat, stage: Stage, n: nat)
    requires WellFormed(net) && l < |net.layers| && n <= |tokens| == |start|
    requires StageFits(PackerOf(net, l), stage, |tokens|) && StageFits(PackerOf(net, l), Cut(stage, n), n)
    ensures Inputs(net.layers[l], stage.acts[..n], start[..n]) == Inputs(net.layers[l], stage.acts, start)[..n]
    ensures RawsAt(net, tokens[..n], start[..n], l, Cut(stage, n)) == RawsAt(net, tokens, start, l, stage)[..n]
    ensures OwnedAt(net, tokens[..n], start[..n], l, Cut(stage, n)) == OwnedAt(net, tokens, start, l, stage)[..n]
  {
    hide WellFormed, RowsFit;
    assert Inputs(net.layers[l], stage.acts[..n], start[..n]) == Inputs(net.layers[l], stage.acts, start)[..n];
  }

  lemma StepPrefix(net: Network, tokens: seq<int>, start: seq<Vec>, l: nat, stage: Stage, n: nat)
    requires WellFormed(net) && l < |net.layers| && n <= |tokens| == |start|
    requires StageFits(PackerOf(net, l), stage, |tokens|) && StageFits(PackerOf(net, l), Cut(stage, n), n)
    ensures Step(net, tokens[..n], start[..n], l, Cut(stage, n)) == Cut(Step(net, tokens, start, l, stage), n)
  {
    hide WellFormed, RowsFit, RawsAt, OwnedAt, OutputRow, ShareRow;
    LayerRowsPrefix(net, tokens, start, l, stage, n);
    var inputs := Inputs(net.layers[l], stage.acts, start);
    var raws, owned := RawsAt(net, tokens, start, l, stage), OwnedAt(net, tokens, start, l, stage);
    var shorter, longer := Step(net, tokens[..n], start[..n], l, Cut(stage, n)), Step(net, tokens, start, l, stage);
    forall p | 0 <= p < n ensures shorter.acts[p] == longer.acts[p] && shorter.shares[p] == longer.shares[p] {
      RowsPrefix(PackerOf(net, l + 1), net.layers[l], inputs, raws, owned, stage.shares, n, p);
    }
    assert shorter.acts == longer.acts[..n] && shorter.shares == longer.shares[..n];
    assert shorter.owned == longer.owned[..n];
  }

  /** Everything a layer hands on about the first `n` positions is a function of their tokens. */
  lemma {:induction false} AfterPrefix(net: Network, tokens: seq<int>, n: nat, l: nat)
    requires WellFormed(net) && l <= |net.layers| && n <= |tokens|
    ensures After(net, tokens[..n], l) == Cut(After(net, tokens, l), n)
  {
    hide Step, Start, WellFormed, StageFits;
    StartPrefix(net, tokens, n);
    if l == 0 {
      BottomPrefix(net, Start(net, tokens), n);
    } else {
      AfterPrefix(net, tokens, n, l - 1);
      AfterStep(net, tokens, l - 1);
      AfterStep(net, tokens[..n], l - 1);
      CutAfter(net, tokens, l - 1, n);
      StepPrefix(net, tokens, Start(net, tokens), l - 1, After(net, tokens, l - 1), n);
    }
  }

  lemma BottomPrefix(net: Network, start: seq<Vec>, n: nat)
    requires WellFormed(net) && n <= |start|
    ensures Bottom(net, start[..n]) == Cut(Bottom(net, start), n)
  {
  }

  lemma AfterStep(net: Network, tokens: seq<int>, l: nat)
    requires WellFormed(net) && l < |net.layers|
    ensures StageFits(PackerOf(net, l), After(net, tokens, l), |tokens|) && |Start(net, tokens)| == |tokens|
    ensures After(net, tokens, l + 1) == Step(net, tokens, Start(net, tokens), l, After(net, tokens, l))
  {
  }

  lemma CutAfter(net: Network, tokens: seq<int>, l: nat, n: nat)
    requires WellFormed(net) && l <= |net.layers| && n <= |tokens|
    ensures StageFits(PackerOf(net, l), After(net, tokens, l), |tokens|)
    ensures StageFits(PackerOf(net, l), Cut(After(net, tokens, l), n), n)
  {
    CutFits(PackerOf(net, l), After(net, tokens, l), n);
  }

  lemma LayerPrefix(net: Network, tokens: seq<int>, n: nat, l: nat)
    requires WellFormed(net) && l < |net.layers| && n <= |tokens|
    ensures LayerInputs(net, tokens[..n], l) == LayerInputs(net, tokens, l)[..n]
    ensures LayerRaws(net, tokens[..n], l) == LayerRaws(net, tokens, l)[..n]
    ensures LayerOwned(net, tokens[..n], l) == LayerOwned(net, tokens, l)[..n]
  {
    hide After, Start, WellFormed, StageFits, RawsAt, OwnedAt;
    StartPrefix(net, tokens, n);
    AfterPrefix(net, tokens, n, l);
    CutAfter(net, tokens, l, n);
    LayerRowsPrefix(net, tokens, Start(net, tokens), l, After(net, tokens, l), n);
  }

  /** Causality: an output row is a function of the tokens up to it. */
  lemma OutputsPrefix(net: Network, tokens: seq<int>, n: nat)
    requires WellFormed(net) && n <= |tokens|
    ensures Outputs(net, tokens[..n]) == Outputs(net, tokens)[..n]
  {
    hide After;
    AfterPrefix(net, tokens, n, |net.layers|);
  }
}
