/** What a row of the network reads, written out: its window of raw rows, the entries before its
    block, and the layers above which rows are kept, owned or encoded. */
module Reach {
  import opened Division
  import opened LayerCaches
  import opened Networks
  import opened Vectors
  import opened Wrappers

  /** The row at `p` and up to `window` rows before it. */
  ghost predicate InWindow(window: Option<nat>, rows: seq<Row>, p: nat, local: seq<Row>) {
    match window
    case None => local == []
    case Some(width) =>
      && p < |rows|
      && |local| == (if p < width then p else width) + 1
      && forall i | 0 <= i < |local| :: local[i] == rows[p + 1 - |local| + i]
  }

  /** The entries of the `p / ratio` blocks that end at or before the start of `p`'s own block. */
  ghost predicate InReach(packer: Packer, layer: Layer, owned: seq<Row>, p: nat, visible: seq<Entry>)
    requires RowsFit(packer, owned)
  {
    if layer.role.Bare? then visible == []
    else
      && |visible| == p / packer.compressor.ratio <= |owned| / packer.compressor.ratio
      && forall b | 0 <= b < |visible| :: visible[b] == Packed(packer, BlockRows(packer, owned, b))
  }

  /** What a layer makes of one position. */
  lemma RowReads(
      packer: Packer, layer: Layer, inputs: seq<Vec>, raws: seq<Row>, owned: seq<Row>, shares: seq<Share>, p: nat,
      visible: seq<Entry>, local: seq<Row>)
    requires RowsFit(packer, owned) && p < |inputs| == |raws| == |owned| == |shares|
    requires InReach(packer, layer, owned, p, visible) && InWindow(layer.window, raws, p, local)
    ensures ShareRow(packer, layer, inputs, owned, shares, p) == layer.publish(inputs[p], p, visible, shares[p])
    ensures OutputRow(packer, layer, inputs, raws, owned, shares, p)
            == layer.finish(inputs[p], layer.attend(inputs[p], p, visible,
                                                    layer.publish(inputs[p], p, visible, shares[p]), local))
  {
    hide Packed, BlockRows, RowFits;
    QuotientMonotone(packer.compressor.ratio, p, |owned|);
    assert visible == Seen(packer, layer, owned, p);
    assert local == Local(layer.window, raws, p);
  }

  /** A raw row before `p - window`, or behind `p`, changes nothing about row `p`. */
  lemma OutsideWindow(
      packer: Packer, layer: Layer, inputs: seq<Vec>, raws: seq<Row>, others: seq<Row>, owned: seq<Row>,
      shares: seq<Share>, p: nat)
    requires RowsFit(packer, owned) && p < |inputs| == |raws| == |others| == |owned| == |shares|
    requires layer.window.Some? ==>
               forall q | 0 <= q <= p && p <= q + layer.window.value :: raws[q] == others[q]
    ensures OutputRow(packer, layer, inputs, raws, owned, shares, p)
            == OutputRow(packer, layer, inputs, others, owned, shares, p)
  {
    hide RowsFit, Seen, ShareRow;
    assert Local(layer.window, raws, p) == Local(layer.window, others, p);
  }

  /** Each raw row of the window reaches `attend`: for some attention arithmetic, another row there
      changes row `p`. */
  lemma InsideWindow(
      packer: Packer, layer: Layer, inputs: seq<Vec>, raws: seq<Row>, others: seq<Row>, owned: seq<Row>,
      shares: seq<Share>, p: nat, q: nat)
      returns (other: Layer)
    requires RowsFit(packer, owned) && p < |inputs| == |raws| == |others| == |owned| == |shares|
    requires layer.window.Some? && q <= p <= q + layer.window.value && raws[q] != others[q]
    ensures other == layer.(attend := other.attend, finish := other.finish)
    ensures OutputRow(packer, other, inputs, raws, owned, shares, p)
            != OutputRow(packer, other, inputs, others, owned, shares, p)
  {
    hide RowsFit, Seen, ShareRow;
    var local := Local(layer.window, raws, p);
    other := layer.(
      attend := (input: Vec, position: nat, visible: seq<Entry>, share: Share, rows: seq<Row>) =>
        if rows == local then [1.0] else [],
      finish := (input: Vec, attended: Vec) => attended);
    var i := q - (p + 1 - |local|);
    assert local[i] == raws[q] && Local(layer.window, others, p)[i] == others[q];
  }

  // ---------- the whole trunk ----------

  /** Row `p` above layer `l`, from the layer's own inputs, the raw rows of its window, the entries of
      the last owner's rows and what the group published. */
  lemma LayerReads(
      net: Network, tokens: seq<int>, l: nat, p: nat, visible: seq<Entry>, local: seq<Row>, published: Share)
    requires WellFormed(net) && l < |net.layers| && p < |tokens|
    requires InReach(PackerOf(net, l + 1), net.layers[l], LayerOwned(net, tokens, l), p, visible)
    requires InWindow(net.layers[l].window, LayerRaws(net, tokens, l), p, local)
    requires published == net.layers[l].publish(LayerInputs(net, tokens, l)[p], p, visible, After(net, tokens, l).shares[p])
    ensures After(net, tokens, l + 1).shares[p] == published
    ensures After(net, tokens, l + 1).acts[p]
            == net.layers[l].finish(LayerInputs(net, tokens, l)[p],
                                    net.layers[l].attend(LayerInputs(net, tokens, l)[p], p, visible, published, local))
  {
    hide WellFormed, After, Start, Inputs, RawsAt, OwnedAt, OutputRow, ShareRow, InReach, InWindow;
    AfterStep(net, tokens, l);
    RowReads(PackerOf(net, l + 1), net.layers[l], LayerInputs(net, tokens, l), LayerRaws(net, tokens, l),
             LayerOwned(net, tokens, l), After(net, tokens, l).shares, p, visible, local);
  }

  /** Row `p`'s own input and raw row. */
  lemma RawReads(net: Network, tokens: seq<int>, l: nat, p: nat)
    requires WellFormed(net) && l < |net.layers| && p < |tokens|
    ensures LayerInputs(net, tokens, l)[p] == net.layers[l].combine(After(net, tokens, l).acts[p], Start(net, tokens)[p])
    ensures LayerRaws(net, tokens, l)[p] == net.layers[l].project(tokens[p], p, LayerInputs(net, tokens, l)[p])
  {
    hide WellFormed, After, Start;
  }

  /** Above the backout layer the kept rows are that layer's output. */
  lemma {:induction false} KeptReads(net: Network, tokens: seq<int>, l: nat)
    requires WellFormed(net) && net.backout < l <= |net.layers|
    ensures After(net, tokens, l).kept == After(net, tokens, net.backout + 1).acts
  {
    hide After, Start, RawsAt, OwnedAt, OutputRow, ShareRow;
    AfterStep(net, tokens, l - 1);
    if l > net.backout + 1 {
      KeptReads(net, tokens, l - 1);
    }
  }

  /** From the split on, the encoder's rows are what the layers below it put out. */
  lemma {:induction false} EncoderReads(net: Network, tokens: seq<int>, l: nat)
    requires WellFormed(net) && net.split <= l <= |net.layers|
    ensures EncoderAt(net, l, After(net, tokens, l)) == After(net, tokens, net.split).acts
  {
    hide After, Start, RawsAt, OwnedAt, OutputRow, ShareRow;
    if l > net.split {
      AfterStep(net, tokens, l - 1);
      EncoderReads(net, tokens, l - 1);
    }
  }

  /** A layer reads the rows of the last owner up to it: rows of the encoder's output where the owner
      encodes, else the owner's own. */
  lemma {:induction false} OwnerReads(net: Network, tokens: seq<int>, k: nat, l: nat, p: nat)
    requires WellFormed(net) && k <= l < |net.layers| && p < |tokens|
    requires net.layers[k].role.Owner? && forall m | k < m <= l :: !net.layers[m].role.Owner?
    ensures PackerOf(net, l + 1) == net.layers[k].packer
    ensures |After(net, tokens, k).acts| == |Start(net, tokens)| == |LayerInputs(net, tokens, k)| == |tokens|
    ensures net.layers[k].encode.Some? ==> net.split <= k && |After(net, tokens, net.split).acts| == |tokens|
    ensures LayerOwned(net, tokens, l)[p]
            == if net.layers[k].encode.Some? then (net.layers[k].encode.value)(p, After(net, tokens, net.split).acts[p])
               else net.layers[k].project(tokens[p], p, LayerInputs(net, tokens, k)[p])
  {
    hide After, Start, Inputs, OutputRow, ShareRow;
    if k == l {
      if net.layers[k].encode.Some? {
        EncoderReads(net, tokens, k);
      }
    } else {
      AfterStep(net, tokens, l - 1);
      OwnerReads(net, tokens, k, l - 1, p);
    }
  }

  /** Row `p` of the result: the top layer's row and the backout layer's row. */
  lemma ResultReads(net: Network, tokens: seq<int>, p: nat)
    requires WellFormed(net) && p < |tokens|
    ensures Outputs(net, tokens)[p]
            == net.output(After(net, tokens, |net.layers|).acts[p], After(net, tokens, net.backout + 1).acts[p])
  {
    hide After;
    KeptReads(net, tokens, |net.layers|);
  }
}
