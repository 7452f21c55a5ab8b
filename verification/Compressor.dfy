/** Softmax pooling of token blocks into single entries, one channel at a time. */
module Compressors {
  import opened Division
  import opened Vectors

  /** `logit` is the channel's projection of the hidden row, `bias` is indexed by the row's place
      in its block, `exp` stands for the exponential. */
  datatype Compressor = Compressor(
    ratio: nat,
    channels: nat,
    logit: (Vec, nat) -> real,
    bias: (nat, nat) -> real,
    exp: real -> real)

  // ---------- pooling one block ----------

  ghost function MaxOf(logits: seq<real>): real
    requires logits != []
  {
    var last := |logits| - 1;
    if last == 0 then logits[0]
    else
      var before := MaxOf(logits[..last]);
      if logits[last] > before then logits[last] else before
  }

  ghost function Total(exp: real -> real, logits: seq<real>, maximum: real): real {
    if logits == [] then 0.0
    else Total(exp, logits[..|logits| - 1], maximum) + exp(logits[|logits| - 1] - maximum)
  }

  ghost function Weighted(exp: real -> real, logits: seq<real>, maximum: real, inverse: real, values: seq<real>): real
    requires |logits| == |values|
  {
    if logits == [] then 0.0
    else
      var last := |logits| - 1;
      Weighted(exp, logits[..last], maximum, inverse, values[..last])
      + Share(exp(logits[last] - maximum), inverse, values[last])
  }

  function Share(weight: real, inverse: real, value: real): real {
    weight * inverse * value
  }

  ghost function Pool(exp: real -> real, logits: seq<real>, values: seq<real>): real
    requires |logits| == |values| > 0
  {
    var maximum := MaxOf(logits);
    var total := Total(exp, logits, maximum);
    if total > 0.0 then Weighted(exp, logits, maximum, 1.0 / total, values) else 0.0
  }

  /** Pooling is an average: it stays between the smallest and the largest value of the block. */
  lemma PoolBetween(exp: real -> real, logits: seq<real>, values: seq<real>, low: real, high: real)
    requires |logits| == |values| > 0
    requires forall x :: exp(x) > 0.0
    requires forall i | 0 <= i < |values| :: low <= values[i] <= high
    ensures low <= Pool(exp, logits, values) <= high
  {
    var maximum := MaxOf(logits);
    var total := Total(exp, logits, maximum);
    TotalPositive(exp, logits, maximum);
    WeightedBetween(exp, logits, maximum, 1.0 / total, values, low, high);
    assert total * (1.0 / total) == 1.0;
    assert low * (total * (1.0 / total)) == low && high * (total * (1.0 / total)) == high;
  }

  lemma {:induction false} TotalPositive(exp: real -> real, logits: seq<real>, maximum: real)
    requires forall x :: exp(x) > 0.0
    ensures Total(exp, logits, maximum) >= 0.0
    ensures logits != [] ==> Total(exp, logits, maximum) > 0.0
  {
    if logits != [] {
      TotalPositive(exp, logits[..|logits| - 1], maximum);
    }
  }

  ghost predicate AverageBounds(low: real, high: real, total: real, inverse: real, pooled: real) {
    low * (total * inverse) <= pooled <= high * (total * inverse)
  }

  lemma NothingPooled(low: real, high: real, inverse: real)
    ensures AverageBounds(low, high, 0.0, inverse, 0.0)
  {
  }

  lemma {:induction false} WeightedBetween(
      exp: real -> real, logits: seq<real>, maximum: real, inverse: real, values: seq<real>, low: real, high: real)
    requires |logits| == |values| && inverse > 0.0
    requires forall x :: exp(x) > 0.0
    requires forall i | 0 <= i < |values| :: low <= values[i] <= high
    ensures AverageBounds(low, high, Total(exp, logits, maximum), inverse,
                          Weighted(exp, logits, maximum, inverse, values))
  {
    hide AverageBounds, Share;
    if logits == [] {
      NothingPooled(low, high, inverse);
    } else {
      var last := |logits| - 1;
      WeightedBetween(exp, logits[..last], maximum, inverse, values[..last], low, high);
      var weight := exp(logits[last] - maximum);
      var before, pooled := Total(exp, logits[..last], maximum), Weighted(exp, logits[..last], maximum, inverse, values[..last]);
      assert Weighted(exp, logits, maximum, inverse, values) == pooled + Share(weight, inverse, values[last]);
      AverageStep(low, before, weight, inverse, pooled, values[last], high);
    }
  }

  lemma AverageStep(low: real, before: real, weight: real, inverse: real, pooled: real, value: real, high: real)
    requires low <= value <= high && weight >= 0.0 && inverse >= 0.0
    requires AverageBounds(low, high, before, inverse, pooled)
    ensures AverageBounds(low, high, before + weight, inverse, pooled + Share(weight, inverse, value))
  {
    var scale := weight * inverse;
    Scaled(low, value, scale);
    Scaled(value, high, scale);
    assert (before + weight) * inverse == before * inverse + scale;
  }

  lemma Scaled(a: real, b: real, scale: real)
    requires a <= b && scale >= 0.0
    ensures scale * a <= scale * b
  {
  }

  // ---------- pooling a sequence ----------

  ghost predicate Shaped(compressor: Compressor, hidden: seq<Vec>, value: seq<Vec>) {
    && compressor.ratio > 0
    && |hidden| == |value|
    && forall p | 0 <= p < |value| :: |value[p]| == compressor.channels
  }

  /** The end of a block: a trailing block may be short. */
  ghost function BlockEnd(ratio: nat, length: nat, block: nat): (end: nat)
    ensures end <= length
  {
    if (block + 1) * ratio <= length then (block + 1) * ratio else length
  }

  ghost function Blocks(ratio: nat, length: nat): nat
    requires ratio > 0
  {
    (length + ratio - 1) / ratio
  }

  ghost function Logit(compressor: Compressor, hidden: seq<Vec>, channel: nat, position: nat): real
    requires compressor.ratio > 0 && position < |hidden|
  {
    compressor.logit(hidden[position], channel) + compressor.bias(position % compressor.ratio, channel)
  }

  ghost function Logits(compressor: Compressor, hidden: seq<Vec>, channel: nat, from: nat, to: nat): (logits: seq<real>)
    requires compressor.ratio > 0 && from <= to <= |hidden|
    ensures |logits| == to - from
    ensures forall i | 0 <= i < to - from :: logits[i] == Logit(compressor, hidden, channel, from + i)
  {
    seq(to - from, i requires 0 <= i < to - from => Logit(compressor, hidden, channel, from + i))
  }

  ghost function Values(value: seq<Vec>, channel: nat, from: nat, to: nat): (values: seq<real>)
    requires from <= to <= |value|
    requires forall p | 0 <= p < |value| :: channel < |value[p]|
    ensures |values| == to - from
    ensures forall i | 0 <= i < to - from :: values[i] == value[from + i][channel]
  {
    seq(to - from, i requires 0 <= i < to - from => value[from + i][channel])
  }

  ghost function PooledChannel(compressor: Compressor, hidden: seq<Vec>, value: seq<Vec>, from: nat, to: nat, channel: nat): real
    requires Shaped(compressor, hidden, value) && channel < compressor.channels
    requires from < to <= |hidden|
  {
    Pool(compressor.exp, Logits(compressor, hidden, channel, from, to), Values(value, channel, from, to))
  }

  ghost function Pooled(compressor: Compressor, hidden: seq<Vec>, value: seq<Vec>, from: nat, to: nat): (entry: Vec)
    requires Shaped(compressor, hidden, value)
    requires from < to <= |hidden|
    ensures |entry| == compressor.channels
    ensures forall c | 0 <= c < compressor.channels ::
              entry[c] == PooledChannel(compressor, hidden, value, from, to, c)
  {
    seq(compressor.channels,
        c requires 0 <= c < compressor.channels => PooledChannel(compressor, hidden, value, from, to, c))
  }

  lemma BlockRange(ratio: nat, length: nat, block: nat)
    requires ratio > 0 && block < Blocks(ratio, length)
    ensures block * ratio < BlockEnd(ratio, length, block) <= length
    ensures BlockEnd(ratio, length, block) <= (block + 1) * ratio
  {
    var n := length + ratio - 1;
    assert n == (n / ratio) * ratio + n % ratio;
    MultipleApart(block, n / ratio, ratio);
    assert (block + 1) * ratio == block * ratio + ratio;
  }

  /** What one forward over the whole sequence produces, block by block. */
  ghost predicate IsCompressed(compressor: Compressor, hidden: seq<Vec>, value: seq<Vec>, compressed: seq<Vec>)
    requires Shaped(compressor, hidden, value)
  {
    && |compressed| == Blocks(compressor.ratio, |hidden|)
    && forall b | 0 <= b < |compressed| :: IsEntry(compressor, hidden, value, b, compressed[b])
  }

  ghost predicate IsEntry(compressor: Compressor, hidden: seq<Vec>, value: seq<Vec>, block: nat, entry: Vec)
    requires Shaped(compressor, hidden, value) && block < Blocks(compressor.ratio, |hidden|)
  {
    BlockRange(compressor.ratio, |hidden|, block);
    entry == Pooled(compressor, hidden, value, block * compressor.ratio, BlockEnd(compressor.ratio, |hidden|, block))
  }

  // ---------- pooling, written out ----------

  lemma {:induction false} MaxIsLargest(logits: seq<real>)
    requires logits != []
    ensures MaxOf(logits) in logits && forall i | 0 <= i < |logits| :: logits[i] <= MaxOf(logits)
  {
    if |logits| > 1 {
      MaxIsLargest(logits[..|logits| - 1]);
    }
  }

  lemma {:induction false} TotalIsSum(exp: real -> real, logits: seq<real>, maximum: real, weights: seq<real>)
    requires |weights| == |logits| && forall i | 0 <= i < |weights| :: weights[i] == exp(logits[i] - maximum)
    ensures Total(exp, logits, maximum) == Sum(weights)
  {
    if logits != [] {
      TotalIsSum(exp, logits[..|logits| - 1], maximum, weights[..|weights| - 1]);
    }
  }

  ghost predicate IsProduct(product: real, a: real, b: real) {
    product == a * b
  }

  lemma {:induction false} WeightedIsSum(
      exp: real -> real, logits: seq<real>, maximum: real, inverse: real, values: seq<real>, products: seq<real>)
    requires |products| == |logits| == |values|
    requires forall i | 0 <= i < |products| :: IsProduct(products[i], exp(logits[i] - maximum), values[i])
    ensures Weighted(exp, logits, maximum, inverse, values) == inverse * Sum(products)
  {
    hide Share, IsProduct;
    if logits != [] {
      var last := |logits| - 1;
      WeightedIsSum(exp, logits[..last], maximum, inverse, values[..last], products[..last]);
      ShareIs(exp(logits[last] - maximum), inverse, values[last], Sum(products[..last]), products[last]);
    }
  }

  lemma ShareIs(weight: real, inverse: real, value: real, sum: real, product: real)
    requires IsProduct(product, weight, value)
    ensures inverse * sum + Share(weight, inverse, value) == inverse * (sum + product)
  {
  }

  lemma PoolIsSoftmax(exp: real -> real, logits: seq<real>, values: seq<real>)
      returns (maximum: real, weights: seq<real>, products: seq<real>)
    requires |logits| == |values| > 0
    ensures maximum in logits && forall i | 0 <= i < |logits| :: logits[i] <= maximum
    ensures |weights| == |products| == |logits|
    ensures forall i | 0 <= i < |weights| :: weights[i] == exp(logits[i] - maximum)
    ensures forall i | 0 <= i < |weights| :: IsProduct(products[i], weights[i], values[i])
    ensures Sum(weights) > 0.0 ==> Pool(exp, logits, values) * Sum(weights) == Sum(products)
    ensures Sum(weights) <= 0.0 ==> Pool(exp, logits, values) == 0.0
  {
    hide Sum, MaxOf, Total, Weighted;
    maximum := MaxOf(logits);
    MaxIsLargest(logits);
    weights := seq(|logits|, i requires 0 <= i < |logits| => exp(logits[i] - maximum));
    products := seq(|logits|, i requires 0 <= i < |logits| => exp(logits[i] - maximum) * values[i]);
    TotalIsSum(exp, logits, maximum, weights);
    var total := Sum(weights);
    if total > 0.0 {
      assert forall i | 0 <= i < |products| :: IsProduct(products[i], exp(logits[i] - maximum), values[i]);
      WeightedIsSum(exp, logits, maximum, 1.0 / total, values, products);
      DivideOut(Sum(products), total, Pool(exp, logits, values));
    }
  }

  lemma DivideOut(sum: real, total: real, quotient: real)
    requires total > 0.0 && quotient == 1.0 / total * sum
    ensures quotient * total == sum
  {
  }

  /** The softmax average of `rows` rows: the weight of row `i` is the exponential of its logit plus the
      bias of place `i`, less the largest such sum. */
  ghost predicate IsSoftmax(
      compressor: Compressor, hidden: seq<Vec>, value: seq<Vec>, from: nat, rows: nat, channel: nat, entry: real,
      maximum: real, weights: seq<real>, products: seq<real>)
  {
    && from + rows <= |hidden| == |value|
    && |weights| == |products| == rows
    && (forall i | 0 <= i < rows ::
          && compressor.logit(hidden[from + i], channel) + compressor.bias(i, channel) <= maximum
          && weights[i] == compressor.exp(compressor.logit(hidden[from + i], channel) + compressor.bias(i, channel) - maximum)
          && channel < |value[from + i]|
          && IsProduct(products[i], weights[i], value[from + i][channel]))
    && (exists i | 0 <= i < rows ::
          maximum == compressor.logit(hidden[from + i], channel) + compressor.bias(i, channel))
    && (Sum(weights) > 0.0 ==> entry * Sum(weights) == Sum(products))
    && (Sum(weights) <= 0.0 ==> entry == 0.0)
  }

  /** There is a block exactly where there is a row for it, and each channel of its entry is the softmax
      average of the rows it has. */
  lemma EntryIsSoftmax(
      compressor: Compressor, hidden: seq<Vec>, value: seq<Vec>, compressed: seq<Vec>, block: nat, channel: nat)
      returns (rows: nat, maximum: real, weights: seq<real>, products: seq<real>)
    requires Shaped(compressor, hidden, value) && IsCompressed(compressor, hidden, value, compressed)
    requires channel < compressor.channels && block * compressor.ratio < |hidden|
    ensures |compressed| * compressor.ratio >= |hidden|
    ensures block < |compressed| && |compressed[block]| == compressor.channels
    ensures rows == if |hidden| - block * compressor.ratio < compressor.ratio
                    then |hidden| - block * compressor.ratio else compressor.ratio
    ensures IsSoftmax(compressor, hidden, value, block * compressor.ratio, rows, channel, compressed[block][channel],
                      maximum, weights, products)
  {
    hide PooledChannel, IsSoftmax;
    var ratio, from := compressor.ratio, block * compressor.ratio;
    BlockCount(ratio, |hidden|, block);
    assert IsEntry(compressor, hidden, value, block, compressed[block]);
    rows := if |hidden| - from < ratio then |hidden| - from else ratio;
    maximum, weights, products := ChannelIsSoftmax(compressor, hidden, value, block, from, rows, channel);
  }

  lemma ChannelIsSoftmax(
      compressor: Compressor, hidden: seq<Vec>, value: seq<Vec>, block: nat, from: nat, rows: nat, channel: nat)
      returns (maximum: real, weights: seq<real>, products: seq<real>)
    requires Shaped(compressor, hidden, value) && channel < compressor.channels
    requires from == block * compressor.ratio && 0 < rows <= compressor.ratio && from + rows <= |hidden|
    ensures IsSoftmax(compressor, hidden, value, from, rows, channel,
                      PooledChannel(compressor, hidden, value, from, from + rows, channel), maximum, weights, products)
  {
    hide Pool, Sum, Logit, Logits, IsProduct;
    var logits, values := Logits(compressor, hidden, channel, from, from + rows), Values(value, channel, from, from + rows);
    LogitsAt(compressor, hidden, channel, block, from, rows);
    maximum, weights, products := PoolIsSoftmax(compressor.exp, logits, values);
  }

  lemma LogitsAt(compressor: Compressor, hidden: seq<Vec>, channel: nat, block: nat, from: nat, rows: nat)
    requires from == block * compressor.ratio && 0 < rows <= compressor.ratio && from + rows <= |hidden|
    ensures forall i | 0 <= i < rows ::
              Logits(compressor, hidden, channel, from, from + rows)[i]
              == compressor.logit(hidden[from + i], channel) + compressor.bias(i, channel)
  {
    hide Logit;
    forall i | 0 <= i < rows
      ensures Logits(compressor, hidden, channel, from, from + rows)[i]
              == compressor.logit(hidden[from + i], channel) + compressor.bias(i, channel)
    {
      LogitAt(compressor, hidden, channel, block, i);
    }
  }

  lemma LogitAt(compressor: Compressor, hidden: seq<Vec>, channel: nat, block: nat, i: nat)
    requires i < compressor.ratio && block * compressor.ratio + i < |hidden|
    ensures Logit(compressor, hidden, channel, block * compressor.ratio + i)
            == compressor.logit(hidden[block * compressor.ratio + i], channel) + compressor.bias(i, channel)
  {
    OffsetInBlock(compressor.ratio, block, i);
  }

  lemma BlockCount(ratio: nat, length: nat, block: nat)
    requires ratio > 0 && block * ratio < length
    ensures block < Blocks(ratio, length) && Blocks(ratio, length) * ratio >= length
    ensures BlockEnd(ratio, length, block)
            == block * ratio + if length - block * ratio < ratio then length - block * ratio else ratio
  {
    var n := length + ratio - 1;
    DivMod(n, ratio);
    MultipleApart(Blocks(ratio, length), block, ratio);
    assert (block + 1) * ratio == block * ratio + ratio;
  }

  /** A complete block pools the same alone as inside any longer sequence. */
  lemma BlockAlone(compressor: Compressor, hidden: seq<Vec>, value: seq<Vec>, block: nat)
    requires Shaped(compressor, hidden, value)
    requires (block + 1) * compressor.ratio <= |hidden|
    ensures block * compressor.ratio + compressor.ratio == (block + 1) * compressor.ratio
    ensures var from, to := block * compressor.ratio, (block + 1) * compressor.ratio;
            Pooled(compressor, hidden[from..to], value[from..to], 0, compressor.ratio)
            == Pooled(compressor, hidden, value, from, to)
  {
    var ratio := compressor.ratio;
    var from, to := block * ratio, (block + 1) * ratio;
    assert to == from + ratio;
    var h, v := hidden[from..to], value[from..to];
    forall c | 0 <= c < compressor.channels
      ensures PooledChannel(compressor, h, v, 0, ratio, c) == PooledChannel(compressor, hidden, value, from, to, c)
    {
      forall i | 0 <= i < ratio
        ensures Logit(compressor, h, c, i) == Logit(compressor, hidden, c, from + i)
      {
        OffsetInBlock(ratio, block, i);
      }
      assert Logits(compressor, h, c, 0, ratio) == Logits(compressor, hidden, c, from, to);
      assert Values(v, c, 0, ratio) == Values(value, c, from, to);
    }
  }

  // ---------- the forward pass ----------

  ghost predicate IsPooled(
      compressor: Compressor, hidden: seq<Vec>, value: seq<Vec>, block: nat, channel: nat, pooled: real)
    requires Shaped(compressor, hidden, value) && channel < compressor.channels
    requires block < Blocks(compressor.ratio, |hidden|)
  {
    BlockRange(compressor.ratio, |hidden|, block);
    pooled == PooledChannel(compressor, hidden, value, block * compressor.ratio,
                            BlockEnd(compressor.ratio, |hidden|, block), channel)
  }

  /** One channel of one block, rows past the end of the sequence excluded. */
  method PoolBlock(compressor: Compressor, hidden: seq<Vec>, value: seq<Vec>, block: nat, channel: nat)
      returns (pooled: real)
    requires Shaped(compressor, hidden, value) && channel < compressor.channels
    requires block < Blocks(compressor.ratio, |hidden|)
    ensures IsPooled(compressor, hidden, value, block, channel, pooled)
  {
    BlockRange(compressor.ratio, |hidden|, block);
    var start := block * compressor.ratio;
    ghost var end := BlockEnd(compressor.ratio, |hidden|, block);
    assert (block + 1) * compressor.ratio == start + compressor.ratio;
    pooled := PoolRows(compressor, hidden, value, start, end, channel);
  }

  method PoolRows(compressor: Compressor, hidden: seq<Vec>, value: seq<Vec>, start: nat, ghost end: nat, channel: nat)
      returns (pooled: real)
    requires Shaped(compressor, hidden, value) && channel < compressor.channels
    requires start < end <= |hidden| && end <= start + compressor.ratio
    requires end < start + compressor.ratio ==> end == |hidden|
    ensures pooled == PooledChannel(compressor, hidden, value, start, end, channel)
  {
    hide MaxOf, Total, Weighted, Pool, Share, Logit;
    ghost var logits, values := Logits(compressor, hidden, channel, start, end), Values(value, channel, start, end);
    var maximum := LargestLogit(compressor, hidden, channel, start, logits);
    var probabilities, total := Exponentials(compressor, hidden, channel, start, logits, maximum);
    pooled := 0.0;
    if total > 0.0 {
      var inverse := 1.0 / total;
      WeightedStep(compressor.exp, logits, maximum, inverse, values, 0);
      for row := 0 to compressor.ratio
        invariant pooled == Weighted(compressor.exp, Sofar(logits, row), maximum, inverse, Sofar(values, row))
      {
        WeightedStep(compressor.exp, logits, maximum, inverse, values, row);
        if start + row < |hidden| {
          pooled := pooled + Share(probabilities[row], inverse, value[start + row][channel]);
        }
      }
    }
    PoolIs(compressor.exp, logits, values, maximum, total, pooled);
  }

  method Exponentials(
      compressor: Compressor, hidden: seq<Vec>, channel: nat, start: nat, ghost logits: seq<real>, maximum: real)
      returns (probabilities: seq<real>, total: real)
    requires compressor.ratio > 0 && start < |hidden| && 0 < |logits| <= compressor.ratio
    requires start + |logits| <= |hidden| && logits == Logits(compressor, hidden, channel, start, start + |logits|)
    requires |logits| < compressor.ratio ==> start + |logits| == |hidden|
    ensures |probabilities| == compressor.ratio
    ensures forall i | 0 <= i < |logits| :: probabilities[i] == compressor.exp(logits[i] - maximum)
    ensures total == Total(compressor.exp, logits, maximum)
  {
    hide Total;
    probabilities, total := [], 0.0;
    TotalStep(compressor.exp, logits, maximum, 0);
    for row := 0 to compressor.ratio
      invariant |probabilities| == row
      invariant forall i | 0 <= i < row && i < |logits| :: probabilities[i] == compressor.exp(logits[i] - maximum)
      invariant total == Total(compressor.exp, Sofar(logits, row), maximum)
    {
      var probability := 0.0;
      if start + row < |hidden| {
        var logit := compressor.logit(hidden[start + row], channel)
                     + compressor.bias((start + row) % compressor.ratio, channel);
        probability := compressor.exp(logit - maximum);
      }
      TotalStep(compressor.exp, logits, maximum, row);
      probabilities := probabilities + [probability];
      total := total + probability;
    }
  }

  method LargestLogit(compressor: Compressor, hidden: seq<Vec>, channel: nat, start: nat, ghost logits: seq<real>)
      returns (maximum: real)
    requires compressor.ratio > 0 && start < |hidden| && 0 < |logits| <= compressor.ratio
    requires start + |logits| <= |hidden| && logits == Logits(compressor, hidden, channel, start, start + |logits|)
    requires |logits| < compressor.ratio ==> start + |logits| == |hidden|
    ensures maximum == MaxOf(logits)
  {
    hide MaxOf;
    var found := false;
    maximum := 0.0;
    for row := 0 to compressor.ratio
      invariant found == (row > 0)
      invariant found ==> maximum == MaxOf(Sofar(logits, row))
    {
      MaxStep(logits, row);
      if start + row < |hidden| {
        var logit := compressor.logit(hidden[start + row], channel)
                     + compressor.bias((start + row) % compressor.ratio, channel);
        if !found || logit > maximum {
          found, maximum := true, logit;
        }
      }
    }
  }

  ghost function Sofar(xs: seq<real>, row: nat): (front: seq<real>)
    ensures |front| == if row <= |xs| then row else |xs|
    ensures row >= |xs| ==> front == xs
  {
    if row <= |xs| then xs[..row] else xs
  }

  lemma MaxStep(logits: seq<real>, row: nat)
    requires logits != []
    ensures row == 0 ==> MaxOf(Sofar(logits, 1)) == logits[0]
    ensures 0 < row < |logits| ==>
              MaxOf(Sofar(logits, row + 1))
              == (if logits[row] > MaxOf(Sofar(logits, row)) then logits[row] else MaxOf(Sofar(logits, row)))
    ensures row >= |logits| ==> Sofar(logits, row + 1) == Sofar(logits, row)
  {
    if row < |logits| {
      assert logits[..row + 1][..row] == logits[..row];
    }
  }

  lemma TotalStep(exp: real -> real, logits: seq<real>, maximum: real, row: nat)
    ensures row < |logits| ==> Total(exp, Sofar(logits, row + 1), maximum)
                               == Total(exp, Sofar(logits, row), maximum) + exp(logits[row] - maximum)
    ensures row >= |logits| ==> Sofar(logits, row + 1) == Sofar(logits, row)
    ensures Total(exp, Sofar(logits, 0), maximum) == 0.0
  {
    if row < |logits| {
      assert logits[..row + 1][..row] == logits[..row];
    }
  }

  lemma WeightedStep(exp: real -> real, logits: seq<real>, maximum: real, inverse: real, values: seq<real>, row: nat)
    requires |logits| == |values|
    ensures row < |logits| ==>
              Weighted(exp, Sofar(logits, row + 1), maximum, inverse, Sofar(values, row + 1))
              == Weighted(exp, Sofar(logits, row), maximum, inverse, Sofar(values, row))
                 + Share(exp(logits[row] - maximum), inverse, values[row])
    ensures row >= |logits| ==> Sofar(logits, row + 1) == Sofar(logits, row)
                                && Sofar(values, row + 1) == Sofar(values, row)
    ensures Weighted(exp, Sofar(logits, 0), maximum, inverse, Sofar(values, 0)) == 0.0
  {
    if row < |logits| {
      assert logits[..row + 1][..row] == logits[..row];
      assert values[..row + 1][..row] == values[..row];
    }
  }

  lemma PoolIs(exp: real -> real, logits: seq<real>, values: seq<real>, maximum: real, total: real, pooled: real)
    requires |logits| == |values| > 0 && maximum == MaxOf(logits) && total == Total(exp, logits, maximum)
    requires pooled == if total > 0.0 then Weighted(exp, logits, maximum, 1.0 / total, values) else 0.0
    ensures pooled == Pool(exp, logits, values)
  {
  }

  /** Compresses a whole sequence; a trailing partial block is pooled from the rows that exist. */
  method Forward(compressor: Compressor, hidden: seq<Vec>, value: seq<Vec>) returns (compressed: seq<Vec>)
    requires Shaped(compressor, hidden, value)
    ensures IsCompressed(compressor, hidden, value, compressed)
  {
    var blockCount := (|hidden| + compressor.ratio - 1) / compressor.ratio;
    compressed := [];
    for block := 0 to blockCount
      invariant |compressed| == block
      invariant forall b | 0 <= b < block :: IsEntry(compressor, hidden, value, b, compressed[b])
    {
      var entry := [];
      for channel := 0 to compressor.channels
        invariant |entry| == channel
        invariant forall c | 0 <= c < channel :: IsPooled(compressor, hidden, value, block, c, entry[c])
      {
        var pooled := PoolBlock(compressor, hidden, value, block, channel);
        entry := entry + [pooled];
      }
      EntryIs(compressor, hidden, value, block, entry);
      compressed := compressed + [entry];
    }
  }

  lemma EntryIs(compressor: Compressor, hidden: seq<Vec>, value: seq<Vec>, block: nat, entry: Vec)
    requires Shaped(compressor, hidden, value) && block < Blocks(compressor.ratio, |hidden|)
    requires |entry| == compressor.channels
    requires forall c | 0 <= c < |entry| :: IsPooled(compressor, hidden, value, block, c, entry[c])
    ensures IsEntry(compressor, hidden, value, block, entry)
  {
  }
}
