/** Mixture-of-experts dispatch: a counting sort of the (row, slot) pairs by expert, one grouped
    pass over the experts, and the weighted scatter back, against the per-row sum. */
module Dispatch {
  import opened Division
  import opened Recency
  import opened Vectors

  // ---------- the counting sort ----------

  ghost function Count(selected: seq<nat>, expert: nat): nat {
    if selected == [] then 0
    else Count(selected[..|selected| - 1], expert) + (if selected[|selected| - 1] == expert then 1 else 0)
  }

  /** How many pairs go to experts below `expert`. */
  ghost function Below(selected: seq<nat>, expert: nat): nat {
    if expert == 0 then 0 else Below(selected, expert - 1) + Count(selected, expert - 1)
  }

  /** A pair's place when pairs are ordered by expert and, within an expert, by their own order. */
  ghost function Place(selected: seq<nat>, i: nat): nat
    requires i < |selected|
  {
    Below(selected, selected[i]) + Count(selected[..i], selected[i])
  }

  lemma {:induction false} CountPrefix(selected: seq<nat>, i: nat, expert: nat)
    requires i <= |selected|
    ensures Count(selected[..i], expert) <= Count(selected, expert)
    ensures i < |selected| && selected[i] == expert ==> Count(selected[..i], expert) < Count(selected, expert)
  {
    if i < |selected| {
      var shorter := selected[..|selected| - 1];
      if i < |shorter| {
        CountPrefix(shorter, i, expert);
        assert shorter[..i] == selected[..i];
      } else {
        assert shorter == selected[..i];
      }
    } else {
      assert selected[..i] == selected;
    }
  }

  lemma CountNext(selected: seq<nat>, i: nat, expert: nat)
    requires i < |selected|
    ensures Count(selected[..i + 1], expert) == Count(selected[..i], expert) + (if selected[i] == expert then 1 else 0)
  {
    assert selected[..i + 1][..i] == selected[..i];
  }

  lemma {:induction false} BelowGrows(selected: seq<nat>, a: nat, b: nat)
    requires a < b
    ensures Below(selected, a) + Count(selected, a) <= Below(selected, b)
  {
    if a < b - 1 {
      BelowGrows(selected, a, b - 1);
    }
  }

  lemma {:induction false} BelowNext(selected: seq<nat>, i: nat, expert: nat)
    requires i < |selected|
    ensures Below(selected[..i + 1], expert) == Below(selected[..i], expert) + (if selected[i] < expert then 1 else 0)
  {
    if expert > 0 {
      BelowNext(selected, i, expert - 1);
      CountNext(selected, i, expert - 1);
    }
  }

  lemma {:induction false} BelowEmpty(expert: nat)
    ensures Below([], expert) == 0
  {
    if expert > 0 {
      BelowEmpty(expert - 1);
    }
  }

  lemma {:induction false} BelowAll(selected: seq<nat>, experts: nat, n: nat)
    requires n <= |selected| && forall i | 0 <= i < |selected| :: selected[i] < experts
    ensures Below(selected[..n], experts) == n
  {
    if n == 0 {
      BelowEmpty(experts);
    } else {
      BelowAll(selected, experts, n - 1);
      BelowNext(selected, n - 1, experts);
    }
  }

  /** Places are ordered by expert and then by pair, so no two pairs share one. */
  lemma PlaceOrder(selected: seq<nat>, i: nat, j: nat)
    requires i < |selected| && j < |selected|
    requires selected[i] < selected[j] || (selected[i] == selected[j] && i < j)
    ensures Place(selected, i) < Place(selected, j)
  {
    CountPrefix(selected, i, selected[i]);
    if selected[i] < selected[j] {
      BelowGrows(selected, selected[i], selected[j]);
    } else {
      CountPrefix(selected[..j], i, selected[i]);
      assert selected[..j][..i] == selected[..i];
    }
  }

  lemma PlaceBelow(selected: seq<nat>, experts: nat, i: nat)
    requires i < |selected| && forall j | 0 <= j < |selected| :: selected[j] < experts
    ensures Place(selected, i) < |selected|
    ensures Below(selected, selected[i]) <= Place(selected, i) < Below(selected, selected[i]) + Count(selected, selected[i])
  {
    CountPrefix(selected, i, selected[i]);
    BelowGrows(selected, selected[i], experts);
    BelowAll(selected, experts, |selected|);
    assert selected[..|selected|] == selected;
  }

  /** The k-th pair of an expert. */
  lemma {:induction false} Occurrence(selected: seq<nat>, expert: nat, k: nat) returns (i: nat)
    requires k < Count(selected, expert)
    ensures i < |selected| && selected[i] == expert && Count(selected[..i], expert) == k
  {
    var last := |selected| - 1;
    if k < Count(selected[..last], expert) {
      i := Occurrence(selected[..last], expert, k);
      assert selected[..last][..i] == selected[..i];
    } else {
      i := last;
    }
  }

  /** The expert whose block a place lies in. */
  lemma {:induction false} Owner(selected: seq<nat>, experts: nat, p: nat) returns (expert: nat)
    requires p < Below(selected, experts)
    ensures expert < experts && Below(selected, expert) <= p < Below(selected, expert) + Count(selected, expert)
  {
    if p >= Below(selected, experts - 1) {
      expert := experts - 1;
    } else {
      expert := Owner(selected, experts - 1, p);
    }
  }

  /** Every place is taken. */
  lemma PlaceTaken(selected: seq<nat>, experts: nat, p: nat) returns (i: nat)
    requires p < |selected| && forall j | 0 <= j < |selected| :: selected[j] < experts
    ensures i < |selected| && Place(selected, i) == p
  {
    BelowAll(selected, experts, |selected|);
    assert selected[..|selected|] == selected;
    var expert := Owner(selected, experts, p);
    i := Occurrence(selected, expert, p - Below(selected, expert));
  }

  /** `order` lists the pairs by place. */
  ghost predicate IsOrder(selected: seq<nat>, order: seq<nat>) {
    && |order| == |selected|
    && (forall p | 0 <= p < |order| :: order[p] < |selected| && Place(selected, order[p]) == p)
    && forall i | 0 <= i < |selected| :: Place(selected, i) < |order| && order[Place(selected, i)] == i
  }

  /** The order is a permutation of the pairs, sorted by expert and stable within an expert. */
  lemma OrderSorted(selected: seq<nat>, order: seq<nat>, p: nat, q: nat)
    requires IsOrder(selected, order) && p < q < |order|
    ensures selected[order[p]] < selected[order[q]]
            || (selected[order[p]] == selected[order[q]] && order[p] < order[q])
    ensures Distinct(order) && forall i | 0 <= i < |selected| :: i in order
  {
    if selected[order[q]] < selected[order[p]] || (selected[order[p]] == selected[order[q]] && order[q] < order[p]) {
      PlaceOrder(selected, order[q], order[p]);
    }
    forall i | 0 <= i < |selected| ensures i in order {
      assert order[Place(selected, i)] == i;
    }
  }

  method TokenCounts(selected: seq<nat>, experts: nat) returns (counts: array<nat>)
    requires forall i | 0 <= i < |selected| :: selected[i] < experts
    ensures fresh(counts) && counts.Length == experts
    ensures forall e | 0 <= e < experts :: counts[e] == Count(selected, e)
  {
    counts := new nat[experts](_ => 0);
    for i := 0 to |selected|
      invariant forall e | 0 <= e < experts :: counts[e] == Count(selected[..i], e)
    {
      forall e | 0 <= e < experts ensures
        Count(selected[..i + 1], e) == Count(selected[..i], e) + (if selected[i] == e then 1 else 0)
      {
        CountNext(selected, i, e);
      }
      counts[selected[i]] := counts[selected[i]] + 1;
    }
    assert selected[..|selected|] == selected;
  }

  method Offsets(selected: seq<nat>, experts: nat, counts: array<nat>) returns (offsets: array<nat>)
    requires counts.Length == experts && forall e | 0 <= e < experts :: counts[e] == Count(selected, e)
    ensures fresh(offsets) && offsets.Length == experts
    ensures forall e | 0 <= e < experts :: offsets[e] == Below(selected, e)
  {
    hide Count, Below;
    offsets := new nat[experts](_ => 0);
    BelowZero(selected);
    var cursor := 0;
    for expert := 0 to experts
      invariant cursor == Below(selected, expert)
      invariant forall e | 0 <= e < expert :: offsets[e] == Below(selected, e)
    {
      BelowStep(selected, expert);
      offsets[expert] := cursor;
      cursor := cursor + counts[expert];
    }
  }

  lemma BelowZero(selected: seq<nat>)
    ensures Below(selected, 0) == 0
  {
  }

  lemma BelowStep(selected: seq<nat>, expert: nat)
    ensures Below(selected, expert + 1) == Below(selected, expert) + Count(selected, expert)
  {
  }

  // ---------- gather, experts, scatter ----------

  /** The row a pair belongs to: pairs are numbered row by row, `topK` to a row. */
  function RowOf(i: nat, topK: nat): nat {
    if topK == 0 then 0 else i / topK
  }

  /** Copies each pair's row and weight to the pair's place. */
  method Gather(selected: seq<nat>, weights: seq<real>, flat: seq<Vec>, topK: nat, experts: nat, offsets: array<nat>)
      returns (gathered: array<Vec>, gatheredRows: array<nat>, gatheredWeights: array<real>)
    requires |selected| == |weights| == |flat| * topK
    requires forall i | 0 <= i < |selected| :: selected[i] < experts
    requires offsets.Length == experts && forall e | 0 <= e < experts :: offsets[e] == Below(selected, e)
    ensures gathered.Length == gatheredRows.Length == gatheredWeights.Length == |selected|
    ensures GatheredTo(selected, weights, flat, topK, gathered, gatheredRows, gatheredWeights, |selected|)
  {
    hide Count, Below, Gathered;
    var total := |selected|;
    gathered := new Vec[total](_ => []);
    gatheredRows := new nat[total](_ => 0);
    gatheredWeights := new real[total](_ => 0.0);
    var fill := new nat[experts](_ => 0);
    NothingCounted(selected);
    for row := 0 to |flat|
      invariant row * topK <= |selected| && Filled(selected, fill, experts, row * topK)
      invariant GatheredTo(selected, weights, flat, topK, gathered, gatheredRows, gatheredWeights, row * topK)
    {
      MultipleApart(row, |flat|, topK);
      for slot := 0 to topK
        invariant row * topK + slot <= |selected| && Filled(selected, fill, experts, row * topK + slot)
        invariant GatheredTo(selected, weights, flat, topK, gathered, gatheredRows, gatheredWeights, row * topK + slot)
      {
        SlotInside(|flat|, topK, row, slot);
        PlacePair(selected, weights, flat, topK, experts, offsets, fill, gathered, gatheredRows, gatheredWeights,
                  row, row * topK + slot);
      }
      assert (row + 1) * topK == row * topK + topK;
    }
  }

  /** How many pairs each expert has received. */
  ghost predicate Filled(selected: seq<nat>, fill: array<nat>, experts: nat, n: nat)
    requires n <= |selected|
    reads fill
  {
    fill.Length == experts && forall e | 0 <= e < experts :: fill[e] == Count(selected[..n], e)
  }

  lemma NothingCounted(selected: seq<nat>)
    ensures selected[..0] == [] && forall e: nat :: Count([], e) == 0
  {
  }

  method PlacePair(
      selected: seq<nat>, weights: seq<real>, flat: seq<Vec>, topK: nat, experts: nat, offsets: array<nat>,
      fill: array<nat>, gathered: array<Vec>, gatheredRows: array<nat>, gatheredWeights: array<real>,
      row: nat, index: nat)
    requires row < |flat| && index < |selected| == |weights| == |flat| * topK && row == RowOf(index, topK)
    requires forall i | 0 <= i < |selected| :: selected[i] < experts
    requires offsets.Length == experts && forall e | 0 <= e < experts :: offsets[e] == Below(selected, e)
    requires fill != offsets && fill != gatheredRows && gatheredRows != offsets
    requires gathered.Length == gatheredRows.Length == gatheredWeights.Length == |selected|
    requires Filled(selected, fill, experts, index)
    requires GatheredTo(selected, weights, flat, topK, gathered, gatheredRows, gatheredWeights, index)
    modifies fill, gathered, gatheredRows, gatheredWeights
    ensures Filled(selected, fill, experts, index + 1)
    ensures GatheredTo(selected, weights, flat, topK, gathered, gatheredRows, gatheredWeights, index + 1)
  {
    hide Count, Below, Place;
    var expert := selected[index];
    PlaceIs(selected, index);
    PlaceBelow(selected, experts, index);
    var position := offsets[expert] + fill[expert];
    forall e | 0 <= e < experts ensures
      Count(selected[..index + 1], e) == Count(selected[..index], e) + (if selected[index] == e then 1 else 0)
    {
      CountNext(selected, index, e);
    }
    fill[expert] := fill[expert] + 1;
    gathered[position] := flat[row];
    gatheredRows[position] := row;
    gatheredWeights[position] := weights[index];
    forall i | 0 <= i < index + 1
      ensures Gathered(selected, weights, flat, topK, gathered, gatheredRows, gatheredWeights, i)
    {
      if i < index {
        assert old(Gathered(selected, weights, flat, topK, gathered, gatheredRows, gatheredWeights, i));
        PlaceApart(selected, i, index);
      }
    }
  }

  /** Pair `i`'s row and weight are at its place. */
  ghost predicate Gathered(
      selected: seq<nat>, weights: seq<real>, flat: seq<Vec>, topK: nat,
      gathered: array<Vec>, rows: array<nat>, gatheredWeights: array<real>, i: nat)
    requires i < |selected| == |weights|
    reads gathered, rows, gatheredWeights
  {
    var p, row := Place(selected, i), RowOf(i, topK);
    && p < gathered.Length && p < rows.Length && p < gatheredWeights.Length
    && row < |flat| && gathered[p] == flat[row] && rows[p] == row && gatheredWeights[p] == weights[i]
  }

  ghost predicate GatheredTo(
      selected: seq<nat>, weights: seq<real>, flat: seq<Vec>, topK: nat,
      gathered: array<Vec>, rows: array<nat>, gatheredWeights: array<real>, n: nat)
    requires n <= |selected| == |weights|
    reads gathered, rows, gatheredWeights
  {
    forall i | 0 <= i < n :: Gathered(selected, weights, flat, topK, gathered, rows, gatheredWeights, i)
  }

  lemma PlaceIs(selected: seq<nat>, i: nat)
    requires i < |selected|
    ensures Place(selected, i) == Below(selected, selected[i]) + Count(selected[..i], selected[i])
  {
  }

  lemma PlaceApart(selected: seq<nat>, i: nat, j: nat)
    requires i < |selected| && j < |selected| && i != j
    ensures Place(selected, i) != Place(selected, j)
  {
    hide Place;
    if selected[i] < selected[j] || (selected[i] == selected[j] && i < j) {
      PlaceOrder(selected, i, j);
    } else {
      PlaceOrder(selected, j, i);
    }
  }

  lemma RowInside(rows: nat, topK: nat, index: nat)
    requires index < rows * topK
    ensures topK > 0 && RowOf(index, topK) < rows
  {
    assert topK == 0 ==> rows * topK == 0;
    MultipleApart(index / topK, rows, topK);
    MultipleApart(rows, index / topK, topK);
    assert index == (index / topK) * topK + index % topK;
  }

  /** One pass over the experts, each on its own block of gathered rows. */
  method GroupedExperts(
      gathered: seq<Vec>, counts: array<nat>, experts: nat, apply: (nat, Vec) -> Vec, ghost selected: seq<nat>)
      returns (grouped: seq<Vec>)
    requires |gathered| == |selected| && forall i | 0 <= i < |selected| :: selected[i] < experts
    requires counts.Length == experts && forall e | 0 <= e < experts :: counts[e] == Count(selected, e)
    ensures |grouped| == |gathered|
    ensures forall i | 0 <= i < |selected| ::
              Place(selected, i) < |grouped| && grouped[Place(selected, i)] == apply(selected[i], gathered[Place(selected, i)])
  {
    hide Count, Below, Place;
    grouped := [];
    BelowZero(selected);
    BelowTotal(selected, experts);
    for expert := 0 to experts
      invariant |grouped| == Below(selected, expert) <= |gathered|
      invariant forall e: nat, p: nat | e < expert && InBlock(selected, e, p) && p < |grouped| ::
                  grouped[p] == apply(e, gathered[p])
    {
      BelowStep(selected, expert);
      BelowMonotone(selected, expert + 1, experts);
      for row := 0 to counts[expert]
        invariant |grouped| == Below(selected, expert) + row
        invariant forall e: nat, p: nat | e <= expert && InBlock(selected, e, p) && p < |grouped| ::
                    grouped[p] == apply(e, gathered[p])
        modifies {}
      {
        forall e | 0 <= e < expert ensures !InBlock(selected, e, |grouped|) {
          BelowGrows(selected, e, expert);
        }
        grouped := grouped + [apply(expert, gathered[|grouped|])];
      }
    }
    forall i | 0 <= i < |selected|
      ensures Place(selected, i) < |grouped| && grouped[Place(selected, i)] == apply(selected[i], gathered[Place(selected, i)])
    {
      PlaceBelow(selected, experts, i);
      assert InBlock(selected, selected[i], Place(selected, i));
    }
  }

  ghost predicate InBlock(selected: seq<nat>, expert: nat, p: nat) {
    Below(selected, expert) <= p < Below(selected, expert) + Count(selected, expert)
  }

  lemma BelowTotal(selected: seq<nat>, experts: nat)
    requires forall i | 0 <= i < |selected| :: selected[i] < experts
    ensures Below(selected, experts) == |selected|
  {
    BelowAll(selected, experts, |selected|);
    assert selected[..|selected|] == selected;
  }

  lemma BelowMonotone(selected: seq<nat>, a: nat, b: nat)
    requires a <= b
    ensures Below(selected, a) <= Below(selected, b)
  {
    if a < b {
      BelowGrows(selected, a, b);
    }
  }

  // ---------- sums ----------

  ghost function SumOver(g: nat -> real, s: seq<nat>): real {
    if s == [] then 0.0 else g(s[0]) + SumOver(g, s[1..])
  }

  ghost function SumTo(g: nat -> real, n: nat): real {
    if n == 0 then 0.0 else SumTo(g, n - 1) + g(n - 1)
  }

  lemma {:induction false} SumAppend(g: nat -> real, s: seq<nat>, x: nat)
    ensures SumOver(g, s + [x]) == SumOver(g, s) + g(x)
  {
    if s == [] {
      assert [x][1..] == [];
      assert s + [x] == [x];
    } else {
      SumAppend(g, s[1..], x);
      assert (s + [x])[1..] == s[1..] + [x];
    }
  }

  lemma {:induction false} SumWithout(g: nat -> real, s: seq<nat>, x: nat)
    requires x in s
    ensures SumOver(g, s) == SumOver(g, Without(s, x)) + g(x)
  {
    if s[0] != x {
      SumWithout(g, s[1..], x);
      assert Without(s, x)[1..] == Without(s[1..], x);
    }
  }

  lemma FirstMember(s: seq<nat>)
    ensures s == [] || s[0] in s
  {
  }

  /** A sum does not depend on the order its terms are added in. */
  lemma {:induction false} SumPermuted(g: nat -> real, s: seq<nat>, n: nat)
    requires Distinct(s) && forall i: nat :: i in s <==> i < n
    ensures SumOver(g, s) == SumTo(g, n)
    decreases n
  {
    if n == 0 {
      FirstMember(s);
    } else {
      var last: nat := n - 1;
      var rest: seq<nat> := Without(s, last);
      SumWithout(g, s, last);
      WithoutKeeps(s, last);
      SumPermuted(g, rest, last);
    }
  }

  lemma {:induction false} SumGap(g: nat -> real, a: nat, b: nat)
    requires a <= b && forall i | a <= i < b :: g(i) == 0.0
    ensures SumTo(g, b) == SumTo(g, a)
  {
    if a < b {
      SumGap(g, a, b - 1);
    }
  }

  // ---------- the whole layer ----------

  /** A routed batch: for each row `topK` experts and weights, in slot order. `apply` is an expert's
      network on one row. */
  datatype Mixture = Mixture(
    selected: seq<nat>,
    weights: seq<real>,
    flat: seq<Vec>,
    topK: nat,
    experts: nat,
    dim: nat,
    scale: real,
    apply: (nat, Vec) -> Vec)

  ghost predicate Valid(mix: Mixture) {
    && |mix.selected| == |mix.weights| == |mix.flat| * mix.topK
    && (forall i | 0 <= i < |mix.selected| :: mix.selected[i] < mix.experts)
    && forall expert, x :: OutputWide(mix, expert, x)
  }

  ghost predicate OutputWide(mix: Mixture, expert: nat, x: Vec) {
    |mix.apply(expert, x)| == mix.dim
  }

  /** What pair `i` adds to one channel of its row. */
  ghost function Share(mix: Mixture, i: nat, channel: nat): real
    requires Valid(mix) && i < |mix.selected| && channel < mix.dim
  {
    RowInside(|mix.flat|, mix.topK, i);
    assert OutputWide(mix, mix.selected[i], mix.flat[RowOf(i, mix.topK)]);
    mix.weights[i] * mix.scale * mix.apply(mix.selected[i], mix.flat[RowOf(i, mix.topK)])[channel]
  }

  ghost function Term(mix: Mixture, row: nat, channel: nat, i: nat): real
    requires Valid(mix)
  {
    if i < |mix.selected| && channel < mix.dim && RowOf(i, mix.topK) == row then Share(mix, i, channel) else 0.0
  }

  ghost function Terms(mix: Mixture, row: nat, channel: nat): nat -> real
    requires Valid(mix)
  {
    (i: nat) => Term(mix, row, channel, i)
  }

  /** The naive mixture: the row's slots in order. */
  ghost function Naive(mix: Mixture, row: nat, channel: nat, slots: nat): real
    requires Valid(mix) && row < |mix.flat| && channel < mix.dim && slots <= mix.topK
    decreases slots
  {
    if slots == 0 then 0.0
    else
      SlotInside(|mix.flat|, mix.topK, row, slots - 1);
      Naive(mix, row, channel, slots - 1) + Share(mix, row * mix.topK + slots - 1, channel)
  }

  lemma SlotInside(rows: nat, topK: nat, row: nat, slot: nat)
    requires row < rows && slot < topK
    ensures row * topK + slot < rows * topK && RowOf(row * topK + slot, topK) == row
  {
    MultipleApart(row, rows, topK);
    QuotientIs(topK, row, slot);
  }

  lemma {:induction false} OrderUpTo(selected: seq<nat>, experts: nat, n: nat) returns (order: seq<nat>)
    requires n <= |selected| && forall i | 0 <= i < |selected| :: selected[i] < experts
    ensures |order| == n && forall p | 0 <= p < n :: order[p] < |selected| && Place(selected, order[p]) == p
  {
    hide Place;
    order := [];
    if n > 0 {
      order := OrderUpTo(selected, experts, n - 1);
      var i := PlaceTaken(selected, experts, n - 1);
      order := order + [i];
    }
  }

  lemma OrderExists(selected: seq<nat>, experts: nat) returns (order: seq<nat>)
    requires forall i | 0 <= i < |selected| :: selected[i] < experts
    ensures IsOrder(selected, order)
    ensures Distinct(order) && forall i: nat :: i in order <==> i < |selected|
  {
    hide Place;
    order := OrderUpTo(selected, experts, |selected|);
    forall i | 0 <= i < |selected| ensures Place(selected, i) < |order| && order[Place(selected, i)] == i {
      PlaceBelow(selected, experts, i);
      if order[Place(selected, i)] != i {
        PlaceApart(selected, order[Place(selected, i)], i);
      }
    }
    forall i: nat ensures i in order <==> i < |selected| {
      if i < |selected| {
        assert order[Place(selected, i)] == i;
      }
    }
  }

  /** Summing the pairs of a row over all pairs, or over the row's slots, is the same. */
  lemma RowOnly(mix: Mixture, row: nat, channel: nat)
    requires Valid(mix) && row < |mix.flat| && channel < mix.dim
    ensures SumTo(Terms(mix, row, channel), |mix.selected|) == Naive(mix, row, channel, mix.topK)
  {
    hide Valid, Share;
    var g, start := Terms(mix, row, channel), row * mix.topK;
    ValidTopK(mix);
    forall i | 0 <= i < start ensures g(i) == 0.0 {
      RowInside(row, mix.topK, i);
    }
    SumGap(g, 0, start);
    SlotsSum(mix, row, channel, mix.topK);
    MultipleApart(row, |mix.flat|, mix.topK);
    forall i | start + mix.topK <= i < |mix.selected| ensures g(i) == 0.0 {
      RowInside(|mix.flat|, mix.topK, i);
      LaterRow(mix.topK, row, i);
    }
    SumGap(g, start + mix.topK, |mix.selected|);
  }

  lemma ValidTopK(mix: Mixture)
    requires Valid(mix)
    ensures |mix.selected| == |mix.weights| == |mix.flat| * mix.topK
  {
  }

  lemma LaterRow(topK: nat, row: nat, i: nat)
    requires topK > 0 && row * topK + topK <= i
    ensures RowOf(i, topK) != row
  {
    assert i == (i / topK) * topK + i % topK;
  }

  lemma {:induction false} SlotsSum(mix: Mixture, row: nat, channel: nat, slots: nat)
    requires Valid(mix) && row < |mix.flat| && channel < mix.dim && slots <= mix.topK
    ensures SumTo(Terms(mix, row, channel), row * mix.topK + slots)
            == SumTo(Terms(mix, row, channel), row * mix.topK) + Naive(mix, row, channel, slots)
  {
    hide Valid, Share;
    if slots > 0 {
      ValidTopK(mix);
      SlotsSum(mix, row, channel, slots - 1);
      SlotInside(|mix.flat|, mix.topK, row, slots - 1);
    }
  }

  ghost predicate RowSums(mix: Mixture, output: seq<Vec>, done: seq<nat>)
    requires Valid(mix)
  {
    && |output| == |mix.flat|
    && forall r | 0 <= r < |output| :: RowSum(mix, output[r], r, done)
  }

  /** A row holds the shares of the pairs scattered so far. */
  ghost predicate RowSum(mix: Mixture, row: Vec, r: nat, done: seq<nat>)
    requires Valid(mix)
  {
    && |row| == mix.dim
    && forall c | 0 <= c < mix.dim :: row[c] == SumOver(Terms(mix, r, c), done)
  }

  lemma RowSumOther(mix: Mixture, row: Vec, r: nat, done: seq<nat>, i: nat)
    requires Valid(mix) && RowSum(mix, row, r, done) && RowOf(i, mix.topK) != r
    ensures RowSum(mix, row, r, done + [i])
  {
    hide Valid, Share;
    forall c | 0 <= c < mix.dim ensures row[c] == SumOver(Terms(mix, r, c), done + [i]) {
      SumAppend(Terms(mix, r, c), done, i);
    }
  }

  lemma RowSumOwn(mix: Mixture, row: Vec, done: seq<nat>, i: nat)
    requires Valid(mix) && i < |mix.selected| && RowSum(mix, row, RowOf(i, mix.topK), done)
    requires RowOf(i, mix.topK) < |mix.flat| && |mix.apply(mix.selected[i], mix.flat[RowOf(i, mix.topK)])| == |row|
    ensures var longer := Axpy(mix.weights[i] * mix.scale, row, mix.apply(mix.selected[i], mix.flat[RowOf(i, mix.topK)]));
            RowSum(mix, longer, RowOf(i, mix.topK), done + [i])
  {
    hide Valid;
    ValidTopK(mix);
    var r := RowOf(i, mix.topK);
    var longer := Axpy(mix.weights[i] * mix.scale, row, mix.apply(mix.selected[i], mix.flat[r]));
    forall c | 0 <= c < mix.dim ensures longer[c] == SumOver(Terms(mix, r, c), done + [i]) {
      SumAppend(Terms(mix, r, c), done, i);
    }
  }

  /** Scatters the expert outputs back, in the order they were gathered. */
  method Combine(
      mix: Mixture, gatheredRows: array<nat>, gatheredWeights: array<real>, grouped: seq<Vec>, ghost order: seq<nat>)
      returns (output: array<Vec>)
    requires Valid(mix) && IsOrder(mix.selected, order)
    requires gatheredRows.Length == gatheredWeights.Length == |grouped| == |mix.selected|
    requires forall p | 0 <= p < |order| :: PairAt(mix, gatheredRows, gatheredWeights, grouped, p, order[p])
    ensures fresh(output) && RowSums(mix, output[..], order)
  {
    hide Valid, IsOrder, RowSum, Place;
    var zero := seq(mix.dim, _ => 0.0);
    output := new Vec[|mix.flat|](_ => zero);
    NothingSummed(mix, output[..], zero);
    OrderLength(mix.selected, order);
    assert order[..0] == [];
    for p := 0 to |grouped|
      invariant RowSums(mix, output[..], order[..p])
    {
      ghost var i := order[p];
      PairFacts(mix, gatheredRows, gatheredWeights, grouped, p, i);
      var weight := gatheredWeights[p] * mix.scale;
      var row := gatheredRows[p];
      assert weight == mix.weights[i] * mix.scale && row == RowOf(i, mix.topK);
      assert grouped[p] == mix.apply(mix.selected[i], mix.flat[row]);
      assert RowSum(mix, output[..][row], row, order[..p]);
      RowWidth(mix, output[row], row, order[..p]);
      ghost var before := output[..];
      RowSumOwn(mix, output[row], order[..p], i);
      var longer := Axpy(weight, output[row], grouped[p]);
      assert RowSum(mix, longer, row, order[..p] + [i]);
      output[row] := longer;
      assert order[..p + 1] == order[..p] + [i];
      forall r | 0 <= r < output.Length ensures RowSum(mix, output[..][r], r, order[..p + 1]) {
        if r != row {
          assert RowSum(mix, before[r], r, order[..p]);
          RowSumOther(mix, output[r], r, order[..p], i);
        }
      }
    }
    assert order[..|grouped|] == order;
  }

  /** Place `p` of the gathered buffers is pair `i`'s. */
  ghost predicate PairAt(
      mix: Mixture, gatheredRows: array<nat>, gatheredWeights: array<real>, grouped: seq<Vec>, p: nat, i: nat)
    requires Valid(mix)
    reads gatheredRows, gatheredWeights
  {
    && i < |mix.selected| && p < gatheredRows.Length && p < gatheredWeights.Length && p < |grouped|
    && RowOf(i, mix.topK) < |mix.flat|
    && gatheredRows[p] == RowOf(i, mix.topK) && gatheredWeights[p] == mix.weights[i]
    && grouped[p] == mix.apply(mix.selected[i], mix.flat[RowOf(i, mix.topK)])
  }

  lemma PairFacts(
      mix: Mixture, gatheredRows: array<nat>, gatheredWeights: array<real>, grouped: seq<Vec>, p: nat, i: nat)
    requires Valid(mix) && PairAt(mix, gatheredRows, gatheredWeights, grouped, p, i)
    ensures i < |mix.selected| == |mix.weights| && RowOf(i, mix.topK) < |mix.flat|
    ensures |mix.apply(mix.selected[i], mix.flat[RowOf(i, mix.topK)])| == mix.dim
  {
    assert OutputWide(mix, mix.selected[i], mix.flat[RowOf(i, mix.topK)]);
  }

  lemma RowWidth(mix: Mixture, row: Vec, r: nat, done: seq<nat>)
    requires Valid(mix) && RowSum(mix, row, r, done)
    ensures |row| == mix.dim
  {
  }

  lemma OrderLength(selected: seq<nat>, order: seq<nat>)
    requires IsOrder(selected, order)
    ensures |order| == |selected|
  {
  }

  lemma NothingSummed(mix: Mixture, output: seq<Vec>, zero: Vec)
    requires Valid(mix) && |output| == |mix.flat| && zero == seq(mix.dim, _ => 0.0)
    requires forall r | 0 <= r < |output| :: output[r] == zero
    ensures RowSums(mix, output, [])
  {
    hide Valid;
  }

  /** What was gathered and computed at each place belongs to the pair of that place. */
  lemma PairsReady(
      mix: Mixture, gathered: array<Vec>, gatheredRows: array<nat>, gatheredWeights: array<real>, grouped: seq<Vec>,
      order: seq<nat>)
    requires Valid(mix) && IsOrder(mix.selected, order)
    requires gathered.Length == gatheredRows.Length == gatheredWeights.Length == |grouped| == |mix.selected|
    requires GatheredTo(mix.selected, mix.weights, mix.flat, mix.topK, gathered, gatheredRows, gatheredWeights,
                        |mix.selected|)
    requires forall i | 0 <= i < |mix.selected| ::
               var p := Place(mix.selected, i); p < |grouped| && grouped[p] == mix.apply(mix.selected[i], gathered[..][p])
    ensures forall p | 0 <= p < |order| :: PairAt(mix, gatheredRows, gatheredWeights, grouped, p, order[p])
  {
    hide Place, RowOf;
    forall p | 0 <= p < |order| ensures PairAt(mix, gatheredRows, gatheredWeights, grouped, p, order[p]) {
      assert Gathered(mix.selected, mix.weights, mix.flat, mix.topK, gathered, gatheredRows, gatheredWeights, order[p]);
      assert gathered[..][p] == gathered[p];
    }
  }

  /** Rows that hold every pair's share hold the naive mixture. */
  lemma RowMixed(mix: Mixture, output: seq<Vec>, order: seq<nat>, r: nat, c: nat)
    requires Valid(mix) && RowSums(mix, output, order) && r < |mix.flat| && c < mix.dim
    requires Distinct(order) && forall i: nat :: i in order <==> i < |mix.selected|
    ensures |output| == |mix.flat| && |output[r]| == mix.dim && output[r][c] == Naive(mix, r, c, mix.topK)
  {
    hide Valid, Naive, Terms;
    assert RowSum(mix, output[r], r, order);
    SumPermuted(Terms(mix, r, c), order, |mix.selected|);
    RowOnly(mix, r, c);
  }

  /** The naive mixture of a row, written out: the sum over its slots of weight, scale and the
      expert's output on the row. */
  lemma {:induction false} NaiveIs(mix: Mixture, row: nat, channel: nat, slots: nat, terms: seq<real>)
    requires Valid(mix) && row < |mix.flat| && channel < mix.dim && |terms| == slots <= mix.topK
    requires row * mix.topK + slots <= |mix.selected| == |mix.weights|
    requires forall k | 0 <= k < slots :: SlotTerm(mix, row, channel, row * mix.topK + k, terms[k])
    ensures Naive(mix, row, channel, slots) == Sum(terms)
  {
    if slots > 0 {
      NaiveIs(mix, row, channel, slots - 1, terms[..slots - 1]);
      SlotInside(|mix.flat|, mix.topK, row, slots - 1);
      assert SlotTerm(mix, row, channel, row * mix.topK + (slots - 1), terms[slots - 1]);
    }
  }

  ghost predicate SlotTerm(mix: Mixture, row: nat, channel: nat, i: nat, term: real)
    requires i < |mix.selected| == |mix.weights| && row < |mix.flat|
  {
    && channel < |mix.apply(mix.selected[i], mix.flat[row])|
    && term == mix.weights[i] * mix.scale * mix.apply(mix.selected[i], mix.flat[row])[channel]
  }

  /** The layer's forward pass: every channel of every row is the scaled, weighted sum over exactly
      that row's own slots. */
  method Forward(mix: Mixture) returns (output: array<Vec>)
    requires Valid(mix)
    ensures fresh(output) && output.Length == |mix.flat|
    ensures forall r: nat, c: nat | r < |mix.flat| && c < mix.dim ::
              |output[r]| == mix.dim && output[r][c] == Naive(mix, r, c, mix.topK)
  {
    hide Place, Count, Below, GatheredTo, IsOrder, PairAt;
    var tokenCounts := TokenCounts(mix.selected, mix.experts);
    var offsets := Offsets(mix.selected, mix.experts, tokenCounts);
    var gathered, gatheredRows, gatheredWeights :=
      Gather(mix.selected, mix.weights, mix.flat, mix.topK, mix.experts, offsets);
    var grouped := GroupedExperts(gathered[..], tokenCounts, mix.experts, mix.apply, mix.selected);
    ghost var order := OrderExists(mix.selected, mix.experts);
    PairsReady(mix, gathered, gatheredRows, gatheredWeights, grouped, order);
    output := Combine(mix, gatheredRows, gatheredWeights, grouped, order);
    forall r: nat, c: nat | r < |mix.flat| && c < mix.dim
      ensures |output[r]| == mix.dim && output[r][c] == Naive(mix, r, c, mix.topK)
    {
      RowMixed(mix, output[..], order, r, c);
    }
  }
}
