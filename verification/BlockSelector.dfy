/** The selector's loops: block maxima patched in place, whole-matrix and chunked selection. */
module BlockSelector {
  import opened Division
  import opened TopK
  import opened BlockSelection

  /** The entries a query at `position` may see: the blocks strictly before its own. */
  function Allowed(position: nat, ratio: nat, blockCount: nat): nat
    requires ratio >= 1
  {
    Min(position / ratio, blockCount)
  }

  /** In plain arithmetic: an entry is visible exactly when its block ends at or before the position. */
  lemma AllowedIff(position: nat, ratio: nat, blockCount: nat, e: nat)
    requires ratio >= 1
    ensures e < Allowed(position, ratio, blockCount) <==> e < blockCount && (e + 1) * ratio <= position
  {
    var q := position / ratio;
    DivMod(position, ratio);
    MultipleApart(e, q, ratio);
    MultipleApart(q, e, ratio);
    assert (e + 1) * ratio == e * ratio + ratio;
  }

  lemma {:induction false} MaxOfPrefix(row: seq<real>, n: nat, lo: nat, hi: nat)
    requires lo < hi <= n <= |row|
    ensures MaxOf(row[..n], lo, hi) == MaxOf(row, lo, hi)
    decreases hi
  {
    if hi > lo + 1 {
      MaxOfPrefix(row, n, lo, hi - 1);
    }
  }

  /** Every group that ends inside `entries` is whole; only the last one can be cut. */
  lemma GroupCut(entries: nat, pool: nat, group: nat)
    requires pool >= 1 && group < GroupCount(entries, pool)
    ensures GroupEnd(group, entries, pool)
            == if group + 1 == GroupCount(entries, pool) && entries % pool != 0 then entries else (group + 1) * pool
  {
    var q, r := entries / pool, entries % pool;
    assert entries == q * pool + r;
    if r == 0 {
      DivisionBlock(pool, entries + pool - 1, q);
      Scaled(pool, group + 1, q);
    } else {
      assert (q + 1) * pool == q * pool + pool;
      assert (q + 2) * pool == q * pool + 2 * pool;
      DivisionBlock(pool, entries + pool - 1, q + 1);
      if group + 1 <= q {
        Scaled(pool, group + 1, q);
      }
    }
  }

  lemma GroupsFit(allowed: nat, blockCount: nat, pool: nat)
    requires pool >= 1 && allowed <= blockCount
    ensures GroupCount(allowed, pool) <= GroupCount(blockCount, pool)
  {
    if allowed > 0 {
      GroupOf(allowed, pool, 0, allowed - 1);
      GroupOf(blockCount, pool, 0, allowed - 1);
      var last := GroupCount(allowed, pool) - 1;
      GroupRange(allowed, pool, last);
      GroupOf(blockCount, pool, last, last * pool);
      DivisionBlock(pool, last * pool, last);
    } else {
      DivisionBlock(pool, pool - 1, 0);
    }
  }

  lemma CoarseAt(scores: seq<real>, allowed: nat, pool: nat, g: nat)
    requires pool >= 1 && allowed <= |scores| && g < GroupCount(allowed, pool)
    requires g < GroupCount(|scores|, pool)
    ensures g * pool < allowed
    ensures Coarse(scores[..allowed], pool)[g]
            == if g + 1 == GroupCount(allowed, pool) && allowed % pool != 0 then MaxOf(scores, g * pool, allowed)
               else Coarse(scores, pool)[g]
  {
    GroupRange(allowed, pool, g);
    GroupRange(|scores|, pool, g);
    GroupCut(allowed, pool, g);
    MaxOfPrefix(scores, allowed, g * pool, GroupEnd(g, allowed, pool));
  }

  /** Patching the last, cut group makes the maxima those of the visible prefix. */
  lemma PatchedCoarse(scores: seq<real>, allowed: nat, pool: nat, maxima: seq<real>, patched: seq<real>)
    requires pool >= 1 && 0 < allowed <= |scores| && maxima == Coarse(scores, pool)
    requires |patched| == GroupCount(allowed, pool) <= |maxima|
    requires forall g | 0 <= g < |patched| ::
               if g + 1 == |patched| && allowed % pool != 0
               then g * pool < allowed && patched[g] == MaxOf(scores, g * pool, allowed)
               else patched[g] == maxima[g]
    ensures patched == Coarse(scores[..allowed], pool)
  {
    forall g | 0 <= g < |patched|
      ensures patched[g] == Coarse(scores[..allowed], pool)[g]
    {
      CoarseAt(scores, allowed, pool, g);
    }
  }

  method TopKFromScoreRow(scoreRow: seq<real>, candidates: seq<nat>, topK: int) returns (selected: seq<nat>)
    requires Indices(scoreRow, candidates)
    ensures selected == PickIndices(candidates, Top(Pick(scoreRow, candidates), topK))
  {
    if |candidates| == 0 || topK <= 0 {
      return [];
    }
    var fine: seq<real> := [];
    for index := 0 to |candidates|
      invariant fine == Pick(scoreRow, candidates)[..index]
    {
      fine := fine + [scoreRow[candidates[index]]];
    }
    assert fine == Pick(scoreRow, candidates);
    var order := TopKIndices(fine, topK);
    selected := [];
    for index := 0 to |order|
      invariant selected == PickIndices(candidates, order)[..index]
    {
      selected := selected + [candidates[order[index]]];
    }
    assert selected == PickIndices(candidates, order);
  }

  method AppendEntries(before: seq<nat>, start: nat, end: nat) returns (candidates: seq<nat>)
    requires start <= end
    ensures candidates == before + Range(start, end)
  {
    candidates := before;
    for entry := start to end
      invariant candidates == before + Range(start, entry)
    {
      candidates := candidates + [entry];
    }
  }

  method CollectCandidates(chosen: seq<nat>, allowed: nat, pool: nat) returns (candidates: seq<nat>)
    requires pool >= 1 && forall i | 0 <= i < |chosen| :: chosen[i] < GroupCount(allowed, pool)
    ensures candidates == Members(chosen, allowed, pool)
  {
    hide Members, GroupCount, GroupEnd, Range;
    candidates := [];
    MembersFrom(chosen, allowed, pool, |chosen|);
    assert chosen[0..] == chosen;
    for index := 0 to |chosen|
      invariant candidates + Members(chosen[index..], allowed, pool) == Members(chosen, allowed, pool)
    {
      var start := chosen[index] * pool;
      var end := Min(start + pool, allowed);
      MembersFrom(chosen, allowed, pool, index);
      candidates := AppendEntries(candidates, start, end);
    }
  }

  lemma MembersFrom(chosen: seq<nat>, allowed: nat, pool: nat, index: nat)
    requires pool >= 1 && index <= |chosen|
    requires forall i | 0 <= i < |chosen| :: chosen[i] < GroupCount(allowed, pool)
    ensures index == |chosen| ==> Members(chosen[index..], allowed, pool) == []
    ensures index < |chosen| ==>
              var start := chosen[index] * pool;
              var end := Min(start + pool, allowed);
              start <= end && Members(chosen[index..], allowed, pool)
                              == Range(start, end) + Members(chosen[index + 1..], allowed, pool)
  {
    hide GroupCount, Range;
    if index < |chosen| {
      GroupRange(allowed, pool, chosen[index]);
      assert chosen[index..][1..] == chosen[index + 1..];
      assert (chosen[index] + 1) * pool == chosen[index] * pool + pool;
    }
  }

  method GroupMax(row: seq<real>, lo: nat, hi: nat) returns (maximum: real)
    requires lo < hi <= |row|
    ensures maximum == MaxOf(row, lo, hi)
  {
    maximum := row[lo];
    for entry := lo + 1 to hi
      invariant maximum == MaxOf(row, lo, entry)
    {
      if row[entry] > maximum {
        maximum := row[entry];
      }
    }
  }

  /** Recomputes the cut trailing group of a row over its visible entries, in place. */
  method PatchRow(scoreRow: seq<real>, blockMaxRow: array<real>, allowed: nat, pool: nat)
    requires pool >= 1 && 0 < allowed <= |scoreRow|
    requires blockMaxRow[..] == Coarse(scoreRow, pool)
    modifies blockMaxRow
    ensures GroupCount(allowed, pool) <= blockMaxRow.Length
    ensures blockMaxRow[..GroupCount(allowed, pool)] == Coarse(scoreRow[..allowed], pool)
  {
    var allowedGroups := GroupCount(allowed, pool);
    GroupsFit(allowed, |scoreRow|, pool);
    ghost var maxima := blockMaxRow[..];
    if allowed % pool != 0 && allowedGroups > 0 {
      var group := allowedGroups - 1;
      GroupRange(allowed, pool, group);
      var maximum := GroupMax(scoreRow, group * pool, allowed);
      blockMaxRow[group] := maximum;
    }
    PatchedCoarse(scoreRow, allowed, pool, maxima, blockMaxRow[..allowedGroups]);
  }

  /** The selection of one row. Only the row's own block maxima are patched, and the result
      depends on nothing but the visible prefix of its scores. */
  method SelectRowBlockMax(
      scoreRow: seq<real>, blockMaxRow: array<real>, allowed: nat, topK: int, poolSize: int, budget: int)
      returns (selection: seq<nat>, candidatePool: seq<nat>)
    requires allowed <= |scoreRow| && blockMaxRow[..] == Coarse(scoreRow, AtLeastOne(poolSize))
    modifies blockMaxRow
    ensures selection == Hierarchical(scoreRow[..allowed], topK, poolSize, budget)
    ensures candidatePool == CandidatePool(scoreRow[..allowed], topK, poolSize, budget)
  {
    if allowed <= 0 || topK <= 0 {
      return [], [];
    }
    ghost var visible := scoreRow[..allowed];
    var pool := AtLeastOne(poolSize);
    PatchRow(scoreRow, blockMaxRow, allowed, pool);
    var chosen := TopKIndices(blockMaxRow[..GroupCount(allowed, pool)], GroupsPerToken(budget, pool));
    candidatePool := CollectCandidates(chosen, allowed, pool);
    assert candidatePool == CandidatePool(visible, topK, poolSize, budget);
    assert Pick(visible, candidatePool) == Pick(scoreRow, candidatePool);
    selection := TopKFromScoreRow(scoreRow, candidatePool, topK);
  }

  // ---------- many rows ----------

  datatype Query = Query(blockCount: nat, positionOffset: nat, ratio: nat, topK: int, pool: int, budget: int)

  /** Index scores per (batch, token, block): the scoring kernel's contract. */
  type Scorer = (nat, nat, nat) -> real

  function AllowedAt(q: Query, token: nat): (allowed: nat)
    requires q.ratio >= 1
    ensures allowed <= q.blockCount
  {
    Allowed(q.positionOffset + token, q.ratio, q.blockCount)
  }

  /** The selection and candidate pool of a row that sees the first `allowed` of its scores. */
  ghost predicate Selected(scores: seq<real>, allowed: nat, q: Query, selection: seq<nat>, candidates: seq<nat>)
    requires allowed <= |scores|
  {
    && selection == Hierarchical(scores[..allowed], q.topK, q.pool, q.budget)
    && candidates == CandidatePool(scores[..allowed], q.topK, q.pool, q.budget)
  }

  ghost predicate TokenSelected(scores: seq<real>, q: Query, token: nat, selection: seq<nat>, candidates: seq<nat>)
    requires q.ratio >= 1 && |scores| == q.blockCount
  {
    Selected(scores, AllowedAt(q, token), q, selection, candidates)
  }

  /** A chunk that starts at `start` sees the same blocks as the whole run. */
  lemma TokenShift(scores: seq<real>, q: Query, start: nat, token: nat, selection: seq<nat>, candidates: seq<nat>)
    requires q.ratio >= 1 && |scores| == q.blockCount
    requires TokenSelected(scores, q.(positionOffset := q.positionOffset + start), token, selection, candidates)
    ensures TokenSelected(scores, q, start + token, selection, candidates)
  {
    hide Hierarchical, CandidatePool;
  }

  ghost function TokenScores(scorer: Scorer, batch: nat, token: nat, blockCount: nat): (scores: seq<real>)
    ensures |scores| == blockCount
  {
    seq(blockCount, block requires 0 <= block < blockCount => scorer(batch, token, block))
  }

  /** Row r of the result is the selection of token r % length of batch r / length. */
  ghost predicate SelectedAt(
      scorer: Scorer, q: Query, length: nat, r: nat, selection: seq<nat>, candidates: seq<nat>)
    requires q.ratio >= 1 && length >= 1
  {
    TokenSelected(TokenScores(scorer, r / length, r % length, q.blockCount), q, r % length, selection, candidates)
  }

  ghost predicate AllSelected(
      scorer: Scorer, q: Query, length: nat, selection: seq<seq<nat>>, candidatePool: seq<seq<nat>>)
    requires q.ratio >= 1
  {
    && |selection| == |candidatePool|
    && forall r: nat | r < |selection| ::
         length >= 1 && SelectedAt(scorer, q, length, r, selection[r], candidatePool[r])
  }

  // ---------- what a selection may hold, without the bound ----------

  /** The block ends at or before the query's position. */
  ghost predicate Past(q: Query, token: nat, e: nat) {
    e < q.blockCount && (e + 1) * q.ratio <= q.positionOffset + token
  }

  /** Everything in the row lies in the query's past, and once. */
  ghost predicate OnlyPast(q: Query, token: nat, row: seq<nat>) {
    AllDistinct(row) && forall e | e in row :: e < q.blockCount && (e + 1) * q.ratio <= q.positionOffset + token
  }

  /** With room for every block, every block of the query's past is selected. */
  ghost predicate AllPast(q: Query, token: nat, selection: seq<nat>) {
    q.topK >= q.blockCount && q.budget >= q.blockCount ==>
      forall e: nat | e < q.blockCount && (e + 1) * q.ratio <= q.positionOffset + token :: e in selection
  }

  /** Two score rows that agree on the query's past. */
  ghost predicate PastAlike(q: Query, token: nat, a: seq<real>, b: seq<real>) {
    && |a| == |b| == q.blockCount
    && forall e: nat | e < q.blockCount && (e + 1) * q.ratio <= q.positionOffset + token :: a[e] == b[e]
  }

  lemma PastIff(q: Query, token: nat, e: nat)
    requires q.ratio >= 1
    ensures e < AllowedAt(q, token) <==> Past(q, token, e)
  {
    AllowedIff(q.positionOffset + token, q.ratio, q.blockCount, e);
  }

  /** Nothing of the query's own block or later is selected or pooled, and nothing before it is out of
      reach. */
  lemma TokenPast(scores: seq<real>, q: Query, token: nat, selection: seq<nat>, candidates: seq<nat>)
    requires q.ratio >= 1 && |scores| == q.blockCount && TokenSelected(scores, q, token, selection, candidates)
    ensures OnlyPast(q, token, selection) && OnlyPast(q, token, candidates) && AllPast(q, token, selection)
    ensures forall e | e in selection :: e in candidates
  {
    hide Hierarchical, CandidatePool;
    var allowed := AllowedAt(q, token);
    SelectionCausal(scores, scores, allowed, q, selection, candidates, selection, candidates);
    forall e: nat ensures e < allowed <==> Past(q, token, e) {
      PastIff(q, token, e);
    }
    assert forall i | 0 <= i < |selection| :: Past(q, token, selection[i]);
    assert forall i | 0 <= i < |candidates| :: Past(q, token, candidates[i]);
    PoolDistinct(scores[..allowed], q);
    if q.topK >= q.blockCount && q.budget >= q.blockCount {
      forall e: nat | Past(q, token, e) ensures e in selection {
        WholeRowSelected(scores[..allowed], q, e);
      }
    }
  }

  lemma PoolDistinct(row: seq<real>, q: Query)
    ensures AllDistinct(CandidatePool(row, q.topK, q.pool, q.budget))
  {
    if row != [] && q.topK > 0 {
      CandidatesDistinct(row, AtLeastOne(q.pool), GroupsPerToken(q.budget, AtLeastOne(q.pool)));
    }
  }

  /** With room for as many entries as there are, each is selected. */
  lemma WholeRowSelected(row: seq<real>, q: Query, e: nat)
    requires e < |row| <= q.topK && |row| <= q.budget
    ensures e in Hierarchical(row, q.topK, q.pool, q.budget)
  {
    hide Hierarchical;
    EnoughForAll(|row|, q.topK, q.pool, q.budget);
    HierarchicalLeads(row, q.topK, q.pool, q.budget);
    var s := Hierarchical(row, q.topK, q.pool, q.budget);
    SelectionDistinct(row, q);
    if e !in s {
      MissingOne(s, |row|, e);
      assert false;
    }
  }

  lemma SelectionDistinct(row: seq<real>, q: Query)
    ensures var s := Hierarchical(row, q.topK, q.pool, q.budget);
            AllDistinct(s) && forall i | 0 <= i < |s| :: s[i] < |row|
  {
    hide Hierarchical, CandidatePool;
    var s, pool := Hierarchical(row, q.topK, q.pool, q.budget), CandidatePool(row, q.topK, q.pool, q.budget);
    assert row[..|row|] == row;
    assert Selected(row, |row|, q, s, pool);
    SelectionCausal(row, row, |row|, q, s, pool, s, pool);
  }

  lemma EnoughForAll(entries: nat, topK: int, pool: int, budget: int)
    requires 0 < entries <= topK && entries <= budget
    ensures EnoughGroups(entries, topK, pool, budget)
  {
    var size := AtLeastOne(pool);
    QuotientMonotone(size, entries + size - 1, budget + size - 1);
  }

  /** Scores in the query's own block or later change nothing. */
  lemma TokenCausal(
      a: seq<real>, b: seq<real>, q: Query, token: nat, selection: seq<nat>, candidates: seq<nat>,
      selection': seq<nat>, candidates': seq<nat>)
    requires q.ratio >= 1 && PastAlike(q, token, a, b)
    requires TokenSelected(a, q, token, selection, candidates) && TokenSelected(b, q, token, selection', candidates')
    ensures selection == selection' && candidates == candidates'
  {
    hide Hierarchical, CandidatePool;
    var allowed := AllowedAt(q, token);
    forall e | 0 <= e < allowed ensures a[e] == b[e] {
      PastIff(q, token, e);
    }
    assert a[..allowed] == b[..allowed];
  }

  ghost predicate Matrix(scores: seq<seq<real>>, width: nat) {
    forall r | 0 <= r < |scores| :: |scores[r]| == width
  }

  /** The rows of a matrix buffer never overlap. */
  ghost predicate Disjoint(rows: seq<array<real>>) {
    forall i, j | 0 <= i < j < |rows| :: rows[i] != rows[j]
  }

  /** Row r of the block maxima is as the reduction kernel leaves it. */
  ghost predicate Reduced(scores: seq<real>, blockMaxRow: array<real>, pool: int)
    reads blockMaxRow
  {
    blockMaxRow[..] == Coarse(scores, AtLeastOne(pool))
  }

  method ReduceRow(scores: seq<real>, blockMaxRow: array<real>, pool: int)
    requires blockMaxRow.Length == GroupCount(|scores|, AtLeastOne(pool))
    modifies blockMaxRow
    ensures Reduced(scores, blockMaxRow, pool)
  {
    hide MaxOf;
    var size := AtLeastOne(pool);
    for g := 0 to blockMaxRow.Length
      invariant forall h | 0 <= h < g :: blockMaxRow[h] == Coarse(scores, size)[h]
    {
      GroupRange(|scores|, size, g);
      var maximum := GroupMax(scores, g * size, GroupEnd(g, |scores|, size));
      blockMaxRow[g] := maximum;
    }
  }

  /** The reduction kernel: the maximum of every group of columns. */
  method IndexerBlockMax(blockMax: seq<array<real>>, scores: seq<seq<real>>, width: nat, pool: int)
    requires Matrix(scores, width) && |scores| == |blockMax| && Disjoint(blockMax)
    requires forall r | 0 <= r < |blockMax| :: blockMax[r].Length == GroupCount(width, AtLeastOne(pool))
    modifies blockMax
    ensures forall r: nat | r < |scores| :: Reduced(scores[r], blockMax[r], pool)
  {
    hide Reduced, GroupCount, AtLeastOne;
    for r := 0 to |scores|
      invariant forall d: nat | d < r :: Reduced(scores[d], blockMax[d], pool)
    {
      ReduceRow(scores[r], blockMax[r], pool);
    }
  }

  lemma RowTokens(length: nat, batch: nat, token: nat)
    requires token < length
    ensures (batch * length + token) / length == batch && (batch * length + token) % length == token
  {
    DivisionBlock(length, batch * length + token, batch);
    assert (batch + 1) * length == batch * length + length;
  }

  /** The rows up to |selection| are selected; row r belongs to token r % length. */
  ghost predicate Chosen(
      scores: seq<seq<real>>, q: Query, length: nat, selection: seq<seq<nat>>, candidatePool: seq<seq<nat>>)
    requires q.ratio >= 1 && Matrix(scores, q.blockCount)
  {
    && |selection| == |candidatePool| <= |scores|
    && forall r: nat | r < |selection| && length >= 1 ::
         TokenSelected(scores[r], q, r % length, selection[r], candidatePool[r])
  }

  /** Every row of the result holds blocks of its query's past only, and all of them when there is room. */
  ghost predicate RowsPast(q: Query, length: nat, selection: seq<seq<nat>>, candidatePool: seq<seq<nat>>) {
    && |selection| == |candidatePool|
    && forall r: nat | r < |selection| && length >= 1 ::
         && OnlyPast(q, r % length, selection[r]) && OnlyPast(q, r % length, candidatePool[r])
         && AllPast(q, r % length, selection[r])
  }

  lemma ChosenPast(
      scores: seq<seq<real>>, q: Query, length: nat, selection: seq<seq<nat>>, candidatePool: seq<seq<nat>>)
    requires q.ratio >= 1 && Matrix(scores, q.blockCount) && Chosen(scores, q, length, selection, candidatePool)
    ensures RowsPast(q, length, selection, candidatePool)
  {
    hide TokenSelected, OnlyPast, AllPast;
    forall r: nat | r < |selection| && length >= 1
      ensures OnlyPast(q, r % length, selection[r]) && OnlyPast(q, r % length, candidatePool[r])
      ensures AllPast(q, r % length, selection[r])
    {
      TokenPast(scores[r], q, r % length, selection[r], candidatePool[r]);
    }
  }

  lemma AllSelectedPast(
      scorer: Scorer, q: Query, length: nat, selection: seq<seq<nat>>, candidatePool: seq<seq<nat>>)
    requires q.ratio >= 1 && AllSelected(scorer, q, length, selection, candidatePool)
    ensures RowsPast(q, length, selection, candidatePool)
  {
    hide TokenSelected, OnlyPast, AllPast;
    forall r: nat | r < |selection| && length >= 1
      ensures OnlyPast(q, r % length, selection[r]) && OnlyPast(q, r % length, candidatePool[r])
      ensures AllPast(q, r % length, selection[r])
    {
      assert SelectedAt(scorer, q, length, r, selection[r], candidatePool[r]);
      TokenPast(TokenScores(scorer, r / length, r % length, q.blockCount), q, r % length, selection[r], candidatePool[r]);
    }
  }

  /** Two score matrices that agree on every query's past select alike. */
  lemma MatrixCausal(
      a: seq<seq<real>>, b: seq<seq<real>>, q: Query, length: nat, selection: seq<seq<nat>>, pools: seq<seq<nat>>,
      selection': seq<seq<nat>>, pools': seq<seq<nat>>)
    requires q.ratio >= 1 && length >= 1 && Matrix(a, q.blockCount) && Matrix(b, q.blockCount) && |a| == |b|
    requires Chosen(a, q, length, selection, pools) && Chosen(b, q, length, selection', pools')
    requires |selection| == |selection'| == |a|
    requires forall r: nat | r < |a| :: PastAlike(q, r % length, a[r], b[r])
    ensures selection == selection' && pools == pools'
  {
    hide TokenSelected, PastAlike;
    forall r: nat | r < |a| ensures selection[r] == selection'[r] && pools[r] == pools'[r] {
      TokenCausal(a[r], b[r], q, r % length, selection[r], pools[r], selection'[r], pools'[r]);
    }
  }

  /** Two scorers that agree on every query's past are selected from alike. */
  lemma ScorerCausal(
      a: Scorer, b: Scorer, q: Query, length: nat, selection: seq<seq<nat>>, pools: seq<seq<nat>>,
      selection': seq<seq<nat>>, pools': seq<seq<nat>>)
    requires q.ratio >= 1 && |selection| == |selection'|
    requires AllSelected(a, q, length, selection, pools) && AllSelected(b, q, length, selection', pools')
    requires forall batch: nat, token: nat, e: nat |
               e < q.blockCount && (e + 1) * q.ratio <= q.positionOffset + token :: a(batch, token, e) == b(batch, token, e)
    ensures selection == selection' && pools == pools'
  {
    hide TokenSelected;
    forall r: nat | r < |selection| ensures selection[r] == selection'[r] && pools[r] == pools'[r] {
      assert SelectedAt(a, q, length, r, selection[r], pools[r]) && SelectedAt(b, q, length, r, selection'[r], pools'[r]);
      TokenCausal(TokenScores(a, r / length, r % length, q.blockCount), TokenScores(b, r / length, r % length, q.blockCount),
                  q, r % length, selection[r], pools[r], selection'[r], pools'[r]);
    }
  }

  method SelectRow(scoreRow: seq<real>, blockMaxRow: array<real>, allowed: nat, q: Query)
      returns (selection: seq<nat>, candidates: seq<nat>)
    requires allowed <= |scoreRow| && Reduced(scoreRow, blockMaxRow, q.pool)
    modifies blockMaxRow
    ensures Selected(scoreRow, allowed, q, selection, candidates)
  {
    selection, candidates := SelectRowBlockMax(scoreRow, blockMaxRow, allowed, q.topK, q.pool, q.budget);
  }

  /** Selects every row of the matrix, patching each row's block maxima just before use. */
  method SelectRows(scores: seq<seq<real>>, blockMax: seq<array<real>>, batchSize: nat, length: nat, q: Query)
      returns (selection: seq<seq<nat>>, candidatePool: seq<seq<nat>>)
    requires q.ratio >= 1 && Matrix(scores, q.blockCount) && batchSize * length == |scores| == |blockMax|
    requires Disjoint(blockMax) && forall r: nat | r < |scores| :: Reduced(scores[r], blockMax[r], q.pool)
    modifies blockMax
    ensures Chosen(scores, q, length, selection, candidatePool) && |selection| == |scores|
    ensures RowsPast(q, length, selection, candidatePool)
  {
    hide Hierarchical, CandidatePool, Coarse, Allowed, RowsPast;
    selection, candidatePool := [], [];
    var row := 0;
    for batch := 0 to batchSize
      invariant |selection| == row == batch * length && row <= |scores|
      invariant Chosen(scores, q, length, selection, candidatePool)
      invariant forall r: nat | row <= r < |scores| :: Reduced(scores[r], blockMax[r], q.pool)
    {
      Scaled(length, batch + 1, batchSize);
      assert (batch + 1) * length == batch * length + length;
      for token := 0 to length
        invariant |selection| == row == batch * length + token && row <= |scores|
        invariant Chosen(scores, q, length, selection, candidatePool)
        invariant forall r: nat | row <= r < |scores| :: Reduced(scores[r], blockMax[r], q.pool)
      {
        RowTokens(length, batch, token);
        var chosen, candidates := SelectRow(scores[row], blockMax[row], AllowedAt(q, token), q);
        selection, candidatePool := selection + [chosen], candidatePool + [candidates];
        row := row + 1;
      }
    }
    ChosenPast(scores, q, length, selection, candidatePool);
  }

  method NewRows(count: nat, width: nat) returns (rows: seq<array<real>>)
    ensures |rows| == count && Disjoint(rows) && fresh(rows)
    ensures forall r | 0 <= r < count :: rows[r].Length == width
  {
    rows := [];
    for r := 0 to count
      invariant |rows| == r && Disjoint(rows) && fresh(rows)
      invariant forall d | 0 <= d < r :: rows[d].Length == width
    {
      var row := new real[width];
      rows := rows + [row];
    }
  }

  /** Selection against a precomputed score matrix. */
  method SelectFromScoreMatrix(scores: seq<seq<real>>, batchSize: nat, length: nat, q: Query)
      returns (selection: seq<seq<nat>>, candidatePool: seq<seq<nat>>)
    requires q.ratio >= 1 && Matrix(scores, q.blockCount) && batchSize * length == |scores|
    ensures Chosen(scores, q, length, selection, candidatePool) && |selection| == |scores|
    ensures RowsPast(q, length, selection, candidatePool)
  {
    hide RowsPast;
    if q.blockCount == 0 {
      selection := seq(|scores|, _ => []);
      candidatePool := seq(|scores|, _ => []);
      ChosenPast(scores, q, length, selection, candidatePool);
      return;
    }
    var blockMax := NewRows(|scores|, GroupCount(q.blockCount, AtLeastOne(q.pool)));
    IndexerBlockMax(blockMax, scores, q.blockCount, q.pool);
    selection, candidatePool := SelectRows(scores, blockMax, batchSize, length, q);
  }

  const CHUNK_ROWS: nat := 256

  ghost function ChunkScores(scorer: Scorer, batch: nat, start: nat, rows: nat, blockCount: nat): (scores: seq<seq<real>>)
    ensures |scores| == rows
    ensures forall r | 0 <= r < rows :: scores[r] == TokenScores(scorer, batch, start + r, blockCount)
    ensures Matrix(scores, blockCount)
  {
    var scores := seq(rows, r requires 0 <= r < rows => TokenScores(scorer, batch, start + r, blockCount));
    assert forall r | 0 <= r < rows :: scores[r] == TokenScores(scorer, batch, start + r, blockCount);
    scores
  }

  /** The scoring kernel for one chunk of query rows. */
  method IndexerScores(scorer: Scorer, batch: nat, start: nat, rows: nat, blockCount: nat)
      returns (scores: seq<seq<real>>)
    ensures scores == ChunkScores(scorer, batch, start, rows, blockCount)
  {
    scores := [];
    for r := 0 to rows
      invariant scores == ChunkScores(scorer, batch, start, rows, blockCount)[..r]
    {
      var row := seq(blockCount, block requires 0 <= block < blockCount => scorer(batch, start + r, block));
      scores := scores + [row];
    }
  }

  /** The rows of one chunk, at their place in the whole result. */
  lemma ChunkRows(
      scorer: Scorer, q: Query, length: nat, batch: nat, start: nat, rows: nat, before: seq<seq<nat>>,
      poolsBefore: seq<seq<nat>>, selection: seq<seq<nat>>, pools: seq<seq<nat>>)
    requires q.ratio >= 1 && 0 < rows && start + rows <= length && |before| == batch * length + start
    requires AllSelected(scorer, q, length, before, poolsBefore) && |selection| == rows
    requires Chosen(ChunkScores(scorer, batch, start, rows, q.blockCount),
                    q.(positionOffset := q.positionOffset + start), rows, selection, pools)
    ensures AllSelected(scorer, q, length, before + selection, poolsBefore + pools)
  {
    hide SelectedAt, TokenSelected;
    forall r: nat | r < rows
      ensures SelectedAt(scorer, q, length, |before| + r, selection[r], pools[r])
    {
      ChunkRow(scorer, q, length, batch, start, rows, r, selection, pools);
    }
    forall r: nat | r < |before| + rows
      ensures SelectedAt(scorer, q, length, r, (before + selection)[r], (poolsBefore + pools)[r])
    {
      if r >= |before| {
        assert SelectedAt(scorer, q, length, |before| + (r - |before|), selection[r - |before|], pools[r - |before|]);
      }
    }
  }

  lemma ChunkRow(
      scorer: Scorer, q: Query, length: nat, batch: nat, start: nat, rows: nat, r: nat,
      selection: seq<seq<nat>>, pools: seq<seq<nat>>)
    requires q.ratio >= 1 && r < rows && start + rows <= length && |selection| == rows
    requires Chosen(ChunkScores(scorer, batch, start, rows, q.blockCount),
                    q.(positionOffset := q.positionOffset + start), rows, selection, pools)
    ensures SelectedAt(scorer, q, length, batch * length + start + r, selection[r], pools[r])
  {
    hide Selected, TokenSelected;
    var scores := ChunkScores(scorer, batch, start, rows, q.blockCount);
    RowTokens(rows, 0, r);
    assert TokenSelected(scores[r], q.(positionOffset := q.positionOffset + start), r, selection[r], pools[r]);
    TokenShift(scores[r], q, start, r, selection[r], pools[r]);
    RowTokens(length, batch, start + r);
    assert batch * length + (start + r) == batch * length + start + r;
  }

  /** Chunked selection straight from the projections: scratch rows are reused between chunks. */
  method SelectProjectedScores(scorer: Scorer, batchSize: nat, length: nat, q: Query)
      returns (selection: seq<seq<nat>>, candidatePool: seq<seq<nat>>)
    requires q.ratio >= 1
    ensures AllSelected(scorer, q, length, selection, candidatePool) && |selection| == batchSize * length
    ensures RowsPast(q, length, selection, candidatePool)
  {
    hide AllSelected, Chosen, RowsPast;
    if q.blockCount == 0 {
      selection := seq(batchSize * length, _ => []);
      candidatePool := seq(batchSize * length, _ => []);
      NothingToSelect(scorer, q, length, batchSize, selection, candidatePool);
      AllSelectedPast(scorer, q, length, selection, candidatePool);
      return;
    }
    NothingToSelect(scorer, q, length, 0, [], []);
    var chunkRows := Min(CHUNK_ROWS, length);
    var blockMaxChunk := NewRows(chunkRows, GroupCount(q.blockCount, AtLeastOne(q.pool)));
    selection, candidatePool := [], [];
    for batch := 0 to batchSize
      invariant |selection| == batch * length
      invariant AllSelected(scorer, q, length, selection, candidatePool)
    {
      selection, candidatePool :=
        SelectBatch(scorer, batch, length, chunkRows, blockMaxChunk, q, selection, candidatePool);
      assert (batch + 1) * length == batch * length + length;
    }
    AllSelectedPast(scorer, q, length, selection, candidatePool);
  }

  /** The rows of one batch, chunk by chunk over the same buffers. */
  method SelectBatch(
      scorer: Scorer, batch: nat, length: nat, chunkRows: nat, blockMaxChunk: seq<array<real>>, q: Query,
      before: seq<seq<nat>>, poolsBefore: seq<seq<nat>>)
      returns (selection: seq<seq<nat>>, candidatePool: seq<seq<nat>>)
    requires q.ratio >= 1 && |blockMaxChunk| == chunkRows == Min(CHUNK_ROWS, length) && Disjoint(blockMaxChunk)
    requires forall r | 0 <= r < chunkRows :: blockMaxChunk[r].Length == GroupCount(q.blockCount, AtLeastOne(q.pool))
    requires |before| == batch * length && AllSelected(scorer, q, length, before, poolsBefore)
    modifies blockMaxChunk
    ensures |selection| == |before| + length && AllSelected(scorer, q, length, selection, candidatePool)
  {
    hide AllSelected, Chosen;
    selection, candidatePool := before, poolsBefore;
    var chunkStart := 0;
    while chunkStart < length
      invariant chunkStart <= length && |selection| == |before| + chunkStart
      invariant AllSelected(scorer, q, length, selection, candidatePool)
    {
      var chunkEnd := Min(chunkStart + chunkRows, length);
      var rows := chunkEnd - chunkStart;
      var chosen, candidates := SelectChunk(scorer, batch, chunkStart, rows, blockMaxChunk[..rows], q);
      ChunkRows(scorer, q, length, batch, chunkStart, rows, selection, candidatePool, chosen, candidates);
      selection, candidatePool := selection + chosen, candidatePool + candidates;
      chunkStart := chunkEnd;
    }
  }

  /** Without blocks, or without rows, nothing is selected. */
  lemma NothingToSelect(
      scorer: Scorer, q: Query, length: nat, batches: nat, selection: seq<seq<nat>>, pools: seq<seq<nat>>)
    requires q.ratio >= 1 && (batches == 0 || q.blockCount == 0)
    requires selection == pools == seq(batches * length, _ => [])
    ensures AllSelected(scorer, q, length, selection, pools)
  {
    hide SelectedAt, TokenSelected;
    forall r: nat | r < |selection| ensures length >= 1 && SelectedAt(scorer, q, length, r, selection[r], pools[r]) {
      NoTokenSelected(scorer, q, length, batches, r);
    }
  }

  lemma NoTokenSelected(scorer: Scorer, q: Query, length: nat, batches: nat, r: nat)
    requires q.ratio >= 1 && q.blockCount == 0 && r < batches * length
    ensures length >= 1 && SelectedAt(scorer, q, length, r, [], [])
  {
    assert length == 0 ==> batches * length == 0;
  }

  method SelectChunk(scorer: Scorer, batch: nat, start: nat, rows: nat, blockMax: seq<array<real>>, q: Query)
      returns (selection: seq<seq<nat>>, candidatePool: seq<seq<nat>>)
    requires q.ratio >= 1 && |blockMax| == rows && Disjoint(blockMax)
    requires forall r | 0 <= r < rows :: blockMax[r].Length == GroupCount(q.blockCount, AtLeastOne(q.pool))
    modifies blockMax
    ensures Chosen(ChunkScores(scorer, batch, start, rows, q.blockCount),
                   q.(positionOffset := q.positionOffset + start), rows, selection, candidatePool)
    ensures |selection| == rows
    ensures RowsPast(q.(positionOffset := q.positionOffset + start), rows, selection, candidatePool)
  {
    var scores := IndexerScores(scorer, batch, start, rows, q.blockCount);
    IndexerBlockMax(blockMax, scores, q.blockCount, q.pool);
    selection, candidatePool := SelectRows(scores, blockMax, 1, rows, q.(positionOffset := q.positionOffset + start));
  }

  /** Selecting in chunks and selecting from the whole matrix agree. */
  lemma ChunkedIsWhole(
      scorer: Scorer, q: Query, length: nat, scores: seq<seq<real>>, chunked: seq<seq<nat>>,
      chunkedPool: seq<seq<nat>>, whole: seq<seq<nat>>, wholePool: seq<seq<nat>>)
    requires q.ratio >= 1 && Matrix(scores, q.blockCount)
    requires forall r: nat | r < |scores| ::
               length >= 1 && scores[r] == TokenScores(scorer, r / length, r % length, q.blockCount)
    requires AllSelected(scorer, q, length, chunked, chunkedPool) && Chosen(scores, q, length, whole, wholePool)
    requires |chunked| == |whole| == |scores|
    ensures chunked == whole && chunkedPool == wholePool
  {
    forall r: nat | r < |scores| ensures chunked[r] == whole[r] && chunkedPool[r] == wholePool[r] {
      assert SelectedAt(scorer, q, length, r, chunked[r], chunkedPool[r]);
    }
  }

  // ---------- causality ----------

  /** Scores at or beyond the query's own block change neither selection nor pool; what is
      selected lies below it and is selected once. */
  lemma SelectionCausal(a: seq<real>, b: seq<real>, allowed: nat, q: Query,
      selection: seq<nat>, pool: seq<nat>, selection': seq<nat>, pool': seq<nat>)
    requires allowed <= |a| && allowed <= |b| && a[..allowed] == b[..allowed]
    requires Selected(a, allowed, q, selection, pool) && Selected(b, allowed, q, selection', pool')
    ensures selection == selection' && pool == pool'
    ensures forall i | 0 <= i < |selection| :: selection[i] < allowed
    ensures forall i | 0 <= i < |pool| :: pool[i] < allowed
    ensures AllDistinct(selection) && forall i | 0 <= i < |selection| :: selection[i] in pool
  {
    var row := a[..allowed];
    if row != [] && q.topK > 0 {
      CandidatesDistinct(row, AtLeastOne(q.pool), GroupsPerToken(q.budget, AtLeastOne(q.pool)));
    }
    PickedLeads(row, pool, q.topK);
  }

  lemma FlatPast(scores: seq<real>, q: Query, token: nat)
    requires q.ratio >= 1 && |scores| == q.blockCount
    ensures OnlyPast(q, token, Flat(scores[..AllowedAt(q, token)], q.topK))
  {
    var row := scores[..AllowedAt(q, token)];
    TopRanked(row, q.topK);
    forall e | e in Flat(row, q.topK) ensures e < |row| && Past(q, token, e) {
      PastIff(q, token, e);
    }
  }

  lemma FlatReaches(scores: seq<real>, q: Query, token: nat, e: nat)
    requires q.ratio >= 1 && |scores| == q.blockCount <= q.topK
    requires e < q.blockCount && (e + 1) * q.ratio <= q.positionOffset + token
    ensures e in Flat(scores[..AllowedAt(q, token)], q.topK)
  {
    var row := scores[..AllowedAt(q, token)];
    PastIff(q, token, e);
    TopRanked(row, q.topK);
    var s := Flat(row, q.topK);
    if e !in s {
      MissingOne(s, |row|, e);
      assert false;
    }
  }

  /** The exhaustive selector. */
  method SelectBlocks(scores: seq<seq<real>>, q: Query) returns (selection: seq<seq<nat>>)
    requires q.ratio >= 1 && Matrix(scores, q.blockCount)
    ensures |selection| == |scores|
    ensures forall t: nat | t < |scores| :: selection[t] == Flat(scores[t][..AllowedAt(q, t)], q.topK)
    ensures forall t: nat | t < |scores| :: OnlyPast(q, t, selection[t])
    ensures forall t: nat, e: nat | t < |scores| && e < q.blockCount <= q.topK ::
              (e + 1) * q.ratio <= q.positionOffset + t ==> e in selection[t]
  {
    selection := [];
    for token := 0 to |scores|
      invariant |selection| == token
      invariant forall t: nat | t < token :: selection[t] == Flat(scores[t][..AllowedAt(q, t)], q.topK)
    {
      var allowed := AllowedAt(q, token);
      if allowed <= 0 || q.topK <= 0 {
        selection := selection + [[]];
      } else {
        var top := TopKIndices(scores[token][..allowed], Min(q.topK, allowed));
        selection := selection + [top];
      }
    }
    forall t: nat | t < |scores| ensures OnlyPast(q, t, selection[t]) {
      FlatPast(scores[t], q, t);
    }
    forall t: nat, e: nat | t < |scores| && e < q.blockCount <= q.topK && (e + 1) * q.ratio <= q.positionOffset + t
      ensures e in selection[t]
    {
      FlatReaches(scores[t], q, t, e);
    }
  }
}
