/** The incremental BPE trainer: pair counts, an inverted index and a lazily invalidated heap,
    proved equal to recounting the whole corpus before every merge. */
module BpeTrainer {
  import opened Bytes
  import opened Bpe
  import opened BpeEncoder

  // ---------- the naive trainer ----------

  ghost function Occurrences(symbols: seq<nat>, pair: Pair): nat {
    if |symbols| < 2 then 0
    else (if symbols[0] == pair.left && symbols[1] == pair.right then 1 else 0) + Occurrences(symbols[1..], pair)
  }

  ghost predicate SideBySide(symbols: seq<nat>, pair: Pair, i: nat) {
    i + 1 < |symbols| && symbols[i] == pair.left && symbols[i + 1] == pair.right
  }

  ghost function PlacesFrom(symbols: seq<nat>, pair: Pair, from: nat): set<nat> {
    set i: nat | from <= i < |symbols| && SideBySide(symbols, pair, i)
  }

  lemma {:induction false} OccurrencesFrom(symbols: seq<nat>, pair: Pair, from: nat)
    requires from <= |symbols|
    ensures Occurrences(symbols[from..], pair) == |PlacesFrom(symbols, pair, from)|
    decreases |symbols| - from
  {
    if |symbols| - from < 2 {
      assert PlacesFrom(symbols, pair, from) == {};
    } else {
      OccurrencesFrom(symbols, pair, from + 1);
      assert symbols[from..][1..] == symbols[from + 1..];
      var here: set<nat> := if SideBySide(symbols, pair, from) then {from} else {};
      assert PlacesFrom(symbols, pair, from) == PlacesFrom(symbols, pair, from + 1) + here;
    }
  }

  /** A pair's count is the number of places where its symbols stand side by side, overlaps included. */
  lemma OccurrencesAre(symbols: seq<nat>, pair: Pair)
    ensures Occurrences(symbols, pair) == |set i: nat | i < |symbols| && SideBySide(symbols, pair, i)|
  {
    OccurrencesFrom(symbols, pair, 0);
    assert symbols[0..] == symbols;
    assert PlacesFrom(symbols, pair, 0) == set i: nat | i < |symbols| && SideBySide(symbols, pair, i);
  }

  ghost function Recount(corpus: seq<seq<nat>>, pair: Pair): nat {
    if corpus == [] then 0 else Occurrences(corpus[0], pair) + Recount(corpus[1..], pair)
  }

  datatype Entry = Entry(pair: Pair, count: int)

  /** The heap's order: higher count, then smaller symbols. */
  predicate Outranks(a: Entry, b: Entry) {
    if a.count != b.count then a.count > b.count
    else if a.pair.left != b.pair.left then a.pair.left < b.pair.left
    else a.pair.right < b.pair.right
  }

  ghost function CorpusAt(pieces: seq<seq<Byte>>, merges: seq<Pair>, k: nat): seq<seq<nat>>
    requires k <= |merges|
  {
    seq(|pieces|, i requires 0 <= i < |pieces| => Replay(merges, pieces[i], k))
  }

  /** `pair` is the best pair of a full recount: no pair occurs more often, and of those that occur as
      often it has the smallest left symbol and then the smallest right one. */
  ghost predicate IsTop(corpus: seq<seq<nat>>, pair: Pair) {
    && Recount(corpus, pair) > 0
    && forall q | q != pair ::
         && Recount(corpus, q) <= Recount(corpus, pair)
         && (Recount(corpus, q) == Recount(corpus, pair) ==>
               pair.left < q.left || (pair.left == q.left && pair.right < q.right))
  }

  ghost predicate TopAt(pieces: seq<seq<Byte>>, merges: seq<Pair>, k: nat)
    requires k < |merges|
  {
    IsTop(CorpusAt(pieces, merges, k), merges[k])
  }

  /** `merges` is what training from scratch performs: before every merge recount everything and
      take the best pair; stop after `limit` merges or when no pair is left. */
  ghost predicate Trained(pieces: seq<seq<Byte>>, merges: seq<Pair>, limit: nat) {
    && WellFormed(merges)
    && |merges| <= limit
    && (forall k: nat | k < |merges| :: TopAt(pieces, merges, k))
    && (|merges| < limit ==> forall q :: Recount(CorpusAt(pieces, merges, |merges|), q) == 0)
  }

  // ---------- facts about the naive trainer ----------

  lemma {:induction false} ReplayPrefix(a: seq<Pair>, b: seq<Pair>, text: seq<Byte>, k: nat)
    requires k <= |a| && k <= |b| && a[..k] == b[..k]
    ensures Replay(a, text, k) == Replay(b, text, k)
  {
    if k > 0 {
      assert a[..k - 1] == a[..k][..k - 1] == b[..k - 1];
      assert a[k - 1] == a[..k][k - 1] == b[k - 1];
      ReplayPrefix(a, b, text, k - 1);
    }
  }

  lemma CorpusPrefix(pieces: seq<seq<Byte>>, a: seq<Pair>, b: seq<Pair>, k: nat)
    requires k <= |a| && k <= |b| && a[..k] == b[..k]
    ensures CorpusAt(pieces, a, k) == CorpusAt(pieces, b, k)
  {
    forall i | 0 <= i < |pieces| ensures Replay(a, pieces[i], k) == Replay(b, pieces[i], k) {
      ReplayPrefix(a, b, pieces[i], k);
    }
  }

  lemma {:induction false} SpellingPrefix(merges: seq<Pair>, pair: Pair, symbol: nat)
    requires WellFormed(merges) && WellFormed(merges + [pair]) && symbol < 256 + |merges|
    ensures Spelling(merges + [pair], symbol) == Spelling(merges, symbol)
    decreases symbol
  {
    if symbol >= 256 {
      assert (merges + [pair])[symbol - 256] == merges[symbol - 256];
      SpellingPrefix(merges, pair, merges[symbol - 256].left);
      SpellingPrefix(merges, pair, merges[symbol - 256].right);
    }
  }

  lemma TopUnique(corpus: seq<seq<nat>>, p: Pair, q: Pair)
    requires IsTop(corpus, p) && IsTop(corpus, q)
    ensures p == q
  {
  }

  /** Training is deterministic: the naive rule leaves no choice at any merge. */
  lemma {:induction false} TrainedUnique(pieces: seq<seq<Byte>>, a: seq<Pair>, b: seq<Pair>, limit: nat)
    requires Trained(pieces, a, limit) && Trained(pieces, b, limit)
    ensures a == b
  {
    var k := 0;
    while k < |a| && k < |b|
      invariant k <= |a| && k <= |b| && a[..k] == b[..k]
    {
      CorpusPrefix(pieces, a, b, k);
      assert TopAt(pieces, a, k) && TopAt(pieces, b, k);
      TopUnique(CorpusAt(pieces, a, k), a[k], b[k]);
      assert a[..k + 1] == a[..k] + [a[k]] && b[..k + 1] == b[..k] + [b[k]];
      k := k + 1;
    }
    if |a| < |b| {
      MoreToMerge(pieces, a, b);
    } else if |b| < |a| {
      MoreToMerge(pieces, b, a);
    }
  }

  lemma MoreToMerge(pieces: seq<seq<Byte>>, a: seq<Pair>, b: seq<Pair>)
    requires |a| < |b| && a == b[..|a|] && TopAt(pieces, b, |a|)
    ensures Recount(CorpusAt(pieces, a, |a|), b[|a|]) > 0
  {
    assert a[..|a|] == a;
    CorpusPrefix(pieces, a, b, |a|);
  }

  lemma {:induction false} OccurrencesAdjacent(symbols: seq<nat>, pair: Pair)
    ensures Occurrences(symbols, pair) > 0 <==> Adjacent(symbols, pair)
  {
    if |symbols| >= 2 {
      OccurrencesAdjacent(symbols[1..], pair);
      if Adjacent(symbols[1..], pair) {
        var i :| 0 <= i < |symbols[1..]| - 1 && symbols[1..][i] == pair.left && symbols[1..][i + 1] == pair.right;
        assert symbols[i + 1] == pair.left && symbols[i + 1 + 1] == pair.right;
      }
      if Adjacent(symbols, pair) && !(symbols[0] == pair.left && symbols[0 + 1] == pair.right) {
        var i :| 0 <= i < |symbols| - 1 && symbols[i] == pair.left && symbols[i + 1] == pair.right;
        assert symbols[1..][i - 1] == pair.left && symbols[1..][i - 1 + 1] == pair.right;
      }
      if symbols[0] == pair.left && symbols[1] == pair.right {
        assert symbols[0] == pair.left && symbols[0 + 1] == pair.right;
      }
    }
  }

  lemma {:induction false} RecountMember(corpus: seq<seq<nat>>, pair: Pair)
    ensures Recount(corpus, pair) > 0 <==> exists i :: 0 <= i < |corpus| && Occurrences(corpus[i], pair) > 0
  {
    if corpus != [] {
      RecountMember(corpus[1..], pair);
      if i :| 0 <= i < |corpus[1..]| && Occurrences(corpus[1..][i], pair) > 0 {
        assert Occurrences(corpus[i + 1], pair) > 0;
      }
      if i :| 0 <= i < |corpus| && Occurrences(corpus[i], pair) > 0 {
        assert i == 0 || Occurrences(corpus[1..][i - 1], pair) > 0;
      }
    }
  }

  lemma {:induction false} RecountUpdate(corpus: seq<seq<nat>>, i: nat, symbols: seq<nat>, pair: Pair)
    requires i < |corpus|
    ensures Recount(corpus[i := symbols], pair)
            == Recount(corpus, pair) - Occurrences(corpus[i], pair) + Occurrences(symbols, pair)
  {
    if i == 0 {
      assert corpus[i := symbols][1..] == corpus[1..];
    } else {
      assert corpus[i := symbols][1..] == corpus[1..][i - 1 := symbols];
      RecountUpdate(corpus[1..], i - 1, symbols, pair);
    }
  }

  lemma {:induction false} RecountAppend(corpus: seq<seq<nat>>, symbols: seq<nat>, pair: Pair)
    ensures Recount(corpus + [symbols], pair) == Recount(corpus, pair) + Occurrences(symbols, pair)
  {
    if corpus == [] {
      assert ([symbols])[1..] == [];
    } else {
      assert (corpus + [symbols])[1..] == corpus[1..] + [symbols];
      RecountAppend(corpus[1..], symbols, pair);
    }
  }

  /** Whatever pair naive training picks next occurs in a piece, so freshness applies to it. */
  lemma {:induction false} TrainedIsCanonical(pieces: seq<seq<Byte>>, merges: seq<Pair>)
    requires WellFormed(merges) && forall k: nat | k < |merges| :: TopAt(pieces, merges, k)
    ensures Canonical(merges)
  {
    forall k: nat | k < |merges|
      ensures GroundedAt(merges, pieces, k)
    {
      assert TopAt(pieces, merges, k);
      var corpus := CorpusAt(pieces, merges, k);
      RecountMember(corpus, merges[k]);
      var i :| 0 <= i < |corpus| && Occurrences(corpus[i], merges[k]) > 0;
      OccurrencesAdjacent(corpus[i], merges[k]);
    }
    GroundedIsCanonical(merges, pieces);
  }

  // ---------- the incremental trainer ----------

  /** A map read as the source reads it: an absent pair counts zero. */
  function Count(counts: map<Pair, int>, pair: Pair): int {
    if pair in counts then counts[pair] else 0
  }

  function Members(index: map<Pair, set<nat>>, pair: Pair): set<nat> {
    if pair in index then index[pair] else {}
  }

  function PairAt(symbols: seq<nat>, i: nat): Pair
    requires i + 1 < |symbols|
  {
    Pair(symbols[i], symbols[i + 1])
  }

  /** The adjacent pairs that start before `end`. */
  ghost function PairsBefore(symbols: seq<nat>, end: nat): set<Pair> {
    set i: nat | i < end && i + 1 < |symbols| :: PairAt(symbols, i)
  }

  ghost function PairsOf(symbols: seq<nat>): set<Pair> {
    PairsBefore(symbols, |symbols|)
  }

  lemma PairsBeforeStep(symbols: seq<nat>, i: nat)
    requires i + 1 < |symbols|
    ensures PairsBefore(symbols, i + 1) == PairsBefore(symbols, i) + {PairAt(symbols, i)}
  {
  }

  lemma PairsOfOccurrences(symbols: seq<nat>, pair: Pair)
    ensures pair in PairsOf(symbols) <==> Occurrences(symbols, pair) > 0
  {
    OccurrencesAdjacent(symbols, pair);
    if Adjacent(symbols, pair) {
      var i :| 0 <= i < |symbols| - 1 && symbols[i] == pair.left && symbols[i + 1] == pair.right;
      assert PairAt(symbols, i) in PairsOf(symbols);
    }
  }

  ghost function Containing(corpus: seq<seq<nat>>, pair: Pair): set<nat> {
    set i: nat | i < |corpus| && pair in PairsOf(corpus[i])
  }

  /** `now` is `was` plus (or minus) the occurrences that start before i. */
  ghost predicate Shifted(was: map<Pair, int>, now: map<Pair, int>, up: bool, symbols: seq<nat>, i: nat)
    requires i <= |symbols|
  {
    forall p :: Count(now, p) == Shift(Count(was, p), up, symbols, i, p)
  }

  ghost function Shift(count: int, up: bool, symbols: seq<nat>, i: nat, pair: Pair): int
    requires i <= |symbols|
  {
    var passed := Occurrences(symbols, pair) - Occurrences(symbols[i..], pair);
    if up then count + passed else count - passed
  }

  lemma ShiftStep(count: int, up: bool, symbols: seq<nat>, i: nat, pair: Pair)
    requires i + 1 < |symbols|
    ensures Shift(count, up, symbols, i + 1, pair)
            == Shift(count, up, symbols, i, pair) + (if pair != PairAt(symbols, i) then 0 else if up then 1 else -1)
  {
    assert symbols[i..][1..] == symbols[i + 1..];
  }

  lemma ShiftedStep(was: map<Pair, int>, now: map<Pair, int>, up: bool, symbols: seq<nat>, i: nat)
    requires i + 1 < |symbols| && Shifted(was, now, up, symbols, i)
    ensures var pair := PairAt(symbols, i);
            Shifted(was, now[pair := Count(now, pair) + if up then 1 else -1], up, symbols, i + 1)
  {
    var pair := PairAt(symbols, i);
    var next := now[pair := Count(now, pair) + if up then 1 else -1];
    forall p ensures Count(next, p) == Shift(Count(was, p), up, symbols, i + 1, p) {
      ShiftStep(Count(was, p), up, symbols, i, p);
      assert Count(now, p) == Shift(Count(was, p), up, symbols, i, p);
    }
  }

  lemma ShiftEnds(count: int, up: bool, symbols: seq<nat>, i: nat, pair: Pair)
    requires i <= |symbols|
    ensures i == 0 ==> Shift(count, up, symbols, i, pair) == count
    ensures i + 1 >= |symbols| ==>
              Shift(count, up, symbols, i, pair)
              == if up then count + Occurrences(symbols, pair) else count - Occurrences(symbols, pair)
  {
    assert symbols[0..] == symbols;
  }

  /** `now` is `was` with `piece` added to the pairs of `seen`. */
  ghost predicate Indexed(was: map<Pair, set<nat>>, now: map<Pair, set<nat>>, piece: nat, seen: set<Pair>) {
    forall p :: Members(now, p) == if p in seen then Members(was, p) + {piece} else Members(was, p)
  }

  function DropMember(index: map<Pair, set<nat>>, pair: Pair, piece: nat): (dropped: map<Pair, set<nat>>)
    ensures forall p :: Members(dropped, p) == if p == pair then Members(index, p) - {piece} else Members(index, p)
  {
    if pair !in index then index
    else if index[pair] - {piece} == {} then index - {pair}
    else index[pair := index[pair] - {piece}]
  }

  /** `now` is `was` with `piece` removed from the pairs of `seen`. */
  ghost predicate Unindexed(was: map<Pair, set<nat>>, now: map<Pair, set<nat>>, piece: nat, seen: set<Pair>) {
    forall p :: Members(now, p) == if p in seen then Members(was, p) - {piece} else Members(was, p)
  }

  class Trainer {
    var symbols: seq<seq<nat>>
    var pairCount: map<Pair, int>
    var pairMembers: map<Pair, set<nat>>
    var touched: set<Pair>
    var heap: multiset<Entry>

    /** The counts and the inverted index equal a full recount over `symbols`. */
    ghost predicate Recounted()
      reads this
    {
      && (forall p :: Count(pairCount, p) == Recount(symbols, p))
      && (forall p :: Members(pairMembers, p) == Containing(symbols, p))
    }

    /** Every pair that still occurs has an up-to-date heap entry. */
    ghost predicate HeapFresh()
      reads this
    {
      forall p | Count(pairCount, p) > 0 :: Entry(p, Count(pairCount, p)) in heap
    }

    constructor (pieces: seq<seq<Byte>>)
      ensures symbols == pieces
      ensures pairCount == map[] && pairMembers == map[] && touched == {} && heap == multiset{}
    {
      symbols := pieces;
      pairCount, pairMembers, touched, heap := map[], map[], {}, multiset{};
    }

    method AddPiecePairs(piece: nat)
      requires piece < |symbols|
      modifies this`pairCount, this`pairMembers, this`touched
      ensures forall p :: Count(pairCount, p) == Count(old(pairCount), p) + Occurrences(symbols[piece], p)
      ensures Indexed(old(pairMembers), pairMembers, piece, PairsOf(symbols[piece]))
      ensures touched == old(touched) + PairsOf(symbols[piece])
    {
      var sequence := symbols[piece];
      var i := 0;
      forall p { ShiftEnds(Count(pairCount, p), true, sequence, 0, p); }
      while i + 1 < |sequence|
        invariant i <= |sequence|
        invariant Shifted(old(pairCount), pairCount, true, sequence, i)
        invariant Indexed(old(pairMembers), pairMembers, piece, PairsBefore(sequence, i))
        invariant touched == old(touched) + PairsBefore(sequence, i)
      {
        var pair := PairAt(sequence, i);
        ShiftedStep(old(pairCount), pairCount, true, sequence, i);
        PairsBeforeStep(sequence, i);
        pairCount := pairCount[pair := Count(pairCount, pair) + 1];
        touched := touched + {pair};
        pairMembers := pairMembers[pair := Members(pairMembers, pair) + {piece}];
        i := i + 1;
      }
      forall p { ShiftEnds(Count(old(pairCount), p), true, sequence, i, p); }
      assert PairsBefore(sequence, i) == PairsOf(sequence);
    }

    method RemovePiecePairs(piece: nat)
      requires piece < |symbols|
      modifies this`pairCount, this`pairMembers, this`touched
      ensures forall p :: Count(pairCount, p) == Count(old(pairCount), p) - Occurrences(symbols[piece], p)
      ensures Unindexed(old(pairMembers), pairMembers, piece, PairsOf(symbols[piece]))
      ensures touched == old(touched) + PairsOf(symbols[piece])
    {
      var sequence := symbols[piece];
      var i := 0;
      forall p { ShiftEnds(Count(pairCount, p), false, sequence, 0, p); }
      while i + 1 < |sequence|
        invariant i <= |sequence|
        invariant Shifted(old(pairCount), pairCount, false, sequence, i)
        invariant Unindexed(old(pairMembers), pairMembers, piece, PairsBefore(sequence, i))
        invariant touched == old(touched) + PairsBefore(sequence, i)
      {
        var pair := PairAt(sequence, i);
        ShiftedStep(old(pairCount), pairCount, false, sequence, i);
        PairsBeforeStep(sequence, i);
        pairCount := pairCount[pair := Count(pairCount, pair) - 1];
        touched := touched + {pair};
        pairMembers := DropMember(pairMembers, pair, piece);
        i := i + 1;
      }
      forall p { ShiftEnds(Count(old(pairCount), p), false, sequence, i, p); }
      assert PairsBefore(sequence, i) == PairsOf(sequence);
    }

    /** Re-segments one piece: take its pairs out, merge, put the new pairs in. */
    method MergePiece(piece: nat, pair: Pair, merged: nat)
      requires Recounted() && piece < |symbols|
      modifies this`symbols, this`pairCount, this`pairMembers, this`touched
      ensures symbols == old(symbols)[piece := MergePass(old(symbols)[piece], pair, merged)]
      ensures Recounted()
      ensures old(touched) + PairsOf(old(symbols)[piece]) <= touched
      ensures forall p | p !in touched :: Count(pairCount, p) == Count(old(pairCount), p)
    {
      ghost var before := symbols;
      RemovePiecePairs(piece);
      var sequence := MergePairs(symbols[piece], pair, merged);
      symbols := symbols[piece := sequence];
      AddPiecePairs(piece);
      forall p
        ensures Count(pairCount, p) == Recount(symbols, p)
        ensures Members(pairMembers, p) == Containing(symbols, p)
        ensures p !in touched ==> Count(pairCount, p) == Count(old(pairCount), p)
      {
        RecountUpdate(before, piece, sequence, p);
        ContainingUpdate(before, piece, sequence, p);
        PairsOfOccurrences(before[piece], p);
        PairsOfOccurrences(sequence, p);
      }
    }

    /** Merges `pair` in exactly the pieces the index lists for it, in any order. */
    method MergeMembers(pair: Pair, merged: nat)
      requires Recounted()
      modifies this`symbols, this`pairCount, this`pairMembers, this`touched
      ensures |symbols| == |old(symbols)|
      ensures forall i | 0 <= i < |symbols| :: symbols[i] == MergePass(old(symbols)[i], pair, merged)
      ensures Recounted()
      ensures forall p | p !in touched :: Count(pairCount, p) == Count(old(pairCount), p)
      ensures Recount(old(symbols), pair) > 0 ==> pair in touched
    {
      var pieceList := Members(pairMembers, pair);
      ghost var members := pieceList;
      touched := {};
      while pieceList != {}
        invariant |symbols| == |old(symbols)| && pieceList <= members
        invariant forall i: nat | i < |symbols| ::
                    symbols[i] == if i in members && i !in pieceList then MergePass(old(symbols)[i], pair, merged)
                                  else old(symbols)[i]
        invariant Recounted()
        invariant forall p | p !in touched :: Count(pairCount, p) == Count(old(pairCount), p)
        invariant pieceList != members ==> pair in touched
        decreases |pieceList|
      {
        var piece :| piece in pieceList;
        MergePiece(piece, pair, merged);
        pieceList := pieceList - {piece};
      }
      forall i: nat | i < |symbols| && i !in members
        ensures symbols[i] == MergePass(old(symbols)[i], pair, merged)
      {
        PairsOfOccurrences(old(symbols)[i], pair);
        OccurrencesAdjacent(old(symbols)[i], pair);
        PassIdentity(old(symbols)[i], pair, merged);
      }
      if Recount(old(symbols), pair) > 0 {
        ContainingRecount(old(symbols), pair);
      }
    }

    /** Pushes an up-to-date entry for every given pair. */
    method PushCounts(pairs: set<Pair>)
      modifies this`heap
      ensures old(heap) <= heap
      ensures forall p | p in pairs :: Entry(p, Count(pairCount, p)) in heap
    {
      var todo := pairs;
      while todo != {}
        invariant todo <= pairs && old(heap) <= heap
        invariant forall p | p in pairs && p !in todo :: Entry(p, Count(pairCount, p)) in heap
        decreases |todo|
      {
        var pair :| pair in todo;
        heap := heap + multiset{Entry(pair, Count(pairCount, pair))};
        todo := todo - {pair};
      }
    }

    /** Counts and indexes every piece and fills the heap. */
    method Load()
      requires pairCount == map[] && pairMembers == map[]
      modifies this`pairCount, this`pairMembers, this`touched, this`heap
      ensures Recounted() && HeapFresh()
    {
      for i := 0 to |symbols|
        invariant forall p :: Count(pairCount, p) == Recount(symbols[..i], p)
        invariant forall p :: Members(pairMembers, p) == Containing(symbols[..i], p)
      {
        AddPiecePairs(i);
        forall p
          ensures Count(pairCount, p) == Recount(symbols[..i + 1], p)
          ensures Members(pairMembers, p) == Containing(symbols[..i + 1], p)
        {
          assert symbols[..i + 1] == symbols[..i] + [symbols[i]];
          RecountAppend(symbols[..i], symbols[i], p);
          assert Containing(symbols[..i + 1], p)
              == Containing(symbols[..i], p) + if p in PairsOf(symbols[i]) then {i} else {};
        }
      }
      assert symbols[..|symbols|] == symbols;
      PushCounts(pairCount.Keys);
    }

    /** Performs one merge everywhere and refreshes the heap. */
    method Apply(pair: Pair, merged: nat)
      requires Recounted() && Recount(symbols, pair) > 0
      requires forall q | Count(pairCount, q) > 0 && q != pair :: Entry(q, Count(pairCount, q)) in heap
      modifies this
      ensures Recounted() && HeapFresh()
      ensures |symbols| == |old(symbols)|
      ensures forall i | 0 <= i < |symbols| :: symbols[i] == MergePass(old(symbols)[i], pair, merged)
    {
      MergeMembers(pair, merged);
      PushCounts(touched);
    }

    /** Pops until an entry is up to date: that entry is the best pair of a full recount. */
    method PopFresh() returns (found: bool, top: Entry)
      requires HeapFresh()
      modifies this`heap
      ensures found ==>
          && top.count > 0 && Count(pairCount, top.pair) == top.count
          && (forall q | q != top.pair ::
                && Count(pairCount, q) <= top.count
                && (Count(pairCount, q) == top.count ==>
                      top.pair.left < q.left || (top.pair.left == q.left && top.pair.right < q.right)))
          && forall q | Count(pairCount, q) > 0 && q != top.pair :: Entry(q, Count(pairCount, q)) in heap
      ensures !found ==> forall q :: Count(pairCount, q) <= 0
    {
      found, top := false, Entry(Pair(0, 0), 0);
      while heap != multiset{}
        invariant HeapFresh()
        decreases |heap|
      {
        top := PopTop(heap);
        heap := heap - multiset{top};
        if Count(pairCount, top.pair) == top.count && top.count > 0 {
          found := true;
          return;
        }
      }
    }
  }

  /** The contract of the heap: no entry has a higher count than the popped one, and of those with the
      same count it has the smallest symbols. */
  method PopTop(heap: multiset<Entry>) returns (top: Entry)
    requires heap != multiset{}
    ensures top in heap && forall e | e in heap :: e.count <= top.count
    ensures forall e | e in heap && e.count == top.count && e != top ::
              top.pair.left < e.pair.left || (top.pair.left == e.pair.left && top.pair.right < e.pair.right)
  {
    hide Outranks, Ahead;
    top :| top in heap;
    var rest := heap - multiset{top};
    FirstAhead(heap, top);
    while rest != multiset{}
      invariant top in heap && rest <= heap && Ahead(heap, rest, top)
      decreases |rest|
    {
      var e :| e in rest;
      OutranksTotal(e, top);
      StillAhead(heap, rest, top, e);
      rest := rest - multiset{e};
      if Outranks(e, top) {
        top := e;
      }
    }
    AheadOfAll(heap, top);
  }

  /** The entry outranks all others that are not among the rest. */
  ghost predicate Ahead(heap: multiset<Entry>, rest: multiset<Entry>, top: Entry) {
    forall e | e in heap :: e in rest || e == top || Outranks(top, e)
  }

  lemma FirstAhead(heap: multiset<Entry>, top: Entry)
    requires top in heap
    ensures Ahead(heap, heap - multiset{top}, top)
  {
    hide Outranks;
  }

  lemma AheadOfAll(heap: multiset<Entry>, top: Entry)
    requires Ahead(heap, multiset{}, top)
    ensures forall e | e in heap :: e.count <= top.count
    ensures forall e | e in heap && e.count == top.count && e != top ::
              top.pair.left < e.pair.left || (top.pair.left == e.pair.left && top.pair.right < e.pair.right)
  {
  }

  lemma StillAhead(heap: multiset<Entry>, rest: multiset<Entry>, top: Entry, e: Entry)
    requires Ahead(heap, rest, top) && e in rest && (e == top || Outranks(e, top) || Outranks(top, e))
    ensures Ahead(heap, rest - multiset{e}, if Outranks(e, top) then e else top)
  {
    hide Outranks;
    forall x | Outranks(e, top) && Outranks(top, x) ensures Outranks(e, x) {
      OutranksTransitive(e, top, x);
    }
  }

  lemma OutranksTotal(a: Entry, b: Entry)
    ensures a == b || Outranks(a, b) || Outranks(b, a)
  {
  }

  lemma OutranksTransitive(a: Entry, b: Entry, c: Entry)
    requires Outranks(a, b) && Outranks(b, c)
    ensures Outranks(a, c)
  {
  }

  lemma ContainingUpdate(corpus: seq<seq<nat>>, i: nat, symbols: seq<nat>, pair: Pair)
    requires i < |corpus|
    ensures Containing(corpus[i := symbols], pair)
            == (Containing(corpus, pair) - {i}) + (if pair in PairsOf(symbols) then {i} else {})
    ensures pair !in PairsOf(corpus[i]) ==> i !in Containing(corpus, pair)
  {
  }

  lemma ContainingRecount(corpus: seq<seq<nat>>, pair: Pair)
    ensures Recount(corpus, pair) > 0 <==> Containing(corpus, pair) != {}
  {
    RecountMember(corpus, pair);
    forall i: nat | i < |corpus| ensures pair in PairsOf(corpus[i]) <==> Occurrences(corpus[i], pair) > 0 {
      PairsOfOccurrences(corpus[i], pair);
    }
    if Recount(corpus, pair) > 0 {
      var i :| 0 <= i < |corpus| && Occurrences(corpus[i], pair) > 0;
      assert i in Containing(corpus, pair);
    }
  }

  // ---------- the training loop ----------

  /** Adding the best pair of a recount keeps the merge list well formed and naive. */
  lemma {:induction false} TrainedStep(pieces: seq<seq<Byte>>, merges: seq<Pair>, pair: Pair)
    requires WellFormed(merges) && forall k: nat | k < |merges| :: TopAt(pieces, merges, k)
    requires IsTop(CorpusAt(pieces, merges, |merges|), pair)
    ensures var longer := merges + [pair];
            WellFormed(longer) && forall k: nat | k < |longer| :: TopAt(pieces, longer, k)
  {
    var longer, n := merges + [pair], |merges|;
    var corpus := CorpusAt(pieces, merges, n);
    RecountMember(corpus, pair);
    var i :| 0 <= i < |corpus| && Occurrences(corpus[i], pair) > 0;
    OccurrencesAdjacent(corpus[i], pair);
    ReplayExpand(merges, pieces[i], n);
    forall k: nat | k < |longer|
      ensures TopAt(pieces, longer, k)
    {
      assert longer[..k] == merges[..k];
      CorpusPrefix(pieces, merges, longer, k);
      assert k < n ==> TopAt(pieces, merges, k);
    }
  }

  /** The new token's bytes are fresh, so the table stays a bijection. */
  lemma {:induction false} RanksStep(merges: seq<Pair>, pair: Pair, ranks: Ranks)
    requires WellFormed(merges) && Canonical(merges + [pair]) && RanksOf(ranks, merges)
    ensures var bytes := Spelling(merges + [pair], 256 + |merges|);
            bytes !in ranks && RanksOf(ranks[bytes := 256 + |merges|], merges + [pair])
  {
    var longer, n := merges + [pair], 256 + |merges|;
    var bytes := Spelling(longer, n);
    var longerRanks := ranks[bytes := n];
    if bytes in ranks {
      assert TokenSpelled(ranks, merges, bytes);
      SpellingPrefix(merges, pair, ranks[bytes]);
      SpellingInjective(longer, ranks[bytes], n);
    }
    forall symbol: nat | symbol < 256 + |longer| ensures SymbolRanked(longerRanks, longer, symbol) {
      if symbol < n {
        SpellingPrefix(merges, pair, symbol);
        assert SymbolRanked(ranks, merges, symbol);
      }
    }
    forall token | token in longerRanks ensures TokenSpelled(longerRanks, longer, token) {
      if token != bytes {
        assert TokenSpelled(ranks, merges, token);
        SpellingPrefix(merges, pair, ranks[token]);
      }
    }
  }

  method ByteRanks() returns (ranks: Ranks, tokenBytes: seq<seq<Byte>>)
    ensures RanksOf(ranks, []) && |ranks| == 256
    ensures |tokenBytes| == 256 && forall b: nat | b < 256 :: tokenBytes[b] == [b]
  {
    ranks, tokenBytes := map[], [];
    for b: nat := 0 to 256
      invariant |ranks| == b && |tokenBytes| == b
      invariant forall c: nat | c < b :: tokenBytes[c] == [c] && [c] in ranks && ranks[[c]] == c
      invariant forall token | token in ranks :: ranks[token] < b && token == [ranks[token]]
    {
      var token: seq<Byte> := [b];
      assert token !in ranks;
      tokenBytes := tokenBytes + [token];
      ranks := ranks[token := b];
    }
    forall symbol: nat | symbol < 256 ensures SymbolRanked(ranks, [], symbol) {
    }
    forall token | token in ranks ensures TokenSpelled(ranks, [], token) {
    }
  }

  /** The trainer's state between merges. */
  ghost predicate Progress(
      pieces: seq<seq<Byte>>, merges: seq<Pair>, symbols: seq<seq<nat>>, ranks: Ranks, tokenBytes: seq<seq<Byte>>)
  {
    && WellFormed(merges)
    && (forall k: nat | k < |merges| :: TopAt(pieces, merges, k))
    && symbols == CorpusAt(pieces, merges, |merges|)
    && RanksOf(ranks, merges) && |ranks| == 256 + |merges|
    && |tokenBytes| == 256 + |merges|
    && forall s: nat | s < |tokenBytes| :: tokenBytes[s] == Spelling(merges, s)
  }

  lemma {:induction false} ProgressStep(
      pieces: seq<seq<Byte>>, merges: seq<Pair>, symbols: seq<seq<nat>>, ranks: Ranks, tokenBytes: seq<seq<Byte>>,
      pair: Pair, next: seq<seq<nat>>)
    requires Progress(pieces, merges, symbols, ranks, tokenBytes) && IsTop(symbols, pair)
    requires |next| == |symbols|
    requires forall i | 0 <= i < |symbols| :: next[i] == MergePass(symbols[i], pair, 256 + |merges|)
    ensures pair.left < |tokenBytes| && pair.right < |tokenBytes|
    ensures var bytes := tokenBytes[pair.left] + tokenBytes[pair.right];
            Progress(pieces, merges + [pair], next, ranks[bytes := 256 + |merges|], tokenBytes + [bytes])
  {
    var longer, n := merges + [pair], 256 + |merges|;
    TrainedStep(pieces, merges, pair);
    TrainedIsCanonical(pieces, longer);
    RanksStep(merges, pair, ranks);
    assert longer[n - 256] == pair;
    SpellingPrefix(merges, pair, pair.left);
    SpellingPrefix(merges, pair, pair.right);
    forall s: nat | s < n ensures Spelling(longer, s) == Spelling(merges, s) {
      SpellingPrefix(merges, pair, s);
    }
    assert longer[..|merges|] == merges[..|merges|];
    CorpusPrefix(pieces, merges, longer, |merges|);
    assert next == CorpusAt(pieces, longer, |longer|);
  }

  /** `ranks` is the table of `merges`, and those are the merges of training from scratch. */
  ghost predicate IsTrained(pieces: seq<seq<Byte>>, limit: nat, merges: seq<Pair>, ranks: Ranks) {
    && Trained(pieces, merges, limit)
    && Canonical(merges) && RanksOf(ranks, merges) && |ranks| == 256 + |merges|
  }

  /** The incremental trainer performs exactly the merges of training from scratch, and its table
      is a bijection between the spelled tokens and 0..|ranks|-1. */
  method TrainBPE(pieces: seq<seq<Byte>>, numMerges: nat) returns (ranks: Ranks)
    ensures exists merges: seq<Pair> ::
              && IsTrained(pieces, numMerges, merges, ranks)
              && forall k: nat, q: Pair {:trigger Recount(CorpusAt(pieces, merges, k), q)} | k < |merges| && q != merges[k] ::
                   && Recount(CorpusAt(pieces, merges, k), q) <= Recount(CorpusAt(pieces, merges, k), merges[k])
                   && (Recount(CorpusAt(pieces, merges, k), q) == Recount(CorpusAt(pieces, merges, k), merges[k]) ==>
                         merges[k].left < q.left || (merges[k].left == q.left && merges[k].right < q.right))
  {
    hide RanksOf, TopAt, Canonical, Recount, Trained;
    var trainer := new Trainer(pieces);
    trainer.Load();
    var tokenBytes;
    ranks, tokenBytes := ByteRanks();
    ghost var merges: seq<Pair> := [];
    assert trainer.symbols == CorpusAt(pieces, merges, 0);
    var merge: nat := 0;
    while merge < numMerges
      invariant merge == |merges| <= numMerges
      invariant trainer.Recounted() && trainer.HeapFresh()
      invariant Progress(pieces, merges, trainer.symbols, ranks, tokenBytes)
    {
      var found, top := trainer.PopFresh();
      if !found {
        forall q ensures Recount(trainer.symbols, q) == 0 {
          assert Count(trainer.pairCount, q) == Recount(trainer.symbols, q);
        }
        TrainedAtEnd(pieces, numMerges, merges, trainer.symbols, ranks, tokenBytes);
        MostFrequent(pieces, merges, numMerges);
        return;
      }
      var pair := top.pair;
      ghost var symbols := trainer.symbols;
      assert IsTop(symbols, pair);
      trainer.Apply(pair, 256 + merge);
      ProgressStep(pieces, merges, symbols, ranks, tokenBytes, pair, trainer.symbols);
      var bytes := tokenBytes[pair.left] + tokenBytes[pair.right];
      tokenBytes, ranks := tokenBytes + [bytes], ranks[bytes := 256 + merge];
      merges := merges + [pair];
      merge := merge + 1;
    }
    TrainedAtEnd(pieces, numMerges, merges, trainer.symbols, ranks, tokenBytes);
    MostFrequent(pieces, merges, numMerges);
  }

  /** Every merge is of a most frequent pair, the smallest among equals. */
  lemma MostFrequent(pieces: seq<seq<Byte>>, merges: seq<Pair>, limit: nat)
    requires Trained(pieces, merges, limit)
    ensures forall k: nat, q: Pair {:trigger Recount(CorpusAt(pieces, merges, k), q)} | k < |merges| && q != merges[k] ::
              && Recount(CorpusAt(pieces, merges, k), q) <= Recount(CorpusAt(pieces, merges, k), merges[k])
              && (Recount(CorpusAt(pieces, merges, k), q) == Recount(CorpusAt(pieces, merges, k), merges[k]) ==>
                    merges[k].left < q.left || (merges[k].left == q.left && merges[k].right < q.right))
  {
    hide Recount, CorpusAt;
    forall k: nat, q: Pair {:trigger Recount(CorpusAt(pieces, merges, k), q)} | k < |merges| && q != merges[k]
      ensures && Recount(CorpusAt(pieces, merges, k), q) <= Recount(CorpusAt(pieces, merges, k), merges[k])
              && (Recount(CorpusAt(pieces, merges, k), q) == Recount(CorpusAt(pieces, merges, k), merges[k]) ==>
                    merges[k].left < q.left || (merges[k].left == q.left && merges[k].right < q.right))
    {
      assert TopAt(pieces, merges, k);
    }
  }

  lemma TrainedAtEnd(
      pieces: seq<seq<Byte>>, limit: nat, merges: seq<Pair>, symbols: seq<seq<nat>>, ranks: Ranks,
      tokenBytes: seq<seq<Byte>>)
    requires Progress(pieces, merges, symbols, ranks, tokenBytes) && |merges| <= limit
    requires |merges| < limit ==> forall q :: Recount(symbols, q) == 0
    ensures IsTrained(pieces, limit, merges, ranks) && Trained(pieces, merges, limit)
  {
    hide TopAt, RanksOf, Recount;
    TrainedIsCanonical(pieces, merges);
  }

  /** The trained table is a function of the pieces and the merge limit alone, whatever order the
      trainer's maps were iterated in. */
  lemma TrainingDeterministic(
      pieces: seq<seq<Byte>>, limit: nat, a: seq<Pair>, b: seq<Pair>, ranksA: Ranks, ranksB: Ranks)
    requires IsTrained(pieces, limit, a, ranksA) && IsTrained(pieces, limit, b, ranksB)
    ensures a == b && ranksA == ranksB
  {
    TrainedUnique(pieces, a, b, limit);
    forall token ensures token in ranksA ==> token in ranksB && ranksB[token] == ranksA[token] {
      if token in ranksA {
        assert TokenSpelled(ranksA, a, token);
        assert SymbolRanked(ranksB, b, ranksA[token]);
      }
    }
    forall token ensures token in ranksB ==> token in ranksA {
      if token in ranksB {
        assert TokenSpelled(ranksB, b, token);
        assert SymbolRanked(ranksA, a, ranksB[token]);
      }
    }
  }
}
