/** The byte-keyed greedy encoder, and its equivalence with replaying the training merges. */
module BpeEncoder {
  import opened Bytes
  import opened Sequences
  import opened Bpe

  type Ranks = map<seq<Byte>, nat>

  function Singles(text: seq<Byte>): (parts: seq<seq<Byte>>)
    ensures |parts| == |text| && forall i | 0 <= i < |text| :: parts[i] == [text[i]]
  {
    seq(|text|, i requires 0 <= i < |text| => [text[i]])
  }

  function Concat(parts: seq<seq<Byte>>): seq<Byte> {
    if parts == [] then [] else parts[0] + Concat(parts[1..])
  }

  predicate Mergeable(ranks: Ranks, parts: seq<seq<Byte>>, i: nat) {
    i + 1 < |parts| && parts[i] + parts[i + 1] in ranks
  }

  function PairRank(ranks: Ranks, parts: seq<seq<Byte>>, i: nat): nat
    requires Mergeable(ranks, parts, i)
  {
    ranks[parts[i] + parts[i + 1]]
  }

  /** `i` is the leftmost of the lowest-ranked adjacent pairs that start before `end`. */
  ghost predicate BestBefore(ranks: Ranks, parts: seq<seq<Byte>>, i: nat, end: int) {
    && i < end
    && Mergeable(ranks, parts, i)
    && forall j: nat | j < end && Mergeable(ranks, parts, j) ::
         && PairRank(ranks, parts, i) <= PairRank(ranks, parts, j)
         && (j < i ==> PairRank(ranks, parts, i) < PairRank(ranks, parts, j))
  }

  ghost predicate IsBest(ranks: Ranks, parts: seq<seq<Byte>>, i: nat) {
    BestBefore(ranks, parts, i, |parts| - 1)
  }

  function MergeAt(parts: seq<seq<Byte>>, i: nat): seq<seq<Byte>>
    requires i + 1 < |parts|
  {
    parts[..i] + [parts[i] + parts[i + 1]] + parts[i + 2..]
  }

  /** Merging at the best pair until no adjacent pair is a token. */
  ghost function Greedy(ranks: Ranks, parts: seq<seq<Byte>>): seq<seq<Byte>>
    decreases |parts|
  {
    if i: nat :| IsBest(ranks, parts, i) then Greedy(ranks, MergeAt(parts, i)) else parts
  }

  lemma GreedyStep(ranks: Ranks, parts: seq<seq<Byte>>, i: nat)
    requires IsBest(ranks, parts, i)
    ensures Greedy(ranks, parts) == Greedy(ranks, MergeAt(parts, i))
  {
    forall j: nat | IsBest(ranks, parts, j)
      ensures j == i
    {
      assert Mergeable(ranks, parts, j) && Mergeable(ranks, parts, i);
    }
  }

  /** The source's inner scan over the adjacent pairs. */
  method FindBest(ranks: Ranks, parts: seq<seq<Byte>>) returns (best: int)
    ensures best < 0 ==> forall i: nat :: !Mergeable(ranks, parts, i)
    ensures best >= 0 ==> IsBest(ranks, parts, best)
  {
    best := -1;
    var index := 0;
    while index + 1 < |parts|
      invariant 0 <= index && (index < |parts| || index == 0)
      invariant best < 0 ==> forall i: nat | i < index :: !Mergeable(ranks, parts, i)
      invariant best >= 0 ==> BestBefore(ranks, parts, best, index)
    {
      if Mergeable(ranks, parts, index) && (best < 0 || PairRank(ranks, parts, index) < PairRank(ranks, parts, best)) {
        best := index;
      }
      index := index + 1;
    }
  }

  /** The source's merge loop computes the greedy segmentation, for any rank table. */
  method BpeMergePiece(ranks: Ranks, piece: seq<Byte>) returns (parts: seq<seq<Byte>>)
    ensures parts == Greedy(ranks, Singles(piece))
    ensures forall i: nat :: !Mergeable(ranks, parts, i)
  {
    parts := Singles(piece);
    var best := FindBest(ranks, parts);
    while best >= 0
      invariant best < 0 ==> forall i: nat :: !Mergeable(ranks, parts, i)
      invariant best >= 0 ==> IsBest(ranks, parts, best)
      invariant Greedy(ranks, parts) == Greedy(ranks, Singles(piece))
      decreases |parts|
    {
      GreedyStep(ranks, parts, best);
      parts := MergeAt(parts, best);
      best := FindBest(ranks, parts);
    }
  }

  // ---------- the greedy encoder never changes the bytes ----------

  lemma {:induction false} ConcatAppend(a: seq<seq<Byte>>, b: seq<seq<Byte>>)
    ensures Concat(a + b) == Concat(a) + Concat(b)
  {
    if a == [] {
      assert a + b == b;
    } else {
      assert (a + b)[1..] == a[1..] + b;
      ConcatAppend(a[1..], b);
    }
  }

  lemma {:induction false} ConcatSingles(text: seq<Byte>)
    ensures Concat(Singles(text)) == text
  {
    if text != [] {
      assert Singles(text)[1..] == Singles(text[1..]);
      ConcatSingles(text[1..]);
    }
  }

  lemma {:induction false} GreedyConcat(ranks: Ranks, parts: seq<seq<Byte>>)
    ensures Concat(Greedy(ranks, parts)) == Concat(parts)
    decreases |parts|
  {
    if i: nat :| IsBest(ranks, parts, i) {
      GreedyStep(ranks, parts, i);
      GreedyConcat(ranks, MergeAt(parts, i));
      var one: seq<seq<Byte>> := [parts[i] + parts[i + 1]];
      var two: seq<seq<Byte>> := parts[i..i + 2];
      assert |two[1..][1..]| == 0 && |one[1..]| == 0;
      assert Concat(one) == Concat(two);
      assert parts == parts[..i] + two + parts[i + 2..];
      ConcatAppend(parts[..i] + one, parts[i + 2..]);
      ConcatAppend(parts[..i], one);
      ConcatAppend(parts[..i] + two, parts[i + 2..]);
      ConcatAppend(parts[..i], two);
    }
  }

  /** Every part of the result is a token, if every single byte is one. */
  lemma {:induction false} GreedyTokens(ranks: Ranks, parts: seq<seq<Byte>>)
    requires forall i | 0 <= i < |parts| :: parts[i] in ranks
    ensures forall i | 0 <= i < |Greedy(ranks, parts)| :: Greedy(ranks, parts)[i] in ranks
    decreases |parts|
  {
    if i: nat :| IsBest(ranks, parts, i) {
      GreedyStep(ranks, parts, i);
      GreedyTokens(ranks, MergeAt(parts, i));
    }
  }

  // ---------- the greedy encoder replays the training merges ----------

  ghost predicate SymbolRanked(ranks: Ranks, merges: seq<Pair>, symbol: nat)
    requires WellFormed(merges) && symbol < 256 + |merges|
  {
    Spelling(merges, symbol) in ranks && ranks[Spelling(merges, symbol)] == symbol
  }

  ghost predicate TokenSpelled(ranks: Ranks, merges: seq<Pair>, bytes: seq<Byte>)
    requires WellFormed(merges) && bytes in ranks
  {
    ranks[bytes] < 256 + |merges| && Spelling(merges, ranks[bytes]) == bytes
  }

  /** The rank table holds exactly the spellings of the symbols, keyed by bytes. */
  ghost predicate RanksOf(ranks: Ranks, merges: seq<Pair>)
    requires WellFormed(merges)
  {
    && (forall symbol: nat | symbol < 256 + |merges| :: SymbolRanked(ranks, merges, symbol))
    && (forall bytes | bytes in ranks :: TokenSpelled(ranks, merges, bytes))
  }

  ghost function Spellings(merges: seq<Pair>, symbols: seq<nat>): (parts: seq<seq<Byte>>)
    requires WellFormed(merges) && Below(symbols, 256 + |merges|)
    ensures |parts| == |symbols|
    ensures forall i | 0 <= i < |symbols| :: parts[i] == Spelling(merges, symbols[i])
  {
    seq(|symbols|, i requires 0 <= i < |symbols| => Spelling(merges, symbols[i]))
  }

  /** The pass over `done` consumes its last symbol without waiting for the next one. */
  ghost predicate Aligned(done: seq<nat>, pair: Pair, merged: nat) {
    MergePass(done + [pair.right], pair, merged) == MergePass(done, pair, merged) + [pair.right]
  }

  lemma {:induction false} AlignedPass(done: seq<nat>, rest: seq<nat>, pair: Pair, merged: nat)
    requires Aligned(done, pair, merged)
    ensures MergePass(done + rest, pair, merged) == MergePass(done, pair, merged) + MergePass(rest, pair, merged)
  {
    hide MergePass;
    if done == [] {
      NothingMerged(pair, merged);
      assert done + rest == rest;
    } else if |done| >= 2 && done[0] == pair.left && done[1] == pair.right {
      PassHit(done, [], pair, merged);
      PassHit(done, [pair.right], pair, merged);
      PassHit(done, rest, pair, merged);
      Grouped([merged], MergePass(done[2..], pair, merged), [pair.right]);
      ConsCancel(merged, MergePass(done[2..] + [pair.right], pair, merged), MergePass(done[2..], pair, merged) + [pair.right]);
      AlignedPass(done[2..], rest, pair, merged);
      Grouped([merged], MergePass(done[2..], pair, merged), MergePass(rest, pair, merged));
    } else {
      SingleAligned(done, pair, merged);
      PassMiss(done, [], pair, merged);
      PassMiss(done, [pair.right], pair, merged);
      PassMiss(done, rest, pair, merged);
      Grouped([done[0]], MergePass(done[1..], pair, merged), [pair.right]);
      ConsCancel(done[0], MergePass(done[1..] + [pair.right], pair, merged), MergePass(done[1..], pair, merged) + [pair.right]);
      AlignedPass(done[1..], rest, pair, merged);
      Grouped([done[0]], MergePass(done[1..], pair, merged), MergePass(rest, pair, merged));
    }
  }

  lemma NothingMerged(pair: Pair, merged: nat)
    ensures MergePass([], pair, merged) == []
  {
  }

  lemma PassHit(done: seq<nat>, rest: seq<nat>, pair: Pair, merged: nat)
    requires |done| >= 2 && done[0] == pair.left && done[1] == pair.right
    ensures MergePass(done + rest, pair, merged) == [merged] + MergePass(done[2..] + rest, pair, merged)
    ensures done + [] == done && done[2..] + [] == done[2..]
  {
    assert (done + rest)[2..] == done[2..] + rest;
  }

  lemma PassMiss(done: seq<nat>, rest: seq<nat>, pair: Pair, merged: nat)
    requires done != [] && !(|done| >= 2 && done[0] == pair.left && done[1] == pair.right)
    requires |done| == 1 ==> done[0] != pair.left || rest == []
    ensures MergePass(done + rest, pair, merged) == [done[0]] + MergePass(done[1..] + rest, pair, merged)
    ensures done + [] == done && done[1..] + [] == done[1..]
  {
    assert (done + rest)[1..] == done[1..] + rest;
  }

  /** A lone first half of the pair would have waited. */
  lemma SingleAligned(done: seq<nat>, pair: Pair, merged: nat)
    requires Aligned(done, pair, merged)
    ensures |done| == 1 ==> done[0] != pair.left
  {
    if |done| == 1 && done[0] == pair.left {
      assert done + [pair.right] == [pair.left, pair.right];
      PassHit([pair.left, pair.right], [], pair, merged);
      PassMiss(done, [], pair, merged);
    }
  }

  /** The encoder in the middle of merge k: the replay up to k is `done + todo`, and the pairs
      of `done` have been merged already. */
  ghost predicate Midway(merges: seq<Pair>, text: seq<Byte>, k: nat, done: seq<nat>, todo: seq<nat>) {
    && Canonical(merges)
    && k < |merges|
    && Replay(merges, text, k) == done + todo
    && Aligned(done, merges[k], 256 + k)
  }

  ghost function State(merges: seq<Pair>, k: nat, done: seq<nat>, todo: seq<nat>): seq<nat>
    requires k < |merges|
  {
    MergePass(done, merges[k], 256 + k) + todo
  }

  lemma {:induction false} MidwayBelow(merges: seq<Pair>, text: seq<Byte>, k: nat, done: seq<nat>, todo: seq<nat>)
    requires Midway(merges, text, k, done, todo)
    ensures Below(State(merges, k, done, todo), 256 + |merges|)
  {
    ReplayCut(merges, text, k, done, todo);
    PassExpand(merges, done, k);
  }

  /** Symbols adjacent in what is merged already are adjacent after merge k. */
  lemma MidwayDone(merges: seq<Pair>, text: seq<Byte>, k: nat, done: seq<nat>, todo: seq<nat>, i: nat)
    requires Midway(merges, text, k, done, todo)
    requires i + 1 < |MergePass(done, merges[k], 256 + k)|
    ensures var merged := MergePass(done, merges[k], 256 + k);
            Adjacent(Replay(merges, text, k + 1), Pair(merged[i], merged[i + 1]))
  {
    var merged := MergePass(done, merges[k], 256 + k);
    AlignedPass(done, todo, merges[k], 256 + k);
    var after := Replay(merges, text, k + 1);
    assert after[i] == merged[i] && after[i + 1] == merged[i + 1];
  }

  /** The last merged symbol and the first one to do are adjacent after merge k of a shorter text. */
  lemma {:induction false} MidwaySeam(merges: seq<Pair>, text: seq<Byte>, k: nat, done: seq<nat>, todo: seq<nat>)
      returns (shorter: seq<Byte>)
    requires Midway(merges, text, k, done, todo)
    requires todo != [] && MergePass(done, merges[k], 256 + k) != []
    ensures var merged := MergePass(done, merges[k], 256 + k);
            Adjacent(Replay(merges, shorter, k + 1), Pair(merged[|merged| - 1], todo[0]))
  {
    hide Expand;
    var merged := MergePass(done, merges[k], 256 + k);
    var next := [todo[0]];
    assert done + todo == (done + next) + todo[1..];
    ReplayCut(merges, text, k, done + next, todo[1..]);
    shorter := Expand(merges, done + next);
    PassSmall(merges[k], 256 + k, todo[0]);
    AlignedPass(done, next, merges[k], 256 + k);
    var after := Replay(merges, shorter, k + 1);
    assert after == merged + next;
    assert after[|merged| - 1] == merged[|merged| - 1] && after[|merged| - 1 + 1] == todo[0];
  }

  /** In the middle of merge k every adjacent pair that is a token has rank at least 256+k, and
      rank 256+k only where the pair of merge k is still to be merged. */
  lemma {:induction false} MidwayRank(
      merges: seq<Pair>, text: seq<Byte>, k: nat, done: seq<nat>, todo: seq<nat>, i: nat, symbol: nat)
    requires Midway(merges, text, k, done, todo)
    requires i + 1 < |State(merges, k, done, todo)|
    requires Spells(merges, State(merges, k, done, todo)[i], State(merges, k, done, todo)[i + 1], symbol)
    ensures symbol >= 256 + k
    ensures symbol == 256 + k ==>
              var at := i - |MergePass(done, merges[k], 256 + k)|;
              at >= 0 && todo[at] == merges[k].left && todo[at + 1] == merges[k].right
  {
    hide MergePass, Replay, Aligned, Canonical;
    var merged := MergePass(done, merges[k], 256 + k);
    var n := |merged|;
    var state := merged + todo;
    var x, y := state[i], state[i + 1];
    if i >= n {
      var at := |done| + (i - n);
      assert (done + todo)[at] == x && (done + todo)[at + 1] == y;
      AdjacentRank(merges, text, k, x, y, symbol);
    } else if i + 1 < n {
      MidwayDone(merges, text, k, done, todo, i);
      AdjacentRank(merges, text, k + 1, x, y, symbol);
    } else {
      var shorter := MidwaySeam(merges, text, k, done, todo);
      AdjacentRank(merges, shorter, k + 1, x, y, symbol);
    }
  }

  /** Before the first occurrence of the pair the pass copies. */
  lemma {:induction false} SkipPass(skip: seq<nat>, rest: seq<nat>, pair: Pair, merged: nat)
    requires !Adjacent(skip + [pair.left], pair)
    requires rest != [] && rest[0] == pair.left
    ensures MergePass(skip + rest, pair, merged) == skip + MergePass(rest, pair, merged)
  {
    var s := skip + [pair.left];
    if skip != [] {
      assert !(s[|skip| - 1] == pair.left && s[|skip| - 1 + 1] == pair.right);
    }
    forall i | 0 <= i < |skip| - 1
      ensures !(skip[i] == pair.left && skip[i + 1] == pair.right)
    {
      assert !(s[i] == pair.left && s[i + 1] == pair.right);
    }
    PassIdentity(skip, pair, merged);
    PassJoin(skip, rest, pair, merged);
  }

  lemma {:induction false} AlignedStep(done: seq<nat>, skip: seq<nat>, pair: Pair, merged: nat)
    requires Aligned(done, pair, merged)
    requires !Adjacent(skip + [pair.left], pair)
    ensures Aligned(done + skip + [pair.left, pair.right], pair, merged)
    ensures MergePass(done + skip + [pair.left, pair.right], pair, merged)
            == MergePass(done, pair, merged) + skip + [merged]
  {
    var two, three := [pair.left, pair.right], [pair.left, pair.right, pair.right];
    PassSmall(pair, merged, pair.right);
    AlignedPass(done, skip + two, pair, merged);
    SkipPass(skip, two, pair, merged);
    assert done + skip + two == done + (skip + two);
    AlignedPass(done, skip + three, pair, merged);
    SkipPass(skip, three, pair, merged);
    assert done + skip + two + [pair.right] == done + (skip + three);
    assert MergePass(three, pair, merged) == [merged, pair.right] by {
      assert three[2..] == [pair.right];
    }
  }

  lemma FirstAdjacent(symbols: seq<nat>, pair: Pair) returns (at: nat)
    requires Adjacent(symbols, pair)
    ensures at + 1 < |symbols| && symbols[at] == pair.left && symbols[at + 1] == pair.right
    ensures !Adjacent(symbols[..at] + [pair.left], pair)
  {
    at := 0;
    while !(symbols[at] == pair.left && symbols[at + 1] == pair.right)
      invariant at + 1 < |symbols|
      invariant forall i | 0 <= i < at :: !(symbols[i] == pair.left && symbols[i + 1] == pair.right)
      decreases |symbols| - at
    {
      if at + 2 == |symbols| {
        assert false;
      }
      at := at + 1;
    }
    var s := symbols[..at] + [pair.left];
    forall i | 0 <= i < |s| - 1
      ensures !(s[i] == pair.left && s[i + 1] == pair.right)
    {
      assert s[i] == symbols[i] && s[i + 1] == symbols[i + 1];
    }
  }

  lemma TokenSpells(merges: seq<Pair>, ranks: Ranks, symbols: seq<nat>, j: nat)
    requires WellFormed(merges) && RanksOf(ranks, merges) && Below(symbols, 256 + |merges|)
    requires Mergeable(ranks, Spellings(merges, symbols), j)
    ensures Spells(merges, symbols[j], symbols[j + 1], PairRank(ranks, Spellings(merges, symbols), j))
  {
    var parts := Spellings(merges, symbols);
    assert TokenSpelled(ranks, merges, parts[j] + parts[j + 1]);
  }

  lemma {:induction false} BestAtFirst(
      merges: seq<Pair>, ranks: Ranks, text: seq<Byte>, k: nat, done: seq<nat>, todo: seq<nat>, at: nat)
    requires Midway(merges, text, k, done, todo) && RanksOf(ranks, merges)
    requires Below(State(merges, k, done, todo), 256 + |merges|)
    requires at + 1 < |todo| && todo[at] == merges[k].left && todo[at + 1] == merges[k].right
    requires !Adjacent(todo[..at] + [merges[k].left], merges[k])
    ensures IsBest(ranks, Spellings(merges, State(merges, k, done, todo)),
                   |MergePass(done, merges[k], 256 + k)| + at)
  {
    var state := State(merges, k, done, todo);
    var parts := Spellings(merges, state);
    var n := |MergePass(done, merges[k], 256 + k)|;
    assert SymbolRanked(ranks, merges, 256 + k);
    assert parts[n + at] + parts[n + at + 1] == Spelling(merges, 256 + k);
    forall j: nat | Mergeable(ranks, parts, j)
      ensures 256 + k <= PairRank(ranks, parts, j)
      ensures j < n + at ==> 256 + k < PairRank(ranks, parts, j)
    {
      TokenSpells(merges, ranks, state, j);
      MidwayRank(merges, text, k, done, todo, j, PairRank(ranks, parts, j));
      if PairRank(ranks, parts, j) == 256 + k && j < n + at {
        NotBeforeFirst(todo, merges[k], at, j - n);
      }
    }
  }

  lemma NotBeforeFirst(symbols: seq<nat>, pair: Pair, at: nat, i: nat)
    requires i < at < |symbols| && symbols[at] == pair.left
    requires symbols[i] == pair.left && symbols[i + 1] == pair.right
    ensures Adjacent(symbols[..at] + [pair.left], pair)
  {
    var s := symbols[..at] + [pair.left];
    assert s[i] == pair.left && s[i + 1] == pair.right;
  }

  /** From the middle of merge k the encoder reaches the full replay. */
  lemma {:induction false} MidwayGreedy(
      merges: seq<Pair>, ranks: Ranks, text: seq<Byte>, k: nat, done: seq<nat>, todo: seq<nat>)
    requires Midway(merges, text, k, done, todo) && RanksOf(ranks, merges)
    requires Below(State(merges, k, done, todo), 256 + |merges|)
    ensures Below(Replay(merges, text, |merges|), 256 + |merges|)
    ensures Greedy(ranks, Spellings(merges, State(merges, k, done, todo)))
            == Spellings(merges, Replay(merges, text, |merges|))
    decreases |merges| - k, |todo|
  {
    var state := State(merges, k, done, todo);
    if Adjacent(todo, merges[k]) {
      var at := FirstAdjacent(todo, merges[k]);
      var done', todo' := NextState(merges, ranks, text, k, done, todo, at);
      MidwayGreedy(merges, ranks, text, k, done', todo');
    } else {
      PassIdentity(todo, merges[k], 256 + k);
      AlignedPass(done, todo, merges[k], 256 + k);
      assert Replay(merges, text, k + 1) == state;
      NextMerge(merges, ranks, text, k + 1);
    }
  }

  /** One encoder step merges the first remaining occurrence of the pair of merge k. */
  lemma {:induction false} NextState(
      merges: seq<Pair>, ranks: Ranks, text: seq<Byte>, k: nat, done: seq<nat>, todo: seq<nat>, at: nat)
      returns (done': seq<nat>, todo': seq<nat>)
    requires Midway(merges, text, k, done, todo) && RanksOf(ranks, merges)
    requires Below(State(merges, k, done, todo), 256 + |merges|)
    requires at + 1 < |todo| && todo[at] == merges[k].left && todo[at + 1] == merges[k].right
    requires !Adjacent(todo[..at] + [merges[k].left], merges[k])
    ensures Midway(merges, text, k, done', todo') && |todo'| < |todo|
    ensures Below(State(merges, k, done', todo'), 256 + |merges|)
    ensures Greedy(ranks, Spellings(merges, State(merges, k, done, todo)))
            == Greedy(ranks, Spellings(merges, State(merges, k, done', todo')))
  {
    hide MergePass, Replay, Greedy, Spellings, RanksOf, Adjacent;
    AlignedStep(done, todo[..at], merges[k], 256 + k);
    done', todo' := done + todo[..at] + [merges[k].left, merges[k].right], todo[at + 2..];
    assert done' + todo' == done + todo;
    MidwayBelow(merges, text, k, done', todo');
    BestAtFirst(merges, ranks, text, k, done, todo, at);
    var merged := MergePass(done, merges[k], 256 + k);
    Splice(merged, todo, at, 256 + k);
    MergeFirst(merges, ranks, k, merged + todo, |merged| + at, State(merges, k, done', todo'));
  }

  lemma Splice(a: seq<nat>, b: seq<nat>, at: nat, x: nat)
    requires at + 1 < |b|
    ensures (a + b)[..|a| + at] + [x] + (a + b)[|a| + at + 2..] == a + b[..at] + [x] + b[at + 2..]
  {
    assert (a + b)[..|a| + at] == a + b[..at];
    assert (a + b)[|a| + at + 2..] == b[at + 2..];
  }

  lemma MergeFirst(merges: seq<Pair>, ranks: Ranks, k: nat, state: seq<nat>, i: nat, next: seq<nat>)
    requires WellFormed(merges) && k < |merges| && i + 1 < |state|
    requires Below(state, 256 + |merges|) && Below(next, 256 + |merges|)
    requires state[i] == merges[k].left && state[i + 1] == merges[k].right
    requires next == state[..i] + [256 + k] + state[i + 2..]
    requires IsBest(ranks, Spellings(merges, state), i)
    ensures Greedy(ranks, Spellings(merges, state)) == Greedy(ranks, Spellings(merges, next))
  {
    GreedyStep(ranks, Spellings(merges, state), i);
    assert MergeAt(Spellings(merges, state), i) == Spellings(merges, next);
  }

  lemma {:induction false} NextMerge(merges: seq<Pair>, ranks: Ranks, text: seq<Byte>, k: nat)
    requires Canonical(merges) && RanksOf(ranks, merges) && k <= |merges|
    ensures Below(Replay(merges, text, k), 256 + |merges|)
    ensures Below(Replay(merges, text, |merges|), 256 + |merges|)
    ensures Greedy(ranks, Spellings(merges, Replay(merges, text, k)))
            == Spellings(merges, Replay(merges, text, |merges|))
    decreases |merges| - k, |text| + 1
  {
    ReplayExpand(merges, text, k);
    ReplayExpand(merges, text, |merges|);
    var state := Replay(merges, text, k);
    if k < |merges| {
      PassSmall(merges[k], 256 + k, merges[k].right);
      assert [] + [merges[k].right] == [merges[k].right] && [] + state == state;
      ReplayLength(merges, text, k);
      MidwayGreedy(merges, ranks, text, k, [], state);
    } else {
      NoneLeft(merges, ranks, text);
    }
  }

  lemma NoneLeft(merges: seq<Pair>, ranks: Ranks, text: seq<Byte>)
    requires Canonical(merges) && RanksOf(ranks, merges)
    requires Below(Replay(merges, text, |merges|), 256 + |merges|)
    ensures forall j: nat :: !Mergeable(ranks, Spellings(merges, Replay(merges, text, |merges|)), j)
  {
    var state := Replay(merges, text, |merges|);
    forall j: nat | Mergeable(ranks, Spellings(merges, state), j)
      ensures false
    {
      TokenSpells(merges, ranks, state, j);
      assert Adjacent(state, Pair(state[j], state[j + 1]));
      AdjacentRank(merges, text, |merges|, state[j], state[j + 1], PairRank(ranks, Spellings(merges, state), j));
    }
  }

  lemma {:induction false} PassLength(symbols: seq<nat>, pair: Pair, merged: nat)
    ensures |MergePass(symbols, pair, merged)| <= |symbols|
    decreases |symbols|
  {
    if symbols == [] {
    } else if |symbols| >= 2 && symbols[0] == pair.left && symbols[1] == pair.right {
      PassLength(symbols[2..], pair, merged);
    } else {
      PassLength(symbols[1..], pair, merged);
    }
  }

  lemma {:induction false} ReplayLength(merges: seq<Pair>, text: seq<Byte>, k: nat)
    requires k <= |merges|
    ensures |Replay(merges, text, k)| <= |text|
  {
    if k > 0 {
      ReplayLength(merges, text, k - 1);
      PassLength(Replay(merges, text, k - 1), merges[k - 1], 256 + k - 1);
    }
  }

  /** Encoder equals trainer replay, for every byte string: greedily merging by byte-keyed rank
      gives the segmentation obtained by applying every training merge in order. */
  lemma {:induction false} EncoderReplaysMerges(merges: seq<Pair>, ranks: Ranks, text: seq<Byte>)
    requires Canonical(merges) && RanksOf(ranks, merges)
    ensures Below(Replay(merges, text, |merges|), 256 + |merges|)
    ensures Greedy(ranks, Singles(text)) == Spellings(merges, Replay(merges, text, |merges|))
  {
    NextMerge(merges, ranks, text, 0);
    assert Spellings(merges, Replay(merges, text, 0)) == Singles(text);
  }
}
