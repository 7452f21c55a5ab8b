/** Byte-level BPE: the merge pass, its replay over a byte string, and the facts that make a
    vocabulary keyed by bytes equivalent to one keyed by symbol pairs. */
module Bpe {
  import opened Bytes

  /** An adjacent pair of symbols. */
  datatype Pair = Pair(left: nat, right: nat)

  /** Merge k replaces `merges[k]` by symbol 256+k; both sides are older symbols. */
  ghost predicate WellFormed(merges: seq<Pair>) {
    forall k | 0 <= k < |merges| :: merges[k].left < 256 + k && merges[k].right < 256 + k
  }

  ghost predicate Below(symbols: seq<nat>, bound: nat) {
    forall i | 0 <= i < |symbols| :: symbols[i] < bound
  }

  /** The bytes a symbol stands for. */
  ghost function Spelling(merges: seq<Pair>, symbol: nat): (bytes: seq<Byte>)
    requires WellFormed(merges) && symbol < 256 + |merges|
    ensures if symbol < 256 then bytes == [symbol] else |bytes| >= 2
    decreases symbol
  {
    if symbol < 256 then [symbol]
    else Spelling(merges, merges[symbol - 256].left) + Spelling(merges, merges[symbol - 256].right)
  }

  ghost function Expand(merges: seq<Pair>, symbols: seq<nat>): seq<Byte>
    requires WellFormed(merges) && Below(symbols, 256 + |merges|)
  {
    if symbols == [] then [] else Spelling(merges, symbols[0]) + Expand(merges, symbols[1..])
  }

  /** One left-to-right pass replacing non-overlapping occurrences of `pair`. */
  function MergePass(symbols: seq<nat>, pair: Pair, merged: nat): seq<nat> {
    if symbols == [] then []
    else if |symbols| >= 2 && symbols[0] == pair.left && symbols[1] == pair.right then
      [merged] + MergePass(symbols[2..], pair, merged)
    else [symbols[0]] + MergePass(symbols[1..], pair, merged)
  }

  /** The source's cursor loop computes the pass. */
  method MergePairs(symbols: seq<nat>, pair: Pair, merged: nat) returns (out: seq<nat>)
    ensures out == MergePass(symbols, pair, merged)
  {
    hide MergePass;
    out := [];
    var index := 0;
    assert symbols[0..] == symbols;
    while index < |symbols|
      invariant 0 <= index <= |symbols|
      invariant out + MergePass(symbols[index..], pair, merged) == MergePass(symbols, pair, merged)
    {
      PassStep(symbols[index..], pair, merged);
      if index + 1 < |symbols| && symbols[index] == pair.left && symbols[index + 1] == pair.right {
        assert symbols[index..][2..] == symbols[index + 2..];
        out := out + [merged];
        index := index + 2;
      } else {
        assert symbols[index..][1..] == symbols[index + 1..];
        out := out + [symbols[index]];
        index := index + 1;
      }
    }
    PassStep(symbols[index..], pair, merged);
  }

  /** The segmentation of `text` after the first k merges. */
  ghost function Replay(merges: seq<Pair>, text: seq<Byte>, k: nat): seq<nat>
    requires k <= |merges|
  {
    if k == 0 then text else MergePass(Replay(merges, text, k - 1), merges[k - 1], 256 + k - 1)
  }

  ghost predicate Adjacent(symbols: seq<nat>, pair: Pair) {
    exists i :: 0 <= i < |symbols| - 1 && symbols[i] == pair.left && symbols[i + 1] == pair.right
  }

  // ---------- one pass ----------

  lemma {:induction false} ExpandConcat(merges: seq<Pair>, a: seq<nat>, b: seq<nat>)
    requires WellFormed(merges) && Below(a, 256 + |merges|) && Below(b, 256 + |merges|)
    ensures Below(a + b, 256 + |merges|)
    ensures Expand(merges, a + b) == Expand(merges, a) + Expand(merges, b)
  {
    if a == [] {
      assert a + b == b;
    } else {
      assert (a + b)[1..] == a[1..] + b;
      ExpandConcat(merges, a[1..], b);
    }
  }

  lemma {:induction false} PassExpand(merges: seq<Pair>, symbols: seq<nat>, k: nat)
    requires WellFormed(merges) && k < |merges| && Below(symbols, 256 + k)
    ensures var out := MergePass(symbols, merges[k], 256 + k);
            Below(out, 256 + k + 1) && Expand(merges, out) == Expand(merges, symbols)
  {
    if symbols == [] {
    } else if |symbols| >= 2 && symbols[0] == merges[k].left && symbols[1] == merges[k].right {
      PassExpand(merges, symbols[2..], k);
      assert symbols[1..][1..] == symbols[2..];
      var rest := MergePass(symbols[2..], merges[k], 256 + k);
      assert ([256 + k] + rest)[1..] == rest;
    } else {
      PassExpand(merges, symbols[1..], k);
      var rest := MergePass(symbols[1..], merges[k], 256 + k);
      assert ([symbols[0]] + rest)[1..] == rest;
    }
  }

  /** Any cut of a pass's output comes from a cut of its input, and the pass works on the halves
      separately. */
  lemma {:induction false} PassCut(symbols: seq<nat>, pair: Pair, merged: nat, p: seq<nat>, q: seq<nat>)
      returns (cut: nat)
    requires MergePass(symbols, pair, merged) == p + q
    ensures cut <= |symbols|
    ensures MergePass(symbols[..cut], pair, merged) == p
    ensures MergePass(symbols[cut..], pair, merged) == q
  {
    if p == [] {
      cut := 0;
      assert symbols[0..] == symbols && p + q == q;
    } else if |symbols| >= 2 && symbols[0] == pair.left && symbols[1] == pair.right {
      var rest := symbols[2..];
      assert MergePass(rest, pair, merged) == MergePass(symbols, pair, merged)[1..] == p[1..] + q;
      var inner := PassCut(rest, pair, merged, p[1..], q);
      cut := inner + 2;
      assert symbols[..cut][2..] == rest[..inner] && symbols[cut..] == rest[inner..];
    } else {
      assert symbols != [];
      var rest := symbols[1..];
      assert MergePass(rest, pair, merged) == MergePass(symbols, pair, merged)[1..] == p[1..] + q;
      var inner := PassCut(rest, pair, merged, p[1..], q);
      cut := inner + 1;
      assert symbols[..cut][1..] == rest[..inner] && symbols[cut..] == rest[inner..];
    }
  }

  /** The pass distributes over a cut that does not fall inside an occurrence. */
  lemma {:induction false} PassJoin(a: seq<nat>, b: seq<nat>, pair: Pair, merged: nat)
    requires a == [] || b == [] || a[|a| - 1] != pair.left || b[0] != pair.right
    ensures MergePass(a + b, pair, merged) == MergePass(a, pair, merged) + MergePass(b, pair, merged)
  {
    hide MergePass;
    if a == [] {
      assert a + b == b;
      PassStep(a, pair, merged);
    } else {
      var head, n := PassFront(a, b, pair, merged);
      PassJoin(a[n..], b, pair, merged);
      var rest, last := MergePass(a[n..], pair, merged), MergePass(b, pair, merged);
      assert head + (rest + last) == (head + rest) + last;
    }
  }

  /** The first symbol or pair of `a` is treated the same with `b` behind it. */
  lemma PassFront(a: seq<nat>, b: seq<nat>, pair: Pair, merged: nat) returns (head: seq<nat>, n: nat)
    requires a != [] && (b == [] || a[|a| - 1] != pair.left || b[0] != pair.right)
    ensures 1 <= n <= |a|
    ensures MergePass(a, pair, merged) == head + MergePass(a[n..], pair, merged)
    ensures MergePass(a + b, pair, merged) == head + MergePass(a[n..] + b, pair, merged)
  {
    hide MergePass;
    PassStep(a, pair, merged);
    PassStep(a + b, pair, merged);
    if |a| >= 2 && a[0] == pair.left && a[1] == pair.right {
      head, n := [merged], 2;
      assert (a + b)[2..] == a[2..] + b;
    } else {
      head, n := [a[0]], 1;
      assert (a + b)[1..] == a[1..] + b;
    }
  }

  lemma PassStep(symbols: seq<nat>, pair: Pair, merged: nat)
    ensures MergePass(symbols, pair, merged)
         == if symbols == [] then []
            else if |symbols| >= 2 && symbols[0] == pair.left && symbols[1] == pair.right
            then [merged] + MergePass(symbols[2..], pair, merged)
            else [symbols[0]] + MergePass(symbols[1..], pair, merged)
  {
  }

  lemma {:induction false} PassIdentity(symbols: seq<nat>, pair: Pair, merged: nat)
    requires !Adjacent(symbols, pair)
    ensures MergePass(symbols, pair, merged) == symbols
  {
    if |symbols| >= 2 {
      assert forall i | 0 <= i < |symbols| - 1 :: !(symbols[i] == pair.left && symbols[i + 1] == pair.right);
      forall i | 0 <= i < |symbols[1..]| - 1
        ensures !(symbols[1..][i] == pair.left && symbols[1..][i + 1] == pair.right)
      {
        assert !(symbols[i + 1] == pair.left && symbols[i + 2] == pair.right);
      }
      assert !(symbols[0] == pair.left && symbols[0 + 1] == pair.right);
      PassIdentity(symbols[1..], pair, merged);
    } else if |symbols| == 1 {
      assert MergePass(symbols[1..], pair, merged) == [];
    }
  }

  lemma PassSmall(pair: Pair, merged: nat, symbol: nat)
    ensures MergePass([symbol], pair, merged) == [symbol]
    ensures MergePass([pair.left, pair.right], pair, merged) == [merged]
  {
    assert [symbol][1..] == [] && [pair.left, pair.right][2..] == [];
  }

  // ---------- replay ----------

  lemma {:induction false} ExpandText(merges: seq<Pair>, text: seq<Byte>)
    requires WellFormed(merges)
    ensures Expand(merges, text) == text
  {
    if text != [] {
      ExpandText(merges, text[1..]);
    }
  }

  lemma {:induction false} ReplayExpand(merges: seq<Pair>, text: seq<Byte>, k: nat)
    requires WellFormed(merges) && k <= |merges|
    ensures Below(Replay(merges, text, k), 256 + k) && Expand(merges, Replay(merges, text, k)) == text
  {
    if k == 0 {
      ExpandText(merges, text);
    } else {
      ReplayExpand(merges, text, k - 1);
      PassExpand(merges, Replay(merges, text, k - 1), k - 1);
    }
  }

  lemma ReplayStep(merges: seq<Pair>, text: seq<Byte>, k: nat)
    requires k <= |merges|
    ensures Replay(merges, text, k)
         == if k == 0 then text else MergePass(Replay(merges, text, k - 1), merges[k - 1], 256 + k - 1)
  {
  }

  /** Span independence: a boundary that is still there after k merges splits the replay into
      the replays of the two byte strings on its sides. */
  lemma {:induction false} ReplayCut(merges: seq<Pair>, text: seq<Byte>, k: nat, p: seq<nat>, q: seq<nat>)
    requires WellFormed(merges) && k <= |merges|
    requires Replay(merges, text, k) == p + q
    ensures Below(p, 256 + k) && Below(q, 256 + k)
    ensures text == Expand(merges, p) + Expand(merges, q)
    ensures Replay(merges, Expand(merges, p), k) == p
    ensures Replay(merges, Expand(merges, q), k) == q
  {
    hide MergePass, Replay, Expand;
    ReplayExpand(merges, text, k);
    assert p == (p + q)[..|p|] && q == (p + q)[|p|..];
    ExpandConcat(merges, p, q);
    ReplayStep(merges, text, k);
    ReplayStep(merges, Expand(merges, p), k);
    ReplayStep(merges, Expand(merges, q), k);
    if k == 0 {
      ExpandText(merges, p);
      ExpandText(merges, q);
    } else {
      var before := Replay(merges, text, k - 1);
      var cut := PassCut(before, merges[k - 1], 256 + k - 1, p, q);
      var u, v := before[..cut], before[cut..];
      assert before == u + v;
      ReplayCut(merges, text, k - 1, u, v);
      PassExpand(merges, u, k - 1);
      PassExpand(merges, v, k - 1);
      assert Expand(merges, p) == Expand(merges, u) && Expand(merges, q) == Expand(merges, v);
    }
  }

  /** A string that has become one symbol stays that symbol. */
  lemma {:induction false} ReplaySingle(merges: seq<Pair>, text: seq<Byte>, j: nat, k: nat, symbol: nat)
    requires j <= k <= |merges| && Replay(merges, text, j) == [symbol]
    ensures Replay(merges, text, k) == [symbol]
    decreases k
  {
    if j < k {
      ReplaySingle(merges, text, j, k - 1, symbol);
      PassSmall(merges[k - 1], 256 + k - 1, symbol);
    }
  }

  // ---------- grounded merge lists ----------

  ghost predicate GroundedAt(merges: seq<Pair>, pieces: seq<seq<Byte>>, k: nat)
    requires k < |merges|
  {
    exists i :: 0 <= i < |pieces| && Adjacent(Replay(merges, pieces[i], k), merges[k])
  }

  /** Every merge's pair was adjacent in some training piece at the moment it was merged. This
      is all that freshness needs: it does not matter which adjacent pair was picked. */
  ghost predicate Grounded(merges: seq<Pair>, pieces: seq<seq<Byte>>) {
    WellFormed(merges) && forall k: nat | k < |merges| :: GroundedAt(merges, pieces, k)
  }

  /** Spelled out alone, merged symbol 256+k is still its two parts just before merge k. */
  ghost predicate CanonicalAt(merges: seq<Pair>, k: nat)
    requires WellFormed(merges) && k < |merges|
  {
    Replay(merges, Spelling(merges, 256 + k), k) == [merges[k].left, merges[k].right]
  }

  ghost predicate Canonical(merges: seq<Pair>) {
    WellFormed(merges) && forall k: nat | k < |merges| :: CanonicalAt(merges, k)
  }

  lemma {:induction false} AdjacentAlone(merges: seq<Pair>, text: seq<Byte>, k: nat, x: nat, y: nat, i: nat)
    requires WellFormed(merges) && k <= |merges|
    requires i + 1 < |Replay(merges, text, k)|
    requires Replay(merges, text, k)[i] == x && Replay(merges, text, k)[i + 1] == y
    ensures x < 256 + k && y < 256 + k
    ensures Replay(merges, Spelling(merges, x) + Spelling(merges, y), k) == [x, y]
  {
    var s := Replay(merges, text, k);
    assert s == s[..i] + s[i..];
    ReplayCut(merges, text, k, s[..i], s[i..]);
    var tail := s[i..];
    assert tail == tail[..2] + tail[2..] && tail[..2] == [x, y];
    ReplayCut(merges, Expand(merges, tail), k, [x, y], tail[2..]);
    assert [x, y][1..] == [y] && [y][1..] == [];
    assert Expand(merges, [x, y]) == Spelling(merges, x) + Spelling(merges, y);
  }

  lemma {:induction false} GroundedIsCanonical(merges: seq<Pair>, pieces: seq<seq<Byte>>)
    requires Grounded(merges, pieces)
    ensures Canonical(merges)
  {
    forall k: nat | k < |merges|
      ensures CanonicalAt(merges, k)
    {
      assert GroundedAt(merges, pieces, k);
      var n :| 0 <= n < |pieces| && Adjacent(Replay(merges, pieces[n], k), merges[k]);
      var s := Replay(merges, pieces[n], k);
      var i :| 0 <= i < |s| - 1 && s[i] == merges[k].left && s[i + 1] == merges[k].right;
      AdjacentAlone(merges, pieces[n], k, merges[k].left, merges[k].right, i);
    }
  }

  /** From merge k on, the spelling of symbol 256+k is that one symbol. */
  lemma {:induction false} SpellingReplay(merges: seq<Pair>, k: nat, later: nat)
    requires Canonical(merges) && k < later <= |merges|
    ensures Replay(merges, Spelling(merges, 256 + k), later) == [256 + k]
  {
    PassSmall(merges[k], 256 + k, 0);
    assert CanonicalAt(merges, k);
    assert Replay(merges, Spelling(merges, 256 + k), k + 1) == [256 + k];
    ReplaySingle(merges, Spelling(merges, 256 + k), k + 1, later, 256 + k);
  }

  /** Merge freshness: no merge spells a byte string that an older symbol already spells. */
  lemma {:induction false} SpellingInjective(merges: seq<Pair>, a: nat, b: nat)
    requires Canonical(merges) && a < b < 256 + |merges|
    ensures Spelling(merges, a) != Spelling(merges, b)
  {
    if a >= 256 {
      assert CanonicalAt(merges, b - 256);
      SpellingReplay(merges, a - 256, b - 256);
    }
  }

  /** The bytes of x followed by those of y are the bytes of `symbol`. */
  ghost predicate Spells(merges: seq<Pair>, x: nat, y: nat, symbol: nat)
    requires WellFormed(merges)
  {
    && x < 256 + |merges| && y < 256 + |merges| && symbol < 256 + |merges|
    && Spelling(merges, x) + Spelling(merges, y) == Spelling(merges, symbol)
  }

  /** A pair of symbols adjacent after k merges never spells a symbol older than 256+k, and
      spells exactly 256+k only if it is the pair of merge k. */
  lemma {:induction false} AdjacentRank(merges: seq<Pair>, text: seq<Byte>, k: nat, x: nat, y: nat, symbol: nat)
    requires Canonical(merges) && k <= |merges|
    requires Adjacent(Replay(merges, text, k), Pair(x, y)) && Spells(merges, x, y, symbol)
    ensures symbol >= 256 + k
    ensures symbol == 256 + k ==> merges[k] == Pair(x, y)
  {
    var s := Replay(merges, text, k);
    var i :| 0 <= i < |s| - 1 && s[i] == x && s[i + 1] == y;
    AdjacentAlone(merges, text, k, x, y, i);
    if 256 <= symbol < 256 + k {
      SpellingReplay(merges, symbol - 256, k);
    } else if symbol == 256 + k {
      assert CanonicalAt(merges, k);
    }
  }
}
