/** The tokenizer: id layout, encoding and decoding over a trained rank table. */
module Tokenizers {
  import opened Bytes
  import opened Bpe
  import opened BpeEncoder
  import opened Utf8
  import opened Splitter
  import BpeTrainer

  function RankOrZero(ranks: Ranks, token: seq<Byte>): nat {
    if token in ranks then ranks[token] else 0
  }

  ghost function Ids(ranks: Ranks, parts: seq<seq<Byte>>): (ids: seq<nat>)
    ensures |ids| == |parts| && forall i | 0 <= i < |parts| :: ids[i] == RankOrZero(ranks, parts[i])
  {
    seq(|parts|, i requires 0 <= i < |parts| => RankOrZero(ranks, parts[i]))
  }

  ghost function EncodePieces(ranks: Ranks, pieces: seq<seq<Byte>>): seq<nat> {
    if pieces == [] then [] else Ids(ranks, Greedy(ranks, Singles(pieces[0]))) + EncodePieces(ranks, pieces[1..])
  }

  /** Unknown ids decode to nothing. */
  ghost function DecodeIds(tokenBytes: seq<seq<Byte>>, ids: seq<int>): seq<Byte> {
    if ids == [] then []
    else (if 0 <= ids[0] < |tokenBytes| then tokenBytes[ids[0]] else []) + DecodeIds(tokenBytes, ids[1..])
  }

  lemma EncodeStep(ranks: Ranks, pieces: seq<seq<Byte>>, p: nat)
    requires p <= |pieces|
    ensures EncodePieces(ranks, pieces[p..])
         == if p == |pieces| then [] else Ids(ranks, Greedy(ranks, Singles(pieces[p]))) + EncodePieces(ranks, pieces[p + 1..])
  {
    if p < |pieces| {
      assert pieces[p..][1..] == pieces[p + 1..];
    }
  }

  lemma DecodeStep(tokenBytes: seq<seq<Byte>>, ids: seq<int>, i: nat)
    requires i <= |ids|
    ensures DecodeIds(tokenBytes, ids[i..])
         == if i == |ids| then []
            else (if 0 <= ids[i] < |tokenBytes| then tokenBytes[ids[i]] else []) + DecodeIds(tokenBytes, ids[i + 1..])
  {
    if i < |ids| {
      assert ids[i..][1..] == ids[i + 1..];
    }
  }

  /** The slot of every token's rank holds a token of that rank. */
  ghost predicate Slotted(ranks: Ranks, tokens: set<seq<Byte>>, bytes: seq<seq<Byte>>, bound: nat)
    requires tokens <= ranks.Keys
  {
    forall token | token in tokens && ranks[token] < bound ::
      ranks[token] < |bytes| && bytes[ranks[token]] in ranks && ranks[bytes[ranks[token]]] == ranks[token]
  }

  lemma NoSlots(ranks: Ranks, bytes: seq<seq<Byte>>, bound: nat)
    ensures Slotted(ranks, {}, bytes, bound)
  {
  }

  lemma SlotOne(ranks: Ranks, tokens: set<seq<Byte>>, bytes: seq<seq<Byte>>, bound: nat, token: seq<Byte>)
    requires tokens <= ranks.Keys && Slotted(ranks, tokens, bytes, bound)
    requires token in ranks && ranks[token] < |bytes|
    ensures Slotted(ranks, tokens + {token}, bytes[ranks[token] := token], bound)
  {
    var changed := bytes[ranks[token] := token];
    forall other | other in tokens + {token} && ranks[other] < bound
      ensures ranks[other] < |changed| && changed[ranks[other]] in ranks && ranks[changed[ranks[other]]] == ranks[other]
    {
      if ranks[other] != ranks[token] {
        assert changed[ranks[other]] == bytes[ranks[other]];
      }
    }
  }

  method LayTokens(ranks: Ranks, vocabSize: nat) returns (bytes: seq<seq<Byte>>)
    requires forall token | token in ranks :: ranks[token] < vocabSize
    ensures |bytes| == vocabSize && Slotted(ranks, ranks.Keys, bytes, vocabSize)
  {
    hide Slotted;
    bytes := seq(vocabSize, _ => []);
    var todo := ranks.Keys;
    NoSlots(ranks, bytes, vocabSize);
    assert ranks.Keys - todo == {};
    while todo != {}
      invariant |bytes| == vocabSize && todo <= ranks.Keys
      invariant Slotted(ranks, ranks.Keys - todo, bytes, vocabSize)
      decreases |todo|
    {
      var token :| token in todo;
      SlotOne(ranks, ranks.Keys - todo, bytes, vocabSize, token);
      assert ranks.Keys - (todo - {token}) == (ranks.Keys - todo) + {token};
      bytes := bytes[ranks[token] := token];
      todo := todo - {token};
    }
    assert ranks.Keys - {} == ranks.Keys;
  }

  /** The special tokens up to `index` have their ids and names. */
  ghost predicate Named(
      specials: seq<seq<Byte>>, index: nat, first: nat, ids: map<seq<Byte>, nat>, names: map<nat, seq<Byte>>)
    requires index <= |specials|
  {
    && (forall id: nat :: id in names <==> first <= id < first + index)
    && (forall id: nat | id in names :: names[id] == specials[id - first])
    && (forall i: nat | i < index :: specials[i] in ids)
    && (forall name | name in ids :: IdOf(specials, index, first, name, ids[name]))
  }

  /** A name that is listed twice keeps its last id. */
  ghost predicate IdOf(specials: seq<seq<Byte>>, index: nat, first: nat, name: seq<Byte>, id: nat)
    requires index <= |specials|
  {
    && first <= id < first + index && specials[id - first] == name
    && forall later: nat | id - first < later < index :: specials[later] != name
  }

  /** Special tokens take the ids from `first` on, in order. */
  method LaySpecials(specials: seq<seq<Byte>>, first: nat, tokens: seq<seq<Byte>>)
      returns (bytes: seq<seq<Byte>>, ids: map<seq<Byte>, nat>, names: map<nat, seq<Byte>>)
    requires |tokens| == first + |specials|
    ensures |bytes| == |tokens| && bytes[..first] == tokens[..first] && bytes[first..] == specials
    ensures Named(specials, |specials|, first, ids, names)
  {
    bytes, ids, names := tokens, map[], map[];
    for index := 0 to |specials|
      invariant |bytes| == |tokens|
      invariant forall j | 0 <= j < first :: bytes[j] == tokens[j]
      invariant forall j | first <= j < first + index :: bytes[j] == specials[j - first]
      invariant Named(specials, index, first, ids, names)
    {
      hide Named;
      var id, name := first + index, specials[index];
      NameOne(specials, index, first, ids, names);
      ids, names, bytes := ids[name := id], names[id := name], bytes[id := name];
    }
  }

  lemma NameOne(
      specials: seq<seq<Byte>>, index: nat, first: nat, ids: map<seq<Byte>, nat>, names: map<nat, seq<Byte>>)
    requires index < |specials| && Named(specials, index, first, ids, names)
    ensures var id, name := first + index, specials[index];
            Named(specials, index + 1, first, ids[name := id], names[id := name])
  {
    var id, name := first + index, specials[index];
    forall other | other in ids && other != name ensures IdOf(specials, index + 1, first, other, ids[other]) {
      assert IdOf(specials, index, first, other, ids[other]);
    }
  }

  class Tokenizer {
    const mergeableRanks: Ranks
    var specialIDs: map<seq<Byte>, nat>
    var specialNames: map<nat, seq<Byte>>
    var tokenBytes: seq<seq<Byte>>

    /** Every id below the vocabulary size means one thing: the token of that rank, or the special
        name at that place behind them. */
    ghost predicate Laid(specials: seq<seq<Byte>>)
      reads this
    {
      && |tokenBytes| == |mergeableRanks| + |specials|
      && Slotted(mergeableRanks, mergeableRanks.Keys, tokenBytes, |mergeableRanks|)
      && tokenBytes[|mergeableRanks|..] == specials
      && Named(specials, |specials|, |mergeableRanks|, specialIDs, specialNames)
    }

    /** Any table whose ranks fit the vocabulary can be laid out; others index out of range. */
    constructor (ranks: Ranks, specialTokens: seq<seq<Byte>>)
      requires forall token | token in ranks :: ranks[token] < |ranks| + |specialTokens|
      ensures mergeableRanks == ranks && Laid(specialTokens)
    {
      var first := |ranks|;
      var tokens := LayTokens(ranks, first + |specialTokens|);
      var bytes, ids, names := LaySpecials(specialTokens, first, tokens);
      assert forall i | 0 <= i < first :: bytes[i] == bytes[..first][i] == tokens[i];
      mergeableRanks := ranks;
      specialIDs, specialNames, tokenBytes := ids, names, bytes;
    }

    method EncodePiece(piece: seq<Byte>) returns (ids: seq<nat>)
      ensures ids == Ids(mergeableRanks, Greedy(mergeableRanks, Singles(piece)))
    {
      var parts := BpeMergePiece(mergeableRanks, piece);
      ids := [];
      for i := 0 to |parts|
        invariant ids == Ids(mergeableRanks, parts)[..i]
      {
        ids := ids + [RankOrZero(mergeableRanks, parts[i])];
      }
    }

    method Encode(cls: Classes, text: seq<Byte>) returns (ids: seq<nat>)
      ensures ids == EncodePieces(mergeableRanks, Encoded(Pieces(cls, DecodeRunes(text), 0)))
    {
      hide EncodePieces;
      var pieces := SplitPieces(cls, text);
      ids := [];
      assert pieces[0..] == pieces;
      for p := 0 to |pieces|
        invariant ids + EncodePieces(mergeableRanks, pieces[p..]) == EncodePieces(mergeableRanks, pieces)
      {
        EncodeStep(mergeableRanks, pieces, p);
        var pieceIds := EncodePiece(pieces[p]);
        ids := ids + pieceIds;
      }
      EncodeStep(mergeableRanks, pieces, |pieces|);
    }

    method Decode(ids: seq<int>) returns (text: seq<Byte>)
      ensures text == DecodeIds(tokenBytes, ids)
    {
      hide DecodeIds;
      text := [];
      assert ids[0..] == ids;
      for i := 0 to |ids|
        invariant text + DecodeIds(tokenBytes, ids[i..]) == DecodeIds(tokenBytes, ids)
      {
        DecodeStep(tokenBytes, ids, i);
        if 0 <= ids[i] < |tokenBytes| {
          text := text + tokenBytes[ids[i]];
        }
      }
      DecodeStep(tokenBytes, ids, |ids|);
    }
  }

  // ---------- what a trained table guarantees ----------

  /** The ids of a piece are the symbols of its replay: the trainer's own segmentation. */
  lemma {:induction false} PieceIds(merges: seq<Pair>, ranks: Ranks, piece: seq<Byte>)
    requires Canonical(merges) && RanksOf(ranks, merges)
    ensures Ids(ranks, Greedy(ranks, Singles(piece))) == Replay(merges, piece, |merges|)
  {
    EncoderReplaysMerges(merges, ranks, piece);
    var symbols := Replay(merges, piece, |merges|);
    forall i | 0 <= i < |symbols| ensures RankOrZero(ranks, Spellings(merges, symbols)[i]) == symbols[i] {
      assert SymbolRanked(ranks, merges, symbols[i]);
    }
  }

  lemma {:induction false} DecodeConcat(tokenBytes: seq<seq<Byte>>, a: seq<int>, b: seq<int>)
    ensures DecodeIds(tokenBytes, a + b) == DecodeIds(tokenBytes, a) + DecodeIds(tokenBytes, b)
  {
    if a == [] {
      assert a + b == b;
    } else {
      assert (a + b)[1..] == a[1..] + b;
      DecodeConcat(tokenBytes, a[1..], b);
    }
  }

  /** The slots below the specials spell the symbols, because no two tokens share a rank. */
  lemma SlotsSpell(merges: seq<Pair>, ranks: Ranks, tokenBytes: seq<seq<Byte>>, symbol: nat)
    requires WellFormed(merges) && RanksOf(ranks, merges) && symbol < 256 + |merges| == |ranks|
    requires Slotted(ranks, ranks.Keys, tokenBytes, |ranks|)
    ensures symbol < |tokenBytes| && tokenBytes[symbol] == Spelling(merges, symbol)
  {
    assert SymbolRanked(ranks, merges, symbol);
    assert TokenSpelled(ranks, merges, tokenBytes[symbol]);
  }

  lemma {:induction false} DecodeSymbols(merges: seq<Pair>, ranks: Ranks, tokenBytes: seq<seq<Byte>>, symbols: seq<nat>)
    requires WellFormed(merges) && RanksOf(ranks, merges) && 256 + |merges| == |ranks|
    requires Slotted(ranks, ranks.Keys, tokenBytes, |ranks|)
    requires Below(symbols, 256 + |merges|)
    ensures DecodeIds(tokenBytes, symbols) == Expand(merges, symbols)
  {
    if symbols != [] {
      SlotsSpell(merges, ranks, tokenBytes, symbols[0]);
      DecodeSymbols(merges, ranks, tokenBytes, symbols[1..]);
    }
  }

  /** Encoding never produces a special id, and decoding it gives the pieces back. */
  lemma {:induction false} PiecesRoundTrip(
      merges: seq<Pair>, ranks: Ranks, tokenBytes: seq<seq<Byte>>, pieces: seq<seq<Byte>>)
    requires Canonical(merges) && RanksOf(ranks, merges) && 256 + |merges| == |ranks|
    requires Slotted(ranks, ranks.Keys, tokenBytes, |ranks|)
    ensures Below(EncodePieces(ranks, pieces), |ranks|)
    ensures DecodeIds(tokenBytes, EncodePieces(ranks, pieces)) == Join(pieces)
  {
    if pieces != [] {
      var ids := Ids(ranks, Greedy(ranks, Singles(pieces[0])));
      PieceIds(merges, ranks, pieces[0]);
      ReplayExpand(merges, pieces[0], |merges|);
      DecodeSymbols(merges, ranks, tokenBytes, ids);
      PiecesRoundTrip(merges, ranks, tokenBytes, pieces[1..]);
      DecodeConcat(tokenBytes, ids, EncodePieces(ranks, pieces[1..]));
    }
  }

  /** Decoding what was encoded gives the text back exactly when the text is valid UTF-8. */
  lemma EncodeDecodeRoundTrip(
      cls: Classes, text: seq<Byte>, ranks: Ranks, merges: seq<Pair>, tokenBytes: seq<seq<Byte>>)
    requires Canonical(merges) && RanksOf(ranks, merges) && 256 + |merges| == |ranks|
    requires Slotted(ranks, ranks.Keys, tokenBytes, |ranks|)
    ensures var ids := EncodePieces(ranks, Encoded(Pieces(cls, DecodeRunes(text), 0)));
            && Below(ids, |ranks|)
            && (DecodeIds(tokenBytes, ids) == text <==> ValidText(text))
  {
    var runes := DecodeRunes(text);
    PiecesRoundTrip(merges, ranks, tokenBytes, Encoded(Pieces(cls, runes, 0)));
    PiecesJoin(cls, runes, 0);
    assert runes[0..] == runes;
    Utf8Valid(runes);
    if ValidText(text) {
      ValidRoundTrip(text);
    }
  }

  /** A trained table can be laid out. */
  lemma TrainedRanksFit(pieces: seq<seq<Byte>>, limit: nat, merges: seq<Pair>, ranks: Ranks, token: seq<Byte>)
    requires BpeTrainer.IsTrained(pieces, limit, merges, ranks) && token in ranks
    ensures ranks[token] < |ranks|
  {
    assert TokenSpelled(ranks, merges, token);
  }

  /** A tokenizer over a trained table: no token's rank and no encoded id is a special id, and
      decoding undoes encoding exactly on valid text. */
  lemma TrainedTokenizer(
      pieces: seq<seq<Byte>>, limit: nat, merges: seq<Pair>, specials: seq<seq<Byte>>, tokenizer: Tokenizer,
      cls: Classes, text: seq<Byte>)
    requires BpeTrainer.IsTrained(pieces, limit, merges, tokenizer.mergeableRanks) && tokenizer.Laid(specials)
    ensures forall token | token in tokenizer.mergeableRanks ::
              tokenizer.mergeableRanks[token] !in tokenizer.specialNames
    ensures var ids := EncodePieces(tokenizer.mergeableRanks, Encoded(Pieces(cls, DecodeRunes(text), 0)));
            && (forall i | 0 <= i < |ids| :: ids[i] !in tokenizer.specialNames)
            && (DecodeIds(tokenizer.tokenBytes, ids) == text <==> ValidText(text))
  {
    var ranks := tokenizer.mergeableRanks;
    forall token | token in ranks ensures ranks[token] !in tokenizer.specialNames {
      TrainedRanksFit(pieces, limit, merges, ranks, token);
    }
    EncodeDecodeRoundTrip(cls, text, ranks, merges, tokenizer.tokenBytes);
  }
}
