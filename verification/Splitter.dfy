/** The split pattern as a scanner over runes. The Unicode character classes are parameters: what
    is proved holds for any classification. */
module Splitter {
  import opened Bytes
  import opened Utf8

  const SPACE: Rune := 32
  const APOSTROPHE: Rune := 39
  const ONE_LETTER: set<Rune> := {115, 100, 109, 116}
  const TWO_LETTERS: set<seq<Rune>> := {[108, 108], [118, 101], [114, 101]}

  datatype Kind = Letter | Number | Space | Symbol | Newline

  datatype Classes = Classes(isLetter: Rune -> bool, isNumber: Rune -> bool, isSpace: Rune -> bool, toLower: Rune -> Rune)
  {
    predicate Is(kind: Kind, r: Rune) {
      match kind
      case Letter => isLetter(r)
      case Number => isNumber(r)
      case Space => isSpace(r)
      case Symbol => !isSpace(r) && !isLetter(r) && !isNumber(r)
      case Newline => IsNewline(r)
    }

    predicate IsPrefix(r: Rune) {
      !IsNewline(r) && !isLetter(r) && !isNumber(r)
    }
  }

  predicate IsNewline(r: Rune): (newline: bool)
    ensures newline <==> r in {10, 13}
  {
    r == 13 || r == 10
  }

  /** The end of the longest run of the kind that starts at `from`. */
  ghost function RunEnd(cls: Classes, runes: seq<Rune>, from: nat, kind: Kind): (end: nat)
    requires from <= |runes|
    ensures from <= end <= |runes|
    ensures forall i | from <= i < end :: cls.Is(kind, runes[i])
    ensures end < |runes| ==> !cls.Is(kind, runes[end])
    decreases |runes| - from
  {
    if from < |runes| && cls.Is(kind, runes[from]) then RunEnd(cls, runes, from + 1, kind) else from
  }

  // ---------- the alternatives: the end of the match at `at`, or `at` itself when there is none ----------

  ghost function ContractionEnd(cls: Classes, runes: seq<Rune>, at: nat): (end: nat)
    requires at < |runes|
    ensures at <= end <= |runes|
  {
    if runes[at] != APOSTROPHE then at
    else if at + 2 < |runes| && [cls.toLower(runes[at + 1]), cls.toLower(runes[at + 2])] in TWO_LETTERS then at + 3
    else if at + 1 < |runes| && cls.toLower(runes[at + 1]) in ONE_LETTER then at + 2
    else at
  }

  ghost function LetterEnd(cls: Classes, runes: seq<Rune>, at: nat): (end: nat)
    requires at < |runes|
    ensures at <= end <= |runes|
  {
    var start := if cls.IsPrefix(runes[at]) then at + 1 else at;
    var end := RunEnd(cls, runes, start, Letter);
    if end > start then end else at
  }

  ghost function NumberEnd(cls: Classes, runes: seq<Rune>, at: nat): (end: nat)
    requires at < |runes|
    ensures at <= end <= |runes|
  {
    var end := RunEnd(cls, runes, at, Number);
    if end > at + 2 then at + 2 else end
  }

  ghost function PunctuationEnd(cls: Classes, runes: seq<Rune>, at: nat): (end: nat)
    requires at < |runes|
    ensures at <= end <= |runes|
  {
    var start := if runes[at] == SPACE then at + 1 else at;
    var symbols := RunEnd(cls, runes, start, Symbol);
    if symbols > start then RunEnd(cls, runes, symbols, Newline) else at
  }

  ghost function LastNewlineEnd(runes: seq<Rune>, at: nat, end: nat): (last: nat)
    requires at <= end <= |runes|
    ensures at <= last <= end
    ensures last > at ==> IsNewline(runes[last - 1])
    ensures forall i | last <= i < end :: !IsNewline(runes[i])
  {
    if end == at || IsNewline(runes[end - 1]) then end else LastNewlineEnd(runes, at, end - 1)
  }

  /** The longest whitespace match that ends in a newline. */
  ghost function NewlineEnd(cls: Classes, runes: seq<Rune>, at: nat): (end: nat)
    requires at < |runes|
    ensures at <= end <= |runes|
  {
    LastNewlineEnd(runes, at, RunEnd(cls, runes, at, Space))
  }

  /** The ordered choice between the alternatives. */
  ghost function PieceEnd(cls: Classes, runes: seq<Rune>, at: nat): (end: nat)
    requires at < |runes|
    ensures at < end <= |runes|
  {
    if ContractionEnd(cls, runes, at) > at then ContractionEnd(cls, runes, at)
    else if LetterEnd(cls, runes, at) > at then LetterEnd(cls, runes, at)
    else if NumberEnd(cls, runes, at) > at then NumberEnd(cls, runes, at)
    else if PunctuationEnd(cls, runes, at) > at then PunctuationEnd(cls, runes, at)
    else if NewlineEnd(cls, runes, at) > at then NewlineEnd(cls, runes, at)
    else if RunEnd(cls, runes, at, Space) > at then RunEnd(cls, runes, at, Space)
    else at + 1
  }

  ghost function Pieces(cls: Classes, runes: seq<Rune>, at: nat): seq<seq<Rune>>
    requires at <= |runes|
    decreases |runes| - at
  {
    if at == |runes| then []
    else [runes[at..PieceEnd(cls, runes, at)]] + Pieces(cls, runes, PieceEnd(cls, runes, at))
  }

  // ---------- the matchers ----------

  method MatchContraction(cls: Classes, runes: seq<Rune>, index: nat) returns (start: int, end: int)
    requires index < |runes|
    ensures start == (if ContractionEnd(cls, runes, index) > index then index else -1)
    ensures start >= 0 ==> end == ContractionEnd(cls, runes, index)
  {
    if runes[index] != APOSTROPHE {
      return -1, -1;
    }
    var rest := runes[index + 1..];
    if |rest| >= 2 {
      var twoLetter := [cls.toLower(rest[0]), cls.toLower(rest[1])];
      if twoLetter in TWO_LETTERS {
        return index, index + 3;
      }
    }
    if |rest| >= 1 && cls.toLower(rest[0]) in ONE_LETTER {
      return index, index + 2;
    }
    return -1, -1;
  }

  method MatchLetter(cls: Classes, runes: seq<Rune>, index: nat) returns (end: nat)
    requires index < |runes|
    ensures end == LetterEnd(cls, runes, index)
  {
    var cursor := index;
    if !IsNewline(runes[cursor]) && !cls.isLetter(runes[cursor]) && !cls.isNumber(runes[cursor]) {
      cursor := cursor + 1;
      if cursor >= |runes| || !cls.isLetter(runes[cursor]) {
        return index;
      }
    }
    if cursor >= |runes| || !cls.isLetter(runes[cursor]) {
      return index;
    }
    ghost var start := cursor;
    while cursor < |runes| && cls.isLetter(runes[cursor])
      invariant start <= cursor <= |runes|
      invariant RunEnd(cls, runes, cursor, Letter) == RunEnd(cls, runes, start, Letter)
    {
      cursor := cursor + 1;
    }
    return cursor;
  }

  method MatchNumber(cls: Classes, runes: seq<Rune>, index: nat) returns (end: nat)
    requires index < |runes|
    ensures end == NumberEnd(cls, runes, index)
  {
    if !cls.isNumber(runes[index]) {
      return index;
    }
    end := index + 1;
    if end < |runes| && cls.isNumber(runes[end]) {
      end := end + 1;
    }
  }

  method MatchPunctuation(cls: Classes, runes: seq<Rune>, index: nat) returns (end: nat)
    requires index < |runes|
    ensures end == PunctuationEnd(cls, runes, index)
  {
    var cursor := index;
    if runes[cursor] == SPACE {
      cursor := cursor + 1;
    }
    var start := cursor;
    while cursor < |runes| && !cls.isSpace(runes[cursor]) && !cls.isLetter(runes[cursor]) && !cls.isNumber(runes[cursor])
      invariant start <= cursor <= |runes|
      invariant RunEnd(cls, runes, cursor, Symbol) == RunEnd(cls, runes, start, Symbol)
    {
      cursor := cursor + 1;
    }
    if cursor == start {
      return index;
    }
    ghost var symbols := cursor;
    while cursor < |runes| && IsNewline(runes[cursor])
      invariant symbols <= cursor <= |runes|
      invariant RunEnd(cls, runes, cursor, Newline) == RunEnd(cls, runes, symbols, Newline)
    {
      cursor := cursor + 1;
    }
    return cursor;
  }

  method MatchNewline(cls: Classes, runes: seq<Rune>, index: nat) returns (end: nat)
    requires index < |runes|
    ensures end == NewlineEnd(cls, runes, index)
  {
    var cursor := index;
    var lastNewline := -1;
    while cursor < |runes| && cls.isSpace(runes[cursor])
      invariant index <= cursor <= |runes|
      invariant RunEnd(cls, runes, cursor, Space) == RunEnd(cls, runes, index, Space)
      invariant lastNewline < 0 ==> LastNewlineEnd(runes, index, cursor) == index
      invariant lastNewline >= 0 ==> LastNewlineEnd(runes, index, cursor) == lastNewline + 1 > index
    {
      if IsNewline(runes[cursor]) {
        lastNewline := cursor;
      }
      cursor := cursor + 1;
    }
    if lastNewline >= 0 {
      return lastNewline + 1;
    }
    return index;
  }

  method MatchWhitespace(cls: Classes, runes: seq<Rune>, index: nat) returns (end: nat)
    requires index < |runes|
    ensures end == RunEnd(cls, runes, index, Space)
  {
    if !cls.isSpace(runes[index]) {
      return index;
    }
    var cursor := index;
    while cursor < |runes| && cls.isSpace(runes[cursor])
      invariant index <= cursor <= |runes|
      invariant RunEnd(cls, runes, cursor, Space) == RunEnd(cls, runes, index, Space)
    {
      cursor := cursor + 1;
    }
    return cursor;
  }

  /** One round of the scanner: the first matcher that advances. */
  method NextPiece(cls: Classes, runes: seq<Rune>, index: nat) returns (end: nat)
    requires index < |runes|
    ensures end == PieceEnd(cls, runes, index)
  {
    var start, stop := MatchContraction(cls, runes, index);
    if start >= 0 {
      return stop;
    }
    end := MatchLetter(cls, runes, index);
    if end > index {
      return;
    }
    end := MatchNumber(cls, runes, index);
    if end > index {
      return;
    }
    end := MatchPunctuation(cls, runes, index);
    if end > index {
      return;
    }
    end := MatchNewline(cls, runes, index);
    if end > index {
      return;
    }
    end := MatchWhitespace(cls, runes, index);
    if end > index {
      return;
    }
    return index + 1;
  }

  ghost function Encoded(pieces: seq<seq<Rune>>): seq<seq<Byte>> {
    if pieces == [] then [] else [EncodeRunes(pieces[0])] + Encoded(pieces[1..])
  }

  method SplitPieces(cls: Classes, text: seq<Byte>) returns (pieces: seq<seq<Byte>>)
    ensures pieces == Encoded(Pieces(cls, DecodeRunes(text), 0))
  {
    var runes := DecodeRunes(text);
    pieces := [];
    var index := 0;
    while index < |runes|
      invariant index <= |runes|
      invariant pieces + Encoded(Pieces(cls, runes, index)) == Encoded(Pieces(cls, runes, 0))
    {
      var end := NextPiece(cls, runes, index);
      assert Pieces(cls, runes, index)[1..] == Pieces(cls, runes, end);
      pieces := pieces + [EncodeRunes(runes[index..end])];
      index := end;
    }
  }

  // ---------- what the pieces are ----------

  ghost function Join(pieces: seq<seq<Byte>>): seq<Byte> {
    if pieces == [] then [] else pieces[0] + Join(pieces[1..])
  }

  /** Splitting loses and reorders nothing. */
  lemma {:induction false} PiecesJoin(cls: Classes, runes: seq<Rune>, at: nat)
    requires at <= |runes|
    ensures Join(Encoded(Pieces(cls, runes, at))) == EncodeRunes(runes[at..])
    decreases |runes| - at
  {
    hide PieceEnd, EncodeRune;
    if at < |runes| {
      var end := PieceEnd(cls, runes, at);
      var pieces := Pieces(cls, runes, at);
      PiecesJoin(cls, runes, end);
      assert pieces[1..] == Pieces(cls, runes, end);
      assert Encoded(pieces)[1..] == Encoded(pieces[1..]);
      Utf8Concat(runes[at..end], runes[end..]);
      assert runes[at..] == runes[at..end] + runes[end..];
    }
  }

  ghost predicate All(cls: Classes, runes: seq<Rune>, kind: Kind) {
    forall i | 0 <= i < |runes| :: cls.Is(kind, runes[i])
  }

  ghost predicate IsContraction(cls: Classes, piece: seq<Rune>) {
    && 2 <= |piece| <= 3 && piece[0] == APOSTROPHE
    && if |piece| == 2 then cls.toLower(piece[1]) in ONE_LETTER
       else [cls.toLower(piece[1]), cls.toLower(piece[2])] in TWO_LETTERS
  }

  ghost predicate IsWord(cls: Classes, piece: seq<Rune>) {
    || (|piece| >= 1 && All(cls, piece, Letter))
    || (|piece| >= 2 && cls.IsPrefix(piece[0]) && All(cls, piece[1..], Letter))
  }

  ghost predicate IsPunctuation(cls: Classes, piece: seq<Rune>) {
    exists a: nat, b: nat | a < b <= |piece| ::
      && (a == 0 || (a == 1 && piece[0] == SPACE))
      && All(cls, piece[a..b], Symbol) && All(cls, piece[b..], Newline)
  }

  /** Some alternative of the split pattern matches the piece. */
  ghost predicate IsPiece(cls: Classes, piece: seq<Rune>) {
    || IsContraction(cls, piece)
    || IsWord(cls, piece)
    || (1 <= |piece| <= 2 && All(cls, piece, Number))
    || IsPunctuation(cls, piece)
    || (|piece| >= 1 && All(cls, piece, Space))
  }

  lemma PunctuationPiece(cls: Classes, runes: seq<Rune>, at: nat)
    requires at < |runes| && PunctuationEnd(cls, runes, at) > at
    ensures IsPunctuation(cls, runes[at..PunctuationEnd(cls, runes, at)])
  {
    var end := PunctuationEnd(cls, runes, at);
    var piece := runes[at..end];
    var a := if runes[at] == SPACE then 1 else 0;
    var b := RunEnd(cls, runes, at + a, Symbol) - at;
    forall i | 0 <= i < b - a ensures cls.Is(Symbol, piece[a..b][i]) {
      assert piece[a..b][i] == piece[a + i] == runes[at + (a + i)];
    }
    forall i | 0 <= i < |piece| - b ensures cls.Is(Newline, piece[b..][i]) {
      assert piece[b..][i] == piece[b + i] == runes[at + (b + i)];
    }
    assert All(cls, piece[a..b], Symbol) && All(cls, piece[b..], Newline);
  }

  /** Every rune starts a match when a blank counts as whitespace, so the scanner's last resort,
      taking one rune that nothing matched, is never used. */
  lemma {:induction false} PieceMatches(cls: Classes, runes: seq<Rune>, at: nat)
    requires at < |runes| && cls.isSpace(SPACE)
    ensures IsPiece(cls, runes[at..PieceEnd(cls, runes, at)])
  {
    var piece := runes[at..PieceEnd(cls, runes, at)];
    if ContractionEnd(cls, runes, at) > at {
    } else if LetterEnd(cls, runes, at) > at {
      assert if cls.IsPrefix(runes[at]) then All(cls, piece[1..], Letter) else All(cls, piece, Letter);
    } else if NumberEnd(cls, runes, at) > at {
    } else if PunctuationEnd(cls, runes, at) > at {
      PunctuationPiece(cls, runes, at);
    } else {
      assert cls.Is(Space, runes[at]);
    }
  }
}
