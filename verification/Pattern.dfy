/** The split pattern as a regular expression under backtracking, possessive quantifiers and
    lookahead, against the scanner that is written by hand for it. The pattern has a case rule of its
    own: it folds where the scanner makes a lower-case letter. */
module Patterns {
  import opened Utf8
  import opened Splitter

  /** `Once`, `Maybe` and `Many` take one rune of the class, at most one, and any number;
      `Possessive` keeps its first match for good; `NotAhead` looks without taking. */
  datatype Regex =
    | Once(takes: Rune -> bool)
    | Maybe(takes: Rune -> bool)
    | Many(takes: Rune -> bool)
    | Possessive(inner: Regex)
    | Then(first: Regex, second: Regex)
    | Or(first: Regex, second: Regex)
    | NotAhead(takes: Rune -> bool)

  predicate Has(runes: seq<Rune>, at: nat, takes: Rune -> bool) {
    at < |runes| && takes(runes[at])
  }

  ghost predicate Within(ends: seq<nat>, at: nat, limit: nat) {
    forall i | 0 <= i < |ends| :: at <= ends[i] <= limit
  }

  /** Where a match that starts at `at` can end, in the order in which backtracking tries them. */
  ghost function Ends(re: Regex, runes: seq<Rune>, at: nat): (ends: seq<nat>)
    requires at <= |runes|
    ensures Within(ends, at, |runes|)
    decreases re, |runes| - at
  {
    match re
    case Once(takes) => if Has(runes, at, takes) then [at + 1] else []
    case Maybe(takes) => if Has(runes, at, takes) then [at + 1, at] else [at]
    case Many(takes) => if Has(runes, at, takes) then Ends(re, runes, at + 1) + [at] else [at]
    case Possessive(inner) => if |Ends(inner, runes, at)| > 0 then [Ends(inner, runes, at)[0]] else []
    case Then(first, second) => Onward(second, runes, at, Ends(first, runes, at))
    case Or(first, second) => Ends(first, runes, at) + Ends(second, runes, at)
    case NotAhead(takes) => if Has(runes, at, takes) then [] else [at]
  }

  ghost function Onward(re: Regex, runes: seq<Rune>, at: nat, starts: seq<nat>): (ends: seq<nat>)
    requires at <= |runes| && Within(starts, at, |runes|)
    ensures Within(ends, at, |runes|)
    decreases re, |runes| + 1, |starts|
  {
    if starts == [] then [] else Ends(re, runes, starts[0]) + Onward(re, runes, at, starts[1..])
  }

  function Plus(takes: Rune -> bool): Regex {
    Then(Once(takes), Many(takes))
  }

  /** The classes of the pattern: the scanner's, with case folding as the case rule. */
  function Folding(cls: Classes, fold: Rune -> Rune): Classes {
    cls.(toLower := fold)
  }

  function Cased(cls: Classes, letter: Rune): Regex {
    Once((r: Rune) => cls.toLower(r) == letter)
  }

  function Is(cls: Classes, kind: Kind): Rune -> bool {
    (r: Rune) => cls.Is(kind, r)
  }

  /** `'(?i:[sdmt]|ll|ve|re)` */
  function Contraction(cls: Classes): Regex {
    Then(Once((r: Rune) => r == APOSTROPHE),
         Or(Once((r: Rune) => cls.toLower(r) in ONE_LETTER),
            Or(Then(Cased(cls, 108), Cased(cls, 108)),
               Or(Then(Cased(cls, 118), Cased(cls, 101)), Then(Cased(cls, 114), Cased(cls, 101))))))
  }

  /** `[^\r\n\p{L}\p{N}]?+\p{L}+` */
  function Word(cls: Classes): Regex {
    Then(Possessive(Maybe((r: Rune) => cls.IsPrefix(r))), Plus(Is(cls, Letter)))
  }

  /** `\p{N}{1,2}` */
  function Digits(cls: Classes): Regex {
    Then(Once(Is(cls, Number)), Maybe(Is(cls, Number)))
  }

  /** ` ?[^\s\p{L}\p{N}]++[\r\n]*` */
  function Punctuation(cls: Classes): Regex {
    Then(Maybe((r: Rune) => r == SPACE), Then(Possessive(Plus(Is(cls, Symbol))), Many(Is(cls, Newline))))
  }

  /** `\s*[\r\n]` */
  function Lines(cls: Classes): Regex {
    Then(Many(Is(cls, Space)), Once(Is(cls, Newline)))
  }

  /** `\s+(?!\S)` */
  function Trailing(cls: Classes): Regex {
    Then(Plus(Is(cls, Space)), NotAhead((r: Rune) => !cls.isSpace(r)))
  }

  /** The alternatives in the order of the pattern, the last one `\s+`. */
  function SplitPattern(cls: Classes): Regex {
    Or(Contraction(cls), Or(Word(cls), Or(Digits(cls), Or(Punctuation(cls),
      Or(Lines(cls), Or(Trailing(cls), Plus(Is(cls, Space))))))))
  }

  /** All matches from left to right; a rune at which nothing or only the empty text matches is
      skipped. */
  ghost function PatternPieces(cls: Classes, runes: seq<Rune>, at: nat): seq<seq<Rune>>
    requires at <= |runes|
    decreases |runes| - at
  {
    if at == |runes| then []
    else
      var ends := Ends(SplitPattern(cls), runes, at);
      if ends == [] || ends[0] == at then PatternPieces(cls, runes, at + 1)
      else [runes[at..ends[0]]] + PatternPieces(cls, runes, ends[0])
  }

  // ---------- the alternatives one by one ----------

  /** The first end the regex tries, if any, is `end`; there is none when `end` is `at`. */
  ghost predicate Leads(re: Regex, runes: seq<Rune>, at: nat, end: nat)
    requires at <= |runes|
  {
    if end == at then Ends(re, runes, at) == [] else |Ends(re, runes, at)| > 0 && Ends(re, runes, at)[0] == end
  }

  /** A greedy run gives way one rune at a time. */
  lemma {:induction false} ManyEnds(cls: Classes, runes: seq<Rune>, at: nat, kind: Kind)
    requires at <= |runes|
    ensures var ends := Ends(Many(Is(cls, kind)), runes, at);
            var end := RunEnd(cls, runes, at, kind);
            |ends| == end - at + 1 && forall i | 0 <= i < |ends| :: ends[i] == end - i
    decreases |runes| - at
  {
    if Has(runes, at, Is(cls, kind)) {
      ManyEnds(cls, runes, at + 1, kind);
    }
  }

  lemma SingleStart(re: Regex, runes: seq<Rune>, at: nat, start: nat)
    requires at <= start <= |runes|
    ensures Onward(re, runes, at, [start]) == Ends(re, runes, start)
  {
    assert [start][1..] == [];
    assert Onward(re, runes, at, []) == [];
  }

  lemma NoStart(re: Regex, runes: seq<Rune>, at: nat)
    requires at <= |runes|
    ensures Onward(re, runes, at, []) == []
  {
  }

  lemma OnceThen(takes: Rune -> bool, second: Regex, runes: seq<Rune>, at: nat)
    requires at <= |runes|
    ensures Ends(Then(Once(takes), second), runes, at)
         == if Has(runes, at, takes) then Ends(second, runes, at + 1) else []
  {
    if Has(runes, at, takes) {
      SingleStart(second, runes, at, at + 1);
    }
  }

  lemma {:induction false} PlusEnds(cls: Classes, runes: seq<Rune>, at: nat, kind: Kind)
    requires at <= |runes|
    ensures var ends := Ends(Plus(Is(cls, kind)), runes, at);
            var end := RunEnd(cls, runes, at, kind);
            |ends| == end - at && forall i | 0 <= i < |ends| :: ends[i] == end - i
  {
    hide Ends, Onward;
    OnceThen(Is(cls, kind), Many(Is(cls, kind)), runes, at);
    if Has(runes, at, Is(cls, kind)) {
      ManyEnds(cls, runes, at + 1, kind);
    }
  }

  /** The end of the first of two alternatives that matches. */
  function Choice(at: nat, a: nat, b: nat): nat {
    if a != at then a else b
  }

  lemma OrLeads(first: Regex, second: Regex, runes: seq<Rune>, at: nat, a: nat, b: nat)
    requires at <= |runes| && Leads(first, runes, at, a) && Leads(second, runes, at, b)
    ensures Leads(Or(first, second), runes, at, Choice(at, a, b))
  {
  }

  lemma OnceLeads(takes: Rune -> bool, runes: seq<Rune>, at: nat)
    requires at <= |runes|
    ensures Leads(Once(takes), runes, at, if Has(runes, at, takes) then at + 1 else at)
  {
  }

  predicate IsPair(cls: Classes, runes: seq<Rune>, at: nat, a: Rune, b: Rune) {
    at + 1 < |runes| && cls.toLower(runes[at]) == a && cls.toLower(runes[at + 1]) == b
  }

  lemma PairLeads(cls: Classes, runes: seq<Rune>, at: nat, a: Rune, b: Rune)
    requires at <= |runes|
    ensures Leads(Then(Cased(cls, a), Cased(cls, b)), runes, at, if IsPair(cls, runes, at, a, b) then at + 2 else at)
  {
    OnceThen(Cased(cls, a).takes, Cased(cls, b), runes, at);
  }

  lemma TwoLetters(cls: Classes, runes: seq<Rune>, at: nat)
    requires at + 1 < |runes|
    ensures [cls.toLower(runes[at]), cls.toLower(runes[at + 1])] in TWO_LETTERS
       <==> IsPair(cls, runes, at, 108, 108) || IsPair(cls, runes, at, 118, 101) || IsPair(cls, runes, at, 114, 101)
  {
    var pair := [cls.toLower(runes[at]), cls.toLower(runes[at + 1])];
    assert forall two: seq<Rune> | two in TWO_LETTERS :: pair == two <==> |two| == 2 && pair[0] == two[0] && pair[1] == two[1];
  }

  /** What may follow the apostrophe. */
  lemma SuffixLeads(cls: Classes, runes: seq<Rune>, at: nat)
    requires at <= |runes|
    ensures Leads(Contraction(cls).second, runes, at,
              if Has(runes, at, (r: Rune) => cls.toLower(r) in ONE_LETTER) then at + 1
              else if IsPair(cls, runes, at, 108, 108) || IsPair(cls, runes, at, 118, 101)
                   || IsPair(cls, runes, at, 114, 101) then at + 2
              else at)
  {
    hide Leads, Ends, Onward;
    var re := Contraction(cls).second;
    var two, e := re.second.second, if IsPair(cls, runes, at, 114, 101) then at + 2 else at;
    OnceLeads(re.first.takes, runes, at);
    PairLeads(cls, runes, at, 108, 108);
    PairLeads(cls, runes, at, 118, 101);
    PairLeads(cls, runes, at, 114, 101);
    OrLeads(two.first, two.second, runes, at, if IsPair(cls, runes, at, 118, 101) then at + 2 else at, e);
    var e2 := if IsPair(cls, runes, at, 118, 101) then at + 2 else e;
    OrLeads(re.second.first, two, runes, at, if IsPair(cls, runes, at, 108, 108) then at + 2 else at, e2);
    OrLeads(re.first, re.second, runes, at, if Has(runes, at, re.first.takes) then at + 1 else at,
      if IsPair(cls, runes, at, 108, 108) then at + 2 else e2);
  }

  lemma ContractionLeads(cls: Classes, runes: seq<Rune>, at: nat)
    requires at < |runes|
    ensures Leads(Contraction(cls), runes, at, ContractionEnd(cls, runes, at))
  {
    var re := Contraction(cls);
    OnceThen(re.first.takes, re.second, runes, at);
    SuffixLeads(cls, runes, at + 1);
    if at + 2 < |runes| {
      TwoLetters(cls, runes, at + 1);
    }
  }

  lemma LetterLeads(cls: Classes, runes: seq<Rune>, at: nat)
    requires at < |runes|
    ensures Leads(Word(cls), runes, at, LetterEnd(cls, runes, at))
  {
    var re := Word(cls);
    var start := if cls.IsPrefix(runes[at]) then at + 1 else at;
    assert Ends(re.first.inner, runes, at)[0] == start;
    assert Ends(re.first, runes, at) == [start];
    SingleStart(re.second, runes, at, start);
    PlusEnds(cls, runes, start, Letter);
  }

  lemma NumberLeads(cls: Classes, runes: seq<Rune>, at: nat)
    requires at < |runes|
    ensures Leads(Digits(cls), runes, at, NumberEnd(cls, runes, at))
  {
    OnceThen(Is(cls, Number), Digits(cls).second, runes, at);
  }

  lemma SymbolsEnds(cls: Classes, runes: seq<Rune>, at: nat)
    requires at <= |runes|
    ensures var ends := Ends(Punctuation(cls).second, runes, at);
            var symbols := RunEnd(cls, runes, at, Symbol);
            if symbols == at then ends == [] else |ends| > 0 && ends[0] == RunEnd(cls, runes, symbols, Newline)
  {
    var re := Punctuation(cls).second;
    var symbols := RunEnd(cls, runes, at, Symbol);
    PlusEnds(cls, runes, at, Symbol);
    if symbols > at {
      assert Ends(re.first, runes, at) == [symbols];
      SingleStart(re.second, runes, at, symbols);
      ManyEnds(cls, runes, symbols, Newline);
    } else {
      assert Ends(re.first, runes, at) == [];
    }
  }

  /** A space that no symbol follows is handed back, and then is no symbol itself. */
  lemma PunctuationLeads(cls: Classes, runes: seq<Rune>, at: nat)
    requires at < |runes| && cls.isSpace(SPACE)
    ensures Leads(Punctuation(cls), runes, at, PunctuationEnd(cls, runes, at))
  {
    var re := Punctuation(cls);
    SymbolsEnds(cls, runes, at);
    SingleStart(re.second, runes, at, at);
    if runes[at] == SPACE {
      SymbolsEnds(cls, runes, at + 1);
      assert Ends(re.first, runes, at) == [at + 1, at] && [at + 1, at][1..] == [at];
    }
  }

  lemma OnwardStep(re: Regex, runes: seq<Rune>, at: nat, starts: seq<nat>)
    requires at <= |runes| && Within(starts, at, |runes|) && starts != []
    ensures Onward(re, runes, at, starts) == Ends(re, runes, starts[0]) + Onward(re, runes, at, starts[1..])
  {
  }

  lemma NewlineEnds(cls: Classes, runes: seq<Rune>, at: nat)
    requires at <= |runes|
    ensures Ends(Once(Is(cls, Newline)), runes, at) == if at < |runes| && IsNewline(runes[at]) then [at + 1] else []
  {
  }

  /** Giving blanks back one by one, the first newline met is the last one of the run. */
  lemma {:induction false} BackToNewline(cls: Classes, runes: seq<Rune>, at: nat, end: nat, starts: seq<nat>)
    requires at <= end <= |runes| && (end < |runes| ==> !IsNewline(runes[end]))
    requires |starts| == end - at + 1 && forall i | 0 <= i < |starts| :: starts[i] == end - i
    ensures var ends := Onward(Once(Is(cls, Newline)), runes, at, starts);
            var last := LastNewlineEnd(runes, at, end);
            if last == at then ends == [] else |ends| > 0 && ends[0] == last
    decreases end - at
  {
    hide Ends, Onward;
    var re := Once(Is(cls, Newline));
    NewlineEnds(cls, runes, end);
    if end == at {
      assert starts == [at];
      SingleStart(re, runes, at, at);
    } else {
      OnwardStep(re, runes, at, starts);
      if IsNewline(runes[end - 1]) {
        assert starts[1..][0] == end - 1;
        NewlineEnds(cls, runes, end - 1);
        OnwardStep(re, runes, at, starts[1..]);
      } else {
        BackToNewline(cls, runes, at, end - 1, starts[1..]);
      }
    }
  }

  lemma NewlineLeads(cls: Classes, runes: seq<Rune>, at: nat)
    requires at < |runes| && cls.isSpace(10) && cls.isSpace(13)
    ensures Leads(Lines(cls), runes, at, NewlineEnd(cls, runes, at))
  {
    ManyEnds(cls, runes, at, Space);
    BackToNewline(cls, runes, at, RunEnd(cls, runes, at, Space), Ends(Many(Is(cls, Space)), runes, at));
  }

  lemma NoRuneAhead(cls: Classes, runes: seq<Rune>, at: nat)
    requires at <= |runes|
    ensures Ends(Trailing(cls).second, runes, at) == if at < |runes| && !cls.isSpace(runes[at]) then [] else [at]
  {
  }

  lemma BackToBlank(cls: Classes, runes: seq<Rune>, at: nat, end: nat, starts: seq<nat>)
    requires at <= end <= |runes| && (end < |runes| ==> !cls.isSpace(runes[end]))
    requires at < end ==> cls.isSpace(runes[end - 1])
    requires |starts| == end - at && forall i | 0 <= i < |starts| :: starts[i] == end - i
    ensures var ends := Onward(Trailing(cls).second, runes, at, starts);
            var last := if at < end < |runes| then end - 1 else end;
            if last == at then ends == [] else |ends| > 0 && ends[0] == last
  {
    hide Ends, Onward;
    var re := Trailing(cls).second;
    if end == at {
      assert starts == [];
      NoStart(re, runes, at);
    } else {
      NoRuneAhead(cls, runes, end);
      if end < |runes| && end > at + 1 {
        assert starts[1..][0] == end - 1;
        NoRuneAhead(cls, runes, end - 1);
        OnwardStep(re, runes, at, starts);
        OnwardStep(re, runes, at, starts[1..]);
      } else if end < |runes| {
        assert starts == [end];
        SingleStart(re, runes, at, end);
      } else {
        OnwardStep(re, runes, at, starts);
      }
    }
  }

  /** The lookahead leaves the last blank to the rune behind the run, unless the run ends the text;
      a single blank before a rune is no match. */
  lemma TrailingLeads(cls: Classes, runes: seq<Rune>, at: nat)
    requires at < |runes|
    ensures var end := RunEnd(cls, runes, at, Space);
            Leads(Trailing(cls), runes, at, if at < end < |runes| then end - 1 else end)
  {
    PlusEnds(cls, runes, at, Space);
    BackToBlank(cls, runes, at, RunEnd(cls, runes, at, Space), Ends(Trailing(cls).first, runes, at));
  }

  lemma BlanksLead(cls: Classes, runes: seq<Rune>, at: nat)
    requires at < |runes|
    ensures Leads(Plus(Is(cls, Space)), runes, at, RunEnd(cls, runes, at, Space))
  {
    PlusEnds(cls, runes, at, Space);
  }

  // ---------- the whole choice ----------

  /** What the source's classification meets: blanks (newlines and the space among them) are neither
      letters nor numbers, no letter of a contraction is a blank, and neither is the apostrophe. */
  ghost predicate Sane(cls: Classes) {
    && cls.isSpace(SPACE) && cls.isSpace(10) && cls.isSpace(13) && !cls.isSpace(APOSTROPHE)
    && forall r | cls.isSpace(r) ::
         && !cls.isLetter(r) && !cls.isNumber(r)
         && cls.toLower(r) !in ONE_LETTER && cls.toLower(r) !in {108, 118, 114, 101}
  }

  /** The scanner reaches its last alternative at `at`. */
  ghost predicate TakesBlanks(cls: Classes, runes: seq<Rune>, at: nat)
    requires at < |runes|
  {
    && ContractionEnd(cls, runes, at) == at && LetterEnd(cls, runes, at) == at
    && NumberEnd(cls, runes, at) == at && PunctuationEnd(cls, runes, at) == at
    && NewlineEnd(cls, runes, at) == at
  }

  lemma SomeAlternative(cls: Classes, runes: seq<Rune>, at: nat)
    requires at < |runes| && Sane(cls)
    ensures TakesBlanks(cls, runes, at) ==> PieceEnd(cls, runes, at) == RunEnd(cls, runes, at, Space) > at
  {
    if !cls.isSpace(runes[at]) {
      if cls.isLetter(runes[at]) {
        assert LetterEnd(cls, runes, at) > at;
      } else if cls.isNumber(runes[at]) {
        assert NumberEnd(cls, runes, at) > at;
      } else {
        assert PunctuationEnd(cls, runes, at) > at;
      }
    }
  }

  /** Where the pattern's match ends, for any text: where the scanner's piece does, but one blank
      earlier when the piece is a run of several blanks before another rune. */
  ghost function PatternEnd(cls: Classes, runes: seq<Rune>, at: nat): (end: nat)
    requires at < |runes|
    ensures at < end <= PieceEnd(cls, runes, at)
  {
    var end := PieceEnd(cls, runes, at);
    if TakesBlanks(cls, runes, at) && at + 1 < end < |runes| then end - 1 else end
  }

  lemma PatternLeads(cls: Classes, runes: seq<Rune>, at: nat)
    requires at < |runes| && Sane(cls)
    ensures Leads(SplitPattern(cls), runes, at, PatternEnd(cls, runes, at))
  {
    hide Leads, Ends, Onward, RunEnd, ContractionEnd, LetterEnd, NumberEnd, PunctuationEnd, NewlineEnd, PatternEnd, Choice;
    var blanks := RunEnd(cls, runes, at, Space);
    var trailing := if at < blanks < |runes| then blanks - 1 else blanks;
    var c := SplitPattern(cls);
    TrailingLeads(cls, runes, at);
    BlanksLead(cls, runes, at);
    var e := OrAlso(c.second.second.second.second.second, runes, at, trailing, blanks);
    NewlineLeads(cls, runes, at);
    e := OrAlso(c.second.second.second.second, runes, at, NewlineEnd(cls, runes, at), e);
    PunctuationLeads(cls, runes, at);
    e := OrAlso(c.second.second.second, runes, at, PunctuationEnd(cls, runes, at), e);
    NumberLeads(cls, runes, at);
    e := OrAlso(c.second.second, runes, at, NumberEnd(cls, runes, at), e);
    LetterLeads(cls, runes, at);
    e := OrAlso(c.second, runes, at, LetterEnd(cls, runes, at), e);
    ContractionLeads(cls, runes, at);
    e := OrAlso(c, runes, at, ContractionEnd(cls, runes, at), e);
    ChoiceIsEnd(cls, runes, at);
  }

  lemma OrAlso(re: Regex, runes: seq<Rune>, at: nat, a: nat, b: nat) returns (end: nat)
    requires at <= |runes| && re.Or? && Leads(re.first, runes, at, a) && Leads(re.second, runes, at, b)
    ensures end == Choice(at, a, b) && Leads(re, runes, at, end)
  {
    OrLeads(re.first, re.second, runes, at, a, b);
    end := Choice(at, a, b);
  }

  lemma ChoiceIsEnd(cls: Classes, runes: seq<Rune>, at: nat)
    requires at < |runes| && Sane(cls)
    ensures var blanks := RunEnd(cls, runes, at, Space);
            var trailing := if at < blanks < |runes| then blanks - 1 else blanks;
            PatternEnd(cls, runes, at)
            == Choice(at, ContractionEnd(cls, runes, at), Choice(at, LetterEnd(cls, runes, at),
               Choice(at, NumberEnd(cls, runes, at), Choice(at, PunctuationEnd(cls, runes, at),
               Choice(at, NewlineEnd(cls, runes, at), Choice(at, trailing, blanks))))))
  {
    hide RunEnd, ContractionEnd, LetterEnd, NumberEnd, PunctuationEnd, NewlineEnd;
    SomeAlternative(cls, runes, at);
  }

  ghost predicate IsBlank(cls: Classes, r: Rune) {
    cls.isSpace(r) && !IsNewline(r)
  }

  /** Two blanks, neither of them a newline, stand right before a rune that is no whitespace. */
  ghost predicate Crowded(cls: Classes, runes: seq<Rune>, i: nat) {
    && i + 2 < |runes|
    && IsBlank(cls, runes[i]) && IsBlank(cls, runes[i + 1]) && !cls.isSpace(runes[i + 2])
  }

  lemma DiffersWhenCrowded(cls: Classes, runes: seq<Rune>, at: nat)
    requires at < |runes| && Sane(cls)
    requires PatternEnd(cls, runes, at) != PieceEnd(cls, runes, at)
    ensures Crowded(cls, runes, PieceEnd(cls, runes, at) - 2)
  {
    SomeAlternative(cls, runes, at);
    var end := PieceEnd(cls, runes, at);
    assert LastNewlineEnd(runes, at, end) == at;
    assert cls.Is(Space, runes[end - 1]) && cls.Is(Space, runes[end - 2]) && !cls.Is(Space, runes[end]);
  }

  lemma PatternStep(cls: Classes, runes: seq<Rune>, at: nat)
    requires at < |runes| && Sane(cls)
    ensures var end := PatternEnd(cls, runes, at);
            PatternPieces(cls, runes, at) == [runes[at..end]] + PatternPieces(cls, runes, end)
  {
    hide Ends, Onward, PatternEnd, PieceEnd;
    PatternLeads(cls, runes, at);
  }

  lemma {:induction false} SameWithoutCrowding(cls: Classes, runes: seq<Rune>, at: nat)
    requires at <= |runes| && Sane(cls)
    requires forall i: nat :: !Crowded(cls, runes, i)
    ensures Pieces(cls, runes, at) == PatternPieces(cls, runes, at)
    decreases |runes| - at
  {
    hide Ends, Onward, PatternEnd, PieceEnd;
    if at < |runes| {
      PatternStep(cls, runes, at);
      if PatternEnd(cls, runes, at) != PieceEnd(cls, runes, at) {
        DiffersWhenCrowded(cls, runes, at);
        assert false;
      }
      SameWithoutCrowding(cls, runes, PieceEnd(cls, runes, at));
    }
  }

  lemma RunStops(cls: Classes, runes: seq<Rune>, from: nat, kind: Kind, i: nat)
    requires from <= i < |runes| && !cls.Is(kind, runes[i])
    ensures RunEnd(cls, runes, from, kind) <= i
  {
  }

  /** The alternatives before the newlines do not reach over the first of two crowded blanks. */
  lemma CrowdedWords(cls: Classes, runes: seq<Rune>, at: nat, i: nat)
    requires at <= i && Crowded(cls, runes, i) && Sane(cls)
    ensures LetterEnd(cls, runes, at) <= i && NumberEnd(cls, runes, at) <= i
  {
    var start := if cls.IsPrefix(runes[at]) then at + 1 else at;
    RunStops(cls, runes, start, Letter, if i < start then i + 1 else i);
    RunStops(cls, runes, at, Number, i);
  }

  lemma CrowdedContraction(cls: Classes, runes: seq<Rune>, at: nat, i: nat)
    requires at <= i && Crowded(cls, runes, i) && Sane(cls)
    ensures ContractionEnd(cls, runes, at) <= i
  {
    if at + 2 < |runes| {
      TwoLetters(cls, runes, at + 1);
    }
  }

  lemma CrowdedPunctuation(cls: Classes, runes: seq<Rune>, at: nat, i: nat)
    requires at <= i && Crowded(cls, runes, i)
    ensures PunctuationEnd(cls, runes, at) <= i
  {
    var start := if runes[at] == SPACE then at + 1 else at;
    var symbols := RunEnd(cls, runes, start, Symbol);
    RunStops(cls, runes, start, Symbol, if i < start then i + 1 else i);
    if i >= start {
      RunStops(cls, runes, symbols, Newline, i);
    }
  }

  lemma CrowdedNewlines(cls: Classes, runes: seq<Rune>, at: nat, i: nat)
    requires at <= i && Crowded(cls, runes, i)
    ensures NewlineEnd(cls, runes, at) <= i
  {
    RunStops(cls, runes, at, Space, i + 2);
    var last := NewlineEnd(cls, runes, at);
    assert last == at || (last - 1 != i && last - 1 != i + 1);
  }

  /** A piece that reaches over the first of two crowded blanks is the run of blanks that ends
      behind the second. */
  lemma CrowdedPiece(cls: Classes, runes: seq<Rune>, at: nat, i: nat)
    requires at <= i && Crowded(cls, runes, i) && Sane(cls)
    requires PieceEnd(cls, runes, at) > i
    ensures TakesBlanks(cls, runes, at) && PieceEnd(cls, runes, at) == i + 2
  {
    CrowdedContraction(cls, runes, at, i);
    CrowdedWords(cls, runes, at, i);
    CrowdedPunctuation(cls, runes, at, i);
    CrowdedNewlines(cls, runes, at, i);
    SomeAlternative(cls, runes, at);
    RunStops(cls, runes, at, Space, i + 2);
    assert RunEnd(cls, runes, at, Space) != i + 1;
  }

  lemma {:induction false} CrowdingSeparates(cls: Classes, runes: seq<Rune>, at: nat, i: nat)
    requires at <= i && Crowded(cls, runes, i) && Sane(cls)
    ensures Pieces(cls, runes, at) != PatternPieces(cls, runes, at)
    decreases i - at
  {
    hide PatternPieces, PieceEnd, TakesBlanks;
    var end, patternEnd := PieceEnd(cls, runes, at), PatternEnd(cls, runes, at);
    var rest, patternRest := Pieces(cls, runes, end), PatternPieces(cls, runes, patternEnd);
    PatternStep(cls, runes, at);
    if end > i {
      CrowdedPiece(cls, runes, at, i);
    }
    if patternEnd != end {
      assert |([runes[at..end]] + rest)[0]| == end - at;
      assert |([runes[at..patternEnd]] + patternRest)[0]| == patternEnd - at;
    } else {
      CrowdingSeparates(cls, runes, end, i);
      assert ([runes[at..end]] + rest)[1..] == rest;
      assert ([runes[at..end]] + patternRest)[1..] == patternRest;
    }
  }

  lemma OneRuleIff(cls: Classes, runes: seq<Rune>)
    requires Sane(cls)
    ensures Pieces(cls, runes, 0) == PatternPieces(cls, runes, 0) <==> forall i: nat :: !Crowded(cls, runes, i)
  {
    if i: nat :| Crowded(cls, runes, i) {
      CrowdingSeparates(cls, runes, 0, i);
    } else {
      SameWithoutCrowding(cls, runes, 0);
    }
  }

  // ---------- two case rules ----------

  /** What a letter can be in a contraction: all of it, or part of `ll`, `ve` and `re`. */
  datatype Suffix = Single | El | VeeOrAr | Ee | NoSuffix

  function SuffixOf(letter: Rune): Suffix {
    if letter in ONE_LETTER then Single
    else if letter == 108 then El
    else if letter == 118 || letter == 114 then VeeOrAr
    else if letter == 101 then Ee
    else NoSuffix
  }

  /** Folded or made lower-case, the rune plays the same part in a contraction. */
  predicate SameSuffix(cls: Classes, fold: Rune -> Rune, r: Rune) {
    SuffixOf(fold(r)) == SuffixOf(cls.toLower(r))
  }

  lemma {:induction false} RunAlike(cls: Classes, fold: Rune -> Rune, runes: seq<Rune>, from: nat, kind: Kind)
    requires from <= |runes|
    ensures RunEnd(Folding(cls, fold), runes, from, kind) == RunEnd(cls, runes, from, kind)
    decreases |runes| - from
  {
    if from < |runes| && cls.Is(kind, runes[from]) {
      RunAlike(cls, fold, runes, from + 1, kind);
    }
  }

  lemma WordsAlike(cls: Classes, fold: Rune -> Rune, runes: seq<Rune>, at: nat)
    requires at < |runes|
    ensures LetterEnd(Folding(cls, fold), runes, at) == LetterEnd(cls, runes, at)
    ensures NumberEnd(Folding(cls, fold), runes, at) == NumberEnd(cls, runes, at)
  {
    hide RunEnd;
    RunAlike(cls, fold, runes, at, Letter);
    RunAlike(cls, fold, runes, at + 1, Letter);
    RunAlike(cls, fold, runes, at, Number);
  }

  lemma BlanksAlike(cls: Classes, fold: Rune -> Rune, runes: seq<Rune>, at: nat)
    requires at < |runes|
    ensures PunctuationEnd(Folding(cls, fold), runes, at) == PunctuationEnd(cls, runes, at)
    ensures NewlineEnd(Folding(cls, fold), runes, at) == NewlineEnd(cls, runes, at)
    ensures RunEnd(Folding(cls, fold), runes, at, Space) == RunEnd(cls, runes, at, Space)
  {
    hide RunEnd;
    var start := if runes[at] == SPACE then at + 1 else at;
    RunAlike(cls, fold, runes, start, Symbol);
    RunAlike(cls, fold, runes, RunEnd(cls, runes, start, Symbol), Newline);
    RunAlike(cls, fold, runes, at, Space);
  }

  lemma InTwoLetters(a: Rune, b: Rune)
    ensures [a, b] in TWO_LETTERS
       <==> (SuffixOf(a) == El && SuffixOf(b) == El) || (SuffixOf(a) == VeeOrAr && SuffixOf(b) == Ee)
  {
    assert forall two: seq<Rune> | two in TWO_LETTERS :: [a, b] == two <==> |two| == 2 && a == two[0] && b == two[1];
  }

  lemma ContractionAlike(cls: Classes, fold: Rune -> Rune, runes: seq<Rune>, at: nat)
    requires at < |runes| && forall r | r in runes :: SameSuffix(cls, fold, r)
    ensures ContractionEnd(Folding(cls, fold), runes, at) == ContractionEnd(cls, runes, at)
  {
    if at + 1 < |runes| {
      assert SameSuffix(cls, fold, runes[at + 1]);
    }
    if at + 2 < |runes| {
      assert SameSuffix(cls, fold, runes[at + 2]);
      InTwoLetters(fold(runes[at + 1]), fold(runes[at + 2]));
      InTwoLetters(cls.toLower(runes[at + 1]), cls.toLower(runes[at + 2]));
    }
  }

  lemma PieceAlike(cls: Classes, fold: Rune -> Rune, runes: seq<Rune>, at: nat)
    requires at < |runes|
    requires ContractionEnd(Folding(cls, fold), runes, at) == ContractionEnd(cls, runes, at)
    ensures PieceEnd(Folding(cls, fold), runes, at) == PieceEnd(cls, runes, at)
  {
    hide RunEnd, ContractionEnd, LetterEnd, NumberEnd, PunctuationEnd, NewlineEnd;
    WordsAlike(cls, fold, runes, at);
    BlanksAlike(cls, fold, runes, at);
  }

  lemma {:induction false} PiecesAlike(cls: Classes, fold: Rune -> Rune, runes: seq<Rune>, at: nat)
    requires at <= |runes| && forall r | r in runes :: SameSuffix(cls, fold, r)
    ensures Pieces(Folding(cls, fold), runes, at) == Pieces(cls, runes, at)
    decreases |runes| - at
  {
    hide PieceEnd, ContractionEnd, SameSuffix, Folding;
    if at < |runes| {
      ContractionAlike(cls, fold, runes, at);
      PieceAlike(cls, fold, runes, at);
      PiecesAlike(cls, fold, runes, PieceEnd(cls, runes, at));
    }
  }

  /** On a text whose runes play the same part in a contraction under both case rules, the scanner
      splits as its pattern does exactly when no two blanks that are no newlines stand right before a
      rune that is no whitespace. */
  lemma ScannerIsPatternIff(cls: Classes, fold: Rune -> Rune, runes: seq<Rune>)
    requires Sane(cls) && Sane(Folding(cls, fold)) && forall r | r in runes :: SameSuffix(cls, fold, r)
    ensures Pieces(cls, runes, 0) == PatternPieces(Folding(cls, fold), runes, 0)
       <==> forall i: nat :: !Crowded(cls, runes, i)
  {
    hide Pieces, PatternPieces, SameSuffix, Sane;
    PiecesAlike(cls, fold, runes, 0);
    OneRuleIff(Folding(cls, fold), runes);
    assert forall i: nat :: Crowded(Folding(cls, fold), runes, i) == Crowded(cls, runes, i);
  }

  // ---------- what the premise on the case rules is worth ----------

  /** The letters of `ll`, `ve` and `re` are letters that both rules leave alone, `plain` is one that
      takes no part in a contraction, and the rules differ on letters only. */
  ghost predicate Alphabet(cls: Classes, fold: Rune -> Rune, plain: Rune) {
    && Sane(cls) && Sane(Folding(cls, fold))
    && !cls.isLetter(APOSTROPHE) && !cls.isNumber(APOSTROPHE)
    && (forall r | r in {108, 118, 101, plain} :: cls.isLetter(r) && fold(r) == cls.toLower(r) == r)
    && SuffixOf(plain) == NoSuffix
    && forall r | !SameSuffix(cls, fold, r) :: cls.isLetter(r)
  }

  /** An apostrophe and letters: a contraction, or all of it one word. */
  ghost predicate IsQuoted(cls: Classes, runes: seq<Rune>) {
    |runes| >= 3 && runes[0] == APOSTROPHE && forall i | 1 <= i < |runes| :: cls.isLetter(runes[i])
  }

  lemma QuotedPiece(cls: Classes, runes: seq<Rune>)
    requires Sane(cls) && !cls.isLetter(APOSTROPHE) && !cls.isNumber(APOSTROPHE) && IsQuoted(cls, runes)
    ensures PieceEnd(cls, runes, 0) == if ContractionEnd(cls, runes, 0) > 0 then ContractionEnd(cls, runes, 0) else |runes|
    ensures PatternEnd(cls, runes, 0) == PieceEnd(cls, runes, 0)
    ensures forall i: nat :: !Crowded(cls, runes, i)
  {
    hide ContractionEnd;
    assert RunEnd(cls, runes, 1, Letter) == |runes|;
    assert LetterEnd(cls, runes, 0) == |runes|;
    forall i: nat ensures !Crowded(cls, runes, i) {
      if i + 2 < |runes| {
        assert cls.isLetter(runes[i + 1]);
      }
    }
  }

  lemma PiecesPart(cls: Classes, fold: Rune -> Rune, runes: seq<Rune>)
    requires Sane(Folding(cls, fold)) && runes != []
    requires PieceEnd(cls, runes, 0) != PatternEnd(Folding(cls, fold), runes, 0)
    ensures Pieces(cls, runes, 0) != PatternPieces(Folding(cls, fold), runes, 0)
  {
    hide PieceEnd, PatternEnd, PatternPieces;
    var end, patternEnd := PieceEnd(cls, runes, 0), PatternEnd(Folding(cls, fold), runes, 0);
    PatternStep(Folding(cls, fold), runes, 0);
    var rest, patternRest := Pieces(cls, runes, end), PatternPieces(Folding(cls, fold), runes, patternEnd);
    assert |([runes[0..end]] + rest)[0]| == end;
    assert |([runes[0..patternEnd]] + patternRest)[0]| == patternEnd;
  }

  /** A text that tells the two parts of the rune apart. */
  function Telling(a: Suffix, b: Suffix, r: Rune, plain: Rune): seq<Rune> {
    if a == Single || b == Single then [APOSTROPHE, r, plain]
    else if a == El || b == El then [APOSTROPHE, r, 108, plain]
    else if a == VeeOrAr || b == VeeOrAr then [APOSTROPHE, r, 101, plain]
    else [APOSTROPHE, 118, r, plain]
  }

  /** Where a contraction ends, by the parts of its letters. */
  lemma ContractionOf(cls: Classes, runes: seq<Rune>)
    requires |runes| >= 3 && runes[0] == APOSTROPHE
    ensures var first, second := SuffixOf(cls.toLower(runes[1])), SuffixOf(cls.toLower(runes[2]));
            ContractionEnd(cls, runes, 0)
            == if (first == El && second == El) || (first == VeeOrAr && second == Ee) then 3
               else if first == Single then 2 else 0
  {
    InTwoLetters(cls.toLower(runes[1]), cls.toLower(runes[2]));
  }

  lemma TellingDiffers(cls: Classes, fold: Rune -> Rune, plain: Rune, r: Rune)
    requires Alphabet(cls, fold, plain) && !SameSuffix(cls, fold, r)
    ensures var runes := Telling(SuffixOf(fold(r)), SuffixOf(cls.toLower(r)), r, plain);
            && Pieces(cls, runes, 0) != PatternPieces(Folding(cls, fold), runes, 0)
            && forall i: nat :: !Crowded(cls, runes, i)
  {
    hide PieceEnd, PatternEnd, Sane, Crowded, Pieces, PatternPieces, SuffixOf;
    var a, b := SuffixOf(fold(r)), SuffixOf(cls.toLower(r));
    var runes := Telling(a, b, r, plain);
    assert cls.isLetter(r);
    PlainSuffixes(cls, fold, plain);
    QuotedEnd(cls, runes);
    QuotedEnd(Folding(cls, fold), runes);
    assert PieceEnd(cls, runes, 0) != PieceEnd(Folding(cls, fold), runes, 0);
    PiecesPart(cls, fold, runes);
  }

  lemma PlainSuffixes(cls: Classes, fold: Rune -> Rune, plain: Rune)
    requires Alphabet(cls, fold, plain)
    ensures forall r | r in {108, 118, 101, plain} ::
              cls.isLetter(r) && SuffixOf(fold(r)) == SuffixOf(cls.toLower(r)) == SuffixOf(r)
    ensures 108 in {108, 118, 101, plain} && 118 in {108, 118, 101, plain} && 101 in {108, 118, 101, plain}
    ensures plain in {108, 118, 101, plain}
    ensures SuffixOf(108) == El && SuffixOf(118) == VeeOrAr && SuffixOf(101) == Ee && SuffixOf(plain) == NoSuffix
  {
  }

  lemma QuotedEnd(cls: Classes, runes: seq<Rune>)
    requires Sane(cls) && !cls.isLetter(APOSTROPHE) && !cls.isNumber(APOSTROPHE) && IsQuoted(cls, runes)
    ensures var first, second := SuffixOf(cls.toLower(runes[1])), SuffixOf(cls.toLower(runes[2]));
            PatternEnd(cls, runes, 0) == PieceEnd(cls, runes, 0)
            == if (first == El && second == El) || (first == VeeOrAr && second == Ee) then 3
               else if first == Single then 2 else |runes|
    ensures forall i: nat :: !Crowded(cls, runes, i)
  {
    hide PieceEnd, PatternEnd, Sane, Crowded, ContractionEnd;
    QuotedPiece(cls, runes);
    ContractionOf(cls, runes);
  }

  /** Texts without crowded blanks are all split alike exactly when no rune plays different parts. */
  lemma SameOnAllTextsIff(cls: Classes, fold: Rune -> Rune, plain: Rune)
    requires Alphabet(cls, fold, plain)
    ensures (forall runes: seq<Rune> | forall i: nat :: !Crowded(cls, runes, i) ::
               Pieces(cls, runes, 0) == PatternPieces(Folding(cls, fold), runes, 0))
       <==> forall r: Rune :: SameSuffix(cls, fold, r)
  {
    hide SameSuffix, Crowded, Pieces, PatternPieces;
    if r: Rune :| !SameSuffix(cls, fold, r) {
      TellingDiffers(cls, fold, plain, r);
    } else {
      forall runes: seq<Rune> | forall i: nat :: !Crowded(cls, runes, i)
        ensures Pieces(cls, runes, 0) == PatternPieces(Folding(cls, fold), runes, 0)
      {
        ScannerIsPatternIff(cls, fold, runes);
      }
    }
  }

  // ---------- texts on which the two differ ----------

  /** The long s folds to an s, but its lower-case form is itself. */
  const LONG_S: Rune := 0x17F

  /** An apostrophe, a long s and another letter: the pattern takes a contraction, the scanner a word. */
  lemma LongSDiffers(cls: Classes, fold: Rune -> Rune, letter: Rune)
    requires Alphabet(cls, fold, letter) && fold(LONG_S) == 115 && cls.toLower(LONG_S) == LONG_S
    ensures Pieces(cls, [APOSTROPHE, LONG_S, letter], 0) == [[APOSTROPHE, LONG_S, letter]]
    ensures PatternPieces(Folding(cls, fold), [APOSTROPHE, LONG_S, letter], 0) == [[APOSTROPHE, LONG_S], [letter]]
    ensures forall i: nat :: !Crowded(cls, [APOSTROPHE, LONG_S, letter], i)
  {
    hide PieceEnd, PatternEnd, Sane, Crowded, Pieces, PatternPieces;
    var runes, pattern := [APOSTROPHE, LONG_S, letter], Folding(cls, fold);
    assert !SameSuffix(cls, fold, LONG_S);
    assert letter in {108, 118, 101, letter};
    QuotedEnd(cls, runes);
    QuotedEnd(pattern, runes);
    WholePiece(cls, runes);
    TwoMatches(pattern, runes);
  }

  lemma WholePiece(cls: Classes, runes: seq<Rune>)
    requires runes != [] && PieceEnd(cls, runes, 0) == |runes|
    ensures Pieces(cls, runes, 0) == [runes]
  {
    hide PieceEnd;
    assert runes[0..|runes|] == runes && Pieces(cls, runes, |runes|) == [];
  }

  lemma TwoMatches(cls: Classes, runes: seq<Rune>)
    requires Sane(cls) && |runes| == 3 && PatternEnd(cls, runes, 0) == 2
    ensures PatternPieces(cls, runes, 0) == [[runes[0], runes[1]], [runes[2]]]
  {
    hide PatternPieces;
    PatternStep(cls, runes, 0);
    PatternStep(cls, runes, 2);
    NoMatchAtEnd(cls, runes);
    assert runes[0..2] == [runes[0], runes[1]] && runes[2..3] == [runes[2]];
  }

  lemma NoMatchAtEnd(cls: Classes, runes: seq<Rune>)
    ensures PatternPieces(cls, runes, |runes|) == []
  {
  }

  /** Two blanks before a word: the scanner takes both, the pattern leaves one to the word. */
  lemma BlanksDiffer(cls: Classes, fold: Rune -> Rune, letter: Rune)
    requires Sane(cls) && Sane(Folding(cls, fold)) && cls.isLetter(letter)
    ensures Pieces(cls, [SPACE, SPACE, letter], 0) == [[SPACE, SPACE], [letter]]
    ensures PatternPieces(Folding(cls, fold), [SPACE, SPACE, letter], 0) == [[SPACE], [SPACE, letter]]
  {
    BlanksScanned(cls, letter);
    BlanksMatched(Folding(cls, fold), letter);
  }

  lemma BlanksScanned(cls: Classes, letter: Rune)
    requires Sane(cls) && cls.isLetter(letter)
    ensures Pieces(cls, [SPACE, SPACE, letter], 0) == [[SPACE, SPACE], [letter]]
  {
    var runes := [SPACE, SPACE, letter];
    assert Crowded(cls, runes, 0);
    CrowdedPiece(cls, runes, 0, 0);
    assert runes[0..2] == [SPACE, SPACE] && runes[2..3] == [letter];
    assert Pieces(cls, runes, 3) == [];
    assert Pieces(cls, runes, 2) == [runes[2..3]];
    assert Pieces(cls, runes, 0) == [runes[0..2]] + Pieces(cls, runes, 2);
  }

  lemma BlanksMatched(cls: Classes, letter: Rune)
    requires Sane(cls) && cls.isLetter(letter)
    ensures PatternPieces(cls, [SPACE, SPACE, letter], 0) == [[SPACE], [SPACE, letter]]
  {
    hide PatternPieces;
    var runes := [SPACE, SPACE, letter];
    assert Crowded(cls, runes, 0);
    CrowdedPiece(cls, runes, 0, 0);
    PatternStep(cls, runes, 0);
    PatternStep(cls, runes, 1);
    assert PatternEnd(cls, runes, 1) == 3 by {
      assert RunEnd(cls, runes, 2, Letter) == 3;
      assert LetterEnd(cls, runes, 1) == 3;
    }
    NoMatchAtEnd(cls, runes);
    assert runes[0..1] == [SPACE] && runes[1..3] == [SPACE, letter];
  }
}
