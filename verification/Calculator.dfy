/** The evaluator against the grammar: it accepts exactly what can be written, with its value. */
module Calculator {
  import opened Arithmetic
  import opened Syntax
  import opened Wrappers

  ghost function Result(value: Option<real>, rest: string): Parsed {
    if value.None? then Fail else Done(value.value, rest)
  }

  /** Whatever follows, it does not go on with the number, the product or the sum. */
  ghost predicate TermEnds(rest: string) {
    var t := SkipSpaces(rest);
    Stops(rest) && (t == "" || (t[0] != '*' && t[0] != '/'))
  }

  ghost predicate ExprEnds(rest: string) {
    var t := SkipSpaces(rest);
    TermEnds(rest) && (t == "" || (t[0] != '+' && t[0] != '-'))
  }

  // ---------- every written expression is read back ----------

  lemma PadEnds(pad: nat, token: char, after: string)
    requires token != ' ' && token != '.' && !IsDigit(token)
    ensures SkipSpaces(Spaces(pad) + ([token] + after)) == [token] + after
    ensures Stops(Spaces(pad) + ([token] + after))
  {
    SkipPad(pad, [token] + after);
    assert (Spaces(pad) + ([token] + after))[0] == if pad > 0 then ' ' else token;
  }

  lemma AddsEnd(adds: Adds, rest: string)
    requires ExprEnds(rest)
    ensures TermEnds(PrintAdds(adds) + rest)
  {
    hide PrintTerm, SkipSpaces, Stops;
    match adds
    case NoAdds => assert PrintAdds(adds) + rest == rest;
    case AndAdd(pad, plus, term, more) =>
      var token := if plus then '+' else '-';
      var after := PrintTerm(term) + PrintAdds(more) + rest;
      PadEnds(pad, token, after);
      assert PrintAdds(adds) + rest == Spaces(pad) + ([token] + after);
  }

  lemma MulsEnd(muls: Muls, rest: string)
    requires TermEnds(rest)
    ensures Stops(PrintMuls(muls) + rest)
  {
    hide PrintFactor, SkipSpaces, Stops;
    match muls
    case NoMuls => assert PrintMuls(muls) + rest == rest;
    case AndMul(pad, times, factor, more) =>
      var token := if times then '*' else '/';
      var after := PrintFactor(factor) + PrintMuls(more) + rest;
      PadEnds(pad, token, after);
      assert PrintMuls(muls) + rest == Spaces(pad) + ([token] + after);
  }

  lemma {:induction false} AddsOfNone(left: Tree, adds: Adds)
    requires Eval(left) == None
    ensures Eval(TreeAdds(left, adds)) == None
    decreases adds
  {
    if adds.AndAdd? {
      AddsOfNone(if adds.plus then Sum(left, TreeTerm(adds.term)) else Difference(left, TreeTerm(adds.term)), adds.more);
    }
  }

  lemma {:induction false} MulsOfNone(left: Tree, muls: Muls)
    requires Eval(left) == None
    ensures Eval(TreeMuls(left, muls)) == None
    decreases muls
  {
    if muls.AndMul? {
      MulsOfNone(if muls.times then Product(left, TreeFactor(muls.factor)) else Quotient(left, TreeFactor(muls.factor)),
                 muls.more);
    }
  }

  lemma SkipTwice(s: string)
    ensures SkipSpaces(SkipSpaces(s)) == SkipSpaces(s)
  {
  }

  lemma {:induction false} CompleteExpr(e: Expr, rest: string)
    requires LegalExpr(e) && ExprEnds(rest)
    ensures ParseExpr(PrintExpr(e) + rest) == Result(Eval(TreeExpr(e)), SkipSpaces(rest))
    decreases e, 3
  {
    hide PrintAdds, PrintTerm, ParseTerm, ParseAdds, TermEnds, ExprEnds, SkipSpaces, Eval, TreeAdds, TreeTerm,
         LegalTerm, LegalAdds;
    var after := PrintAdds(e.adds) + rest;
    assert PrintExpr(e) + rest == PrintTerm(e.first) + after;
    AddsEnd(e.adds, rest);
    CompleteTerm(e.first, after);
    var tree := TreeTerm(e.first);
    if Eval(tree).Some? {
      CompleteAdds(tree, Eval(tree).value, e.adds, rest);
      AddsAfterSpaces(Eval(tree).value, after);
    } else {
      AddsOfNone(tree, e.adds);
    }
  }

  lemma AddsAfterSpaces(value: real, s: string)
    ensures ParseAdds(value, SkipSpaces(s)) == ParseAdds(value, s)
  {
    hide SkipSpaces, ParseTerm;
    SkipTwice(s);
  }

  lemma MulsAfterSpaces(value: real, s: string)
    ensures ParseMuls(value, SkipSpaces(s)) == ParseMuls(value, s)
  {
    hide SkipSpaces, ParseFactor, Multiply, Divide;
    SkipTwice(s);
  }

  lemma {:induction false} CompleteAdds(left: Tree, value: real, adds: Adds, rest: string)
    requires Eval(left) == Some(value) && LegalAdds(adds) && ExprEnds(rest)
    ensures ParseAdds(value, PrintAdds(adds) + rest) == Result(Eval(TreeAdds(left, adds)), SkipSpaces(rest))
    decreases adds, 0
  {
    hide PrintTerm, ParseTerm, TermEnds, TreeTerm, LegalTerm, SkipSpaces, Stops, Eval, ParseAdds;
    match adds
    case NoAdds =>
      assert PrintAdds(adds) + rest == rest;
      NoMoreAdds(value, rest);
    case AndAdd(pad, plus, term, more) =>
      var token := if plus then '+' else '-';
      var tail := PrintAdds(more) + rest;
      assert PrintAdds(adds) + rest == Spaces(pad) + ([token] + (PrintTerm(term) + tail));
      PadEnds(pad, token, PrintTerm(term) + tail);
      AddsEnd(more, rest);
      CompleteTerm(term, tail);
      var right := TreeTerm(term);
      var next := if plus then Sum(left, right) else Difference(left, right);
      NextSum(left, right, plus);
      if Eval(right).Some? {
        CompleteAdds(next, Eval(next).value, more, rest);
        AddsAfterSpaces(Eval(next).value, tail);
        AddsStep(value, token, PrintTerm(term) + tail, PrintAdds(adds) + rest);
      } else {
        AddsOfNone(next, more);
        AddsStep(value, token, PrintTerm(term) + tail, PrintAdds(adds) + rest);
      }
  }

  lemma EndOfExpr(rest: string)
    requires ExprEnds(rest)
    ensures var t := SkipSpaces(rest); t == "" || (t[0] != '+' && t[0] != '-')
  {
  }

  lemma NoMoreAdds(value: real, rest: string)
    requires ExprEnds(rest)
    ensures ParseAdds(value, rest) == Result(Some(value), SkipSpaces(rest))
  {
    hide SkipSpaces, ParseTerm, Stops;
    EndOfExpr(rest);
  }

  lemma NextSum(left: Tree, right: Tree, plus: bool)
    requires Eval(left).Some?
    ensures var next := if plus then Sum(left, right) else Difference(left, right);
            Eval(next) == if Eval(right).None? then None
                          else Some(if plus then Eval(left).value + Eval(right).value
                                    else Eval(left).value - Eval(right).value)
  {
  }

  /** One turn of the sum loop, once the spaces before the sign are gone. */
  lemma AddsStep(value: real, token: char, after: string, s: string)
    requires token == '+' || token == '-'
    requires SkipSpaces(s) == [token] + after
    ensures var right := ParseTerm(after);
            ParseAdds(value, s)
            == if right.Fail? then Fail
               else ParseAdds(if token == '+' then value + right.value else value - right.value, right.rest)
  {
    hide ParseTerm, SkipSpaces;
    assert ([token] + after)[1..] == after;
  }

  lemma {:induction false} CompleteTerm(t: Term, rest: string)
    requires LegalTerm(t) && TermEnds(rest)
    ensures ParseTerm(PrintTerm(t) + rest) == Result(Eval(TreeTerm(t)), SkipSpaces(rest))
    decreases t, 3
  {
    hide PrintMuls, PrintFactor, ParseFactor, ParseMuls, TermEnds, SkipSpaces, Eval, TreeMuls, TreeFactor,
         LegalFactor, LegalMuls;
    var after := PrintMuls(t.muls) + rest;
    assert PrintTerm(t) + rest == PrintFactor(t.first) + after;
    MulsEnd(t.muls, rest);
    CompleteFactor(t.first, after);
    var tree := TreeFactor(t.first);
    if Eval(tree).Some? {
      CompleteMuls(tree, Eval(tree).value, t.muls, rest);
    } else {
      MulsOfNone(tree, t.muls);
    }
  }

  lemma {:induction false} CompleteMuls(left: Tree, value: real, muls: Muls, rest: string)
    requires Eval(left) == Some(value) && LegalMuls(muls) && TermEnds(rest)
    ensures ParseMuls(value, PrintMuls(muls) + rest) == Result(Eval(TreeMuls(left, muls)), SkipSpaces(rest))
    decreases muls, 0
  {
    hide PrintFactor, ParseFactor, TreeFactor, LegalFactor, SkipSpaces, Stops, Eval, Multiply, Divide;
    match muls
    case NoMuls =>
      assert PrintMuls(muls) + rest == rest;
    case AndMul(pad, times, factor, more) =>
      var token := if times then '*' else '/';
      var tail := PrintMuls(more) + rest;
      assert PrintMuls(muls) + rest == Spaces(pad) + ([token] + (PrintFactor(factor) + tail));
      PadEnds(pad, token, PrintFactor(factor) + tail);
      MulsEnd(more, rest);
      CompleteFactor(factor, tail);
      var right := TreeFactor(factor);
      var next := if times then Product(left, right) else Quotient(left, right);
      NextProduct(left, right, times);
      MulsStep(value, token, PrintFactor(factor) + tail, PrintMuls(muls) + rest);
      if Eval(next).Some? {
        CompleteMuls(next, Eval(next).value, more, rest);
      } else {
        MulsOfNone(next, more);
      }
  }

  lemma NextProduct(left: Tree, right: Tree, times: bool)
    requires Eval(left).Some?
    ensures var next := if times then Product(left, right) else Quotient(left, right);
            if Eval(right).None? || (!times && Eval(right).value == 0.0) then Eval(next) == None
            else Eval(next) == Some(if times then Multiply(Eval(left).value, Eval(right).value)
                                    else Divide(Eval(left).value, Eval(right).value))
  {
    hide Multiply, Divide;
  }

  lemma MulsStep(value: real, token: char, after: string, s: string)
    requires token == '*' || token == '/'
    requires SkipSpaces(s) == [token] + after
    ensures var right := ParseFactor(after);
            if right.Fail? || (token == '/' && right.value == 0.0) then ParseMuls(value, s) == Fail
            else ParseMuls(value, s)
                 == ParseMuls(if token == '*' then Multiply(value, right.value) else Divide(value, right.value), right.rest)
  {
    hide ParseFactor, SkipSpaces, Multiply, Divide;
    assert ([token] + after)[1..] == after;
  }

  lemma {:induction false} CompleteFactor(f: Factor, rest: string)
    requires LegalFactor(f) && Stops(rest)
    ensures ParseFactor(PrintFactor(f) + rest) == Result(Eval(TreeFactor(f)), rest)
    decreases f, 3
  {
    hide PrintExpr, ParseExpr, TreeExpr, LegalExpr, SkipSpaces, ParseNumber, ParseFactor, NumberValue, IsNumber;
    match f
    case Number(pad, text) =>
      NumberTaken(text, rest);
      assert text + rest != "" && (text + rest)[0] == text[0];
      SkipPad(pad, text + rest);
      Regroup(Spaces(pad), text, rest);
      FactorStep(PrintFactor(f) + rest, text[0], (text + rest)[1..]);
      assert [text[0]] + (text + rest)[1..] == text + rest;
      NumberRead(text, rest);
    case Negated(pad, factor) =>
      CompleteFactor(factor, rest);
      var after := PrintFactor(factor) + rest;
      PadEnds(pad, '-', after);
      Regroup3(Spaces(pad), "-", PrintFactor(factor), rest);
      FactorStep(PrintFactor(f) + rest, '-', after);
    case Paren(pad, inner, close) =>
      var closing := Spaces(close) + ([')'] + rest);
      var after := PrintExpr(inner) + closing;
      PadEnds(close, ')', rest);
      CompleteExpr(inner, closing);
      PadEnds(pad, '(', after);
      Regroup3(Spaces(pad), "(", PrintExpr(inner) + (Spaces(close) + ")"), rest);
      Regroup3(PrintExpr(inner), Spaces(close), ")", rest);
      FactorStep(PrintFactor(f) + rest, '(', after);
      assert ([')'] + rest)[1..] == rest;
      SkipTwice(closing);
  }

  lemma Regroup(a: string, b: string, c: string)
    ensures a + b + c == a + (b + c)
  {
  }

  lemma Regroup3(a: string, b: string, c: string, d: string)
    ensures a + (b + c) + d == a + (b + (c + d))
  {
  }

  /** What a factor is, once the spaces before it are gone. */
  lemma FactorStep(s: string, token: char, after: string)
    requires SkipSpaces(s) == [token] + after
    ensures token == '-' ==>
              ParseFactor(s) == if ParseFactor(after).Fail? then Fail
                                else Done(-ParseFactor(after).value, ParseFactor(after).rest)
    ensures token == '(' ==>
              ParseFactor(s) == if ParseExpr(after).Fail? then Fail
                                else
                                  var u := SkipSpaces(ParseExpr(after).rest);
                                  if u == "" || u[0] != ')' then Fail else Done(ParseExpr(after).value, u[1..])
    ensures token != '-' && token != '(' ==> ParseFactor(s) == ParseNumber([token] + after)
  {
    hide ParseExpr, SkipSpaces, ParseNumber;
    assert ([token] + after)[1..] == after;
  }

  lemma NumberRead(text: string, rest: string)
    requires IsNumber(text) && Stops(rest)
    ensures ParseNumber(text + rest) == Done(NumberValue(text), rest)
  {
    hide NumberValue, IsNumber;
    NumberTaken(text, rest);
  }

  // ---------- everything read was written ----------

  /** The string up to `rest` is some written expression with this value. */
  ghost predicate Reads(s: string, e: Expr, pad: nat, parsed: Parsed)
    requires parsed.Done?
  {
    && LegalExpr(e) && s == PrintExpr(e) + (Spaces(pad) + parsed.rest)
    && Eval(TreeExpr(e)) == Some(parsed.value)
  }

  lemma {:induction false} SoundExpr(s: string) returns (e: Expr, pad: nat)
    requires ParseExpr(s).Done?
    ensures Reads(s, e, pad, ParseExpr(s))
    decreases |s|, 3
  {
    hide ParseTerm, ParseAdds, PrintTerm, PrintAdds, LegalTerm, LegalAdds, TreeTerm, TreeAdds, Eval;
    var first := ParseTerm(s);
    var term, gap := SoundTerm(s);
    var adds;
    adds, pad := SoundAdds(TreeTerm(term), first.value, Spaces(gap) + first.rest, gap, first.rest);
    e := Expr(term, adds);
    assert PrintExpr(e) + (Spaces(pad) + ParseExpr(s).rest) == PrintTerm(term) + (PrintAdds(adds) + (Spaces(pad) + ParseExpr(s).rest));
  }

  lemma NothingToSkip(t: string)
    requires t == "" || t[0] != ' '
    ensures SkipSpaces(t) == t
  {
  }

  lemma Reassemble(gap: nat, t: string, operand: string, more: string, rest: string)
    requires t != "" && t[1..] == operand + (more + rest)
    ensures Spaces(gap) + t == (Spaces(gap) + ([t[0]] + (operand + more))) + rest
  {
    assert t == [t[0]] + t[1..];
  }

  /** `gap` spaces were already skipped before `t`. */
  lemma {:induction false} SoundAdds(left: Tree, value: real, s: string, gap: nat, t: string) returns (adds: Adds, pad: nat)
    requires s == Spaces(gap) + t && (t == "" || t[0] != ' ')
    requires Eval(left) == Some(value) && ParseAdds(value, t).Done?
    ensures LegalAdds(adds) && s == PrintAdds(adds) + (Spaces(pad) + ParseAdds(value, t).rest)
    ensures Eval(TreeAdds(left, adds)) == Some(ParseAdds(value, t).value)
    decreases |t|, 4
  {
    hide ParseTerm, PrintTerm, LegalTerm, TreeTerm, Eval, SkipSpaces;
    NothingToSkip(t);
    if t == "" || (t[0] != '+' && t[0] != '-') {
      adds, pad := NoAdds, gap;
    } else {
      var right := ParseTerm(t[1..]);
      var term, between := SoundTerm(t[1..]);
      var plus := t[0] == '+';
      var next := if plus then Sum(left, TreeTerm(term)) else Difference(left, TreeTerm(term));
      NextSum(left, TreeTerm(term), plus);
      var more;
      more, pad := SoundAdds(next, if plus then value + right.value else value - right.value,
                             Spaces(between) + right.rest, between, right.rest);
      adds := AndAdd(gap, plus, term, more);
      Reassemble(gap, t, PrintTerm(term), PrintAdds(more), Spaces(pad) + ParseAdds(value, t).rest);
    }
  }

  lemma {:induction false} SoundTerm(s: string) returns (t: Term, pad: nat)
    requires ParseTerm(s).Done?
    ensures LegalTerm(t) && s == PrintTerm(t) + (Spaces(pad) + ParseTerm(s).rest)
    ensures Eval(TreeTerm(t)) == Some(ParseTerm(s).value)
    ensures ParseTerm(s).rest == "" || ParseTerm(s).rest[0] != ' '
    decreases |s|, 1
  {
    hide ParseFactor, PrintFactor, PrintMuls, LegalFactor, LegalMuls, TreeFactor, TreeMuls, Eval, SkipSpaces;
    var first := ParseFactor(s);
    var factor := SoundFactor(s);
    var gap := SkippedPad(first.rest);
    var muls;
    MulsAfterSpaces(first.value, first.rest);
    muls, pad := SoundMuls(TreeFactor(factor), first.value, first.rest, gap, SkipSpaces(first.rest));
    t := Term(factor, muls);
    assert PrintTerm(t) + (Spaces(pad) + ParseTerm(s).rest)
        == PrintFactor(factor) + (PrintMuls(muls) + (Spaces(pad) + ParseTerm(s).rest));
  }

  lemma {:induction false} SoundMuls(left: Tree, value: real, s: string, gap: nat, t: string) returns (muls: Muls, pad: nat)
    requires s == Spaces(gap) + t && (t == "" || t[0] != ' ')
    requires Eval(left) == Some(value) && ParseMuls(value, t).Done?
    ensures LegalMuls(muls) && s == PrintMuls(muls) + (Spaces(pad) + ParseMuls(value, t).rest)
    ensures Eval(TreeMuls(left, muls)) == Some(ParseMuls(value, t).value)
    ensures ParseMuls(value, t).rest == "" || ParseMuls(value, t).rest[0] != ' '
    decreases |t|, 2
  {
    hide ParseFactor, PrintFactor, LegalFactor, TreeFactor, Eval, Multiply, Divide, SkipSpaces;
    NothingToSkip(t);
    if t == "" || (t[0] != '*' && t[0] != '/') {
      muls, pad := NoMuls, gap;
    } else {
      var right := ParseFactor(t[1..]);
      var factor := SoundFactor(t[1..]);
      var times := t[0] == '*';
      var next := if times then Product(left, TreeFactor(factor)) else Quotient(left, TreeFactor(factor));
      NextProduct(left, TreeFactor(factor), times);
      var between := SkippedPad(right.rest);
      var result := if times then Multiply(value, right.value) else Divide(value, right.value);
      var more;
      MulsAfterSpaces(result, right.rest);
      more, pad := SoundMuls(next, result, right.rest, between, SkipSpaces(right.rest));
      muls := AndMul(gap, times, factor, more);
      Reassemble(gap, t, PrintFactor(factor), PrintMuls(more), Spaces(pad) + ParseMuls(value, t).rest);
    }
  }

  lemma {:induction false} SoundFactor(s: string) returns (f: Factor)
    requires ParseFactor(s).Done?
    ensures LegalFactor(f) && s == PrintFactor(f) + ParseFactor(s).rest
    ensures Eval(TreeFactor(f)) == Some(ParseFactor(s).value)
    decreases |s|, 0
  {
    hide ParseExpr, PrintExpr, LegalExpr, TreeExpr, NumberValue, IsNumber, SkipSpaces, NumberEnd;
    var pad := SkippedPad(s);
    var t := SkipSpaces(s);
    assert t == [t[0]] + t[1..];
    if t[0] == '-' {
      var operand := SoundFactor(t[1..]);
      f := Negated(pad, operand);
      assert s == PrintFactor(f) + ParseFactor(s).rest;
    } else if t[0] == '(' {
      var inner, gap := SoundExpr(t[1..]);
      var rest := ParseExpr(t[1..]).rest;
      var close := SkippedPad(rest);
      var u := SkipSpaces(rest);
      assert u == [u[0]] + u[1..];
      f := Paren(pad, inner, gap + close);
      assert Spaces(gap + close) == Spaces(gap) + Spaces(close);
      assert s == PrintFactor(f) + ParseFactor(s).rest;
    } else {
      f := SoundNumber(s, pad, t);
    }
  }

  lemma SoundNumber(s: string, pad: nat, t: string) returns (f: Factor)
    requires ParseFactor(s).Done? && t == SkipSpaces(s) && s == Spaces(pad) + t
    requires t != "" && t[0] != '-' && t[0] != '('
    ensures LegalFactor(f) && s == PrintFactor(f) + ParseFactor(s).rest
    ensures Eval(TreeFactor(f)) == Some(ParseFactor(s).value)
  {
    hide ParseExpr, PrintExpr, LegalExpr, TreeExpr, NumberValue, IsNumber, SkipSpaces, NumberEnd;
    f := Number(pad, t[..NumberEnd(t)]);
    assert t == t[..NumberEnd(t)] + t[NumberEnd(t)..];
  }

  /** The evaluator accepts a string exactly when it is a written expression, perhaps with spaces
      after it, in which no divisor is zero, and then returns its exact value. */
  lemma ParseIff(s: string, value: real)
    ensures Parse(s) == Some(value) <==>
            exists e: Expr, pad: nat :: LegalExpr(e) && s == PrintExpr(e) + Spaces(pad) && Eval(TreeExpr(e)) == Some(value)
  {
    hide PrintExpr, ParseExpr, LegalExpr, TreeExpr, Eval;
    if Parse(s) == Some(value) {
      var e, gap := SoundExpr(s);
      var pad := SkippedPad(ParseExpr(s).rest);
      assert Spaces(gap + pad) == Spaces(gap) + (Spaces(pad) + "");
      assert LegalExpr(e) && s == PrintExpr(e) + Spaces(gap + pad) && Eval(TreeExpr(e)) == Some(value);
    }
    forall e: Expr, pad: nat | LegalExpr(e) && s == PrintExpr(e) + Spaces(pad) && Eval(TreeExpr(e)) == Some(value)
      ensures Parse(s) == Some(value)
    {
      ParseWritten(e, pad);
    }
  }

  /** A written expression is read whole: its value, or failure exactly on a zero divisor. */
  lemma ParseWritten(e: Expr, pad: nat)
    requires LegalExpr(e)
    ensures Parse(PrintExpr(e) + Spaces(pad)) == Eval(TreeExpr(e))
  {
    hide PrintExpr, ParseExpr, LegalExpr, TreeExpr, Eval;
    SkipPad(pad, "");
    assert Spaces(pad) + "" == Spaces(pad);
    CompleteExpr(e, Spaces(pad));
  }

  /** Parsing undoes printing, with any number of spaces before each token and behind the last. */
  lemma ParsePrinted(tree: Tree, e: Expr, pad: nat)
    requires LegalTree(tree) && Respaced(e, AsExpr(tree))
    ensures Parse(PrintExpr(e) + Spaces(pad)) == Eval(tree)
  {
    hide PrintExpr, Parse, LegalExpr, TreeExpr, Eval, Squeezed;
    PrintedTree(tree);
    SqueezedMeans(e);
    SqueezedMeans(AsExpr(tree));
    ParseWritten(e, pad);
  }
}
