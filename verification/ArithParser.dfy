/** The calculator's recursive-descent evaluator and the call that guards it. */
module ArithParsers {
  import opened Arithmetic
  import opened Calculator
  import opened Syntax
  import opened Wrappers

  lemma {:induction false} RunStep(s: string)
    ensures s != "" && IsDigit(s[0]) ==> DigitRun(s) == 1 + DigitRun(s[1..])
    ensures s == "" || !IsDigit(s[0]) ==> DigitRun(s) == 0
  {
  }

  lemma FractionStep(digits: nat, digit: nat, power: real)
    requires power > 0.0
    ensures digits as real / power + digit as real * (0.1 / power) == (10 * digits + digit) as real / (10.0 * power)
    ensures 0.1 / power * 0.1 == 0.1 / (10.0 * power)
  {
    var d, e := digits as real, digit as real;
    assert (10 * digits + digit) as real == 10.0 * d + e;
    assert 0.1 / power == 1.0 / (10.0 * power);
    assert d / power == (10.0 * d) / (10.0 * power);
  }

  /** The value of a scanned number: digits, then digits worth a tenth of the ones before. */
  method NumberOf(text: string) returns (value: real)
    requires IsNumber(text)
    ensures value == NumberValue(text)
  {
    hide IsDigit, IsNumber;
    ghost var whole, fraction := Whole(text), Fraction(text);
    assert AllDigits(whole) && AllDigits(fraction) by {
      NumberParts(text);
    }
    WholePrefix(text);
    value := 0.0;
    var integerPart, weight := true, 0.1;
    assert whole[..0] == "";
    for i := 0 to |text|
      invariant integerPart == (i <= |whole|)
      invariant integerPart ==> value == WholeValue(whole, i)
      invariant !integerPart ==> value == WholeValue(whole, |whole|) + FractionValue(fraction, i - |whole| - 1)
      invariant weight == 0.1 / Power10(if integerPart then 0 else i - |whole| - 1)
    {
      PlaceOf(text, i);
      if text[i] == '.' {
        integerPart, weight := false, 0.1;
        NoFraction(fraction);
      } else {
        var digit := DigitAt(text, i);
        if integerPart {
          WholeStep(whole, i);
          value := value * 10.0 + digit as real;
        } else {
          FractionDigit(fraction, i - |whole| - 1);
          value := value + digit as real * weight;
          weight := weight * 0.1;
        }
      }
    }
    NumberSum(text);
  }

  lemma NumberParts(text: string)
    requires IsNumber(text)
    ensures AllDigits(Whole(text)) && AllDigits(Fraction(text))
  {
  }

  method DigitAt(text: string, i: nat) returns (digit: nat)
    requires i < |text| && text[i] != '.' && IsNumber(text)
    ensures IsDigit(text[i]) && digit == DigitValue(text[i])
  {
    PlaceOf(text, i);
    digit := text[i] as int - '0' as int;
  }

  /** In a number every character is a digit of one of its parts, or the point between them. */
  lemma PlaceOf(text: string, i: nat)
    requires i < |text| && IsNumber(text)
    ensures i < |Whole(text)| ==> text[i] == Whole(text)[i] && IsDigit(text[i])
    ensures i == |Whole(text)| ==> text[i] == '.'
    ensures i > |Whole(text)| ==> i - |Whole(text)| - 1 < |Fraction(text)| && text[i] == Fraction(text)[i - |Whole(text)| - 1]
                                  && IsDigit(text[i])
    ensures text[i] == '.' <==> i == |Whole(text)|
  {
    WholePrefix(text);
  }

  ghost function WholeValue(whole: string, n: nat): real
    requires AllDigits(whole)
  {
    if n <= |whole| then DigitsValue(whole[..n]) as real else 0.0
  }

  ghost function FractionValue(fraction: string, n: int): real
    requires AllDigits(fraction)
  {
    if 0 <= n <= |fraction| then DigitsValue(fraction[..n]) as real / Power10(n) else 0.0
  }

  lemma WholeStep(whole: string, n: nat)
    requires AllDigits(whole) && n < |whole|
    ensures WholeValue(whole, n + 1) == WholeValue(whole, n) * 10.0 + DigitValue(whole[n]) as real
  {
    hide IsDigit;
    var longer := whole[..n + 1];
    assert longer[..|longer| - 1] == whole[..n] && longer[|longer| - 1] == whole[n];
  }

  lemma NoFraction(fraction: string)
    requires AllDigits(fraction)
    ensures FractionValue(fraction, 0) == 0.0 && Power10(0) == 1.0
  {
    assert fraction[..0] == "";
  }

  lemma FractionDigit(fraction: string, n: nat)
    requires AllDigits(fraction) && n < |fraction|
    ensures FractionValue(fraction, n + 1)
            == FractionValue(fraction, n) + DigitValue(fraction[n]) as real * (0.1 / Power10(n))
    ensures 0.1 / Power10(n) * 0.1 == 0.1 / Power10(n + 1)
  {
    hide IsDigit;
    var longer := fraction[..n + 1];
    assert longer[..|longer| - 1] == fraction[..n] && longer[|longer| - 1] == fraction[n];
    FractionStep(DigitsValue(fraction[..n]), DigitValue(fraction[n]), Power10(n));
  }

  lemma NumberSum(text: string)
    requires IsNumber(text)
    ensures NumberValue(text) == if |Whole(text)| == |text| then WholeValue(Whole(text), |text|)
                                 else WholeValue(Whole(text), |Whole(text)|) + FractionValue(Fraction(text), |text| - |Whole(text)| - 1)
  {
    var whole, fraction := Whole(text), Fraction(text);
    assert whole[..|whole|] == whole && fraction[..|fraction|] == fraction;
  }

  // ---------- the parser ----------

  class ArithParser {
    const source: string
    var position: nat

    constructor (source: string)
      ensures this.source == source && position == 0
    {
      this.source := source;
      position := 0;
    }

    ghost predicate Valid()
      reads this
    {
      position <= |source|
    }

    ghost function Left(): string
      requires Valid()
      reads this
    {
      source[position..]
    }

    method SkipSpace()
      requires Valid()
      modifies this
      ensures Valid() && position >= old(position) && Left() == SkipSpaces(old(Left()))
    {
      while position < |source| && source[position] == ' '
        invariant Valid() && position >= old(position) && SkipSpaces(Left()) == SkipSpaces(old(Left()))
      {
        assert Left()[1..] == source[position + 1..];
        position := position + 1;
      }
    }

    /** Moves over the digits here and tells whether there were any. */
    method SkipDigits() returns (seen: bool)
      requires Valid()
      modifies this
      ensures Valid() && position == old(position) + DigitRun(old(Left())) && seen == (position > old(position))
    {
      seen := false;
      while position < |source| && '0' <= source[position] <= '9'
        invariant Valid() && old(position) <= position && seen == (position > old(position))
        invariant position + DigitRun(Left()) == old(position) + DigitRun(old(Left()))
      {
        assert Left()[1..] == source[position + 1..];
        RunStep(Left());
        position := position + 1;
        seen := true;
      }
      RunStep(Left());
    }

    method Number() returns (value: real, ok: bool)
      requires Valid()
      modifies this
      ensures Valid() && position >= old(position)
      ensures if ok then position > old(position) && ParseNumber(old(Left())) == Done(value, Left())
              else ParseNumber(old(Left())) == Fail
    {
      hide IsNumber, NumberValue, DigitRun, Whole, Fraction;
      var startIndex := position;
      ghost var s := Left();
      var seenDigit := SkipDigits();
      assert source[position..] == s[DigitRun(s)..];
      if position < |source| && source[position] == '.' {
        position := position + 1;
        assert Left() == s[DigitRun(s) + 1..];
        var more := SkipDigits();
        seenDigit := seenDigit || more;
      }
      assert position == startIndex + NumberEnd(s);
      var text := source[startIndex..position];
      assert text == s[..NumberEnd(s)] && Left() == s[NumberEnd(s)..];
      SeenDigit(s, seenDigit);
      if !seenDigit {
        return 0.0, false;
      }
      value := NumberOf(text);
      ok := true;
    }

    method Factor() returns (value: real, ok: bool)
      requires Valid()
      modifies this
      ensures Valid() && position >= old(position)
      ensures if ok then position > old(position) && ParseFactor(old(Left())) == Done(value, Left())
              else ParseFactor(old(Left())) == Fail
      decreases |source| - position, 0
    {
      hide ParseExpr, ParseNumber, SkipSpaces;
      SkipSpace();
      if position >= |source| {
        return 0.0, false;
      }
      ghost var t := Left();
      assert t[0] == source[position] && t[1..] == source[position + 1..];
      if source[position] == '-' {
        position := position + 1;
        value, ok := Factor();
        return -value, ok;
      }
      if source[position] == '(' {
        position := position + 1;
        value, ok := Expr();
        if !ok {
          return 0.0, false;
        }
        SkipSpace();
        if position >= |source| || source[position] != ')' {
          return 0.0, false;
        }
        assert Left()[1..] == source[position + 1..];
        position := position + 1;
        return value, true;
      }
      value, ok := Number();
    }

    method Term() returns (value: real, ok: bool)
      requires Valid()
      modifies this
      ensures Valid() && position >= old(position)
      ensures if ok then position > old(position) && ParseTerm(old(Left())) == Done(value, Left())
              else ParseTerm(old(Left())) == Fail
      decreases |source| - position, 1
    {
      hide ParseFactor, SkipSpaces, Multiply, Divide;
      value, ok := Factor();
      if !ok {
        return 0.0, false;
      }
      while true
        invariant Valid() && position > old(position)
        invariant ParseTerm(old(Left())) == ParseMuls(value, Left())
        decreases |source| - position
      {
        SkipSpace();
        if position >= |source| {
          return value, true;
        }
        var operator := source[position];
        ghost var t := Left();
        assert t[0] == operator && t[1..] == source[position + 1..];
        if operator != '*' && operator != '/' {
          return value, true;
        }
        position := position + 1;
        var right, fine := Factor();
        if !fine {
          return 0.0, false;
        }
        if operator == '*' {
          value := Multiply(value, right);
        } else {
          if right == 0.0 {
            return 0.0, false;
          }
          value := Divide(value, right);
        }
      }
    }

    method Expr() returns (value: real, ok: bool)
      requires Valid()
      modifies this
      ensures Valid() && position >= old(position)
      ensures if ok then position > old(position) && ParseExpr(old(Left())) == Done(value, Left())
              else ParseExpr(old(Left())) == Fail
      decreases |source| - position, 2
    {
      hide ParseTerm, SkipSpaces;
      value, ok := Term();
      if !ok {
        return 0.0, false;
      }
      while true
        invariant Valid() && position > old(position)
        invariant ParseExpr(old(Left())) == ParseAdds(value, Left())
        decreases |source| - position
      {
        SkipSpace();
        if position >= |source| {
          return value, true;
        }
        var operator := source[position];
        ghost var t := Left();
        assert t[0] == operator && t[1..] == source[position + 1..];
        if operator != '+' && operator != '-' {
          return value, true;
        }
        position := position + 1;
        var right, fine := Term();
        if !fine {
          return 0.0, false;
        }
        if operator == '+' {
          value := value + right;
        } else {
          value := value - right;
        }
      }
    }
  }

  /** Some digit was seen exactly when the text scanned is a number. */
  lemma SeenDigit(s: string, seen: bool)
    requires seen <==> DigitRun(s) > 0 || (DigitRun(s) < |s| && s[DigitRun(s)] == '.' && DigitRun(s[DigitRun(s) + 1..]) > 0)
    ensures seen <==> IsNumber(s[..NumberEnd(s)])
  {
    hide DigitRun, AllDigits, Whole;
    NumberShape(s);
    EndSplit(s);
    var text, whole := s[..NumberEnd(s)], DigitRun(s);
    assert |Whole(text)| == whole;
    if whole < |s| && s[whole] == '.' {
      assert |Fraction(text)| == DigitRun(s[whole + 1..]);
    }
  }

  method EvalArithmetic(source: string) returns (value: real, ok: bool)
    ensures Parse(source) == if ok then Some(value) else None
  {
    hide ParseExpr;
    var parser := new ArithParser(source);
    assert parser.Left() == source;
    value, ok := parser.Expr();
    if !ok {
      return 0.0, false;
    }
    parser.SkipSpace();
    if parser.position != |source| {
      return 0.0, false;
    }
  }

  // ---------- the guards around the evaluator ----------

  predicate IsArithmeticChar(c: char) {
    IsDigit(c) || c in "*+-/.() "
  }

  ghost predicate HasPower(s: string) {
    exists i :: StarsAt(s, i)
  }

  ghost predicate StarsAt(s: string, i: int) {
    0 <= i < |s| - 1 && s[i] == '*' && s[i + 1] == '*'
  }

  /** Only arithmetic characters, no double star, and no star at the end. */
  ghost predicate Tidy(s: string) {
    && (forall i | 0 <= i < |s| :: IsArithmeticChar(s[i]))
    && !HasPower(s)
    && (s != "" ==> s[|s| - 1] != '*')
  }

  ghost predicate Firm(s: string) {
    Tidy(s) && s != "" && s[0] != '*'
  }

  lemma TidyConcat(a: string, b: string)
    requires Tidy(a) && Tidy(b)
    ensures Tidy(a + b)
    ensures Firm(a) ==> Firm(a + b)
  {
    hide IsArithmeticChar;
    var s := a + b;
    forall i ensures !StarsAt(s, i) {
      assert !StarsAt(a, i) && !StarsAt(b, i - |a|);
    }
  }

  lemma SignTidy(sign: string, b: string)
    requires sign in ["+", "-", "*", "/", "("] && Firm(b)
    ensures Tidy(sign + b) && (sign != "*" ==> Firm(sign + b))
  {
    var s := sign + b;
    forall i ensures !StarsAt(s, i) {
      assert !StarsAt(b, i - 1);
    }
  }

  lemma SpacesTidy(n: nat)
    ensures Tidy(Spaces(n)) && (n > 0 ==> Firm(Spaces(n)))
  {
  }

  lemma NumberFirm(text: string)
    requires IsNumber(text)
    ensures Firm(text)
  {
    hide IsDigit, IsNumber;
    NumberNotEmpty(text);
    forall i | 0 <= i < |text| ensures IsDigit(text[i]) || text[i] == '.' {
      PlaceOf(text, i);
    }
    DigitsFirm(text);
  }

  lemma DigitsFirm(text: string)
    requires text != "" && forall i | 0 <= i < |text| :: IsDigit(text[i]) || text[i] == '.'
    ensures Firm(text)
  {
  }

  lemma NumberNotEmpty(text: string)
    requires IsNumber(text)
    ensures text != ""
  {
  }

  lemma {:induction false} ExprFirm(e: Expr)
    requires LegalExpr(e)
    ensures Firm(PrintExpr(e))
    decreases e, 1
  {
    hide Firm, Tidy;
    TermFirm(e.first);
    AddsTidy(e.adds);
    FirmIsTidy(PrintTerm(e.first));
    TidyConcat(PrintTerm(e.first), PrintAdds(e.adds));
  }

  lemma FirmIsTidy(s: string)
    requires Firm(s)
    ensures Tidy(s)
  {
  }

  lemma {:induction false} AddsTidy(adds: Adds)
    requires LegalAdds(adds)
    ensures Tidy(PrintAdds(adds))
    decreases adds, 0
  {
    hide Firm, Tidy;
    match adds
    case NoAdds => SpacesTidy(0); assert Spaces(0) == "";
    case AndAdd(pad, plus, term, more) =>
      TermFirm(term);
      AddsTidy(more);
      FirmIsTidy(PrintTerm(term));
      TidyConcat(PrintTerm(term), PrintAdds(more));
      SignTidy(if plus then "+" else "-", PrintTerm(term) + PrintAdds(more));
      SpacesTidy(pad);
      TidyConcat(Spaces(pad), (if plus then "+" else "-") + (PrintTerm(term) + PrintAdds(more)));
  }

  lemma {:induction false} TermFirm(t: Term)
    requires LegalTerm(t)
    ensures Firm(PrintTerm(t))
    decreases t, 1
  {
    hide Firm, Tidy;
    FactorFirm(t.first);
    MulsTidy(t.muls);
    FirmIsTidy(PrintFactor(t.first));
    TidyConcat(PrintFactor(t.first), PrintMuls(t.muls));
  }

  lemma {:induction false} MulsTidy(muls: Muls)
    requires LegalMuls(muls)
    ensures Tidy(PrintMuls(muls))
    decreases muls, 0
  {
    hide Firm, Tidy;
    match muls
    case NoMuls => SpacesTidy(0); assert Spaces(0) == "";
    case AndMul(pad, times, factor, more) =>
      FactorFirm(factor);
      MulsTidy(more);
      FirmIsTidy(PrintFactor(factor));
      TidyConcat(PrintFactor(factor), PrintMuls(more));
      SignTidy(if times then "*" else "/", PrintFactor(factor) + PrintMuls(more));
      SpacesTidy(pad);
      TidyConcat(Spaces(pad), (if times then "*" else "/") + (PrintFactor(factor) + PrintMuls(more)));
  }

  lemma {:induction false} FactorFirm(f: Factor)
    requires LegalFactor(f)
    ensures Firm(PrintFactor(f))
    decreases f, 1
  {
    hide Firm, Tidy;
    match f
    case Number(pad, text) =>
      NumberFirm(text);
      PaddedFirm(pad, text);
    case Negated(pad, factor) =>
      FactorFirm(factor);
      SignTidy("-", PrintFactor(factor));
      PaddedFirm(pad, "-" + PrintFactor(factor));
    case Paren(pad, inner, close) =>
      ExprFirm(inner);
      CloseTidy(close);
      FirmIsTidy(PrintExpr(inner));
      TidyConcat(PrintExpr(inner), Spaces(close) + ")");
      SignTidy("(", PrintExpr(inner) + (Spaces(close) + ")"));
      PaddedFirm(pad, "(" + (PrintExpr(inner) + (Spaces(close) + ")")));
  }

  lemma CloseTidy(close: nat)
    ensures Tidy(Spaces(close) + ")")
  {
    SpacesTidy(close);
    assert Tidy(")");
    TidyConcat(Spaces(close), ")");
  }

  lemma PaddedFirm(pad: nat, s: string)
    requires Firm(s)
    ensures Firm(Spaces(pad) + s)
  {
    SpacesTidy(pad);
    TidyConcat(Spaces(pad), s);
    assert (Spaces(pad) + s)[0] == if pad > 0 then ' ' else s[0];
  }

  /** Whatever the evaluator accepts passes both guards, so the guards refuse nothing of value. */
  lemma AcceptedIsTidy(s: string)
    requires Parse(s).Some?
    ensures s != "" && !HasPower(s) && forall i | 0 <= i < |s| :: s[i] in "0123456789*+-/.() "
  {
    hide ParseExpr, PrintExpr;
    var e, gap := SoundExpr(s);
    var pad := SkippedPad(ParseExpr(s).rest);
    ExprFirm(e);
    SpacesTidy(gap);
    SpacesTidy(pad);
    TidyConcat(Spaces(gap), Spaces(pad));
    TidyConcat(PrintExpr(e), Spaces(gap) + Spaces(pad));
    assert s == PrintExpr(e) + (Spaces(gap) + Spaces(pad));
    forall i | 0 <= i < |s| ensures s[i] in "0123456789*+-/.() " {
      OneOf(s[i]);
    }
  }

  function WithoutCommas(s: string): (rest: string)
    ensures ',' !in rest
    ensures ',' !in s ==> rest == s
  {
    if s == "" then ""
    else if s[0] == ',' then WithoutCommas(s[1..])
    else [s[0]] + WithoutCommas(s[1..])
  }

  lemma {:induction false} CommasConcat(a: string, b: string)
    ensures WithoutCommas(a + b) == WithoutCommas(a) + WithoutCommas(b)
  {
    if a == "" {
      assert a + b == b;
    } else {
      assert (a + b)[0] == a[0] && (a + b)[1..] == a[1..] + b;
      CommasConcat(a[1..], b);
      var kept := if a[0] == ',' then "" else [a[0]];
      assert kept + (WithoutCommas(a[1..]) + WithoutCommas(b)) == kept + WithoutCommas(a[1..]) + WithoutCommas(b);
    }
  }

  /** A comma is dropped wherever it stands, and everything else stays in order. */
  lemma CommaDropped(before: string, after: string)
    ensures WithoutCommas(before + "," + after) == WithoutCommas(before + after)
    ensures WithoutCommas(before + after) == WithoutCommas(before) + WithoutCommas(after)
  {
    hide WithoutCommas;
    CommasConcat(before, after);
    CommasConcat(before + ",", after);
    CommasConcat(before, ",");
    LoneComma();
  }

  lemma LoneComma()
    ensures WithoutCommas(",") == ""
  {
    assert ","[1..] == "";
  }

  lemma OneOf(c: char)
    ensures IsArithmeticChar(c) <==> c in "0123456789*+-/.() "
  {
  }

  method IsArithmetic(s: string) returns (clean: bool)
    ensures clean <==> s != "" && forall i | 0 <= i < |s| :: s[i] in "0123456789*+-/.() "
  {
    for i := 0 to |s|
      invariant forall j | 0 <= j < i :: s[j] in "0123456789*+-/.() "
    {
      OneOf(s[i]);
      if !IsArithmeticChar(s[i]) {
        return false;
      }
    }
    clean := |s| > 0;
  }

  method ContainsPower(s: string) returns (found: bool)
    ensures found <==> HasPower(s)
  {
    for i := 0 to |s|
      invariant forall j | 0 <= j < i :: !StarsAt(s, j)
    {
      if i + 1 < |s| && s[i] == '*' && s[i + 1] == '*' {
        assert StarsAt(s, i);
        return true;
      }
    }
    found := false;
  }

  /** The arithmetic half of the calculator's call: thousands separators dropped, then exactly the
      written expressions without a zero divisor succeed, with their exact value. */
  method Call(expression: string) returns (value: real, ok: bool)
    ensures Parse(WithoutCommas(expression)) == if ok then Some(value) else None
  {
    hide Parse, HasPower;
    var s := WithoutCommas(expression);
    if Parse(s).Some? {
      AcceptedIsTidy(s);
    }
    var arithmetic := IsArithmetic(s);
    var power := ContainsPower(s);
    if !arithmetic || power {
      return 0.0, false;
    }
    value, ok := EvalArithmetic(s);
  }
}
