/** What the recursive-descent evaluator does to a string, as functions. */
module Arithmetic {
  import opened Sequences
  import opened Syntax
  import opened Wrappers

  /** The value and what is left to read, or failure. */
  datatype Parsed = Fail | Done(value: real, rest: string)

  function SkipSpaces(s: string): (rest: string)
    ensures |rest| <= |s|
    ensures rest == "" || rest[0] != ' '
  {
    if s != "" && s[0] == ' ' then SkipSpaces(s[1..]) else s
  }

  /** The longest run of leading digits. */
  function DigitRun(s: string): (n: nat)
    ensures n <= |s|
    ensures forall i | 0 <= i < n :: IsDigit(s[i])
    ensures n < |s| ==> !IsDigit(s[n])
  {
    if s != "" && IsDigit(s[0]) then 1 + DigitRun(s[1..]) else 0
  }

  /** Where a number that starts here ends. */
  function NumberEnd(s: string): (n: nat)
    ensures n <= |s|
  {
    var whole := DigitRun(s);
    if whole < |s| && s[whole] == '.' then whole + 1 + DigitRun(s[whole + 1..]) else whole
  }

  ghost function ParseNumber(s: string): (parsed: Parsed)
    ensures parsed.Done? ==> |parsed.rest| < |s|
  {
    var text := s[..NumberEnd(s)];
    if IsNumber(text) then Done(NumberValue(text), s[NumberEnd(s)..]) else Fail
  }

  ghost function ParseExpr(s: string): (parsed: Parsed)
    ensures parsed.Done? ==> |parsed.rest| < |s|
    decreases |s|, 3
  {
    var first := ParseTerm(s);
    if first.Fail? then Fail else ParseAdds(first.value, first.rest)
  }

  ghost function ParseAdds(value: real, s: string): (parsed: Parsed)
    ensures parsed.Done? ==> |parsed.rest| <= |s|
    decreases |s|, 4
  {
    var t := SkipSpaces(s);
    if t == "" || (t[0] != '+' && t[0] != '-') then Done(value, t)
    else
      var right := ParseTerm(t[1..]);
      if right.Fail? then Fail
      else ParseAdds(if t[0] == '+' then value + right.value else value - right.value, right.rest)
  }

  ghost function ParseTerm(s: string): (parsed: Parsed)
    ensures parsed.Done? ==> |parsed.rest| < |s|
    decreases |s|, 1
  {
    var first := ParseFactor(s);
    if first.Fail? then Fail else ParseMuls(first.value, first.rest)
  }

  ghost function ParseMuls(value: real, s: string): (parsed: Parsed)
    ensures parsed.Done? ==> |parsed.rest| <= |s|
    decreases |s|, 2
  {
    var t := SkipSpaces(s);
    if t == "" || (t[0] != '*' && t[0] != '/') then Done(value, t)
    else
      var right := ParseFactor(t[1..]);
      if right.Fail? then Fail
      else if t[0] == '*' then ParseMuls(Multiply(value, right.value), right.rest)
      else if right.value == 0.0 then Fail
      else ParseMuls(Divide(value, right.value), right.rest)
  }

  ghost function ParseFactor(s: string): (parsed: Parsed)
    ensures parsed.Done? ==> |parsed.rest| < |s|
    decreases |s|, 0
  {
    var t := SkipSpaces(s);
    if t == "" then Fail
    else if t[0] == '-' then
      var operand := ParseFactor(t[1..]);
      if operand.Fail? then Fail else Done(-operand.value, operand.rest)
    else if t[0] == '(' then
      var inner := ParseExpr(t[1..]);
      if inner.Fail? then Fail
      else
        var u := SkipSpaces(inner.rest);
        if u == "" || u[0] != ')' then Fail else Done(inner.value, u[1..])
    else ParseNumber(t)
  }

  ghost function Parse(s: string): Option<real> {
    var parsed := ParseExpr(s);
    if parsed.Fail? || SkipSpaces(parsed.rest) != "" then None else Some(parsed.value)
  }

  // ---------- spaces and numbers ----------

  lemma {:induction false} SkipPad(pad: nat, s: string)
    requires s == "" || s[0] != ' '
    ensures SkipSpaces(Spaces(pad) + s) == s
  {
    if pad > 0 {
      SkipPad(pad - 1, s);
      assert (Spaces(pad) + s)[1..] == Spaces(pad - 1) + s;
    } else {
      assert Spaces(0) + s == s;
    }
  }

  lemma {:induction false} SkippedPad(s: string) returns (pad: nat)
    ensures s == Spaces(pad) + SkipSpaces(s)
  {
    if s != "" && s[0] == ' ' {
      var less := SkippedPad(s[1..]);
      pad := less + 1;
      assert Spaces(pad) == " " + Spaces(less);
      assert s == " " + s[1..];
    } else {
      pad := 0;
      assert Spaces(0) + s == s;
    }
  }

  /** Nothing here could continue a number. */
  ghost predicate Stops(rest: string) {
    rest == "" || (!IsDigit(rest[0]) && rest[0] != '.')
  }

  lemma {:induction false} RunOf(digits: string, rest: string)
    requires AllDigits(digits) && (rest == "" || !IsDigit(rest[0]))
    ensures DigitRun(digits + rest) == |digits|
  {
    if digits == "" {
      assert digits + rest == rest;
    } else {
      RunOf(digits[1..], rest);
      assert (digits + rest)[1..] == digits[1..] + rest;
    }
  }

  lemma {:induction false} WholeOf(digits: string, rest: string)
    requires AllDigits(digits) && (rest == "" || rest[0] == '.')
    ensures Whole(digits + rest) == digits
  {
    if digits == "" {
      assert digits + rest == rest;
    } else {
      WholeOf(digits[1..], rest);
      assert (digits + rest)[1..] == digits[1..] + rest;
    }
  }

  lemma {:induction false} WholePrefix(text: string)
    ensures Whole(text) <= text
    ensures |Whole(text)| < |text| ==> text[|Whole(text)|] == '.'
  {
    if text != "" && text[0] != '.' {
      WholePrefix(text[1..]);
    }
  }

  /** A number's text is exactly what the scanner takes. */
  lemma NumberTaken(text: string, rest: string)
    requires IsNumber(text) && Stops(rest)
    ensures NumberEnd(text + rest) == |text|
    ensures (text + rest)[..|text|] == text && (text + rest)[|text|..] == rest
    ensures text != "" && (IsDigit(text[0]) || text[0] == '.')
  {
    hide Whole, IsDigit, DigitRun;
    var whole, fraction := Whole(text), Fraction(text);
    NumberIs(text);
    if |whole| == |text| {
      RunOf(text, rest);
    } else {
      RunOf(whole, "." + (fraction + rest));
      Grouped(whole, ".", fraction + rest);
      PointSplit(whole, fraction, rest);
      RunOf(fraction, rest);
    }
    TakeAndDrop(text, rest);
  }

  /** A number's text is its digits, or its digits around a point. */
  lemma NumberIs(text: string)
    requires IsNumber(text)
    ensures AllDigits(Whole(text)) && AllDigits(Fraction(text)) && !IsDigit('.')
    ensures if |Whole(text)| == |text| then text == Whole(text) else text == Whole(text) + "." + Fraction(text)
    ensures text != "" && (IsDigit(text[0]) || text[0] == '.')
  {
    WholePrefix(text);
  }

  lemma PointSplit(whole: string, fraction: string, rest: string)
    ensures whole + "." + fraction + rest == whole + ("." + (fraction + rest))
    ensures (whole + "." + fraction + rest)[|whole|] == '.'
    ensures (whole + "." + fraction + rest)[|whole| + 1..] == fraction + rest
  {
    TakeAndDrop(whole + ".", fraction + rest);
    Grouped(whole + ".", fraction, rest);
    Grouped(whole, ".", fraction + rest);
  }

  lemma PointText(whole: string, fraction: string)
    requires AllDigits(whole)
    ensures Whole(whole + "." + fraction) == whole && Fraction(whole + "." + fraction) == fraction
  {
    WholeOf(whole, "." + fraction);
    assert whole + ("." + fraction) == whole + "." + fraction;
  }

  lemma PlainText(whole: string)
    requires AllDigits(whole)
    ensures Whole(whole) == whole && Fraction(whole) == ""
  {
    WholeOf(whole, "");
    assert whole + "" == whole;
  }

  lemma EndSplit(s: string)
    ensures var whole := DigitRun(s);
            if whole < |s| && s[whole] == '.' then
              s[..NumberEnd(s)] == s[..whole] + "." + s[whole + 1..][..DigitRun(s[whole + 1..])]
            else s[..NumberEnd(s)] == s[..whole]
  {
    hide DigitRun;
    var whole := DigitRun(s);
    if whole < |s| && s[whole] == '.' {
      var fraction := DigitRun(s[whole + 1..]);
      AroundPoint(s, whole, fraction);
      assert NumberEnd(s) == whole + 1 + fraction;
    }
  }

  lemma AroundPoint(s: string, a: nat, b: nat)
    requires a < |s| && s[a] == '.' && a + 1 + b <= |s|
    ensures s[..a + 1 + b] == s[..a] + "." + s[a + 1..][..b]
  {
  }

  /** The scanner takes digits, perhaps a point, and digits again. */
  lemma NumberShape(s: string)
    ensures AllDigits(Whole(s[..NumberEnd(s)])) && AllDigits(Fraction(s[..NumberEnd(s)]))
    ensures Whole(s[..NumberEnd(s)]) == s[..DigitRun(s)]
  {
    hide Whole, Fraction, DigitRun, NumberEnd;
    EndSplit(s);
    var whole := DigitRun(s);
    if whole < |s| && s[whole] == '.' {
      var after := s[whole + 1..];
      PointText(s[..whole], after[..DigitRun(after)]);
    } else {
      PlainText(s[..whole]);
    }
  }
}
