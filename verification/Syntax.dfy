/** Arithmetic expressions: the trees they denote, and every way to write them down. */
module Syntax {
  import opened Wrappers

  // ---------- trees ----------

  datatype Tree =
    | Num(text: string)
    | Neg(operand: Tree)
    | Sum(left: Tree, right: Tree)
    | Difference(left: Tree, right: Tree)
    | Product(left: Tree, right: Tree)
    | Quotient(left: Tree, right: Tree)

  /** Exact value; absent when some divisor is zero. */
  ghost function Eval(tree: Tree): Option<real> {
    match tree
    case Num(text) => Some(NumberValue(text))
    case Neg(operand) =>
      var x := Eval(operand);
      if x.None? then None else Some(-x.value)
    case Sum(left, right) => Apply(Eval(left), Eval(right), Plus)
    case Difference(left, right) => Apply(Eval(left), Eval(right), Minus)
    case Product(left, right) => Apply(Eval(left), Eval(right), Times)
    case Quotient(left, right) => Apply(Eval(left), Eval(right), Over)
  }

  function Multiply(x: real, y: real): (product: real)
    ensures product == x * y
  {
    x * y
  }

  function Divide(x: real, y: real): (quotient: real)
    requires y != 0.0
    ensures quotient * y == x
  {
    x / y
  }

  datatype Operator = Plus | Minus | Times | Over

  ghost function Apply(x: Option<real>, y: Option<real>, operator: Operator): Option<real> {
    if x.None? || y.None? then None
    else
      match operator
      case Plus => Some(x.value + y.value)
      case Minus => Some(x.value - y.value)
      case Times => Some(Multiply(x.value, y.value))
      case Over => if y.value == 0.0 then None else Some(Divide(x.value, y.value))
  }

  /** The value of a tree by the arithmetic of its operands' values. */
  lemma SumValue(left: Tree, right: Tree, x: real, y: real)
    requires Eval(left) == Some(x) && Eval(right) == Some(y)
    ensures Eval(Neg(left)) == Some(0.0 - x)
    ensures Eval(Sum(left, right)) == Some(x + y) && Eval(Difference(left, right)) == Some(x - y)
  {
    hide Apply, NumberValue;
    SumLaws(x, y);
  }

  lemma ProductValue(left: Tree, right: Tree, x: real, y: real)
    requires Eval(left) == Some(x) && Eval(right) == Some(y)
    ensures Eval(Product(left, right)) == Some(x * y)
  {
    hide Apply, NumberValue;
    ProductLaw(x, y);
  }

  /** Only a zero divisor has no quotient. */
  lemma QuotientValue(left: Tree, right: Tree, x: real, y: real)
    requires Eval(left) == Some(x) && Eval(right) == Some(y)
    ensures Eval(Quotient(left, right)).Some? <==> y != 0.0
    ensures y != 0.0 ==> Eval(Quotient(left, right)).value * y == x
  {
    hide Apply, NumberValue;
    QuotientLaw(x, y);
  }

  lemma SumLaws(x: real, y: real)
    ensures Apply(Some(x), Some(y), Plus) == Some(x + y) && Apply(Some(x), Some(y), Minus) == Some(x - y)
  {
  }

  lemma ProductLaw(x: real, y: real)
    ensures Apply(Some(x), Some(y), Times) == Some(x * y)
  {
    hide Multiply;
  }

  lemma QuotientLaw(x: real, y: real)
    ensures Apply(Some(x), Some(y), Over).Some? <==> y != 0.0
    ensures y != 0.0 ==> Apply(Some(x), Some(y), Over).value * y == x
  {
    hide Divide;
  }

  /** A part without a value leaves the whole without one. */
  lemma NoValueLaws(left: Tree, right: Tree)
    ensures Eval(left).None? ==> Eval(Neg(left)).None?
    ensures Eval(left).None? || Eval(right).None? ==>
              && Eval(Sum(left, right)).None? && Eval(Difference(left, right)).None?
              && Eval(Product(left, right)).None? && Eval(Quotient(left, right)).None?
  {
  }

  // ---------- number texts ----------

  predicate IsDigit(c: char) {
    '0' <= c <= '9'
  }

  function DigitValue(c: char): (value: nat)
    requires IsDigit(c)
    ensures value <= 9 && '0' as int + value == c as int
  {
    c as int - '0' as int
  }

  ghost predicate AllDigits(text: string) {
    forall i | 0 <= i < |text| :: IsDigit(text[i])
  }

  ghost function DigitsValue(digits: string): nat
    requires AllDigits(digits)
  {
    if digits == "" then 0
    else 10 * DigitsValue(digits[..|digits| - 1]) + DigitValue(digits[|digits| - 1])
  }

  ghost function Power10(n: nat): (power: real)
    ensures power > 0.0
  {
    if n == 0 then 1.0 else 10.0 * Power10(n - 1)
  }

  /** The digits before the first point. */
  ghost function Whole(text: string): (whole: string)
    ensures |whole| <= |text|
  {
    if text == "" || text[0] == '.' then "" else [text[0]] + Whole(text[1..])
  }

  ghost function Fraction(text: string): string {
    if |Whole(text)| == |text| then "" else text[|Whole(text)| + 1..]
  }

  /** Digits with at most one point among them, and at least one digit. */
  ghost predicate IsNumber(text: string) {
    AllDigits(Whole(text)) && AllDigits(Fraction(text)) && Whole(text) + Fraction(text) != ""
  }

  ghost function NumberValue(text: string): real {
    if !IsNumber(text) then 0.0
    else DigitsValue(Whole(text)) as real + DigitsValue(Fraction(text)) as real / Power10(|Fraction(text)|)
  }

  lemma Power10Step(n: nat)
    ensures Power10(0) == 1.0 && Power10(n + 1) == 10.0 * Power10(n)
  {
  }

  /** Decimal notation: a digit on the right makes ten of what stands before it and adds itself. */
  lemma DigitsBehind(digits: string, c: char)
    requires AllDigits(digits) && IsDigit(c)
    ensures DigitsValue(digits + [c]) == DigitsValue(digits) * 10 + (c as int - '0' as int)
  {
    assert (digits + [c])[..|digits|] == digits;
  }

  lemma {:induction false} WholeOf(whole: string, rest: string)
    requires AllDigits(whole) && (rest == "" || rest[0] == '.')
    ensures Whole(whole + rest) == whole
    ensures Fraction(whole + rest) == if rest == "" then "" else rest[1..]
  {
    if whole != "" {
      assert (whole + rest)[1..] == whole[1..] + rest;
      WholeOf(whole[1..], rest);
    }
    assert (whole + rest)[|whole|..] == rest;
  }

  /** Digits alone stand for an integer; each digit behind the point divides by ten. */
  lemma IntegerValue(whole: string)
    requires AllDigits(whole) && whole != ""
    ensures NumberValue(whole) == DigitsValue(whole) as real
  {
    hide DigitsValue, Whole;
    WholeOf(whole, "");
    assert whole + "" == whole;
    assert DigitsValue("") == 0 && Power10(0) == 1.0 by {
      NoDigits();
    }
  }

  lemma NoDigits()
    ensures DigitsValue("") == 0 && Power10(0) == 1.0
  {
  }

  lemma PointValue(whole: string, fraction: string, w: nat, f: nat, power: real)
    requires AllDigits(whole) && AllDigits(fraction) && whole + fraction != ""
    requires w == DigitsValue(whole) && f == DigitsValue(fraction) && power == Power10(|fraction|)
    ensures NumberValue(whole + "." + fraction) == w as real + f as real / power
  {
    hide DigitsValue, Whole, Power10, Fraction;
    WholeOf(whole, "." + fraction);
    assert whole + "." + fraction == whole + ("." + fraction);
    assert ("." + fraction)[1..] == fraction;
  }

  lemma IntegerExample()
    ensures DigitsValue("3") == 3 && DigitsValue("42") == 42 && NumberValue("42") == 42.0
  {
    assert "" + ['4'] == "4" && "4" + ['2'] == "42" && "" + ['3'] == "3";
    NoDigits();
    DigitsBehind("", '3');
    DigitsBehind("", '4');
    DigitsBehind("4", '2');
    IntegerValue("42");
  }

  lemma PointExample()
    ensures NumberValue("3.25") == 3.25
  {
    hide NumberValue, DigitsValue, Power10;
    assert "" + ['2'] == "2" && "2" + ['5'] == "25" && "3" + "." + "25" == "3.25";
    NoDigits();
    IntegerExample();
    DigitsBehind("", '2');
    DigitsBehind("2", '5');
    Power10Step(0);
    Power10Step(1);
    PointValue("3", "25", 3, 25, 100.0);
  }

  // ---------- written expressions ----------

  /** The grammar, with the number of spaces before each token. */
  datatype Expr = Expr(first: Term, adds: Adds)
  datatype Adds = NoAdds | AndAdd(pad: nat, plus: bool, term: Term, more: Adds)
  datatype Term = Term(first: Factor, muls: Muls)
  datatype Muls = NoMuls | AndMul(pad: nat, times: bool, factor: Factor, more: Muls)
  datatype Factor =
    | Number(pad: nat, text: string)
    | Negated(pad: nat, factor: Factor)
    | Paren(pad: nat, inner: Expr, close: nat)

  function Spaces(n: nat): (spaces: string)
    ensures |spaces| == n
    ensures forall i | 0 <= i < n :: spaces[i] == ' '
  {
    seq(n, i => ' ')
  }

  ghost function PrintExpr(e: Expr): string {
    PrintTerm(e.first) + PrintAdds(e.adds)
  }

  ghost function PrintAdds(adds: Adds): string {
    match adds
    case NoAdds => ""
    case AndAdd(pad, plus, term, more) =>
      Spaces(pad) + ((if plus then "+" else "-") + (PrintTerm(term) + PrintAdds(more)))
  }

  ghost function PrintTerm(t: Term): string {
    PrintFactor(t.first) + PrintMuls(t.muls)
  }

  ghost function PrintMuls(muls: Muls): string {
    match muls
    case NoMuls => ""
    case AndMul(pad, times, factor, more) =>
      Spaces(pad) + ((if times then "*" else "/") + (PrintFactor(factor) + PrintMuls(more)))
  }

  ghost function PrintFactor(f: Factor): string {
    match f
    case Number(pad, text) => Spaces(pad) + text
    case Negated(pad, factor) => Spaces(pad) + ("-" + PrintFactor(factor))
    case Paren(pad, inner, close) => Spaces(pad) + ("(" + (PrintExpr(inner) + (Spaces(close) + ")")))
  }

  /** Every number text is a number. */
  ghost predicate LegalExpr(e: Expr) {
    LegalTerm(e.first) && LegalAdds(e.adds)
  }

  ghost predicate LegalAdds(adds: Adds) {
    adds.AndAdd? ==> LegalTerm(adds.term) && LegalAdds(adds.more)
  }

  ghost predicate LegalTerm(t: Term) {
    LegalFactor(t.first) && LegalMuls(t.muls)
  }

  ghost predicate LegalMuls(muls: Muls) {
    muls.AndMul? ==> LegalFactor(muls.factor) && LegalMuls(muls.more)
  }

  ghost predicate LegalFactor(f: Factor) {
    match f
    case Number(_, text) => IsNumber(text)
    case Negated(_, factor) => LegalFactor(factor)
    case Paren(_, inner, _) => LegalExpr(inner)
  }

  // ---------- what a written expression means ----------

  /** Chains associate to the left. */
  ghost function TreeExpr(e: Expr): Tree {
    TreeAdds(TreeTerm(e.first), e.adds)
  }

  ghost function TreeAdds(left: Tree, adds: Adds): Tree
    decreases adds
  {
    match adds
    case NoAdds => left
    case AndAdd(_, plus, term, more) =>
      TreeAdds(if plus then Sum(left, TreeTerm(term)) else Difference(left, TreeTerm(term)), more)
  }

  ghost function TreeTerm(t: Term): Tree {
    TreeMuls(TreeFactor(t.first), t.muls)
  }

  ghost function TreeMuls(left: Tree, muls: Muls): Tree
    decreases muls
  {
    match muls
    case NoMuls => left
    case AndMul(_, times, factor, more) =>
      TreeMuls(if times then Product(left, TreeFactor(factor)) else Quotient(left, TreeFactor(factor)), more)
  }

  ghost function TreeFactor(f: Factor): Tree {
    match f
    case Number(_, text) => Num(text)
    case Negated(_, factor) => Neg(TreeFactor(factor))
    case Paren(_, inner, _) => TreeExpr(inner)
  }

  // ---------- spacing ----------

  /** The expression without the spaces before its tokens. */
  ghost function Squeezed(e: Expr): Expr {
    Expr(SqueezedTerm(e.first), SqueezedAdds(e.adds))
  }

  ghost function SqueezedAdds(adds: Adds): Adds {
    match adds
    case NoAdds => NoAdds
    case AndAdd(_, plus, term, more) => AndAdd(0, plus, SqueezedTerm(term), SqueezedAdds(more))
  }

  ghost function SqueezedTerm(t: Term): Term {
    Term(SqueezedFactor(t.first), SqueezedMuls(t.muls))
  }

  ghost function SqueezedMuls(muls: Muls): Muls {
    match muls
    case NoMuls => NoMuls
    case AndMul(_, times, factor, more) => AndMul(0, times, SqueezedFactor(factor), SqueezedMuls(more))
  }

  ghost function SqueezedFactor(f: Factor): Factor {
    match f
    case Number(_, text) => Number(0, text)
    case Negated(_, factor) => Negated(0, SqueezedFactor(factor))
    case Paren(_, inner, _) => Paren(0, Squeezed(inner), 0)
  }

  /** The same tokens, spaced in any way. */
  ghost predicate Respaced(a: Expr, b: Expr) {
    Squeezed(a) == Squeezed(b)
  }

  lemma {:induction false} SqueezedMeans(e: Expr)
    ensures TreeExpr(Squeezed(e)) == TreeExpr(e) && LegalExpr(Squeezed(e)) == LegalExpr(e)
    decreases e, 1
  {
    SqueezedTermMeans(e.first);
    SqueezedAddsMean(TreeTerm(e.first), e.adds);
  }

  lemma {:induction false} SqueezedAddsMean(left: Tree, adds: Adds)
    ensures TreeAdds(left, SqueezedAdds(adds)) == TreeAdds(left, adds)
    ensures LegalAdds(SqueezedAdds(adds)) == LegalAdds(adds)
    decreases adds, 0
  {
    if adds.AndAdd? {
      SqueezedTermMeans(adds.term);
      var right := TreeTerm(adds.term);
      SqueezedAddsMean(if adds.plus then Sum(left, right) else Difference(left, right), adds.more);
    }
  }

  lemma {:induction false} SqueezedTermMeans(t: Term)
    ensures TreeTerm(SqueezedTerm(t)) == TreeTerm(t) && LegalTerm(SqueezedTerm(t)) == LegalTerm(t)
    decreases t, 1
  {
    SqueezedFactorMeans(t.first);
    SqueezedMulsMean(TreeFactor(t.first), t.muls);
  }

  lemma {:induction false} SqueezedMulsMean(left: Tree, muls: Muls)
    ensures TreeMuls(left, SqueezedMuls(muls)) == TreeMuls(left, muls)
    ensures LegalMuls(SqueezedMuls(muls)) == LegalMuls(muls)
    decreases muls, 0
  {
    if muls.AndMul? {
      SqueezedFactorMeans(muls.factor);
      var right := TreeFactor(muls.factor);
      SqueezedMulsMean(if muls.times then Product(left, right) else Quotient(left, right), muls.more);
    }
  }

  lemma {:induction false} SqueezedFactorMeans(f: Factor)
    ensures TreeFactor(SqueezedFactor(f)) == TreeFactor(f) && LegalFactor(SqueezedFactor(f)) == LegalFactor(f)
    decreases f, 0
  {
    match f
    case Number(_, _) =>
    case Negated(_, factor) => SqueezedFactorMeans(factor);
    case Paren(_, inner, _) => SqueezedMeans(inner);
  }

  // ---------- writing a tree with the fewest parentheses ----------

  ghost predicate LegalTree(tree: Tree) {
    match tree
    case Num(text) => IsNumber(text)
    case Neg(operand) => LegalTree(operand)
    case Sum(left, right) => LegalTree(left) && LegalTree(right)
    case Difference(left, right) => LegalTree(left) && LegalTree(right)
    case Product(left, right) => LegalTree(left) && LegalTree(right)
    case Quotient(left, right) => LegalTree(left) && LegalTree(right)
  }

  ghost function Append(adds: Adds, plus: bool, term: Term): Adds {
    match adds
    case NoAdds => AndAdd(0, plus, term, NoAdds)
    case AndAdd(pad, p, t, more) => AndAdd(pad, p, t, Append(more, plus, term))
  }

  ghost function AppendMul(muls: Muls, times: bool, factor: Factor): Muls {
    match muls
    case NoMuls => AndMul(0, times, factor, NoMuls)
    case AndMul(pad, t, f, more) => AndMul(pad, t, f, AppendMul(more, times, factor))
  }

  ghost function Chain(left: Expr, plus: bool, right: Term): Expr {
    left.(adds := Append(left.adds, plus, right))
  }

  ghost function ChainMul(left: Term, times: bool, right: Factor): Term {
    left.(muls := AppendMul(left.muls, times, right))
  }

  /** No parentheses but those precedence and associativity ask for. */
  ghost function AsExpr(tree: Tree): Expr
    decreases tree, 2
  {
    match tree
    case Sum(left, right) => Chain(AsExpr(left), true, AsTerm(right))
    case Difference(left, right) => Chain(AsExpr(left), false, AsTerm(right))
    case _ => Expr(AsTerm(tree), NoAdds)
  }

  ghost function AsTerm(tree: Tree): Term
    decreases tree, 1
  {
    match tree
    case Product(left, right) => ChainMul(AsTerm(left), true, AsFactor(right))
    case Quotient(left, right) => ChainMul(AsTerm(left), false, AsFactor(right))
    case _ => Term(AsFactor(tree), NoMuls)
  }

  ghost function AsFactor(tree: Tree): Factor
    decreases tree, 0
  {
    match tree
    case Num(text) => Number(0, text)
    case Neg(operand) => Negated(0, AsFactor(operand))
    case Sum(left, right) => Paren(0, Chain(AsExpr(left), true, AsTerm(right)), 0)
    case Difference(left, right) => Paren(0, Chain(AsExpr(left), false, AsTerm(right)), 0)
    case Product(left, right) => Paren(0, Expr(ChainMul(AsTerm(left), true, AsFactor(right)), NoAdds), 0)
    case Quotient(left, right) => Paren(0, Expr(ChainMul(AsTerm(left), false, AsFactor(right)), NoAdds), 0)
  }

  lemma {:induction false} AppendTree(left: Tree, adds: Adds, plus: bool, term: Term)
    ensures TreeAdds(left, Append(adds, plus, term))
            == if plus then Sum(TreeAdds(left, adds), TreeTerm(term)) else Difference(TreeAdds(left, adds), TreeTerm(term))
    ensures LegalAdds(adds) && LegalTerm(term) ==> LegalAdds(Append(adds, plus, term))
    decreases adds
  {
    if adds.AndAdd? {
      var next := if adds.plus then Sum(left, TreeTerm(adds.term)) else Difference(left, TreeTerm(adds.term));
      AppendTree(next, adds.more, plus, term);
    }
  }

  lemma {:induction false} AppendMulTree(left: Tree, muls: Muls, times: bool, factor: Factor)
    ensures TreeMuls(left, AppendMul(muls, times, factor))
            == if times then Product(TreeMuls(left, muls), TreeFactor(factor))
               else Quotient(TreeMuls(left, muls), TreeFactor(factor))
    ensures LegalMuls(muls) && LegalFactor(factor) ==> LegalMuls(AppendMul(muls, times, factor))
    decreases muls
  {
    if muls.AndMul? {
      var next := if muls.times then Product(left, TreeFactor(muls.factor)) else Quotient(left, TreeFactor(muls.factor));
      AppendMulTree(next, muls.more, times, factor);
    }
  }

  lemma ChainTree(left: Expr, plus: bool, right: Term)
    ensures TreeExpr(Chain(left, plus, right))
            == if plus then Sum(TreeExpr(left), TreeTerm(right)) else Difference(TreeExpr(left), TreeTerm(right))
    ensures LegalExpr(left) && LegalTerm(right) ==> LegalExpr(Chain(left, plus, right))
  {
    AppendTree(TreeTerm(left.first), left.adds, plus, right);
  }

  lemma ChainMulTree(left: Term, times: bool, right: Factor)
    ensures TreeTerm(ChainMul(left, times, right))
            == if times then Product(TreeTerm(left), TreeFactor(right)) else Quotient(TreeTerm(left), TreeFactor(right))
    ensures LegalTerm(left) && LegalFactor(right) ==> LegalTerm(ChainMul(left, times, right))
  {
    AppendMulTree(TreeFactor(left.first), left.muls, times, right);
  }

  /** The printer loses nothing: what it writes denotes the tree it was given. */
  lemma {:induction false} PrintedTree(tree: Tree)
    requires LegalTree(tree)
    ensures LegalExpr(AsExpr(tree)) && TreeExpr(AsExpr(tree)) == tree
    ensures LegalTerm(AsTerm(tree)) && TreeTerm(AsTerm(tree)) == tree
    ensures LegalFactor(AsFactor(tree)) && TreeFactor(AsFactor(tree)) == tree
  {
    hide Chain, ChainMul, IsNumber;
    match tree
    case Num(_) =>
      assert TreeTerm(AsTerm(tree)) == tree && LegalTerm(AsTerm(tree));
    case Neg(operand) =>
      PrintedTree(operand);
      assert TreeFactor(AsFactor(tree)) == tree && LegalFactor(AsFactor(tree));
      assert TreeTerm(AsTerm(tree)) == tree && LegalTerm(AsTerm(tree));
    case Sum(left, right) =>
      PrintedTree(left);
      PrintedTree(right);
      ChainTree(AsExpr(left), true, AsTerm(right));
    case Difference(left, right) =>
      PrintedTree(left);
      PrintedTree(right);
      ChainTree(AsExpr(left), false, AsTerm(right));
    case Product(left, right) =>
      PrintedTree(left);
      PrintedTree(right);
      ChainMulTree(AsTerm(left), true, AsFactor(right));
    case Quotient(left, right) =>
      PrintedTree(left);
      PrintedTree(right);
      ChainMulTree(AsTerm(left), false, AsFactor(right));
  }

  // ---------- no way of writing a tree has fewer parentheses ----------

  ghost function Parens(e: Expr): nat {
    ParensTerm(e.first) + ParensAdds(e.adds)
  }

  ghost function ParensAdds(adds: Adds): nat {
    if adds.NoAdds? then 0 else ParensTerm(adds.term) + ParensAdds(adds.more)
  }

  ghost function ParensTerm(t: Term): nat {
    ParensFactor(t.first) + ParensMuls(t.muls)
  }

  ghost function ParensMuls(muls: Muls): nat {
    if muls.NoMuls? then 0 else ParensFactor(muls.factor) + ParensMuls(muls.more)
  }

  ghost function ParensFactor(f: Factor): nat {
    match f
    case Number(_, _) => 0
    case Negated(_, factor) => ParensFactor(factor)
    case Paren(_, inner, _) => 1 + Parens(inner)
  }

  lemma {:induction false} AppendParens(adds: Adds, plus: bool, term: Term)
    ensures ParensAdds(Append(adds, plus, term)) == ParensAdds(adds) + ParensTerm(term)
  {
    if adds.AndAdd? {
      AppendParens(adds.more, plus, term);
    }
  }

  lemma {:induction false} AppendMulParens(muls: Muls, times: bool, factor: Factor)
    ensures ParensMuls(AppendMul(muls, times, factor)) == ParensMuls(muls) + ParensFactor(factor)
  {
    if muls.AndMul? {
      AppendMulParens(muls.more, times, factor);
    }
  }

  lemma ChainParens(left: Expr, plus: bool, right: Term)
    ensures Parens(Chain(left, plus, right)) == Parens(left) + ParensTerm(right)
  {
    AppendParens(left.adds, plus, right);
  }

  lemma ChainMulParens(left: Term, times: bool, right: Factor)
    ensures ParensTerm(ChainMul(left, times, right)) == ParensTerm(left) + ParensFactor(right)
  {
    AppendMulParens(left.muls, times, right);
  }

  /** What each level costs for the same tree. */
  lemma ParensByLevel(tree: Tree)
    ensures Parens(AsExpr(tree)) <= ParensTerm(AsTerm(tree)) <= ParensFactor(AsFactor(tree)) <= 1 + Parens(AsExpr(tree))
    ensures tree.Sum? ==> Parens(AsExpr(tree)) == Parens(AsExpr(tree.left)) + ParensTerm(AsTerm(tree.right))
    ensures tree.Difference? ==> Parens(AsExpr(tree)) == Parens(AsExpr(tree.left)) + ParensTerm(AsTerm(tree.right))
    ensures tree.Product? ==> ParensTerm(AsTerm(tree)) == ParensTerm(AsTerm(tree.left)) + ParensFactor(AsFactor(tree.right))
    ensures tree.Quotient? ==> ParensTerm(AsTerm(tree)) == ParensTerm(AsTerm(tree.left)) + ParensFactor(AsFactor(tree.right))
  {
    hide Chain, ChainMul;
    match tree
    case Num(_) =>
    case Neg(_) =>
    case Sum(left, right) => ChainParens(AsExpr(left), true, AsTerm(right));
    case Difference(left, right) => ChainParens(AsExpr(left), false, AsTerm(right));
    case Product(left, right) => ChainMulParens(AsTerm(left), true, AsFactor(right));
    case Quotient(left, right) => ChainMulParens(AsTerm(left), false, AsFactor(right));
  }

  lemma {:induction false} FewestExpr(e: Expr)
    ensures Parens(AsExpr(TreeExpr(e))) <= Parens(e)
    decreases e, 1
  {
    FewestTerm(e.first);
    ParensByLevel(TreeTerm(e.first));
    FewestAdds(TreeTerm(e.first), e.adds);
  }

  lemma {:induction false} FewestAdds(left: Tree, adds: Adds)
    ensures Parens(AsExpr(TreeAdds(left, adds))) <= Parens(AsExpr(left)) + ParensAdds(adds)
    decreases adds, 0
  {
    hide AsExpr, AsTerm, AsFactor;
    if adds.AndAdd? {
      var next := if adds.plus then Sum(left, TreeTerm(adds.term)) else Difference(left, TreeTerm(adds.term));
      FewestTerm(adds.term);
      ParensByLevel(next);
      FewestAdds(next, adds.more);
    }
  }

  lemma {:induction false} FewestTerm(t: Term)
    ensures ParensTerm(AsTerm(TreeTerm(t))) <= ParensTerm(t)
    decreases t, 1
  {
    FewestFactor(t.first);
    ParensByLevel(TreeFactor(t.first));
    FewestMuls(TreeFactor(t.first), t.muls);
  }

  lemma {:induction false} FewestMuls(left: Tree, muls: Muls)
    ensures ParensTerm(AsTerm(TreeMuls(left, muls))) <= ParensTerm(AsTerm(left)) + ParensMuls(muls)
    decreases muls, 0
  {
    hide AsExpr, AsTerm, AsFactor;
    if muls.AndMul? {
      var next := if muls.times then Product(left, TreeFactor(muls.factor)) else Quotient(left, TreeFactor(muls.factor));
      FewestFactor(muls.factor);
      ParensByLevel(next);
      FewestMuls(next, muls.more);
    }
  }

  lemma {:induction false} FewestFactor(f: Factor)
    ensures ParensFactor(AsFactor(TreeFactor(f))) <= ParensFactor(f)
    decreases f, 1
  {
    match f
    case Number(_, _) =>
    case Negated(_, factor) => FewestFactor(factor);
    case Paren(_, inner, _) =>
      FewestExpr(inner);
      ParensByLevel(TreeExpr(inner));
  }

  /** The printed form has the fewest parentheses of all ways to write the tree. */
  lemma FewestParens(tree: Tree, e: Expr)
    requires TreeExpr(e) == tree
    ensures Parens(AsExpr(tree)) <= Parens(e)
  {
    FewestExpr(e);
  }
}
