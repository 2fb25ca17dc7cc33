/** Operator precedence and associativity as the parser's recursion fixes them, stated
    through a printer that writes a tree with the fewest parentheses that grouping needs:
    `+ -` loosest and left-associative, then `* /` left-associative, then unary sign and
    `^` (whose base is a literal or a parenthesised expression and whose exponent is a
    whole factor, so `^` is right-associative and `-2^2` is `-(2^2)`). The main theorem
    is that parsing the printed text, with any trailing spaces, gives the tree back. */
module Precedence {
  import opened Syntax
  import opened Grammar

  /** Binding strength of a tree's top operator: 0 sums, 1 products, 2 sign and power,
      3 literals. */
  function Prec(e: Expr): nat {
    match e
    case Add(_, _) => 0
    case Sub(_, _) => 0
    case Mul(_, _) => 1
    case Div(_, _) => 1
    case Neg(_) => 2
    case Pow(_, _) => 2
    case Num(_) => 3
  }

  /** Text of `e` where a tree of strength at least `level` is expected: parenthesised
      exactly when `e` binds more loosely. */
  function Show(e: Expr, level: nat): string
    decreases e, 1
  {
    if Prec(e) < level then "(" + ShowBare(e) + ")" else ShowBare(e)
  }

  /** Text of `e` without parentheses around its top operator. */
  function ShowBare(e: Expr): string
    decreases e, 0
  {
    match e
    case Num(l) => l
    case Neg(a) => "-" + Show(a, 2)
    case Add(a, b) => Show(a, 0) + "+" + Show(b, 1)
    case Sub(a, b) => Show(a, 0) + "-" + Show(b, 1)
    case Mul(a, b) => Show(a, 1) + "*" + Show(b, 2)
    case Div(a, b) => Show(a, 1) + "/" + Show(b, 2)
    case Pow(a, b) => Show(a, 3) + "^" + Show(b, 2)
  }

  /** How tightly a binary operator character binds; 0 for any other character. */
  function Binds(c: char): nat {
    if c == '+' || c == '-' then 1
    else if c == '*' || c == '/' then 2
    else if c == '^' then 3
    else 0
  }

  /** `t` occurs in `s` at offset `i`. */
  predicate At(s: string, i: nat, t: string) {
    i + |t| <= |s| && s[i..i + |t|] == t
  }

  /** Tree `e`, printed at `level`, occupies `s` from offset `i` up to offset `k`. */
  predicate Laid(e: Expr, level: nat, s: string, i: nat, k: nat) {
    WellFormed(e) && At(s, i, Show(e, level)) && k == i + |Show(e, level)|
  }

  /** What follows offset `k` ends a tree printed at `level`: no literal character
      directly after it, and the next non-space character is no operator that binds
      more tightly than `level` allows. */
  predicate Stops(s: string, k: nat, level: nat)
    requires k <= |s|
  {
    && (k == |s| || !IsLiteralChar(s[k]))
    && var j := SkipSpaces(s, k); j == |s| || Binds(s[j]) <= level
  }

  lemma AtConcat(s: string, i: nat, a: string, b: string)
    requires At(s, i, a + b)
    ensures At(s, i, a) && At(s, i + |a|, b)
  {
    assert s[i..i + |a|] == s[i..i + |a| + |b|][..|a|];
    assert s[i + |a|..i + |a| + |b|] == s[i..i + |a| + |b|][|a|..];
  }

  /** A literal or parenthesised text starts with a digit, a dot or '('. */
  lemma PrimaryStart(e: Expr)
    requires WellFormed(e)
    ensures |Show(e, 3)| > 0
    ensures Show(e, 3)[0] == '(' || IsLiteralChar(Show(e, 3)[0])
  {
    if e.Num? {
      var c :| c in e.lexeme && IsDigit(c);
    }
  }

  /** Once nothing binding more tightly than a sum follows, the product loop stops. */
  lemma TermTailStops(s: string, acc: Expr, k: nat)
    requires k <= |s| && Stops(s, k, 1)
    ensures TermTail(s, acc, SkipSpaces(s, k)) == Ok((acc, SkipSpaces(s, k)))
  {
  }

  /** Once no operator follows, the sum loop stops. */
  lemma ExprTailStops(s: string, acc: Expr, k: nat)
    requires k <= |s| && Stops(s, k, 0)
    ensures ExprTail(s, acc, SkipSpaces(s, k)) == Ok((acc, SkipSpaces(s, k)))
  {
  }

  // One-step facts about the grammar, used by the induction below.

  lemma PrimaryLiteralStep(s: string, i: nat, k: nat)
    requires i < k <= |s| && forall m :: i <= m < k ==> IsLiteralChar(s[m])
    requires k == |s| || !IsLiteralChar(s[k])
    requires ValidLiteral(s[i..k])
    ensures Primary(s, i) == Ok((Num(s[i..k]), k))
  {
    ScanLiteralTo(s, i, k);
  }

  lemma PrimaryParenStep(s: string, i: nat, e: Expr, kc: nat)
    requires i < |s| && s[i] == '(' && Expression(s, i + 1) == Ok((e, kc))
    requires kc < |s| && s[kc] == ')'
    ensures Primary(s, i) == Ok((e, kc + 1))
  {
    assert Eat(s, i, '(') == (true, i + 1);
    assert Eat(s, kc, ')') == (true, kc + 1);
  }

  lemma FactorNegStep(s: string, i: nat, a: Expr, j: nat)
    requires i < |s| && s[i] == '-' && Factor(s, i + 1) == Ok((a, j))
    ensures Factor(s, i) == Ok((Neg(a), j))
  {
    assert Eat(s, i, '+') == (false, i);
    assert Eat(s, i, '-') == (true, i + 1);
  }

  lemma FactorOfPrimary(s: string, i: nat, a: Expr, k: nat)
    requires i < |s| && s[i] != ' ' && s[i] != '+' && s[i] != '-'
    requires Primary(s, i) == Ok((a, k))
    ensures Factor(s, i) == PowerTail(s, a, k)
  {
    assert Eat(s, i, '+') == (false, i);
    assert Eat(s, i, '-') == (false, i);
  }

  lemma FactorPowStep(s: string, i: nat, a: Expr, ka: nat, b: Expr, j: nat)
    requires i < |s| && s[i] != ' ' && s[i] != '+' && s[i] != '-'
    requires Primary(s, i) == Ok((a, ka)) && ka < |s| && s[ka] == '^'
    requires Factor(s, ka + 1) == Ok((b, j))
    ensures Factor(s, i) == Ok((Pow(a, b), j))
  {
    assert Eat(s, i, '+') == (false, i);
    assert Eat(s, i, '-') == (false, i);
    assert Eat(s, ka, '^') == (true, ka + 1);
  }

  lemma FactorPrimaryStep(s: string, i: nat, a: Expr, k: nat)
    requires i < |s| && s[i] != ' ' && s[i] != '+' && s[i] != '-'
    requires Primary(s, i) == Ok((a, k)) && k <= |s|
    requires SkipSpaces(s, k) == |s| || s[SkipSpaces(s, k)] != '^'
    ensures Factor(s, i) == Ok((a, SkipSpaces(s, k)))
  {
    assert Eat(s, i, '+') == (false, i);
    assert Eat(s, i, '-') == (false, i);
    assert Eat(s, k, '^') == (false, SkipSpaces(s, k));
  }

  lemma TermMulStep(s: string, ka: nat, a: Expr, b: Expr, j: nat)
    requires ka < |s| && s[ka] == '*' && Factor(s, ka + 1) == Ok((b, j))
    ensures TermTail(s, a, ka) == TermTail(s, Mul(a, b), j)
  {
    assert Eat(s, ka, '*') == (true, ka + 1);
  }

  lemma TermDivStep(s: string, ka: nat, a: Expr, b: Expr, j: nat)
    requires ka < |s| && s[ka] == '/' && Factor(s, ka + 1) == Ok((b, j))
    ensures TermTail(s, a, ka) == TermTail(s, Div(a, b), j)
  {
    assert Eat(s, ka, '*') == (false, ka);
    assert Eat(s, ka, '/') == (true, ka + 1);
  }

  lemma ExprAddStep(s: string, ka: nat, a: Expr, b: Expr, j: nat)
    requires ka < |s| && s[ka] == '+' && Term(s, ka + 1) == Ok((b, j))
    ensures ExprTail(s, a, ka) == ExprTail(s, Add(a, b), j)
  {
    assert Eat(s, ka, '+') == (true, ka + 1);
  }

  lemma ExprSubStep(s: string, ka: nat, a: Expr, b: Expr, j: nat)
    requires ka < |s| && s[ka] == '-' && Term(s, ka + 1) == Ok((b, j))
    ensures ExprTail(s, a, ka) == ExprTail(s, Sub(a, b), j)
  {
    assert Eat(s, ka, '+') == (false, ka);
    assert Eat(s, ka, '-') == (true, ka + 1);
  }

  /** Text `x op y` at offset `i`: where each part sits. */
  lemma SplitAround(s: string, i: nat, x: string, op: char, y: string)
    requires At(s, i, x + [op] + y) && op != ' '
    ensures i + |x| < |s| && s[i + |x|] == op && SkipSpaces(s, i + |x|) == i + |x|
    ensures At(s, i, x) && At(s, i + |x| + 1, y)
  {
    AtConcat(s, i, x + [op], y);
    AtConcat(s, i, x, [op]);
  }

  lemma ShowBareAt(e: Expr, level: nat)
    requires Prec(e) >= level
    ensures Show(e, level) == ShowBare(e)
  {
  }

  lemma ShowParenAt(e: Expr, level: nat)
    requires Prec(e) < level
    ensures Show(e, level) == "(" + ShowBare(e) + ")"
  {
  }

  // The induction below follows the grammar: one lemma per rule, each dispatching on the
  // tree's top constructor to a lemma for that case, so that every proof obligation
  // concerns a known constructor.

  /** The printed text of a literal or parenthesised tree, ending at `k`, is recognised
      as a primary. */
  lemma {:induction false} PrimaryParses(e: Expr, s: string, i: nat, k: nat)
    requires Laid(e, 3, s, i, k) && Stops(s, k, 3)
    ensures Primary(s, i) == Ok((e, k))
    decreases e, if Prec(e) < 3 then 1 else 0, 0, 2
  {
    match e
    case Num(l) => LiteralParses(l, s, i, k);
    case _ => ParenParses(e, s, i, k);
  }

  lemma LiteralParses(l: string, s: string, i: nat, k: nat)
    requires Laid(Num(l), 3, s, i, k) && Stops(s, k, 3)
    ensures Primary(s, i) == Ok((Num(l), k))
  {
    assert Show(Num(l), 3) == l;
    assert s[i..k] == l;
    forall m | i <= m < k
      ensures IsLiteralChar(s[m])
    {
      assert s[m] == l[m - i];
    }
    var c :| c in l && IsDigit(c);
    PrimaryLiteralStep(s, i, k);
  }

  lemma {:induction false} ParenParses(e: Expr, s: string, i: nat, k: nat)
    requires !e.Num? && Laid(e, 3, s, i, k) && Stops(s, k, 3)
    ensures Primary(s, i) == Ok((e, k))
    decreases e, if Prec(e) < 3 then 1 else 0, 0, 1
  {
    var kc := i + 1 + |Show(e, 0)|;
    assert Laid(e, 0, s, i + 1, kc) && s[i] == '(' && kc < |s| && s[kc] == ')' && k == kc + 1 by {
      var inner := ShowBare(e);
      ShowParenAt(e, 3);
      ShowBareAt(e, 0);
      AtConcat(s, i, "(" + inner, ")");
      AtConcat(s, i, "(", inner);
    }
    ParenCombine(e, s, i, kc);
  }

  lemma {:induction false} ParenCombine(e: Expr, s: string, i: nat, kc: nat)
    requires !e.Num? && Laid(e, 0, s, i + 1, kc) && i < |s| && s[i] == '(' && kc < |s| && s[kc] == ')'
    ensures Primary(s, i) == Ok((e, kc + 1))
    decreases e, if Prec(e) < 3 then 1 else 0, 0, 0
  {
    assert SkipSpaces(s, kc) == kc;
    assert Expression(s, i + 1) == Ok((e, kc)) by {
      ExprParses(e, s, i + 1, kc);
      ExprTailStops(s, e, kc);
    }
    PrimaryParenStep(s, i, e, kc);
  }

  /** The printed text of a tree at factor strength, ending at `k`, is recognised as a
      factor. */
  lemma {:induction false} FactorParses(e: Expr, s: string, i: nat, k: nat)
    requires Laid(e, 2, s, i, k) && Stops(s, k, 2)
    ensures Factor(s, i) == Ok((e, SkipSpaces(s, k)))
    decreases e, if Prec(e) < 2 then 1 else 0, 1, 2
  {
    match e
    case Neg(a) => NegParses(a, s, i, k);
    case Pow(a, b) => PowParses(a, b, s, i, k);
    case _ => PrimaryFactorParses(e, s, i, k);
  }

  lemma {:induction false} NegParses(a: Expr, s: string, i: nat, k: nat)
    requires Laid(Neg(a), 2, s, i, k) && Stops(s, k, 2)
    ensures Factor(s, i) == Ok((Neg(a), SkipSpaces(s, k)))
    decreases Neg(a), 0, 1, 0
  {
    var sa := Show(a, 2);
    assert Show(Neg(a), 2) == "-" + sa;
    AtConcat(s, i, "-", sa);
    assert s[i] == '-';
    assert Factor(s, i + 1) == Ok((a, SkipSpaces(s, k))) by {
      FactorParses(a, s, i + 1, k);
    }
    FactorNegStep(s, i, a, SkipSpaces(s, k));
  }

  lemma {:induction false} PowParses(a: Expr, b: Expr, s: string, i: nat, k: nat)
    requires Laid(Pow(a, b), 2, s, i, k) && Stops(s, k, 2)
    ensures Factor(s, i) == Ok((Pow(a, b), SkipSpaces(s, k)))
    decreases Pow(a, b), 0, 1, 1
  {
    var ka := i + |Show(a, 3)|;
    PowPartsLaid(a, b, s, i, ka, k);
    PowCaretAt(a, b, s, i, ka, k);
    PowCombine(a, b, s, i, ka, k);
  }

  /** The base and the exponent of a printed power, each in its place. */
  lemma PowPartsLaid(a: Expr, b: Expr, s: string, i: nat, ka: nat, k: nat)
    requires Laid(Pow(a, b), 2, s, i, k) && ka == i + |Show(a, 3)|
    ensures Laid(a, 3, s, i, ka) && Laid(b, 2, s, ka + 1, k)
  {
    ShowPow(a, b);
    CaretSplit(s, i, Show(Pow(a, b), 2), Show(a, 3), Show(b, 2));
  }

  /** The caret of a printed power, and the first character of its base. */
  lemma PowCaretAt(a: Expr, b: Expr, s: string, i: nat, ka: nat, k: nat)
    requires Laid(Pow(a, b), 2, s, i, k) && ka == i + |Show(a, 3)|
    ensures ka < |s| && s[ka] == '^' && SkipSpaces(s, ka) == ka
    ensures i < |s| && s[i] != ' ' && s[i] != '+' && s[i] != '-'
  {
    ShowPow(a, b);
    CaretSplit(s, i, Show(Pow(a, b), 2), Show(a, 3), Show(b, 2));
    PrimaryStart(a);
    PrimaryAt(s, i, Show(a, 3));
  }

  lemma ShowPow(a: Expr, b: Expr)
    ensures Show(Pow(a, b), 2) == Show(a, 3) + ['^'] + Show(b, 2)
  {
  }

  /** Text `t`, which is `x ^ y`, at offset `i`: where each part sits. */
  lemma CaretSplit(s: string, i: nat, t: string, x: string, y: string)
    requires At(s, i, t) && t == x + ['^'] + y
    ensures |t| == |x| + 1 + |y|
    ensures i + |x| < |s| && s[i + |x|] == '^' && SkipSpaces(s, i + |x|) == i + |x|
    ensures At(s, i, x) && At(s, i + |x| + 1, y)
  {
    SplitAround(s, i, x, '^', y);
  }

  /** Text that starts like a primary, at offset `i`, puts no space or sign at `i`. */
  lemma PrimaryAt(s: string, i: nat, x: string)
    requires At(s, i, x) && |x| > 0 && (x[0] == '(' || IsLiteralChar(x[0]))
    ensures i < |s| && s[i] != ' ' && s[i] != '+' && s[i] != '-'
  {
    assert s[i] == s[i..i + |x|][0];
  }

  lemma {:induction false} PowCombine(a: Expr, b: Expr, s: string, i: nat, ka: nat, k: nat)
    requires Laid(a, 3, s, i, ka) && ka < |s| && s[ka] == '^' && Stops(s, ka, 3)
    requires i < |s| && s[i] != ' ' && s[i] != '+' && s[i] != '-'
    requires Laid(b, 2, s, ka + 1, k) && Stops(s, k, 2)
    ensures Factor(s, i) == Ok((Pow(a, b), SkipSpaces(s, k)))
    decreases Pow(a, b), 0, 1, 0
  {
    var j := SkipSpaces(s, k);
    assert Factor(s, ka + 1) == Ok((b, j)) by {
      FactorParses(b, s, ka + 1, k);
    }
    assert Primary(s, i) == Ok((a, ka)) by {
      PrimaryParses(a, s, i, ka);
    }
    FactorPowStep(s, i, a, ka, b, j);
  }

  lemma {:induction false} PrimaryFactorParses(e: Expr, s: string, i: nat, k: nat)
    requires Prec(e) != 2 && Laid(e, 2, s, i, k) && Stops(s, k, 2)
    ensures Factor(s, i) == Ok((e, SkipSpaces(s, k)))
    decreases e, if Prec(e) < 2 then 1 else 0, 1, 0
  {
    assert Show(e, 3) == Show(e, 2) by {
      if e.Num? {
        ShowBareAt(e, 3);
        ShowBareAt(e, 2);
      } else {
        ShowParenAt(e, 3);
        ShowParenAt(e, 2);
      }
    }
    PrimaryStart(e);
    assert s[i] == Show(e, 3)[0];
    assert Primary(s, i) == Ok((e, k)) by {
      PrimaryParses(e, s, i, k);
    }
    FactorPrimaryStep(s, i, e, k);
  }

  /** The printed text of a tree at product strength, ending at `k`, is recognised as a
      term, up to the point where the product loop looks for a further operator. */
  lemma {:induction false} TermParses(e: Expr, s: string, i: nat, k: nat)
    requires Laid(e, 1, s, i, k) && Stops(s, k, 2)
    ensures Term(s, i) == TermTail(s, e, SkipSpaces(s, k))
    decreases e, if Prec(e) < 1 then 1 else 0, 2, 2
  {
    match e
    case Mul(a, b) => MulParses(a, b, s, i, k);
    case Div(a, b) => DivParses(a, b, s, i, k);
    case _ => FactorTermParses(e, s, i, k);
  }

  lemma {:induction false} MulParses(a: Expr, b: Expr, s: string, i: nat, k: nat)
    requires Laid(Mul(a, b), 1, s, i, k) && Stops(s, k, 2)
    ensures Term(s, i) == TermTail(s, Mul(a, b), SkipSpaces(s, k))
    decreases Mul(a, b), 0, 2, 1
  {
    var sa, sb := Show(a, 1), Show(b, 2);
    var ka := i + |sa|;
    assert At(s, i, sa) && At(s, ka + 1, sb) && k == ka + 1 + |sb| by {
      assert Show(Mul(a, b), 1) == sa + ['*'] + sb;
      SplitAround(s, i, sa, '*', sb);
    }
    assert ka < |s| && s[ka] == '*' && SkipSpaces(s, ka) == ka by {
      assert Show(Mul(a, b), 1) == sa + ['*'] + sb;
      SplitAround(s, i, sa, '*', sb);
    }
    MulCombine(a, b, s, i, ka, k);
  }

  lemma {:induction false} MulCombine(a: Expr, b: Expr, s: string, i: nat, ka: nat, k: nat)
    requires Laid(a, 1, s, i, ka) && ka < |s| && s[ka] == '*' && Stops(s, ka, 2)
    requires Laid(b, 2, s, ka + 1, k) && Stops(s, k, 2)
    ensures Term(s, i) == TermTail(s, Mul(a, b), SkipSpaces(s, k))
    decreases Mul(a, b), 0, 2, 0
  {
    var j := SkipSpaces(s, k);
    assert TermTail(s, a, ka) == TermTail(s, Mul(a, b), j) by {
      FactorParses(b, s, ka + 1, k);
      TermMulStep(s, ka, a, b, j);
    }
    assert Term(s, i) == TermTail(s, a, ka) by {
      TermParses(a, s, i, ka);
    }
  }

  lemma {:induction false} DivParses(a: Expr, b: Expr, s: string, i: nat, k: nat)
    requires Laid(Div(a, b), 1, s, i, k) && Stops(s, k, 2)
    ensures Term(s, i) == TermTail(s, Div(a, b), SkipSpaces(s, k))
    decreases Div(a, b), 0, 2, 1
  {
    var sa, sb := Show(a, 1), Show(b, 2);
    var ka := i + |sa|;
    assert At(s, i, sa) && At(s, ka + 1, sb) && k == ka + 1 + |sb| by {
      assert Show(Div(a, b), 1) == sa + ['/'] + sb;
      SplitAround(s, i, sa, '/', sb);
    }
    assert ka < |s| && s[ka] == '/' && SkipSpaces(s, ka) == ka by {
      assert Show(Div(a, b), 1) == sa + ['/'] + sb;
      SplitAround(s, i, sa, '/', sb);
    }
    DivCombine(a, b, s, i, ka, k);
  }

  lemma {:induction false} DivCombine(a: Expr, b: Expr, s: string, i: nat, ka: nat, k: nat)
    requires Laid(a, 1, s, i, ka) && ka < |s| && s[ka] == '/' && Stops(s, ka, 2)
    requires Laid(b, 2, s, ka + 1, k) && Stops(s, k, 2)
    ensures Term(s, i) == TermTail(s, Div(a, b), SkipSpaces(s, k))
    decreases Div(a, b), 0, 2, 0
  {
    var j := SkipSpaces(s, k);
    assert TermTail(s, a, ka) == TermTail(s, Div(a, b), j) by {
      FactorParses(b, s, ka + 1, k);
      TermDivStep(s, ka, a, b, j);
    }
    assert Term(s, i) == TermTail(s, a, ka) by {
      TermParses(a, s, i, ka);
    }
  }

  lemma {:induction false} FactorTermParses(e: Expr, s: string, i: nat, k: nat)
    requires Prec(e) != 1 && Laid(e, 1, s, i, k) && Stops(s, k, 2)
    ensures Term(s, i) == TermTail(s, e, SkipSpaces(s, k))
    decreases e, if Prec(e) < 1 then 1 else 0, 2, 0
  {
    assert Show(e, 2) == Show(e, 1) by {
      if Prec(e) == 0 {
        ShowParenAt(e, 2);
        ShowParenAt(e, 1);
      } else {
        ShowBareAt(e, 2);
        ShowBareAt(e, 1);
      }
    }
    FactorParses(e, s, i, k);
  }

  /** The printed text of any tree, ending at `k`, is recognised as an expression, up to
      the point where the sum loop looks for a further operator. */
  lemma {:induction false} ExprParses(e: Expr, s: string, i: nat, k: nat)
    requires Laid(e, 0, s, i, k) && Stops(s, k, 1)
    ensures Expression(s, i) == ExprTail(s, e, SkipSpaces(s, k))
    decreases e, 0, 3, 2
  {
    match e
    case Add(a, b) => AddParses(a, b, s, i, k);
    case Sub(a, b) => SubParses(a, b, s, i, k);
    case _ => TermExprParses(e, s, i, k);
  }

  lemma {:induction false} AddParses(a: Expr, b: Expr, s: string, i: nat, k: nat)
    requires Laid(Add(a, b), 0, s, i, k) && Stops(s, k, 1)
    ensures Expression(s, i) == ExprTail(s, Add(a, b), SkipSpaces(s, k))
    decreases Add(a, b), 0, 3, 1
  {
    var sa, sb := Show(a, 0), Show(b, 1);
    var ka := i + |sa|;
    assert At(s, i, sa) && At(s, ka + 1, sb) && k == ka + 1 + |sb| by {
      assert Show(Add(a, b), 0) == sa + ['+'] + sb;
      SplitAround(s, i, sa, '+', sb);
    }
    assert ka < |s| && s[ka] == '+' && SkipSpaces(s, ka) == ka by {
      assert Show(Add(a, b), 0) == sa + ['+'] + sb;
      SplitAround(s, i, sa, '+', sb);
    }
    AddCombine(a, b, s, i, ka, k);
  }

  lemma {:induction false} AddCombine(a: Expr, b: Expr, s: string, i: nat, ka: nat, k: nat)
    requires Laid(a, 0, s, i, ka) && ka < |s| && s[ka] == '+' && Stops(s, ka, 1)
    requires Laid(b, 1, s, ka + 1, k) && Stops(s, k, 1)
    ensures Expression(s, i) == ExprTail(s, Add(a, b), SkipSpaces(s, k))
    decreases Add(a, b), 0, 3, 0
  {
    var j := SkipSpaces(s, k);
    assert ExprTail(s, a, ka) == ExprTail(s, Add(a, b), j) by {
      TermParses(b, s, ka + 1, k);
      TermTailStops(s, b, k);
      ExprAddStep(s, ka, a, b, j);
    }
    assert Expression(s, i) == ExprTail(s, a, ka) by {
      ExprParses(a, s, i, ka);
    }
  }

  lemma {:induction false} SubParses(a: Expr, b: Expr, s: string, i: nat, k: nat)
    requires Laid(Sub(a, b), 0, s, i, k) && Stops(s, k, 1)
    ensures Expression(s, i) == ExprTail(s, Sub(a, b), SkipSpaces(s, k))
    decreases Sub(a, b), 0, 3, 1
  {
    var sa, sb := Show(a, 0), Show(b, 1);
    var ka := i + |sa|;
    assert At(s, i, sa) && At(s, ka + 1, sb) && k == ka + 1 + |sb| by {
      assert Show(Sub(a, b), 0) == sa + ['-'] + sb;
      SplitAround(s, i, sa, '-', sb);
    }
    assert ka < |s| && s[ka] == '-' && SkipSpaces(s, ka) == ka by {
      assert Show(Sub(a, b), 0) == sa + ['-'] + sb;
      SplitAround(s, i, sa, '-', sb);
    }
    SubCombine(a, b, s, i, ka, k);
  }

  lemma {:induction false} SubCombine(a: Expr, b: Expr, s: string, i: nat, ka: nat, k: nat)
    requires Laid(a, 0, s, i, ka) && ka < |s| && s[ka] == '-' && Stops(s, ka, 1)
    requires Laid(b, 1, s, ka + 1, k) && Stops(s, k, 1)
    ensures Expression(s, i) == ExprTail(s, Sub(a, b), SkipSpaces(s, k))
    decreases Sub(a, b), 0, 3, 0
  {
    var j := SkipSpaces(s, k);
    assert ExprTail(s, a, ka) == ExprTail(s, Sub(a, b), j) by {
      TermParses(b, s, ka + 1, k);
      TermTailStops(s, b, k);
      ExprSubStep(s, ka, a, b, j);
    }
    assert Expression(s, i) == ExprTail(s, a, ka) by {
      ExprParses(a, s, i, ka);
    }
  }

  lemma {:induction false} TermExprParses(e: Expr, s: string, i: nat, k: nat)
    requires Prec(e) != 0 && Laid(e, 0, s, i, k) && Stops(s, k, 1)
    ensures Expression(s, i) == ExprTail(s, e, SkipSpaces(s, k))
    decreases e, 0, 3, 0
  {
    assert Show(e, 1) == Show(e, 0) by {
      ShowBareAt(e, 1);
      ShowBareAt(e, 0);
    }
    TermParses(e, s, i, k);
    TermTailStops(s, e, k);
  }

  /** Parsing inverts printing: the text of any well-formed tree, followed by any number
      of spaces, parses back to exactly that tree. */
  lemma ParseInvertsShow(e: Expr, pad: string)
    requires WellFormed(e) && forall c <- pad :: c == ' '
    ensures Parse(Show(e, 0) + pad) == Ok(e)
  {
    var s := Show(e, 0) + pad;
    var k := |Show(e, 0)|;
    assert At(s, 0, Show(e, 0)) by {
      assert s[..k] == Show(e, 0);
    }
    assert SkipSpaces(s, k) == |s| by {
      forall m | k <= m < |s|
        ensures s[m] == ' '
      {
        assert s[m] == pad[m - k] && pad[m - k] in pad;
      }
      SkipSpacesTo(s, k, |s|);
    }
    ExprParses(e, s, 0, k);
    ExprTailStops(s, e, k);
  }
}
