/** What the parser does with particular shapes of input: which inputs it rejects and at
    which offset, the slips it tolerates, and how it groups some concrete expressions. */
module Behaviour {
  import opened Syntax
  import opened Grammar
  import opened Precedence

  /** From an offset after which only spaces remain, every rule fails at the end of input:
      the look-ahead is the end-of-input sentinel when a factor is expected. */
  lemma BlankFails(s: string, i: nat)
    requires i <= |s| && forall m :: i <= m < |s| ==> s[m] == ' '
    ensures Factor(s, i) == Err(Unexpected(|s|))
    ensures Term(s, i) == Err(Unexpected(|s|))
    ensures Expression(s, i) == Err(Unexpected(|s|))
  {
    SkipSpacesTo(s, i, |s|);
    assert Eat(s, i, '+') == (false, |s|);
    assert Eat(s, |s|, '-') == (false, |s|);
  }

  /** Empty or space-only input is rejected at its end. */
  lemma BlankInputRejected(s: string)
    requires forall c <- s :: c == ' '
    ensures Parse(s) == Err(Unexpected(|s|))
  {
    forall m | 0 <= m < |s|
      ensures s[m] == ' '
    {
      assert s[m] in s;
    }
    BlankFails(s, 0);
  }

  /** Where the parts of `t + pad + [c] + rest` sit, when `pad` is spaces and `c` is not. */
  lemma Layout(t: string, pad: string, c: char, rest: string)
    requires (forall d <- pad :: d == ' ') && c != ' '
    ensures var s, k, j := t + pad + [c] + rest, |t|, |t| + |pad|;
      && At(s, 0, t) && j < |s| && s[j] == c && SkipSpaces(s, k) == j
      && (s[k] == ' ' || k == j)
      && ((forall d <- rest :: d == ' ') ==> forall m :: j < m < |s| ==> s[m] == ' ')
  {
    var s, k, j := t + pad + [c] + rest, |t|, |t| + |pad|;
    assert s[..k] == t;
    forall m | k <= m < j
      ensures s[m] == ' '
    {
      assert s[m] == pad[m - k] && pad[m - k] in pad;
    }
    assert s[j] == c;
    SkipSpacesTo(s, k, j);
    if forall d <- rest :: d == ' ' {
      forall m | j < m < |s|
        ensures s[m] == ' '
      {
        assert s[m] == rest[m - j - 1] && rest[m - j - 1] in rest;
      }
    }
  }

  /** After a complete expression and any spaces, a character that no rule continues with is
      reported where it stands: a ')' with no matching '(', or an operand that follows
      another one after spaces, such as the '2' of "1 2". */
  lemma LeftoverRejected(e: Expr, pad: string, c: char, rest: string)
    requires WellFormed(e) && forall d <- pad :: d == ' '
    requires c != ' ' && Binds(c) == 0 && (pad != [] || !IsLiteralChar(c))
    ensures Parse(Show(e, 0) + pad + [c] + rest) == Err(Unexpected(|Show(e, 0)| + |pad|))
  {
    Layout(Show(e, 0), pad, c, rest);
    StopsBefore(Show(e, 0) + pad + [c] + rest, e, |Show(e, 0)|, |Show(e, 0)| + |pad|);
  }

  lemma StopsBefore(s: string, e: Expr, k: nat, j: nat)
    requires Laid(e, 0, s, 0, k) && SkipSpaces(s, k) == j && j < |s| && (s[k] == ' ' || k == j)
    requires Binds(s[j]) == 0 && (k < j || !IsLiteralChar(s[j]))
    ensures Parse(s) == Err(Unexpected(j))
  {
    assert Stops(s, k, 0);
    ExprParses(e, s, 0, k);
    ExprTailStops(s, e, k);
  }

  /** An input that ends, up to spaces, with '+' or '-' after an expression is rejected at
      its end: the sum loop eats the sign and then finds no term. */
  lemma DanglingSumRejected(e: Expr, pad: string, op: char, pad2: string)
    requires WellFormed(e) && (forall d <- pad :: d == ' ') && (forall d <- pad2 :: d == ' ')
    requires op == '+' || op == '-'
    ensures var s := Show(e, 0) + pad + [op] + pad2; Parse(s) == Err(Unexpected(|s|))
  {
    Layout(Show(e, 0), pad, op, pad2);
    SumThenNothing(Show(e, 0) + pad + [op] + pad2, e, |Show(e, 0)|, |Show(e, 0)| + |pad|);
  }

  lemma SumThenNothing(s: string, e: Expr, k: nat, j: nat)
    requires Laid(e, 0, s, 0, k) && SkipSpaces(s, k) == j && j < |s| && (s[k] == ' ' || k == j)
    requires (s[j] == '+' || s[j] == '-') && forall m :: j < m < |s| ==> s[m] == ' '
    ensures Parse(s) == Err(Unexpected(|s|))
  {
    assert Expression(s, 0) == ExprTail(s, e, j) by {
      assert Stops(s, k, 1);
      ExprParses(e, s, 0, k);
    }
    assert Term(s, j + 1) == Err(Unexpected(|s|)) by {
      BlankFails(s, j + 1);
    }
    assert Eat(s, j, s[j]) == (true, j + 1);
    assert Eat(s, j, '+') == (s[j] == '+', if s[j] == '+' then j + 1 else j);
  }

  /** The same for '*' or '/' after a product: the product loop eats the operator and then
      finds no factor. */
  lemma DanglingProductRejected(e: Expr, pad: string, op: char, pad2: string)
    requires WellFormed(e) && (forall d <- pad :: d == ' ') && (forall d <- pad2 :: d == ' ')
    requires op == '*' || op == '/'
    ensures var s := Show(e, 1) + pad + [op] + pad2; Parse(s) == Err(Unexpected(|s|))
  {
    Layout(Show(e, 1), pad, op, pad2);
    ProductThenNothing(Show(e, 1) + pad + [op] + pad2, e, |Show(e, 1)|, |Show(e, 1)| + |pad|);
  }

  lemma ProductThenNothing(s: string, e: Expr, k: nat, j: nat)
    requires Laid(e, 1, s, 0, k) && SkipSpaces(s, k) == j && j < |s| && (s[k] == ' ' || k == j)
    requires (s[j] == '*' || s[j] == '/') && forall m :: j < m < |s| ==> s[m] == ' '
    ensures Parse(s) == Err(Unexpected(|s|))
  {
    assert Term(s, 0) == Err(Unexpected(|s|)) by {
      assert Term(s, 0) == TermTail(s, e, j) by {
        assert Stops(s, k, 2);
        TermParses(e, s, 0, k);
      }
      assert Factor(s, j + 1) == Err(Unexpected(|s|)) by {
        BlankFails(s, j + 1);
      }
      assert Eat(s, j, s[j]) == (true, j + 1);
      assert Eat(s, j, '*') == (s[j] == '*', if s[j] == '*' then j + 1 else j);
    }
  }

  /** The same for '^' after a literal or parenthesised base: the exponent is missing. */
  lemma DanglingPowerRejected(e: Expr, pad: string, pad2: string)
    requires WellFormed(e) && (forall d <- pad :: d == ' ') && (forall d <- pad2 :: d == ' ')
    ensures var s := Show(e, 3) + pad + "^" + pad2; Parse(s) == Err(Unexpected(|s|))
  {
    Layout(Show(e, 3), pad, '^', pad2);
    PrimaryStart(e);
    var s := Show(e, 3) + pad + "^" + pad2;
    assert s[0] == Show(e, 3)[0];
    PowerThenNothing(s, e, |Show(e, 3)|, |Show(e, 3)| + |pad|);
  }

  lemma PowerThenNothing(s: string, e: Expr, k: nat, j: nat)
    requires Laid(e, 3, s, 0, k) && SkipSpaces(s, k) == j && j < |s| && (s[k] == ' ' || k == j)
    requires 0 < |s| && (s[0] == '(' || IsLiteralChar(s[0]))
    requires s[j] == '^' && forall m :: j < m < |s| ==> s[m] == ' '
    ensures Parse(s) == Err(Unexpected(|s|))
  {
    assert Primary(s, 0) == Ok((e, k)) by {
      assert Stops(s, k, 3);
      PrimaryParses(e, s, 0, k);
    }
    assert Factor(s, j + 1) == Err(Unexpected(|s|)) by {
      BlankFails(s, j + 1);
    }
    PowerFails(s, 0, e, k, j, Unexpected(|s|));
    assert Term(s, 0) == Err(Unexpected(|s|));
  }

  /** A factor whose exponent fails fails the same way. */
  lemma PowerFails(s: string, i: nat, a: Expr, k: nat, j: nat, x: Error)
    requires i < |s| && s[i] != ' ' && s[i] != '+' && s[i] != '-'
    requires Primary(s, i) == Ok((a, k)) && SkipSpaces(s, k) == j && j < |s| && s[j] == '^'
    requires Factor(s, j + 1) == Err(x)
    ensures Factor(s, i) == Err(x)
  {
    ExponentFails(s, a, k, j, x);
    FactorOfPrimary(s, i, a, k);
  }

  /** A '^' whose exponent fails makes the optional exponent fail the same way. */
  lemma ExponentFails(s: string, a: Expr, k: nat, j: nat, x: Error)
    requires k <= |s| && SkipSpaces(s, k) == j && j < |s| && s[j] == '^'
    requires Factor(s, j + 1) == Err(x)
    ensures PowerTail(s, a, k) == Err(x)
  {
    assert Eat(s, k, '^') == (true, j + 1);
  }

  /** A run of digits and dots that does not convert is reported with its text. */
  lemma MalformedLiteralRejected(l: string)
    requires l != [] && (forall c <- l :: IsLiteralChar(c)) && !ValidLiteral(l)
    ensures Parse(l) == Err(MalformedNumber(0, l))
  {
    var n := |l|;
    assert ScanLiteral(l, 0) == n;
    assert l[0..n] == l;
    assert Primary(l, 0) == Err(MalformedNumber(0, l)) by {
      assert l[0] in l;
    }
    assert Factor(l, 0) == Err(MalformedNumber(0, l)) by {
      assert l[0] in l;
      assert Eat(l, 0, '+') == (false, 0);
      assert Eat(l, 0, '-') == (false, 0);
    }
    assert Term(l, 0) == Err(MalformedNumber(0, l));
    assert Expression(l, 0) == Err(MalformedNumber(0, l));
  }

  /** A closing parenthesis missing at the end of input is not required. */
  lemma UnclosedParenAccepted(e: Expr)
    requires WellFormed(e)
    ensures Parse("(" + Show(e, 0)) == Ok(e)
  {
    var s := "(" + Show(e, 0);
    var n := |s|;
    assert SkipSpaces(s, n) == n;
    assert Expression(s, 1) == Ok((e, n)) by {
      assert s[1..n] == Show(e, 0);
      assert Laid(e, 0, s, 1, n) && Stops(s, n, 1);
      ExprParses(e, s, 1, n);
      ExprTailStops(s, e, n);
    }
    assert Primary(s, 0) == Ok((e, n)) by {
      assert Eat(s, 0, '(') == (true, 1);
      assert Eat(s, n, ')') == (false, n);
    }
    assert Factor(s, 0) == Ok((e, n)) by {
      FactorPrimaryStep(s, 0, e, n);
    }
    assert Term(s, 0) == Ok((e, n)) by {
      TermTailStops(s, e, n);
    }
    assert Expression(s, 0) == Ok((e, n)) by {
      ExprTailStops(s, e, n);
    }
  }

  /** Unary plus leaves no trace: "+x" parses to the tree of x. */
  lemma UnaryPlusIgnored(e: Expr)
    requires WellFormed(e)
    ensures Parse("+" + Show(e, 2)) == Ok(e)
  {
    var s := "+" + Show(e, 2);
    var n := |s|;
    assert SkipSpaces(s, n) == n;
    assert Factor(s, 1) == Ok((e, n)) by {
      assert s[1..n] == Show(e, 2);
      assert Laid(e, 2, s, 1, n) && Stops(s, n, 2);
      FactorParses(e, s, 1, n);
    }
    assert Factor(s, 0) == Ok((e, n)) by {
      assert Eat(s, 0, '+') == (true, 1);
    }
    assert Term(s, 0) == Ok((e, n)) by {
      TermTailStops(s, e, n);
    }
    assert Expression(s, 0) == Ok((e, n)) by {
      ExprTailStops(s, e, n);
    }
  }

  /** Printing a parsed tree gives its canonical text, which parses to the same tree. */
  lemma ReparseStable(s: string, e: Expr)
    requires Parse(s) == Ok(e)
    ensures Parse(Show(e, 0)) == Ok(e)
  {
    ParseInvertsShow(e, "");
    assert Show(e, 0) + "" == Show(e, 0);
  }

  /** A one-digit literal converts. */
  lemma DigitConverts(d: char)
    requires IsDigit(d)
    ensures ValidLiteral([d])
  {
    assert d in [d];
  }

  /** "1-2-3" is (1-2)-3: the sum loop folds from the left. */
  lemma SubtractionGroupsLeft()
    ensures Parse("1-2-3") == Ok(Sub(Sub(Num("1"), Num("2")), Num("3")))
  {
    var e := Sub(Sub(Num("1"), Num("2")), Num("3"));
    DigitConverts('1');
    DigitConverts('2');
    DigitConverts('3');
    assert Show(e, 0) + "" == "1-2-3";
    ParseInvertsShow(e, "");
  }

  /** "8/4/2" is (8/4)/2: the product loop folds from the left. */
  lemma DivisionGroupsLeft()
    ensures Parse("8/4/2") == Ok(Div(Div(Num("8"), Num("4")), Num("2")))
  {
    var e := Div(Div(Num("8"), Num("4")), Num("2"));
    DigitConverts('8');
    DigitConverts('4');
    DigitConverts('2');
    assert Show(e, 0) + "" == "8/4/2";
    ParseInvertsShow(e, "");
  }

  /** "3+4*2" is 3+(4*2) and "(3+4)*2" keeps the sum as the left factor. */
  lemma ProductBindsTighter()
    ensures Parse("3+4*2") == Ok(Add(Num("3"), Mul(Num("4"), Num("2"))))
    ensures Parse("(3+4)*2") == Ok(Mul(Add(Num("3"), Num("4")), Num("2")))
  {
    var e1 := Add(Num("3"), Mul(Num("4"), Num("2")));
    var e2 := Mul(Add(Num("3"), Num("4")), Num("2"));
    DigitConverts('2');
    DigitConverts('3');
    DigitConverts('4');
    assert Show(e1, 0) + "" == "3+4*2";
    assert Show(e2, 0) + "" == "(3+4)*2";
    ParseInvertsShow(e1, "");
    ParseInvertsShow(e2, "");
  }

  /** "2^3^2" is 2^(3^2): the exponent is a whole factor. */
  lemma PowerGroupsRight()
    ensures Parse("2^3^2") == Ok(Pow(Num("2"), Pow(Num("3"), Num("2"))))
  {
    var e := Pow(Num("2"), Pow(Num("3"), Num("2")));
    DigitConverts('2');
    DigitConverts('3');
    assert Show(e, 0) + "" == "2^3^2";
    ParseInvertsShow(e, "");
  }

  /** "-2^2" is -(2^2) and "--3" is -(-3): a sign applies to the whole factor after it. */
  lemma SignAppliesToFactor()
    ensures Parse("-2^2") == Ok(Neg(Pow(Num("2"), Num("2"))))
    ensures Parse("--3") == Ok(Neg(Neg(Num("3"))))
  {
    var e1 := Neg(Pow(Num("2"), Num("2")));
    var e2 := Neg(Neg(Num("3")));
    DigitConverts('2');
    DigitConverts('3');
    assert Show(e1, 0) + "" == "-2^2";
    assert Show(e2, 0) + "" == "--3";
    ParseInvertsShow(e1, "");
    ParseInvertsShow(e2, "");
  }

  /** "3+" is rejected at its end. */
  lemma TrailingPlusRejected()
    ensures Parse("3+") == Err(Unexpected(2))
  {
    DigitConverts('3');
    assert Show(Num("3"), 0) + "" + "+" + "" == "3+";
    DanglingSumRejected(Num("3"), "", '+', "");
  }

  /** "1)" is rejected at the unmatched parenthesis. */
  lemma StrayParenRejected()
    ensures Parse("1)") == Err(Unexpected(1))
  {
    DigitConverts('1');
    assert Show(Num("1"), 0) + "" + ")" + "" == "1)";
    LeftoverRejected(Num("1"), "", ')', "");
  }

  /** "1 2" is rejected at the second number. */
  lemma JuxtapositionRejected()
    ensures Parse("1 2") == Err(Unexpected(2))
  {
    DigitConverts('1');
    assert Show(Num("1"), 0) + " " + "2" + "" == "1 2";
    LeftoverRejected(Num("1"), " ", '2', "");
  }

  /** The empty input is rejected at offset 0. */
  lemma EmptyInputRejected()
    ensures Parse("") == Err(Unexpected(0))
  {
    BlankInputRejected("");
  }

  /** "1.2.3", with two dots, is reported as a literal that does not convert. */
  lemma TwoDotsRejected()
    ensures Parse("1.2.3") == Err(MalformedNumber(0, "1.2.3"))
  {
    assert multiset("1.2.3")['.'] == 2;
    MalformedLiteralRejected("1.2.3");
  }

  /** A lone "." is reported as a literal that does not convert. */
  lemma LoneDotRejected()
    ensures Parse(".") == Err(MalformedNumber(0, "."))
  {
    assert !exists c <- "." :: IsDigit(c);
    MalformedLiteralRejected(".");
  }

  /** "(1+2" is accepted as 1+2. */
  lemma ConcreteUnclosedParen()
    ensures Parse("(1+2") == Ok(Add(Num("1"), Num("2")))
  {
    var e := Add(Num("1"), Num("2"));
    DigitConverts('1');
    DigitConverts('2');
    assert "(" + Show(e, 0) == "(1+2";
    UnclosedParenAccepted(e);
  }
}
