/** The values the calculator's expression parser works with: the syntax tree it
    builds in place of a double, the ways a parse fails, and the literal rule. */
module Syntax {

  /** Outcome of a parse: the parser signals failure by throwing; here it returns Err. */
  datatype Result<T> = Ok(value: T) | Err(error: Error)

  /** Why a parse failed.
      - Unexpected(at): the character at offset `at` cannot start a factor, or is left over
        after a complete expression; `at` equal to the input length means the end of input.
      - MalformedNumber(at, lexeme): the run of digits and dots starting at `at` is not a
        decimal number the literal conversion accepts. */
  datatype Error = Unexpected(at: nat) | MalformedNumber(at: nat, lexeme: string)

  /** Syntax tree of an arithmetic expression. A literal keeps its text; unary plus leaves
      no node because the parser returns its operand unchanged. */
  datatype Expr =
    | Num(lexeme: string)
    | Neg(operand: Expr)
    | Add(left: Expr, right: Expr)
    | Sub(left: Expr, right: Expr)
    | Mul(left: Expr, right: Expr)
    | Div(left: Expr, right: Expr)
    | Pow(base: Expr, exponent: Expr)

  predicate IsDigit(c: char) {
    '0' <= c <= '9'
  }

  /** The characters a numeric literal is scanned from: decimal digits and the dot. */
  predicate IsLiteralChar(c: char) {
    IsDigit(c) || c == '.'
  }

  /** A run of digits and dots that converts to a number: at most one dot and at least
      one digit, so "1", "1.", ".5" and "1.5" convert while "." and "1.2.3" do not. */
  predicate ValidLiteral(lexeme: string): (r: bool)
    ensures r ==> lexeme != [] && lexeme != "."
  {
    && (forall c <- lexeme :: IsLiteralChar(c))
    && multiset(lexeme)['.'] <= 1
    && (exists c <- lexeme :: IsDigit(c))
  }

  /** Which digit-and-dot runs convert: a trailing or a leading dot is accepted, a lone dot
      and a second dot are not. */
  lemma ConversionExamples()
    ensures ValidLiteral("0") && ValidLiteral("1.") && ValidLiteral(".5")
    ensures !ValidLiteral(".") && !ValidLiteral("1.2.3")
  {
    assert "0"[0] == '0' && "0"[0] in "0";
    assert "1."[0] == '1' && "1."[0] in "1.";
    assert multiset("1.")['.'] == 1;
    assert ".5"[1] == '5' && ".5"[1] in ".5";
    assert multiset(".5")['.'] == 1;
    assert multiset("1.2.3")['.'] == 2;
  }

  /** Every literal in the tree is one the parser could have produced. */
  predicate WellFormed(e: Expr) {
    match e
    case Num(l) => ValidLiteral(l)
    case Neg(a) => WellFormed(a)
    case Add(a, b) => WellFormed(a) && WellFormed(b)
    case Sub(a, b) => WellFormed(a) && WellFormed(b)
    case Mul(a, b) => WellFormed(a) && WellFormed(b)
    case Div(a, b) => WellFormed(a) && WellFormed(b)
    case Pow(a, b) => WellFormed(a) && WellFormed(b)
  }
}
