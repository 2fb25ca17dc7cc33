/** The calculator model: a recursive-descent parser that scans the expression once,
    left to right, keeping a cursor `pos` and the look-ahead character `ch`. Every method
    is proved to agree with the matching function of module Grammar. */
module CalculatorModel {
  import opened Syntax
  import Grammar

  /** A method's outcome `r` and final cursor `pos` match the grammar's outcome `spec`:
      on success the same tree and the same resting offset, on failure the same error. */
  predicate Agrees(r: Result<Expr>, pos: int, spec: Result<(Expr, nat)>) {
    match spec
    case Ok((e, k)) => r == Ok(e) && pos == k
    case Err(x) => r == Err(x)
  }

  /** Parse a whole expression with a fresh parser. */
  method Evaluate(expression: string) returns (r: Result<Expr>)
    ensures r == Grammar.Parse(expression)
  {
    var parser := new ExpressionParser(expression);
    r := parser.Parse();
  }

  class ExpressionParser {
    const expression: string
    var pos: int
    var ch: int

    constructor (expression: string)
      ensures this.expression == expression && pos == -1 && ch == 0
    {
      this.expression := expression;
      pos := -1;
      ch := 0;
    }

    /** The cursor has been primed: it lies within the input and `ch` is the character
        under it, or -1 exactly when the input is exhausted. */
    ghost predicate Primed()
      reads this
    {
      0 <= pos <= |expression| && ch == Grammar.Current(expression, pos)
    }

    method Parse() returns (r: Result<Expr>)
      requires pos == -1
      modifies this
      ensures r == Grammar.Parse(expression)
    {
      NextChar();
      r := ParseExpression();
      if r.Ok? && pos < |expression| {
        r := Err(Unexpected(pos));
      }
    }

    /** Advance the cursor by one and load the character under it, or -1 past the end. */
    method NextChar()
      requires -1 <= pos
      modifies this
      ensures pos == old(pos) + 1
      ensures ch == (if pos < |expression| then expression[pos] as int else -1)
    {
      pos := pos + 1;
      ch := if pos < |expression| then expression[pos] as int else -1;
    }

    /** Skip spaces, then consume `c` if it is under the cursor. */
    method Eat(c: char) returns (eaten: bool)
      requires Primed()
      modifies this
      ensures Primed() && old(pos) <= pos
      ensures (eaten, pos) == Grammar.Eat(expression, old(pos), c)
    {
      while ch == ' ' as int
        invariant Primed() && old(pos) <= pos
        invariant Grammar.SkipSpaces(expression, pos) == Grammar.SkipSpaces(expression, old(pos))
        decreases |expression| - pos
      {
        NextChar();
      }
      if ch == c as int {
        NextChar();
        return true;
      }
      return false;
    }

    method ParseExpression() returns (r: Result<Expr>)
      requires Primed()
      modifies this
      ensures Primed() && old(pos) <= pos
      ensures Agrees(r, pos, Grammar.Expression(expression, old(pos)))
      decreases |expression| - pos, 3
    {
      r := ParseTerm();
      if r.Err? {
        return;
      }
      var result := r.value;
      while true
        invariant Primed() && old(pos) <= pos
        invariant Grammar.Expression(expression, old(pos)) == Grammar.ExprTail(expression, result, pos)
        decreases |expression| - pos
      {
        var plus := Eat('+');
        if plus {
          var t := ParseTerm();
          if t.Err? {
            return t;
          }
          result := Add(result, t.value);
        } else {
          var minus := Eat('-');
          if minus {
            var t := ParseTerm();
            if t.Err? {
              return t;
            }
            result := Sub(result, t.value);
          } else {
            return Ok(result);
          }
        }
      }
    }

    method ParseTerm() returns (r: Result<Expr>)
      requires Primed()
      modifies this
      ensures Primed() && old(pos) <= pos
      ensures Agrees(r, pos, Grammar.Term(expression, old(pos)))
      decreases |expression| - pos, 2
    {
      r := ParseFactor();
      if r.Err? {
        return;
      }
      var result := r.value;
      while true
        invariant Primed() && old(pos) <= pos
        invariant Grammar.Term(expression, old(pos)) == Grammar.TermTail(expression, result, pos)
        decreases |expression| - pos
      {
        var times := Eat('*');
        if times {
          var f := ParseFactor();
          if f.Err? {
            return f;
          }
          result := Mul(result, f.value);
        } else {
          var slash := Eat('/');
          if slash {
            var f := ParseFactor();
            if f.Err? {
              return f;
            }
            result := Div(result, f.value);
          } else {
            return Ok(result);
          }
        }
      }
    }

    method ParseFactor() returns (r: Result<Expr>)
      requires Primed()
      modifies this
      ensures Primed() && old(pos) <= pos
      ensures Agrees(r, pos, Grammar.Factor(expression, old(pos)))
      decreases |expression| - pos, 1
    {
      var plus := Eat('+');
      if plus {
        r := ParseFactor();
        return;
      }
      var minus := Eat('-');
      if minus {
        r := ParseFactor();
        if r.Ok? {
          r := Ok(Neg(r.value));
        }
        return;
      }
      r := ParsePrimary();
      if r.Err? {
        return;
      }
      var result := r.value;
      var caret := Eat('^');
      if caret {
        r := ParseFactor();
        if r.Ok? {
          r := Ok(Pow(result, r.value));
        }
      }
    }

    /** The part of a factor before any '^': a literal, or a parenthesised expression whose
        closing parenthesis is consumed when present and otherwise not required. */
    method ParsePrimary() returns (r: Result<Expr>)
      requires Primed()
      modifies this
      ensures Primed() && old(pos) <= pos
      ensures Agrees(r, pos, Grammar.Primary(expression, old(pos)))
      decreases |expression| - pos, 0
    {
      var startPos := pos;
      if '0' as int <= ch <= '9' as int || ch == '.' as int {
        while '0' as int <= ch <= '9' as int || ch == '.' as int
          invariant Primed() && startPos <= pos <= Grammar.ScanLiteral(expression, startPos)
          invariant Grammar.ScanLiteral(expression, pos) == Grammar.ScanLiteral(expression, startPos)
          decreases |expression| - pos
        {
          NextChar();
        }
        var lexeme := expression[startPos..pos];
        if !ValidLiteral(lexeme) {
          return Err(MalformedNumber(startPos, lexeme));
        }
        return Ok(Num(lexeme));
      }
      var open := Eat('(');
      if !open {
        return Err(Unexpected(pos));
      }
      r := ParseExpression();
      if r.Ok? {
        var _ := Eat(')');
      }
    }
  }
}
