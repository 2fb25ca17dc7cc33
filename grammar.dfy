/** The parser's grammar as pure functions over the input text and a cursor offset.
    Each function returns the tree it recognises together with the offset where the
    parser's cursor rests afterwards, or the error the parser raises. The imperative
    parser in module CalculatorModel is proved to agree with these functions. */
module Grammar {
  import opened Syntax

  /** True when offset `k` is the end of input or rests on a character that is neither a
      space nor one of `ops`: where a rule that last tried to eat one of `ops` stops. */
  predicate RestsBefore(s: string, k: nat, ops: string)
    requires k <= |s|
  {
    k == |s| || (s[k] != ' ' && s[k] !in ops)
  }

  /** Where an error raised while parsing from offset `i` points: an unexpected character
      (or the end of input) at or after `i`, or a literal that occurs in the input at the
      reported offset and does not convert. */
  predicate Located(s: string, i: nat, x: Error) {
    match x
    case Unexpected(at) => i <= at <= |s|
    case MalformedNumber(at, l) => i <= at && at + |l| <= |s| && s[at..at + |l|] == l && l != [] && !ValidLiteral(l)
  }

  /** The look-ahead code the parser holds when its cursor is at `p`: the character, or
      the sentinel -1 once the input is exhausted. */
  function Current(s: string, p: nat): (r: int)
    requires p <= |s|
    ensures r == -1 <==> p == |s|
    ensures p < |s| ==> r == s[p] as int
  {
    if p < |s| then s[p] as int else -1
  }

  /** Offset of the first character at or after `i` that is not a space (tabs and other
      white space are not skipped). */
  function SkipSpaces(s: string, i: nat): (j: nat)
    requires i <= |s|
    ensures i <= j <= |s|
    ensures j == |s| || s[j] != ' '
    decreases |s| - i
  {
    if i < |s| && s[i] == ' ' then SkipSpaces(s, i + 1) else i
  }

  /** Everything `SkipSpaces` passes over is a space. */
  lemma {:induction false} SkipsOnlySpaces(s: string, i: nat)
    requires i <= |s|
    ensures forall k :: i <= k < SkipSpaces(s, i) ==> s[k] == ' '
    decreases |s| - i
  {
    if i < |s| && s[i] == ' ' {
      SkipsOnlySpaces(s, i + 1);
    }
  }

  /** Skipping spaces from `i` stops at `j` when only spaces lie between them and `j` is the
      end of input or holds another character. */
  lemma {:induction false} SkipSpacesTo(s: string, i: nat, j: nat)
    requires i <= j <= |s| && forall m :: i <= m < j ==> s[m] == ' '
    requires j == |s| || s[j] != ' '
    ensures SkipSpaces(s, i) == j
    decreases j - i
  {
    if i < j {
      SkipSpacesTo(s, i + 1, j);
    }
  }

  /** Skip spaces, then consume `c` if it is the next character: the result says whether
      `c` was consumed and where the cursor rests. */
  function Eat(s: string, i: nat, c: char): (r: (bool, nat))
    requires i <= |s|
    ensures i <= r.1 <= |s|
    ensures r.0 ==> i < r.1 && s[r.1 - 1] == c
    ensures !r.0 ==> RestsBefore(s, r.1, [c])
  {
    var j := SkipSpaces(s, i);
    if j < |s| && s[j] == c then (true, j + 1) else (false, j)
  }

  /** What `Eat` passes over: only spaces, then `c` itself when it is consumed; when it is
      not, the cursor rests on the first character that is not a space, which is not `c`. */
  lemma EatSkipsOnlySpaces(s: string, i: nat, c: char)
    requires i <= |s|
    ensures var (eaten, j) := Eat(s, i, c);
      && (forall m :: i <= m < (if eaten then j - 1 else j) ==> s[m] == ' ')
      && (eaten ==> s[j - 1] == c)
      && (!eaten ==> j == |s| || (s[j] != ' ' && s[j] != c))
  {
    SkipsOnlySpaces(s, i);
  }

  /** Conversely, when only spaces lie between `i` and an occurrence of `c`, `Eat` consumes
      that occurrence. */
  lemma EatFinds(s: string, i: nat, j: nat, c: char)
    requires i <= j < |s| && s[j] == c && c != ' '
    requires forall m :: i <= m < j ==> s[m] == ' '
    ensures Eat(s, i, c) == (true, j + 1)
  {
    SkipSpacesTo(s, i, j);
  }

  /** End of the maximal run of digits and dots that starts at `i`. */
  function ScanLiteral(s: string, i: nat): (j: nat)
    requires i <= |s|
    ensures i <= j <= |s|
    ensures j == |s| || !IsLiteralChar(s[j])
    decreases |s| - i
  {
    if i < |s| && IsLiteralChar(s[i]) then ScanLiteral(s, i + 1) else i
  }

  /** Every character `ScanLiteral` passes over may occur in a literal. */
  lemma {:induction false} ScansOnlyLiteralChars(s: string, i: nat)
    requires i <= |s|
    ensures forall k :: i <= k < ScanLiteral(s, i) ==> IsLiteralChar(s[k])
    decreases |s| - i
  {
    if i < |s| && IsLiteralChar(s[i]) {
      ScansOnlyLiteralChars(s, i + 1);
    }
  }

  /** The literal scan from `i` ends at `k` when only literal characters lie between them
      and `k` is the end of input or holds another character. */
  lemma {:induction false} ScanLiteralTo(s: string, i: nat, k: nat)
    requires i <= k <= |s| && forall m :: i <= m < k ==> IsLiteralChar(s[m])
    requires k == |s| || !IsLiteralChar(s[k])
    ensures ScanLiteral(s, i) == k
    decreases k - i
  {
    if i < k {
      ScanLiteralTo(s, i + 1, k);
    }
  }

  /** expression := term { ('+' | '-') term } */
  function Expression(s: string, i: nat): (r: Result<(Expr, nat)>)
    requires i <= |s|
    ensures r.Ok? ==> i < r.value.1 <= |s| && WellFormed(r.value.0)
    ensures r.Ok? ==> RestsBefore(s, r.value.1, "+-")
    ensures r.Err? ==> Located(s, i, r.error)
    decreases |s| - i, 3
  {
    match Term(s, i)
    case Err(x) => Err(x)
    case Ok((t, k)) => ExprTail(s, t, k)
  }

  /** The loop of `expression` once `acc` has been recognised: fold further terms into
      `acc` from the left. */
  function ExprTail(s: string, acc: Expr, i: nat): (r: Result<(Expr, nat)>)
    requires i <= |s|
    ensures r.Ok? ==> i <= r.value.1 <= |s| && RestsBefore(s, r.value.1, "+-")
    ensures r.Ok? && WellFormed(acc) ==> WellFormed(r.value.0)
    ensures r.Err? ==> Located(s, i, r.error)
    decreases |s| - i, 3
  {
    var (plus, j) := Eat(s, i, '+');
    if plus then
      match Term(s, j)
      case Err(x) => Err(x)
      case Ok((t, k)) => ExprTail(s, Add(acc, t), k)
    else
      var (minus, j') := Eat(s, j, '-');
      if minus then
        match Term(s, j')
        case Err(x) => Err(x)
        case Ok((t, k)) => ExprTail(s, Sub(acc, t), k)
      else
        Ok((acc, j'))
  }

  /** term := factor { ('*' | '/') factor } */
  function Term(s: string, i: nat): (r: Result<(Expr, nat)>)
    requires i <= |s|
    ensures r.Ok? ==> i < r.value.1 <= |s| && WellFormed(r.value.0)
    ensures r.Ok? ==> RestsBefore(s, r.value.1, "*/")
    ensures r.Err? ==> Located(s, i, r.error)
    decreases |s| - i, 2
  {
    match Factor(s, i)
    case Err(x) => Err(x)
    case Ok((f, k)) => TermTail(s, f, k)
  }

  /** The loop of `term` once `acc` has been recognised: fold further factors into `acc`
      from the left. */
  function TermTail(s: string, acc: Expr, i: nat): (r: Result<(Expr, nat)>)
    requires i <= |s|
    ensures r.Ok? ==> i <= r.value.1 <= |s| && RestsBefore(s, r.value.1, "*/")
    ensures r.Ok? && WellFormed(acc) ==> WellFormed(r.value.0)
    ensures r.Err? ==> Located(s, i, r.error)
    decreases |s| - i, 2
  {
    var (times, j) := Eat(s, i, '*');
    if times then
      match Factor(s, j)
      case Err(x) => Err(x)
      case Ok((f, k)) => TermTail(s, Mul(acc, f), k)
    else
      var (slash, j') := Eat(s, j, '/');
      if slash then
        match Factor(s, j')
        case Err(x) => Err(x)
        case Ok((f, k)) => TermTail(s, Div(acc, f), k)
      else
        Ok((acc, j'))
  }

  /** factor := '+' factor | '-' factor | primary [ '^' factor ] */
  function Factor(s: string, i: nat): (r: Result<(Expr, nat)>)
    requires i <= |s|
    ensures r.Ok? ==> i < r.value.1 <= |s| && WellFormed(r.value.0)
    ensures r.Ok? ==> RestsBefore(s, r.value.1, "^")
    ensures r.Err? ==> Located(s, i, r.error)
    decreases |s| - i, 1
  {
    var (plus, j) := Eat(s, i, '+');
    if plus then
      Factor(s, j)
    else
      var (minus, j') := Eat(s, j, '-');
      if minus then
        match Factor(s, j')
        case Err(x) => Err(x)
        case Ok((a, k)) => Ok((Neg(a), k))
      else
        match Primary(s, j')
        case Err(x) => Err(x)
        case Ok((p, k)) => PowerTail(s, p, k)
  }

  /** The optional exponent after a primary `base` that ends at `i`: '^' and a whole
      factor. */
  function PowerTail(s: string, base: Expr, i: nat): (r: Result<(Expr, nat)>)
    requires i <= |s|
    ensures r.Ok? ==> i <= r.value.1 <= |s| && RestsBefore(s, r.value.1, "^")
    ensures r.Ok? && WellFormed(base) ==> WellFormed(r.value.0)
    ensures r.Err? ==> Located(s, i, r.error)
    decreases |s| - i, 1
  {
    var (caret, j) := Eat(s, i, '^');
    if caret then
      match Factor(s, j)
      case Err(x) => Err(x)
      case Ok((x, m)) => Ok((Pow(base, x), m))
    else
      Ok((base, j))
  }

  /** primary := literal | '(' expression [ ')' ]; the closing parenthesis is optional. */
  function Primary(s: string, i: nat): (r: Result<(Expr, nat)>)
    requires i <= |s|
    ensures r.Ok? ==> i < r.value.1 <= |s| && WellFormed(r.value.0)
    ensures i == |s| ==> r == Err(Unexpected(i))
    ensures r.Err? ==> Located(s, i, r.error)
    decreases |s| - i, 0
  {
    if i < |s| && IsLiteralChar(s[i]) then
      var k := ScanLiteral(s, i);
      if ValidLiteral(s[i..k]) then Ok((Num(s[i..k]), k)) else Err(MalformedNumber(i, s[i..k]))
    else
      var (open, j) := Eat(s, i, '(');
      if open then
        match Expression(s, j)
        case Err(x) => Err(x)
        case Ok((e, k)) => Ok((e, Eat(s, k, ')').1))
      else
        Err(Unexpected(j))
  }

  /** A whole input: one expression that must consume everything. */
  function Parse(s: string): (r: Result<Expr>)
    ensures r.Ok? <==> Expression(s, 0).Ok? && Expression(s, 0).value.1 == |s|
    ensures r.Ok? ==> r.value == Expression(s, 0).value.0 && WellFormed(r.value)
    ensures Expression(s, 0).Ok? && Expression(s, 0).value.1 < |s| ==>
              r == Err(Unexpected(Expression(s, 0).value.1))
    ensures r.Err? ==> Located(s, 0, r.error)
  {
    match Expression(s, 0)
    case Err(x) => Err(x)
    case Ok((e, k)) => if k < |s| then Err(Unexpected(k)) else Ok(e)
  }
}
