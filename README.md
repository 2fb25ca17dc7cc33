# kalk expression parser, modelled in Dafny

This project models the calculator model of `kalk.java`: `CalculatorModel.evaluate` and
its private recursive-descent `ExpressionParser`. The parser scans the expression once,
left to right, and keeps a cursor `pos` and a look-ahead code `ch` (-1 past the end). It
has three mutually recursive rules:

- `parseExpression`: `+` and `-` in a left-folding loop;
- `parseTerm`: `*` and `/` in a left-folding loop;
- `parseFactor`: unary sign, a literal run of digits and dots, a parenthesised
  expression whose `)` is optional, and an optional `^` whose exponent is a whole factor.

The primitives `nextChar` and `eat` sit below them; `eat` skips blanks (`' '` only)
before it tests the next character. `parse` rejects input that is left over.

The Java code computes a `double` while it scans. The model builds the syntax tree whose
value that computation produces instead (`Syntax.Expr`: `Num(lexeme)`, `Neg`, `Add`,
`Sub`, `Mul`, `Div`, `Pow`; a unary `+` leaves no node). The two exceptions become a
`Result`:

- `Unexpected(at)`: the character at offset `at`, or the end of input when `at` is the length.
- `MalformedNumber(at, lexeme)`: the digit-and-dot run at `at` that does not convert.

Modules:

- `Syntax` (syntax.dfy): the tree, the outcome types, and which digit-and-dot runs convert
  to a number (`ValidLiteral`: at most one dot and at least one digit).
- `Grammar` (grammar.dfy): the parser as pure functions over the text and a cursor
  offset. Each function returns the tree and the offset where the cursor rests, or the
  error. This is the specification.
- `CalculatorModel` (calculator.dfy): the class `ExpressionParser` with the fields
  `expression`, `pos` and `ch`. Its methods update the fields in place, loops included,
  and each is proved to agree with its `Grammar` function.
- `Precedence` (precedence.dfy): a printer `Show` that writes a tree with only the
  parentheses its grouping needs. The main theorem, `ParseInvertsShow`, says that
  parsing the printed text of any tree, with any trailing blanks, gives the tree back.
  This fixes precedence and associativity: `+ -` loosest and left-associative, then
  `* /`, then unary sign and `^`, with `^` right-associative and `-2^2` read as `-(2^2)`.
- `Behaviour` (behaviour.dfy): what the parser does with particular inputs. It covers
  rejections and their offsets, the slips it tolerates, and worked examples.

## Model

| member | source | states |
|---|---|---|
| Syntax.ValidLiteral | kalk.java:66 | a run of digits and dots converts (where `Double.parseDouble` returns rather than throws) exactly when it has at most one dot and at least one digit; a run that converts is never empty and never a lone dot |
| Syntax.ConversionExamples | kalk.java:66 | "0", "1." and ".5" convert; "." and "1.2.3" do not |
| Grammar.Current | kalk.java:27-29 | the look-ahead code is -1 exactly at the end of input and the character's code before it |
| Grammar.SkipSpaces | kalk.java:32 | skipping blanks stays within the input and stops at the end or on a non-blank character |
| Grammar.SkipsOnlySpaces | kalk.java:32 | every character skipped is a blank (`' '`; tabs are not skipped) |
| Grammar.SkipSpacesTo | kalk.java:32 | conversely, a run of blanks followed by the end or a non-blank is skipped exactly up to that point |
| Grammar.Eat | kalk.java:31-38 | eat never moves the cursor back; when it consumes `c`, the cursor ends one past a `c`; otherwise it rests where neither a blank nor `c` is |
| Grammar.EatSkipsOnlySpaces | kalk.java:31-38 | eat passes over only blanks and then the eaten character; when it returns false, the cursor rests on the first non-blank, which is not `c` |
| Grammar.EatFinds | kalk.java:31-38 | conversely, when only blanks precede a `c`, eat returns true and leaves the cursor one past it |
| Grammar.ScanLiteral | kalk.java:65 | the literal scan stops at the end or on a character that is neither a digit nor a dot |
| Grammar.ScansOnlyLiteralChars | kalk.java:65 | every character the scan passes over is a digit or a dot, so the run is maximal |
| Grammar.ScanLiteralTo | kalk.java:63-65 | conversely, a maximal digit-and-dot run from the start offset is exactly what the scan covers |
| Grammar.Expression | kalk.java:40-47 | a successful expression consumes at least one character, is well formed, and rests before anything other than a blank, `+` or `-`; an error points at or after the start |
| Grammar.ExprTail | kalk.java:42-46 | the sum loop never moves back, keeps the tree well formed, and ends only before a non-blank that is not `+` or `-` |
| Grammar.Term | kalk.java:49-56 | a successful term consumes at least one character and rests before anything other than a blank, `*` or `/`; an error points at or after the start |
| Grammar.TermTail | kalk.java:51-55 | the product loop never moves back, keeps the tree well formed, and ends only before a non-blank that is not `*` or `/` |
| Grammar.Factor | kalk.java:58-77 | a successful factor strictly advances the cursor and rests before anything other than a blank or `^`; an error points at or after the start, and a malformed literal is reported with its exact text |
| Grammar.PowerTail | kalk.java:74-76 | the optional `^ factor` never moves the cursor back and ends before anything other than a blank or `^` |
| Grammar.Primary | kalk.java:62-72 | a literal or parenthesised expression strictly advances the cursor; at the end of input it fails with `Unexpected` at the end |
| Grammar.Parse | kalk.java:18-25 | a whole input succeeds exactly when the expression consumes all of it, giving that expression's tree; when input is left over, the error points at the first unconsumed offset |
| CalculatorModel.Evaluate | kalk.java:4-7 | evaluating with a fresh parser gives exactly the grammar's outcome for the whole input |
| CalculatorModel.ExpressionParser.constructor | kalk.java:10-16 | a new parser holds the expression with its cursor at -1 |
| CalculatorModel.ExpressionParser.Parse | kalk.java:18-25 | priming, parsing an expression and checking for leftovers give exactly `Grammar.Parse` of the input |
| CalculatorModel.ExpressionParser.NextChar | kalk.java:27-29 | the cursor moves forward by exactly one, and `ch` becomes the character under it or -1 past the end |
| CalculatorModel.ExpressionParser.Eat | kalk.java:31-38 | the blank-skipping loop and the test leave the result and cursor that `Grammar.Eat` gives, and keep `ch` in step with `pos` |
| CalculatorModel.ExpressionParser.ParseExpression | kalk.java:40-47 | the `while (true)` loop gives the tree, resting offset or error of `Grammar.Expression`, and the cursor never moves back |
| CalculatorModel.ExpressionParser.ParseTerm | kalk.java:49-56 | the `while (true)` loop gives the tree, resting offset or error of `Grammar.Term`, and the cursor never moves back |
| CalculatorModel.ExpressionParser.ParseFactor | kalk.java:58-77 | unary signs, the primary and the optional exponent give the outcome of `Grammar.Factor` |
| CalculatorModel.ExpressionParser.ParsePrimary | kalk.java:62-72 | the literal-scanning loop and the parenthesised branch give the outcome of `Grammar.Primary`, including the malformed-literal and unexpected-character errors |
| Precedence.PrimaryParses | kalk.java:62-72 | a literal or parenthesised tree laid out in the input, and followed by no literal character, parses back as a primary |
| Precedence.LiteralParses | kalk.java:63-66 | a convertible literal laid out in the input parses back to its `Num` node and ends where the literal ends |
| Precedence.ParenParses | kalk.java:67-69 | a parenthesised tree in the input parses back, with its `)` consumed |
| Precedence.FactorParses | kalk.java:58-77 | any tree printed at sign/power strength parses back as a factor, and the cursor rests after the following blanks |
| Precedence.NegParses | kalk.java:60 | `-` followed by a factor parses back to `Neg` of that factor |
| Precedence.PowParses | kalk.java:74 | a base, `^` and a whole factor parse back to `Pow`, so `^` groups to the right |
| Precedence.TermParses | kalk.java:49-56 | any tree printed at product strength parses back as a term |
| Precedence.MulParses | kalk.java:52 | a product and `*` followed by a factor parse back to `Mul`, grouped to the left |
| Precedence.DivParses | kalk.java:53 | a product and `/` followed by a factor parse back to `Div`, grouped to the left |
| Precedence.ExprParses | kalk.java:40-47 | any tree printed at sum strength parses back as an expression |
| Precedence.AddParses | kalk.java:43 | a sum and `+` followed by a term parse back to `Add`, grouped to the left |
| Precedence.SubParses | kalk.java:44 | a sum and `-` followed by a term parse back to `Sub`, grouped to the left |
| Precedence.ParseInvertsShow | kalk.java:18-77 | for every well-formed tree, its printed text followed by any blanks parses back to exactly that tree (trailing blanks are allowed) |
| Behaviour.BlankFails | kalk.java:64-71 | when only blanks remain, factor, term and expression all fail with `Unexpected` at the end of input |
| Behaviour.BlankInputRejected | kalk.java:18-25 | empty or blank-only input is rejected at its end |
| Behaviour.LeftoverRejected | kalk.java:21-22 | after a complete expression and any blanks, a `)` or a second operand is rejected at its own offset |
| Behaviour.DanglingSumRejected | kalk.java:43-44 | an expression followed by `+` or `-` and nothing else is rejected at the end of input |
| Behaviour.DanglingProductRejected | kalk.java:52-53 | a product followed by `*` or `/` and nothing else is rejected at the end of input |
| Behaviour.DanglingPowerRejected | kalk.java:74 | a base followed by `^` and nothing else is rejected at the end of input |
| Behaviour.PowerFails | kalk.java:74 | when the exponent after `^` fails, the factor fails with the same error |
| Behaviour.MalformedLiteralRejected | kalk.java:63-66 | a digit-and-dot run that does not convert is reported with offset 0 and its exact text |
| Behaviour.UnclosedParenAccepted | kalk.java:67-69 | `(` followed by any expression and no `)` parses to that expression |
| Behaviour.UnaryPlusIgnored | kalk.java:59 | `+` before any factor leaves the tree unchanged |
| Behaviour.ReparseStable | kalk.java:18-25 | the canonical text of any parsed tree parses back to the same tree |
| Behaviour.DigitConverts | kalk.java:66 | a single digit is a literal that converts |
| Behaviour.SubtractionGroupsLeft | kalk.java:44 | `1-2-3` parses as `(1-2)-3` |
| Behaviour.DivisionGroupsLeft | kalk.java:53 | `8/4/2` parses as `(8/4)/2` |
| Behaviour.ProductBindsTighter | kalk.java:40-56 | `3+4*2` parses as `3+(4*2)`, and `(3+4)*2` keeps the sum as the left factor |
| Behaviour.PowerGroupsRight | kalk.java:74 | `2^3^2` parses as `2^(3^2)` |
| Behaviour.SignAppliesToFactor | kalk.java:60 | `-2^2` parses as `-(2^2)`, and `--3` as `-(-3)` |
| Behaviour.TrailingPlusRejected | kalk.java:43 | `3+` is rejected at offset 2, the end of input |
| Behaviour.StrayParenRejected | kalk.java:21-22 | `1)` is rejected at offset 1 |
| Behaviour.JuxtapositionRejected | kalk.java:21-22 | `1 2` is rejected at offset 2 |
| Behaviour.EmptyInputRejected | kalk.java:70-71 | the empty input is rejected at offset 0 |
| Behaviour.TwoDotsRejected | kalk.java:63-66 | `1.2.3` is reported as a malformed literal at offset 0 |
| Behaviour.LoneDotRejected | kalk.java:63-66 | `.` is reported as a malformed literal at offset 0 |
| Behaviour.ConcreteUnclosedParen | kalk.java:67-69 | `(1+2` parses as `1+2` |

## Left out

- Floating-point values: `double` arithmetic (`+= -= *= /=`), `Math.pow` and IEEE 754 infinities and NaN are not modelled. The model returns the syntax tree whose value the source computes.
- `Double.parseDouble`: only whether a digit-and-dot run converts is modelled (`Syntax.ValidLiteral`: at most one dot and at least one digit). The numeric value it yields is not modelled, and the literal is kept as text in `Num`.
- Exception messages: the text of the `RuntimeException` messages and the `(char) ch` cast of the -1 sentinel are not modelled. Only the error kind and its offset are kept.
- `CalculatorView`, `CalculatorController` and `CalculatorApp` are console input and output and wiring. They are not part of this model.
- `pos` is a Java `int` and the model uses unbounded integers. Nothing is lost by this: a Java `String` is never longer than `Integer.MAX_VALUE`. `ExpressionParser.Primed` keeps `pos <= |expression|`, and `nextChar` is never called once `ch` is -1, so `pos` cannot overflow.
- Recursion depth: every `(`, unary sign and `^` adds Java stack frames (kalk.java:59-60, kalk.java:67-68, kalk.java:74). Input nested deeply enough raises `StackOverflowError`, which the application's `catch (Exception e)` does not catch. The JVM stack limit is not modelled, so on such input the model returns a result where the program dies.
- CalculatorModel.ExpressionParser.Parse: requires a fresh parser (`pos == -1`). The source calls `parse` only once, right after construction, so a second call on the same parser is not modelled.
- CalculatorModel.ExpressionParser.ParsePrimary: the literal and parenthesis part of `parseFactor` is a method of its own, so that the `^` suffix can be stated separately. The order of the steps is that of the source.
- kalk.java:64-65: the operator between the digit test and the dot test is missing. The model reads it as `||`, i.e. "digit or dot".
- Precedence.ParseInvertsShow: covers printed text with trailing blanks but not leading or inner blanks. Those are still accepted by the grammar functions themselves.
