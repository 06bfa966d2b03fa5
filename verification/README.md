# Config-language translator core, in Dafny

This project models the translator at the heart of a small configuration
language. The language has constants (`var name := value;`), tables
(`table( key => value, ... )`), arrays (`{a, b, c}`), raw and plain strings
(`@"..."`, `"..."`), booleans, numbers and constant expressions in bars
(`|(a + b) * 3 / 4 - 1|`, `|print(x)|`, `|chr(65)|`). The model has two parts.

- **The evaluator** (`Evaluator.Eval`) reduces an expression tree against
  the constants table. It does this post-order and stops at the first error.
  - Strings are coerced on `+`.
  - `-`, `*` and `/` accept numbers only, with Python's `bool`-is-`int` rule.
  - `/` is true division, and a zero divisor is rejected.
  - It handles `print` and `chr`, and fails on an undefined name.
- **The transformer** turns a parse tree into a value. It uses one callback
  per grammar rule and threads the constants table through the statements
  in textual order.
  - `string`, `bool` and `number` are scalar callbacks.
  - `array`, `dict` and `start` fold their children.
  - `const_decl` binds a constant. `const_expr` hands a built expression to
    the evaluator.
  - `parse_config` wraps every failure into a single configuration syntax
    error.

Values are immutable datatypes (`Values.Value`). Python's insertion-ordered
`dict` is a sequence of entries with unique keys (module `Tables`). Python
floats are exact `real`s. Failures are a `Result` whose error is
`Errors.Fault`. The grammar itself is not modelled: `Transformer.Document`
is the parse tree, with one constructor per rule the callbacks handle.

The modules are:

- `Results`: `Option`, `Result` and the fail-fast `Collect`.
- `Values`: the values and Python's type tests.
- `Numerals`: `int(...)`, `float(...)` and `str(...)` of numbers.
- `Render`: `str` and `repr`.
- `Tables`: dict assignment and `update`.
- `Errors`: the faults.
- `Evaluator`: the evaluator.
- `Transformer`: the callbacks, the statement fold and `parse_config`.
- `Scenarios`: worked inputs from the program's test suite.

## Model

| member | source | states |
|---|---|---|
| Evaluator.Plus2 | src/evaluator.py:9-14 | A string on either side gives a string: two strings concatenate, and a mixed pair is the left operand's `str` followed by the right operand's `str`. Two numbers give their exact sum, an int exactly when both are int or bool and a float otherwise. Two lists concatenate. The result is an error exactly when neither side is a string, the operands are not both numbers and not both lists. |
| Evaluator.EmptyStringIsPrint | src/evaluator.py:12-13 | Adding the empty string on either side of a value is the same as `print` of that value. |
| Evaluator.Arith | src/evaluator.py:19-20 | Numeric `+`, `-`, `*` give an int exactly when both operands are int or bool, and a float as soon as one is a float. The value is the exact arithmetic result either way. |
| Evaluator.Numeric2 | src/evaluator.py:16-28 | `-` and `*` succeed exactly on two numbers, with the exact difference or product; int with int stays int and any float operand makes the result a float. Any other operand types give an error naming the operator and both types. |
| Evaluator.Quotient | src/evaluator.py:30-37 | Division succeeds exactly on two numbers with a nonzero divisor. The result is always a float `q` with `q * divisor == dividend`. A zero divisor (0, 0.0 or False) is always the division-by-zero error. Non-numbers give the operand-type error. |
| Evaluator.Chr | src/evaluator.py:45-48 | On success the result is a one-character string whose code point is the argument. Success holds exactly for code points that are Unicode scalar values. Out of `range(0x110000)` is an error carrying the number. |
| Evaluator.Apply | src/evaluator.py:39-50 | `print` gives the argument's `str`. `chr` on an int or bool is `Chr` of its integer, and on anything else is an error naming the type. Any other name is an unknown-function error naming it. |
| Evaluator.OperandOrder | src/evaluator.py:5-58 | A literal is its own value. The left operand's error is the result whatever the right is. Then comes the right operand's error. A value needs both operands to have one. A call's argument error comes before the function name is looked at. |
| Evaluator.EvalReadsOnlyFreeVars | src/evaluator.py:52-56 | Evaluation only reads the table, and only at the names the expression mentions: two tables that agree there give the same result. |
| Evaluator.FaultsNameTheirConstruct | src/evaluator.py:16-56 | Every failure is traced to its cause: an undefined variable is read by the expression and absent from the table; an unknown function is called in it and is neither `print` nor `chr`; an operand-type error names one of its operators; `chr` errors need a `chr` call and division by zero needs a `/`. The evaluator never reports a malformed number. |
| Evaluator.DeclaredNamesResolve | src/evaluator.py:52-56 | If every name the expression reads is declared, it never fails with an undefined variable. |
| Evaluator.ConstantIsItsValue | src/evaluator.py:52-55 | Reading a constant bound to `v` is the same as writing the literal `v` in its place, whatever else the table holds. |
| Evaluator.EvalIsArithmetic | src/evaluator.py:9-37 | On purely arithmetic expressions the evaluator fails exactly when some division has a zero divisor, and then only with the division-by-zero error. Otherwise it yields the exact mathematical value of the expression. The value is an int exactly when no division and no float take part. |
| Transformer.StringForms | src/parser.py:46-52 | `@"t"` and `"t"` both reduce to exactly `t`, for every `t`. Only the delimiters are removed and nothing is unescaped. |
| Transformer.BoolToken | src/parser.py:54-56 | A boolean token is true if and only if its text is exactly `true`. |
| Transformer.NumberCallback | src/parser.py:58-63 | A number token is the int `int()` reads when it reads one; otherwise the float `float()` reads; when neither accepts it, the malformed-number error carrying the token. |
| Transformer.IntegerTokens | src/parser.py:58-61 | Every token `int()` accepts reduces to that int, whatever its spelling: plain digits with leading zeros, and digits after `+` or `-`, each give the digits' value with the sign applied. |
| Numerals.ParseIntSpellings | src/parser.py:60-61 | `int()` reads plain digits, `+digits` and `-digits` as the digits' decimal value, negated for `-`. |
| Transformer.NumberTokens | src/parser.py:58-63 | A decimal-integer token reduces to that integer and never to a float. A token with a point or exponent reduces to the float it denotes, or fails as a malformed number. |
| Transformer.BuildExpr | src/parser.py:69-89 | The operator callbacks build a tree that reads exactly the names written in the block. Building fails only on a malformed number token, and then exactly when one exists. |
| Transformer.BuildThenEval | src/parser.py:65-89 | Building the operator tuples of a block and evaluating them gives the same result as evaluating the parse tree directly, operator by operator, left operand first. |
| Transformer.ConstExprEvaluates | src/parser.py:65-67 | A `const_expr` with well-formed number tokens yields exactly the direct evaluation of its parse tree; one with a malformed number fails with the malformed-number error. |
| Transformer.ArrayKeepsOrder | src/parser.py:43-44 | An array reduces when all its present children do. The list then has one element per child, each child's value at its own position (`None` for an absent one). |
| Transformer.DictCallbackSpec | src/parser.py:30-41 | The dict skips absent items. It is the fold of `d[k] = v` over the present pairs: keys unique, equal as a set to the pairs' keys, in first-occurrence order, and each key holds the value of its last pair. |
| Transformer.StartCallbackSpec | src/parser.py:13-22 | The top-level fold inserts pairs and merges dicts left to right and ignores everything else. Keys are unique, in first-occurrence order, and the last contributor of a key wins. |
| Transformer.ConstantReference | src/parser.py:65-67 | A `const_expr` naming a declared constant yields exactly its value. An undeclared one is an error naming it, never a default. |
| Transformer.ReduceStmt | src/parser.py:24-41 | A statement succeeds exactly when its value node reduces, and otherwise fails with that node's error. A declaration contributes no value and binds its name to the reduced value, leaving every other binding as it was (rebinding overwrites). A pair contributes its key with the reduced value, and a bare value contributes that value; both leave the table unchanged. |
| Transformer.ReduceStmts | src/parser.py:10-11 | Threading the shared table through the statements yields one result per statement. The final table holds exactly the starting names plus the declared ones. |
| Transformer.StatementSeesItsPrefix | src/parser.py:10-11 | In a successful run, statement `i` is reduced against the table the statements before it left. Its output is the run's output at `i`, and the rest of the run continues from the table it leaves. |
| Transformer.UndeclaredKept | src/parser.py:24-28 | A name no statement of a successful run declares keeps its starting value. |
| Transformer.LastDeclarationWins | src/parser.py:24-28 | After a successful run each declared name holds the value of its last declaration, reduced against the table in force at that point. |
| Transformer.ReduceStmtsAppend | src/parser.py:10-11 | Reducing `a + b` is reducing `a` and then `b` from the table `a` left, so declarations are seen by everything after them and a failure in `a` stops the run. |
| Transformer.DeclarationThenUse | src/parser.py:24-28 | After `var x := n;` the block `|x|` yields the declared value. A second declaration of `x` silently replaces the first. |
| Transformer.ParseConfig | src/parser.py:106-112 | The result is the transformer's value exactly when the transformer succeeds. Otherwise it is a configuration syntax error carrying the cause. |
| Transformer.FailureAbortsDocument | src/parser.py:106-112 | A statement that fails after successful predecessors makes the whole document fail with its cause, whatever follows. There is no partial result. |
| Tables.PutSpec | src/parser.py:33-35 | After `d[k] = v`, `k` holds `v` and every other key keeps its value. The key order changes only by appending `k` when it is new. |
| Tables.PutAllSpec | src/parser.py:20-21 | `update` keeps keys unique and keeps existing keys in place. It appends new keys in first-occurrence order, gives each key its last entry's value, and leaves keys it does not mention untouched. |
| Tables.PutAllAppend | src/parser.py:20-21 | Assigning `a` and then `b` is assigning `a + b`. |
| Numerals.IntTextRoundTrip | src/parser.py:60-61 | `int(str(i)) == i` for every integer. |
| Numerals.ParseIntRejectsNonDigit | src/parser.py:60-63 | A token with a character other than a digit or a sign is not an int. |
| Numerals.WholeFloatParse | src/parser.py:62-63 | `float(str(i) + ".0")` is `i`. |
| Numerals.WholeFloatText | src/evaluator.py:43-44 | `str` of a float holding a whole number below 10^16 in magnitude is that integer followed by `.0`. |
| Render.IntTextReadsBack | src/evaluator.py:43-44 | What `print` renders for an int reads back as that int. |
| Render.WholeFloatReadsBack | src/evaluator.py:43-44 | A float holding a whole number below 10^16 in magnitude prints as the int's text plus `.0` and reads back as that float. |
| Scenarios.ComplexExpression | tests/test_parser.py:172-184 | The block `(a + b) * 3 / 4 - 1`, as a parse tree, with `a = 10`, `b = 2` is the float 8.0. |
| Scenarios.SpelledIntegers | src/parser.py:58-61 | The tokens `007`, `+5` and `-0` are the ints 7, 5 and 0. |
| Scenarios.Division | tests/test_parser.py:88-96 | `10 / 2` is the float 5.0, and `print` renders it as `5.0`. |
| Scenarios.Functions | tests/test_parser.py:98-116 | `chr(65)` is `"A"` and `print(@"test")` is `"test"`. |
| Scenarios.StringConcatenation | tests/test_parser.py:209-220 | `prefix + name` with `"Hello, "` and `"World"` is `"Hello, World"`. |
| Scenarios.MixedConcatenation | src/evaluator.py:12-13 | `"port " + 8080` is `"port 8080"`. |
| Scenarios.UndeclaredName | src/evaluator.py:52-56 | `|port|` with nothing declared is a syntax error caused by the undefined `port`. |
| Scenarios.DivideByZero | src/evaluator.py:34-35 | `1 / (2 - 2)` is the division-by-zero error. |
| Scenarios.ConstantInTable | tests/test_parser.py:38-53 | `var port := 8080;` followed by `table( server_port => |port| )` is `{"server_port": 8080}`. |
| Scenarios.DuplicateKey | src/parser.py:30-36 | `table( a => 1, a => 2 )` is `{"a": 2}`. |
| Scenarios.ArrayLiteral | tests/test_parser.py:32-36 | `{1, 2, @"four"}` is the list `[1, 2, 'four']`. |

## Left out

- Reading the grammar file, the grammar itself and the Lark LALR engine (src/parser.py:96-104). These cover tokenising, comments, precedence, syntax errors and the parser's own exception types. The model starts from an already-built parse tree (`Transformer.Document`). A syntax error is therefore not modelled; its only effect in the source is the same configuration syntax error.
- The `?start` inlining of a lone top-level child. It is modelled as `Document.Single`, so a document that is one array yields that array, as the program's tests expect.
- The command-line front end and TOML output (`cli.py`): file I/O and process exit codes.
- The exception classes (`src/errors.py`) and the message texts. Every failure is one `Errors.Fault` constructor carrying the data its message reports, and `parse_config`'s two `except` arms collapse into one `ConfigSyntaxError(cause)`.
- IEEE-754 floating point. A float is an exact rational. Sums, products and quotients are exact, there is no overflow, no rounding, no `inf`/`nan` and no `-0.0`.
- Numerals.FloatText: renders positionally with at most 16 fractional digits. It does not produce Python's shortest round-trip `repr`, nor the exponent form Python uses from 10^16 in magnitude (`1e+16`) and below 10^-4 (`1e-05`). The lemmas about it are stated only for whole numbers below 10^16 in magnitude, where the two agree.
- Numerals.IntText: Python (3.11 and later) refuses to convert an int of more than 4300 digits to text, and `int()` refuses such a token, so the number callback then falls back to `float()`. The model has no digit limit.
- Numerals.ParseInt: accepts an optional sign and ASCII digits only. Python's `int()` also accepts surrounding whitespace, `_` digit separators and non-ASCII digits.
- Numerals.ParseFloat: accepts an optional sign, a decimal mantissa and an optional exponent. Python's `float()` also accepts whitespace, `_`, `inf`, `nan` and non-ASCII digits. A token neither function accepts is modelled as `MalformedNumber`.
- Evaluator.Chr: a surrogate code point (0xD800-0xDFFF) is an error (`SurrogateCodePoint`). A Dafny `char` is a Unicode scalar value, so it cannot hold the lone surrogate Python's `chr` would return.
- Evaluator.Plus2: Python's own `+` on non-string operands is modelled for numbers and lists only. Every other type pair is the operand-type error, as Python's `TypeError` would be. The error is only the type names, not Python's message.
- Render.Repr: strings are quoted with `'` without Python's choice of quote character or escaping of special characters.
- Evaluator.Eval: an operator tuple with an unknown tag falls through to being returned as is in the source (src/evaluator.py:58). The transformer never builds one, so `Expr` has no such constructor.
