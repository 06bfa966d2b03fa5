/** The constant-expression evaluator: a post-order reducer over the
    expression trees that the transformer builds for `| ... |` blocks. It
    reads the constants declared so far and fails on the first error. */
module Evaluator {
  import opened Results
  import opened Values
  import opened Render
  import opened Errors

  /** An expression tree. A literal is any already-reduced value; the other
      constructors are the program's operator tuples `('add', l, r)`,
      `('sub', l, r)`, `('mul', l, r)`, `('div', l, r)`,
      `('func_call', name, arg)` and `('var', name)`. */
  datatype Expr =
    | Lit(v: Value)
    | Var(name: string)
    | Add(left: Expr, right: Expr)
    | Sub(left: Expr, right: Expr)
    | Mul(left: Expr, right: Expr)
    | Div(left: Expr, right: Expr)
    | Call(fn: string, arg: Expr)

  /** The constants table: declared name to resolved value. */
  type Constants = map<string, Value>

  datatype ArithOp = Plus | Minus | Times

  function IntApply(op: ArithOp, a: int, b: int): int
  {
    match op
    case Plus => a + b
    case Minus => a - b
    case Times => a * b
  }

  function RealApply(op: ArithOp, a: real, b: real): real
  {
    match op
    case Plus => a + b
    case Minus => a - b
    case Times => a * b
  }

  /** Python's numeric `+`, `-` and `*`: the result is an `int` exactly when
      both operands are `int` (or `bool`), and its value is the exact
      arithmetic result either way. */
  function Arith(op: ArithOp, a: Value, b: Value): (r: Value)
    requires IsNumber(a) && IsNumber(b)
    ensures IsNumber(r)
    ensures r.Int? <==> IsInt(a) && IsInt(b)
    ensures !(IsInt(a) && IsInt(b)) ==> r.Float?
    ensures RealOf(r) == RealApply(op, RealOf(a), RealOf(b))
  {
    if IsInt(a) && IsInt(b) then Int(IntApply(op, IntOf(a), IntOf(b)))
    else Float(RealApply(op, RealOf(a), RealOf(b)))
  }

  /** The `add` case: a string on either side turns both operands into text
      and concatenates them; otherwise Python's own `+` applies, which adds
      numbers, concatenates lists and rejects everything else. */
  function Plus2(a: Value, b: Value): (r: Result<Value, Fault>)
    ensures a.Str? && b.Str? ==> r == Ok(Str(a.s + b.s))
    ensures (a.Str? || b.Str?) ==> r.Ok? && r.value.Str? && |r.value.s| == |Text(a)| + |Text(b)|
                                   && r.value.s[..|Text(a)|] == Text(a) && r.value.s[|Text(a)|..] == Text(b)
    ensures IsInt(a) && IsInt(b) ==> r == Ok(Int(IntOf(a) + IntOf(b)))
    ensures IsNumber(a) && IsNumber(b) ==> r.Ok? && IsNumber(r.value)
                                           && RealOf(r.value) == RealOf(a) + RealOf(b)
                                           && (r.value.Float? <==> !(IsInt(a) && IsInt(b)))
    ensures a.List? && b.List? ==> r == Ok(List(a.items + b.items))
    ensures r.Err? <==> !(a.Str? || b.Str? || (IsNumber(a) && IsNumber(b)) || (a.List? && b.List?))
  {
    if a.Str? || b.Str? then Ok(Str(Text(a) + Text(b)))
    else if IsNumber(a) && IsNumber(b) then Ok(Arith(Plus, a, b))
    else if a.List? && b.List? then Ok(List(a.items + b.items))
    else Err(UnsupportedOperands("+", TypeOf(a), TypeOf(b)))
  }

  /** The `sub` and `mul` cases: numbers only, anything else is an error
      naming the operator and both operand types. */
  function Numeric2(op: ArithOp, symbol: string, a: Value, b: Value): (r: Result<Value, Fault>)
    ensures r.Ok? <==> IsNumber(a) && IsNumber(b)
    ensures r.Ok? ==> IsNumber(r.value) && RealOf(r.value) == RealApply(op, RealOf(a), RealOf(b))
    ensures r.Ok? ==> (r.value.Int? <==> IsInt(a) && IsInt(b))
    ensures r.Ok? ==> (r.value.Float? <==> !(IsInt(a) && IsInt(b)))
    ensures r.Err? ==> r.error == UnsupportedOperands(symbol, TypeOf(a), TypeOf(b))
  {
    if IsNumber(a) && IsNumber(b) then Ok(Arith(op, a, b))
    else Err(UnsupportedOperands(symbol, TypeOf(a), TypeOf(b)))
  }

  /** The `div` case: numbers only, a zero divisor (`0`, `0.0` or `False`) is
      always an error, and otherwise the result is the true quotient as a
      float, also when both operands are integers. */
  function Quotient(a: Value, b: Value): (r: Result<Value, Fault>)
    ensures r.Ok? <==> IsNumber(a) && IsNumber(b) && RealOf(b) != 0.0
    ensures r.Ok? ==> r.value.Float? && r.value.x * RealOf(b) == RealOf(a)
    ensures IsNumber(a) && IsNumber(b) && RealOf(b) == 0.0 ==> r == Err(DivisionByZero)
    ensures !(IsNumber(a) && IsNumber(b)) ==> r == Err(UnsupportedOperands("/", TypeOf(a), TypeOf(b)))
  {
    if IsNumber(a) && IsNumber(b) then
      if RealOf(b) == 0.0 then Err(DivisionByZero)
      else Ok(Float(RealOf(a) / RealOf(b)))
    else Err(UnsupportedOperands("/", TypeOf(a), TypeOf(b)))
  }

  /** Python's `chr(n)`: the one-character string whose code point is `n`. */
  function Chr(n: int): (r: Result<Value, Fault>)
    ensures r.Ok? ==> r.value.Str? && |r.value.s| == 1 && r.value.s[0] as int == n
    ensures r.Ok? <==> 0 <= n < 0xD800 || 0xE000 <= n < 0x11_0000
    ensures (n < 0 || n >= 0x11_0000) ==> r == Err(CodePointOutOfRange(n))
  {
    if n < 0 || n >= 0x11_0000 then Err(CodePointOutOfRange(n))
    else if 0xD800 <= n < 0xE000 then Err(SurrogateCodePoint(n))
    else Ok(Str([n as char]))
  }

  /** The `func_call` case once its argument is evaluated: `print` renders
      the argument as text, `chr` needs an `int`, any other name fails. */
  function Apply(fn: string, a: Value): (r: Result<Value, Fault>)
    ensures fn == "print" ==> r == Ok(Str(Text(a)))
    ensures fn == "chr" && !IsInt(a) ==> r == Err(ChrExpectsInt(TypeOf(a)))
    ensures fn == "chr" && IsInt(a) ==> r == Chr(IntOf(a))
    ensures fn != "print" && fn != "chr" ==> r == Err(UnknownFunction(fn))
  {
    if fn == "print" then Ok(Str(Text(a)))
    else if fn == "chr" then
      if IsInt(a) then Chr(IntOf(a)) else Err(ChrExpectsInt(TypeOf(a)))
    else Err(UnknownFunction(fn))
  }

  /** Reduces an expression tree against the constants table, post-order:
      both operands of every operator are evaluated, left before right, and
      the first failure is the result. */
  function Eval(e: Expr, env: Constants): Result<Value, Fault>
  {
    match e
    case Lit(v) => Ok(v)
    case Var(x) => if x in env then Ok(env[x]) else Err(UndefinedVariable(x))
    case Add(l, r) =>
      var a :- Eval(l, env);
      var b :- Eval(r, env);
      Plus2(a, b)
    case Sub(l, r) =>
      var a :- Eval(l, env);
      var b :- Eval(r, env);
      Numeric2(Minus, "-", a, b)
    case Mul(l, r) =>
      var a :- Eval(l, env);
      var b :- Eval(r, env);
      Numeric2(Times, "*", a, b)
    case Div(l, r) =>
      var a :- Eval(l, env);
      var b :- Eval(r, env);
      Quotient(a, b)
    case Call(fn, arg) =>
      var a :- Eval(arg, env);
      Apply(fn, a)
  }

  /** String coercion is `str`: adding the empty string on either side of
      any value gives what `print` gives for it. */
  lemma EmptyStringIsPrint(a: Value)
    ensures Plus2(Str(""), a) == Apply("print", a)
    ensures Plus2(a, Str("")) == Apply("print", a)
  {
    assert "" + Text(a) == Text(a);
    assert Text(a) + "" == Text(a);
  }

  predicate IsBinary(e: Expr)
  {
    e.Add? || e.Sub? || e.Mul? || e.Div?
  }

  /** Operand order and strictness: the left operand's failure wins whatever
      the right operand is, the right operand's failure comes next, and a
      value needs both operands to have one. A call's argument is evaluated
      before the function name is looked at. A literal is its own value. */
  lemma OperandOrder(e: Expr, env: Constants)
    ensures e.Lit? ==> Eval(e, env) == Ok(e.v)
    ensures IsBinary(e) && Eval(e.left, env).Err? ==> Eval(e, env) == Eval(e.left, env)
    ensures IsBinary(e) && Eval(e.left, env).Ok? && Eval(e.right, env).Err? ==> Eval(e, env) == Eval(e.right, env)
    ensures IsBinary(e) && Eval(e, env).Ok? ==> Eval(e.left, env).Ok? && Eval(e.right, env).Ok?
    ensures e.Call? && Eval(e.arg, env).Err? ==> Eval(e, env) == Eval(e.arg, env)
  {
  }

  /** The names an expression reads from the constants table. */
  function FreeVars(e: Expr): set<string>
  {
    match e
    case Lit(_) => {}
    case Var(x) => {x}
    case Add(l, r) => FreeVars(l) + FreeVars(r)
    case Sub(l, r) => FreeVars(l) + FreeVars(r)
    case Mul(l, r) => FreeVars(l) + FreeVars(r)
    case Div(l, r) => FreeVars(l) + FreeVars(r)
    case Call(_, a) => FreeVars(a)
  }

  /** The function names an expression calls. */
  function Called(e: Expr): set<string>
  {
    match e
    case Lit(_) => {}
    case Var(_) => {}
    case Add(l, r) => Called(l) + Called(r)
    case Sub(l, r) => Called(l) + Called(r)
    case Mul(l, r) => Called(l) + Called(r)
    case Div(l, r) => Called(l) + Called(r)
    case Call(fn, a) => {fn} + Called(a)
  }

  /** The operator symbols an expression uses. */
  function Operators(e: Expr): set<string>
  {
    match e
    case Lit(_) => {}
    case Var(_) => {}
    case Add(l, r) => {"+"} + Operators(l) + Operators(r)
    case Sub(l, r) => {"-"} + Operators(l) + Operators(r)
    case Mul(l, r) => {"*"} + Operators(l) + Operators(r)
    case Div(l, r) => {"/"} + Operators(l) + Operators(r)
    case Call(_, a) => Operators(a)
  }

  /** Two tables that agree on an expression's free names. */
  predicate AgreeOn(names: set<string>, env1: Constants, env2: Constants)
  {
    forall x :: x in names ==> (x in env1 <==> x in env2) && (x in env1 ==> env1[x] == env2[x])
  }

  /** Evaluation only reads the constants table, and only at the names the
      expression mentions: tables that agree there give the same outcome. */
  lemma {:induction false} EvalReadsOnlyFreeVars(e: Expr, env1: Constants, env2: Constants)
    requires AgreeOn(FreeVars(e), env1, env2)
    ensures Eval(e, env1) == Eval(e, env2)
  {
    match e
    case Lit(_) =>
    case Var(x) =>
    case Add(l, r) =>
      EvalReadsOnlyFreeVars(l, env1, env2);
      EvalReadsOnlyFreeVars(r, env1, env2);
    case Sub(l, r) =>
      EvalReadsOnlyFreeVars(l, env1, env2);
      EvalReadsOnlyFreeVars(r, env1, env2);
    case Mul(l, r) =>
      EvalReadsOnlyFreeVars(l, env1, env2);
      EvalReadsOnlyFreeVars(r, env1, env2);
    case Div(l, r) =>
      EvalReadsOnlyFreeVars(l, env1, env2);
      EvalReadsOnlyFreeVars(r, env1, env2);
    case Call(_, a) =>
      EvalReadsOnlyFreeVars(a, env1, env2);
  }

  /** Every failure names a construct of the expression that caused it: an
      undefined variable is one the expression reads and the table lacks, an
      unknown function is one it calls, an operand-type error names one of
      its operators, and the `chr` errors and division by zero come from a
      `chr` call and a division in it. */
  lemma {:induction false} FaultsNameTheirConstruct(e: Expr, env: Constants)
    ensures Eval(e, env).Err? && Eval(e, env).error.UndefinedVariable? ==>
              Eval(e, env).error.name in FreeVars(e) && Eval(e, env).error.name !in env
    ensures Eval(e, env).Err? && Eval(e, env).error.UnknownFunction? ==>
              Eval(e, env).error.name in Called(e) && Eval(e, env).error.name != "print"
              && Eval(e, env).error.name != "chr"
    ensures Eval(e, env).Err? && Eval(e, env).error.UnsupportedOperands? ==>
              Eval(e, env).error.op in Operators(e)
    ensures Eval(e, env).Err? && (Eval(e, env).error.ChrExpectsInt? || Eval(e, env).error.CodePointOutOfRange?
                                  || Eval(e, env).error.SurrogateCodePoint?) ==>
              "chr" in Called(e)
    ensures Eval(e, env).Err? && Eval(e, env).error.DivisionByZero? ==> "/" in Operators(e)
    ensures Eval(e, env).Err? ==> !Eval(e, env).error.MalformedNumber?
  {
    match e
    case Lit(_) =>
    case Var(x) =>
    case Add(l, r) =>
      FaultsNameTheirConstruct(l, env);
      FaultsNameTheirConstruct(r, env);
    case Sub(l, r) =>
      FaultsNameTheirConstruct(l, env);
      FaultsNameTheirConstruct(r, env);
    case Mul(l, r) =>
      FaultsNameTheirConstruct(l, env);
      FaultsNameTheirConstruct(r, env);
    case Div(l, r) =>
      FaultsNameTheirConstruct(l, env);
      FaultsNameTheirConstruct(r, env);
    case Call(_, a) =>
      FaultsNameTheirConstruct(a, env);
  }

  /** An expression all of whose names are declared never fails with an
      undefined variable; one that fails that way reads an undeclared name. */
  lemma {:induction false} DeclaredNamesResolve(e: Expr, env: Constants)
    requires FreeVars(e) <= env.Keys
    ensures !(Eval(e, env).Err? && Eval(e, env).error.UndefinedVariable?)
  {
    FaultsNameTheirConstruct(e, env);
  }

  /** Replaces every read of `x` with the literal `v`. */
  function Subst(e: Expr, x: string, v: Value): Expr
  {
    match e
    case Lit(_) => e
    case Var(y) => if y == x then Lit(v) else e
    case Add(l, r) => Add(Subst(l, x, v), Subst(r, x, v))
    case Sub(l, r) => Sub(Subst(l, x, v), Subst(r, x, v))
    case Mul(l, r) => Mul(Subst(l, x, v), Subst(r, x, v))
    case Div(l, r) => Div(Subst(l, x, v), Subst(r, x, v))
    case Call(fn, a) => Call(fn, Subst(a, x, v))
  }

  /** A constant bound to `v` behaves exactly like the literal `v` written in
      its place: reading `x` from the table and inlining its value agree,
      whatever else the table holds. */
  lemma {:induction false} ConstantIsItsValue(e: Expr, x: string, v: Value, env: Constants)
    ensures Eval(Subst(e, x, v), env - {x}) == Eval(e, env[x := v])
    ensures x !in FreeVars(Subst(e, x, v))
  {
    match e
    case Lit(_) =>
    case Var(y) =>
    case Add(l, r) =>
      ConstantIsItsValue(l, x, v, env);
      ConstantIsItsValue(r, x, v, env);
    case Sub(l, r) =>
      ConstantIsItsValue(l, x, v, env);
      ConstantIsItsValue(r, x, v, env);
    case Mul(l, r) =>
      ConstantIsItsValue(l, x, v, env);
      ConstantIsItsValue(r, x, v, env);
    case Div(l, r) =>
      ConstantIsItsValue(l, x, v, env);
      ConstantIsItsValue(r, x, v, env);
    case Call(_, a) =>
      ConstantIsItsValue(a, x, v, env);
  }

  /** A purely arithmetic expression: numeric literals, constants bound to
      numbers, and the four operators. */
  predicate Numeric(e: Expr, env: Constants)
  {
    match e
    case Lit(v) => IsNumber(v)
    case Var(x) => x in env && IsNumber(env[x])
    case Add(l, r) => Numeric(l, env) && Numeric(r, env)
    case Sub(l, r) => Numeric(l, env) && Numeric(r, env)
    case Mul(l, r) => Numeric(l, env) && Numeric(r, env)
    case Div(l, r) => Numeric(l, env) && Numeric(r, env)
    case Call(_, _) => false
  }

  /** The exact mathematical value of an arithmetic expression (a quotient by
      zero is given the value 0 here; `Eval` rejects it). */
  function Denote(e: Expr, env: Constants): real
    requires Numeric(e, env)
  {
    match e
    case Lit(v) => RealOf(v)
    case Var(x) => RealOf(env[x])
    case Add(l, r) => RealApply(Plus, Denote(l, env), Denote(r, env))
    case Sub(l, r) => RealApply(Minus, Denote(l, env), Denote(r, env))
    case Mul(l, r) => RealApply(Times, Denote(l, env), Denote(r, env))
    case Div(l, r) => if Denote(r, env) == 0.0 then 0.0 else Denote(l, env) / Denote(r, env)
  }

  /** Some division in the expression has a divisor whose value is zero. */
  predicate ZeroDivisor(e: Expr, env: Constants)
    requires Numeric(e, env)
  {
    match e
    case Lit(_) => false
    case Var(_) => false
    case Add(l, r) => ZeroDivisor(l, env) || ZeroDivisor(r, env)
    case Sub(l, r) => ZeroDivisor(l, env) || ZeroDivisor(r, env)
    case Mul(l, r) => ZeroDivisor(l, env) || ZeroDivisor(r, env)
    case Div(l, r) => ZeroDivisor(l, env) || ZeroDivisor(r, env) || Denote(r, env) == 0.0
  }

  /** Integer arithmetic: no division and no float anywhere. */
  predicate Integral(e: Expr, env: Constants)
    requires Numeric(e, env)
  {
    match e
    case Lit(v) => IsInt(v)
    case Var(x) => IsInt(env[x])
    case Add(l, r) => Integral(l, env) && Integral(r, env)
    case Sub(l, r) => Integral(l, env) && Integral(r, env)
    case Mul(l, r) => Integral(l, env) && Integral(r, env)
    case Div(_, _) => false
  }

  /** On arithmetic expressions the evaluator computes the exact mathematical
      value; it fails exactly when some division has a zero divisor, and then
      with a division-by-zero error; and the result is an integer exactly when
      no division and no float take part. */
  lemma {:induction false} EvalIsArithmetic(e: Expr, env: Constants)
    requires Numeric(e, env)
    ensures Eval(e, env).Err? <==> ZeroDivisor(e, env)
    ensures Eval(e, env).Err? ==> Eval(e, env).error == DivisionByZero
    ensures Eval(e, env).Ok? ==> IsNumber(Eval(e, env).value) && RealOf(Eval(e, env).value) == Denote(e, env)
    ensures Eval(e, env).Ok? ==> (IsInt(Eval(e, env).value) <==> Integral(e, env))
  {
    ArithmeticOutcome(e, env);
    ArithmeticValue(e, env);
  }

  /** The first three promises of `EvalIsArithmetic` for one expression. */
  predicate Faithful(e: Expr, env: Constants)
    requires Numeric(e, env)
  {
    && (Eval(e, env).Err? <==> ZeroDivisor(e, env))
    && (Eval(e, env).Ok? ==> IsNumber(Eval(e, env).value) && RealOf(Eval(e, env).value) == Denote(e, env))
    && (Eval(e, env).Err? ==> Eval(e, env).error == DivisionByZero)
  }

  lemma {:induction false} ArithmeticOutcome(e: Expr, env: Constants)
    requires Numeric(e, env)
    ensures Faithful(e, env)
  {
    match e
    case Lit(_) =>
    case Var(_) =>
    case Add(l, r) =>
      ArithmeticOutcome(l, env);
      ArithmeticOutcome(r, env);
      FaithfulAdd(l, r, env);
    case Sub(l, r) =>
      ArithmeticOutcome(l, env);
      ArithmeticOutcome(r, env);
      FaithfulSub(l, r, env);
    case Mul(l, r) =>
      ArithmeticOutcome(l, env);
      ArithmeticOutcome(r, env);
      FaithfulMul(l, r, env);
    case Div(l, r) =>
      ArithmeticOutcome(l, env);
      ArithmeticOutcome(r, env);
      FaithfulDiv(l, r, env);
  }

  lemma FaithfulAdd(l: Expr, r: Expr, env: Constants)
    requires Numeric(l, env) && Numeric(r, env) && Faithful(l, env) && Faithful(r, env)
    ensures Faithful(Add(l, r), env)
  {
  }

  lemma FaithfulSub(l: Expr, r: Expr, env: Constants)
    requires Numeric(l, env) && Numeric(r, env) && Faithful(l, env) && Faithful(r, env)
    ensures Faithful(Sub(l, r), env)
  {
  }

  lemma FaithfulMul(l: Expr, r: Expr, env: Constants)
    requires Numeric(l, env) && Numeric(r, env) && Faithful(l, env) && Faithful(r, env)
    ensures Faithful(Mul(l, r), env)
  {
    if Eval(l, env).Ok? && Eval(r, env).Ok? {
      var a, b := Eval(l, env).value, Eval(r, env).value;
      assert Eval(Mul(l, r), env) == Numeric2(Times, "*", a, b);
    }
  }

  lemma FaithfulDiv(l: Expr, r: Expr, env: Constants)
    requires Numeric(l, env) && Numeric(r, env) && Faithful(l, env) && Faithful(r, env)
    ensures Faithful(Div(l, r), env)
  {
    if Eval(l, env).Ok? && Eval(r, env).Ok? {
      var a, b := Eval(l, env).value, Eval(r, env).value;
      assert Eval(Div(l, r), env) == Quotient(a, b);
      assert RealOf(a) == Denote(l, env) && RealOf(b) == Denote(r, env);
      if RealOf(b) != 0.0 {
        assert Quotient(a, b) == Ok(Float(RealOf(a) / RealOf(b)));
      }
    }
  }

  lemma {:induction false} ArithmeticValue(e: Expr, env: Constants)
    requires Numeric(e, env)
    ensures Eval(e, env).Ok? ==> (IsInt(Eval(e, env).value) <==> Integral(e, env))
  {
    match e
    case Lit(_) =>
    case Var(_) =>
    case Add(l, r) =>
      ArithmeticOutcome(l, env);
      ArithmeticOutcome(r, env);
      ArithmeticValue(l, env);
      ArithmeticValue(r, env);
    case Sub(l, r) =>
      ArithmeticOutcome(l, env);
      ArithmeticOutcome(r, env);
      ArithmeticValue(l, env);
      ArithmeticValue(r, env);
    case Mul(l, r) =>
      ArithmeticOutcome(l, env);
      ArithmeticOutcome(r, env);
      ArithmeticValue(l, env);
      ArithmeticValue(r, env);
    case Div(l, r) =>
  }
}
