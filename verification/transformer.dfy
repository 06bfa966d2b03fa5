/** The transformer: bottom-up callbacks that turn a parse tree into a value,
    binding constants as declarations are met and handing each `| ... |`
    block to the evaluator. The grammar and the parser that build the tree
    are outside the model; the tree below has one constructor per rule the
    callbacks handle, and the children a callback receives are the reduced
    results of those constructors' fields. */
module Transformer {
  import opened Results
  import opened Values
  import opened Numerals
  import opened Tables
  import opened Errors
  import opened Evaluator

  /** A terminal handed to one of the scalar rules, with its source text. */
  datatype Token =
    | StringTok(text: string)
    | BoolTok(text: string)
    | NumberTok(text: string)

  /** The rules inside a `| ... |` block: `add`, `sub`, `mul`, `div`,
      `func_call`, `var`, and scalar operands. */
  datatype ExprNode =
    | AddN(left: ExprNode, right: ExprNode)
    | SubN(left: ExprNode, right: ExprNode)
    | MulN(left: ExprNode, right: ExprNode)
    | DivN(left: ExprNode, right: ExprNode)
    | FuncCallN(fn: string, arg: ExprNode)
    | VarN(name: string)
    | OperandN(tok: Token)

  /** The value rules: scalars, `array`, `dict` (whose children are `pair`s)
      and `const_expr`. A `None` child is an absent optional part, which
      the parser passes on as `None`. */
  datatype Node =
    | Scalar(tok: Token)
    | ArrayN(elements: seq<Option<Node>>)
    | DictN(pairs: seq<Option<PairN>>)
    | ConstExprN(expr: ExprNode)

  datatype PairN = PairN(key: string, value: Node)

  /** The children of `start`: constant declarations, pairs and values. */
  datatype Stmt =
    | ConstDeclS(name: string, value: Node)
    | PairS(pair: PairN)
    | ValueS(value: Node)

  /** A whole input: a `start` node over its statements, or a single
      statement when the parser passes the lone child of `start` up in its
      place. */
  datatype Document =
    | Start(stmts: seq<Stmt>)
    | Single(stmt: Stmt)

  /** What a statement's callback returns: `None` from `const_decl`, a
      `(key, value)` tuple from `pair`, or a value. */
  datatype Out = NoValue | Entry(key: string, value: Value) | Val(v: Value)

  // ---------------------------------------------------------------------
  // Scalar callbacks

  /** The `string` callback: removes `@"` and the closing `"` from a raw
      string, or the two quotes from a plain one. Nothing is unescaped.
      Python's slice clamps, so a token too short for its delimiters gives
      the empty string. */
  function StringCallback(s: string): string
  {
    var start := if |s| > 0 && s[0] == '@' then 2 else 1;
    if start < |s| then s[start..|s| - 1] else ""
  }

  /** The `bool` callback. */
  function BoolCallback(s: string): bool
  {
    s == "true"
  }

  /** The `number` callback: `int(s)` first, `float(s)` if that fails, and
      the `ValueError` of `float` when neither accepts the token. */
  function NumberCallback(s: string): (r: Result<Value, Fault>)
    ensures r.Ok? <==> ParseInt(s).Some? || ParseFloat(s).Some?
    ensures ParseInt(s).Some? ==> r == Ok(Int(ParseInt(s).value))
    ensures ParseInt(s).None? && ParseFloat(s).Some? ==> r == Ok(Float(ParseFloat(s).value))
    ensures r.Err? ==> r.error == MalformedNumber(s)
  {
    match ParseInt(s)
    case Some(i) => Ok(Int(i))
    case None => match ParseFloat(s)
      case Some(x) => Ok(Float(x))
      case None => Err(MalformedNumber(s))
  }

  function ReduceToken(t: Token): Result<Value, Fault>
  {
    match t
    case StringTok(s) => Ok(Str(StringCallback(s)))
    case BoolTok(s) => Ok(Bool(BoolCallback(s)))
    case NumberTok(s) => NumberCallback(s)
  }

  /** A raw string `@"t"` and a plain string `"t"` both reduce to exactly
      `t`, whatever characters `t` holds. */
  lemma StringForms(t: string)
    ensures StringCallback("\"" + t + "\"") == t
    ensures StringCallback("@\"" + t + "\"") == t
  {
    var plain := "\"" + t + "\"";
    var raw := "@\"" + t + "\"";
    assert plain[1..|plain| - 1] == t;
    assert raw[2..|raw| - 1] == t;
  }

  /** A boolean token reduces to true exactly when its text is `true`. */
  lemma BoolToken(s: string)
    ensures ReduceToken(BoolTok(s)) == Ok(Bool(true)) <==> s == "true"
    ensures ReduceToken(BoolTok(s)) == Ok(Bool(false)) <==> s != "true"
  {
  }

  /** A number token written as a decimal integer reduces to that integer,
      never to a float; a token with a point or an exponent in it is not an
      integer, so it reduces to the float it denotes. */
  lemma NumberTokens(i: int, s: string, k: int)
    requires 0 <= k < |s| && (s[k] == '.' || s[k] == 'e' || s[k] == 'E')
    ensures ReduceToken(NumberTok(IntText(i))) == Ok(Int(i))
    ensures ParseFloat(s).Some? ==> ReduceToken(NumberTok(s)) == Ok(Float(ParseFloat(s).value))
    ensures ParseFloat(s).None? ==> ReduceToken(NumberTok(s)) == Err(MalformedNumber(s))
  {
    IntTextRoundTrip(i);
    ParseIntRejectsNonDigit(s, k);
  }

  /** Every token `int()` accepts reduces to the integer it denotes,
      whatever its spelling: leading zeros and a sign are read, so `007` is
      7 and `+5` is 5. */
  lemma IntegerTokens(t: string)
    ensures ParseInt(t).Some? ==> ReduceToken(NumberTok(t)) == Ok(Int(ParseInt(t).value))
    ensures |t| > 0 && AllDigits(t) ==> ParseInt(t) == Some(DigitsValue(t))
    ensures |t| > 1 && t[0] == '+' && AllDigits(t[1..]) ==> ParseInt(t) == Some(DigitsValue(t[1..]))
    ensures |t| > 1 && t[0] == '-' && AllDigits(t[1..]) ==> ParseInt(t) == Some(-(DigitsValue(t[1..]) as int))
  {
    ParseIntSpellings(t);
    if ParseInt(t).Some? {
      IntTokenIs(t, ParseInt(t).value);
    }
  }

  /** A token `int()` reads as `i` reduces to the int `i`. */
  lemma IntTokenIs(t: string, i: int)
    requires ParseInt(t) == Some(i)
    ensures ReduceToken(NumberTok(t)) == Ok(Int(i))
  {
  }

  // ---------------------------------------------------------------------
  // Expression builders

  /** The names an expression block reads. */
  function NodeVars(n: ExprNode): set<string>
  {
    match n
    case AddN(l, r) => NodeVars(l) + NodeVars(r)
    case SubN(l, r) => NodeVars(l) + NodeVars(r)
    case MulN(l, r) => NodeVars(l) + NodeVars(r)
    case DivN(l, r) => NodeVars(l) + NodeVars(r)
    case FuncCallN(_, a) => NodeVars(a)
    case VarN(x) => {x}
    case OperandN(_) => {}
  }

  /** Every number token in an expression block is well formed. */
  predicate TokensWellFormed(n: ExprNode)
  {
    match n
    case AddN(l, r) => TokensWellFormed(l) && TokensWellFormed(r)
    case SubN(l, r) => TokensWellFormed(l) && TokensWellFormed(r)
    case MulN(l, r) => TokensWellFormed(l) && TokensWellFormed(r)
    case DivN(l, r) => TokensWellFormed(l) && TokensWellFormed(r)
    case FuncCallN(_, a) => TokensWellFormed(a)
    case VarN(_) => true
    case OperandN(t) => ReduceToken(t).Ok?
  }

  /** The `add`, `sub`, `mul`, `div`, `func_call` and `var` callbacks, which
      build the operator tuples, with scalar operands reduced by their own
      callbacks first. The tree built reads exactly the names written in
      the block, and building fails only on a malformed number. */
  function BuildExpr(n: ExprNode): (r: Result<Expr, Fault>)
    ensures r.Ok? <==> TokensWellFormed(n)
    ensures r.Ok? ==> FreeVars(r.value) == NodeVars(n)
    ensures r.Err? ==> r.error.MalformedNumber?
  {
    match n
    case AddN(l, r) =>
      var a :- BuildExpr(l);
      var b :- BuildExpr(r);
      Ok(Add(a, b))
    case SubN(l, r) =>
      var a :- BuildExpr(l);
      var b :- BuildExpr(r);
      Ok(Sub(a, b))
    case MulN(l, r) =>
      var a :- BuildExpr(l);
      var b :- BuildExpr(r);
      Ok(Mul(a, b))
    case DivN(l, r) =>
      var a :- BuildExpr(l);
      var b :- BuildExpr(r);
      Ok(Div(a, b))
    case FuncCallN(fn, a) =>
      var x :- BuildExpr(a);
      Ok(Call(fn, x))
    case VarN(x) => Ok(Var(x))
    case OperandN(t) =>
      var v :- ReduceToken(t);
      Ok(Lit(v))
  }

  /** A block evaluated in one pass straight on its parse tree: operands
      left before right, scalars by their callbacks, names from the table,
      and the evaluator's own operator semantics. */
  function EvalNode(n: ExprNode, env: Constants): Result<Value, Fault>
  {
    match n
    case AddN(l, r) =>
      var a :- EvalNode(l, env);
      var b :- EvalNode(r, env);
      Plus2(a, b)
    case SubN(l, r) =>
      var a :- EvalNode(l, env);
      var b :- EvalNode(r, env);
      Numeric2(Minus, "-", a, b)
    case MulN(l, r) =>
      var a :- EvalNode(l, env);
      var b :- EvalNode(r, env);
      Numeric2(Times, "*", a, b)
    case DivN(l, r) =>
      var a :- EvalNode(l, env);
      var b :- EvalNode(r, env);
      Quotient(a, b)
    case FuncCallN(fn, x) =>
      var a :- EvalNode(x, env);
      Apply(fn, a)
    case VarN(x) => if x in env then Ok(env[x]) else Err(UndefinedVariable(x))
    case OperandN(t) => ReduceToken(t)
  }

  /** A `const_expr` is the block's meaning: when its number tokens are well
      formed, building the operator tuples and evaluating them is the same
      as evaluating the parse tree directly; otherwise the malformed number
      is the error, before any name is looked up. */
  lemma {:induction false} ConstExprEvaluates(n: ExprNode, env: Constants)
    ensures TokensWellFormed(n) ==> Reduce(ConstExprN(n), env) == EvalNode(n, env)
    ensures !TokensWellFormed(n) ==> Reduce(ConstExprN(n), env).Err?
                                     && Reduce(ConstExprN(n), env).error.MalformedNumber?
  {
    if TokensWellFormed(n) {
      BuildThenEval(n, env);
    }
  }

  lemma {:induction false} BuildThenEval(n: ExprNode, env: Constants)
    requires TokensWellFormed(n)
    ensures Eval(BuildExpr(n).value, env) == EvalNode(n, env)
  {
    match n
    case AddN(l, r) =>
      BuildThenEval(l, env);
      BuildThenEval(r, env);
      assert BuildExpr(n).value == Add(BuildExpr(l).value, BuildExpr(r).value);
    case SubN(l, r) =>
      BuildThenEval(l, env);
      BuildThenEval(r, env);
      assert BuildExpr(n).value == Sub(BuildExpr(l).value, BuildExpr(r).value);
    case MulN(l, r) =>
      BuildThenEval(l, env);
      BuildThenEval(r, env);
      assert BuildExpr(n).value == Mul(BuildExpr(l).value, BuildExpr(r).value);
    case DivN(l, r) =>
      BuildThenEval(l, env);
      BuildThenEval(r, env);
      assert BuildExpr(n).value == Div(BuildExpr(l).value, BuildExpr(r).value);
    case FuncCallN(fn, x) =>
      BuildThenEval(x, env);
      assert BuildExpr(n).value == Call(fn, BuildExpr(x).value);
    case VarN(_) =>
    case OperandN(_) =>
  }

  // ---------------------------------------------------------------------
  // Collection callbacks

  /** The `pair` entries that are present, in order. */
  function Present(items: seq<Option<(string, Value)>>): Entries<Value>
  {
    if items == [] then []
    else
      var n := |items| - 1;
      Present(items[..n]) + (if items[n].Some? then [items[n].value] else [])
  }

  /** The `dict` callback: starting from an empty dict, skips `None` items
      and assigns each `(key, value)` in order. */
  function DictCallback(items: seq<Option<(string, Value)>>): Entries<Value>
  {
    if items == [] then []
    else
      var n := |items| - 1;
      var acc := DictCallback(items[..n]);
      match items[n]
      case None => acc
      case Some(kv) => Put(acc, kv.0, kv.1)
  }

  /** The `dict` callback is a Python dict built from the present pairs: its
      keys are unique, are exactly the pairs' keys, appear in order of first
      occurrence, and each holds the value of the last pair with that key. */
  lemma {:induction false} DictCallbackSpec(items: seq<Option<(string, Value)>>)
    ensures DictCallback(items) == PutAll([], Present(items))
    ensures Distinct(KeySeq(DictCallback(items)))
    ensures KeySeq(DictCallback(items)) == FirstOccurrences(KeySeq(Present(items)))
    ensures forall k :: k in KeySeq(DictCallback(items)) <==> k in KeySeq(Present(items))
    ensures forall i :: 0 <= i < |Present(items)| && LastWithKey(Present(items), i) ==>
              Lookup(DictCallback(items), Present(items)[i].0) == Some(Present(items)[i].1)
  {
    DictIsPutAll(items);
    PutAllSpec([], Present(items));
    assert KeySeq<Value>([]) + KeySeq(Present(items)) == KeySeq(Present(items));
  }

  lemma {:induction false} DictIsPutAll(items: seq<Option<(string, Value)>>)
    ensures DictCallback(items) == PutAll([], Present(items))
  {
    if items != [] {
      var n := |items| - 1;
      DictIsPutAll(items[..n]);
      if items[n].Some? {
        PutAllAppend([], Present(items[..n]), [items[n].value]);
        assert [items[n].value][..0] == [];
      } else {
        assert Present(items) == Present(items[..n]);
      }
    }
  }

  /** What one child of `start` adds to the result: a pair adds itself, a
      dict adds all its entries, anything else adds nothing. */
  function Contribution(o: Out): Entries<Value>
  {
    match o
    case Entry(k, v) => [(k, v)]
    case Val(Dict(es)) => es
    case _ => []
  }

  function Contributions(items: seq<Out>): Entries<Value>
  {
    if items == [] then []
    else
      var n := |items| - 1;
      Contributions(items[..n]) + Contribution(items[n])
  }

  /** The `start` callback: starting from an empty dict, skips `None`,
      assigns a `(key, value)` tuple, merges a dict with `update`, and
      ignores every other item. */
  function StartCallback(items: seq<Out>): Entries<Value>
  {
    if items == [] then []
    else
      var n := |items| - 1;
      var acc := StartCallback(items[..n]);
      match items[n]
      case NoValue => acc
      case Entry(k, v) => Put(acc, k, v)
      case Val(v) => if v.Dict? then PutAll(acc, v.entries) else acc
  }

  /** The `start` callback is a Python dict built from everything its items
      contribute, in order: keys unique, in order of first occurrence, and
      later keys win, whether they come from a pair or a merged dict. */
  lemma {:induction false} StartCallbackSpec(items: seq<Out>)
    ensures StartCallback(items) == PutAll([], Contributions(items))
    ensures Distinct(KeySeq(StartCallback(items)))
    ensures KeySeq(StartCallback(items)) == FirstOccurrences(KeySeq(Contributions(items)))
    ensures forall i :: 0 <= i < |Contributions(items)| && LastWithKey(Contributions(items), i) ==>
              Lookup(StartCallback(items), Contributions(items)[i].0) == Some(Contributions(items)[i].1)
  {
    StartIsPutAll(items);
    PutAllSpec([], Contributions(items));
    assert KeySeq<Value>([]) + KeySeq(Contributions(items)) == KeySeq(Contributions(items));
  }

  lemma {:induction false} StartIsPutAll(items: seq<Out>)
    ensures StartCallback(items) == PutAll([], Contributions(items))
  {
    if items != [] {
      var n := |items| - 1;
      StartIsPutAll(items[..n]);
      PutAllAppend([], Contributions(items[..n]), Contribution(items[n]));
      match items[n]
      case NoValue =>
        assert Contributions(items) == Contributions(items[..n]);
      case Entry(k, v) =>
        assert [(k, v)][..0] == [];
      case Val(v) =>
        if !v.Dict? {
          assert Contributions(items) == Contributions(items[..n]);
        }
    }
  }

  // ---------------------------------------------------------------------
  // Reduction of a whole tree

  /** Reduces a value node bottom-up against the constants declared so far:
      scalars by their callbacks, `array` keeping every child (an absent one
      as `None`) in order, `dict` through its callback, and `const_expr` by
      building the expression and evaluating it. The first failure, in
      textual order, is the result. */
  function Reduce(n: Node, env: Constants): Result<Value, Fault>
  {
    match n
    case Scalar(t) => ReduceToken(t)
    case ArrayN(elements) =>
      var vs :- Collect(seq(|elements|, i requires 0 <= i < |elements| =>
                          if elements[i].None? then Ok(Null) else Reduce(elements[i].value, env)));
      Ok(List(vs))
    case DictN(pairs) =>
      var ps :- Collect(seq(|pairs|, i requires 0 <= i < |pairs| =>
                          match pairs[i]
                          case None => Ok(None)
                          case Some(p) =>
                            match Reduce(p.value, env)
                            case Ok(v) => Ok(Some((p.key, v)))
                            case Err(f) => Err(f)));
      Ok(Dict(DictCallback(ps)))
    case ConstExprN(e) =>
      var x :- BuildExpr(e);
      Eval(x, env)
  }

  /** The `array` callback keeps every child, in order: the list has one
      element per child, the reduced child at the same position. */
  lemma ArrayKeepsOrder(elements: seq<Option<Node>>, env: Constants)
    ensures Reduce(ArrayN(elements), env).Ok? <==>
              forall i :: 0 <= i < |elements| && elements[i].Some? ==> Reduce(elements[i].value, env).Ok?
    ensures Reduce(ArrayN(elements), env).Ok? ==>
              && Reduce(ArrayN(elements), env).value.List?
              && |Reduce(ArrayN(elements), env).value.items| == |elements|
              && forall i :: 0 <= i < |elements| ==>
                   Reduce(ArrayN(elements), env).value.items[i]
                   == (if elements[i].None? then Null else Reduce(elements[i].value, env).value)
  {
    var rs := seq(|elements|, i requires 0 <= i < |elements| =>
                if elements[i].None? then Ok(Null) else Reduce(elements[i].value, env));
    assert forall i :: 0 <= i < |elements| ==> rs[i].Ok? == (elements[i].None? || Reduce(elements[i].value, env).Ok?);
  }

  /** A `const_expr` reads the constants declared so far: a block that is a
      single name yields exactly the value bound to it, and an undeclared
      name is an error that names it. */
  lemma ConstantReference(x: string, env: Constants)
    ensures x in env ==> Reduce(ConstExprN(VarN(x)), env) == Ok(env[x])
    ensures x !in env ==> Reduce(ConstExprN(VarN(x)), env) == Err(UndefinedVariable(x))
  {
  }

  /** The value node a statement reduces. */
  function Rhs(s: Stmt): Node
  {
    match s
    case ConstDeclS(_, n) => n
    case PairS(p) => p.value
    case ValueS(n) => n
  }

  /** One child of `start` reduced in order. It succeeds exactly when its
      value node does, and otherwise fails with that node's error.
      `const_decl` binds (or rebinds) its name to the reduced value and
      contributes no value; `pair` contributes its key with the reduced
      value and `value` the reduced value, both leaving the table as it
      is. */
  function ReduceStmt(s: Stmt, env: Constants): (r: Result<(Out, Constants), Fault>)
    ensures r.Ok? <==> Reduce(Rhs(s), env).Ok?
    ensures r.Err? ==> r.error == Reduce(Rhs(s), env).error
    ensures r.Ok? && s.ConstDeclS? ==> r.value.0 == NoValue && s.name in r.value.1
                                       && r.value.1[s.name] == Reduce(s.value, env).value
                                       && r.value.1 == env[s.name := r.value.1[s.name]]
    ensures r.Ok? && s.PairS? ==> r.value.0 == Entry(s.pair.key, Reduce(s.pair.value, env).value)
    ensures r.Ok? && s.ValueS? ==> r.value.0 == Val(Reduce(s.value, env).value)
    ensures r.Ok? && !s.ConstDeclS? ==> r.value.1 == env && !r.value.0.NoValue?
  {
    match s
    case ConstDeclS(x, n) =>
      var v :- Reduce(n, env);
      Ok((NoValue, env[x := v]))
    case PairS(p) =>
      var v :- Reduce(p.value, env);
      Ok((Entry(p.key, v), env))
    case ValueS(n) =>
      var v :- Reduce(n, env);
      Ok((Val(v), env))
  }

  /** The names a run of statements declares. */
  function Declared(ss: seq<Stmt>): set<string>
  {
    set i | 0 <= i < |ss| && ss[i].ConstDeclS? :: ss[i].name
  }

  /** The children of `start`, reduced left to right with the constants
      table threaded through, stopping at the first failure. On success
      there is one result per statement and the table holds exactly the
      names it started with plus the declared ones. */
  function ReduceStmts(ss: seq<Stmt>, env: Constants): (r: Result<(seq<Out>, Constants), Fault>)
    ensures r.Ok? ==> |r.value.0| == |ss|
    ensures r.Ok? ==> r.value.1.Keys == env.Keys + Declared(ss)
  {
    if ss == [] then Ok(([], env))
    else
      var (o, env1) :- ReduceStmt(ss[0], env);
      var (os, env2) :- ReduceStmts(ss[1..], env1);
      DeclaredCons(ss);
      Ok(([o] + os, env2))
  }

  lemma DeclaredCons(ss: seq<Stmt>)
    requires ss != []
    ensures Declared(ss) == (if ss[0].ConstDeclS? then {ss[0].name} else {}) + Declared(ss[1..])
  {
    assert forall i :: 0 < i < |ss| ==> ss[1..][i - 1] == ss[i];
  }

  /** Continues a successful run of statements with `b`, from the table the
      run left behind; a failed run stays failed. */
  function Then(ra: Result<(seq<Out>, Constants), Fault>, b: seq<Stmt>): Result<(seq<Out>, Constants), Fault>
  {
    var (oa, env1) :- ra;
    var (ob, env2) :- ReduceStmts(b, env1);
    Ok((oa + ob, env2))
  }

  /** Reducing `a + b` is reducing `a` and then `b` from the table `a` left:
      constants declared in `a` are seen by `b`, and a failure in `a` stops
      everything. */
  lemma {:induction false} ReduceStmtsAppend(a: seq<Stmt>, b: seq<Stmt>, env: Constants)
    ensures ReduceStmts(a + b, env) == Then(ReduceStmts(a, env), b)
  {
    if a == [] {
      assert a + b == b;
      if ReduceStmts(b, env).Ok? {
        assert [] + ReduceStmts(b, env).value.0 == ReduceStmts(b, env).value.0;
      }
    } else {
      assert (a + b)[0] == a[0];
      assert (a + b)[1..] == a[1..] + b;
      var r0 := ReduceStmt(a[0], env);
      if r0.Ok? {
        ReduceStmtsAppend(a[1..], b, r0.value.1);
        StepThen(r0.value.0, ReduceStmts(a[1..], r0.value.1), b);
      }
    }
  }

  /** One reduced statement in front of a run, then `b`: the same as the run
      and `b`, with the statement's output in front. */
  lemma StepThen(o: Out, rest: Result<(seq<Out>, Constants), Fault>, b: seq<Stmt>)
    ensures Then(Prepend(o, rest), b) == Prepend(o, Then(rest, b))
  {
    if rest.Ok? && ReduceStmts(b, rest.value.1).Ok? {
      var rb := ReduceStmts(b, rest.value.1).value.0;
      assert [o] + (rest.value.0 + rb) == ([o] + rest.value.0) + rb;
    }
  }

  /** Puts `o` in front of the outputs of a successful run. */
  function Prepend(o: Out, r: Result<(seq<Out>, Constants), Fault>): Result<(seq<Out>, Constants), Fault>
  {
    if r.Ok? then Ok(([o] + r.value.0, r.value.1)) else r
  }

  /** The first statement of a successful run succeeds, its output heads
      the run's outputs, and the rest of the run continues from its table. */
  lemma ReduceStmtsCons(ss: seq<Stmt>, env: Constants)
    requires ss != [] && ReduceStmts(ss, env).Ok?
    ensures ReduceStmt(ss[0], env).Ok?
    ensures ReduceStmts(ss, env).value.0[0] == ReduceStmt(ss[0], env).value.0
    ensures ReduceStmts(ss[1..], ReduceStmt(ss[0], env).value.1)
            == Ok((ReduceStmts(ss, env).value.0[1..], ReduceStmts(ss, env).value.1))
  {
    var os := ReduceStmts(ss[1..], ReduceStmt(ss[0], env).value.1).value.0;
    assert ([ReduceStmt(ss[0], env).value.0] + os)[1..] == os;
  }

  /** A successful continuation comes from a successful run and a
      successful continuation of it. */
  lemma ThenOk(ra: Result<(seq<Out>, Constants), Fault>, b: seq<Stmt>)
    requires Then(ra, b).Ok?
    ensures ra.Ok? && ReduceStmts(b, ra.value.1).Ok?
    ensures Then(ra, b).value == (ra.value.0 + ReduceStmts(b, ra.value.1).value.0,
                                  ReduceStmts(b, ra.value.1).value.1)
  {
  }

  /** Statement `i` of a successful run is reduced against the table left
      by the statements before it: its output is the run's output at `i`,
      and the rest of the run continues from the table it leaves. */
  lemma StatementSeesItsPrefix(ss: seq<Stmt>, env: Constants, i: int)
    requires ReduceStmts(ss, env).Ok? && 0 <= i < |ss|
    ensures ReduceStmts(ss[..i], env).Ok?
    ensures ReduceStmt(ss[i], ReduceStmts(ss[..i], env).value.1).Ok?
    ensures ReduceStmts(ss, env).value.0[i] == ReduceStmt(ss[i], ReduceStmts(ss[..i], env).value.1).value.0
    ensures ReduceStmts(ss[i + 1..], ReduceStmt(ss[i], ReduceStmts(ss[..i], env).value.1).value.1)
            == Ok((ReduceStmts(ss, env).value.0[i + 1..], ReduceStmts(ss, env).value.1))
  {
    assert ss[..i] + ss[i..] == ss;
    ReduceStmtsAppend(ss[..i], ss[i..], env);
    ThenOk(ReduceStmts(ss[..i], env), ss[i..]);
    var e := ReduceStmts(ss[..i], env).value.1;
    assert ss[i..][0] == ss[i] && ss[i..][1..] == ss[i + 1..];
    ReduceStmtsCons(ss[i..], e);
    ConcatAt(ReduceStmts(ss[..i], env).value.0, ReduceStmts(ss[i..], e).value.0);
  }

  /** The element just past a prefix, and what follows it. */
  lemma ConcatAt(a: seq<Out>, b: seq<Out>)
    requires |b| > 0
    ensures (a + b)[|a|] == b[0] && (a + b)[|a| + 1..] == b[1..]
  {
  }

  /** A name no statement of the run declares keeps its value. */
  lemma {:induction false} UndeclaredKept(ss: seq<Stmt>, env: Constants, x: string)
    requires ReduceStmts(ss, env).Ok? && x !in Declared(ss) && x in env
    ensures x in ReduceStmts(ss, env).value.1 && ReduceStmts(ss, env).value.1[x] == env[x]
  {
    if ss != [] {
      DeclaredCons(ss);
      var env1 := ReduceStmt(ss[0], env).value.1;
      UndeclaredKept(ss[1..], env1, x);
    }
  }

  /** After a successful run each declared name holds the value of its last
      declaration, reduced against the table in force at that point. */
  lemma LastDeclarationWins(ss: seq<Stmt>, env: Constants, i: int)
    requires ReduceStmts(ss, env).Ok? && 0 <= i < |ss| && ss[i].ConstDeclS?
    requires forall j :: i < j < |ss| ==> !(ss[j].ConstDeclS? && ss[j].name == ss[i].name)
    ensures ReduceStmts(ss[..i], env).Ok?
    ensures Reduce(ss[i].value, ReduceStmts(ss[..i], env).value.1).Ok?
    ensures ReduceStmts(ss, env).value.1[ss[i].name]
            == Reduce(ss[i].value, ReduceStmts(ss[..i], env).value.1).value
  {
    StatementSeesItsPrefix(ss, env, i);
    var e := ReduceStmts(ss[..i], env).value.1;
    var e1 := ReduceStmt(ss[i], e).value.1;
    var tail := ss[i + 1..];
    assert forall k :: 0 <= k < |tail| ==> tail[k] == ss[i + 1 + k];
    assert ss[i].name !in Declared(tail);
    UndeclaredKept(tail, e1, ss[i].name);
  }

  /** A declaration is visible to every later statement: after
      `var x := n;` a block `|x|` yields the declared value, and a second
      declaration of `x` silently replaces the first. */
  lemma DeclarationThenUse(x: string, n: Node, m: Node, env: Constants)
    requires Reduce(n, env).Ok?
    requires Reduce(m, env[x := Reduce(n, env).value]).Ok?
    ensures ReduceStmts([ConstDeclS(x, n), ValueS(ConstExprN(VarN(x)))], env)
            == Ok(([NoValue, Val(Reduce(n, env).value)], env[x := Reduce(n, env).value]))
    ensures ReduceStmts([ConstDeclS(x, n), ConstDeclS(x, m)], env)
            == Ok(([NoValue, NoValue], env[x := Reduce(m, env[x := Reduce(n, env).value]).value]))
  {
    DeclareThenRead(x, n, env);
    DeclareTwice(x, n, m, env);
  }

  lemma DeclareThenRead(x: string, n: Node, env: Constants)
    requires Reduce(n, env).Ok?
    ensures ReduceStmts([ConstDeclS(x, n), ValueS(ConstExprN(VarN(x)))], env)
            == Ok(([NoValue, Val(Reduce(n, env).value)], env[x := Reduce(n, env).value]))
  {
    var v := Reduce(n, env).value;
    var env1 := env[x := v];
    assert ReduceStmt(ConstDeclS(x, n), env) == Ok((NoValue, env1));
    var use := ValueS(ConstExprN(VarN(x)));
    assert ReduceStmt(use, env1) == Ok((Val(v), env1)) by {
      assert Reduce(ConstExprN(VarN(x)), env1) == Ok(v);
    }
    TwoStmts(ConstDeclS(x, n), use, env);
  }

  lemma DeclareTwice(x: string, n: Node, m: Node, env: Constants)
    requires Reduce(n, env).Ok?
    requires Reduce(m, env[x := Reduce(n, env).value]).Ok?
    ensures ReduceStmts([ConstDeclS(x, n), ConstDeclS(x, m)], env)
            == Ok(([NoValue, NoValue], env[x := Reduce(m, env[x := Reduce(n, env).value]).value]))
  {
    var env1 := env[x := Reduce(n, env).value];
    assert ReduceStmt(ConstDeclS(x, n), env) == Ok((NoValue, env1));
    var w := Reduce(m, env1).value;
    assert ReduceStmt(ConstDeclS(x, m), env1) == Ok((NoValue, env1[x := w]));
    TwoStmts(ConstDeclS(x, n), ConstDeclS(x, m), env);
    assert env1[x := w] == env[x := w];
  }

  /** Two statements in a row, the second reduced against the table the
      first leaves. */
  lemma TwoStmts(s: Stmt, t: Stmt, env: Constants)
    requires ReduceStmt(s, env).Ok?
    requires ReduceStmt(t, ReduceStmt(s, env).value.1).Ok?
    ensures ReduceStmts([s, t], env)
            == Ok(([ReduceStmt(s, env).value.0, ReduceStmt(t, ReduceStmt(s, env).value.1).value.0],
                   ReduceStmt(t, ReduceStmt(s, env).value.1).value.1))
  {
    var (o1, e1) := ReduceStmt(s, env).value;
    var (o2, e2) := ReduceStmt(t, e1).value;
    assert [s, t][1..] == [t];
    assert [t][1..] == [];
    assert ReduceStmts([t], e1) == Ok(([o2], e2)) by {
      assert [o2] + [] == [o2];
    }
    assert [o1] + [o2] == [o1, o2];
  }

  /** The transformer applied to a whole document, starting from an empty
      constants table. */
  function Translate(d: Document): Result<Out, Fault>
  {
    match d
    case Start(ss) =>
      var (os, _) :- ReduceStmts(ss, map[]);
      Ok(Val(Dict(StartCallback(os))))
    case Single(s) =>
      var (o, _) :- ReduceStmt(s, map[]);
      Ok(o)
  }

  /** `parse_config` once the tree exists: the transformer's result, or its
      failure re-raised as a configuration syntax error carrying the cause;
      never a partial result. */
  function ParseConfig(d: Document): (r: Result<Out, ConfigSyntaxError>)
    ensures r.Ok? <==> Translate(d).Ok?
    ensures r.Ok? ==> r.value == Translate(d).value
    ensures r.Err? ==> r.error == ConfigSyntaxError(Translate(d).error)
  {
    Translate(d).MapFailure(f => ConfigSyntaxError(f))
  }

  /** Fail fast, all or nothing: if the statements before `s` succeed and `s`
      then fails, the whole document fails with that cause, whatever
      follows. */
  lemma FailureAbortsDocument(pre: seq<Stmt>, s: Stmt, post: seq<Stmt>)
    requires ReduceStmts(pre, map[]).Ok?
    requires ReduceStmt(s, ReduceStmts(pre, map[]).value.1).Err?
    ensures ParseConfig(Start(pre + [s] + post))
            == Err(ConfigSyntaxError(ReduceStmt(s, ReduceStmts(pre, map[]).value.1).error))
  {
    var env1 := ReduceStmts(pre, map[]).value.1;
    ReduceStmtsAppend(pre, [s] + post, map[]);
    assert pre + [s] + post == pre + ([s] + post);
    assert ([s] + post)[0] == s;
  }
}
