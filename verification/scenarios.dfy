/** Worked inputs from the program's test suite, stated over the model: each
    lemma gives a parse tree as the grammar would build it and the value (or
    error) the translator produces for it. */
module Scenarios {
  import opened Results
  import opened Values
  import opened Errors
  import opened Evaluator
  import opened Transformer

  function Num(text: string): Node
  {
    Scalar(NumberTok(text))
  }

  function NumOp(text: string): ExprNode
  {
    OperandN(NumberTok(text))
  }

  /** `var a := 10; var b := 2;` then `|(a + b) * 3 / 4 - 1|` is 8, computed
      with true division, so it is the float 8.0. */
  lemma ComplexExpression()
    ensures Reduce(ConstExprN(SubN(DivN(MulN(AddN(VarN("a"), VarN("b")), NumOp("3")), NumOp("4")), NumOp("1"))),
                   map["a" := Int(10), "b" := Int(2)])
            == Ok(Float(8.0))
  {
    var env := map["a" := Int(10), "b" := Int(2)];
    var scaled := MulN(AddN(VarN("a"), VarN("b")), NumOp("3"));
    var quarter := DivN(scaled, NumOp("4"));
    Digits341();
    ScaledQuarter(env);
    assert EvalNode(SubN(quarter, NumOp("1")), env) == Ok(Float(8.0)) by {
      assert Numeric2(Minus, "-", Float(9.0), Int(1)) == Ok(Float(8.0));
    }
    assert TokensWellFormed(SubN(quarter, NumOp("1")));
    ConstExprEvaluates(SubN(quarter, NumOp("1")), env);
  }

  /** `(a + b) * 3 / 4` with `a = 10`, `b = 2` is the float 9.0. */
  lemma ScaledQuarter(env: Constants)
    requires env == map["a" := Int(10), "b" := Int(2)]
    requires ReduceToken(NumberTok("3")) == Ok(Int(3))
    requires ReduceToken(NumberTok("4")) == Ok(Int(4))
    ensures EvalNode(DivN(MulN(AddN(VarN("a"), VarN("b")), NumOp("3")), NumOp("4")), env) == Ok(Float(9.0))
  {
    ScaledSum(env);
    assert Quotient(Int(36), Int(4)) == Ok(Float(9.0));
  }

  /** The tokens `3`, `4` and `1` reduce to their ints. */
  lemma Digits341()
    ensures ReduceToken(NumberTok("3")) == Ok(Int(3))
    ensures ReduceToken(NumberTok("4")) == Ok(Int(4))
    ensures ReduceToken(NumberTok("1")) == Ok(Int(1))
  {
    assert [Numerals.DigitChar(3)] == "3" && [Numerals.DigitChar(4)] == "4" && [Numerals.DigitChar(1)] == "1";
    SmallToken(3);
    SmallToken(4);
    SmallToken(1);
  }

  /** `(a + b) * 3` with `a = 10`, `b = 2` is the int 36. */
  lemma ScaledSum(env: Constants)
    requires env == map["a" := Int(10), "b" := Int(2)]
    requires ReduceToken(NumberTok("3")) == Ok(Int(3))
    ensures EvalNode(MulN(AddN(VarN("a"), VarN("b")), NumOp("3")), env) == Ok(Int(36))
  {
    assert EvalNode(AddN(VarN("a"), VarN("b")), env) == Ok(Int(12));
  }

  /** The one-digit token for `d` reduces to the int `d`. */
  lemma SmallToken(d: int)
    requires 0 <= d <= 9
    ensures ReduceToken(NumberTok([Numerals.DigitChar(d)])) == Ok(Int(d))
  {
    assert Numerals.DigitsValue([Numerals.DigitChar(d)]) == d;
  }

  /** `int()` reads leading zeros and an explicit sign: `007` is 7, `+5` is
      5 and `-0` is 0, each an int. */
  lemma SpelledIntegers()
    ensures ReduceToken(NumberTok("007")) == Ok(Int(7))
    ensures ReduceToken(NumberTok("+5")) == Ok(Int(5))
    ensures ReduceToken(NumberTok("-0")) == Ok(Int(0))
  {
    IntegerTokens("007");
    IntegerTokens("+5");
    IntegerTokens("-0");
    assert "007"[1..] == "07" && "07"[1..] == "7";
    assert "+5"[1..] == "5" && "-0"[1..] == "0";
  }

  /** `|10 / 2|` is 5, as the float 5.0, and `print` renders it as "5.0". */
  lemma Division()
    ensures Eval(Div(Lit(Int(10)), Lit(Int(2))), map[]) == Ok(Float(5.0))
    ensures Eval(Call("print", Div(Lit(Int(10)), Lit(Int(2)))), map[]) == Ok(Str("5.0"))
  {
    assert Quotient(Int(10), Int(2)) == Ok(Float(5.0));
    assert Eval(Div(Lit(Int(10)), Lit(Int(2))), map[]) == Ok(Float(5.0));
    FiveText();
  }

  /** The float 5.0 prints as "5.0". */
  lemma FiveText()
    ensures Render.Text(Float(5.0)) == "5.0"
  {
    Numerals.WholeFloatText(5);
    assert Numerals.IntText(5) == "5";
  }

  /** A number token holding `str(i)` reduces to the `int` `i`. */
  lemma IntToken(i: int, env: Constants)
    ensures Reduce(Num(Numerals.IntText(i)), env) == Ok(Int(i))
  {
    Numerals.IntTextRoundTrip(i);
  }

  /** `|chr(65)|` is "A" and `|print(@"test")|` is "test". */
  lemma Functions()
    ensures Reduce(ConstExprN(FuncCallN("chr", NumOp("65"))), map[]) == Ok(Str("A"))
    ensures Reduce(ConstExprN(FuncCallN("print", OperandN(StringTok("@\"test\"")))), map[]) == Ok(Str("test"))
  {
    StringForms("test");
    assert "@\"" + "test" + "\"" == "@\"test\"";
    assert Numerals.IntText(65) == "65";
    Numerals.IntTextRoundTrip(65);
    assert Chr(65) == Ok(Str(['A']));
  }

  /** `var prefix := @"Hello, "; var name := @"World";` then
      `|prefix + name|` is "Hello, World". */
  lemma StringConcatenation()
    ensures Eval(Add(Var("prefix"), Var("name")), map["prefix" := Str("Hello, "), "name" := Str("World")])
            == Ok(Str("Hello, World"))
  {
    assert "Hello, " + "World" == "Hello, World";
  }

  /** A number added to a string is rendered as text first. */
  lemma MixedConcatenation()
    ensures Eval(Add(Lit(Str("port ")), Lit(Int(8080))), map[]) == Ok(Str("port 8080"))
  {
    assert Numerals.IntText(8080) == "8080";
    assert Render.Text(Int(8080)) == "8080";
    assert "port " + "8080" == "port 8080";
  }

  /** A name never declared is an error that names it. */
  lemma UndeclaredName()
    ensures ParseConfig(Single(ValueS(ConstExprN(VarN("port")))))
            == Err(ConfigSyntaxError(UndefinedVariable("port")))
  {
  }

  /** Dividing by zero never yields a value. */
  lemma DivideByZero()
    ensures Eval(Div(Lit(Int(1)), Sub(Lit(Int(2)), Lit(Int(2)))), map[]) == Err(DivisionByZero)
  {
  }

  /** The table `table( server_port => |port| )`. */
  function PortTable(): Node
  {
    DictN([Some(PairN("server_port", ConstExprN(VarN("port"))))])
  }

  /** With `port` bound to 8080 the table reads it. */
  lemma PortTableValue()
    ensures Reduce(PortTable(), map["port" := Int(8080)]) == Ok(Dict([("server_port", Int(8080))]))
  {
    var ps := [Some(("server_port", Int(8080)))];
    assert DictCallback(ps) == [("server_port", Int(8080))] by {
      assert ps[..0] == [];
    }
  }

  /** The table as the last statement of a document. */
  lemma PortTableStatement()
    ensures ReduceStmts([ValueS(PortTable())], map["port" := Int(8080)])
            == Ok(([Val(Dict([("server_port", Int(8080))]))], map["port" := Int(8080)]))
  {
    var env := map["port" := Int(8080)];
    var tail := [ValueS(PortTable())];
    var out := Val(Dict([("server_port", Int(8080))]));
    PortTableValue();
    assert tail[1..] == [];
    assert ReduceStmts(tail[1..], env) == Ok(([], env));
    assert ReduceStmt(tail[0], env) == Ok((out, env));
    assert [out] + [] == [out];
  }

  /** `var port := 8080;` then `table( server_port => |port| )` gives the
      dict `{"server_port": 8080}`. */
  lemma ConstantInTable()
    ensures ParseConfig(Start([ConstDeclS("port", Num("8080")), ValueS(PortTable())]))
            == Ok(Val(Dict([("server_port", Int(8080))])))
  {
    assert Numerals.IntText(8080) == "8080";
    Numerals.IntTextRoundTrip(8080);
    var env := map["port" := Int(8080)];
    var stmts := [ConstDeclS("port", Num("8080")), ValueS(PortTable())];
    var out := Val(Dict([("server_port", Int(8080))]));
    PortTableStatement();
    assert stmts[1..] == [ValueS(PortTable())];
    assert ReduceStmt(stmts[0], map[]) == Ok((NoValue, env));
    assert [NoValue] + [out] == [NoValue, out];
    assert ReduceStmts(stmts, map[]) == Ok(([NoValue, out], env));
    var outs := [NoValue, out];
    assert outs[..1] == [NoValue];
    assert outs[..1][..0] == [];
    var es := [("server_port", Int(8080))];
    assert es[..0] == [];
    assert Tables.PutAll([], es) == es;
    assert StartCallback(outs[..1]) == [];
    assert outs[1] == Val(Dict(es));
    assert StartCallback(outs) == es;
  }

  /** `table( a => 1, a => 2 )`: the later pair wins and the key appears
      once. */
  lemma DuplicateKey()
    ensures Reduce(DictN([Some(PairN("a", Num("1"))), Some(PairN("a", Num("2")))]), map[])
            == Ok(Dict([("a", Int(2))]))
  {
    assert Numerals.IntText(1) == "1" && Numerals.IntText(2) == "2";
    Numerals.IntTextRoundTrip(1);
    Numerals.IntTextRoundTrip(2);
    var ps := [Some(("a", Int(1))), Some(("a", Int(2)))];
    assert ps[..1] == [Some(("a", Int(1)))];
    assert ps[..1][..0] == [];
    assert DictCallback(ps) == [("a", Int(2))];
  }

  /** `{1, 2, @"four"}` gives the list `[1, 2, 'four']`, in order. */
  lemma ArrayLiteral()
    ensures ParseConfig(Single(ValueS(ArrayN([Some(Num("1")), Some(Num("2")),
                                              Some(Scalar(StringTok("@\"four\"")))]))))
            == Ok(Val(List([Int(1), Int(2), Str("four")])))
  {
    var elements := [Some(Num("1")), Some(Num("2")), Some(Scalar(StringTok("@\"four\"")))];
    ArrayElements();
    ArrayKeepsOrder(elements, map[]);
    var r := Reduce(ArrayN(elements), map[]);
    assert r.value.items == [Int(1), Int(2), Str("four")];
  }

  /** The three elements of `{1, 2, @"four"}`, one at a time. */
  lemma ArrayElements()
    ensures Reduce(Num("1"), map[]) == Ok(Int(1))
    ensures Reduce(Num("2"), map[]) == Ok(Int(2))
    ensures Reduce(Scalar(StringTok("@\"four\"")), map[]) == Ok(Str("four"))
  {
    assert Numerals.IntText(1) == "1" && Numerals.IntText(2) == "2";
    IntToken(1, map[]);
    IntToken(2, map[]);
    StringForms("four");
    assert "@\"" + "four" + "\"" == "@\"four\"";
  }
}
