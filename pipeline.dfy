/** The conversion and the evaluation chained as the calculator chains them:
    the postfix notation `infijaAPostfija` produces is what `evaluarPostfija`
    reads, and for an expression written with a pair of parentheses around
    every operation the two together compute the expression's value. */
module Pipeline {
  import opened Strings
  import opened Errors
  import opened Tokenizer
  import opened Postfix
  import opened Evaluator

  /** The infix tokens of an expression with every operation in parentheses. */
  function InfixTokens(e: Expr): (ts: seq<string>)
    ensures |ts| > 0
  {
    match e
    case Num(d) => [d]
    case Bin(op, l, r) => ["("] + InfixTokens(l) + [[op]] + InfixTokens(r) + [")"]
  }

  /** The expression written out, e.g. `(3+(4*2))`. */
  function Render(e: Expr): string
  {
    Concat(InfixTokens(e))
  }

  lemma ArithmeticOperatorToken(op: char)
    requires IsArithmeticChar(op)
    ensures IsOperator([op]) && IsToken([op]) && !IsOperand([op])
  {
    assert [op][0] == op;
    assert !IsOperandChar(op);
  }

  lemma ParenTokens()
    ensures IsToken("(") && IsToken(")") && !IsOperand("(") && !IsOperand(")")
  {
    assert IsSymbolChar("("[0]) && IsSymbolChar(")"[0]);
    assert !IsOperandChar("("[0]) && !IsOperandChar(")"[0]);
  }

  /** Two token lists that do not meet in two operands stay separated when
      joined. */
  lemma SeparatedJoin(a: seq<string>, b: seq<string>)
    requires Separated(a) && Separated(b)
    requires |a| > 0 && |b| > 0 ==> !IsOperand(a[|a| - 1]) || !IsOperand(b[0])
    ensures Separated(a + b)
  {
    forall i | 0 <= i < |a + b| - 1
      ensures !(IsOperand((a + b)[i]) && IsOperand((a + b)[i + 1]))
    {
      if i < |a| - 1 {
        assert (a + b)[i] == a[i] && (a + b)[i + 1] == a[i + 1];
      } else if i == |a| - 1 {
        assert (a + b)[i] == a[|a| - 1] && (a + b)[i + 1] == b[0];
      } else {
        assert (a + b)[i] == b[i - |a|] && (a + b)[i + 1] == b[i - |a| + 1];
      }
    }
  }

  /** Every piece of a rendered expression is a token, and no two operands
      are adjacent: a parenthesis or an operator stands between any two. */
  lemma {:induction false} InfixTokensAreTokens(e: Expr)
    requires ValidExpr(e)
    ensures forall t <- InfixTokens(e) :: IsToken(t)
    ensures Separated(InfixTokens(e))
    decreases e
  {
    match e
    case Num(d) =>
      ParseNumeral(d);
    case Bin(op, l, r) =>
      InfixTokensAreTokens(l);
      InfixTokensAreTokens(r);
      ArithmeticOperatorToken(op);
      ParenTokens();
      var a1 := ["("] + InfixTokens(l);
      SeparatedJoin(["("], InfixTokens(l));
      var a2 := a1 + [[op]];
      SeparatedJoin(a1, [[op]]);
      var a3 := a2 + InfixTokens(r);
      SeparatedJoin(a2, InfixTokens(r));
      SeparatedJoin(a3, [")"]);
      assert InfixTokens(e) == a3 + [")"];
  }

  /** The tokens a rendered expression is read back as are its own. */
  lemma TokenizeRender(e: Expr)
    requires ValidExpr(e)
    ensures Tokenize(Render(e)) == InfixTokens(e)
  {
    InfixTokensAreTokens(e);
    TokenizeConcat(InfixTokens(e));
  }

  /** The tokens of `rest` and of the three parts around the operator of a
      binary expression are tokens. */
  lemma BinTokens(op: char, l: Expr, r: Expr, rest: seq<string>)
    requires ValidExpr(Bin(op, l, r))
    requires forall t <- rest :: IsToken(t)
    ensures forall t <- [")"] + rest :: IsToken(t)
    ensures forall t <- InfixTokens(r) + ([")"] + rest) :: IsToken(t)
    ensures forall t <- [[op]] + (InfixTokens(r) + ([")"] + rest)) :: IsToken(t)
    ensures forall t <- InfixTokens(l) + ([[op]] + (InfixTokens(r) + ([")"] + rest))) :: IsToken(t)
  {
    InfixTokensAreTokens(l);
    InfixTokensAreTokens(r);
    ArithmeticOperatorToken(op);
    ParenTokens();
  }

  /** Converting the tokens of a parenthesized expression outputs exactly its
      postfix order and leaves the operator stack as it was. */
  lemma {:induction false} RunInfixTokens(e: Expr, rest: seq<string>, st: seq<string>, out: seq<string>)
    requires ValidExpr(e)
    requires forall t <- rest :: IsToken(t)
    requires StackOk(st)
    ensures forall t <- InfixTokens(e) + rest :: IsToken(t)
    ensures Run(InfixTokens(e) + rest, st, out) == Run(rest, st, out + PostOrder(e))
    decreases e
  {
    InfixTokensAreTokens(e);
    match e
    case Num(d) =>
      ParseNumeral(d);
      RunOperand(d, rest, st, out, out + [d]);
    case Bin(op, l, r) =>
      var o := [op];
      ArithmeticOperatorToken(op);
      BinTokens(op, l, r, rest);
      var afterR := [")"] + rest;
      var afterO := [o] + (InfixTokens(r) + afterR);
      assert InfixTokens(e) + rest == ["("] + (InfixTokens(l) + afterO);
      var st1 := st + ["("];
      var st2 := st1 + [o];
      assert StackOk(st1) && StackOk(st2);
      var out1 := out + PostOrder(l);
      var out2 := out1 + PostOrder(r);
      calc {
        Run(InfixTokens(e) + rest, st, out);
        Run(["("] + (InfixTokens(l) + afterO), st, out);
        { RunOpen(InfixTokens(l) + afterO, st, out, st1); }
        Run(InfixTokens(l) + afterO, st1, out);
        { RunInfixTokens(l, afterO, st1, out); }
        Run(afterO, st1, out1);
        { RunOperatorPushes(o, InfixTokens(r) + afterR, st1, out1, st2); }
        Run(InfixTokens(r) + afterR, st2, out1);
        { RunInfixTokens(r, afterR, st2, out1); }
        Run(afterR, st2, out2);
        { assert st2[..|st2| - 1] == st1;
          RunClosePops(rest, st2, out2, st1, out2 + [o]); }
        Run([")"] + rest, st1, out2 + [o]);
        { assert st1[..|st1| - 1] == st;
          RunCloseOpen(rest, st1, out2 + [o], st); }
        Run(rest, st, out2 + [o]);
        { assert out2 + [o] == out + PostOrder(e); }
        Run(rest, st, out + PostOrder(e));
      }
  }

  /** The shunting-yard conversion of a parenthesized expression is its
      postfix order. */
  lemma ShuntingYardOfInfixTokens(e: Expr)
    requires ValidExpr(e)
    ensures forall t <- InfixTokens(e) :: IsToken(t)
    ensures ShuntingYard(InfixTokens(e)) == Ok(PostOrder(e))
  {
    RunInfixTokens(e, [], [], []);
    assert InfixTokens(e) + [] == InfixTokens(e);
    assert [] + PostOrder(e) == PostOrder(e);
  }

  /** `infijaAPostfija` on a parenthesized expression gives its postfix
      order, space-separated. */
  lemma PostfixOfRender(e: Expr)
    requires ValidExpr(e)
    ensures PostfixNotation(Render(e)) == Ok(Join(PostOrder(e)))
  {
    TokenizeRender(e);
    ShuntingYardOfInfixTokens(e);
  }

  /** Converting a parenthesized expression to postfix and evaluating that
      gives the value of the expression, or the error computing it raises. */
  lemma PipelineComputesValue(e: Expr)
    requires ValidExpr(e)
    ensures PostfixNotation(Render(e)).Ok?
    ensures Evaluation(PostfixNotation(Render(e)).value) == Value(e)
  {
    PostfixOfRender(e);
    EvaluationOfPostOrder(e);
  }

  // ---------------------------------------------------------------------
  // Examples

  lemma DigitLiterals()
    ensures IsNumeral("0") && IsNumeral("1") && IsNumeral("2") && IsNumeral("3") && IsNumeral("4") && IsNumeral("10")
    ensures DigitsValue("0") == 0 && DigitsValue("1") == 1 && DigitsValue("2") == 2 && DigitsValue("3") == 3 && DigitsValue("4") == 4
    ensures DigitsValue("10") == 10
  {
    assert "10"[..1] == "1";
    assert "10"[..1][..0] == "";
  }

  lemma SumTree()
    ensures ValidExpr(Bin('+', Num("3"), Bin('*', Num("4"), Num("2"))))
    ensures PostOrder(Bin('+', Num("3"), Bin('*', Num("4"), Num("2")))) == ["3", "4", "2", "*", "+"]
    ensures Value(Bin('+', Num("3"), Bin('*', Num("4"), Num("2")))) == Ok(11.0)
  {
    DigitLiterals();
  }

  /** `3+4*2` is converted to `3 4 2 * +`, which evaluates to 11. */
  lemma EvaluationOfSum()
    ensures PostfixNotation("3+4*2") == Ok("3 4 2 * +")
    ensures Evaluation("3 4 2 * +") == Ok(11.0)
  {
    PostfixOfSum();
    JoinSum();
    SumTree();
    EvaluationOfPostOrder(Bin('+', Num("3"), Bin('*', Num("4"), Num("2"))));
  }

  lemma QuotientTree()
    ensures ValidExpr(Bin('/', Num("10"), Num("0")))
    ensures PostOrder(Bin('/', Num("10"), Num("0"))) == ["10", "0", "/"]
    ensures Value(Bin('/', Num("10"), Num("0"))) == Err(DivisionByZero)
  {
    DigitLiterals();
  }

  lemma JoinQuotient()
    ensures Join(["10", "0", "/"]) == "10 0 /"
  {
  }

  /** Dividing by zero is refused. */
  lemma EvaluationOfQuotient()
    ensures Evaluation("10 0 /") == Err(DivisionByZero)
  {
    QuotientTree();
    JoinQuotient();
    EvaluationOfPostOrder(Bin('/', Num("10"), Num("0")));
  }

  lemma SpellDifference()
    ensures Concat(["1", "-", "2", "-", "3"]) == "1-2-3"
  {
  }

  lemma DifferenceTrees()
    ensures ValidExpr(Bin('-', Bin('-', Num("1"), Num("2")), Num("3")))
    ensures ValidExpr(Bin('-', Num("1"), Bin('-', Num("2"), Num("3"))))
    ensures Value(Bin('-', Bin('-', Num("1"), Num("2")), Num("3"))) == Ok(-4.0)
    ensures Value(Bin('-', Num("1"), Bin('-', Num("2"), Num("3")))) == Ok(2.0)
  {
    DigitLiterals();
  }

  lemma JoinDifference()
    ensures Join(["1", "2", "-", "3", "-"]) == "1 2 - 3 -"
  {
  }

  /** `1-2-3` is converted to `1 2 - 3 -`, the postfix notation of
      `(1-2)-3`. */
  lemma PostfixOfDifference()
    ensures PostfixNotation("1-2-3") == Ok("1 2 - 3 -")
  {
    OperandDigits();
    SpellDifference();
    JoinDifference();
    InfixOfThree("1", "-", "2", "-", "3");
  }

  /** `1 2 - 3 -` evaluates to -4. */
  lemma EvaluationOfDifference()
    ensures Evaluation("1 2 - 3 -") == Ok(-4.0)
  {
    JoinDifference();
    DifferenceTrees();
    assert PostOrder(Bin('-', Bin('-', Num("1"), Num("2")), Num("3"))) == ["1", "2", "-", "3", "-"];
    EvaluationOfPostOrder(Bin('-', Bin('-', Num("1"), Num("2")), Num("3")));
  }

  /** `^` is neither an operand nor an arithmetic character: the evaluator
      refuses it whatever the stack holds. */
  lemma PowerUnsupported(st: seq<real>)
    ensures EvalStep("^", st) == Err(UnsupportedSymbol("^"))
  {
    assert !IsOperandChar("^"[0]);
    assert !HasArithmeticChar("^") by {
      assert forall i :: 0 <= i < |"^"| ==> "^"[i] == '^';
    }
  }

  lemma PiecesOfPower()
    ensures Pieces("2 3 ^ 2 ^") == ["2", "3", "^", "2", "^"]
  {
    JoinPower();
    PiecesOfJoin(["2", "3", "^", "2", "^"]);
  }

  /** A numeral pushes the number its digits denote. */
  lemma NumeralStep(d: string, st: seq<real>)
    requires IsNumeral(d)
    ensures EvalStep(d, st) == Ok(st + [DigitsValue(d) as real])
  {
    ParseNumeral(d);
  }

  lemma EvalPowerTokens()
    ensures EvalTokens(["2", "3", "^", "2", "^"], []) == Err(UnsupportedSymbol("^"))
  {
    DigitLiterals();
    NumeralStep("2", []);
    NumeralStep("3", [2.0]);
    PowerUnsupported([2.0, 3.0]);
    assert [] + [2.0] == [2.0] && [2.0] + [3.0] == [2.0, 3.0];
    calc {
      EvalTokens(["2", "3", "^", "2", "^"], []);
      { EvalTokensCons("2", ["3", "^", "2", "^"], []);
        assert ["2", "3", "^", "2", "^"] == ["2"] + ["3", "^", "2", "^"]; }
      EvalTokens(["3", "^", "2", "^"], [2.0]);
      { EvalTokensCons("3", ["^", "2", "^"], [2.0]);
        assert ["3", "^", "2", "^"] == ["3"] + ["^", "2", "^"]; }
      EvalTokens(["^", "2", "^"], [2.0, 3.0]);
      { EvalTokensCons("^", ["2", "^"], [2.0, 3.0]);
        assert ["^", "2", "^"] == ["^"] + ["2", "^"]; }
      Err(UnsupportedSymbol("^"));
    }
  }

  /** The converter accepts `2^3^2`, but the evaluator then refuses its `^`. */
  lemma PowerRefused()
    ensures PostfixNotation("2^3^2") == Ok("2 3 ^ 2 ^")
    ensures Evaluation("2 3 ^ 2 ^") == Err(UnsupportedSymbol("^"))
  {
    PostfixOfPower();
    PiecesOfPower();
    EvalPowerTokens();
  }
}
