/** `infijaAPostfija`: the shunting-yard conversion of an infix expression to
    postfix, its precedence table, and the functions that specify its loops. */
module Postfix {
  import opened Strings
  import opened Errors
  import opened Tokenizer

  predicate IsOperatorChar(c: char)
  {
    c == '+' || c == '-' || c == '*' || c == '/' || c == '^'
  }

  /** A token of the converter's operator branch. */
  predicate IsOperator(t: string)
  {
    |t| == 1 && IsOperatorChar(t[0])
  }

  /** The precedence table `precedencia`: `+ -` bind weakest, then `* /`, then `^`. */
  function Precedence(op: string): nat
    requires IsOperator(op)
  {
    if op[0] == '+' || op[0] == '-' then 1
    else if op[0] == '*' || op[0] == '/' then 2
    else 3
  }

  /** `mayorOIgualPrecedencia(op1, op2)`. */
  predicate HasHigherOrEqualPrecedence(op1: string, op2: string)
    requires IsOperator(op1) && IsOperator(op2)
  {
    Precedence(op1) >= Precedence(op2)
  }

  /** A single-symbol token is an open parenthesis, a close parenthesis or an operator. */
  lemma SymbolCases(t: string)
    requires IsSymbol(t)
    ensures t == "(" || t == ")" || IsOperator(t)
    ensures t == "(" <==> t[0] == '('
    ensures t == ")" <==> t[0] == ')'
  {
    assert t == [t[0]];
  }

  /** The operator stack `pila` holds open parentheses and operators, never ')'. */
  predicate StackOk(st: seq<string>)
  {
    forall i :: 0 <= i < |st| ==> st[i] == "(" || IsOperator(st[i])
  }

  /** Between parentheses the stacked operators strictly increase in
      precedence from bottom to top. */
  predicate Ascending(st: seq<string>)
    requires StackOk(st)
  {
    forall i :: 0 <= i < |st| - 1 && st[i] != "(" && st[i + 1] != "(" ==>
      Precedence(st[i]) < Precedence(st[i + 1])
  }

  /** A list of operator tokens only. */
  predicate AllOperators(ts: seq<string>)
  {
    forall i :: 0 <= i < |ts| ==> IsOperator(ts[i])
  }

  /** The inner loop of the operator branch: pop and output stacked operators
      while the top is not '(' and binds at least as tightly as `op`. */
  function PopOperators(st: seq<string>, out: seq<string>, op: string): (r: (seq<string>, seq<string>))
    requires StackOk(st) && IsOperator(op)
    ensures |r.0| <= |st| && r.0 == st[..|r.0|]
    decreases |st|
  {
    if |st| > 0 && st[|st| - 1] != "(" && HasHigherOrEqualPrecedence(st[|st| - 1], op) then
      PopOperators(st[..|st| - 1], out + [st[|st| - 1]], op)
    else
      (st, out)
  }

  /** The operator branch pops a top segment of the stack made of operators
      that bind at least as tightly as `op` and outputs it top first; it
      stops at '(', at the bottom, or below an operator that binds less
      tightly than `op`. */
  lemma {:induction false} PopOperatorsEffect(st: seq<string>, out: seq<string>, op: string)
    requires StackOk(st) && IsOperator(op)
    ensures var r := PopOperators(st, out, op);
      && r.1 == out + Reverse(st[|r.0|..])
      && AllOperators(st[|r.0|..])
      && (forall j :: |r.0| <= j < |st| ==> st[j] != "(" && Precedence(st[j]) >= Precedence(op))
      && (|r.0| == 0 || st[|r.0| - 1] == "(" || Precedence(st[|r.0| - 1]) < Precedence(op))
    decreases |st|
  {
    var r := PopOperators(st, out, op);
    if |st| > 0 && st[|st| - 1] != "(" && HasHigherOrEqualPrecedence(st[|st| - 1], op) {
      var init := st[..|st| - 1];
      var x := st[|st| - 1];
      PopOperatorsEffect(init, out + [x], op);
      assert r == PopOperators(init, out + [x], op);
      assert st == init + [x];
      PopOneMore(st, init, x, out, |r.0|, r.1);
    } else {
      assert st[|st|..] == [];
    }
  }

  /** The ')' branch: pop and output operators down to the nearest '(' and
      discard it; with no '(' on the stack the conversion fails. */
  function PopToOpen(st: seq<string>, out: seq<string>): (r: Result<(seq<string>, seq<string>)>)
    requires StackOk(st)
    ensures r.Ok? ==> |r.value.0| < |st| && r.value.0 == st[..|r.value.0|]
    ensures r.Err? ==> r.error == UnbalancedParentheses
    decreases |st|
  {
    if |st| == 0 then Err(UnbalancedParentheses)
    else if st[|st| - 1] != "(" then PopToOpen(st[..|st| - 1], out + [st[|st| - 1]])
    else Ok((st[..|st| - 1], out))
  }

  /** The ')' branch fails exactly when no '(' is on the stack. */
  lemma {:induction false} PopToOpenFails(st: seq<string>, out: seq<string>)
    requires StackOk(st)
    ensures PopToOpen(st, out).Err? <==> "(" !in st
    decreases |st|
  {
    if |st| > 0 && st[|st| - 1] != "(" {
      var init := st[..|st| - 1];
      PopToOpenFails(init, out + [st[|st| - 1]]);
      assert st == init + [st[|st| - 1]];
    }
  }

  /** One popped operator `x` more on top of a popped segment `init[j..]`. */
  lemma PopOneMore(st: seq<string>, init: seq<string>, x: string, out: seq<string>, j: nat, popped: seq<string>)
    requires st == init + [x] && IsOperator(x) && j <= |init|
    requires AllOperators(init[j..])
    requires popped == out + [x] + Reverse(init[j..])
    ensures AllOperators(st[j..])
    ensures popped == out + Reverse(st[j..])
  {
    assert st[j..] == init[j..] + [x];
    ReverseAppend(init[j..], [x]);
    assert Reverse([x]) == [x];
    forall i | 0 <= i < |st[j..]| ensures IsOperator(st[j..][i]) {
      if i < |init[j..]| {
        assert st[j..][i] == init[j..][i];
      }
    }
  }

  /** When the ')' branch succeeds it outputs, top first, the operators above
      the nearest '(' and removes them together with that '('. */
  lemma {:induction false} PopToOpenEffect(st: seq<string>, out: seq<string>)
    requires StackOk(st)
    ensures var r := PopToOpen(st, out);
      r.Ok? ==>
        var k := |r.value.0|;
        && st[k] == "("
        && AllOperators(st[k + 1..])
        && r.value.1 == out + Reverse(st[k + 1..])
    decreases |st|
  {
    if |st| > 0 && st[|st| - 1] != "(" {
      var init := st[..|st| - 1];
      var x := st[|st| - 1];
      PopToOpenEffect(init, out + [x]);
      var r := PopToOpen(st, out);
      assert r == PopToOpen(init, out + [x]);
      if r.Ok? {
        var k := |r.value.0|;
        assert st == init + [x];
        PopOneMore(st, init, x, out, k + 1, r.value.1);
      }
    }
  }

  /** The final loop: output the remaining operators top first; a '(' left on
      the stack fails the conversion. */
  function Flush(st: seq<string>, out: seq<string>): (r: Result<seq<string>>)
    requires StackOk(st)
    ensures r.Err? ==> r.error == UnbalancedParentheses
    decreases |st|
  {
    if |st| == 0 then Ok(out)
    else if st[|st| - 1] == "(" then Err(UnbalancedParentheses)
    else Flush(st[..|st| - 1], out + [st[|st| - 1]])
  }

  /** The final loop fails exactly when a '(' is left on the stack; otherwise
      it outputs the whole stack top first. */
  lemma {:induction false} FlushEffect(st: seq<string>, out: seq<string>)
    requires StackOk(st)
    ensures Flush(st, out).Err? <==> "(" in st
    ensures Flush(st, out).Ok? ==> Flush(st, out).value == out + Reverse(st)
    decreases |st|
  {
    if |st| > 0 && st[|st| - 1] != "(" {
      var init := st[..|st| - 1];
      FlushEffect(init, out + [st[|st| - 1]]);
      assert st == init + [st[|st| - 1]];
    }
  }

  /** One iteration of the main loop on token `t`: operands go to the output,
      '(' is pushed, ')' pops down to its '(', and an operator pops the
      operators that bind at least as tightly and is pushed. */
  function Step(t: string, st: seq<string>, out: seq<string>): (r: Result<(seq<string>, seq<string>)>)
    requires IsToken(t) && StackOk(st)
    ensures r.Ok? ==> StackOk(r.value.0)
    ensures r.Err? ==> r.error == UnbalancedParentheses
  {
    if IsOperand(t) then Ok((st, out + [t]))
    else if t == "(" then Ok((st + [t], out))
    else if t == ")" then PopToOpen(st, out)
    else
      SymbolCases(t);
      var popped := PopOperators(st, out, t);
      Ok((popped.0 + [t], popped.1))
  }

  /** The main loop from token list `ts` on, followed by the final flush. */
  function Run(ts: seq<string>, st: seq<string>, out: seq<string>): Result<seq<string>>
    requires forall t <- ts :: IsToken(t)
    requires StackOk(st)
    decreases |ts|
  {
    if |ts| == 0 then Flush(st, out)
    else
      match Step(ts[0], st, out)
      case Err(e) => Err(e)
      case Ok(next) =>
        assert forall t <- ts[1..] :: t in ts;
        Run(ts[1..], next.0, next.1)
  }

  /** The postfix tokens of a token list, starting from an empty stack and output. */
  function ShuntingYard(ts: seq<string>): Result<seq<string>>
    requires forall t <- ts :: IsToken(t)
  {
    Run(ts, [], [])
  }

  /** What `infijaAPostfija(infix)` returns or throws. */
  function PostfixNotation(infix: string): Result<string>
  {
    match ShuntingYard(Tokenize(infix))
    case Ok(out) => Ok(Join(out))
    case Err(e) => Err(e)
  }

  /** `infijaAPostfija`: the shunting-yard loop over local stack and output lists. */
  method InfixToPostfix(infix: string) returns (r: Result<string>)
    ensures r == PostfixNotation(infix)
  {
    var tokens := Tokenize(infix);
    var stack: seq<string> := [];
    var output: seq<string> := [];
    for i := 0 to |tokens|
      invariant StackOk(stack) && Ascending(stack)
      invariant Run(tokens[i..], stack, output) == ShuntingYard(tokens)
    {
      var token := tokens[i];
      ghost var before, beforeOut := stack, output;
      assert tokens[i] in tokens;
      assert tokens[i..][1..] == tokens[i + 1..];
      ghost var next := Step(token, stack, output);
      if IsOperand(token) {
        output := output + [token];
      } else if token == "(" {
        stack := stack + [token];
      } else if token == ")" {
        while |stack| > 0 && stack[|stack| - 1] != "("
          invariant StackOk(stack)
          invariant PopToOpen(stack, output) == next
        {
          output := output + [stack[|stack| - 1]];
          stack := stack[..|stack| - 1];
        }
        if |stack| > 0 {
          stack := stack[..|stack| - 1];
        } else {
          return Err(UnbalancedParentheses);
        }
      } else {
        SymbolCases(token);
        while |stack| > 0 && stack[|stack| - 1] != "(" && HasHigherOrEqualPrecedence(stack[|stack| - 1], token)
          invariant StackOk(stack)
          invariant Ok((PopOperators(stack, output, token).0 + [token], PopOperators(stack, output, token).1)) == next
        {
          output := output + [stack[|stack| - 1]];
          stack := stack[..|stack| - 1];
        }
        stack := stack + [token];
      }
      assert next == Ok((stack, output));
      StepKeepsAscending(token, before, beforeOut);
    }
    while |stack| > 0
      invariant StackOk(stack)
      invariant Flush(stack, output) == ShuntingYard(tokens)
    {
      if stack[|stack| - 1] == "(" {
        return Err(UnbalancedParentheses);
      }
      output := output + [stack[|stack| - 1]];
      stack := stack[..|stack| - 1];
    }
    return Ok(Join(output));
  }

  /** Every step keeps the stack ascending between parentheses. */
  lemma StepKeepsAscending(t: string, st: seq<string>, out: seq<string>)
    requires IsToken(t) && StackOk(st) && Ascending(st)
    requires Step(t, st, out).Ok?
    ensures Ascending(Step(t, st, out).value.0)
  {
    if !IsOperand(t) && t != "(" && t != ")" {
      SymbolCases(t);
      var popped := PopOperators(st, out, t);
      PopOperatorsEffect(st, out, t);
      var k := |popped.0|;
      var st' := popped.0 + [t];
      forall i | 0 <= i < |st'| - 1 && st'[i] != "(" && st'[i + 1] != "("
        ensures Precedence(st'[i]) < Precedence(st'[i + 1])
      {
        assert st'[i] == st[i];
        if i + 1 < k {
          assert st'[i + 1] == st[i + 1];
        }
      }
    }
  }

  lemma {:induction false} AscendingChain(st: seq<string>, i: nat, j: nat)
    requires StackOk(st) && Ascending(st)
    requires i <= j < |st|
    requires forall m :: i <= m <= j ==> st[m] != "("
    ensures Precedence(st[i]) <= Precedence(st[j])
    decreases j - i
  {
    if i < j {
      AscendingChain(st, i + 1, j);
    }
  }

  /** The precedence rule: on an ascending stack, an incoming operator pops
      every stacked operator above the nearest '(' whose precedence is at
      least its own; the ensures of `PopOperators` say that it pops nothing
      else. Equal precedence pops too, so every operator, `^` included, is
      left-associative. */
  lemma PopOperatorsPopsEveryHigher(st: seq<string>, out: seq<string>, op: string, j: nat)
    requires StackOk(st) && Ascending(st) && IsOperator(op)
    requires j < |st|
    requires forall m :: j <= m < |st| ==> st[m] != "("
    requires Precedence(st[j]) >= Precedence(op)
    ensures j >= |PopOperators(st, out, op).0|
  {
    PopOperatorsEffect(st, out, op);
    var k := |PopOperators(st, out, op).0|;
    if j < k {
      AscendingChain(st, j, k - 1);
    }
  }

  // ---------------------------------------------------------------------
  // What the conversion does to the tokens

  /** The tokens of `ts` other than parentheses, in order. */
  function WithoutParens(ts: seq<string>): (r: seq<string>)
    ensures forall t <- r :: t != "(" && t != ")"
    decreases |ts|
  {
    if |ts| == 0 then []
    else (if ts[0] == "(" || ts[0] == ")" then [] else [ts[0]]) + WithoutParens(ts[1..])
  }

  lemma {:induction false} WithoutParensAppend(a: seq<string>, b: seq<string>)
    ensures WithoutParens(a + b) == WithoutParens(a) + WithoutParens(b)
    decreases |a|
  {
    if |a| == 0 {
      assert a + b == b;
    } else {
      assert (a + b)[1..] == a[1..] + b;
      WithoutParensAppend(a[1..], b);
    }
  }

  lemma {:induction false} WithoutParensOfNone(ts: seq<string>)
    requires forall i :: 0 <= i < |ts| ==> ts[i] != "(" && ts[i] != ")"
    ensures WithoutParens(ts) == ts
    decreases |ts|
  {
    if |ts| > 0 {
      WithoutParensOfNone(ts[1..]);
    }
  }

  /** The operator tokens of `ts`, in order. */
  function Operators(ts: seq<string>): seq<string>
  {
    if |ts| == 0 then [] else (if IsOperator(ts[0]) then [ts[0]] else []) + Operators(ts[1..])
  }

  /** Without its parentheses, a token list holds its operands and its operators. */
  lemma {:induction false} WithoutParensCount(ts: seq<string>)
    requires forall t <- ts :: IsToken(t)
    ensures |WithoutParens(ts)| == |Operands(ts)| + |Operators(ts)|
    decreases |ts|
  {
    if |ts| > 0 {
      assert ts[0] in ts;
      assert forall t <- ts[1..] :: t in ts;
      WithoutParensCount(ts[1..]);
      if IsOperand(ts[0]) {
        assert IsOperandChar(ts[0][0]);
      } else {
        SymbolCases(ts[0]);
      }
    }
  }

  /** A run of operators contains no parenthesis. */
  lemma OperatorsWithoutParens(seg: seq<string>)
    requires AllOperators(seg)
    ensures WithoutParens(seg) == seg
    ensures multiset(seg)["("] == 0
  {
    forall i | 0 <= i < |seg| ensures seg[i] != "(" && seg[i] != ")" {
      assert seg[i][0] != '(' && seg[i][0] != ')';
    }
    WithoutParensOfNone(seg);
    assert "(" !in seg;
  }

  /** A run of operators, in either order, contains no operand. */
  lemma OperatorsWithoutOperands(seg: seq<string>)
    requires AllOperators(seg)
    ensures Operands(seg) == [] && Operands(Reverse(seg)) == []
  {
    forall i | 0 <= i < |seg| ensures !IsOperand(seg[i]) {
      assert !IsOperandChar(seg[i][0]);
    }
    OperandsOfNone(seg);
    assert forall i :: 0 <= i < |seg| ==> Reverse(seg)[i] == seg[|seg| - 1 - i];
    OperandsOfNone(Reverse(seg));
  }

  /** Appending a run of operators to a stack adds exactly those operators
      to what the stack holds besides parentheses. */
  lemma WithoutParensOperatorRun(p: seq<string>, seg: seq<string>)
    requires AllOperators(seg)
    ensures multiset(WithoutParens(p + seg)) == multiset(WithoutParens(p)) + multiset(seg)
  {
    OperatorsWithoutParens(seg);
    WithoutParensAppend(p, seg);
  }

  /** Outputting a segment top first adds exactly its tokens to the output. */
  lemma OutputReversed(out: seq<string>, seg: seq<string>)
    ensures multiset(out + Reverse(seg)) == multiset(out) + multiset(seg)
  {
    ReversePermutes(seg);
  }

  lemma CloseParenPermutes(st: seq<string>, out: seq<string>)
    requires StackOk(st) && PopToOpen(st, out).Ok?
    ensures var next := PopToOpen(st, out).value;
      multiset(next.1) + multiset(WithoutParens(next.0)) == multiset(out) + multiset(WithoutParens(st))
  {
    var next := PopToOpen(st, out).value;
    var k := |next.0|;
    var seg := st[k + 1..];
    assert st == (next.0 + [st[k]]) + seg && st[k] == "(" && AllOperators(seg)
      && next.1 == out + Reverse(seg) by {
      PopToOpenEffect(st, out);
    }
    WithoutParensOperatorRun(next.0 + [st[k]], seg);
    assert WithoutParens(next.0 + [st[k]]) == WithoutParens(next.0) by {
      WithoutParensAppend(next.0, [st[k]]);
      assert WithoutParens([st[k]]) == [];
    }
    OutputReversed(out, seg);
  }

  lemma CloseParenKeepsOperands(st: seq<string>, out: seq<string>)
    requires StackOk(st) && PopToOpen(st, out).Ok?
    ensures Operands(PopToOpen(st, out).value.1) == Operands(out)
  {
    var next := PopToOpen(st, out).value;
    var seg := st[|next.0| + 1..];
    assert AllOperators(seg) && next.1 == out + Reverse(seg) by {
      PopToOpenEffect(st, out);
    }
    OperatorsWithoutOperands(seg);
    OperandsAppend(out, Reverse(seg));
  }

  lemma OperatorPermutes(t: string, st: seq<string>, out: seq<string>)
    requires IsOperator(t) && StackOk(st)
    ensures var popped := PopOperators(st, out, t);
      multiset(popped.1) + multiset(WithoutParens(popped.0 + [t]))
        == multiset(out) + multiset(WithoutParens(st)) + multiset{t}
  {
    var popped := PopOperators(st, out, t);
    var seg := st[|popped.0|..];
    assert st == popped.0 + seg && AllOperators(seg) && popped.1 == out + Reverse(seg) by {
      PopOperatorsEffect(st, out, t);
    }
    WithoutParensOperatorRun(popped.0, seg);
    assert AllOperators([t]);
    WithoutParensOperatorRun(popped.0, [t]);
    OutputReversed(out, seg);
  }

  lemma OperatorKeepsOperands(t: string, st: seq<string>, out: seq<string>)
    requires IsOperator(t) && StackOk(st)
    ensures Operands(PopOperators(st, out, t).1) == Operands(out)
  {
    var popped := PopOperators(st, out, t);
    var seg := st[|popped.0|..];
    assert AllOperators(seg) && popped.1 == out + Reverse(seg) by {
      PopOperatorsEffect(st, out, t);
    }
    OperatorsWithoutOperands(seg);
    OperandsAppend(out, Reverse(seg));
  }

  /** One step moves tokens between input, stack and output without losing or
      inventing any; only parentheses disappear. */
  lemma StepMultiset(t: string, st: seq<string>, out: seq<string>)
    requires IsToken(t) && StackOk(st)
    requires Step(t, st, out).Ok?
    ensures var next := Step(t, st, out).value;
      multiset(next.1) + multiset(WithoutParens(next.0))
        == multiset(out) + multiset(WithoutParens(st)) + multiset(WithoutParens([t]))
  {
    if IsOperand(t) {
      assert WithoutParens([t]) == [t] by {
        assert IsOperandChar(t[0]);
        assert [t][1..] == [];
      }
    } else if t == "(" {
      assert WithoutParens([t]) == [] by { assert [t][1..] == []; }
      assert WithoutParens(st + [t]) == WithoutParens(st) by {
        WithoutParensAppend(st, [t]);
      }
    } else if t == ")" {
      assert WithoutParens([t]) == [] by { assert [t][1..] == []; }
      CloseParenPermutes(st, out);
    } else {
      SymbolCases(t);
      assert WithoutParens([t]) == [t] by { assert [t][1..] == []; }
      OperatorPermutes(t, st, out);
    }
  }

  /** One step outputs the token when it is an operand and no other operand. */
  lemma StepOperands(t: string, st: seq<string>, out: seq<string>)
    requires IsToken(t) && StackOk(st)
    requires Step(t, st, out).Ok?
    ensures Operands(Step(t, st, out).value.1) == Operands(out) + Operands([t])
  {
    if IsOperand(t) {
      OperandsAppend(out, [t]);
    } else if t == "(" {
      assert Operands([t]) == [];
    } else if t == ")" {
      CloseParenKeepsOperands(st, out);
      assert Operands([t]) == [];
    } else {
      SymbolCases(t);
      OperatorKeepsOperands(t, st, out);
      assert Operands([t]) == [];
    }
  }

  lemma FlushPermutes(st: seq<string>, out: seq<string>)
    requires StackOk(st) && Flush(st, out).Ok?
    ensures multiset(Flush(st, out).value) == multiset(out) + multiset(WithoutParens(st))
    ensures Operands(Flush(st, out).value) == Operands(out)
  {
    FlushEffect(st, out);
    assert AllOperators(st) by {
      forall i | 0 <= i < |st| ensures IsOperator(st[i]) {
        assert st[i] in st;
      }
    }
    OperatorsWithoutParens(st);
    OperatorsWithoutOperands(st);
    ReversePermutes(st);
    OperandsAppend(out, Reverse(st));
  }

  /** A successful run on a non-empty input takes a successful first step
      and continues from that step's state. */
  lemma RunUnfold(ts: seq<string>, st: seq<string>, out: seq<string>)
    requires forall t <- ts :: IsToken(t)
    requires StackOk(st) && |ts| > 0
    requires Run(ts, st, out).Ok?
    ensures IsToken(ts[0]) && Step(ts[0], st, out).Ok?
    ensures forall t <- ts[1..] :: IsToken(t)
    ensures Run(ts, st, out) == Run(ts[1..], Step(ts[0], st, out).value.0, Step(ts[0], st, out).value.1)
  {
    assert ts[0] in ts;
    assert forall u <- ts[1..] :: u in ts;
  }

  /** The state after the first step of a successful run, with what that
      step does to the operands and to the other tokens. */
  lemma FirstStep(ts: seq<string>, st: seq<string>, out: seq<string>) returns (st': seq<string>, out': seq<string>)
    requires forall t <- ts :: IsToken(t)
    requires StackOk(st) && |ts| > 0
    requires Run(ts, st, out).Ok?
    ensures StackOk(st') && forall t <- ts[1..] :: IsToken(t)
    ensures Run(ts, st, out) == Run(ts[1..], st', out')
    ensures Operands(out') == Operands(out) + Operands([ts[0]])
    ensures multiset(out') + multiset(WithoutParens(st'))
      == multiset(out) + multiset(WithoutParens(st)) + multiset(WithoutParens([ts[0]]))
  {
    RunUnfold(ts, st, out);
    var next := Step(ts[0], st, out).value;
    st', out' := next.0, next.1;
    StepOperands(ts[0], st, out);
    StepMultiset(ts[0], st, out);
  }

  /** The bookkeeping of one step of `RunPermutes`, on the multisets alone. */
  lemma PermutesAcross(v: seq<string>, ts: seq<string>, st: seq<string>, out: seq<string>,
                       st': seq<string>, out': seq<string>)
    requires |ts| > 0
    requires multiset(v) == multiset(out') + multiset(WithoutParens(st')) + multiset(WithoutParens(ts[1..]))
    requires multiset(out') + multiset(WithoutParens(st'))
      == multiset(out) + multiset(WithoutParens(st)) + multiset(WithoutParens([ts[0]]))
    ensures multiset(v) == multiset(out) + multiset(WithoutParens(st)) + multiset(WithoutParens(ts))
  {
    assert ts == [ts[0]] + ts[1..];
    WithoutParensAppend([ts[0]], ts[1..]);
  }

  /** A successful run outputs exactly the non-parenthesis tokens of its
      input, stack and earlier output. */
  lemma {:induction false} RunPermutes(ts: seq<string>, st: seq<string>, out: seq<string>)
    requires forall t <- ts :: IsToken(t)
    requires StackOk(st)
    requires Run(ts, st, out).Ok?
    ensures multiset(Run(ts, st, out).value)
      == multiset(out) + multiset(WithoutParens(st)) + multiset(WithoutParens(ts))
    decreases |ts|
  {
    if |ts| == 0 {
      FlushPermutes(st, out);
    } else {
      var st', out' := FirstStep(ts, st, out);
      RunPermutes(ts[1..], st', out');
      PermutesAcross(Run(ts, st, out).value, ts, st, out, st', out');
    }
  }

  /** Output so far, then a step's output, then the rest: one chain of appends. */
  lemma ConcatChain(v: seq<string>, o: seq<string>, o': seq<string>, h: seq<string>, tl: seq<string>, all: seq<string>)
    requires v == o' + tl && o' == o + h && all == h + tl
    ensures v == o + all
  {
  }

  /** The bookkeeping of one step of `RunKeepsOperands`. */
  lemma OperandsAcross(v: seq<string>, ts: seq<string>, out: seq<string>, out': seq<string>)
    requires |ts| > 0
    requires Operands(v) == Operands(out') + Operands(ts[1..])
    requires Operands(out') == Operands(out) + Operands([ts[0]])
    ensures Operands(v) == Operands(out) + Operands(ts)
  {
    OperandsCons(ts);
    ConcatChain(Operands(v), Operands(out), Operands(out'), Operands([ts[0]]), Operands(ts[1..]), Operands(ts));
  }

  /** A successful run outputs the operands of its input after those already
      output, in input order. */
  lemma {:induction false} RunKeepsOperands(ts: seq<string>, st: seq<string>, out: seq<string>)
    requires forall t <- ts :: IsToken(t)
    requires StackOk(st)
    requires Run(ts, st, out).Ok?
    ensures Operands(Run(ts, st, out).value) == Operands(out) + Operands(ts)
    decreases |ts|
  {
    if |ts| == 0 {
      FlushPermutes(st, out);
    } else {
      var st', out' := FirstStep(ts, st, out);
      RunKeepsOperands(ts[1..], st', out');
      OperandsAcross(Run(ts, st, out).value, ts, out, out');
    }
  }

  /** When `infijaAPostfija` succeeds, its operands come out exactly as they
      went in, in the same order. */
  lemma PostfixKeepsOperands(ts: seq<string>)
    requires forall t <- ts :: IsToken(t)
    requires ShuntingYard(ts).Ok?
    ensures Operands(ShuntingYard(ts).value) == Operands(ts)
  {
    RunKeepsOperands(ts, [], []);
  }

  /** When `infijaAPostfija` succeeds, its output is a rearrangement of the
      input tokens without the parentheses: no '(' or ')' is left, and there
      are as many tokens as the input has operands and operators. */
  lemma PostfixRearrangesTokens(ts: seq<string>)
    requires forall t <- ts :: IsToken(t)
    requires ShuntingYard(ts).Ok?
    ensures multiset(ShuntingYard(ts).value) == multiset(WithoutParens(ts))
    ensures forall t <- ShuntingYard(ts).value :: t != "(" && t != ")"
    ensures |ShuntingYard(ts).value| == |Operands(ts)| + |Operators(ts)|
  {
    var out := ShuntingYard(ts).value;
    RunPermutes(ts, [], []);
    assert WithoutParens([]) == [];
    forall t <- out ensures t != "(" && t != ")" {
      assert t in multiset(out);
      assert t in multiset(WithoutParens(ts));
      assert t in WithoutParens(ts);
    }
    assert |multiset(out)| == |out|;
    assert |multiset(WithoutParens(ts))| == |WithoutParens(ts)|;
    WithoutParensCount(ts);
  }

  /** Every piece of the postfix output is one of the input's tokens. */
  lemma PostfixTokensAreTokens(ts: seq<string>)
    requires forall t <- ts :: IsToken(t)
    ensures ShuntingYard(ts).Ok? ==> forall t <- ShuntingYard(ts).value :: IsToken(t)
  {
    if ShuntingYard(ts).Ok? {
      var out := ShuntingYard(ts).value;
      PostfixRearrangesTokens(ts);
      forall t <- out ensures IsToken(t) {
        assert t in multiset(WithoutParens(ts));
        WithoutParensSubset(ts, t);
      }
    }
  }

  lemma {:induction false} WithoutParensSubset(ts: seq<string>, t: string)
    requires t in WithoutParens(ts)
    ensures t in ts
    decreases |ts|
  {
    if |ts| > 0 && t != ts[0] {
      WithoutParensSubset(ts[1..], t);
    }
  }

  // ---------------------------------------------------------------------
  // When the conversion fails

  /** The number of open parentheses minus the number of close parentheses. */
  function Depth(ts: seq<string>): int
  {
    multiset(ts)["("] as int - multiset(ts)[")"] as int
  }

  /** Starting `d` levels deep, no prefix of `ts` closes a parenthesis that is
      not open, and every parenthesis is closed at the end. */
  predicate Balanced(ts: seq<string>, d: int)
  {
    d + Depth(ts) == 0 && forall k :: 0 <= k <= |ts| ==> d + Depth(ts[..k]) >= 0
  }

  /** The open parentheses waiting on the operator stack. */
  function OpenCount(st: seq<string>): nat
  {
    multiset(st)["("]
  }

  lemma BalancedCons(ts: seq<string>, d: int)
    requires |ts| > 0
    ensures Balanced(ts, d) <==> d >= 0 && Balanced(ts[1..], d + Depth([ts[0]]))
  {
    var t, rest := ts[0], ts[1..];
    var delta := Depth([t]);
    assert ts == [t] + rest;
    assert Depth(ts) == delta + Depth(rest);
    assert ts[..0] == [];
    forall k | 0 <= k <= |rest|
      ensures Depth(ts[..k + 1]) == delta + Depth(rest[..k])
    {
      assert ts[..k + 1] == [t] + rest[..k];
    }
    if d >= 0 && Balanced(rest, d + delta) {
      forall k | 0 <= k <= |ts| ensures d + Depth(ts[..k]) >= 0 {
        if k > 0 {
          assert Depth(ts[..(k - 1) + 1]) == delta + Depth(rest[..k - 1]);
        }
      }
    }
    if Balanced(ts, d) {
      assert d + Depth(ts[..0]) >= 0;
      forall k | 0 <= k <= |rest| ensures d + delta + Depth(rest[..k]) >= 0 {
        assert d + Depth(ts[..k + 1]) >= 0;
      }
    }
  }

  lemma CloseParenOpenCount(st: seq<string>, out: seq<string>)
    requires StackOk(st)
    ensures PopToOpen(st, out).Err? <==> OpenCount(st) == 0
    ensures PopToOpen(st, out).Ok? ==> OpenCount(PopToOpen(st, out).value.0) == OpenCount(st) - 1
  {
    var r := PopToOpen(st, out);
    assert r.Err? <==> "(" !in st by {
      PopToOpenFails(st, out);
    }
    if r.Ok? {
      var k := |r.value.0|;
      var seg := st[k + 1..];
      assert st == r.value.0 + [st[k]] + seg && st[k] == "(" && AllOperators(seg) by {
        PopToOpenEffect(st, out);
      }
      assert multiset(seg)["("] == 0 by {
        OperatorsWithoutParens(seg);
      }
      assert multiset(st) == multiset(r.value.0) + multiset{"("} + multiset(seg);
    }
  }

  lemma OperatorOpenCount(t: string, st: seq<string>, out: seq<string>)
    requires IsOperator(t) && StackOk(st)
    ensures OpenCount(PopOperators(st, out, t).0 + [t]) == OpenCount(st)
  {
    var popped := PopOperators(st, out, t);
    var k := |popped.0|;
    var seg := st[k..];
    assert st == popped.0 + seg && AllOperators(seg) by {
      PopOperatorsEffect(st, out, t);
    }
    assert multiset(seg)["("] == 0 by {
      OperatorsWithoutParens(seg);
    }
    assert multiset(st) == multiset(popped.0) + multiset(seg);
    assert t != "(" by { assert t[0] != '('; }
    assert multiset(popped.0 + [t]) == multiset(popped.0) + multiset{t};
  }

  /** A successful step changes the open parentheses on the stack by the
      parenthesis count of the token; a step fails exactly when it would
      close a parenthesis that is not open. */
  lemma StepOpenCount(t: string, st: seq<string>, out: seq<string>)
    requires IsToken(t) && StackOk(st)
    ensures Step(t, st, out).Err? <==> OpenCount(st) + Depth([t]) < 0
    ensures Step(t, st, out).Ok? ==> OpenCount(Step(t, st, out).value.0) == OpenCount(st) + Depth([t])
  {
    if IsOperand(t) {
      assert IsOperandChar(t[0]);
      assert t != "(" && t != ")";
    } else if t == "(" {
    } else if t == ")" {
      CloseParenOpenCount(st, out);
    } else {
      SymbolCases(t);
      OperatorOpenCount(t, st, out);
      assert t != "(" && t != ")";
    }
  }

  /** From a stack with `OpenCount(st)` open parentheses, the run fails
      exactly when the rest of the input is unbalanced, and then with the
      unbalanced-parentheses error. */
  lemma {:induction false} RunFailsIffUnbalanced(ts: seq<string>, st: seq<string>, out: seq<string>)
    requires forall t <- ts :: IsToken(t)
    requires StackOk(st)
    ensures Run(ts, st, out).Err? <==> !Balanced(ts, OpenCount(st))
    ensures Run(ts, st, out).Err? ==> Run(ts, st, out).error == UnbalancedParentheses
    decreases |ts|
  {
    if |ts| == 0 {
      assert ts[..0] == [];
      FlushEffect(st, out);
    } else {
      var t := ts[0];
      assert t in ts;
      assert forall u <- ts[1..] :: u in ts;
      StepOpenCount(t, st, out);
      BalancedCons(ts, OpenCount(st));
      var r := Step(t, st, out);
      if r.Ok? {
        assert Run(ts, st, out) == Run(ts[1..], r.value.0, r.value.1);
        RunFailsIffUnbalanced(ts[1..], r.value.0, r.value.1);
      } else {
        assert (ts[1..])[..0] == [];
      }
    }
  }

  /** `infijaAPostfija` throws exactly when the parentheses of its tokens are
      unbalanced — a ')' with no '(' open, or a '(' never closed — and it
      throws nothing else. */
  lemma PostfixFailsIffUnbalanced(ts: seq<string>)
    requires forall t <- ts :: IsToken(t)
    ensures ShuntingYard(ts).Err? <==> !Balanced(ts, 0)
    ensures ShuntingYard(ts).Err? ==> ShuntingYard(ts).error == UnbalancedParentheses
  {
    RunFailsIffUnbalanced(ts, [], []);
  }

  // ---------------------------------------------------------------------
  // One iteration at a time

  /** A token in front of a list of tokens gives a list of tokens. */
  lemma TokensCons(t: string, rest: seq<string>)
    requires IsToken(t) && forall u <- rest :: IsToken(u)
    ensures forall u <- [t] + rest :: IsToken(u)
  {
  }

  /** An operand goes straight to the output. */
  lemma RunOperand(t: string, rest: seq<string>, st: seq<string>, out: seq<string>, out': seq<string>)
    requires IsOperand(t) && (forall u <- rest :: IsToken(u)) && StackOk(st)
    requires out' == out + [t]
    ensures Run([t] + rest, st, out) == Run(rest, st, out')
  {
    assert ([t] + rest)[1..] == rest;
  }

  /** '(' is pushed. */
  lemma RunOpen(rest: seq<string>, st: seq<string>, out: seq<string>, st': seq<string>)
    requires (forall u <- rest :: IsToken(u)) && StackOk(st)
    requires st' == st + ["("]
    ensures Run(["("] + rest, st, out) == Run(rest, st', out)
  {
    assert (["("] + rest)[1..] == rest;
    assert !IsOperand("(") by { assert !IsOperandChar("("[0]); }
  }

  /** ')' outputs the operator on top of the stack and looks again. */
  lemma RunClosePops(rest: seq<string>, st: seq<string>, out: seq<string>, st': seq<string>, out': seq<string>)
    requires (forall u <- rest :: IsToken(u)) && StackOk(st)
    requires |st| > 0 && st[|st| - 1] != "("
    requires st' == st[..|st| - 1] && out' == out + [st[|st| - 1]]
    ensures Run([")"] + rest, st, out) == Run([")"] + rest, st', out')
  {
    assert ([")"] + rest)[1..] == rest;
    assert !IsOperand(")") by { assert !IsOperandChar(")"[0]); }
  }

  /** ')' with '(' on top of the stack discards that '('. */
  lemma RunCloseOpen(rest: seq<string>, st: seq<string>, out: seq<string>, st': seq<string>)
    requires (forall u <- rest :: IsToken(u)) && StackOk(st)
    requires |st| > 0 && st[|st| - 1] == "(" && st' == st[..|st| - 1]
    ensures Run([")"] + rest, st, out) == Run(rest, st', out)
  {
    assert ([")"] + rest)[1..] == rest;
    assert !IsOperand(")") by { assert !IsOperandChar(")"[0]); }
  }

  /** An operator outputs a stacked operator that binds at least as tightly
      and looks again. */
  lemma RunOperatorPops(t: string, rest: seq<string>, st: seq<string>, out: seq<string>, st': seq<string>, out': seq<string>)
    requires IsOperator(t) && (forall u <- rest :: IsToken(u)) && StackOk(st)
    requires |st| > 0 && st[|st| - 1] != "(" && Precedence(st[|st| - 1]) >= Precedence(t)
    requires st' == st[..|st| - 1] && out' == out + [st[|st| - 1]]
    ensures Run([t] + rest, st, out) == Run([t] + rest, st', out')
  {
    assert ([t] + rest)[1..] == rest;
    assert !IsOperand(t) && t != "(" && t != ")" by { assert !IsOperandChar(t[0]); }
  }

  /** An operator facing '(', an empty stack or a looser operator is pushed. */
  lemma RunOperatorPushes(t: string, rest: seq<string>, st: seq<string>, out: seq<string>, st': seq<string>)
    requires IsOperator(t) && (forall u <- rest :: IsToken(u)) && StackOk(st)
    requires |st| == 0 || st[|st| - 1] == "(" || Precedence(st[|st| - 1]) < Precedence(t)
    requires st' == st + [t]
    ensures Run([t] + rest, st, out) == Run(rest, st', out)
  {
    assert ([t] + rest)[1..] == rest;
    assert !IsOperand(t) && t != "(" && t != ")" by { assert !IsOperandChar(t[0]); }
  }

  /** `a op1 b` at the start of the input outputs `a b` and leaves `op1`
      alone on the stack. */
  lemma RunFirstOperation(a: string, op1: string, b: string, rest: seq<string>)
    requires IsOperand(a) && IsOperand(b) && IsOperator(op1)
    requires forall u <- rest :: IsToken(u)
    ensures forall u <- [a, op1, b] + rest :: IsToken(u)
    ensures Run([a, op1, b] + rest, [], []) == Run(rest, [op1], [a, b])
  {
    assert IsToken(op1) by { assert IsSymbolChar(op1[0]); }
    var r2 := [b] + rest;
    TokensCons(b, rest);
    var r1 := [op1] + r2;
    TokensCons(op1, r2);
    TokensCons(a, r1);
    assert [a, op1, b] + rest == [a] + r1;
    calc {
      Run([a, op1, b] + rest, [], []);
      Run([a] + r1, [], []);
      { RunOperand(a, r1, [], [], [a]); }
      Run([op1] + r2, [], [a]);
      { RunOperatorPushes(op1, r2, [], [a], [op1]); }
      Run([b] + rest, [op1], [a]);
      { RunOperand(b, rest, [op1], [a], [a, b]); }
      Run(rest, [op1], [a, b]);
    }
  }

  /** The precedence rule on `a op1 b op2 c`: `op1` is applied first exactly
      when it binds at least as tightly as `op2`, so operators of equal
      precedence, '^' included, group to the left. */
  lemma ThreeOperands(a: string, op1: string, b: string, op2: string, c: string)
    requires IsOperand(a) && IsOperand(b) && IsOperand(c)
    requires IsOperator(op1) && IsOperator(op2)
    ensures ShuntingYard([a, op1, b, op2, c]) ==
      if Precedence(op1) >= Precedence(op2) then Ok([a, b, op1, c, op2]) else Ok([a, b, c, op2, op1])
  {
    assert IsToken(op2) by { assert IsSymbolChar(op2[0]); }
    TokensCons(op2, [c]);
    assert [op2] + [c] == [op2, c];
    RunFirstOperation(a, op1, b, [op2, c]);
    assert [a, op1, b, op2, c] == [a, op1, b] + [op2, c];
    assert op1 != "(" by { assert op1[0] != '('; }
    if Precedence(op1) >= Precedence(op2) {
      RunOperatorPops(op2, [c], [op1], [a, b], [], [a, b, op1]);
      RunLastOperator(op2, c, [a, b, op1]);
      assert [a, b, op1] + [c, op2] == [a, b, op1, c, op2];
    } else {
      calc {
        Run([op2] + [c], [op1], [a, b]);
        { RunOperatorPushes(op2, [c], [op1], [a, b], [op1, op2]); assert [c] == [c] + []; }
        Run([c] + [], [op1, op2], [a, b]);
        { RunOperand(c, [], [op1, op2], [a, b], [a, b, c]); }
        Run([], [op1, op2], [a, b, c]);
        { FlushEffect([op1, op2], [a, b, c]); }
        Ok([a, b, c] + Reverse([op1, op2]));
        { assert [a, b, c] + Reverse([op1, op2]) == [a, b, c, op2, op1]; }
        Ok([a, b, c, op2, op1]);
      }
    }
  }

  /** A trailing `op c` after an empty stack outputs `c op`. */
  lemma RunLastOperator(op: string, c: string, out: seq<string>)
    requires IsOperator(op) && IsOperand(c)
    ensures forall u <- [op, c] :: IsToken(u)
    ensures Run([op, c], [], out) == Ok(out + [c, op])
  {
    assert IsToken(op) by { assert IsSymbolChar(op[0]); }
    assert op != "(" by { assert op[0] != '('; }
    calc {
      Run([op, c], [], out);
      { assert [op, c] == [op] + [c]; }
      Run([op] + [c], [], out);
      { RunOperatorPushes(op, [c], [], out, [op]); assert [c] == [c] + []; }
      Run([c] + [], [op], out);
      { RunOperand(c, [], [op], out, out + [c]); }
      Run([], [op], out + [c]);
      { FlushEffect([op], out + [c]); }
      Ok(out + [c] + Reverse([op]));
      { assert out + [c] + Reverse([op]) == out + [c, op]; }
      Ok(out + [c, op]);
    }
  }

  /** A single operation `a op b` comes out as `a b op`. */
  lemma SingleOperation(a: string, op: string, b: string)
    requires IsOperand(a) && IsOperator(op) && IsOperand(b)
    ensures forall u <- [a, op, b] :: IsToken(u)
    ensures ShuntingYard([a, op, b]) == Ok([a, b, op])
  {
    RunLastOperator(op, b, [a]);
    TokensCons(a, [op, b]);
    assert [a, op, b] == [a] + [op, b];
    RunOperand(a, [op, b], [], [], [a]);
    assert [a] + [b, op] == [a, b, op];
  }

  /** A parenthesised `a op1 b` at the start of the input leaves the stack
      empty and outputs `a b op1`. */
  lemma RunGroup(a: string, op1: string, b: string, rest: seq<string>)
    requires IsOperand(a) && IsOperand(b) && IsOperator(op1)
    requires forall u <- rest :: IsToken(u)
    ensures forall u <- ["(", a, op1, b, ")"] + rest :: IsToken(u)
    ensures Run(["(", a, op1, b, ")"] + rest, [], []) == Run(rest, [], [a, b, op1])
  {
    assert op1 != "(" by { assert op1[0] != '('; }
    assert IsToken(")") && IsToken(op1) by {
      assert IsSymbolChar(")"[0]) && IsSymbolChar(op1[0]);
    }
    var r4 := [")"] + rest;
    TokensCons(")", rest);
    var r3 := [b] + r4;
    TokensCons(b, r4);
    var r2 := [op1] + r3;
    TokensCons(op1, r3);
    var r1 := [a] + r2;
    TokensCons(a, r2);
    assert IsToken("(") by { assert IsSymbolChar("("[0]); }
    TokensCons("(", r1);
    assert ["(", a, op1, b, ")"] + rest == ["("] + r1;
    calc {
      Run(["(", a, op1, b, ")"] + rest, [], []);
      Run(["("] + r1, [], []);
      { RunOpen(r1, [], [], ["("]); }
      Run([a] + r2, ["("], []);
      { RunOperand(a, r2, ["("], [], [a]); }
      Run([op1] + r3, ["("], [a]);
      { RunOperatorPushes(op1, r3, ["("], [a], ["(", op1]); }
      Run([b] + r4, ["(", op1], [a]);
      { RunOperand(b, r4, ["(", op1], [a], [a, b]); }
      Run([")"] + rest, ["(", op1], [a, b]);
      { RunClosePops(rest, ["(", op1], [a, b], ["("], [a, b, op1]); }
      Run([")"] + rest, ["("], [a, b, op1]);
      { RunCloseOpen(rest, ["("], [a, b, op1], []); }
      Run(rest, [], [a, b, op1]);
    }
  }

  /** Parentheses override precedence: `(a op1 b) op2 c` always applies
      `op1` first. */
  lemma ParenthesizedFirst(a: string, op1: string, b: string, op2: string, c: string)
    requires IsOperand(a) && IsOperand(b) && IsOperand(c)
    requires IsOperator(op1) && IsOperator(op2)
    ensures ShuntingYard(["(", a, op1, b, ")", op2, c]) == Ok([a, b, op1, c, op2])
  {
    RunLastOperator(op2, c, [a, b, op1]);
    RunGroup(a, op1, b, [op2, c]);
    assert ["(", a, op1, b, ")", op2, c] == ["(", a, op1, b, ")"] + [op2, c];
    assert [a, b, op1] + [c, op2] == [a, b, op1, c, op2];
  }

  /** `a op1 b op2 c` written as one string. */
  lemma InfixOfThree(a: string, op1: string, b: string, op2: string, c: string)
    requires IsOperand(a) && IsOperand(b) && IsOperand(c)
    requires IsOperator(op1) && IsOperator(op2)
    ensures PostfixNotation(Concat([a, op1, b, op2, c])) ==
      if Precedence(op1) >= Precedence(op2) then Ok(Join([a, b, op1, c, op2]))
      else Ok(Join([a, b, c, op2, op1]))
  {
    assert !IsOperand(op1) && !IsOperand(op2) by {
      assert !IsOperandChar(op1[0]) && !IsOperandChar(op2[0]);
    }
    TokenizeConcat([a, op1, b, op2, c]);
    ThreeOperands(a, op1, b, op2, c);
  }

  /** `(a op1 b) op2 c` written as one string. */
  lemma InfixParenthesized(a: string, op1: string, b: string, op2: string, c: string)
    requires IsOperand(a) && IsOperand(b) && IsOperand(c)
    requires IsOperator(op1) && IsOperator(op2)
    ensures PostfixNotation(Concat(["(", a, op1, b, ")", op2, c])) == Ok(Join([a, b, op1, c, op2]))
  {
    var ts := ["(", a, op1, b, ")", op2, c];
    assert !IsOperand(op1) && !IsOperand(op2) && !IsOperand("(") && !IsOperand(")") by {
      assert !IsOperandChar(op1[0]) && !IsOperandChar(op2[0]);
      assert !IsOperandChar("("[0]) && !IsOperandChar(")"[0]);
    }
    assert forall t <- ts :: IsToken(t);
    assert Separated(ts) by {
      forall i | 0 <= i < |ts| - 1 ensures !(IsOperand(ts[i]) && IsOperand(ts[i + 1])) {
        if i == 5 || i % 2 == 0 { assert !IsOperand(ts[i]); } else { assert !IsOperand(ts[i + 1]); }
      }
    }
    TokenizeConcat(ts);
    ParenthesizedFirst(a, op1, b, op2, c);
  }

  // ---------------------------------------------------------------------
  // Worked examples

  lemma OperandDigits()
    ensures IsOperand("1") && IsOperand("2") && IsOperand("3") && IsOperand("4")
  {
    assert IsOperandChar("1"[0]) && IsOperandChar("2"[0]) && IsOperandChar("3"[0]) && IsOperandChar("4"[0]);
  }

  lemma SpellSum()
    ensures Concat(["3", "+", "4", "*", "2"]) == "3+4*2"
  {
  }

  lemma SpellPower()
    ensures Concat(["2", "^", "3", "^", "2"]) == "2^3^2"
  {
  }

  lemma SpellGroup()
    ensures Concat(["(", "1", "+", "2", ")", "*", "3"]) == "(1+2)*3"
  {
  }

  lemma JoinSum()
    ensures Join(["3", "4", "2", "*", "+"]) == "3 4 2 * +"
  {
  }

  lemma JoinPower()
    ensures Join(["2", "3", "^", "2", "^"]) == "2 3 ^ 2 ^"
  {
  }

  lemma JoinGroup()
    ensures Join(["1", "2", "+", "3", "*"]) == "1 2 + 3 *"
  {
  }

  /** `*` binds tighter than `+`. */
  lemma PostfixOfSum()
    ensures PostfixNotation("3+4*2") == Ok("3 4 2 * +")
  {
    OperandDigits();
    SpellSum();
    JoinSum();
    InfixOfThree("3", "+", "4", "*", "2");
  }

  /** `^` groups to the left. */
  lemma PostfixOfPower()
    ensures PostfixNotation("2^3^2") == Ok("2 3 ^ 2 ^")
  {
    OperandDigits();
    SpellPower();
    JoinPower();
    InfixOfThree("2", "^", "3", "^", "2");
  }

  lemma PostfixOfGroup()
    ensures PostfixNotation("(1+2)*3") == Ok("1 2 + 3 *")
  {
    OperandDigits();
    SpellGroup();
    JoinGroup();
    InfixParenthesized("1", "+", "2", "*", "3");
  }

  lemma SpellOpenSum()
    ensures Concat(["(", "1", "+", "2"]) == "(1+2"
  {
  }

  lemma TokenizeUnclosed()
    ensures Tokenize("(1+2") == ["(", "1", "+", "2"]
  {
    var ts := ["(", "1", "+", "2"];
    OperandDigits();
    assert !IsOperand("(") && !IsOperand("+") by {
      assert !IsOperandChar("("[0]) && !IsOperandChar("+"[0]);
    }
    assert forall t <- ts :: IsToken(t);
    assert Separated(ts) by {
      forall i | 0 <= i < |ts| - 1 ensures !(IsOperand(ts[i]) && IsOperand(ts[i + 1])) {
        if i % 2 == 0 { assert !IsOperand(ts[i]); } else { assert !IsOperand(ts[i + 1]); }
      }
    }
    SpellOpenSum();
    TokenizeConcat(ts);
  }

  lemma DepthUnclosed()
    ensures Depth(["(", "1", "+", "2"]) == 1
  {
    assert multiset(["(", "1", "+", "2"]) == multiset{"(", "1", "+", "2"};
  }

  /** More '(' than ')' fails the conversion. */
  lemma UnclosedFails(ts: seq<string>)
    requires forall t <- ts :: IsToken(t)
    requires Depth(ts) > 0
    ensures ShuntingYard(ts) == Err(UnbalancedParentheses)
  {
    PostfixFailsIffUnbalanced(ts);
  }

  /** A '(' that is never closed fails the conversion. */
  lemma PostfixOfUnclosed()
    ensures PostfixNotation("(1+2") == Err(UnbalancedParentheses)
  {
    TokenizeUnclosed();
    OperandDigits();
    DepthUnclosed();
    UnclosedFails(["(", "1", "+", "2"]);
  }
}
