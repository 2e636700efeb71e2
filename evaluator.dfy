/** `evaluarPostfija`: the stack machine that computes the value of a postfix
    string, with its five distinct error exits. Numbers are exact reals. */
module Evaluator {
  import opened Strings
  import opened Errors
  import opened Tokenizer

  datatype Option<T> = None | Some(value: T)

  // ---------------------------------------------------------------------
  // Pieces of the input

  /** The non-empty strings of `ts`, in order (`filter(t => t)`). */
  function NonEmpty(ts: seq<string>): (r: seq<string>)
    ensures forall t <- r :: t != "" && t in ts
    decreases |ts|
  {
    if |ts| == 0 then []
    else (if ts[0] == "" then [] else [ts[0]]) + NonEmpty(ts[1..])
  }

  /** `postfija.split(' ').filter(t => t)`. */
  function Pieces(postfix: string): (ts: seq<string>)
    ensures forall t <- ts :: t != "" && ' ' !in t
  {
    NonEmpty(Split(postfix))
  }

  lemma {:induction false} NonEmptyOfNonEmpty(ts: seq<string>)
    requires forall t <- ts :: t != ""
    ensures NonEmpty(ts) == ts
    decreases |ts|
  {
    if |ts| > 0 {
      assert ts[0] in ts;
      assert forall t <- ts[1..] :: t in ts;
      NonEmptyOfNonEmpty(ts[1..]);
    }
  }

  /** Joining non-empty pieces without spaces and splitting again gives them back. */
  lemma PiecesOfJoin(ts: seq<string>)
    requires |ts| > 0
    requires forall t <- ts :: t != "" && ' ' !in t
    ensures Pieces(Join(ts)) == ts
  {
    SplitJoin(ts);
    NonEmptyOfNonEmpty(ts);
  }

  // ---------------------------------------------------------------------
  // parseFloat on operand tokens

  predicate IsDigit(c: char)
  {
    '0' <= c <= '9'
  }

  /** A non-empty string of digits (`/^[0-9]+$/`). */
  predicate IsNumeral(t: string)
  {
    |t| > 0 && forall i :: 0 <= i < |t| ==> IsDigit(t[i])
  }

  /** The length of the longest prefix of `s` made of digits. */
  function DigitPrefix(s: string): (n: nat)
    ensures n <= |s|
    ensures forall i :: 0 <= i < n ==> IsDigit(s[i])
    ensures n < |s| ==> !IsDigit(s[n])
    decreases |s|
  {
    if |s| == 0 || !IsDigit(s[0]) then 0 else 1 + DigitPrefix(s[1..])
  }

  /** A prefix of digits followed by the end of the string or by another
      character is the digit prefix. */
  lemma {:induction false} DigitPrefixIs(s: string, k: nat)
    requires k <= |s|
    requires forall i :: 0 <= i < k ==> IsDigit(s[i])
    requires k < |s| ==> !IsDigit(s[k])
    ensures DigitPrefix(s) == k
    decreases k
  {
    if k > 0 {
      var tail := s[1..];
      forall i | 0 <= i < k - 1 ensures IsDigit(tail[i]) {
        assert tail[i] == s[i + 1];
      }
      if k - 1 < |tail| {
        assert tail[k - 1] == s[k];
      }
      DigitPrefixIs(tail, k - 1);
    } else if |s| > 0 {
      assert !IsDigit(s[0]);
    }
  }

  /** The number a string of decimal digits denotes. */
  function DigitsValue(ds: string): nat
    requires forall i :: 0 <= i < |ds| ==> IsDigit(ds[i])
    decreases |ds|
  {
    if |ds| == 0 then 0
    else
      assert IsDigit(ds[|ds| - 1]);
      10 * DigitsValue(ds[..|ds| - 1]) + (ds[|ds| - 1] as int - '0' as int)
  }

  function Pow10(k: nat): (p: nat)
    ensures p >= 1
  {
    if k == 0 then 1 else 10 * Pow10(k - 1)
  }

  /** The exponent part `e<digits>` or `E<digits>` at the start of `s`, or 0
      when there is none. A sign cannot occur inside an operand token. */
  function ExponentValue(s: string): nat
  {
    if |s| > 0 && (s[0] == 'e' || s[0] == 'E') then
      var k := DigitPrefix(s[1..]);
      DigitsValue(s[1..][..k])
    else 0
  }

  /** `parseFloat` on a token of operand characters: the longest prefix of the
      form `digits [. digits] [e digits]` with a digit in the mantissa gives
      the value; without such a prefix the result is NaN (`None`). */
  function ParseNumber(t: string): Option<real>
  {
    var n := DigitPrefix(t);
    var point := n < |t| && t[n] == '.';
    var m := if point then DigitPrefix(t[n + 1..]) else 0;
    if n == 0 && m == 0 then None
    else
      var whole := DigitsValue(t[..n]) as real;
      var fraction := if point then DigitsValue(t[n + 1..][..m]) as real / Pow10(m) as real else 0.0;
      var end := if point then n + 1 + m else n;
      Some((whole + fraction) * Pow10(ExponentValue(t[end..])) as real)
  }

  lemma NumeralIsOperand(t: string)
    requires IsNumeral(t)
    ensures IsOperand(t)
  {
    forall i | 0 <= i < |t| ensures IsOperandChar(t[i]) {
      assert IsDigit(t[i]);
    }
  }

  /** A numeral parses to the number its digits denote. */
  lemma ParseNumeral(t: string)
    requires IsNumeral(t)
    ensures IsOperand(t)
    ensures ParseNumber(t) == Some(DigitsValue(t) as real)
  {
    NumeralIsOperand(t);
    var n := |t|;
    DigitPrefixIs(t, n);
    assert t[..n] == t && t[n..] == "";
    assert ExponentValue("") == 0 && Pow10(0) == 1;
    assert ParseNumber(t) == Some((DigitsValue(t) as real + 0.0) * Pow10(0) as real);
  }

  /** A token `parseFloat` reads as a number only if it starts with a digit
      or with a '.' followed by a digit. */
  lemma ParseNumberStart(t: string)
    ensures ParseNumber(t).Some? <==>
      (|t| > 0 && IsDigit(t[0])) || (|t| > 1 && t[0] == '.' && IsDigit(t[1]))
  {
    if |t| > 1 && t[0] == '.' && IsDigit(t[1]) {
      assert DigitPrefix(t) == 0;
      assert t[1..][0] == t[1];
    }
    if ParseNumber(t).Some? && !(|t| > 0 && IsDigit(t[0])) {
      assert DigitPrefix(t) == 0;
      assert t[1..][0] == t[1];
    }
  }

  // ---------------------------------------------------------------------
  // One step of the stack machine

  /** `esOperando(token) && !isNaN(parseFloat(token))`. */
  predicate IsNumeric(t: string)
  {
    IsOperand(t) && ParseNumber(t).Some?
  }

  predicate IsArithmeticChar(c: char)
  {
    c == '+' || c == '-' || c == '*' || c == '/'
  }

  /** `token.match(/[\+\-\*\/]/)`: the token contains one of `+ - * /`
      somewhere. */
  predicate HasArithmeticChar(t: string)
  {
    exists i :: 0 <= i < |t| && IsArithmeticChar(t[i])
  }

  /** One of the four operators the `switch` knows. */
  predicate IsArithmeticOperator(t: string)
  {
    t == "+" || t == "-" || t == "*" || t == "/"
  }

  /** The `switch` on an operator token, applied to the two popped values. */
  function Apply(t: string, left: real, right: real): Result<real>
  {
    if t == "+" then Ok(left + right)
    else if t == "-" then Ok(left - right)
    else if t == "*" then Ok(left * right)
    else if t == "/" then
      if right == 0.0 then Err(DivisionByZero) else Ok(left / right)
    else Err(UnknownOperator(t))
  }

  lemma ApplyProduct(t: string, left: real, right: real)
    requires t == "*"
    ensures Apply(t, left, right) == Ok(left * right)
  {
  }

  /** The body of the `for` loop on one token, in the source's branch order:
      numbers are pushed; a token containing an arithmetic character needs two
      values, pops them and pushes the result or fails; any other token that
      is not an operand is refused; an operand that is not a number is
      skipped. */
  function EvalStep(t: string, st: seq<real>): Result<seq<real>>
  {
    if IsNumeric(t) then Ok(st + [ParseNumber(t).value])
    else if HasArithmeticChar(t) then
      if |st| < 2 then Err(InsufficientOperands)
      else
        var applied := Apply(t, st[|st| - 2], st[|st| - 1]);
        if applied.Err? then Err(applied.error) else Ok(st[..|st| - 2] + [applied.value])
    else if !IsOperand(t) then Err(UnsupportedSymbol(t))
    else Ok(st)
  }

  /** The loop over the tokens from `ts` on, starting from stack `st`. */
  function EvalTokens(ts: seq<string>, st: seq<real>): Result<seq<real>>
    decreases |ts|
  {
    if |ts| == 0 then Ok(st)
    else
      match EvalStep(ts[0], st)
      case Err(e) => Err(e)
      case Ok(next) => EvalTokens(ts[1..], next)
  }

  /** `evaluarPostfija`: run the loop, then demand exactly one value. */
  function Evaluation(postfix: string): Result<real>
  {
    match EvalTokens(Pieces(postfix), [])
    case Err(e) => Err(e)
    case Ok(st) => if |st| != 1 then Err(MalformedExpression) else Ok(st[0])
  }

  /** `evaluarPostfija` with its stack `pila`. */
  method EvaluatePostfix(postfix: string) returns (r: Result<real>)
    ensures r == Evaluation(postfix)
  {
    var stack: seq<real> := [];
    var tokens := Pieces(postfix);
    for i := 0 to |tokens|
      invariant EvalTokens(tokens[i..], stack) == EvalTokens(tokens, [])
    {
      var token := tokens[i];
      ghost var before := stack;
      if IsOperand(token) && ParseNumber(token).Some? {
        stack := stack + [ParseNumber(token).value];
      } else if HasArithmeticChar(token) {
        if |stack| < 2 {
          LoopFails(tokens, i, before, InsufficientOperands);
          return Err(InsufficientOperands);
        }
        var right := stack[|stack| - 1];
        stack := stack[..|stack| - 1];
        var left := stack[|stack| - 1];
        stack := stack[..|stack| - 1];
        OperatorStep(token, before, left, right, stack);
        var result: real;
        if token == "+" {
          result := left + right;
          assert Apply(token, left, right) == Ok(result);
        } else if token == "-" {
          result := left - right;
          assert Apply(token, left, right) == Ok(result);
        } else if token == "*" {
          result := left * right;
          ApplyProduct(token, left, right);
        } else if token == "/" {
          if right == 0.0 {
            LoopFails(tokens, i, before, DivisionByZero);
            return Err(DivisionByZero);
          }
          result := left / right;
          assert Apply(token, left, right) == Ok(result);
        } else {
          LoopFails(tokens, i, before, UnknownOperator(token));
          return Err(UnknownOperator(token));
        }
        stack := stack + [result];
      } else if !IsOperand(token) {
        LoopFails(tokens, i, before, UnsupportedSymbol(token));
        return Err(UnsupportedSymbol(token));
      }
      LoopContinues(tokens, i, before, stack);
    }
    if |stack| != 1 {
      return Err(MalformedExpression);
    }
    return Ok(stack[0]);
  }

  /** A step that succeeds carries the loop invariant to the next token. */
  lemma LoopContinues(ts: seq<string>, i: nat, st: seq<real>, next: seq<real>)
    requires i < |ts|
    requires EvalTokens(ts[i..], st) == EvalTokens(ts, [])
    requires EvalStep(ts[i], st) == Ok(next)
    ensures EvalTokens(ts[i + 1..], next) == EvalTokens(ts, [])
  {
    assert ts[i..][0] == ts[i] && ts[i..][1..] == ts[i + 1..];
  }

  /** A step that fails makes the whole run fail with its error. */
  lemma LoopFails(ts: seq<string>, i: nat, st: seq<real>, e: Error)
    requires i < |ts|
    requires EvalTokens(ts[i..], st) == EvalTokens(ts, [])
    requires EvalStep(ts[i], st) == Err(e)
    ensures EvalTokens(ts, []) == Err(e)
  {
    assert ts[i..][0] == ts[i];
  }

  /** An operator token pops `left` and `right` off the stack and pushes what
      `Apply` gives for them, or fails as `Apply` does. */
  lemma OperatorStep(t: string, st: seq<real>, left: real, right: real, below: seq<real>)
    requires HasArithmeticChar(t) && |st| >= 2
    requires left == st[|st| - 2] && right == st[|st| - 1] && below == st[..|st| - 2]
    ensures Apply(t, left, right).Err? ==> EvalStep(t, st) == Err(Apply(t, left, right).error)
    ensures Apply(t, left, right).Ok? ==> EvalStep(t, st) == Ok(below + [Apply(t, left, right).value])
  {
    ArithmeticNotOperand(t);
  }

  // ---------------------------------------------------------------------
  // What one step does

  /** A token that contains an arithmetic character is not an operand. */
  lemma ArithmeticNotOperand(t: string)
    requires HasArithmeticChar(t)
    ensures !IsOperand(t) && !IsNumeric(t)
  {
    var i :| 0 <= i < |t| && IsArithmeticChar(t[i]);
    assert !IsOperandChar(t[i]);
  }

  lemma OperatorHasArithmeticChar(t: string)
    requires IsArithmeticOperator(t)
    ensures HasArithmeticChar(t)
  {
    assert IsArithmeticChar(t[0]);
  }

  /** Each error exit of a step, and exactly when it is taken. */
  lemma StepErrors(t: string, st: seq<real>)
    ensures EvalStep(t, st) == Err(InsufficientOperands) <==> HasArithmeticChar(t) && |st| < 2
    ensures EvalStep(t, st) == Err(DivisionByZero) <==> t == "/" && |st| >= 2 && st[|st| - 1] == 0.0
    ensures EvalStep(t, st) == Err(UnknownOperator(t)) <==>
      HasArithmeticChar(t) && !IsArithmeticOperator(t) && |st| >= 2
    ensures EvalStep(t, st) == Err(UnsupportedSymbol(t)) <==> !IsOperand(t) && !HasArithmeticChar(t)
    ensures EvalStep(t, st).Err? ==>
      EvalStep(t, st).error in {InsufficientOperands, DivisionByZero, UnknownOperator(t), UnsupportedSymbol(t)}
  {
    if HasArithmeticChar(t) {
      ArithmeticNotOperand(t);
    }
    if IsArithmeticOperator(t) {
      OperatorHasArithmeticChar(t);
    }
  }

  /** A number is pushed; a successful operator step replaces the two top
      values by one and leaves the rest of the stack alone; an operand that
      is not a number leaves the stack unchanged. */
  lemma StepEffect(t: string, st: seq<real>)
    requires EvalStep(t, st).Ok?
    ensures IsNumeric(t) ==> EvalStep(t, st).value == st + [ParseNumber(t).value]
    ensures HasArithmeticChar(t) ==>
      && IsArithmeticOperator(t)
      && |st| >= 2
      && |EvalStep(t, st).value| == |st| - 1
      && EvalStep(t, st).value[..|st| - 2] == st[..|st| - 2]
    ensures IsOperand(t) && !IsNumeric(t) ==> EvalStep(t, st).value == st
  {
    if HasArithmeticChar(t) {
      ArithmeticNotOperand(t);
    }
  }

  // ---------------------------------------------------------------------
  // Stack depth over a whole run

  /** The number of tokens of `ts` that push a number. */
  function NumberCount(ts: seq<string>): nat
    decreases |ts|
  {
    if |ts| == 0 then 0 else (if IsNumeric(ts[0]) then 1 else 0) + NumberCount(ts[1..])
  }

  /** The number of tokens of `ts` that contain an arithmetic character. */
  function OperatorCount(ts: seq<string>): nat
    decreases |ts|
  {
    if |ts| == 0 then 0 else (if HasArithmeticChar(ts[0]) then 1 else 0) + OperatorCount(ts[1..])
  }

  /** A successful run leaves one value more on the stack per number and one
      value less per operator. */
  lemma {:induction false} EvalTokensDepth(ts: seq<string>, st: seq<real>)
    requires EvalTokens(ts, st).Ok?
    ensures |EvalTokens(ts, st).value| == |st| + NumberCount(ts) - OperatorCount(ts)
    decreases |ts|
  {
    if |ts| > 0 {
      var t := ts[0];
      StepEffect(t, st);
      if HasArithmeticChar(t) {
        ArithmeticNotOperand(t);
      }
      EvalTokensDepth(ts[1..], EvalStep(t, st).value);
    }
  }

  /** A postfix string evaluates only when it holds exactly one number more
      than operators; in particular a string without numbers, such as the
      empty string, is malformed or fails earlier. */
  lemma EvaluationCounts(postfix: string)
    requires Evaluation(postfix).Ok?
    ensures NumberCount(Pieces(postfix)) == OperatorCount(Pieces(postfix)) + 1
  {
    EvalTokensDepth(Pieces(postfix), []);
  }

  lemma EmptyIsMalformed()
    ensures Evaluation("") == Err(MalformedExpression)
  {
    assert Split("") == [""];
    assert Pieces("") == [];
  }

  // ---------------------------------------------------------------------
  // Reference semantics: expression trees

  /** An arithmetic expression over numerals. */
  datatype Expr = Num(digits: string) | Bin(op: char, left: Expr, right: Expr)

  predicate ValidExpr(e: Expr)
  {
    match e
    case Num(d) => IsNumeral(d)
    case Bin(op, l, r) => IsArithmeticChar(op) && ValidExpr(l) && ValidExpr(r)
  }

  /** The value of an expression: the left operand first, then the right
      one; dividing by zero fails. */
  function Value(e: Expr): Result<real>
    requires ValidExpr(e)
  {
    match e
    case Num(d) => Ok(DigitsValue(d) as real)
    case Bin(op, l, r) =>
      match Value(l)
      case Err(x) => Err(x)
      case Ok(a) =>
        match Value(r)
        case Err(x) => Err(x)
        case Ok(b) => Apply([op], a, b)
  }

  /** The tokens of an expression in postfix order. */
  function PostOrder(e: Expr): seq<string>
  {
    match e
    case Num(d) => [d]
    case Bin(op, l, r) => PostOrder(l) + PostOrder(r) + [[op]]
  }

  lemma EvalTokensCons(t: string, rest: seq<string>, st: seq<real>)
    ensures EvalTokens([t] + rest, st) ==
      if EvalStep(t, st).Err? then Err(EvalStep(t, st).error)
      else EvalTokens(rest, EvalStep(t, st).value)
  {
    assert ([t] + rest)[1..] == rest;
  }

  /** The stack machine computes the value of every expression from its
      postfix tokens: it pushes exactly that value, or fails as the
      expression does. */
  lemma {:induction false} EvalPostOrder(e: Expr, rest: seq<string>, st: seq<real>)
    requires ValidExpr(e)
    ensures EvalTokens(PostOrder(e) + rest, st) ==
      if Value(e).Err? then Err(Value(e).error)
      else EvalTokens(rest, st + [Value(e).value])
    decreases e
  {
    match e
    case Num(d) =>
      ParseNumeral(d);
      EvalTokensCons(d, rest, st);
    case Bin(op, l, r) =>
      var opToken := [op];
      assert PostOrder(e) + rest == PostOrder(l) + (PostOrder(r) + ([opToken] + rest));
      EvalPostOrder(l, PostOrder(r) + ([opToken] + rest), st);
      if Value(l).Ok? {
        var a := Value(l).value;
        EvalPostOrder(r, [opToken] + rest, st + [a]);
        if Value(r).Ok? {
          var b := Value(r).value;
          var two := st + [a] + [b];
          assert two[|two| - 1] == b && two[|two| - 2] == a && two[..|two| - 2] == st;
          assert HasArithmeticChar(opToken) by {
            assert IsArithmeticChar(opToken[0]);
          }
          ArithmeticNotOperand(opToken);
          EvalTokensCons(opToken, rest, two);
        }
      }
  }

  lemma {:induction false} PostOrderPieces(e: Expr)
    requires ValidExpr(e)
    ensures |PostOrder(e)| > 0
    ensures forall t <- PostOrder(e) :: t != "" && ' ' !in t
    decreases e
  {
    match e
    case Num(d) =>
      assert forall i :: 0 <= i < |d| ==> d[i] != ' ' by {
        forall i | 0 <= i < |d| ensures d[i] != ' ' {
          assert IsDigit(d[i]);
        }
      }
    case Bin(op, l, r) =>
      PostOrderPieces(l);
      PostOrderPieces(r);
  }

  /** `evaluarPostfija` on the postfix notation of an expression gives its
      value, or the error the expression raises. */
  lemma EvaluationOfPostOrder(e: Expr)
    requires ValidExpr(e)
    ensures Evaluation(Join(PostOrder(e))) == Value(e)
  {
    PostOrderPieces(e);
    PiecesOfJoin(PostOrder(e));
    assert PostOrder(e) + [] == PostOrder(e);
    EvalPostOrder(e, [], []);
  }
}
