/** `infijaAPrefija`: prefix notation as the postfix notation of the mirrored
    string, read backwards. */
module Prefix {
  import opened Strings
  import opened Errors
  import opened Tokenizer
  import opened Postfix

  /** The character map of the reversal: '(' and ')' trade places. */
  function SwapParen(c: char): char
  {
    if c == '(' then ')' else if c == ')' then '(' else c
  }

  /** The string read backwards with its parentheses swapped
      (`split('').reverse().map(...).join('')`). */
  function Mirror(s: string): (r: string)
    ensures |r| == |s|
  {
    seq(|s|, i requires 0 <= i < |s| => SwapParen(s[|s| - 1 - i]))
  }

  /** `infijaAPrefija`: convert the mirrored string to postfix, then reverse
      the order of its space-separated pieces. */
  function PrefixNotation(infix: string): Result<string>
  {
    match PostfixNotation(Mirror(infix))
    case Ok(postfix) => Ok(Join(Reverse(Split(postfix))))
    case Err(e) => Err(e)
  }

  /** Mirroring twice gives the string back, so mirroring is a bijection
      that keeps the length. */
  lemma MirrorInvolution(s: string)
    ensures Mirror(Mirror(s)) == s
  {
    forall i | 0 <= i < |s| ensures Mirror(Mirror(s))[i] == s[i] {
      assert Mirror(Mirror(s))[i] == SwapParen(Mirror(s)[|s| - 1 - i]);
      assert Mirror(s)[|s| - 1 - i] == SwapParen(s[i]);
    }
  }

  lemma MirrorAppend(a: string, b: string)
    ensures Mirror(a + b) == Mirror(b) + Mirror(a)
  {
  }

  /** Each token mirrored on its own. */
  function MirrorTokens(ts: seq<string>): (r: seq<string>)
    ensures |r| == |ts|
  {
    seq(|ts|, i requires 0 <= i < |ts| => Mirror(ts[i]))
  }

  lemma MirrorTokensAppend(a: seq<string>, b: seq<string>)
    ensures MirrorTokens(a + b) == MirrorTokens(a) + MirrorTokens(b)
  {
  }

  /** Mirroring keeps each kind of token: an operand comes out digit-reversed
      and still an operand, '(' and ')' trade places, and an operator is
      unchanged. */
  lemma MirrorToken(t: string)
    ensures IsOperand(Mirror(t)) <==> IsOperand(t)
    ensures IsOperand(t) ==> Mirror(t) == Reverse(t)
    ensures IsToken(t) ==> IsToken(Mirror(t))
    ensures (Mirror(t) == "(" <==> t == ")") && (Mirror(t) == ")" <==> t == "(")
  {
    var m := Mirror(t);
    assert forall i :: 0 <= i < |t| ==> m[i] == SwapParen(t[|t| - 1 - i]);
    if IsOperand(t) {
      forall i | 0 <= i < |t| ensures m[i] == t[|t| - 1 - i] && IsOperandChar(m[i]) {
        assert IsOperandChar(t[|t| - 1 - i]);
      }
    }
    if IsOperand(m) {
      forall i | 0 <= i < |t| ensures IsOperandChar(t[i]) {
        assert IsOperandChar(m[|t| - 1 - i]);
      }
    }
    if m == "(" {
      assert m[0] == SwapParen(t[0]);
    }
    if m == ")" {
      assert m[0] == SwapParen(t[0]);
    }
  }

  lemma {:induction false} ConcatMirror(ts: seq<string>)
    ensures Concat(Reverse(MirrorTokens(ts))) == Mirror(Concat(ts))
    decreases |ts|
  {
    if |ts| > 0 {
      var t, rest := ts[0], ts[1..];
      assert ts == [t] + rest;
      MirrorTokensAppend([t], rest);
      ReverseAppend(MirrorTokens([t]), MirrorTokens(rest));
      assert Reverse(MirrorTokens([t])) == [Mirror(t)];
      ConcatAppend(Reverse(MirrorTokens(rest)), [Mirror(t)]);
      assert Concat([Mirror(t)]) == Mirror(t);
      ConcatMirror(rest);
      assert Concat(ts) == t + Concat(rest);
      MirrorAppend(t, Concat(rest));
    }
  }

  /** A mirrored drop-free string keeps maximal operand runs apart. */
  lemma MirroredSeparated(ts: seq<string>)
    requires Separated(ts)
    ensures Separated(Reverse(MirrorTokens(ts)))
  {
    var r := Reverse(MirrorTokens(ts));
    var n := |ts|;
    forall i | 0 <= i < n - 1 ensures !(IsOperand(r[i]) && IsOperand(r[i + 1])) {
      assert r[i] == Mirror(ts[n - 1 - i]) && r[i + 1] == Mirror(ts[n - 2 - i]);
      MirrorToken(ts[n - 1 - i]);
      MirrorToken(ts[n - 2 - i]);
    }
  }

  lemma MirrorDropFree(s: string)
    requires DropFree(s)
    ensures DropFree(Mirror(s))
  {
    forall i | 0 <= i < |s| ensures IsKept(Mirror(s)[i]) {
      assert IsKept(s[|s| - 1 - i]);
      assert Mirror(s)[i] == SwapParen(s[|s| - 1 - i]);
    }
  }

  /** Mirrored tokens, in reverse order, are tokens. */
  lemma MirroredTokens(ts: seq<string>)
    requires forall t <- ts :: IsToken(t)
    ensures forall t <- Reverse(MirrorTokens(ts)) :: IsToken(t)
  {
    var r := Reverse(MirrorTokens(ts));
    forall i | 0 <= i < |r| ensures IsToken(r[i]) {
      var j := |ts| - 1 - i;
      assert r[i] == Mirror(ts[j]);
      assert ts[j] in ts;
      MirrorToken(ts[j]);
    }
  }

  lemma TokenizeMirrorDropFree(s: string)
    requires DropFree(s)
    ensures Tokenize(Mirror(s)) == Reverse(MirrorTokens(Tokenize(s)))
  {
    var ts := Tokenize(s);
    var r := Reverse(MirrorTokens(ts));
    assert DropFree(Mirror(s)) by {
      MirrorDropFree(s);
    }
    MirroredTokens(ts);
    assert Concat(r) == Mirror(s) by {
      KeptDropFree(s);
      ConcatMirror(ts);
    }
    assert Separated(r) by {
      TokenizeSeparated(s);
      MirroredSeparated(ts);
    }
    TokenizeUnique(Mirror(s), r);
  }

  /** The mirror image of a string around a dropped character. */
  lemma MirrorAround(a: string, c: char, b: string)
    requires !IsKept(c)
    ensures Mirror(a + [c] + b) == Mirror(b) + [c] + Mirror(a)
  {
    MirrorAppend(a + [c], b);
    MirrorAppend(a, [c]);
    assert Mirror([c])[0] == SwapParen(c) == c;
  }

  /** The tokens of the mirrored string are the mirrored tokens of the
      string, in reverse order. This is why every multi-character operand
      reaches the prefix notation digit-reversed. */
  lemma {:induction false} TokenizeMirror(s: string)
    ensures Tokenize(Mirror(s)) == Reverse(MirrorTokens(Tokenize(s)))
    decreases |s|
  {
    if DropFree(s) {
      TokenizeMirrorDropFree(s);
    } else {
      var i :| 0 <= i < |s| && !IsKept(s[i]);
      var a, c, b := s[..i], s[i], s[i + 1..];
      assert s == a + [c] + b;
      assert Tokenize(s) == Tokenize(a) + Tokenize(b) by {
        TokenizeAtDropped(a, c, b);
      }
      assert Tokenize(Mirror(s)) == Tokenize(Mirror(b)) + Tokenize(Mirror(a)) by {
        MirrorAround(a, c, b);
        TokenizeAtDropped(Mirror(b), c, Mirror(a));
      }
      TokenizeMirror(a);
      TokenizeMirror(b);
      MirrorTokensAppend(Tokenize(a), Tokenize(b));
      ReverseAppend(MirrorTokens(Tokenize(a)), MirrorTokens(Tokenize(b)));
    }
  }

  // ---------------------------------------------------------------------
  // Parentheses under mirroring

  lemma DepthAppend(a: seq<string>, b: seq<string>)
    ensures Depth(a + b) == Depth(a) + Depth(b)
  {
    assert multiset(a + b) == multiset(a) + multiset(b);
  }

  lemma {:induction false} MirrorCounts(ts: seq<string>)
    ensures multiset(MirrorTokens(ts))["("] == multiset(ts)[")"]
    ensures multiset(MirrorTokens(ts))[")"] == multiset(ts)["("]
    decreases |ts|
  {
    if |ts| > 0 {
      var t, rest := ts[0], ts[1..];
      assert ts == [t] + rest;
      MirrorTokensAppend([t], rest);
      assert MirrorTokens([t]) == [Mirror(t)];
      MirrorToken(t);
      MirrorCounts(rest);
    }
  }

  /** Mirroring turns every '(' into ')' and back, so it negates the depth. */
  lemma DepthMirrored(ts: seq<string>)
    ensures Depth(Reverse(MirrorTokens(ts))) == -Depth(ts)
  {
    ReversePermutes(MirrorTokens(ts));
    MirrorCounts(ts);
  }

  /** The depth after the first `k` mirrored tokens is the depth after the
      first `|ts| - k` tokens, less the depth of the whole list. */
  lemma MirroredPrefixDepth(ts: seq<string>, k: nat)
    requires k <= |ts|
    ensures Depth(Reverse(MirrorTokens(ts))[..k]) == Depth(ts[..|ts| - k]) - Depth(ts)
  {
    var n := |ts|;
    assert Reverse(MirrorTokens(ts))[..k] == Reverse(MirrorTokens(ts[n - k..]));
    DepthMirrored(ts[n - k..]);
    assert ts == ts[..n - k] + ts[n - k..];
    DepthAppend(ts[..n - k], ts[n - k..]);
  }

  lemma MirrorKeepsBalance(ts: seq<string>)
    requires Balanced(ts, 0)
    ensures Balanced(Reverse(MirrorTokens(ts)), 0)
  {
    var n := |ts|;
    var r := Reverse(MirrorTokens(ts));
    DepthMirrored(ts);
    forall k | 0 <= k <= |r| ensures Depth(r[..k]) >= 0 {
      MirroredPrefixDepth(ts, k);
      assert Depth(ts[..n - k]) >= 0;
    }
  }

  lemma MirrorRestoresBalance(ts: seq<string>)
    requires Balanced(Reverse(MirrorTokens(ts)), 0)
    ensures Balanced(ts, 0)
  {
    var n := |ts|;
    var r := Reverse(MirrorTokens(ts));
    DepthMirrored(ts);
    forall j | 0 <= j <= n ensures Depth(ts[..j]) >= 0 {
      MirroredPrefixDepth(ts, n - j);
      assert Depth(r[..n - j]) >= 0;
      assert n - (n - j) == j;
    }
  }

  /** A token list is balanced exactly when its mirror image is: the prefix
      depths of the mirror image are the prefix depths of the list, counted
      from the other end. */
  lemma BalancedMirror(ts: seq<string>)
    ensures Balanced(Reverse(MirrorTokens(ts)), 0) <==> Balanced(ts, 0)
  {
    if Balanced(ts, 0) {
      MirrorKeepsBalance(ts);
    }
    if Balanced(Reverse(MirrorTokens(ts)), 0) {
      MirrorRestoresBalance(ts);
    }
  }

  /** `infijaAPrefija` throws exactly when `infijaAPostfija` on the same
      string throws: both demand the same balance of parentheses. */
  lemma PrefixFailsIffPostfixFails(s: string)
    ensures PrefixNotation(s).Err? <==> PostfixNotation(s).Err?
    ensures PrefixNotation(s).Err? ==> PrefixNotation(s).error == UnbalancedParentheses
  {
    var ts := Tokenize(s);
    TokenizeMirror(s);
    PostfixFailsIffUnbalanced(Tokenize(Mirror(s)));
    PostfixFailsIffUnbalanced(ts);
    BalancedMirror(ts);
  }

  // ---------------------------------------------------------------------
  // The prefix notation itself

  /** When it succeeds, `infijaAPrefija` lists the postfix tokens of the
      mirrored string in reverse order, separated by single spaces. */
  lemma PrefixReversesPostfix(s: string)
    requires PrefixNotation(s).Ok?
    ensures ShuntingYard(Tokenize(Mirror(s))).Ok?
    ensures PrefixNotation(s).value == Join(Reverse(ShuntingYard(Tokenize(Mirror(s))).value))
    ensures Split(PrefixNotation(s).value) ==
      var post := ShuntingYard(Tokenize(Mirror(s))).value;
      if |post| == 0 then [""] else Reverse(post)
  {
    var post := ShuntingYard(Tokenize(Mirror(s))).value;
    PostfixTokensAreTokens(Tokenize(Mirror(s)));
    if |post| > 0 {
      forall t <- post ensures ' ' !in t {
        assert IsToken(t);
      }
      SplitJoin(post);
      forall t <- Reverse(post) ensures ' ' !in t {
        var i :| 0 <= i < |post| && Reverse(post)[i] == t;
        assert post[|post| - 1 - i] in post;
      }
      SplitJoin(Reverse(post));
    }
  }

  lemma {:induction false} OperandsReverse(ts: seq<string>)
    ensures Operands(Reverse(ts)) == Reverse(Operands(ts))
    decreases |ts|
  {
    if |ts| > 0 {
      var t, rest := ts[0], ts[1..];
      assert ts == [t] + rest;
      ReverseAppend([t], rest);
      assert Reverse([t]) == [t];
      OperandsAppend(Reverse(rest), [t]);
      OperandsReverse(rest);
      OperandsAppend([t], rest);
      ReverseAppend(Operands([t]), Operands(rest));
      assert Reverse(Operands([t])) == Operands([t]);
    }
  }

  lemma {:induction false} OperandsMirror(ts: seq<string>)
    ensures Operands(MirrorTokens(ts)) == MirrorTokens(Operands(ts))
    decreases |ts|
  {
    if |ts| > 0 {
      var t, rest := ts[0], ts[1..];
      assert ts == [t] + rest;
      MirrorTokensAppend([t], rest);
      assert MirrorTokens([t]) == [Mirror(t)];
      MirrorToken(t);
      OperandsAppend([Mirror(t)], rest[..0] + MirrorTokens(rest));
      assert rest[..0] + MirrorTokens(rest) == MirrorTokens(rest);
      OperandsMirror(rest);
      OperandsAppend([t], rest);
      MirrorTokensAppend(Operands([t]), Operands(rest));
      if IsOperand(t) {
        assert MirrorTokens(Operands([t])) == [Mirror(t)];
      }
    }
  }

  /** The operands of the prefix notation are the operands of the infix
      string in their original order, each one mirrored (digit-reversed,
      by `MirrorToken`); `infijaAPrefija` leaves them that way. */
  lemma PrefixOperands(s: string)
    requires PrefixNotation(s).Ok?
    ensures Operands(Split(PrefixNotation(s).value)) == MirrorTokens(Operands(Tokenize(s)))
  {
    var ts := Tokenize(s);
    var mirrored := Tokenize(Mirror(s));
    var post := ShuntingYard(mirrored).value;
    PrefixReversesPostfix(s);
    TokenizeMirror(s);
    PostfixKeepsOperands(mirrored);
    OperandsReverse(MirrorTokens(ts));
    OperandsMirror(ts);
    ReverseReverse(MirrorTokens(Operands(ts)));
    assert Operands(post) == Reverse(MirrorTokens(Operands(ts)));
    if |post| == 0 {
      assert Operands([""]) == [];
    } else {
      OperandsReverse(post);
    }
  }

  // ---------------------------------------------------------------------
  // Grouping of three operands

  /** An operator is its own mirror image. */
  lemma MirrorOperator(op: string)
    requires IsOperator(op)
    ensures Mirror(op) == op
  {
    assert Mirror(op)[0] == SwapParen(op[0]) == op[0];
  }

  /** The prefix notation read off a successful postfix conversion of the
      mirrored string. */
  lemma PrefixFromPostfix(s: string, post: seq<string>)
    requires |post| > 0 && forall t <- post :: IsToken(t)
    requires ShuntingYard(Tokenize(Mirror(s))) == Ok(post)
    ensures PrefixNotation(s) == Ok(Join(Reverse(post)))
  {
    forall t <- post ensures ' ' !in t {
      assert IsToken(t);
    }
    SplitJoin(post);
  }

  /** `a op1 b op2 c`, spelled out, is read back as these five tokens. */
  lemma TokensOfThree(a: string, op1: string, b: string, op2: string, c: string)
    requires IsOperand(a) && IsOperand(b) && IsOperand(c)
    requires IsOperator(op1) && IsOperator(op2)
    ensures Tokenize(Concat([a, op1, b, op2, c])) == [a, op1, b, op2, c]
  {
    assert !IsOperand(op1) && !IsOperand(op2) && IsToken(op1) && IsToken(op2) by {
      assert !IsOperandChar(op1[0]) && !IsOperandChar(op2[0]);
      assert IsSymbolChar(op1[0]) && IsSymbolChar(op2[0]);
    }
    TokenizeConcat([a, op1, b, op2, c]);
  }

  lemma MirrorTokensOfThree(a: string, op1: string, b: string, op2: string, c: string)
    requires IsOperand(a) && IsOperand(b) && IsOperand(c)
    requires IsOperator(op1) && IsOperator(op2)
    ensures IsOperand(Reverse(a)) && IsOperand(Reverse(b)) && IsOperand(Reverse(c))
    ensures Reverse(MirrorTokens([a, op1, b, op2, c])) == [Reverse(c), op2, Reverse(b), op1, Reverse(a)]
  {
    MirrorToken(a);
    MirrorToken(b);
    MirrorToken(c);
    MirrorOperator(op1);
    MirrorOperator(op2);
    var m := MirrorTokens([a, op1, b, op2, c]);
    assert m == [Reverse(a), op1, Reverse(b), op2, Reverse(c)];
  }

  /** `a op1 b op2 c` mirrored reads `c' op2 b' op1 a'`, each operand read
      back to front. */
  lemma MirroredThree(a: string, op1: string, b: string, op2: string, c: string)
    requires IsOperand(a) && IsOperand(b) && IsOperand(c)
    requires IsOperator(op1) && IsOperator(op2)
    ensures IsOperand(Reverse(a)) && IsOperand(Reverse(b)) && IsOperand(Reverse(c))
    ensures Tokenize(Mirror(Concat([a, op1, b, op2, c]))) ==
      [Reverse(c), op2, Reverse(b), op1, Reverse(a)]
  {
    var s := Concat([a, op1, b, op2, c]);
    TokensOfThree(a, op1, b, op2, c);
    TokenizeMirror(s);
    MirrorTokensOfThree(a, op1, b, op2, c);
  }

  /** The precedence rule of `infijaAPrefija` on `a op1 b op2 c`: the prefix
      notation applies `op1` first only when it binds strictly tighter than
      `op2`. On equal precedence the mirrored pass groups to the right, so
      `1-2-3` is shown as `1-(2-3)`, unlike its postfix notation
      (`Postfix.ThreeOperands`). */
  lemma PrefixOfThree(a: string, op1: string, b: string, op2: string, c: string)
    requires IsOperand(a) && IsOperand(b) && IsOperand(c)
    requires IsOperator(op1) && IsOperator(op2)
    ensures PrefixNotation(Concat([a, op1, b, op2, c])) ==
      if Precedence(op1) > Precedence(op2) then Ok(Join([op2, op1, Reverse(a), Reverse(b), Reverse(c)]))
      else Ok(Join([op1, Reverse(a), op2, Reverse(b), Reverse(c)]))
  {
    var s := Concat([a, op1, b, op2, c]);
    var a', b', c' := Reverse(a), Reverse(b), Reverse(c);
    MirroredThree(a, op1, b, op2, c);
    ThreeOperands(c', op2, b', op1, a');
    assert IsToken(op1) && IsToken(op2) by {
      assert IsSymbolChar(op1[0]) && IsSymbolChar(op2[0]);
    }
    if Precedence(op2) >= Precedence(op1) {
      var post := [c', b', op2, a', op1];
      PrefixFromPostfix(s, post);
      assert Reverse(post) == [op1, a', op2, b', c'];
    } else {
      var post := [c', b', a', op1, op2];
      PrefixFromPostfix(s, post);
      assert Reverse(post) == [op2, op1, a', b', c'];
    }
  }

  // ---------------------------------------------------------------------
  // The conversion with left grouping restored

  /** The operator branch of the corrected pass over the mirrored string:
      pop stacked operators only while they bind strictly tighter than `op`.
      Read backwards, this makes operators of equal precedence group to the
      left, as they do in the postfix notation. */
  function PopTighter(st: seq<string>, out: seq<string>, op: string): (r: (seq<string>, seq<string>))
    requires StackOk(st) && IsOperator(op)
    ensures |r.0| <= |st| && r.0 == st[..|r.0|]
    decreases |st|
  {
    if |st| > 0 && st[|st| - 1] != "(" && Precedence(st[|st| - 1]) > Precedence(op) then
      PopTighter(st[..|st| - 1], out + [st[|st| - 1]], op)
    else
      (st, out)
  }

  /** One step of the corrected pass: as `Postfix.Step`, with the strict
      popping rule for operators. */
  function MirrorStep(t: string, st: seq<string>, out: seq<string>): (r: Result<(seq<string>, seq<string>)>)
    requires IsToken(t) && StackOk(st)
    ensures r.Ok? ==> StackOk(r.value.0)
    ensures r.Err? ==> r.error == UnbalancedParentheses
  {
    if IsOperand(t) then Ok((st, out + [t]))
    else if t == "(" then Ok((st + [t], out))
    else if t == ")" then PopToOpen(st, out)
    else
      SymbolCases(t);
      var popped := PopTighter(st, out, t);
      Ok((popped.0 + [t], popped.1))
  }

  /** The corrected pass from token list `ts` on, followed by the final flush. */
  function MirrorRun(ts: seq<string>, st: seq<string>, out: seq<string>): Result<seq<string>>
    requires forall t <- ts :: IsToken(t)
    requires StackOk(st)
    decreases |ts|
  {
    if |ts| == 0 then Flush(st, out)
    else
      match MirrorStep(ts[0], st, out)
      case Err(e) => Err(e)
      case Ok(next) =>
        assert forall t <- ts[1..] :: t in ts;
        MirrorRun(ts[1..], next.0, next.1)
  }

  /** `infijaAPrefija` with the strict popping rule in its pass over the
      mirrored string. */
  function CorrectedPrefixNotation(infix: string): Result<string>
  {
    match MirrorRun(Tokenize(Mirror(infix)), [], [])
    case Ok(post) => Ok(Join(Reverse(post)))
    case Err(e) => Err(e)
  }

  lemma MirrorRunOperand(t: string, rest: seq<string>, st: seq<string>, out: seq<string>, out': seq<string>)
    requires IsOperand(t) && (forall u <- rest :: IsToken(u)) && StackOk(st)
    requires out' == out + [t]
    ensures MirrorRun([t] + rest, st, out) == MirrorRun(rest, st, out')
  {
    assert ([t] + rest)[1..] == rest;
  }

  lemma MirrorRunPushes(t: string, rest: seq<string>, st: seq<string>, out: seq<string>, st': seq<string>)
    requires IsOperator(t) && (forall u <- rest :: IsToken(u)) && StackOk(st)
    requires |st| == 0 || st[|st| - 1] == "(" || Precedence(st[|st| - 1]) <= Precedence(t)
    requires st' == st + [t]
    ensures MirrorRun([t] + rest, st, out) == MirrorRun(rest, st', out)
  {
    assert ([t] + rest)[1..] == rest;
    assert !IsOperand(t) && t != "(" && t != ")" by { assert !IsOperandChar(t[0]); }
  }

  lemma MirrorRunPops(t: string, rest: seq<string>, st: seq<string>, out: seq<string>, st': seq<string>, out': seq<string>)
    requires IsOperator(t) && (forall u <- rest :: IsToken(u)) && StackOk(st)
    requires |st| > 0 && st[|st| - 1] != "(" && Precedence(st[|st| - 1]) > Precedence(t)
    requires st' == st[..|st| - 1] && out' == out + [st[|st| - 1]]
    ensures MirrorRun([t] + rest, st, out) == MirrorRun([t] + rest, st', out')
  {
    assert ([t] + rest)[1..] == rest;
    assert !IsOperand(t) && t != "(" && t != ")" by { assert !IsOperandChar(t[0]); }
  }

  /** The corrected pass on `x op2 y op1 z` (the mirror image of
      `z op1 y op2 x`): `op2` is applied first only when it binds strictly
      tighter than `op1`. */
  lemma MirrorRunOfThree(x: string, op2: string, y: string, op1: string, z: string)
    requires IsOperand(x) && IsOperand(y) && IsOperand(z)
    requires IsOperator(op1) && IsOperator(op2)
    ensures forall u <- [x, op2, y, op1, z] :: IsToken(u)
    ensures MirrorRun([x, op2, y, op1, z], [], []) ==
      if Precedence(op2) > Precedence(op1) then Ok([x, y, op2, z, op1]) else Ok([x, y, z, op1, op2])
  {
    assert IsToken(op1) && IsToken(op2) && op2 != "(" by {
      assert IsSymbolChar(op1[0]) && IsSymbolChar(op2[0]) && op2[0] != '(';
    }
    var r4 := [z];
    var r3 := [op1] + r4;
    var r2 := [y] + r3;
    var r1 := [op2] + r2;
    assert [x, op2, y, op1, z] == [x] + r1;
    calc {
      MirrorRun([x] + r1, [], []);
      { MirrorRunOperand(x, r1, [], [], [x]); }
      MirrorRun([op2] + r2, [], [x]);
      { MirrorRunPushes(op2, r2, [], [x], [op2]); }
      MirrorRun([y] + r3, [op2], [x]);
      { MirrorRunOperand(y, r3, [op2], [x], [x, y]); }
      MirrorRun([op1] + r4, [op2], [x, y]);
    }
    if Precedence(op2) > Precedence(op1) {
      calc {
        MirrorRun([op1] + r4, [op2], [x, y]);
        { MirrorRunPops(op1, r4, [op2], [x, y], [], [x, y, op2]); }
        MirrorRun([op1] + r4, [], [x, y, op2]);
        { MirrorRunPushes(op1, r4, [], [x, y, op2], [op1]); assert r4 == [z] + []; }
        MirrorRun([z] + [], [op1], [x, y, op2]);
        { MirrorRunOperand(z, [], [op1], [x, y, op2], [x, y, op2, z]); }
        MirrorRun([], [op1], [x, y, op2, z]);
        { FlushEffect([op1], [x, y, op2, z]); }
        Ok([x, y, op2, z] + Reverse([op1]));
        { assert [x, y, op2, z] + Reverse([op1]) == [x, y, op2, z, op1]; }
        Ok([x, y, op2, z, op1]);
      }
    } else {
      calc {
        MirrorRun([op1] + r4, [op2], [x, y]);
        { MirrorRunPushes(op1, r4, [op2], [x, y], [op2, op1]); assert r4 == [z] + []; }
        MirrorRun([z] + [], [op2, op1], [x, y]);
        { MirrorRunOperand(z, [], [op2, op1], [x, y], [x, y, z]); }
        MirrorRun([], [op2, op1], [x, y, z]);
        { FlushEffect([op2, op1], [x, y, z]); }
        Ok([x, y, z] + Reverse([op2, op1]));
        { assert [x, y, z] + Reverse([op2, op1]) == [x, y, z, op1, op2]; }
        Ok([x, y, z, op1, op2]);
      }
    }
  }

  /** The corrected conversion on `a op1 b op2 c` applies `op1` first exactly
      when it binds at least as tightly as `op2`, the rule of the postfix
      notation (`Postfix.ThreeOperands`): operators of equal precedence
      group to the left. */
  lemma CorrectedPrefixOfThree(a: string, op1: string, b: string, op2: string, c: string)
    requires IsOperand(a) && IsOperand(b) && IsOperand(c)
    requires IsOperator(op1) && IsOperator(op2)
    ensures CorrectedPrefixNotation(Concat([a, op1, b, op2, c])) ==
      if Precedence(op1) >= Precedence(op2) then Ok(Join([op2, op1, Reverse(a), Reverse(b), Reverse(c)]))
      else Ok(Join([op1, Reverse(a), op2, Reverse(b), Reverse(c)]))
  {
    var a', b', c' := Reverse(a), Reverse(b), Reverse(c);
    MirroredThree(a, op1, b, op2, c);
    MirrorRunOfThree(c', op2, b', op1, a');
    if Precedence(op2) > Precedence(op1) {
      assert Reverse([c', b', op2, a', op1]) == [op1, a', op2, b', c'];
    } else {
      assert Reverse([c', b', a', op1, op2]) == [op2, op1, a', b', c'];
    }
  }

  // ---------------------------------------------------------------------
  // Worked examples

  lemma MirrorSum()
    ensures Mirror("3+4*2") == "2*4+3"
  {
    var s := "3+4*2";
    var m := Mirror(s);
    assert s[0] == '3' && s[1] == '+' && s[2] == '4' && s[3] == '*' && s[4] == '2';
    assert forall i :: 0 <= i < 5 ==> m[i] == SwapParen(s[4 - i]);
    assert m == "2*4+3";
  }

  lemma MirrorTwelve()
    ensures Mirror("12+3") == "3+21"
  {
    var s := "12+3";
    var m := Mirror(s);
    assert s[0] == '1' && s[1] == '2' && s[2] == '+' && s[3] == '3';
    assert forall i :: 0 <= i < 4 ==> m[i] == SwapParen(s[3 - i]);
    assert m == "3+21";
  }

  lemma SpellMirrored()
    ensures Concat(["2", "*", "4", "+", "3"]) == "2*4+3"
    ensures Concat(["3", "+", "21"]) == "3+21"
  {
  }

  lemma SplitSum()
    ensures Split(Join(["2", "4", "*", "3", "+"])) == ["2", "4", "*", "3", "+"]
  {
    SplitJoin(["2", "4", "*", "3", "+"]);
  }

  lemma ReversedSum()
    ensures Join(Reverse(["2", "4", "*", "3", "+"])) == "+ 3 * 4 2"
  {
    assert Reverse(["2", "4", "*", "3", "+"]) == ["+", "3", "*", "4", "2"];
  }

  lemma SplitTwelve()
    ensures Split(Join(["3", "21", "+"])) == ["3", "21", "+"]
  {
    SplitJoin(["3", "21", "+"]);
  }

  lemma ReversedTwelve()
    ensures Join(Reverse(["3", "21", "+"])) == "+ 21 3"
  {
    assert Reverse(["3", "21", "+"]) == ["+", "21", "3"];
  }

  /** The prefix notation of `3+4*2`. */
  lemma PrefixOfSum()
    ensures PrefixNotation("3+4*2") == Ok("+ 3 * 4 2")
  {
    OperandDigits();
    MirrorSum();
    SpellMirrored();
    InfixOfThree("2", "*", "4", "+", "3");
    SplitSum();
    ReversedSum();
  }

  lemma TokenizeMirroredTwelve()
    ensures Tokenize("3+21") == ["3", "+", "21"]
  {
    OperandDigits();
    assert IsOperand("21") by {
      assert IsOperandChar("21"[0]) && IsOperandChar("21"[1]);
    }
    assert !IsOperand("+") && IsSymbol("+") by {
      assert !IsOperandChar("+"[0]) && IsSymbolChar("+"[0]);
    }
    SpellMirrored();
    TokenizeConcat(["3", "+", "21"]);
  }

  lemma ShuntingYardOfTwelve()
    ensures ShuntingYard(["3", "+", "21"]) == Ok(["3", "21", "+"])
  {
    OperandDigits();
    assert IsOperand("21") by {
      assert IsOperandChar("21"[0]) && IsOperandChar("21"[1]);
    }
    assert IsOperator("+");
    SingleOperation("3", "+", "21");
  }

  /** A two-digit operand comes out digit-reversed: `12+3` gives `+ 21 3`. */
  lemma PrefixOfTwelve()
    ensures PrefixNotation("12+3") == Ok("+ 21 3")
  {
    MirrorTwelve();
    TokenizeMirroredTwelve();
    ShuntingYardOfTwelve();
    SplitTwelve();
    ReversedTwelve();
  }
}
