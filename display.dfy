/** `parcheVisualizacionNumeros`: the display fix applied to the prefix
    notation. The prefix notation is built from the mirrored infix string, so
    its operands come out digit-reversed; the fix puts the digit runs of the
    infix string back in place of the all-digit tokens, one by one. */
module Display {
  import opened Strings
  import opened Errors
  import opened Tokenizer
  import opened Postfix
  import opened Prefix
  import opened Evaluator
  import opened Pipeline
  import opened PrefixPipeline

  /** `infija.match(/[0-9]+/g) || []`: the maximal runs of digits, left to
      right. */
  function DigitRuns(s: string): (runs: seq<string>)
    ensures forall r <- runs :: IsNumeral(r)
    decreases |s|
  {
    if |s| == 0 then []
    else if IsDigit(s[0]) then
      var n := DigitPrefix(s);
      assert n > 0 by {
        assert DigitPrefix(s) == 1 + DigitPrefix(s[1..]);
      }
      [s[..n]] + DigitRuns(s[n..])
    else DigitRuns(s[1..])
  }

  /** The digit characters of `s`, in order. */
  function Digits(s: string): (ds: string)
    ensures forall i :: 0 <= i < |ds| ==> IsDigit(ds[i])
    decreases |s|
  {
    if |s| == 0 then "" else (if IsDigit(s[0]) then [s[0]] else "") + Digits(s[1..])
  }

  lemma {:induction false} DigitsOfPrefix(s: string, n: nat)
    requires n <= |s|
    requires forall i :: 0 <= i < n ==> IsDigit(s[i])
    ensures Digits(s) == s[..n] + Digits(s[n..])
    decreases n
  {
    if n > 0 {
      var tail := s[1..];
      assert Digits(s) == [s[0]] + Digits(tail);
      forall i | 0 <= i < n - 1 ensures IsDigit(tail[i]) {
        assert tail[i] == s[i + 1];
      }
      DigitsOfPrefix(tail, n - 1);
      assert tail[n - 1..] == s[n..];
      assert s[..n] == [s[0]] + tail[..n - 1];
    }
  }

  /** The runs spell out the digits of the string in order: no digit is
      lost, none is invented, and none moves. */
  lemma {:induction false} DigitRunsSpellDigits(s: string)
    ensures Concat(DigitRuns(s)) == Digits(s)
    decreases |s|
  {
    if |s| > 0 {
      if IsDigit(s[0]) {
        var n := DigitPrefix(s);
        assert n > 0 by {
          assert DigitPrefix(s) == 1 + DigitPrefix(s[1..]);
        }
        assert DigitRuns(s) == [s[..n]] + DigitRuns(s[n..]);
        DigitRunsSpellDigits(s[n..]);
        ConcatCons(s[..n], DigitRuns(s[n..]));
        DigitsOfPrefix(s, n);
      } else {
        assert DigitRuns(s) == DigitRuns(s[1..]);
        assert Digits(s) == Digits(s[1..]);
        DigitRunsSpellDigits(s[1..]);
      }
    }
  }

  /** A numeral is a single run. */
  lemma DigitRunsOfNumeral(s: string)
    requires IsNumeral(s)
    ensures DigitRuns(s) == [s]
  {
    DigitPrefixIs(s, |s|);
    assert s[..|s|] == s && s[|s|..] == "";
    assert DigitRuns(s) == [s[..|s|]] + DigitRuns(s[|s|..]);
  }

  lemma DigitPrefixStops(a: string, c: char, b: string)
    requires !IsDigit(c)
    ensures DigitPrefix(a + [c] + b) == DigitPrefix(a)
  {
    var s := a + [c] + b;
    var n := DigitPrefix(a);
    forall i | 0 <= i < n ensures IsDigit(s[i]) {
      assert s[i] == a[i];
    }
    if n < |a| {
      assert s[n] == a[n];
    } else {
      assert s[n] == c;
    }
    DigitPrefixIs(s, n);
  }

  /** A run never reaches across a character that is not a digit: the runs
      of `a c b` are those of `a` followed by those of `b`. */
  lemma {:induction false} DigitRunsAtNonDigit(a: string, c: char, b: string)
    requires !IsDigit(c)
    ensures DigitRuns(a + [c] + b) == DigitRuns(a) + DigitRuns(b)
    decreases |a|
  {
    var s := a + [c] + b;
    if |a| == 0 {
      assert s == [c] + b && s[1..] == b;
    } else if IsDigit(a[0]) {
      var n := DigitPrefix(a);
      assert n > 0 by {
        assert DigitPrefix(a) == 1 + DigitPrefix(a[1..]);
      }
      DigitPrefixStops(a, c, b);
      assert s[0] == a[0] && s[..n] == a[..n] && s[n..] == a[n..] + [c] + b;
      assert DigitRuns(s) == [a[..n]] + DigitRuns(a[n..] + [c] + b);
      assert DigitRuns(a) == [a[..n]] + DigitRuns(a[n..]);
      DigitRunsAtNonDigit(a[n..], c, b);
      HeadAcross([a[..n]], DigitRuns(a[n..]), DigitRuns(b), DigitRuns(a[n..] + [c] + b),
        DigitRuns(s), DigitRuns(a));
    } else {
      assert s[0] == a[0] && s[1..] == a[1..] + [c] + b;
      assert DigitRuns(s) == DigitRuns(a[1..] + [c] + b);
      assert DigitRuns(a) == DigitRuns(a[1..]);
      DigitRunsAtNonDigit(a[1..], c, b);
    }
  }

  /** The `map` over the prefix tokens, with the counter `numIdx` folded into
      the list of runs not used yet: an all-digit token takes the next run
      while one remains, every other token is kept. */
  function Patch(ts: seq<string>, runs: seq<string>): (r: seq<string>)
    ensures |r| == |ts|
    decreases |ts|
  {
    if |ts| == 0 then []
    else if IsNumeral(ts[0]) && |runs| > 0 then [runs[0]] + Patch(ts[1..], runs[1..])
    else [ts[0]] + Patch(ts[1..], runs)
  }

  /** What `parcheVisualizacionNumeros(prefija, infija)` returns. */
  function PatchedDisplay(prefix: string, infix: string): string
  {
    Join(Patch(Split(prefix), DigitRuns(infix)))
  }

  /** `parcheVisualizacionNumeros` with its counter `numIdx`. */
  method PatchDisplay(prefix: string, infix: string) returns (r: string)
    ensures r == PatchedDisplay(prefix, infix)
  {
    var originals := DigitRuns(infix);
    var numIdx := 0;
    var tokens := Split(prefix);
    var corrected: seq<string> := [];
    for i := 0 to |tokens|
      invariant numIdx <= |originals|
      invariant corrected + Patch(tokens[i..], originals[numIdx..]) == Patch(tokens, originals)
    {
      var token := tokens[i];
      PatchLoopStep(tokens, i, originals, numIdx, corrected);
      if IsNumeral(token) && numIdx < |originals| {
        corrected := corrected + [originals[numIdx]];
        numIdx := numIdx + 1;
      } else {
        corrected := corrected + [token];
      }
    }
    assert Patch(tokens[|tokens|..], originals[numIdx..]) == [];
    assert corrected == Patch(tokens, originals);
    return Join(corrected);
  }

  /** One turn of the loop: the token at `i` with the runs from `k` on. */
  lemma PatchStep(ts: seq<string>, i: nat, runs: seq<string>, k: nat)
    requires i < |ts| && k <= |runs|
    ensures Patch(ts[i..], runs[k..]) ==
      if IsNumeral(ts[i]) && k < |runs| then [runs[k]] + Patch(ts[i + 1..], runs[k + 1..])
      else [ts[i]] + Patch(ts[i + 1..], runs[k..])
  {
    assert ts[i..][0] == ts[i] && ts[i..][1..] == ts[i + 1..];
    if k < |runs| {
      assert runs[k..][0] == runs[k] && runs[k..][1..] == runs[k + 1..];
    }
  }

  /** The loop invariant carried over one token. */
  lemma PatchLoopStep(ts: seq<string>, i: nat, runs: seq<string>, k: nat, done: seq<string>)
    requires i < |ts| && k <= |runs|
    requires done + Patch(ts[i..], runs[k..]) == Patch(ts, runs)
    ensures IsNumeral(ts[i]) && k < |runs| ==>
      (done + [runs[k]]) + Patch(ts[i + 1..], runs[k + 1..]) == Patch(ts, runs)
    ensures !(IsNumeral(ts[i]) && k < |runs|) ==>
      (done + [ts[i]]) + Patch(ts[i + 1..], runs[k..]) == Patch(ts, runs)
  {
    PatchStep(ts, i, runs, k);
  }

  // ---------------------------------------------------------------------
  // What the patch does, token by token

  /** The number of all-digit tokens of `ts`. */
  function NumeralCount(ts: seq<string>): nat
    decreases |ts|
  {
    if |ts| == 0 then 0 else (if IsNumeral(ts[0]) then 1 else 0) + NumeralCount(ts[1..])
  }

  /** Position by position: a token that is not all digits is kept; the k-th
      all-digit token becomes the k-th digit run while runs remain, and is
      kept once they are used up. */
  lemma {:induction false} PatchAt(ts: seq<string>, runs: seq<string>, i: nat)
    requires i < |ts|
    ensures !IsNumeral(ts[i]) ==> Patch(ts, runs)[i] == ts[i]
    ensures IsNumeral(ts[i]) && NumeralCount(ts[..i]) < |runs| ==>
      Patch(ts, runs)[i] == runs[NumeralCount(ts[..i])]
    ensures IsNumeral(ts[i]) && NumeralCount(ts[..i]) >= |runs| ==> Patch(ts, runs)[i] == ts[i]
    decreases i
  {
    if i == 0 {
      assert NumeralCount(ts[..0]) == 0;
    } else {
      var taken := IsNumeral(ts[0]) && |runs| > 0;
      var runs' := if taken then runs[1..] else runs;
      PatchAt(ts[1..], runs', i - 1);
      assert ts[1..][i - 1] == ts[i];
      assert ts[..i][0] == ts[0] && ts[..i][1..] == ts[1..][..i - 1];
      assert Patch(ts, runs)[i] == Patch(ts[1..], runs')[i - 1];
      if taken {
        var k := NumeralCount(ts[1..][..i - 1]);
        assert k < |runs'| ==> runs'[k] == runs[k + 1];
      }
    }
  }

  lemma NumeralWithoutSpace(t: string)
    requires IsNumeral(t)
    ensures ' ' !in t
  {
    forall i | 0 <= i < |t| ensures t[i] != ' ' {
      assert IsDigit(t[i]);
    }
  }

  /** A patched token list has no token with a space inside. */
  lemma {:induction false} PatchWithoutSpaces(ts: seq<string>, runs: seq<string>)
    requires forall t <- ts :: ' ' !in t
    requires forall r <- runs :: IsNumeral(r)
    ensures forall t <- Patch(ts, runs) :: ' ' !in t
    decreases |ts|
  {
    if |ts| > 0 {
      assert forall t <- ts[1..] :: t in ts;
      if |runs| > 0 {
        assert forall r <- runs[1..] :: r in runs;
      }
      PatchWithoutSpaces(ts[1..], if IsNumeral(ts[0]) && |runs| > 0 then runs[1..] else runs);
      if IsNumeral(ts[0]) && |runs| > 0 {
        assert runs[0] in runs;
        NumeralWithoutSpace(runs[0]);
      } else {
        assert ts[0] in ts;
      }
    }
  }

  /** The output is the input's space-separated tokens, patched: in
      particular it has as many tokens as the input. */
  lemma PatchedTokens(prefix: string, infix: string)
    ensures Split(PatchedDisplay(prefix, infix)) == Patch(Split(prefix), DigitRuns(infix))
    ensures |Split(PatchedDisplay(prefix, infix))| == |Split(prefix)|
  {
    PatchWithoutSpaces(Split(prefix), DigitRuns(infix));
    SplitJoin(Patch(Split(prefix), DigitRuns(infix)));
  }

  /** Patching a second time with the same runs changes nothing. */
  lemma {:induction false} PatchIdempotent(ts: seq<string>, runs: seq<string>)
    requires forall r <- runs :: IsNumeral(r)
    ensures Patch(Patch(ts, runs), runs) == Patch(ts, runs)
    decreases |ts|
  {
    if |ts| > 0 {
      var p := Patch(ts, runs);
      if IsNumeral(ts[0]) && |runs| > 0 {
        assert runs[0] in runs && forall r <- runs[1..] :: r in runs;
        PatchIdempotent(ts[1..], runs[1..]);
        assert p[0] == runs[0] && p[1..] == Patch(ts[1..], runs[1..]);
      } else {
        PatchIdempotent(ts[1..], runs);
        assert p[0] == ts[0] && p[1..] == Patch(ts[1..], runs);
      }
    }
  }

  /** The display fix applied to its own output changes nothing. */
  lemma PatchedDisplayIdempotent(prefix: string, infix: string)
    ensures PatchedDisplay(PatchedDisplay(prefix, infix), infix) == PatchedDisplay(prefix, infix)
  {
    PatchedTokens(prefix, infix);
    PatchIdempotent(Split(prefix), DigitRuns(infix));
  }

  // ---------------------------------------------------------------------
  // Integer expressions: the fix shows the original numbers

  /** An infix string of digits and symbols only: every operand is an
      integer numeral. */
  predicate IntegerInfix(s: string)
  {
    forall i :: 0 <= i < |s| ==> IsDigit(s[i]) || IsSymbolChar(s[i])
  }

  lemma OperandRunOfDigits(s: string)
    requires IntegerInfix(s) && |s| > 0 && IsDigit(s[0])
    ensures OperandRun(s) == DigitPrefix(s)
    ensures IsOperandChar(s[0])
  {
  }

  /** In an integer expression the digit runs are exactly the operand tokens. */
  lemma {:induction false} DigitRunsAreOperands(s: string)
    requires IntegerInfix(s)
    ensures DigitRuns(s) == Operands(Tokenize(s))
    decreases |s|
  {
    if |s| > 0 {
      if IsDigit(s[0]) {
        OperandRunOfDigits(s);
        var n := OperandRun(s);
        assert IntegerInfix(s[n..]) by {
          assert forall i :: 0 <= i < |s[n..]| ==> s[n..][i] == s[n + i];
        }
        DigitRunsAreOperands(s[n..]);
        assert Tokenize(s) == [s[..n]] + Tokenize(s[n..]);
        OperandsAppend([s[..n]], Tokenize(s[n..]));
      } else {
        assert IsSymbolChar(s[0]) && !IsOperandChar(s[0]);
        assert IntegerInfix(s[1..]) by {
          assert forall i :: 0 <= i < |s[1..]| ==> s[1..][i] == s[i + 1];
        }
        DigitRunsAreOperands(s[1..]);
        assert Tokenize(s) == [s[..1]] + Tokenize(s[1..]);
        assert !IsOperand(s[..1]) by {
          assert s[..1][0] == s[0];
        }
        OperandsAppend([s[..1]], Tokenize(s[1..]));
      }
    }
  }

  /** When the operands of `ts` are exactly its all-digit tokens and there
      are as many runs as operands, the patched operands are the runs. */
  lemma {:induction false} PatchOperands(ts: seq<string>, runs: seq<string>)
    requires forall t <- ts :: IsOperand(t) ==> IsNumeral(t)
    requires forall r <- runs :: IsNumeral(r)
    requires |Operands(ts)| == |runs|
    ensures Operands(Patch(ts, runs)) == runs
    decreases |ts|
  {
    if |ts| > 0 {
      var t := ts[0];
      assert forall u <- ts[1..] :: u in ts;
      assert t in ts;
      assert Operands(ts) == (if IsOperand(t) then [t] else []) + Operands(ts[1..]);
      if IsOperand(t) {
        assert runs[0] in runs && forall r <- runs[1..] :: r in runs;
        NumeralIsOperand(runs[0]);
        PatchOperands(ts[1..], runs[1..]);
        assert Patch(ts, runs) == [runs[0]] + Patch(ts[1..], runs[1..]);
        assert runs == [runs[0]] + runs[1..];
      } else {
        if IsNumeral(t) {
          NumeralIsOperand(t);
        }
        PatchOperands(ts[1..], runs);
        assert Patch(ts, runs) == [t] + Patch(ts[1..], runs);
      }
      OperandsAppend([Patch(ts, runs)[0]], Patch(ts, runs)[1..]);
      assert Patch(ts, runs) == [Patch(ts, runs)[0]] + Patch(ts, runs)[1..];
    }
  }

  /** An operand token of a list is one of its operands. */
  lemma {:induction false} OperandInOperands(ts: seq<string>, t: string)
    requires t in ts && IsOperand(t)
    ensures t in Operands(ts)
    decreases |ts|
  {
    if ts[0] != t {
      OperandInOperands(ts[1..], t);
    }
  }

  /** A mirrored numeral is a numeral. */
  lemma MirrorNumeral(t: string)
    requires IsNumeral(t)
    ensures IsNumeral(Mirror(t))
  {
    NumeralIsOperand(t);
    MirrorToken(t);
    forall i | 0 <= i < |t| ensures IsDigit(Reverse(t)[i]) {
      assert Reverse(t)[i] == t[|t| - 1 - i];
    }
  }

  /** For an integer expression, the patched prefix notation shows the
      original numbers in their original order. */
  lemma PatchRestoresIntegers(s: string)
    requires IntegerInfix(s)
    requires PrefixNotation(s).Ok?
    ensures Operands(Split(PatchedDisplay(PrefixNotation(s).value, s))) == Operands(Tokenize(s))
  {
    var p := PrefixNotation(s).value;
    var ts := Split(p);
    var runs := DigitRuns(s);
    DigitRunsAreOperands(s);
    PrefixOperands(s);
    forall t <- ts | IsOperand(t) ensures IsNumeral(t) {
      OperandInOperands(ts, t);
      var j :| 0 <= j < |Operands(ts)| && Operands(ts)[j] == t;
      assert runs[j] in runs;
      MirrorNumeral(runs[j]);
    }
    PatchOperands(ts, runs);
    PatchedTokens(p, s);
  }

  // ---------------------------------------------------------------------
  // Operands that are not integers: the corrected display

  /** Every operand token read back to front, which undoes the mirroring
      that built the prefix notation; other tokens are kept. */
  function RestoreOperands(ts: seq<string>): (r: seq<string>)
    ensures |r| == |ts|
  {
    seq(|ts|, i requires 0 <= i < |ts| => if IsOperand(ts[i]) then Reverse(ts[i]) else ts[i])
  }

  /** The prefix notation with every operand restored. */
  function RestoredDisplay(prefix: string): string
  {
    Join(RestoreOperands(Split(prefix)))
  }

  lemma ReverseOperand(t: string)
    ensures IsOperand(Reverse(t)) <==> IsOperand(t)
    ensures ' ' !in t ==> ' ' !in Reverse(t)
  {
    var r := Reverse(t);
    assert forall i :: 0 <= i < |t| ==> r[i] == t[|t| - 1 - i];
    if IsOperand(r) {
      forall i | 0 <= i < |t| ensures IsOperandChar(t[i]) {
        assert r[|t| - 1 - i] == t[i];
      }
    }
    if ' ' in r {
      var i :| 0 <= i < |r| && r[i] == ' ';
      assert t[|t| - 1 - i] == ' ';
    }
  }

  lemma RestoreAppend(a: seq<string>, b: seq<string>)
    ensures RestoreOperands(a + b) == RestoreOperands(a) + RestoreOperands(b)
  {
  }

  /** Restoring one token and then picking it if it is an operand is
      picking it and then restoring it. */
  lemma RestoredHead(t: string)
    ensures Operands(RestoreOperands([t])) == RestoreOperands(Operands([t]))
  {
    ReverseOperand(t);
    assert RestoreOperands([t]) == [if IsOperand(t) then Reverse(t) else t];
    assert [if IsOperand(t) then Reverse(t) else t][1..] == [];
    assert [t][1..] == [];
  }

  lemma {:induction false} OperandsRestored(ts: seq<string>)
    ensures Operands(RestoreOperands(ts)) == RestoreOperands(Operands(ts))
    decreases |ts|
  {
    if |ts| > 0 {
      var t, rest := ts[0], ts[1..];
      var head, tail := RestoreOperands([t]), RestoreOperands(rest);
      assert Operands(RestoreOperands(ts)) == Operands(head) + Operands(tail) by {
        assert ts == [t] + rest;
        RestoreAppend([t], rest);
        OperandsAppend(head, tail);
      }
      assert RestoreOperands(Operands(ts)) == RestoreOperands(Operands([t])) + RestoreOperands(Operands(rest)) by {
        OperandsCons(ts);
        RestoreAppend(Operands([t]), Operands(rest));
      }
      RestoredHead(t);
      OperandsRestored(rest);
    }
  }

  /** Restoring mirrored operands gives the operands back. */
  lemma RestoreMirrored(os: seq<string>)
    requires forall t <- os :: IsOperand(t)
    ensures RestoreOperands(MirrorTokens(os)) == os
  {
    forall i | 0 <= i < |os| ensures RestoreOperands(MirrorTokens(os))[i] == os[i] {
      assert os[i] in os;
      MirrorToken(os[i]);
      ReverseReverse(os[i]);
    }
  }

  /** The restored prefix notation has the same tokens in the same places,
      and its operands are those of the infix string, as written and in
      their original order, whatever characters they are made of. */
  lemma RestoredDisplayShowsOperands(s: string)
    requires PrefixNotation(s).Ok?
    ensures |Split(RestoredDisplay(PrefixNotation(s).value))| == |Split(PrefixNotation(s).value)|
    ensures forall i :: 0 <= i < |Split(PrefixNotation(s).value)| && !IsOperand(Split(PrefixNotation(s).value)[i]) ==>
      Split(RestoredDisplay(PrefixNotation(s).value))[i] == Split(PrefixNotation(s).value)[i]
    ensures Operands(Split(RestoredDisplay(PrefixNotation(s).value))) == Operands(Tokenize(s))
  {
    var p := PrefixNotation(s).value;
    var ts := Split(p);
    var restored := RestoreOperands(ts);
    forall t <- restored ensures ' ' !in t {
      var i :| 0 <= i < |restored| && restored[i] == t;
      assert ts[i] in ts;
      ReverseOperand(ts[i]);
    }
    SplitJoin(restored);
    PrefixOperands(s);
    OperandsRestored(ts);
    assert forall t <- Operands(Tokenize(s)) :: IsOperand(t) by {
      OperandsAreOperands(Tokenize(s));
    }
    RestoreMirrored(Operands(Tokenize(s)));
  }

  lemma {:induction false} OperandsAreOperands(ts: seq<string>)
    ensures forall t <- Operands(ts) :: IsOperand(t)
    decreases |ts|
  {
    if |ts| > 0 {
      OperandsAreOperands(ts[1..]);
    }
  }

  // ---------------------------------------------------------------------
  // The display of a parenthesized expression

  /** The numerals of an expression, left to right. */
  function Leaves(e: Expr): (ds: seq<string>)
    ensures |ds| > 0
  {
    match e
    case Num(d) => [d]
    case Bin(_, l, r) => Leaves(l) + Leaves(r)
  }

  /** A rendered operation, spelled around its two operators' characters. */
  lemma RenderBin(op: char, l: Expr, r: Expr)
    ensures Render(Bin(op, l, r)) == [] + ['('] + (Render(l) + [op] + (Render(r) + [')'] + []))
  {
    var tl, tr := InfixTokens(l), InfixTokens(r);
    ConcatAppend(["("] + tl + [[op]] + tr, [")"]);
    ConcatAppend(["("] + tl + [[op]], tr);
    ConcatAppend(["("] + tl, [[op]]);
    ConcatAppend(["("], tl);
    assert Concat([")"]) == ")" && Concat([[op]]) == [op] && Concat(["("]) == "(";
  }

  /** The digit runs of a rendered expression are its numerals, in order:
      the parentheses and the operators keep every two numerals apart. */
  lemma {:induction false} DigitRunsOfRender(e: Expr)
    requires ValidExpr(e)
    ensures DigitRuns(Render(e)) == Leaves(e)
    decreases e
  {
    match e
    case Num(d) =>
      ConcatCons(d, []);
      assert [d] + [] == [d];
      DigitRunsOfNumeral(d);
    case Bin(op, l, r) =>
      DigitRunsOfRender(l);
      DigitRunsOfRender(r);
      RenderBin(op, l, r);
      var rl, rr := Render(l), Render(r);
      assert !IsDigit(op) && !IsDigit('(') && !IsDigit(')');
      DigitRunsAtNonDigit([], '(', rl + [op] + (rr + [')'] + []));
      DigitRunsAtNonDigit(rl, op, rr + [')'] + []);
      DigitRunsAtNonDigit(rr, ')', []);
      assert DigitRuns([]) == [];
  }

  lemma NoSpaceInNumeral(d: string)
    requires IsNumeral(d)
    ensures ' ' !in d && ' ' !in Reverse(d) && IsOperand(Reverse(d))
  {
    assert !IsDigit(' ');
    NumeralIsOperand(d);
    ReverseOperand(d);
  }

  /** The prefix tokens of an expression hold no space. */
  lemma {:induction false} PreOrderWithoutSpaces(e: Expr)
    requires ValidExpr(e)
    ensures forall t <- PreOrder(ReverseNumerals(e)) :: ' ' !in t
    decreases e
  {
    match e
    case Num(d) =>
      NoSpaceInNumeral(d);
    case Bin(op, l, r) =>
      PreOrderWithoutSpaces(l);
      PreOrderWithoutSpaces(r);
      assert [op][0] == op;
  }

  /** Restoring the operands of the reversed prefix order gives the prefix
      order. */
  lemma {:induction false} RestorePreOrder(e: Expr)
    requires ValidExpr(e)
    ensures RestoreOperands(PreOrder(ReverseNumerals(e))) == PreOrder(e)
    decreases e
  {
    match e
    case Num(d) =>
      NoSpaceInNumeral(d);
      ReverseReverse(d);
    case Bin(op, l, r) =>
      RestorePreOrder(l);
      RestorePreOrder(r);
      ArithmeticOperatorToken(op);
      var pl, pr := PreOrder(ReverseNumerals(l)), PreOrder(ReverseNumerals(r));
      RestoreAppend([[op]] + pl, pr);
      RestoreAppend([[op]], pl);
  }

  lemma NumeralReversed(d: string)
    requires IsNumeral(d)
    ensures IsNumeral(Reverse(d))
  {
    forall i | 0 <= i < |d| ensures IsDigit(Reverse(d)[i]) {
      assert Reverse(d)[i] == d[|d| - 1 - i];
    }
  }

  /** An all-digit token at the head takes the first run. */
  lemma PatchNumeral(t: string, rest: seq<string>, run: string, runs: seq<string>)
    requires IsNumeral(t)
    ensures Patch([t] + rest, [run] + runs) == [run] + Patch(rest, runs)
  {
    assert ([t] + rest)[0] == t && ([t] + rest)[1..] == rest;
    assert ([run] + runs)[0] == run && ([run] + runs)[1..] == runs;
  }

  /** Any other token at the head is kept. */
  lemma PatchKeeps(t: string, rest: seq<string>, runs: seq<string>)
    requires !IsNumeral(t)
    ensures Patch([t] + rest, runs) == [t] + Patch(rest, runs)
  {
    assert ([t] + rest)[0] == t && ([t] + rest)[1..] == rest;
  }

  /** Patching the reversed prefix order of `e`, followed by other tokens,
      with the numerals of `e` followed by other runs, puts back the prefix
      order of `e` and leaves the rest to the other runs. */
  lemma {:induction false} PatchPreOrder(e: Expr, rest: seq<string>, runs: seq<string>)
    requires ValidExpr(e)
    ensures Patch(PreOrder(ReverseNumerals(e)) + rest, Leaves(e) + runs) == PreOrder(e) + Patch(rest, runs)
    decreases e
  {
    match e
    case Num(d) =>
      NumeralReversed(d);
      PatchNumeral(Reverse(d), rest, d, runs);
    case Bin(op, l, r) =>
      var pl, pr := PreOrder(ReverseNumerals(l)), PreOrder(ReverseNumerals(r));
      var R := Leaves(l) + (Leaves(r) + runs);
      var tail := Patch(rest, runs);
      assert !IsNumeral([op]) by {
        assert [op][0] == op && !IsDigit(op);
      }
      calc {
        Patch(PreOrder(ReverseNumerals(e)) + rest, Leaves(e) + runs);
        { assert PreOrder(ReverseNumerals(e)) + rest == [[op]] + (pl + (pr + rest));
          assert Leaves(e) + runs == R; }
        Patch([[op]] + (pl + (pr + rest)), R);
        { PatchKeeps([op], pl + (pr + rest), R); }
        [[op]] + Patch(pl + (pr + rest), R);
        { PatchPreOrder(l, pr + rest, Leaves(r) + runs); }
        [[op]] + (PreOrder(l) + Patch(pr + rest, Leaves(r) + runs));
        { PatchPreOrder(r, rest, runs); }
        [[op]] + (PreOrder(l) + (PreOrder(r) + tail));
        { assert PreOrder(e) == [[op]] + PreOrder(l) + PreOrder(r); }
        PreOrder(e) + tail;
      }
  }

  /** For an expression with a pair of parentheses around every operation,
      both display fixes show exactly its prefix notation: `infijaAPrefija`
      reads every numeral back to front, and `parcheVisualizacionNumeros`
      puts each one back, as does restoring every operand. */
  lemma DisplayOfRender(e: Expr)
    requires ValidExpr(e)
    ensures PrefixNotation(Render(e)).Ok?
    ensures PatchedDisplay(PrefixNotation(Render(e)).value, Render(e)) == Join(PreOrder(e))
    ensures RestoredDisplay(PrefixNotation(Render(e)).value) == Join(PreOrder(e))
  {
    PrefixOfRender(e);
    var ts := PreOrder(ReverseNumerals(e));
    PreOrderWithoutSpaces(e);
    SplitJoin(ts);
    DigitRunsOfRender(e);
    PatchPreOrder(e, [], []);
    assert ts + [] == ts && Leaves(e) + [] == Leaves(e) && PreOrder(e) + [] == PreOrder(e);
    RestorePreOrder(e);
  }

  // ---------------------------------------------------------------------
  // Examples

  /** The display of a prefix string, from its tokens, the runs and the
      patched tokens. */
  lemma PatchedDisplayOf(prefix: string, infix: string, ts: seq<string>, runs: seq<string>, patched: seq<string>)
    requires Split(prefix) == ts && DigitRuns(infix) == runs && Patch(ts, runs) == patched
    ensures PatchedDisplay(prefix, infix) == Join(patched)
  {
  }

  /** The restored display of a prefix string, from its tokens. */
  lemma RestoredDisplayOf(prefix: string, ts: seq<string>, restored: seq<string>)
    requires Split(prefix) == ts && RestoreOperands(ts) == restored
    ensures RestoredDisplay(prefix) == Join(restored)
  {
  }

  lemma DigitRunsOfTwelve()
    ensures DigitRuns("12+3") == ["12", "3"]
  {
    var s := "12+3";
    assert DigitPrefix(s[2..]) == 0;
    assert DigitPrefix(s) == 2;
    assert s[..2] == "12" && s[2..] == "+3" && s[2..][1..] == "3";
    assert DigitPrefix("3") == 1 && "3"[..1] == "3" && "3"[1..] == "";
  }

  lemma PatchOfTwelve()
    ensures Patch(["+", "21", "3"], ["12", "3"]) == ["+", "12", "3"]
  {
    assert !IsNumeral("+") && IsNumeral("21") && IsNumeral("3") by {
      assert !IsDigit("+"[0]) && IsDigit("21"[0]) && IsDigit("21"[1]) && IsDigit("3"[0]);
    }
    assert ["+", "21", "3"][1..] == ["21", "3"] && ["21", "3"][1..] == ["3"];
    assert ["12", "3"][1..] == ["3"] && ["3"][1..] == [];
  }

  lemma JoinTwelve()
    ensures Join(["+", "12", "3"]) == "+ 12 3"
  {
  }

  /** `12+3` has the raw prefix notation `+ 21 3`, which the fix turns
      into `+ 12 3`. */
  lemma DisplayOfTwelve()
    ensures PrefixNotation("12+3") == Ok("+ 21 3")
    ensures PatchedDisplay("+ 21 3", "12+3") == "+ 12 3"
  {
    PrefixOfTwelve();
    SplitPrefixes();
    DigitRunsOfTwelve();
    PatchOfTwelve();
    JoinTwelve();
    PatchedDisplayOf("+ 21 3", "12+3", ["+", "21", "3"], ["12", "3"], ["+", "12", "3"]);
  }

  lemma MirrorDecimal()
    ensures Mirror("1.5+2") == "2+5.1"
  {
    var s := "1.5+2";
    var m := Mirror(s);
    assert s[0] == '1' && s[1] == '.' && s[2] == '5' && s[3] == '+' && s[4] == '2';
    assert forall i :: 0 <= i < 5 ==> m[i] == SwapParen(s[4 - i]);
    assert m == "2+5.1";
  }

  lemma DecimalTokens()
    ensures IsOperand("1.5") && IsOperand("5.1") && IsOperand("2") && IsOperand("1")
    ensures IsOperator("+") && !IsOperand("+")
    ensures forall t <- ["2", "+", "5.1"] :: IsToken(t)
    ensures forall t <- ["1.5", "+", "2"] :: IsToken(t)
  {
    assert IsOperandChar("1.5"[0]) && IsOperandChar("1.5"[1]) && IsOperandChar("1.5"[2]);
    assert IsOperandChar("5.1"[0]) && IsOperandChar("5.1"[1]) && IsOperandChar("5.1"[2]);
    assert IsOperandChar("2"[0]) && IsOperandChar("1"[0]) && !IsOperandChar("+"[0]) && IsSymbolChar("+"[0]);
  }

  lemma SpellDecimal()
    ensures Concat(["1.5", "+", "2"]) == "1.5+2"
    ensures Concat(["2", "+", "5.1"]) == "2+5.1"
  {
  }

  /** `1.5+2` and its mirror image are read as three tokens each. */
  lemma TokenizeDecimal()
    ensures Tokenize("1.5+2") == ["1.5", "+", "2"]
    ensures Tokenize("2+5.1") == ["2", "+", "5.1"]
  {
    DecimalTokens();
    SpellDecimal();
    TokenizeConcat(["1.5", "+", "2"]);
    TokenizeConcat(["2", "+", "5.1"]);
  }

  lemma ShuntingYardOfDecimal()
    ensures ShuntingYard(["2", "+", "5.1"]) == Ok(["2", "5.1", "+"])
  {
    DecimalTokens();
    SingleOperation("2", "+", "5.1");
  }

  lemma SplitDecimal()
    ensures Split(Join(["2", "5.1", "+"])) == ["2", "5.1", "+"]
  {
    SplitJoin(["2", "5.1", "+"]);
  }

  lemma ReversedDecimal()
    ensures Join(Reverse(["2", "5.1", "+"])) == "+ 5.1 2"
  {
    assert Reverse(["2", "5.1", "+"]) == ["+", "5.1", "2"];
  }

  lemma PrefixOfDecimal()
    ensures PrefixNotation("1.5+2") == Ok("+ 5.1 2")
  {
    MirrorDecimal();
    TokenizeDecimal();
    ShuntingYardOfDecimal();
    SplitDecimal();
    ReversedDecimal();
  }

  /** The raw prefix notations of `12+3` and of `1.5+2` split into their
      tokens. */
  lemma SplitPrefixes()
    ensures Split("+ 21 3") == ["+", "21", "3"]
    ensures Split("+ 5.1 2") == ["+", "5.1", "2"]
  {
    assert Join(["+", "21", "3"]) == "+ 21 3";
    SplitJoin(["+", "21", "3"]);
    assert Join(["+", "5.1", "2"]) == "+ 5.1 2";
    SplitJoin(["+", "5.1", "2"]);
  }

  lemma DigitRunsOfDecimal()
    ensures DigitRuns("1.5+2") == ["1", "5", "2"]
  {
    var s := "1.5+2";
    assert DigitPrefix(s[1..]) == 0;
    assert DigitPrefix(s) == 1 && s[..1] == "1" && s[1..] == ".5+2";
    var t := ".5+2";
    assert t[1..] == "5+2";
    var u := "5+2";
    assert DigitPrefix(u[1..]) == 0;
    assert DigitPrefix(u) == 1 && u[..1] == "5" && u[1..] == "+2";
    assert "+2"[1..] == "2";
    assert DigitPrefix("2") == 1 && "2"[..1] == "2" && "2"[1..] == "";
  }

  lemma PatchOfDecimal()
    ensures Patch(["+", "5.1", "2"], ["1", "5", "2"]) == ["+", "5.1", "1"]
  {
    assert !IsNumeral("+") && !IsNumeral("5.1") && IsNumeral("2") by {
      assert !IsDigit("+"[0]) && !IsDigit("5.1"[1]) && IsDigit("2"[0]);
    }
    assert ["+", "5.1", "2"][1..] == ["5.1", "2"] && ["5.1", "2"][1..] == ["2"];
    assert ["1", "5", "2"][1..] == ["5", "2"];
  }

  lemma JoinDecimal()
    ensures Join(["+", "5.1", "1"]) == "+ 5.1 1"
    ensures Join(["+", "1.5", "2"]) == "+ 1.5 2"
  {
  }

  lemma OperandsOfDecimal()
    ensures Operands(["+", "5.1", "1"]) == ["5.1", "1"]
    ensures Operands(["1.5", "+", "2"]) == ["1.5", "2"]
  {
    DecimalTokens();
  }

  lemma PatchedDecimal()
    ensures PatchedDisplay("+ 5.1 2", "1.5+2") == "+ 5.1 1"
  {
    SplitPrefixes();
    DigitRunsOfDecimal();
    PatchOfDecimal();
    JoinDecimal();
    PatchedDisplayOf("+ 5.1 2", "1.5+2", ["+", "5.1", "2"], ["1", "5", "2"], ["+", "5.1", "1"]);
  }

  /** The fix as written on `1.5+2`: the operands shown are `5.1` and `1`,
      while the expression's operands are `1.5` and `2`. */
  lemma DecimalMisplaced()
    ensures PrefixNotation("1.5+2") == Ok("+ 5.1 2")
    ensures Operands(Tokenize("1.5+2")) == ["1.5", "2"]
    ensures PatchedDisplay("+ 5.1 2", "1.5+2") == "+ 5.1 1"
    ensures Operands(Split(PatchedDisplay("+ 5.1 2", "1.5+2"))) == ["5.1", "1"]
  {
    PrefixOfDecimal();
    TokenizeDecimal();
    OperandsOfDecimal();
    PatchedDecimal();
    PatchedTokens("+ 5.1 2", "1.5+2");
    SplitPrefixes();
    DigitRunsOfDecimal();
    PatchOfDecimal();
  }

  lemma RestoreDecimal()
    ensures RestoreOperands(["+", "5.1", "2"]) == ["+", "1.5", "2"]
  {
    DecimalTokens();
    assert Reverse("5.1") == "1.5";
    assert Reverse("2") == "2";
  }

  /** The corrected display on `1.5+2` shows `+ 1.5 2`. */
  lemma DecimalRestored()
    ensures RestoredDisplay("+ 5.1 2") == "+ 1.5 2"
  {
    SplitPrefixes();
    RestoreDecimal();
    JoinDecimal();
    RestoredDisplayOf("+ 5.1 2", ["+", "5.1", "2"], ["+", "1.5", "2"]);
  }
}
