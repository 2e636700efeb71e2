/** `infijaAPrefija` on expressions written with a pair of parentheses
    around every operation: the prefix notation it produces is the
    expression's prefix order with every numeral read back to front. Without
    the parentheses, operators of equal precedence come out grouped to the
    right, unlike in the postfix notation. */
module PrefixPipeline {
  import opened Strings
  import opened Errors
  import opened Tokenizer
  import opened Postfix
  import opened Prefix
  import opened Evaluator
  import opened Pipeline

  /** The expression the mirrored string writes out: every operation with
      its operands swapped and every numeral read back to front. */
  function Flip(e: Expr): Expr
  {
    match e
    case Num(d) => Num(Reverse(d))
    case Bin(op, l, r) => Bin(op, Flip(r), Flip(l))
  }

  /** The same expression with every numeral read back to front. */
  function ReverseNumerals(e: Expr): Expr
  {
    match e
    case Num(d) => Num(Reverse(d))
    case Bin(op, l, r) => Bin(op, ReverseNumerals(l), ReverseNumerals(r))
  }

  /** The tokens of an expression in prefix order: every operator before
      its two operands. */
  function PreOrder(e: Expr): (ts: seq<string>)
    ensures |ts| > 0
  {
    match e
    case Num(d) => [d]
    case Bin(op, l, r) => [[op]] + PreOrder(l) + PreOrder(r)
  }

  /** A numeral read back to front is a numeral, and mirroring reads it so. */
  lemma MirroredNumeral(d: string)
    requires IsNumeral(d)
    ensures IsNumeral(Reverse(d)) && Mirror(d) == Reverse(d)
  {
    NumeralIsOperand(d);
    MirrorToken(d);
    forall i | 0 <= i < |d| ensures IsDigit(Reverse(d)[i]) {
      assert Reverse(d)[i] == d[|d| - 1 - i];
    }
  }

  /** Mirroring a parenthesized list reverses it, swapping the parentheses. */
  lemma MirrorBracketed(l: seq<string>, x: string, r: seq<string>)
    ensures Reverse(MirrorTokens(["("] + l + [x] + r + [")"])) ==
      [Mirror(")")] + Reverse(MirrorTokens(r)) + [Mirror(x)] + Reverse(MirrorTokens(l)) + [Mirror("(")]
  {
    var ml, mr := MirrorTokens(l), MirrorTokens(r);
    assert MirrorTokens(["("] + l + [x] + r + [")"]) == [Mirror("(")] + ml + [Mirror(x)] + mr + [Mirror(")")];
    ReverseAppend([Mirror("(")] + ml + [Mirror(x)] + mr, [Mirror(")")]);
    ReverseAppend([Mirror("(")] + ml + [Mirror(x)], mr);
    ReverseAppend([Mirror("(")] + ml, [Mirror(x)]);
    ReverseAppend([Mirror("(")], ml);
  }

  /** The mirrored tokens of a rendered expression, read back to front, are
      the tokens of its flipped expression. */
  lemma {:induction false} MirrorInfixTokens(e: Expr)
    requires ValidExpr(e)
    ensures ValidExpr(Flip(e))
    ensures Reverse(MirrorTokens(InfixTokens(e))) == InfixTokens(Flip(e))
    decreases e
  {
    match e
    case Num(d) =>
      MirroredNumeral(d);
    case Bin(op, l, r) =>
      MirrorInfixTokens(l);
      MirrorInfixTokens(r);
      ArithmeticOperatorToken(op);
      MirrorOperator([op]);
      MirrorToken("(");
      MirrorToken(")");
      MirrorBracketed(InfixTokens(l), [op], InfixTokens(r));
  }

  /** The postfix order of the flipped expression, read back to front, is
      the prefix order of the expression with its numerals reversed. */
  lemma {:induction false} PostOrderOfFlip(e: Expr)
    ensures Reverse(PostOrder(Flip(e))) == PreOrder(ReverseNumerals(e))
    decreases e
  {
    match e
    case Num(d) =>
    case Bin(op, l, r) =>
      PostOrderOfFlip(l);
      PostOrderOfFlip(r);
      var pr, pl := PostOrder(Flip(r)), PostOrder(Flip(l));
      ReverseAppend(pr + pl, [[op]]);
      ReverseAppend(pr, pl);
  }

  /** `infijaAPrefija` on a parenthesized expression gives its prefix order,
      space-separated, with every numeral read back to front (the reversal
      the display step then undoes). The parentheses fix the grouping, so
      this holds whatever the precedence of the operators. */
  lemma PrefixOfRender(e: Expr)
    requires ValidExpr(e)
    ensures PrefixNotation(Render(e)) == Ok(Join(PreOrder(ReverseNumerals(e))))
  {
    TokenizeRender(e);
    TokenizeMirror(Render(e));
    MirrorInfixTokens(e);
    var f := Flip(e);
    ShuntingYardOfInfixTokens(f);
    PostfixTokensAreTokens(InfixTokens(f));
    PrefixFromPostfix(Render(e), PostOrder(f));
    PostOrderOfFlip(e);
  }

  // ---------------------------------------------------------------------
  // Examples

  lemma JoinRegrouped()
    ensures Join(["-", "1", "-", "2", "3"]) == "- 1 - 2 3"
  {
  }

  lemma JoinCorrected()
    ensures Join(["-", "-", "1", "2", "3"]) == "- - 1 2 3"
  {
  }

  lemma ReversedDigits()
    ensures Reverse("1") == "1" && Reverse("2") == "2" && Reverse("3") == "3"
  {
  }

  /** `infijaAPrefija` gives `- 1 - 2 3` for `1-2-3`: the prefix notation
      of `1-(2-3)`, which is 2, not of `(1-2)-3`. */
  lemma PrefixOfDifference()
    ensures PrefixNotation("1-2-3") == Ok("- 1 - 2 3")
    ensures Join(PreOrder(Bin('-', Num("1"), Bin('-', Num("2"), Num("3"))))) == "- 1 - 2 3"
  {
    OperandDigits();
    SpellDifference();
    JoinRegrouped();
    ReversedDigits();
    PrefixOfThree("1", "-", "2", "-", "3");
    assert PreOrder(Bin('-', Num("1"), Bin('-', Num("2"), Num("3")))) == ["-", "1", "-", "2", "3"];
  }

  /** The corrected conversion gives `- - 1 2 3`, the prefix notation of
      `(1-2)-3`, the grouping the postfix notation has. */
  lemma DifferenceCorrected()
    ensures CorrectedPrefixNotation("1-2-3") == Ok("- - 1 2 3")
    ensures Join(PreOrder(Bin('-', Bin('-', Num("1"), Num("2")), Num("3")))) == "- - 1 2 3"
  {
    OperandDigits();
    SpellDifference();
    JoinCorrected();
    ReversedDigits();
    CorrectedPrefixOfThree("1", "-", "2", "-", "3");
    assert PreOrder(Bin('-', Bin('-', Num("1"), Num("2")), Num("3"))) == ["-", "-", "1", "2", "3"];
  }
}
