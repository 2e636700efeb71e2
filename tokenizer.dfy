/** The character classes of the notation engine and its tokenizer: the global
    match `/[a-zA-Z0-9.]+|\(|\)|\+|\-|\*|\/|\^/g` of `infijaAPostfija`, written
    as a scanner. */
module Tokenizer {
  import opened Strings

  /** A character of the operand class `[a-zA-Z0-9.]`. */
  predicate IsOperandChar(c: char)
  {
    ('a' <= c <= 'z') || ('A' <= c <= 'Z') || ('0' <= c <= '9') || c == '.'
  }

  /** A character that forms a token on its own: `( ) + - * / ^`. */
  predicate IsSymbolChar(c: char)
  {
    c == '(' || c == ')' || c == '+' || c == '-' || c == '*' || c == '/' || c == '^'
  }

  /** A character the tokenizer keeps; every other character is dropped. */
  predicate IsKept(c: char)
  {
    IsOperandChar(c) || IsSymbolChar(c)
  }

  /** `esOperando`: the whole token matches `^[a-zA-Z0-9.]+$`. */
  predicate IsOperand(t: string)
  {
    |t| > 0 && forall i :: 0 <= i < |t| ==> IsOperandChar(t[i])
  }

  /** A one-character token made of a symbol character. */
  predicate IsSymbol(t: string)
  {
    |t| == 1 && IsSymbolChar(t[0])
  }

  /** What the tokenizer can produce. */
  predicate IsToken(t: string)
  {
    IsOperand(t) || IsSymbol(t)
  }

  /** A string without characters that the tokenizer would drop. */
  predicate DropFree(s: string)
  {
    forall i :: 0 <= i < |s| ==> IsKept(s[i])
  }

  /** The characters of `s` the tokenizer keeps, in order. */
  function Kept(s: string): string
  {
    if |s| == 0 then "" else (if IsKept(s[0]) then [s[0]] else "") + Kept(s[1..])
  }

  /** No two neighbouring tokens are both operands: every operand run is maximal. */
  predicate Separated(ts: seq<string>)
  {
    forall i :: 0 <= i < |ts| - 1 ==> !(IsOperand(ts[i]) && IsOperand(ts[i + 1]))
  }

  /** The length of the longest prefix of `s` made of operand characters
      (the greedy `[a-zA-Z0-9.]+`). */
  function OperandRun(s: string): (n: nat)
    ensures n <= |s|
    ensures forall i :: 0 <= i < n ==> IsOperandChar(s[i])
    ensures n < |s| ==> !IsOperandChar(s[n])
    decreases |s|
  {
    if |s| == 0 || !IsOperandChar(s[0]) then 0 else 1 + OperandRun(s[1..])
  }

  lemma {:induction false} KeptOperandPrefix(s: string, n: nat)
    requires n <= |s|
    requires forall i :: 0 <= i < n ==> IsOperandChar(s[i])
    ensures Kept(s) == s[..n] + Kept(s[n..])
    decreases n
  {
    if n > 0 {
      var tail := s[1..];
      assert IsKept(s[0]);
      assert Kept(s) == [s[0]] + Kept(tail);
      assert forall i :: 0 <= i < n - 1 ==> IsOperandChar(tail[i]) by {
        forall i | 0 <= i < n - 1 ensures IsOperandChar(tail[i]) {
          assert tail[i] == s[i + 1];
        }
      }
      KeptOperandPrefix(tail, n - 1);
      assert tail[n - 1..] == s[n..];
      assert s[..n] == [s[0]] + tail[..n - 1];
    }
  }

  /** `infija.match(...) || []`: the tokens of `s` from left to right. Every
      token is a maximal operand run or a single symbol, the kept characters
      reappear in order, and dropped characters raise no error. */
  function Tokenize(s: string): (ts: seq<string>)
    ensures forall t <- ts :: IsToken(t)
    ensures Concat(ts) == Kept(s)
    decreases |s|
  {
    if |s| == 0 then []
    else if IsOperandChar(s[0]) then
      var n := OperandRun(s);
      var rest := Tokenize(s[n..]);
      OperandHead(s);
      KeptOperandPrefix(s, n);
      ConcatCons(s[..n], rest);
      [s[..n]] + rest
    else if IsSymbolChar(s[0]) then
      var rest := Tokenize(s[1..]);
      SymbolHead(s);
      ConcatCons(s[..1], rest);
      [s[..1]] + rest
    else
      Tokenize(s[1..])
  }

  /** A prefix of operand characters followed by the end of the string or by
      another character is the operand run. */
  lemma {:induction false} OperandRunIs(s: string, k: nat)
    requires k <= |s|
    requires forall i :: 0 <= i < k ==> IsOperandChar(s[i])
    requires k < |s| ==> !IsOperandChar(s[k])
    ensures OperandRun(s) == k
    decreases k
  {
    if k > 0 {
      var tail := s[1..];
      forall i | 0 <= i < k - 1 ensures IsOperandChar(tail[i]) {
        assert tail[i] == s[i + 1];
      }
      if k - 1 < |tail| {
        assert tail[k - 1] == s[k];
      }
      OperandRunIs(tail, k - 1);
    } else if |s| > 0 {
      assert !IsOperandChar(s[0]);
    }
  }

  /** The run of operand characters at the head of `s` is an operand token. */
  lemma OperandHead(s: string)
    requires |s| > 0 && IsOperandChar(s[0])
    ensures OperandRun(s) > 0 && IsOperand(s[..OperandRun(s)])
  {
    assert OperandRun(s) == 1 + OperandRun(s[1..]);
  }

  /** A symbol character at the head of `s` is a token of its own, and kept. */
  lemma SymbolHead(s: string)
    requires |s| > 0 && IsSymbolChar(s[0])
    ensures IsSymbol(s[..1]) && Kept(s) == s[..1] + Kept(s[1..])
  {
    assert s[..1] == [s[0]];
  }

  lemma KeptDropFree(s: string)
    requires DropFree(s)
    ensures Kept(s) == s
    decreases |s|
  {
    if |s| > 0 {
      KeptDropFree(s[1..]);
      assert s == [s[0]] + s[1..];
    }
  }

  lemma SeparatedTail(ts: seq<string>)
    requires |ts| > 0 && Separated(ts)
    ensures Separated(ts[1..])
  {
    forall i | 0 <= i < |ts| - 2
      ensures !(IsOperand(ts[1..][i]) && IsOperand(ts[1..][i + 1]))
    {
      assert ts[1..][i] == ts[i + 1] && ts[1..][i + 1] == ts[i + 2];
    }
  }

  lemma SeparatedCons(t: string, rest: seq<string>)
    requires Separated(rest)
    requires |rest| > 0 && IsOperand(t) ==> !IsOperand(rest[0])
    ensures Separated([t] + rest)
  {
    forall i | 0 <= i < |rest|
      ensures !(IsOperand(([t] + rest)[i]) && IsOperand(([t] + rest)[i + 1]))
    {
      if i > 0 {
        assert ([t] + rest)[i] == rest[i - 1] && ([t] + rest)[i + 1] == rest[i];
      }
    }
  }

  /** Without dropped characters, no two neighbouring tokens are operands:
      every operand token is a maximal run. */
  lemma {:induction false} TokenizeSeparated(s: string)
    requires DropFree(s)
    ensures Separated(Tokenize(s))
    decreases |s|
  {
    if |s| > 0 {
      if IsOperandChar(s[0]) {
        var n := OperandRun(s);
        var u := s[n..];
        assert DropFree(u) by {
          assert forall i :: 0 <= i < |u| ==> u[i] == s[n + i];
        }
        TokenizeSeparated(u);
        if n < |s| {
          assert u[0] == s[n] && IsSymbolChar(u[0]);
          TokenizeSymbolHead(u);
          assert !IsOperandChar(Tokenize(u)[0][0]);
        }
        SeparatedCons(s[..n], Tokenize(u));
      } else {
        assert IsSymbolChar(s[0]);
        assert DropFree(s[1..]) by {
          assert forall i :: 0 <= i < |s| - 1 ==> s[1..][i] == s[i + 1];
        }
        TokenizeSeparated(s[1..]);
        assert !IsOperandChar(s[..1][0]);
        SeparatedCons(s[..1], Tokenize(s[1..]));
      }
    }
  }

  /** An operand token followed by tokens that start with a symbol is a
      maximal operand run. */
  lemma OperandRunOfToken(t: string, rest: seq<string>)
    requires IsOperand(t)
    requires |rest| > 0 ==> IsSymbol(rest[0])
    ensures OperandRun(t + Concat(rest)) == |t|
  {
    var s := t + Concat(rest);
    forall i | 0 <= i < |t| ensures IsOperandChar(s[i]) {
      assert s[i] == t[i];
    }
    if |rest| > 0 {
      assert Concat(rest) == rest[0] + Concat(rest[1..]) by {
        ConcatCons(rest[0], rest[1..]);
        assert rest == [rest[0]] + rest[1..];
      }
      assert IsSymbolChar(rest[0][0]);
      assert s[|t|] == rest[0][0];
    } else {
      assert s == t;
    }
    OperandRunIs(s, |t|);
  }

  lemma TokenizeOperandHead(s: string)
    requires |s| > 0 && IsOperandChar(s[0])
    ensures Tokenize(s) == [s[..OperandRun(s)]] + Tokenize(s[OperandRun(s)..])
  {
  }

  lemma TokenizeSymbolHead(s: string)
    requires |s| > 0 && IsSymbolChar(s[0])
    ensures Tokenize(s) == [s[..1]] + Tokenize(s[1..])
  {
  }

  /** A token in front of tokens that spell `Concat(rest)` is split off
      first, provided an operand token is not followed by another operand. */
  lemma TokenizeHead(t: string, rest: seq<string>)
    requires IsToken(t) && forall r <- rest :: IsToken(r)
    requires IsOperand(t) && |rest| > 0 ==> !IsOperand(rest[0])
    ensures Tokenize(t + Concat(rest)) == [t] + Tokenize(Concat(rest))
  {
    var s := t + Concat(rest);
    assert s[..|t|] == t && s[|t|..] == Concat(rest);
    if IsOperand(t) {
      if |rest| > 0 {
        assert rest[0] in rest;
      }
      OperandRunOfToken(t, rest);
      assert s[0] == t[0];
      TokenizeOperandHead(s);
    } else {
      assert s[0] == t[0];
      TokenizeSymbolHead(s);
    }
  }

  /** For a string without dropped characters the tokenization is unique: any
      list of tokens that spells the string and keeps operand runs maximal is
      the one `Tokenize` returns. */
  lemma {:induction false} TokenizeUnique(s: string, ts: seq<string>)
    requires DropFree(s)
    requires forall t <- ts :: IsToken(t)
    requires Concat(ts) == s
    requires Separated(ts)
    ensures Tokenize(s) == ts
    decreases |ts|
  {
    if |ts| == 0 {
      assert s == "";
    } else {
      var t, rest := ts[0], ts[1..];
      assert ts == [t] + rest;
      var u := Concat(rest);
      assert s == t + u by {
        ConcatCons(t, rest);
      }
      assert IsToken(t) && forall r <- rest :: IsToken(r) by {
        assert t in ts;
        assert forall r <- rest :: r in ts;
      }
      assert Separated(rest) by {
        SeparatedTail(ts);
      }
      assert DropFree(u) by {
        forall i | 0 <= i < |u| ensures IsKept(u[i]) {
          assert u[i] == s[|t| + i];
        }
      }
      TokenizeUnique(u, rest);
      TokenizeHead(t, rest);
    }
  }

  lemma {:induction false} TokensDropFree(ts: seq<string>)
    requires forall t <- ts :: IsToken(t)
    ensures DropFree(Concat(ts))
    decreases |ts|
  {
    if |ts| > 0 {
      var t := ts[0];
      assert t in ts;
      assert forall u <- ts[1..] :: u in ts;
      TokensDropFree(ts[1..]);
      assert Concat(ts) == t + Concat(ts[1..]);
      assert forall i :: 0 <= i < |t| ==> IsKept(t[i]) by {
        if !IsOperand(t) {
          assert |t| == 1 && IsSymbolChar(t[0]);
        }
      }
    }
  }

  /** Round trip: spelling out a list of tokens whose operands are kept
      apart and tokenizing the result gives the list back. */
  lemma TokenizeConcat(ts: seq<string>)
    requires forall t <- ts :: IsToken(t)
    requires Separated(ts)
    ensures Tokenize(Concat(ts)) == ts
  {
    TokensDropFree(ts);
    TokenizeUnique(Concat(ts), ts);
  }

  lemma {:induction false} OperandRunStopsAtDropped(a: string, c: char, b: string)
    requires !IsKept(c)
    ensures OperandRun(a + [c] + b) == OperandRun(a)
    decreases |a|
  {
    var s := a + [c] + b;
    if |a| > 0 && IsOperandChar(a[0]) {
      assert s[1..] == a[1..] + [c] + b;
      OperandRunStopsAtDropped(a[1..], c, b);
    }
  }

  /** An operand run at the head of `a` is split off both from `a` and from
      `a` followed by a dropped character and more. */
  lemma DroppedOperandHead(a: string, c: char, b: string)
    requires |a| > 0 && IsOperandChar(a[0]) && !IsKept(c)
    ensures var n := OperandRun(a);
      && 0 < n <= |a|
      && Tokenize(a + [c] + b) == [a[..n]] + Tokenize(a[n..] + [c] + b)
      && Tokenize(a) == [a[..n]] + Tokenize(a[n..])
  {
    var s := a + [c] + b;
    var n := OperandRun(a);
    OperandHead(a);
    OperandRunStopsAtDropped(a, c, b);
    assert s[0] == a[0] && s[..n] == a[..n] && s[n..] == a[n..] + [c] + b;
    TokenizeOperandHead(s);
    TokenizeOperandHead(a);
  }

  /** A head character of `a` that is not an operand character is a token of
      its own or dropped, both in `a` and in `a` followed by more. */
  lemma DroppedSymbolHead(a: string, c: char, b: string)
    requires |a| > 0 && !IsOperandChar(a[0])
    ensures var h := if IsSymbolChar(a[0]) then [a[..1]] else [];
      && Tokenize(a + [c] + b) == h + Tokenize(a[1..] + [c] + b)
      && Tokenize(a) == h + Tokenize(a[1..])
  {
    var s := a + [c] + b;
    assert s[0] == a[0] && s[..1] == a[..1] && s[1..] == a[1..] + [c] + b;
  }

  /** The same head in front of both sides of a concatenation. */
  lemma HeadAcross(h: seq<string>, ta: seq<string>, tb: seq<string>, tail: seq<string>,
                   whole: seq<string>, part: seq<string>)
    requires tail == ta + tb && whole == h + tail && part == h + ta
    ensures whole == part + tb
  {
  }

  /** A dropped character separates: the tokens of `a + [c] + b` are those of
      `a` followed by those of `b`, so two operands around it stay two tokens. */
  lemma {:induction false} TokenizeAtDropped(a: string, c: char, b: string)
    requires !IsKept(c)
    ensures Tokenize(a + [c] + b) == Tokenize(a) + Tokenize(b)
    decreases |a|
  {
    if |a| == 0 {
      var s := a + [c] + b;
      assert s == [c] + b;
      assert s[1..] == b;
    } else if IsOperandChar(a[0]) {
      var n := OperandRun(a);
      DroppedOperandHead(a, c, b);
      TokenizeAtDropped(a[n..], c, b);
      HeadAcross([a[..n]], Tokenize(a[n..]), Tokenize(b), Tokenize(a[n..] + [c] + b),
        Tokenize(a + [c] + b), Tokenize(a));
    } else {
      var h := if IsSymbolChar(a[0]) then [a[..1]] else [];
      DroppedSymbolHead(a, c, b);
      TokenizeAtDropped(a[1..], c, b);
      HeadAcross(h, Tokenize(a[1..]), Tokenize(b), Tokenize(a[1..] + [c] + b),
        Tokenize(a + [c] + b), Tokenize(a));
    }
  }

  /** The operand tokens of `ts`, in order. */
  function Operands(ts: seq<string>): seq<string>
  {
    if |ts| == 0 then [] else (if IsOperand(ts[0]) then [ts[0]] else []) + Operands(ts[1..])
  }

  /** The operands of a non-empty list: those of its head, then those of its tail. */
  lemma OperandsCons(ts: seq<string>)
    requires |ts| > 0
    ensures Operands(ts) == Operands([ts[0]]) + Operands(ts[1..])
  {
    assert [ts[0]][1..] == [];
  }

  lemma {:induction false} OperandsAppend(a: seq<string>, b: seq<string>)
    ensures Operands(a + b) == Operands(a) + Operands(b)
    decreases |a|
  {
    if |a| == 0 {
      assert a + b == b;
    } else {
      assert (a + b)[1..] == a[1..] + b;
      OperandsAppend(a[1..], b);
    }
  }

  lemma {:induction false} OperandsOfNone(ts: seq<string>)
    requires forall i :: 0 <= i < |ts| ==> !IsOperand(ts[i])
    ensures Operands(ts) == []
    decreases |ts|
  {
    if |ts| > 0 {
      OperandsOfNone(ts[1..]);
    }
  }
}
