/** The JavaScript array and string operations the engine is built from:
    `reverse()`, `join(' ')`, `split(' ')`, and the concatenation of a list of strings. */
module Strings {

  /** `s.reverse()`, without the in-place update. */
  function Reverse<T>(s: seq<T>): seq<T>
  {
    seq(|s|, i requires 0 <= i < |s| => s[|s| - 1 - i])
  }

  lemma ReverseReverse<T>(s: seq<T>)
    ensures Reverse(Reverse(s)) == s
  {
  }

  lemma ReverseAppend<T>(a: seq<T>, b: seq<T>)
    ensures Reverse(a + b) == Reverse(b) + Reverse(a)
  {
  }

  lemma {:induction false} ReversePermutes<T>(s: seq<T>)
    ensures multiset(Reverse(s)) == multiset(s)
    decreases |s|
  {
    if |s| > 0 {
      var init := s[..|s| - 1];
      assert s == init + [s[|s| - 1]];
      assert Reverse(s) == [s[|s| - 1]] + Reverse(init);
      ReversePermutes(init);
    }
  }

  /** The strings of `ts` glued together with nothing in between. */
  function Concat(ts: seq<string>): string
  {
    if |ts| == 0 then "" else ts[0] + Concat(ts[1..])
  }

  lemma ConcatCons(t: string, rest: seq<string>)
    ensures Concat([t] + rest) == t + Concat(rest)
  {
    assert ([t] + rest)[0] == t && ([t] + rest)[1..] == rest;
  }

  lemma {:induction false} ConcatAppend(a: seq<string>, b: seq<string>)
    ensures Concat(a + b) == Concat(a) + Concat(b)
    decreases |a|
  {
    if |a| == 0 {
      assert a + b == b;
    } else {
      assert (a + b)[1..] == a[1..] + b;
      ConcatAppend(a[1..], b);
    }
  }

  /** `ts.join(' ')`: the elements separated by single spaces; `[]` gives "". */
  function Join(ts: seq<string>): string
  {
    if |ts| == 0 then "" else if |ts| == 1 then ts[0] else ts[0] + " " + Join(ts[1..])
  }

  /** `s.split(' ')`: the pieces between single spaces, so that two adjacent
      spaces give an empty piece and "" gives [""]. */
  function Split(s: string): (pieces: seq<string>)
    ensures |pieces| >= 1
    ensures forall p <- pieces :: ' ' !in p
    decreases |s|
  {
    if |s| == 0 then [""]
    else
      var rest := Split(s[1..]);
      if s[0] == ' ' then [""] + rest else [[s[0]] + rest[0]] + rest[1..]
  }

  /** Splitting at spaces and joining with spaces gives the string back. */
  lemma {:induction false} JoinSplit(s: string)
    ensures Join(Split(s)) == s
    decreases |s|
  {
    if |s| > 0 {
      var rest := Split(s[1..]);
      JoinSplit(s[1..]);
      if s[0] == ' ' {
        assert Split(s) == [""] + rest;
        assert s == " " + s[1..];
      } else {
        var first := [s[0]] + rest[0];
        assert Split(s) == [first] + rest[1..];
        if |rest| == 1 {
          assert Join(rest) == rest[0];
        } else {
          assert Join(rest) == rest[0] + " " + Join(rest[1..]);
          assert Join(Split(s)) == first + " " + Join(rest[1..]);
        }
        assert s == [s[0]] + s[1..];
      }
    }
  }

  lemma {:induction false} SplitWithoutSpace(t: string)
    requires ' ' !in t
    ensures Split(t) == [t]
    decreases |t|
  {
    if |t| > 0 {
      SplitWithoutSpace(t[1..]);
      assert t == [t[0]] + t[1..];
    }
  }

  lemma {:induction false} SplitAtFirstSpace(t: string, u: string)
    requires ' ' !in t
    ensures Split(t + " " + u) == [t] + Split(u)
    decreases |t|
  {
    if |t| == 0 {
      assert t + " " + u == " " + u;
      assert (" " + u)[1..] == u;
    } else {
      var s := t + " " + u;
      assert s[1..] == t[1..] + " " + u;
      SplitAtFirstSpace(t[1..], u);
      assert t == [t[0]] + t[1..];
    }
  }

  /** Joining space-free pieces and splitting again gives the pieces back;
      the empty list is the one exception, since "" splits into [""]. */
  lemma {:induction false} SplitJoin(ts: seq<string>)
    requires |ts| >= 1
    requires forall t <- ts :: ' ' !in t
    ensures Split(Join(ts)) == ts
    decreases |ts|
  {
    if |ts| == 1 {
      SplitWithoutSpace(ts[0]);
    } else {
      SplitJoin(ts[1..]);
      SplitAtFirstSpace(ts[0], Join(ts[1..]));
      assert ts == [ts[0]] + ts[1..];
    }
  }
}
