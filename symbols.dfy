/** Instruction strings: symbol counts and bracket nesting, shared by the
    string rewriter and the turtle interpreter. */
module Symbols {

  /** How many times `c` occurs in `s`. */
  function Count(s: string, c: char): nat
  {
    if s == [] then 0 else Count(s[..|s| - 1], c) + (if s[|s| - 1] == c then 1 else 0)
  }

  /** Counting in a concatenation adds the counts of the parts. */
  lemma {:induction false} CountAppend(a: string, b: string, c: char)
    ensures Count(a + b, c) == Count(a, c) + Count(b, c)
    decreases |b|
  {
    if b == [] {
      assert a + b == a;
    } else {
      assert (a + b)[..|a + b| - 1] == a + b[..|b| - 1];
      CountAppend(a, b[..|b| - 1], c);
    }
  }

  /** A symbol that does not occur is counted zero times. */
  lemma {:induction false} CountAbsent(s: string, c: char)
    requires c !in s
    ensures Count(s, c) == 0
    decreases |s|
  {
    if s != [] {
      CountAbsent(s[..|s| - 1], c);
    }
  }

  /** Number of `'['` minus number of `']'` in `s`: how much deeper the
      save stack is after the turtle has read `s`. */
  function Depth(s: string): int
  {
    Count(s, '[') - Count(s, ']')
  }

  /** Starting with `d` saved entries, no prefix of `s` closes more brackets
      than are open, so no `']'` in `s` meets an empty stack. */
  ghost predicate Fits(s: string, d: int)
  {
    forall i :: 0 <= i <= |s| ==> d + Depth(s[..i]) >= 0
  }

  /** Every prefix has at least as many `'['` as `']'`, and the totals are equal. */
  ghost predicate Balanced(s: string)
  {
    Fits(s, 0) && Depth(s) == 0
  }

  lemma DepthAppend(a: string, b: string)
    ensures Depth(a + b) == Depth(a) + Depth(b)
  {
    CountAppend(a, b, '[');
    CountAppend(a, b, ']');
  }

  /** A string fits a stack of height `d` exactly when its first part does
      and the rest fits the height the first part leaves behind. */
  lemma FitsConcat(a: string, b: string, d: int)
    ensures Fits(a + b, d) <==> Fits(a, d) && Fits(b, d + Depth(a))
  {
    if Fits(a + b, d) {
      forall i | 0 <= i <= |a| ensures d + Depth(a[..i]) >= 0 {
        assert (a + b)[..i] == a[..i];
      }
      forall j | 0 <= j <= |b| ensures d + Depth(a) + Depth(b[..j]) >= 0 {
        assert (a + b)[..|a| + j] == a + b[..j];
        DepthAppend(a, b[..j]);
      }
    }
    if Fits(a, d) && Fits(b, d + Depth(a)) {
      forall i | 0 <= i <= |a + b| ensures d + Depth((a + b)[..i]) >= 0 {
        if i <= |a| {
          assert (a + b)[..i] == a[..i];
        } else {
          assert (a + b)[..i] == a + b[..i - |a|];
          DepthAppend(a, b[..i - |a|]);
        }
      }
    }
  }

  /** Fitting a stack of height `d` is kept when the stack is higher. */
  lemma FitsHigher(s: string, d: int, e: int)
    requires Fits(s, d) && d <= e
    ensures Fits(s, e)
  {
  }

  /** A string without brackets never touches the stack. */
  lemma NoBrackets(u: string, d: int)
    requires '[' !in u && ']' !in u && d >= 0
    ensures Fits(u, d) && Depth(u) == 0
  {
    forall i | 0 <= i <= |u| ensures Depth(u[..i]) == 0 {
      CountAbsent(u[..i], '[');
      CountAbsent(u[..i], ']');
    }
    assert u[..|u|] == u;
  }

  /** `u[v]w` is balanced when `u`, `v` and `w` hold no brackets. */
  lemma {:induction false} OneBracketPair(u: string, v: string, w: string)
    requires '[' !in u && ']' !in u
    requires '[' !in v && ']' !in v
    requires '[' !in w && ']' !in w
    ensures Balanced(u + "[" + v + "]" + w)
  {
    NoBrackets(u, 0);
    NoBrackets(v, 1);
    NoBrackets(w, 0);
    assert Fits("[", 0) && Depth("[") == 1 by {
      assert "["[..0] == [] && "["[..1] == "[";
    }
    assert Fits("]", 1) && Depth("]") == -1 by {
      assert "]"[..0] == [] && "]"[..1] == "]";
    }
    FitsConcat(u, "[", 0);
    DepthAppend(u, "[");
    FitsConcat(u + "[", v, 0);
    DepthAppend(u + "[", v);
    FitsConcat(u + "[" + v, "]", 0);
    DepthAppend(u + "[" + v, "]");
    FitsConcat(u + "[" + v + "]", w, 0);
    DepthAppend(u + "[" + v + "]", w);
  }

  /** Balanced strings are closed under concatenation. */
  lemma BalancedConcat(a: string, b: string)
    requires Balanced(a) && Balanced(b)
    ensures Balanced(a + b)
  {
    FitsConcat(a, b, 0);
    DepthAppend(a, b);
  }

  /** A prefix of a string that fits a stack fits it too. */
  lemma FitsPrefix(s: string, i: nat, d: int)
    requires Fits(s, d) && i <= |s|
    ensures Fits(s[..i], d)
  {
    assert s == s[..i] + s[i..];
    FitsConcat(s[..i], s[i..], d);
  }

  /** Reading the last symbol of a fitting string leaves a non-negative height;
      in particular a final `']'` meets a non-empty stack. */
  lemma FitsLast(s: string, d: int)
    requires s != [] && Fits(s, d)
    ensures Fits(s[..|s| - 1], d) && d + Depth(s) >= 0
  {
    FitsPrefix(s, |s| - 1, d);
    assert s[..|s|] == s;
  }
}
