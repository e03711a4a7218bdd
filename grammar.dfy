/** The L-system string rewriter (`GrowString`): the seed, the four
    production rules for the non-terminals `'6'`..`'9'`, one rewrite pass,
    and the recursion that repeats the pass `num` times. */
module Grammar {
  import opened Symbols

  /** The four production rules, in the order the rewriter receives them. */
  datatype Rules = Rules(rule6: string, rule7: string, rule8: string, rule9: string)

  /** The axiom every component starts from. */
  const Seed: string := "[7]++[7]++[7]++[7]++[7]"

  /** The fixed Penrose rules every component passes to the rewriter. */
  const Penrose: Rules := Rules(
    "81++91----71[-81----61]++",
    "+81--91[---61--71]+",
    "-61++71[+++81++91]-",
    "--81++++61[+91++++71]--71")

  /** Turn and stack operators, copied through by a pass. */
  predicate IsOperator(c: char)
  {
    c == '[' || c == ']' || c == '+' || c == '-'
  }

  /** Non-terminals, replaced by their rule in a pass. */
  predicate IsNonterminal(c: char)
  {
    c == '6' || c == '7' || c == '8' || c == '9'
  }

  /** What one pass writes for the symbol `c`. */
  function Image(g: Rules, c: char): string
  {
    if c == '6' then g.rule6
    else if c == '7' then g.rule7
    else if c == '8' then g.rule8
    else if c == '9' then g.rule9
    else if IsOperator(c) then [c]
    else []
  }

  /** One rewrite pass: the images of the symbols of `s`, in order. */
  function Pass(g: Rules, s: string): string
  {
    if s == [] then [] else Pass(g, s[..|s| - 1]) + Image(g, s[|s| - 1])
  }

  /** `n` rewrite passes, each consuming the whole output of the previous one. */
  function Grow(g: Rules, s: string, n: nat): string
    decreases n
  {
    if n == 0 then s else Grow(g, Pass(g, s), n - 1)
  }

  /** A symbol that a pass can emit under `g`. */
  predicate Emittable(g: Rules, c: char)
  {
    IsOperator(c) || c in g.rule6 || c in g.rule7 || c in g.rule8 || c in g.rule9
  }

  /** Every rule is balanced. */
  ghost predicate RulesBalanced(g: Rules)
  {
    Balanced(g.rule6) && Balanced(g.rule7) && Balanced(g.rule8) && Balanced(g.rule9)
  }

  /** A pass is a string homomorphism: it rewrites each symbol on its own. */
  lemma {:induction false} PassAppend(g: Rules, a: string, b: string)
    ensures Pass(g, a + b) == Pass(g, a) + Pass(g, b)
    decreases |b|
  {
    if b == [] {
      assert a + b == a;
    } else {
      var b' := b[..|b| - 1];
      assert a + b == (a + b') + [b[|b| - 1]];
      assert (a + b)[..|a + b| - 1] == a + b';
      PassAppend(g, a, b');
    }
  }

  /** Rewriting `u`, then `c`, then `v` is rewriting each on its own. */
  lemma PassAround(g: Rules, u: string, c: char, v: string)
    ensures Pass(g, u + [c] + v) == Pass(g, u) + Image(g, c) + Pass(g, v)
  {
    PassAppend(g, u + [c], v);
    PassAppend(g, u, [c]);
    assert [c][..0] == [];
  }

  /** The rewriting table, one symbol at a time: `'6'`..`'9'` become their
      rule, operators are copied, every other symbol (the forward symbol
      `'1'` among them) is dropped. */
  lemma PassTable(g: Rules, u: string, c: char, v: string)
    ensures c == '6' ==> Pass(g, u + [c] + v) == Pass(g, u) + g.rule6 + Pass(g, v)
    ensures c == '7' ==> Pass(g, u + [c] + v) == Pass(g, u) + g.rule7 + Pass(g, v)
    ensures c == '8' ==> Pass(g, u + [c] + v) == Pass(g, u) + g.rule8 + Pass(g, v)
    ensures c == '9' ==> Pass(g, u + [c] + v) == Pass(g, u) + g.rule9 + Pass(g, v)
    ensures IsOperator(c) ==> Pass(g, u + [c] + v) == Pass(g, u) + [c] + Pass(g, v)
    ensures !IsNonterminal(c) && !IsOperator(c) ==> Pass(g, u + [c] + v) == Pass(g, u + v)
  {
    PassAround(g, u, c, v);
    if !IsNonterminal(c) && !IsOperator(c) {
      PassAppend(g, u, v);
      assert Pass(g, u) + [] + Pass(g, v) == Pass(g, u) + Pass(g, v);
    }
  }

  /** One more occurrence adds one more factor: the step that keeps the
      growth laws below linear for the solver. */
  lemma ScaleStep(m: nat, n: nat, k: nat, hit: bool)
    requires m == n + (if hit then 1 else 0)
    ensures m * k == n * k + (if hit then k else 0)
  {
  }

  /** Growth law per symbol: the count of `c` after a pass is the count of
      copied `c` plus, for each non-terminal, how often it occurred times how
      often its rule holds `c`. */
  lemma {:induction false} PassCount(g: Rules, s: string, c: char)
    ensures Count(Pass(g, s), c)
         == (if IsOperator(c) then Count(s, c) else 0)
          + Count(s, '6') * Count(g.rule6, c) + Count(s, '7') * Count(g.rule7, c)
          + Count(s, '8') * Count(g.rule8, c) + Count(s, '9') * Count(g.rule9, c)
    decreases |s|
  {
    if s != [] {
      var p, x := s[..|s| - 1], s[|s| - 1];
      PassCount(g, p, c);
      CountAppend(Pass(g, p), Image(g, x), c);
      ScaleStep(Count(s, '6'), Count(p, '6'), Count(g.rule6, c), x == '6');
      ScaleStep(Count(s, '7'), Count(p, '7'), Count(g.rule7, c), x == '7');
      ScaleStep(Count(s, '8'), Count(p, '8'), Count(g.rule8, c), x == '8');
      ScaleStep(Count(s, '9'), Count(p, '9'), Count(g.rule9, c), x == '9');
      if IsOperator(x) {
        assert Image(g, x) == [x] && [x][..0] == [];
      }
    }
  }

  /** Growth law for the length: operators count one, each non-terminal
      the length of its rule, everything else nothing. */
  lemma {:induction false} PassLength(g: Rules, s: string)
    ensures |Pass(g, s)|
         == Count(s, '[') + Count(s, ']') + Count(s, '+') + Count(s, '-')
          + Count(s, '6') * |g.rule6| + Count(s, '7') * |g.rule7|
          + Count(s, '8') * |g.rule8| + Count(s, '9') * |g.rule9|
    decreases |s|
  {
    if s != [] {
      var p, x := s[..|s| - 1], s[|s| - 1];
      PassLength(g, p);
      ScaleStep(Count(s, '6'), Count(p, '6'), |g.rule6|, x == '6');
      ScaleStep(Count(s, '7'), Count(p, '7'), |g.rule7|, x == '7');
      ScaleStep(Count(s, '8'), Count(p, '8'), |g.rule8|, x == '8');
      ScaleStep(Count(s, '9'), Count(p, '9'), |g.rule9|, x == '9');
    }
  }

  /** A pass emits only operators and symbols that occur in the rules. */
  lemma {:induction false} PassAlphabet(g: Rules, s: string)
    ensures forall i :: 0 <= i < |Pass(g, s)| ==> Emittable(g, Pass(g, s)[i])
    decreases |s|
  {
    if s != [] {
      var p, x := s[..|s| - 1], s[|s| - 1];
      PassAlphabet(g, p);
      forall i | |Pass(g, p)| <= i < |Pass(g, s)|
        ensures Emittable(g, Pass(g, s)[i])
      {
        assert Pass(g, s)[i] == Image(g, x)[i - |Pass(g, p)|];
      }
    }
  }

  /** With balanced rules a pass keeps the bracket depth of its input. */
  lemma PassDepth(g: Rules, s: string)
    requires RulesBalanced(g)
    ensures Depth(Pass(g, s)) == Depth(s)
  {
    PassCount(g, s, '[');
    PassCount(g, s, ']');
  }

  /** With balanced rules, a pass output fits every stack height its input fits. */
  lemma {:induction false} PassFits(g: Rules, s: string, d: int)
    requires RulesBalanced(g) && Fits(s, d)
    ensures Fits(Pass(g, s), d)
    decreases |s|
  {
    if s != [] {
      var p, x := s[..|s| - 1], s[|s| - 1];
      assert s == p + [x];
      FitsConcat(p, [x], d);
      PassFits(g, p, d);
      PassDepth(g, p);
      var e := d + Depth(p);
      assert e >= 0 by { assert p[..|p|] == p; }
      if IsNonterminal(x) {
        FitsHigher(Image(g, x), 0, e);
      } else if !IsOperator(x) {
        assert Image(g, x) == [];
        assert Image(g, x)[..0] == [];
      }
      FitsConcat(Pass(g, p), Image(g, x), d);
    }
  }

  /** With balanced rules, a pass maps balanced strings to balanced strings. */
  lemma PassBalanced(g: Rules, s: string)
    requires RulesBalanced(g) && Balanced(s)
    ensures Balanced(Pass(g, s))
  {
    PassFits(g, s, 0);
    PassDepth(g, s);
  }

  /** Any number of passes keeps a balanced string balanced. */
  lemma {:induction false} GrowBalanced(g: Rules, s: string, n: nat)
    requires RulesBalanced(g) && Balanced(s)
    ensures Balanced(Grow(g, s, n))
    decreases n
  {
    if n > 0 {
      PassBalanced(g, s);
      GrowBalanced(g, Pass(g, s), n - 1);
    }
  }

  /** Each Penrose rule is one bracket pair with bracket-free text around it. */
  lemma PenroseRulesBalanced()
    ensures RulesBalanced(Penrose)
  {
    Rule6Balanced();
    Rule7Balanced();
    Rule8Balanced();
    Rule9Balanced();
  }

  lemma Rule6Balanced()
    ensures Balanced(Penrose.rule6)
  {
    assert Penrose.rule6 == "81++91----71" + "[" + "-81----61" + "]" + "++";
    OneBracketPair("81++91----71", "-81----61", "++");
  }

  lemma Rule7Balanced()
    ensures Balanced(Penrose.rule7)
  {
    assert Penrose.rule7 == "+81--91" + "[" + "---61--71" + "]" + "+";
    OneBracketPair("+81--91", "---61--71", "+");
  }

  lemma Rule8Balanced()
    ensures Balanced(Penrose.rule8)
  {
    assert Penrose.rule8 == "-61++71" + "[" + "+++81++91" + "]" + "-";
    OneBracketPair("-61++71", "+++81++91", "-");
  }

  lemma Rule9Balanced()
    ensures Balanced(Penrose.rule9)
  {
    assert Penrose.rule9 == "--81++++61" + "[" + "+91++++71" + "]" + "--71";
    OneBracketPair("--81++++61", "+91++++71", "--71");
  }

  /** The seed is five bracketed `7`s, four of them followed by `++`. */
  lemma SeedBalanced()
    ensures Balanced(Seed)
  {
    var arm, tip := "[7]++", "[7]";
    assert arm == [] + "[" + "7" + "]" + "++";
    OneBracketPair([], "7", "++");
    assert tip == [] + "[" + "7" + "]" + [];
    OneBracketPair([], "7", []);
    BalancedConcat(arm, arm);
    BalancedConcat(arm + arm, arm);
    BalancedConcat(arm + arm + arm, arm);
    BalancedConcat(arm + arm + arm + arm, tip);
    assert Seed == arm + arm + arm + arm + tip;
  }

  /** Every string the Penrose rules emit is over the nine symbols
      `1 6 7 8 9 [ ] + -`. */
  lemma PenroseAlphabet(s: string, n: nat)
    requires n >= 1
    ensures forall i :: 0 <= i < |Grow(Penrose, s, n)| ==> Grow(Penrose, s, n)[i] in "16789[]+-"
  {
    var last := GrowLast(Penrose, s, n);
    PassAlphabet(Penrose, last);
    forall c | Emittable(Penrose, c) ensures c in "16789[]+-" {
      PenroseSymbols(c);
    }
  }

  /** The symbols the Penrose rules use. */
  lemma PenroseSymbols(c: char)
    requires Emittable(Penrose, c)
    ensures c in "16789[]+-"
  {
    if c in Penrose.rule6 {
      assert c in "81++91----71[-81----61]++";
    }
    if c in Penrose.rule7 {
      assert c in "+81--91[---61--71]+";
    }
    if c in Penrose.rule8 {
      assert c in "-61++71[+++81++91]-";
    }
    if c in Penrose.rule9 {
      assert c in "--81++++61[+91++++71]--71";
    }
  }

  /** The input of the last of `n >= 1` passes. */
  lemma {:induction false} GrowLast(g: Rules, s: string, n: nat) returns (last: string)
    requires n >= 1
    ensures Grow(g, s, n) == Pass(g, last)
    decreases n
  {
    if n == 1 {
      last := s;
    } else {
      last := GrowLast(g, Pass(g, s), n - 1);
    }
  }

  /** `GrowString`: decrement `num`, run one pass over `finalString`, stop
      when `num` reaches zero, otherwise grow again. Returns the final
      counter and the grown string (the source's two `ref` parameters). */
  method GrowString(num: int, finalString: string,
                    rule6: string, rule7: string, rule8: string, rule9: string)
      returns (numOut: int, grown: string)
    requires num >= 1
    ensures numOut == 0
    ensures grown == Grow(Rules(rule6, rule7, rule8, rule9), finalString, num)
    decreases num
  {
    ghost var g := Rules(rule6, rule7, rule8, rule9);
    numOut := num - 1;
    var newString := "";
    for i := 0 to |finalString|
      invariant newString == Pass(g, finalString[..i])
    {
      var rule := finalString[i];
      assert finalString[..i + 1][..i] == finalString[..i];
      if rule == '6' {
        newString := newString + rule6;
      }
      if rule == '7' {
        newString := newString + rule7;
      }
      if rule == '8' {
        newString := newString + rule8;
      }
      if rule == '9' {
        newString := newString + rule9;
      }
      if rule == '[' || rule == ']' || rule == '+' || rule == '-' {
        newString := newString + [rule];
      }
    }
    assert finalString[..|finalString|] == finalString;
    grown := newString;
    if numOut == 0 {
      return;
    }
    numOut, grown := GrowString(numOut, grown, rule6, rule7, rule8, rule9);
  }
}
