/** The turtle interpreter (`ParsePenroseString`): one left-to-right pass
    over the instruction string with a position, a heading, two parallel
    save stacks and a flat list of points, then a second pass that pairs
    the points into lines.

    Geometry is exact. A heading is a direction index: `d` stands for the
    unit vector e_d at d * 36 degrees counter-clockwise from +X. A point is
    its ten coefficients over e_0 .. e_9, so a forward move of `length` along
    heading `d` adds `length` to coefficient `d`. Equal coefficient vectors
    denote equal points in the plane. */
module Turtle {
  import opened Symbols

  /** A heading, as a multiple of 36 degrees counter-clockwise from +X. */
  type Dir = d: int | 0 <= d < 10

  /** A point, as coefficients over the ten headings' unit vectors. */
  type Point = p: seq<real> | |p| == 10
    witness [0.0, 0.0, 0.0, 0.0, 0.0, 0.0, 0.0, 0.0, 0.0, 0.0]

  const Origin: Point := [0.0, 0.0, 0.0, 0.0, 0.0, 0.0, 0.0, 0.0, 0.0, 0.0]

  /** Rotation by +36 degrees (`'+'`). */
  function Left(d: Dir): Dir
  {
    (d + 1) % 10
  }

  /** Rotation by -36 degrees (`'-'`). */
  function Right(d: Dir): Dir
  {
    (d - 1) % 10
  }

  /** `p + e_d * length`. */
  function Advance(p: Point, d: Dir, length: real): Point
  {
    p[d := p[d] + length]
  }

  datatype Line = Line(from: Point, to: Point)

  /** A line drawn by one forward move: it goes `length` along some heading. */
  ghost predicate IsForwardMove(l: Line, length: real)
  {
    exists d: Dir :: l.to == Advance(l.from, d, length)
  }

  /** The interpreter's variables: current point and heading, the two save
      stacks, and the points recorded so far. */
  datatype State = State(pt: Point, vec: Dir, ptStack: seq<Point>, vStack: seq<Dir>, listPts: seq<Point>)

  /** The origin, heading +X, empty stacks, no points. */
  const Start: State := State(Origin, 0, [], [], [])

  /** The effect of one symbol. */
  function Step(t: State, c: char, length: real): (r: State)
    requires c == ']' ==> |t.ptStack| > 0 && |t.vStack| > 0
    ensures c != '1' && c != ']' ==> r.pt == t.pt
    ensures c != '+' && c != '-' && c != ']' ==> r.vec == t.vec
    ensures c != '1' ==> r.listPts == t.listPts
    ensures c !in "+-1[]" ==> r == t
  {
    if c == '+' then t.(vec := Left(t.vec))
    else if c == '-' then t.(vec := Right(t.vec))
    else if c == '1' then
      var next := Advance(t.pt, t.vec, length);
      t.(listPts := t.listPts + [t.pt, next], pt := next)
    else if c == '[' then
      t.(ptStack := t.ptStack + [t.pt], vStack := t.vStack + [t.vec])
    else if c == ']' then
      t.(pt := t.ptStack[|t.ptStack| - 1], vec := t.vStack[|t.vStack| - 1],
         ptStack := t.ptStack[..|t.ptStack| - 1], vStack := t.vStack[..|t.vStack| - 1])
    else t
  }

  /** The state after reading `s` from `t`, one symbol at a time. The stacks
      stay of equal height, that height moves by `Depth(s)`, every `'1'`
      records two points, and recorded points are never taken back. */
  function Exec(t: State, s: string, length: real): (r: State)
    requires |t.ptStack| == |t.vStack| && Fits(s, |t.ptStack|)
    ensures |r.ptStack| == |r.vStack| == |t.ptStack| + Depth(s)
    ensures |r.listPts| == |t.listPts| + 2 * Count(s, '1')
    ensures t.listPts <= r.listPts
    decreases |s|
  {
    if s == [] then t
    else
      FitsLast(s, |t.ptStack|);
      Step(Exec(t, s[..|s| - 1], length), s[|s| - 1], length)
  }

  /** Consecutive pairs of points, as lines. */
  function Pairs(pts: seq<Point>): seq<Line>
  {
    seq(|pts| / 2, k requires 0 <= k < |pts| / 2 => Line(pts[2 * k], pts[2 * k + 1]))
  }

  /** The lines drawn for the instruction string `s`. */
  function Interpret(s: string, length: real): seq<Line>
    requires Fits(s, 0)
  {
    Pairs(Exec(Start, s, length).listPts)
  }

  /** `ParsePenroseString`: the symbol loop over the five variables, then the
      loop that turns each pair of recorded points into a line. */
  method ParsePenroseString(penroseString: string, length: real) returns (penroseLines: seq<Line>)
    requires Fits(penroseString, 0)
    ensures penroseLines == Interpret(penroseString, length)
  {
    var pt := Origin;
    var listPts: seq<Point> := [];
    var vec: Dir := 0;
    var ptStack: seq<Point> := [];
    var vStack: seq<Dir> := [];
    for i := 0 to |penroseString|
      invariant Fits(penroseString[..i], 0)
      invariant State(pt, vec, ptStack, vStack, listPts) == Exec(Start, penroseString[..i], length)
    {
      var rule := penroseString[i];
      FitsPrefix(penroseString, i + 1, 0);
      assert penroseString[..i + 1][..i] == penroseString[..i];
      FitsLast(penroseString[..i + 1], 0);
      if rule == '+' {
        vec := Left(vec);
      }
      if rule == '-' {
        vec := Right(vec);
      }
      if rule == '1' {
        var newPt1 := pt;
        listPts := listPts + [newPt1];
        var newPt2 := Advance(pt, vec, length);
        listPts := listPts + [newPt2];
        pt := newPt2;
      }
      if rule == '[' {
        ptStack := ptStack + [pt];
        vStack := vStack + [vec];
      }
      if rule == ']' {
        pt := ptStack[|ptStack| - 1];
        vec := vStack[|vStack| - 1];
        ptStack := ptStack[..|ptStack| - 1];
        vStack := vStack[..|vStack| - 1];
      }
    }
    assert penroseString[..|penroseString|] == penroseString;
    var allLines: seq<Line> := [];
    var i := 1;
    while i < |listPts|
      invariant i == 2 * |allLines| + 1 && i <= |listPts| + 1
      invariant forall k :: 0 <= k < |allLines| ==> allLines[k] == Line(listPts[2 * k], listPts[2 * k + 1])
    {
      allLines := allLines + [Line(listPts[i - 1], listPts[i])];
      i := i + 2;
    }
    penroseLines := allLines;
  }

  /** Reading `a + b` is reading `a`, then `b` from where `a` left off. */
  lemma {:induction false} ExecAppend(t: State, a: string, b: string, length: real)
    requires |t.ptStack| == |t.vStack| && Fits(a + b, |t.ptStack|)
    ensures Fits(a, |t.ptStack|) && Fits(b, |t.ptStack| + Depth(a))
    ensures Exec(t, a + b, length) == Exec(Exec(t, a, length), b, length)
    decreases |b|
  {
    FitsConcat(a, b, |t.ptStack|);
    if b == [] {
      assert a + b == a;
    } else {
      var b' := b[..|b| - 1];
      assert (a + b)[..|a + b| - 1] == a + b';
      FitsLast(a + b, |t.ptStack|);
      FitsLast(b, |t.ptStack| + Depth(a));
      ExecAppend(t, a, b', length);
    }
  }

  /** With an even number of points, one more pair adds one more line. */
  lemma PairsSnoc(pts: seq<Point>, a: Point, b: Point)
    requires |pts| % 2 == 0
    ensures Pairs(pts + [a, b]) == Pairs(pts) + [Line(a, b)]
  {
  }

  /** Line `k` joins points `2k` and `2k+1`. */
  lemma PairsAt(pts: seq<Point>, k: nat)
    requires 2 * k + 1 < |pts|
    ensures k < |Pairs(pts)| && Pairs(pts)[k] == Line(pts[2 * k], pts[2 * k + 1])
  {
  }

  /** Every line recorded so far is a forward move. */
  ghost predicate ForwardMoves(t: State, length: real)
  {
    forall l :: l in Pairs(t.listPts) ==> IsForwardMove(l, length)
  }

  /** Reading a string keeps every recorded pair a forward move. */
  lemma {:induction false} ExecForwardMoves(t: State, s: string, length: real)
    requires |t.ptStack| == |t.vStack| && Fits(s, |t.ptStack|)
    requires |t.listPts| % 2 == 0 && ForwardMoves(t, length)
    ensures ForwardMoves(Exec(t, s, length), length)
    decreases |s|
  {
    if s != [] {
      FitsLast(s, |t.ptStack|);
      var p := Exec(t, s[..|s| - 1], length);
      ExecForwardMoves(t, s[..|s| - 1], length);
      if s[|s| - 1] == '1' {
        var next := Advance(p.pt, p.vec, length);
        PairsSnoc(p.listPts, p.pt, next);
        assert IsForwardMove(Line(p.pt, next), length);
      }
    }
  }

  /** One line per `'1'`, each drawn `length` along the heading of its moment. */
  lemma InterpretLines(s: string, length: real)
    requires Fits(s, 0)
    ensures |Interpret(s, length)| == Count(s, '1')
    ensures forall k :: 0 <= k < |Interpret(s, length)| ==> IsForwardMove(Interpret(s, length)[k], length)
  {
    ExecForwardMoves(Start, s, length);
  }

  /** With `length == 0` every line is degenerate: it starts where it ends. */
  lemma ZeroLength(s: string)
    requires Fits(s, 0)
    ensures forall k :: 0 <= k < |Interpret(s, 0.0)| ==> Interpret(s, 0.0)[k].from == Interpret(s, 0.0)[k].to
  {
    InterpretLines(s, 0.0);
    forall k | 0 <= k < |Interpret(s, 0.0)|
      ensures Interpret(s, 0.0)[k].from == Interpret(s, 0.0)[k].to
    {
      var l := Interpret(s, 0.0)[k];
      var d: Dir :| l.to == Advance(l.from, d, 0.0);
      assert Advance(l.from, d, 0.0) == l.from;
    }
  }

  /** Symbols other than `+ - 1 [ ]` (the non-terminals `'6'`..`'9'` among
      them) leave the whole state unchanged. */
  lemma {:induction false} ExecIgnores(t: State, w: string, length: real)
    requires forall i :: 0 <= i < |w| ==> w[i] !in "+-1[]"
    ensures Fits(w, |t.ptStack|)
    ensures |t.ptStack| == |t.vStack| ==> Exec(t, w, length) == t
    decreases |w|
  {
    NoBrackets(w, |t.ptStack|);
    if w != [] {
      ExecIgnores(t, w[..|w| - 1], length);
    }
  }

  /** Without `'1'` or `']'` the point stays where it is, and without `'1'`
      no point is recorded. */
  lemma {:induction false} ExecKeepsPoint(t: State, w: string, length: real)
    requires |t.ptStack| == |t.vStack| && Fits(w, |t.ptStack|)
    requires '1' !in w && ']' !in w
    ensures Exec(t, w, length).pt == t.pt && Exec(t, w, length).listPts == t.listPts
    decreases |w|
  {
    if w != [] {
      FitsLast(w, |t.ptStack|);
      ExecKeepsPoint(t, w[..|w| - 1], length);
    }
  }

  /** Without `'+'`, `'-'` or `']'` the heading stays as it is. */
  lemma {:induction false} ExecKeepsHeading(t: State, w: string, length: real)
    requires |t.ptStack| == |t.vStack| && Fits(w, |t.ptStack|)
    requires '+' !in w && '-' !in w && ']' !in w
    ensures Exec(t, w, length).vec == t.vec
    decreases |w|
  {
    if w != [] {
      FitsLast(w, |t.ptStack|);
      ExecKeepsHeading(t, w[..|w| - 1], length);
    }
  }

  /** `k` symbols `'+'`. */
  function Turns(k: nat): (s: string)
    ensures |s| == k && '[' !in s && ']' !in s
  {
    seq(k, _ => '+')
  }

  /** One more step of 36 degrees on top of `k` steps. */
  lemma LeftAfter(d: Dir, k: nat)
    ensures Left(((d + k) % 10) as Dir) == (d + k + 1) % 10
  {
  }

  /** `k` times `'+'` turns the heading by `k` steps of 36 degrees and
      changes nothing else. */
  lemma {:induction false} ExecTurns(t: State, k: nat, length: real)
    requires |t.ptStack| == |t.vStack|
    ensures Fits(Turns(k), |t.ptStack|)
    ensures Exec(t, Turns(k), length) == t.(vec := (t.vec + k) % 10)
    decreases k
  {
    NoBrackets(Turns(k), |t.ptStack|);
    if k > 0 {
      var s := Turns(k);
      assert s[..k - 1] == Turns(k - 1);
      assert s[k - 1] == '+';
      ExecTurns(t, k - 1, length);
      var before := Exec(t, Turns(k - 1), length);
      assert before == t.(vec := (t.vec + (k - 1)) % 10);
      LeftAfter(t.vec, k - 1);
      assert Exec(t, s, length) == Step(before, '+', length);
    }
  }

  /** `k` symbols `'-'`. */
  function Retreats(k: nat): (s: string)
    ensures |s| == k && '[' !in s && ']' !in s
  {
    seq(k, _ => '-')
  }

  /** One more step of -36 degrees on top of `k` such steps. */
  lemma RightAfter(d: Dir, k: nat)
    ensures Right(((d - k) % 10) as Dir) == (d - k - 1) % 10
  {
  }

  /** `k` times `'-'` turns the heading back by `k` steps of 36 degrees and
      changes nothing else. */
  lemma {:induction false} ExecRetreats(t: State, k: nat, length: real)
    requires |t.ptStack| == |t.vStack|
    ensures Fits(Retreats(k), |t.ptStack|)
    ensures Exec(t, Retreats(k), length) == t.(vec := (t.vec - k) % 10)
    decreases k
  {
    NoBrackets(Retreats(k), |t.ptStack|);
    if k > 0 {
      var s := Retreats(k);
      assert s[..k - 1] == Retreats(k - 1);
      assert s[k - 1] == '-';
      ExecRetreats(t, k - 1, length);
      var before := Exec(t, Retreats(k - 1), length);
      assert before == t.(vec := (t.vec - (k - 1)) % 10);
      RightAfter(t.vec, k - 1);
      assert Exec(t, s, length) == Step(before, '-', length);
    }
  }

  /** Ten turns of 36 degrees restore the heading. */
  lemma FullTurn(t: State, length: real)
    requires |t.ptStack| == |t.vStack|
    ensures Fits("++++++++++", |t.ptStack|)
    ensures Exec(t, "++++++++++", length) == t
  {
    assert Turns(10) == "++++++++++";
    ExecTurns(t, 10, length);
  }

  /** `'-'` undoes `'+'` and `'+'` undoes `'-'`. */
  lemma TurnsCancel(t: State, length: real)
    ensures Step(Step(t, '+', length), '-', length) == t
    ensures Step(Step(t, '-', length), '+', length) == t
  {
  }

  /** A string whose prefixes never go below the height it starts at leaves
      the saved entries below that height untouched. */
  lemma {:induction false} ExecKeepsStack(t: State, w: string, length: real)
    requires |t.ptStack| == |t.vStack| && Fits(w, 0)
    ensures Fits(w, |t.ptStack|) && Depth(w) >= 0
    ensures Exec(t, w, length).ptStack[..|t.ptStack|] == t.ptStack
    ensures Exec(t, w, length).vStack[..|t.vStack|] == t.vStack
    decreases |w|
  {
    FitsHigher(w, 0, |t.ptStack|);
    assert w[..|w|] == w;
    if w != [] {
      FitsLast(w, 0);
      ExecKeepsStack(t, w[..|w| - 1], length);
    }
  }

  /** LIFO save and restore: `'['`, then a balanced `w`, then `']'` comes
      back to the point, heading and stacks of before the `'['`. */
  lemma SaveRestore(t: State, w: string, length: real)
    requires |t.ptStack| == |t.vStack| && Balanced(w)
    ensures var r := Step(Exec(Step(t, '[', length), w, length), ']', length);
      r.pt == t.pt && r.vec == t.vec && r.ptStack == t.ptStack && r.vStack == t.vStack
  {
    var open := Step(t, '[', length);
    ExecKeepsStack(open, w, length);
  }

  /** Reading `a + [c]` is reading `a`, then the symbol `c`. */
  lemma ExecSnoc(t: State, a: string, c: char, length: real)
    requires |t.ptStack| == |t.vStack| && Fits(a + [c], |t.ptStack|)
    ensures Fits(a, |t.ptStack|)
    ensures c == ']' ==> |Exec(t, a, length).ptStack| > 0
    ensures Exec(t, a + [c], length) == Step(Exec(t, a, length), c, length)
  {
    assert (a + [c])[..|a|] == a;
    FitsLast(a + [c], |t.ptStack|);
  }

  /** Until the first `'1'` the turtle never leaves the point it started
      from: neither the current point nor any saved point changes. */
  lemma {:induction false} ExecStill(t: State, u: string, length: real)
    requires |t.ptStack| == |t.vStack| && Fits(u, |t.ptStack|) && '1' !in u
    requires forall i :: 0 <= i < |t.ptStack| ==> t.ptStack[i] == t.pt
    ensures Exec(t, u, length).pt == t.pt
    ensures forall i :: 0 <= i < |Exec(t, u, length).ptStack| ==> Exec(t, u, length).ptStack[i] == t.pt
    ensures Exec(t, u, length).listPts == t.listPts
    decreases |u|
  {
    if u != [] {
      FitsLast(u, |t.ptStack|);
      var p := Exec(t, u[..|u| - 1], length);
      ExecStill(t, u[..|u| - 1], length);
      if u[|u| - 1] == ']' {
        assert p.ptStack[|p.ptStack| - 1] == t.pt;
      }
    }
  }

  /** Line `k` is the `k`-th forward move: for the `'1'` that follows `u`,
      it runs from the point the turtle holds after `u`, `length` along the
      heading it holds after `u`. */
  lemma LineAt(u: string, v: string, length: real)
    requires Fits(u + "1" + v, 0)
    ensures Fits(u, 0)
    ensures Count(u, '1') < |Interpret(u + "1" + v, length)|
    ensures var a := Exec(Start, u, length);
      Interpret(u + "1" + v, length)[Count(u, '1')] == Line(a.pt, Advance(a.pt, a.vec, length))
  {
    ExecAppend(Start, u + "1", v, length);
    ExecSnoc(Start, u, '1', length);
  }

  /** The first line starts at the origin. */
  lemma FirstLine(u: string, v: string, length: real)
    requires Fits(u + "1" + v, 0) && '1' !in u
    ensures |Interpret(u + "1" + v, length)| > 0
    ensures Interpret(u + "1" + v, length)[0].from == Origin
  {
    ExecAppend(Start, u + "1", v, length);
    ExecSnoc(Start, u, '1', length);
    ExecStill(Start, u, length);
  }

  /** After the `'1'` that follows `u`, and any turns and saves after it,
      the turtle stands at the end of that `'1'`'s line and has recorded
      exactly the two points of that line since `u`. */
  lemma MoveThenStill(u: string, w: string, length: real)
    requires Fits(u + "1" + w, 0)
    requires '1' !in w && ']' !in w
    ensures Fits(u, 0)
    ensures var a := Exec(Start, u, length);
      var c := Exec(Start, u + "1" + w, length);
      c.pt == Advance(a.pt, a.vec, length) && c.listPts == a.listPts + [a.pt, Advance(a.pt, a.vec, length)]
  {
    ExecAppend(Start, u + "1", w, length);
    ExecSnoc(Start, u, '1', length);
    ExecKeepsPoint(Exec(Start, u + "1", length), w, length);
  }

  /** The points recorded for two `'1'`s with only turns and saves between
      them: the end point of the first is the start point of the second. */
  lemma PointsJoin(u: string, w: string, v: string, length: real)
    requires Fits(u + "1" + w + "1" + v, 0)
    requires '1' !in w && ']' !in w
    ensures var pts := Exec(Start, u + "1" + w + "1" + v, length).listPts;
      2 * Count(u, '1') + 4 <= |pts| && pts[2 * Count(u, '1') + 1] == pts[2 * Count(u, '1') + 2]
  {
    ExecAppend(Start, u + "1" + w + "1", v, length);
    ExecSnoc(Start, u + "1" + w, '1', length);
    MoveThenStill(u, w, length);
    var a := Exec(Start, u, length);
    var c := Exec(Start, u + "1" + w, length);
    var e := Advance(a.pt, a.vec, length);
    assert |a.listPts| == 2 * Count(u, '1');
    assert Exec(Start, u + "1" + w + "1", length).listPts == c.listPts + [e, Advance(e, c.vec, length)];
  }

  /** Consecutive forward moves join up: when nothing but turns and saves
      lie between two `'1'`s, the line of the second starts where the line
      of the first ends. */
  lemma Continuity(u: string, w: string, v: string, length: real)
    requires Fits(u + "1" + w + "1" + v, 0)
    requires '1' !in w && ']' !in w
    ensures Count(u, '1') + 1 < |Interpret(u + "1" + w + "1" + v, length)|
    ensures Interpret(u + "1" + w + "1" + v, length)[Count(u, '1')].to
         == Interpret(u + "1" + w + "1" + v, length)[Count(u, '1') + 1].from
  {
    PointsJoin(u, w, v, length);
    var pts := Exec(Start, u + "1" + w + "1" + v, length).listPts;
    PairsAt(pts, Count(u, '1'));
    PairsAt(pts, Count(u, '1') + 1);
  }
}
