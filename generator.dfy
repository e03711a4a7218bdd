/** The generator every integration surface runs: the fixed seed, `num`
    rewrite passes with the Penrose rules, then the turtle interpreter. */
module Generator {
  import opened Symbols
  import opened Grammar
  import opened Turtle

  /** The instruction string after `num` passes. */
  function Instructions(num: nat): (s: string)
    ensures Balanced(s)
  {
    PenroseRulesBalanced();
    SeedBalanced();
    GrowBalanced(Penrose, Seed, num);
    Grow(Penrose, Seed, num)
  }

  /** The lines drawn after `num` passes with forward moves of `length`:
      one line per `'1'` of the instruction string, each a forward move. */
  function Generate(length: real, num: nat): (lines: seq<Line>)
    ensures |lines| == Count(Instructions(num), '1')
    ensures forall k :: 0 <= k < |lines| ==> IsForwardMove(lines[k], length)
  {
    InterpretLines(Instructions(num), length);
    Interpret(Instructions(num), length)
  }
}
