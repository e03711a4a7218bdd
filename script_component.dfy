/** The script component's `RunScript`: no input checks, straight into the
    generator. */
module ScriptInstance {
  import opened Grammar
  import opened Turtle
  import opened Generator

  /** `RunScript`: the output parameter becomes the result. A level below
      one never reaches the rewriter's stop test, so it is required. */
  method RunScript(num: int, length: real) returns (penroseLines: seq<Line>)
    requires num >= 1
    ensures penroseLines == Generate(length, num)
  {
    var finalString := Seed;
    var rest, grown := GrowString(num, finalString, Penrose.rule6, Penrose.rule7, Penrose.rule8, Penrose.rule9);
    assert grown == Instructions(num);
    penroseLines := ParsePenroseString(grown, length);
  }
}
