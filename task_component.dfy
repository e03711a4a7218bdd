/** The component `PenroseTilingTaskComponent`: the same generator behind
    `ComputePenroseLines`, which a task or the solve itself runs once the
    inputs pass the guards (no upper cap on the level here). */
module PenroseTilingTaskComponent {
  import opened Symbols
  import opened Grammar
  import opened Turtle
  import opened Generator

  /** The value a task hands back. */
  datatype SolveResults = SolveResults(value: seq<Line>)

  /** Why the inputs were refused; both are errors. */
  datatype Reason = LevelNotAboveOne | NegativeLength

  /** What one solve produces: an error message, or the lines. */
  datatype Outcome = Rejected(reason: Reason) | Drawn(lines: seq<Line>)

  /** `ComputePenroseLines`: seed, `num` passes, interpretation. */
  method ComputePenroseLines(length: real, num: int) returns (result: SolveResults)
    requires num >= 1
    ensures result.value == Generate(length, num)
    ensures |result.value| == Count(Instructions(num), '1')
  {
    var finalString := Seed;
    var penroseString := finalString;
    var rest, grown := GrowString(num, penroseString, Penrose.rule6, Penrose.rule7, Penrose.rule8, Penrose.rule9);
    penroseString := grown;
    assert penroseString == Instructions(num);
    var penroseLines := ParsePenroseString(penroseString, length);
    result := SolveResults(penroseLines);
  }

  /** `SolveInstance` after both inputs were read, on the path that
      computes the result in place. */
  method SolveInstance(num: int, length: real) returns (outcome: Outcome)
    ensures num <= 1 ==> outcome == Rejected(LevelNotAboveOne)
    ensures num > 1 && length < 0.0 ==> outcome == Rejected(NegativeLength)
    ensures num > 1 && length >= 0.0 ==> outcome == Drawn(Generate(length, num))
  {
    if num <= 1 {
      return Rejected(LevelNotAboveOne);
    }
    if length < 0.0 {
      return Rejected(NegativeLength);
    }
    var result := ComputePenroseLines(length, num);
    outcome := Drawn(result.value);
  }
}
