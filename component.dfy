/** The component `PenroseTilingComponent`: it rejects a level of one or
    less and a negative length with an error, a level above five with a
    warning, and otherwise grows the seed `num` times and draws it. */
module PenroseTilingComponent {
  import opened Grammar
  import opened Turtle
  import opened Generator

  /** Severity of a runtime message. */
  datatype Level = Error | Warning

  /** Why the inputs were refused. */
  datatype Reason = LevelNotAboveOne | NegativeLength | LevelAboveFive

  /** What one solve produces: a runtime message, or the lines. */
  datatype Outcome = Rejected(level: Level, reason: Reason) | Drawn(lines: seq<Line>)

  /** `SolveInstance` after both inputs were read. */
  method SolveInstance(num: int, length: real) returns (outcome: Outcome)
    ensures num <= 1 ==> outcome == Rejected(Error, LevelNotAboveOne)
    ensures num > 1 && length < 0.0 ==> outcome == Rejected(Error, NegativeLength)
    ensures num > 5 && length >= 0.0 ==> outcome == Rejected(Warning, LevelAboveFive)
    ensures 2 <= num <= 5 && length >= 0.0 ==> outcome == Drawn(Generate(length, num))
  {
    var finalString := Seed;
    if num <= 1 {
      return Rejected(Error, LevelNotAboveOne);
    }
    if length < 0.0 {
      return Rejected(Error, NegativeLength);
    }
    if num > 5 {
      return Rejected(Warning, LevelAboveFive);
    }
    var rest, grown := GrowString(num, finalString, Penrose.rule6, Penrose.rule7, Penrose.rule8, Penrose.rule9);
    assert grown == Instructions(num);
    var penroseLines := ParsePenroseString(grown, length);
    outcome := Drawn(penroseLines);
  }
}
