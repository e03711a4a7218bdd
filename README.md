# Penrose tiling generator: a Dafny model

This project models the generator behind the Grasshopper Penrose-tiling components. It has two stages.

1. **String rewriter (`GrowString`).** It starts from the seed `"[7]++[7]++[7]++[7]++[7]"` and runs `num` rewrite passes. In each pass, `'6'`..`'9'` become the rules `rule6`..`rule9`, the operators `[ ] + -` are copied, and every other symbol is dropped, including the forward symbol `'1'`.
2. **Turtle interpreter (`ParsePenroseString`).** It reads the result once, left to right. It keeps a point, a heading, two parallel save stacks and a flat list of points, then pairs the points into lines.

The repository holds the same code three times, once per integration surface: the plain component, the task-capable component, and the script component. The model has it once, in the modules `Grammar` and `Turtle`. Each surface has its own small module with its input guards:

- `PenroseTilingComponent`
- `PenroseTilingTaskComponent`
- `ScriptInstance`

Geometry is exact. A heading is an index `d` in `0..9`, standing for the unit vector at `d * 36` degrees. `'+'` adds one and `'-'` subtracts one, modulo 10. A point is a vector of ten real coefficients over those ten unit vectors, and a forward move adds `length` to the coefficient of the current heading. Equal coefficient vectors denote equal points in the plane.

Pass count: the code decrements `num` before each pass and stops when it reaches zero. So `GrowString` performs exactly `num` passes, and a component given level `num` draws the string after `num` passes. The two components reject level 1, so they always draw at least two passes.

Module layout:

- `symbols.dfy`: symbol counts, bracket depth, and the "fits the stack" and "balanced" predicates.
- `grammar.dfy`: the rewriter and its laws.
- `turtle.dfy`: the interpreter and its laws.
- `generator.dfy`: the composition as a specification function.
- `component.dfy`, `task_component.dfy`, `script_component.dfy`: one module per surface.

## Model

| member | source | states |
|---|---|---|
| Grammar.GrowString | PenroseTiling/PenroseTilingComponent.cs:79-119 | For `num >= 1` the result is exactly `num` rewrite passes over the input, each over the whole previous output, and the counter ends at 0. `num <= 0` never reaches the stop test, so it is excluded. The same code is at PenroseTiling/PenroseTilingTaskComponent.cs:66-109 and PenroseTiling_CSscriptComp.cs:77-117. |
| Grammar.PassTable | PenroseTiling/PenroseTilingComponent.cs:87-112 | Each symbol is rewritten on its own. `'6'`..`'9'` become `rule6`..`rule9` and `[ ] + -` are copied. Any other symbol, the forward symbol `'1'` included, disappears. |
| Grammar.PassAppend | PenroseTiling/PenroseTilingComponent.cs:86-112 | A pass is a homomorphism: the pass of `a + b` is the pass of `a` followed by the pass of `b`. |
| Grammar.PassLength | PenroseTiling/PenroseTilingTaskComponent.cs:73-98 | Growth law. The output length is the number of copied operators plus, for each non-terminal, its number of occurrences times its rule's length. |
| Grammar.PassCount | PenroseTiling_CSCompScript/PenroseTiling_CSCompScript/PenroseTiling_CSscriptComp.cs:88-108 | For any symbol `c`, the count of `c` in the output is the count of copied `c` (operators only) plus, for each non-terminal, its occurrences times the count of `c` in its rule. So every `'1'` in the output comes from a rule. |
| Grammar.PassAlphabet | PenroseTiling/PenroseTilingTaskComponent.cs:74-98 | A pass emits only operators and symbols that occur in the four rules. |
| Grammar.PenroseAlphabet | PenroseTiling/PenroseTilingTaskComponent.cs:46-50 | After one or more passes with the Penrose rules, the string is over `1 6 7 8 9 [ ] + -` only. |
| Grammar.PassDepth | PenroseTiling/PenroseTilingComponent.cs:107-110 | With balanced rules, a pass keeps the number of `'['` minus the number of `']'`. |
| Grammar.PassFits | PenroseTiling/PenroseTilingComponent.cs:87-111 | With balanced rules, if no prefix of the input closes more brackets than it opened (starting from a given stack height), the same holds for the output. |
| Grammar.PassBalanced | PenroseTiling/PenroseTilingComponent.cs:107-110 | With balanced rules, a pass maps a balanced string to a balanced string. |
| Grammar.GrowBalanced | PenroseTiling/PenroseTilingComponent.cs:114-118 | Any number of passes keeps a balanced string balanced. |
| Grammar.PenroseRulesBalanced | PenroseTiling/PenroseTilingComponent.cs:40-43 | Each of the four Penrose rules is balanced. |
| Grammar.SeedBalanced | PenroseTiling/PenroseTilingComponent.cs:39 | The seed is balanced. |
| Generator.Instructions | PenroseTiling/PenroseTilingComponent.cs:39-69 | The seed grown with the Penrose rules is balanced for every number of passes, so the interpreter never pops an empty stack on it. |
| Generator.Generate | PenroseTiling/PenroseTilingTaskComponent.cs:54-58 | The lines for `(length, num)` are a function of those two inputs. There is one line per `'1'` of the grown string, and each line is a forward move of `length`. |
| Turtle.Step | PenroseTiling/PenroseTilingComponent.cs:145-191 | Frame of one symbol. The point changes only on `'1'` or `']'`. The heading changes only on `'+'`, `'-'` or `']'`. Points are recorded only on `'1'`. Any symbol outside `+ - 1 [ ]` changes nothing. |
| Turtle.Exec | PenroseTiling/PenroseTilingTaskComponent.cs:132-179 | After any string, both stacks have height `#'[' - #']'` above the start. `listPts` has grown by exactly two points per `'1'`, so it stays even. Recorded points are never removed. |
| Turtle.ExecAppend | PenroseTiling/PenroseTilingComponent.cs:142-192 | The interpreter is a single left-to-right pass: reading `a + b` is reading `b` from the state `a` leaves. |
| Turtle.ParsePenroseString | PenroseTiling/PenroseTilingComponent.cs:122-204 | On a string whose `']'`s never meet an empty stack, the two loops return exactly the lines of the specification function `Turtle.Interpret`: line `k` joins recorded points `2k` and `2k+1`. The same code is at PenroseTiling/PenroseTilingTaskComponent.cs:112-189 and PenroseTiling_CSscriptComp.cs:119-204. |
| Turtle.InterpretLines | PenroseTiling/PenroseTilingTaskComponent.cs:148-186 | The number of lines equals the number of `'1'`s, and every line ends `length` along some heading from its start. |
| Turtle.LineAt | PenroseTiling/PenroseTilingTaskComponent.cs:148-159 | The line of the `'1'` after a prefix `u` has index `#'1'` in `u`. It runs from the point the turtle holds after `u`, `length` along the heading it holds after `u`. |
| Turtle.FirstLine | PenroseTiling/PenroseTilingComponent.cs:126-171 | The first line starts at the origin. |
| Turtle.Continuity | PenroseTiling/PenroseTilingTaskComponent.cs:148-178 | When no `'1'` and no `']'` lies between two `'1'`s, the second line starts where the first ends. |
| Turtle.ZeroLength | PenroseTiling/PenroseTilingTaskComponent.cs:154-158 | With `length == 0` every line is degenerate (start equals end), and the interpreter still runs to the end. |
| Turtle.ExecIgnores | PenroseTiling_CSCompScript/PenroseTiling_CSCompScript/PenroseTiling_CSscriptComp.cs:139-189 | A string of symbols outside `+ - 1 [ ]`, unexpanded `'6'`..`'9'` for instance, leaves the whole state unchanged. |
| Turtle.ExecKeepsPoint | PenroseTiling_CSCompScript/PenroseTiling_CSCompScript/PenroseTiling_CSscriptComp.cs:145-188 | Without `'1'` or `']'`, the point stays and no point is recorded. |
| Turtle.ExecKeepsHeading | PenroseTiling_CSCompScript/PenroseTiling_CSCompScript/PenroseTiling_CSscriptComp.cs:145-188 | Without `'+'`, `'-'` or `']'`, the heading stays. |
| Turtle.ExecStill | PenroseTiling/PenroseTilingComponent.cs:126-191 | Before the first `'1'`, the current point and every saved point stay at the start point. |
| Turtle.ExecTurns | PenroseTiling/PenroseTilingComponent.cs:148-156 | `k` symbols `'+'` turn the heading by `k` steps of 36 degrees, modulo 10, and change nothing else. |
| Turtle.ExecRetreats | PenroseTiling/PenroseTilingComponent.cs:153-156 | `k` symbols `'-'` turn the heading back by `k` steps of 36 degrees, modulo 10, and change nothing else. |
| Turtle.FullTurn | PenroseTiling/PenroseTilingComponent.cs:148-151 | Ten `'+'` restore the whole state. |
| Turtle.TurnsCancel | PenroseTiling/PenroseTilingComponent.cs:148-156 | `'-'` undoes `'+'` and `'+'` undoes `'-'`. |
| Turtle.ExecKeepsStack | PenroseTiling_CSCompScript/PenroseTiling_CSCompScript/PenroseTiling_CSscriptComp.cs:171-188 | A string that never closes more brackets than it opened leaves the saved entries below its starting height untouched. |
| Turtle.SaveRestore | PenroseTiling_CSCompScript/PenroseTiling_CSCompScript/PenroseTiling_CSscriptComp.cs:171-188 | LIFO discipline: `'['`, then a balanced `w`, then `']'` gives back the point, the heading and both stacks exactly as they were before the `'['`. |
| PenroseTilingComponent.SolveInstance | PenroseTiling/PenroseTilingComponent.cs:36-76 | A level of at most 1 is an error. Otherwise a negative length is an error. Otherwise a level above 5 gives a warning. Only `2 <= num <= 5` with `length >= 0` draws, and then the lines are those of `num` passes. |
| PenroseTilingTaskComponent.ComputePenroseLines | PenroseTiling/PenroseTilingTaskComponent.cs:43-63 | It composes the fixed seed, `GrowString` and `ParsePenroseString`. Its `Value` is the generator's lines for `(length, num)`, one per `'1'` of the grown string. |
| PenroseTilingTaskComponent.SolveInstance | PenroseTiling/PenroseTilingTaskComponent.cs:191-233 | A level of at most 1 is an error. Otherwise a negative length is an error. Every other input draws the lines of `num` passes, with no upper cap on the level. |
| ScriptInstance.RunScript | PenroseTiling_CSCompScript/PenroseTiling_CSCompScript/PenroseTiling_CSscriptComp.cs:55-74 | With no input checks, the output is the generator's lines for `(length, num)`. It needs `num >= 1`, because a smaller level never meets the stop test (see "Left out"). |

## Left out

- Host plumbing is not modelled: parameter registration, `DA.GetData`/`SetData`/`SetDataList`, the text of runtime messages (only their level and cause are modelled), `InvokeRunScript`, `Print`/`Reflect` (including the line count `RunScript` prints), icons, GUIDs and exposure. None of it holds logic. When an input cannot be read, the solve returns early; that path is not modelled.
- The task queue of the task component is not modelled: `InPreSolve`, `Task.Run`, `TaskList`, `GetSolveResults`. The queued task runs the same `ComputePenroseLines`. The model follows the path that computes the result in place.
- Floating point is replaced by exact arithmetic. `Vector3d.Rotate` by `36 * (Math.PI / 180)` and `Point3d + Vector3d * double` become an exact heading index and exact real coefficients. So the model has no rounding drift, and a NaN length (which passes the `length < 0` guard) is not represented.
- The z coordinate is not modelled. Every point lies in the plane z = 0, so the model works in the plane.
- Rhino's `Line`, `Point3d` and `Vector3d` are replaced by the model's own `Line`, `Point` and heading index.
- Coefficient vectors are not a canonical form for points. Distinct vectors can denote the same plane point, because e.g. the vector at 180 degrees is minus the one at 0 degrees. The lemmas state equalities of coefficient vectors, which imply equality of the points. Coincidences of points reached by different paths are not modelled.
- A `']'` on an empty stack throws an out-of-range exception in the source. The model makes this a precondition of the interpreter, `Fits(s, 0)`, which says every prefix has at least as many `'['` as `']'`. The grown Penrose strings are proved to meet it.
- A level `num <= 0` reaches `GrowString` only through `RunScript`. There the counter has already passed 0 when the stop test runs, so the recursion goes on while the string keeps growing. The run stalls and then fails with an out-of-memory error after about a dozen passes (see the next line), long before the call stack or the 32-bit counter matters. The model makes `num >= 1` a precondition and does not model that failure.
- PenroseTilingTaskComponent.SolveInstance: does not model the string-length or memory limit, so it draws for every level `num >= 2`. Working out the growth law Grammar.PassLength for the Penrose rules, the seed of 23 symbols grows to 113, 513, 2283, ... symbols, about 4.45 times longer per pass; pass 11 gives 350,938,303 symbols and pass 12 gives 1,561,496,383, more than the largest .NET string (about 1.07 * 10^9 characters). Each `newString + ...` also copies the whole string built so far, so a pass takes time quadratic in its output and the source stalls from about pass 9. So any level `num >= 12` fails in the source with an out-of-memory error, while the model still draws `Generate(length, num)`. The plain component caps the level at 5 and is not affected.
- ScriptInstance.RunScript: does not model the string-length or memory limit either, for the same reason; in the source a level `num >= 12` fails with an out-of-memory error.
- Turtle.InterpretLines: says only that each line is a move of `length` along some heading. Which heading is stated by Turtle.LineAt.
- Concrete line counts for particular levels are not proved as numbers. The growth laws Grammar.PassCount and Grammar.PassLength give them in closed form from the rule contents.
- Whether the four rules yield a geometrically valid Penrose tiling is not modelled. The rules are fixed constants.
- PenroseTiling/PenroseTiling/PenroseTilingInfo.cs (assembly metadata) and PenroseTiling_CSCompScript/PenroseTiling_CSCompScript/Program.cs (a console demo) are not part of this model.
