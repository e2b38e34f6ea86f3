# rastermaster surfacing planner in Dafny

rastermaster plans a facing (surfacing) job for a CNC router with a fly
cutter. The job description is a record of stock size, bit, stepover,
raster direction, pass schedule, feeds and heights. From it the planner
derives a toolpath: travel bounds, one list of snaking raster lines, and
one Z pass per depth, with optional pauses. It then serializes that toolpath
as G-code text. This project models that core and proves what it promises.
The core consists of:

- the default settings and the merge that fills a partial job;
- the planner;
- the G-code serializer with its number formatting;
- the dimension label;
- the form validator, the form-validity test and the round-and-clamp
  step of the numeric stepper buttons.

Modules, one file each:

- `Params` (`params.dfy`): the job record. Lengths are exact `real` inches,
  and the pass count and pause interval are `nat`. Stepover, bit radius and
  safe Z are defined here. The safe Z is the job's retract height, because
  the record has no `safeZ` field (see Findings).
- `Decimal` (`decimal.dfy`): JavaScript's `Math.round` (round half up),
  `toFixed`, and the trailing-zero strip `\.?0+$`. It includes a decimal
  reader `ParseDecimal`, used to state what a rendered number means.
- `Format` (`format.dfy`): `formatDimension`.
- `Toolpath` (`toolpath.dfy`): `calculateToolpath`, with a `while` loop for
  the line positions and a `for` loop for the passes.
- `GCode` (`gcode.dfy`): `fmt`, `generatePass` and `generateGCode`. Each
  output line is a `Command` value with its exact text given by `Render`;
  the methods build the line lists imperatively and are proved equal to the
  command-level specification. `FmtAsWritten` is `fmt` as written. `Fmt`
  prints a negative value that rounds to zero as `0` rather than `-0` (see
  Findings). The doc comment of `generatePass` speaks of retracting once at
  the end, but the code retracts only in the program's postamble. Each pass
  after the first therefore rapids to its start at the previous pass's
  depth (`GCode.RetractsOnce`).
- `Validation` (`validation.dfy`): `isFormValid`, `validateParams` and the
  stepper's value update, over JavaScript's reading of a form field
  (`Absent`, `NaN` or a number).
- `Defaults` (`defaults.dfy`): `DEFAULT_PARAMS` and `mergeWithDefaults`.

## Model

| member | source | states |
|---|---|---|
| Decimal.RoundHalfUp | src/format.ts:4 | `Math.round` of a value gives the integer `n` with `n - 0.5 <= v < n + 0.5`, so ties go up |
| Decimal.NatToDigitsValue | src/gcode.ts:108 | the digit string of a whole number reads back as that number |
| Decimal.FixedDigitsValue | src/gcode.ts:108 | the integer and fraction digits that `toFixed(d)` prints together denote the scaled magnitude |
| Decimal.DropTrailingZeros | src/gcode.ts:108 | the strip keeps a prefix of the text, never ends in '0' unless empty, and removes only '0' characters |
| Decimal.DropFractionValue | src/gcode.ts:108 | dropping trailing zeros of a fraction does not change the value it denotes |
| Decimal.StripFixed | src/gcode.ts:108 | applied to `int.frac`, the `\.?0+$` strip removes the point exactly when the fraction is all zeros, otherwise only its trailing zeros |
| Decimal.TrimmedFixedShape | src/gcode.ts:108 | `toFixed(d)` followed by the strip is the sign, the integer digits, and the fraction digits without trailing zeros |
| Decimal.TrimmedFixedValue | src/gcode.ts:108 | `toFixed(d)` followed by the strip reads back as the input rounded half up to `d` places |
| Decimal.NumeralValue | src/gcode.ts:108 | a signed numeral made of integer and fraction digits reads back as its value, negated when signed |
| Format.FormatDimensionValue | src/format.ts:2-13 | the label ends in an inch mark and the text before it reads back as the value rounded half up to hundredths |
| Format.FormatDimensionShape | src/format.ts:7-12 | a whole hundredths value is printed without a point; any other prints one or two fraction digits, the last not '0' |
| Format.FormatIdempotent | src/format.ts:2-13 | the label reads back as the hundredths value, and that value is labelled with the same text |
| Format.HundredthsStable | src/format.ts:4 | rounding a hundredths value to hundredths again changes nothing |
| Format.WholeText | src/format.ts:8 | a whole number prints as its sign and digits and reads back as itself |
| Format.FractionLabel | src/format.ts:12 | the two-place text of a hundredths value, trailing zeros stripped, reads back as that value |
| Format.FormatWholeExample | src/format.ts:7-8 | 10 is labelled `10"` |
| Format.FormatHalfExample | src/format.ts:12 | 10.5 is labelled `10.5"` (the zero of `10.50` is stripped) |
| Format.FormatSixteenthExample | src/format.ts:4 | 10.0625 is labelled `10.06"` |
| Format.FormatTieExample | src/format.ts:4 | a tie, 8.125, rounds up to `8.13"` |
| Format.FormatTrailingZeroExample | src/format.ts:12 | 10.10 is labelled `10.1"` |
| Toolpath.LinePositions | src/toolpath.ts:87-109 | the loop that steps from the lower stepping bound by the stepover, and then appends the upper bound when the last step fell short, yields the specified positions |
| Toolpath.SweepShape | src/toolpath.ts:91-95 | the stepping loop starts at the lower bound, stays within the bounds, advances by one stepover, and stops within one stepover of the upper bound; it is empty exactly when the bounds are inverted |
| Toolpath.PositionsShape | src/toolpath.ts:87-109 | the line positions start at the lower bound, end exactly at the upper bound, strictly increase, and are one stepover apart except that the final gap may be shorter |
| Toolpath.PositionsCount | src/toolpath.ts:91-98 | there are `floor(span / stepover) + 1` positions, plus one more when the span is not a whole number of stepovers |
| Toolpath.SnakeLines | src/toolpath.ts:120-138 | one line per position on the raster axis; even lines run from the minimum to the maximum and odd lines back; each line ends where the next starts |
| Toolpath.CalculateToolpath | src/toolpath.ts:54-158 | the planner's loops produce exactly the specified plan |
| Toolpath.PlanShape | src/toolpath.ts:112-157 | the plan has `numPasses` passes plus one when skimming; every pass has the same lines; the bounds are the travel bounds; the stock rectangle and the job are kept |
| Toolpath.PassDepths | src/toolpath.ts:113-118 | the skim pass is at Z 0; the k-th depth pass is at `-k * depthPerPass`; with a positive depth per pass, each pass is strictly deeper than the one before |
| Toolpath.PauseSchedule | src/toolpath.ts:140-144 | the last pass never pauses; interval 0 never pauses; a paused pass has an index `i` with `i + 1` a multiple of the interval; there are `(passes - 1) / interval` pauses |
| Toolpath.MultiplesCount | src/toolpath.ts:141 | the number of multiples of `k` in `1..n` is `n / k` |
| Toolpath.BoundsGeometry | src/toolpath.ts:56-84 | the travel bounds are centred on the stock; along the raster axis they exceed the fudged stock by one bit diameter; across the stepping axis they exceed the stock by a bit diameter minus two stepovers |
| Toolpath.BoundsWithoutFudge | src/toolpath.ts:65-84 | with no fudge, the raster axis overhangs by the bit radius and the stepping axis by the radius minus the stepover |
| Toolpath.BoundsExample | src/toolpath.ts:72-84 | a 10 x 5 stock, 2" bit, 75% stepover, Y raster gives bounds X 0.5..9.5, Y -1..6 |
| Toolpath.FirstLineCutsOneStepover | src/toolpath.ts:46-48 | the first line sits so that the bit's edge reaches one stepover into the stock |
| Toolpath.NoLinesExactly | src/toolpath.ts:89-98 | the plan has no lines exactly when the stock is narrower, on the stepping axis, than two stepovers minus the bit diameter |
| Toolpath.NarrowStockExample | src/toolpath.ts:89-98 | a 0.5" stock under a 1" bit at 100% stepover gets no lines at all |
| Toolpath.StockCovered | src/toolpath.ts:42-48 | with a stepover no wider than the bit, every point of the stock on the stepping axis lies under some line's bit width |
| GCode.FmtValue | src/gcode.ts:106-109 | `fmt` reads back as its input rounded half up to four places |
| GCode.FmtShape | src/gcode.ts:106-109 | `fmt` is never empty and never ends in '.'; when it prints a point it prints one to four fraction digits, the last not '0' |
| GCode.FmtWholeExample | src/gcode.ts:108 | 2 formats as `2` |
| GCode.FmtQuarterExample | src/gcode.ts:108 | 1.25 formats as `1.25` |
| GCode.FmtNegativeZero | src/gcode.ts:108 | as written, -0.00001 formats as `-0`, but the zero it reads back as formats as `0`; the corrected `fmt` prints `0` |
| GCode.FmtAgrees | src/gcode.ts:106-109 | the corrected `fmt` prints what the code as written prints on every value outside (-0.00005, 0) |
| GCode.RoundedMagnitude | src/gcode.ts:108 | rounding to four places keeps the four-place magnitude, and keeps the sign unless the value rounds to zero |
| GCode.FmtIdempotent | src/gcode.ts:106-109 | formatting is idempotent: the value the text reads back as formats to that same text |
| GCode.FmtAsWrittenIdempotent | src/gcode.ts:106-109 | as written, formatting the four-place value gives the same text on every value outside (-0.00005, 0) |
| GCode.RenderAppend | src/gcode.ts:33 | the text of two command lists joined is their texts joined |
| GCode.GeneratePass | src/gcode.ts:70-104 | the pass loop's lines are exactly the rendered pass commands |
| GCode.PrefixLayout | src/gcode.ts:73-101 | after `n` lines: two rapids to the first line's start, the plunge, the first cut, then a stepover and a cut for each further line |
| GCode.PassLayout | src/gcode.ts:73-101 | a pass of `n` lines emits `2n + 2` commands in the rapid, rapid, plunge, cut, (stepover, cut)* layout; a pass with no lines emits nothing |
| GCode.PassSafety | src/gcode.ts:52-61 | the bit moves in Z once per pass (the plunge), and every move after the plunge is a feed-rate cut or stepover, never a rapid |
| GCode.PassRun | src/gcode.ts:52-57 | a pass is accepted by the rapid, plunge, feed automaton and ends cutting exactly when it has lines |
| GCode.RunAccepts | src/gcode.ts:52-61 | an accepted command list is rapids, one plunge, then feed moves only |
| GCode.GenerateGCode | src/gcode.ts:4-47 | the serializer's text is the rendered program (preamble, one block per pass, postamble) joined by newlines |
| GCode.SafeZThrows | src/gcode.ts:17 | as written, the retract line reads a `safeZ` field that no job has, and `fmt` throws on it |
| GCode.SafeZRetracts | src/gcode.ts:17-42 | the program retracts to the job's retract height before the first pass and again at the end |
| GCode.EmitPass | src/gcode.ts:31-39 | a pass's block is its comment, its moves, `M0` when flagged, and a blank line |
| GCode.ProgramParts | src/gcode.ts:8-44 | the program is the 11 preamble lines, then pass-block commands only, then the 3 postamble lines |
| GCode.ProgramFrame | src/gcode.ts:14-17 | G90, G20, spindle on and the safe-Z retract come before any pass, and final retract, M5 and M30 close the program; pass comments, plunges and cuts occur only between them |
| GCode.ProgramCounts | src/gcode.ts:14-16 | G90, G20, M3, M5 and M30 each occur exactly once in the program |
| GCode.RetractsOnce | src/gcode.ts:17-57 | the program holds one safe-Z retract and one final retract, and no pass block retracts, so passes after the first start at the previous pass's depth |
| GCode.BlockPauses | src/gcode.ts:35-37 | a pass block holds one `M0` when the pass is flagged and none otherwise |
| GCode.PauseCount | src/gcode.ts:35-37 | the program holds one `M0` per flagged pass |
| GCode.PlanPauseCount | src/gcode.ts:35-37 | a planned job's program holds `(passes - 1) / interval` pauses, none when the interval is 0 |
| GCode.PauseFollowsLastCut | src/gcode.ts:33-38 | a pause comes right after the pass's last cut and before the blank line |
| GCode.StartPointRule | src/gcode.ts:20-27 | the start move targets the first line's start, or the bounds' lower corner when there is no line, and the pass's first rapids go to that same point |
| GCode.PlanSerializable | src/gcode.ts:70-100 | every planned line carries the fields its raster direction reads |
| GCode.PlanCutsSnake | src/gcode.ts:73-101 | in a planned pass, the k-th cut goes to the raster maximum on even lines and the minimum on odd ones, and the step before it moves to the k-th line position |
| GCode.ProgramEnding | src/gcode.ts:43-46 | the text ends with a newline, `M5 ; Spindle off`, a newline and `M30 ; Program end`, with no trailing newline |
| Validation.ValidateParams | src/ui.ts:241-285 | the validator's pushes give the messages of the failed checks, in source order |
| Validation.FailsIff | src/ui.ts:241-285 | each check fails exactly when its field is not an accepted value, read independently of the JavaScript truthiness tests |
| Validation.FailedAmongShape | src/ui.ts:241-285 | the first `n` checks report exactly the failing ones among them, in increasing order |
| Validation.ValidationReport | src/ui.ts:241-285 | a problem is reported exactly when its field is not accepted, and problems are reported in check order without repeats |
| Validation.ValidIffAllPass | src/ui.ts:241-285 | the validator returns no message exactly when every field is accepted |
| Validation.FormValidIff | src/ui.ts:236-239 | `isFormValid` holds exactly when width and height are positive numbers, and exactly when the validator reports neither |
| Validation.InvalidFormReported | src/ui.ts:236-247 | an invalid form always makes the validator's first message the width or the height one |
| Validation.ValidStepoverPositive | src/ui.ts:247-255 | a form that passes validation has a positive stepover distance |
| Validation.NaNFudgeAccepted | src/ui.ts:280-283 | a NaN fudge factor passes the fudge check |
| Validation.OrElse | src/ui.ts:136-139 | `parseFloat(x) \|\| d` gives `d` for an absent, NaN or zero reading and the number otherwise |
| Validation.UpdateValue | src/ui.ts:135-156 | the stepped value is the rounded value clamped to the bounds (`Clamp`): kept when within them, the min when below a consistent min, the max when above the max or when the bounds cross; rounding moves it by at most half a hundredth |
| Validation.Clamp | src/ui.ts:150-151 | the clamped value is the input or a bound, never above a given max, and at least the min when the bounds are consistent |
| Validation.ClampChoice | src/ui.ts:150-151 | within the bounds the input is kept; below a consistent min the min is taken; above the max, or below a min that exceeds the max, the max is taken |
| Validation.HundredthsClose | src/ui.ts:148 | rounding to hundredths moves a value by more than -0.005 and at most 0.005 |
| Defaults.MergeKeepsSupplied | src/defaults.ts:19-24 | the merge keeps the stock size and every supplied field over its default |
| Defaults.StockOnlyJob | src/defaults.ts:4-24 | a job given only its stock size gets the default settings and a 0.125" safe Z |
| Defaults.MergeIdempotent | src/defaults.ts:19-24 | merging a complete job returns it unchanged |
| Defaults.MergeTwice | src/defaults.ts:19-24 | merging a merged job again changes nothing |
| Defaults.DefaultToolingEnds | src/defaults.ts:6-7 | the default bit and stepover step by 0.625", so the line loop ends on any stock |
| Defaults.DefaultedJobNeverPauses | src/defaults.ts:12 | a job that leaves out the pause interval flags no pass and its program holds no `M0` |
| Defaults.DefaultedJobCuts | src/toolpath.ts:113 | with the pass count defaulted to 1, a defaulted job plans two passes when skimming and one otherwise |
| Defaults.MissingPassCountCutsNothing | src/toolpath.ts:113-115 | as written, a job that leaves out the pass count plans no pass, fewer than the corrected merge |
| Defaults.SuppliedPassCountAgrees | src/toolpath.ts:113 | when the pass count is supplied, the as-written pass count equals the corrected one |
| Defaults.ZeroBitReachesPlanner | src/main.ts:50-55 | as written, a form with only a stock size and a zero bit diameter passes `isFormValid`, although the validator reports the bit, and the job merged from it steps over by 0, so planning never ends |
| Defaults.ValidatedFormPlans | src/ui.ts:241-285 | the job merged from a form the validator accepts has a positive stepover, so planning ends |

## Left out

- Floating point: lengths are exact reals. The IEEE rounding drift of repeated `y += stepover` and of `value * 100` is not modelled. Neither is the drift that the stepper's "floating point correction" exists to hide.
- The text JavaScript gives a number in a template string (F and S words, the comment lines, `toString` in the stepper) is modelled by the four-place `fmt` rendering. The two agree on every value with at most four decimals.
- The DOM: form reading, event listeners, dispatching `input`/`change` events, the preview canvas, settings storage and theming are outside the core.
- `totalDepth` in the defaults is read by no code, so the model has no such field.
- A partial job whose fields are explicitly `undefined` would override the defaults with `undefined` when spread. `Overrides` models a field as present or absent, so the model does not capture this.
- The default `skimPass` is `true`, as the code has it. Some tests describe a default without the skim pass; the model follows the code.
- The fudge factor is applied as a percent of the stock size, as the planner computes it. The validator's message calls it inches; only the message text is kept.
- GCode.GeneratePass: requires every line to carry the fields the raster direction reads. The source reads those fields with a non-null `!`, which checks nothing at run time, so a missing field reaches `fmt` as `undefined` and `fmt` throws a TypeError. GCode.PlanSerializable proves that every planned toolpath meets the requirement.
- GCode.GenerateGCode: retracts to the job's retract height. The source reads `params.safeZ`, which no job has, and throws (see Findings).
- GCode.Fmt: prints `0` for the values in (-0.00005, 0), where the source prints `-0` (see Findings). The serializer is modelled with this corrected `fmt`.
- Toolpath.CalculateToolpath: requires a positive stepover or inverted bounds (`PositionLoopEnds`). The source loops forever otherwise.
- Toolpath.CalculateToolpath: the pass count and the pause interval are whole numbers (`nat`). The source takes any number. With 2.5 passes its loop runs ceil(2.5 + skim) times, and with an interval of 1.5 it pauses after the passes where (i + 1) % 1.5 is 0. Fractional pass counts and intervals are not modelled.
- Validation.ValidateParams: accepts a fractional pass count or pause interval, as the source does (2.5 passes, an interval of 1.5). The job record the planner takes cannot hold those values; see the line above.
- Validation.ValidateParams: the twelve conditional pushes are written as appends of a one-message or empty list. The order and the conditions are unchanged.
- The validator does not check `rasterDirection` or `skimPass`, and the model does not check them either.
- Validation.UpdateValue: takes the stepper's value, step, min and max as already-parsed numbers, where a missing or empty attribute is `Absent`. Reading the attribute strings is not modelled. A NaN bound never clamps, as in the source.

## Findings

| source | as written | input that shows it | evidently intended | confidence | as-written member | corrected member |
|---|---|---|---|---|---|---|
| src/defaults.ts:4-17 | `DEFAULT_PARAMS` has no `numPasses`, so a merged job without one computes `undefined + 1` = NaN passes at src/toolpath.ts:113, and the pass loop never runs | `mergeWithDefaults({stockWidth: 10, stockHeight: 8})` then `calculateToolpath` | a defaulted job cuts one depth pass, plus the skim pass | not executed | Defaults.MissingPassCountCutsNothing | Defaults.DefaultedJobCuts |
| src/gcode.ts:17-42 | the preamble retract, the `generatePass` argument and the final retract read `params.safeZ`, a field the job type does not declare and neither the defaults nor any caller set, so `fmt(undefined)` throws | `generateGCode` of any planned job | retract to the job's retract height (a default safe Z of 0.125, as the default retract height is) | not executed | GCode.SafeZThrows | GCode.SafeZRetracts |
| src/gcode.ts:106-109 | `toFixed(4)` keeps the sign of a negative value that rounds to zero, and the strip leaves `-0`, which reformats as `0` | `fmt(-0.00001)` | a value that rounds to zero prints `0`, so formatting is idempotent | not executed | GCode.FmtNegativeZero | GCode.FmtIdempotent |
| src/main.ts:50-55 | generation is gated on `isFormValid`, which reads only the stock size; `validateParams` is never called, so a zero bit diameter reaches the planner, whose line loop never ends | a form with stock 10 x 8 and bit diameter 0 | generate only from a form the validator accepts | not executed | Defaults.ZeroBitReachesPlanner | Defaults.ValidatedFormPlans |
