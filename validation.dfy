/**
 * The form checks of the surfacing planner (src/ui.ts): `isFormValid`,
 * `validateParams` and the arithmetic behind a stepper button.
 */
module Validation {
  import opened Decimal
  import opened Format

  /** A form field as `parseFloat` leaves it: missing, not a number, or a number. */
  datatype Num = Absent | NaN | Val(v: real)

  /** The numeric fields of a partially filled form. */
  datatype FormInput = FormInput(
    stockWidth: Num,
    stockHeight: Num,
    fudgeFactor: Num,
    bitDiameter: Num,
    stepoverPercent: Num,
    numPasses: Num,
    depthPerPass: Num,
    pauseInterval: Num,
    feedRate: Num,
    plungeRate: Num,
    spindleRpm: Num,
    retractHeight: Num)

  // ---------------------------------------------------------------------
  // JavaScript comparisons on a field
  // ---------------------------------------------------------------------

  /** `!x`: missing, NaN and 0 are falsy. */
  predicate Falsy(n: Num) {
    n.Absent? || n.NaN? || (n.Val? && n.v == 0.0)
  }

  predicate IsNaN(n: Num) {
    n.NaN?
  }

  /** `x < c`, `x <= c`, `x > c`: false on NaN and on a missing field. */
  predicate Below(n: Num, c: real) {
    n.Val? && n.v < c
  }

  predicate AtMost(n: Num, c: real) {
    n.Val? && n.v <= c
  }

  predicate Above(n: Num, c: real) {
    n.Val? && n.v > c
  }

  // ---------------------------------------------------------------------
  // isFormValid
  // ---------------------------------------------------------------------

  /** `isFormValid`: both stock dimensions are truthy and positive. */
  predicate IsFormValid(f: FormInput) {
    !Falsy(f.stockWidth) && Above(f.stockWidth, 0.0) && !Falsy(f.stockHeight) && Above(f.stockHeight, 0.0)
  }


  // ---------------------------------------------------------------------
  // validateParams
  // ---------------------------------------------------------------------

  /** The twelve checks, one message each. */
  datatype Problem =
    | StockWidth | StockHeight | BitDiameter | StepoverRange | PassCount | DepthPerPass
    | FeedRate | PlungeRate | SpindleRpm | RetractHeight | PauseInterval | FudgeFactor

  /** The order the checks run in. */
  const Checks: seq<Problem> := [StockWidth, StockHeight, BitDiameter, StepoverRange, PassCount,
    DepthPerPass, FeedRate, PlungeRate, SpindleRpm, RetractHeight, PauseInterval, FudgeFactor]

  function Message(e: Problem): string {
    match e
    case StockWidth => "Stock width must be greater than 0"
    case StockHeight => "Stock height must be greater than 0"
    case BitDiameter => "Bit diameter must be greater than 0"
    case StepoverRange => "Stepover must be between 10% and 100%"
    case PassCount => "Number of passes must be at least 1"
    case DepthPerPass => "Depth per pass must be greater than 0"
    case FeedRate => "Feed rate must be greater than 0"
    case PlungeRate => "Plunge rate must be greater than 0"
    case SpindleRpm => "Spindle RPM must be greater than 0"
    case RetractHeight => "Retract Height must be greater than 0"
    case PauseInterval => "Pause interval must be 0 or greater (0 = disabled)"
    case FudgeFactor => "Fudge factor must be between 0 and 10 inches"
  }

  /** `!x || x <= 0 || isNaN(x)`. */
  predicate NotPositive(n: Num) {
    Falsy(n) || AtMost(n, 0.0) || IsNaN(n)
  }

  /** Each check's failing condition, as the source writes it. */
  predicate Fails(f: FormInput, e: Problem) {
    match e
    case StockWidth => NotPositive(f.stockWidth)
    case StockHeight => NotPositive(f.stockHeight)
    case BitDiameter => NotPositive(f.bitDiameter)
    case StepoverRange =>
      Falsy(f.stepoverPercent) || Below(f.stepoverPercent, 10.0) || Above(f.stepoverPercent, 100.0)
      || IsNaN(f.stepoverPercent)
    case PassCount => Falsy(f.numPasses) || Below(f.numPasses, 1.0) || IsNaN(f.numPasses)
    case DepthPerPass => NotPositive(f.depthPerPass)
    case FeedRate => NotPositive(f.feedRate)
    case PlungeRate => NotPositive(f.plungeRate)
    case SpindleRpm => NotPositive(f.spindleRpm)
    case RetractHeight => NotPositive(f.retractHeight)
    case PauseInterval => !f.pauseInterval.Absent? && (Below(f.pauseInterval, 0.0) || IsNaN(f.pauseInterval))
    case FudgeFactor => !f.fudgeFactor.Absent? && (Below(f.fudgeFactor, 0.0) || Above(f.fudgeFactor, 10.0))
  }

  /** The failing checks among the first `n`, in check order. */
  function FailedAmong(f: FormInput, n: nat): seq<Problem>
    requires n <= |Checks|
  {
    if n == 0 then []
    else FailedAmong(f, n - 1) + (if Fails(f, Checks[n - 1]) then [Checks[n - 1]] else [])
  }

  function FailedChecks(f: FormInput): seq<Problem> {
    FailedAmong(f, |Checks|)
  }

  function Messages(es: seq<Problem>): seq<string> {
    seq(|es|, i requires 0 <= i < |es| => Message(es[i]))
  }

  /** `validateParams`: run the checks in order; each failing check pushes its message. */
  method ValidateParams(f: FormInput) returns (errors: seq<string>)
    ensures errors == Messages(FailedChecks(f))
  {
    errors := [];
    errors := errors + if Fails(f, StockWidth) then [Message(StockWidth)] else [];
    errors := errors + if Fails(f, StockHeight) then [Message(StockHeight)] else [];
    errors := errors + if Fails(f, BitDiameter) then [Message(BitDiameter)] else [];
    errors := errors + if Fails(f, StepoverRange) then [Message(StepoverRange)] else [];
    errors := errors + if Fails(f, PassCount) then [Message(PassCount)] else [];
    errors := errors + if Fails(f, DepthPerPass) then [Message(DepthPerPass)] else [];
    errors := errors + if Fails(f, FeedRate) then [Message(FeedRate)] else [];
    errors := errors + if Fails(f, PlungeRate) then [Message(PlungeRate)] else [];
    errors := errors + if Fails(f, SpindleRpm) then [Message(SpindleRpm)] else [];
    errors := errors + if Fails(f, RetractHeight) then [Message(RetractHeight)] else [];
    errors := errors + if Fails(f, PauseInterval) then [Message(PauseInterval)] else [];
    errors := errors + if Fails(f, FudgeFactor) then [Message(FudgeFactor)] else [];
    Unrolled(f);
  }


  lemma MessagesSnoc(es: seq<Problem>, e: Problem)
    ensures Messages(es + [e]) == Messages(es) + [Message(e)]
  {
  }

  /** The message of a check when it fails, nothing otherwise. */
  function Report(f: FormInput, e: Problem): seq<string> {
    if Fails(f, e) then [Message(e)] else []
  }

  /** One more check: its message follows exactly when it fails. */
  lemma Advance(f: FormInput, k: nat)
    requires k < |Checks|
    ensures Messages(FailedAmong(f, k + 1)) == Messages(FailedAmong(f, k)) + Report(f, Checks[k])
  {
    if Fails(f, Checks[k]) {
      MessagesSnoc(FailedAmong(f, k), Checks[k]);
    }
  }

  /** The checks' messages, spelled out in check order. */
  lemma Unrolled(f: FormInput)
    ensures Messages(FailedChecks(f))
         == []
            + (if Fails(f, StockWidth) then [Message(StockWidth)] else [])
            + (if Fails(f, StockHeight) then [Message(StockHeight)] else [])
            + (if Fails(f, BitDiameter) then [Message(BitDiameter)] else [])
            + (if Fails(f, StepoverRange) then [Message(StepoverRange)] else [])
            + (if Fails(f, PassCount) then [Message(PassCount)] else [])
            + (if Fails(f, DepthPerPass) then [Message(DepthPerPass)] else [])
            + (if Fails(f, FeedRate) then [Message(FeedRate)] else [])
            + (if Fails(f, PlungeRate) then [Message(PlungeRate)] else [])
            + (if Fails(f, SpindleRpm) then [Message(SpindleRpm)] else [])
            + (if Fails(f, RetractHeight) then [Message(RetractHeight)] else [])
            + (if Fails(f, PauseInterval) then [Message(PauseInterval)] else [])
            + (if Fails(f, FudgeFactor) then [Message(FudgeFactor)] else [])
  {
    ReportsInOrder(f);
  }

  lemma ReportsInOrder(f: FormInput)
    ensures Messages(FailedChecks(f))
         == [] + Report(f, StockWidth) + Report(f, StockHeight) + Report(f, BitDiameter)
            + Report(f, StepoverRange) + Report(f, PassCount) + Report(f, DepthPerPass)
            + Report(f, FeedRate) + Report(f, PlungeRate) + Report(f, SpindleRpm)
            + Report(f, RetractHeight) + Report(f, PauseInterval) + Report(f, FudgeFactor)
  {
    Advance(f, 0); Advance(f, 1); Advance(f, 2); Advance(f, 3); Advance(f, 4); Advance(f, 5);
    Advance(f, 6); Advance(f, 7); Advance(f, 8); Advance(f, 9); Advance(f, 10); Advance(f, 11);
  }


  // ---------------------------------------------------------------------
  // What the checks mean
  // ---------------------------------------------------------------------

  /** A present number above 0. */
  predicate Positive(n: Num) {
    n.Val? && n.v > 0.0
  }

  /**
   * An independent reading of each check: the positive fields must be
   * present and above 0, the stepover in [10, 100], the pass count at
   * least 1; a pause interval may be missing but not negative or NaN; a
   * fudge factor may be missing or NaN but not outside [0, 10].
   */
  predicate Passes(f: FormInput, e: Problem) {
    match e
    case StockWidth => Positive(f.stockWidth)
    case StockHeight => Positive(f.stockHeight)
    case BitDiameter => Positive(f.bitDiameter)
    case StepoverRange => f.stepoverPercent.Val? && 10.0 <= f.stepoverPercent.v <= 100.0
    case PassCount => f.numPasses.Val? && f.numPasses.v >= 1.0
    case DepthPerPass => Positive(f.depthPerPass)
    case FeedRate => Positive(f.feedRate)
    case PlungeRate => Positive(f.plungeRate)
    case SpindleRpm => Positive(f.spindleRpm)
    case RetractHeight => Positive(f.retractHeight)
    case PauseInterval => f.pauseInterval.Absent? || (f.pauseInterval.Val? && f.pauseInterval.v >= 0.0)
    case FudgeFactor => !f.fudgeFactor.Val? || 0.0 <= f.fudgeFactor.v <= 10.0
  }

  lemma FailsIff(f: FormInput, e: Problem)
    ensures Fails(f, e) <==> !Passes(f, e)
  {
  }

  /** Position of a check in the check order. */
  function Rank(e: Problem): nat {
    match e
    case StockWidth => 0
    case StockHeight => 1
    case BitDiameter => 2
    case StepoverRange => 3
    case PassCount => 4
    case DepthPerPass => 5
    case FeedRate => 6
    case PlungeRate => 7
    case SpindleRpm => 8
    case RetractHeight => 9
    case PauseInterval => 10
    case FudgeFactor => 11
  }

  lemma {:induction false} FailedAmongShape(f: FormInput, n: nat)
    requires n <= |Checks|
    ensures var es := FailedAmong(f, n);
      && (forall e :: e in es <==> Rank(e) < n && Fails(f, e))
      && (forall i, j :: 0 <= i < j < |es| ==> Rank(es[i]) < Rank(es[j]))
  {
    if n > 0 {
      FailedAmongShape(f, n - 1);
      CheckRank(n - 1);
    }
  }

  /** The check at position `i` is the only one of rank `i`. */
  lemma CheckRank(i: nat)
    requires i < |Checks|
    ensures Rank(Checks[i]) == i
    ensures forall d :: Rank(d) == i ==> d == Checks[i]
  {
  }

  /**
   * `validateParams` reports exactly the failing checks, each once and in
   * check order: a check's message is present iff the check fails, and
   * the messages' checks strictly increase in rank.
   */
  lemma ValidationReport(f: FormInput)
    ensures var es := FailedChecks(f);
      && (forall e :: e in es <==> !Passes(f, e))
      && (forall i, j :: 0 <= i < j < |es| ==> Rank(es[i]) < Rank(es[j]))
  {
    FailedAmongShape(f, |Checks|);
    forall e: Problem
      ensures e in FailedChecks(f) <==> !Passes(f, e)
    {
      FailsIff(f, e);
      assert Rank(e) < |Checks|;
    }
  }

  /** No message at all exactly when every check passes. */
  lemma ValidIffAllPass(f: FormInput)
    ensures Messages(FailedChecks(f)) == [] <==> forall e :: Passes(f, e)
  {
    ValidationReport(f);
    if Messages(FailedChecks(f)) != [] {
      var es := FailedChecks(f);
      assert es[0] in es;
    }
  }

  /**
   * `isFormValid` holds exactly when both stock dimensions are present
   * positive numbers, that is, exactly when neither stock check fails.
   */
  lemma FormValidIff(f: FormInput)
    ensures IsFormValid(f) <==> Positive(f.stockWidth) && Positive(f.stockHeight)
    ensures IsFormValid(f) <==> StockWidth !in FailedChecks(f) && StockHeight !in FailedChecks(f)
  {
    ValidationReport(f);
  }

  /** A form `isFormValid` rejects always draws a stock-width or stock-height message. */
  lemma InvalidFormReported(f: FormInput)
    requires !IsFormValid(f)
    ensures var es := FailedChecks(f); es != [] && (es[0] == StockWidth || es[0] == StockHeight)
  {
    ValidationReport(f);
    var es := FailedChecks(f);
    var e := if Passes(f, StockWidth) then StockHeight else StockWidth;
    assert e in es;
    assert Rank(es[0]) <= 1 by {
      var k :| 0 <= k < |es| && es[k] == e;
      if k > 0 {
        assert Rank(es[0]) < Rank(es[k]);
      }
    }
  }

  /**
   * A form with no messages has a positive bit and a stepover of at least
   * 10%, hence a positive stepover, so the toolpath's position loop ends.
   */
  lemma ValidStepoverPositive(f: FormInput)
    requires FailedChecks(f) == []
    ensures f.bitDiameter.Val? && f.stepoverPercent.Val?
    ensures f.bitDiameter.v * (f.stepoverPercent.v / 100.0) > 0.0
  {
    ValidationReport(f);
    assert Passes(f, BitDiameter) && Passes(f, StepoverRange);
  }

  /** A fudge field that does not parse is not reported: only an out-of-range number is. */
  lemma NaNFudgeAccepted(f: FormInput)
    requires f.fudgeFactor.NaN?
    ensures FudgeFactor !in FailedChecks(f)
  {
    ValidationReport(f);
  }

  // ---------------------------------------------------------------------
  // Stepper buttons
  // ---------------------------------------------------------------------

  /** `parseFloat(s) || d`: a missing, NaN or zero reading falls back to `d`. */
  function OrElse(n: Num, d: real): (r: real)
    ensures Falsy(n) ==> r == d
    ensures !Falsy(n) ==> n.Val? && r == n.v
  {
    if n.Val? && n.v != 0.0 then n.v else d
  }

  /**
   * A value kept within optional bounds: raised to `min` when below it,
   * then lowered to `max` when above it, so `max` wins when the bounds
   * cross.
   */
  function Clamp(x: real, min: Num, max: Num): (c: real)
    ensures c == x || (min.Val? && c == min.v) || (max.Val? && c == max.v)
    ensures max.Val? ==> c <= max.v
    ensures min.Val? && (!max.Val? || min.v <= max.v) ==> c >= min.v
  {
    var raised := if min.Val? && x < min.v then min.v else x;
    if max.Val? && raised > max.v then max.v else raised
  }

  /** Which value the clamp picks: the input within the bounds, else the bound it crossed. */
  lemma ClampChoice(x: real, min: Num, max: Num)
    ensures (!min.Val? || x >= min.v) && (!max.Val? || x <= max.v) ==> Clamp(x, min, max) == x
    ensures min.Val? && x < min.v && (!max.Val? || min.v <= max.v) ==> Clamp(x, min, max) == min.v
    ensures max.Val? && x > max.v ==> Clamp(x, min, max) == max.v
    ensures min.Val? && max.Val? && min.v > max.v && x < min.v ==> Clamp(x, min, max) == max.v
  {
  }

  /**
   * One click: the value plus or minus the step (1 when the step reads as
   * nothing), rounded to hundredths with `Math.round`, raised to `min` if
   * below it, then lowered to `max` if above it.  A missing or unparsable
   * bound never applies.
   */
  method UpdateValue(value: Num, step: Num, min: Num, max: Num, increment: bool) returns (val: real)
    ensures var moved := if increment then OrElse(value, 0.0) + OrElse(step, 1.0)
                         else OrElse(value, 0.0) - OrElse(step, 1.0);
      var rounded := Hundredths(moved);
      && val == Clamp(rounded, min, max)
      && (val == rounded || (min.Val? && val == min.v) || (max.Val? && val == max.v))
      && (max.Val? ==> val <= max.v)
      && (min.Val? && (!max.Val? || min.v <= max.v) ==> val >= min.v)
      && ((!min.Val? || rounded >= min.v) && (!max.Val? || rounded <= max.v) ==> val == rounded)
      && (min.Val? && rounded < min.v && (!max.Val? || min.v <= max.v) ==> val == min.v)
      && (max.Val? && (rounded > max.v || (min.Val? && rounded < min.v && min.v > max.v)) ==> val == max.v)
      && (-0.005 < rounded - moved <= 0.005)
  {
    var stepSize := OrElse(step, 1.0);
    val := OrElse(value, 0.0);

    if increment {
      val := val + stepSize;
    } else {
      val := val - stepSize;
    }
    ghost var moved := val;

    val := RoundHalfUp(val * 100.0) as real / 100.0;
    HundredthsClose(moved);

    // A missing bound reads as an infinity and an unparsable one as NaN: neither compares true.
    if min.Val? && val < min.v {
      val := min.v;
    }
    if max.Val? && val > max.v {
      val := max.v;
    }
    ClampChoice(Hundredths(moved), min, max);
  }

  /** Rounding to hundredths moves a value by at most half a hundredth, ties upward. */
  lemma HundredthsClose(x: real)
    ensures -0.005 < Hundredths(x) - x <= 0.005
  {
    var n := RoundHalfUp(x * 100.0) as real;
    assert n - 0.5 <= x * 100.0 < n + 0.5;
    assert Hundredths(x) == n / 100.0;
    assert n / 100.0 - x == (n - x * 100.0) / 100.0;
  }
}
