/**
 * The default job settings and the merge that fills a partial job with
 * them (src/defaults.ts).
 */
module Defaults {
  import opened Params
  import opened Toolpath
  import opened GCode
  import Validation

  /** A partial job: the stock size is required, everything else may be left out. */
  datatype Overrides = Overrides(
    stockWidth: real,
    stockHeight: real,
    fudgeFactor: Option<real>,
    bitDiameter: Option<real>,
    stepoverPercent: Option<real>,
    rasterDirection: Option<RasterDirection>,
    skimPass: Option<bool>,
    numPasses: Option<nat>,
    depthPerPass: Option<real>,
    pauseInterval: Option<nat>,
    feedRate: Option<real>,
    plungeRate: Option<real>,
    spindleRpm: Option<real>,
    retractHeight: Option<real>)

  // `DEFAULT_PARAMS`
  const DefaultFudgeFactor: real := 0.25
  const DefaultBitDiameter: real := 1.25
  const DefaultStepoverPercent: real := 50.0
  const DefaultRasterDirection: RasterDirection := RasterX
  const DefaultSkimPass: bool := true
  const DefaultDepthPerPass: real := 0.01
  const DefaultPauseInterval: nat := 0
  const DefaultFeedRate: real := 125.0
  const DefaultPlungeRate: real := 12.0
  const DefaultSpindleRpm: real := 18000.0
  const DefaultRetractHeight: real := 0.125

  /** The pass count `DEFAULT_PARAMS` is missing; the corrected merge supplies it. */
  const DefaultNumPasses: nat := 1

  /** A supplied field wins over the default. */
  function Or<T>(x: Option<T>, d: T): T {
    if x.Some? then x.value else d
  }

  /** `mergeWithDefaults`, with the missing pass count defaulted to 1. */
  function MergeWithDefaults(o: Overrides): SurfacingParams {
    SurfacingParams(
      o.stockWidth,
      o.stockHeight,
      Or(o.fudgeFactor, DefaultFudgeFactor),
      Or(o.bitDiameter, DefaultBitDiameter),
      Or(o.stepoverPercent, DefaultStepoverPercent),
      Or(o.rasterDirection, DefaultRasterDirection),
      Or(o.skimPass, DefaultSkimPass),
      Or(o.numPasses, DefaultNumPasses),
      Or(o.depthPerPass, DefaultDepthPerPass),
      Or(o.pauseInterval, DefaultPauseInterval),
      Or(o.feedRate, DefaultFeedRate),
      Or(o.plungeRate, DefaultPlungeRate),
      Or(o.spindleRpm, DefaultSpindleRpm),
      Or(o.retractHeight, DefaultRetractHeight))
  }

  /** Every field of a complete job, supplied. */
  function AsOverrides(p: SurfacingParams): Overrides {
    Overrides(p.stockWidth, p.stockHeight, Some(p.fudgeFactor), Some(p.bitDiameter),
      Some(p.stepoverPercent), Some(p.rasterDirection), Some(p.skimPass), Some(p.numPasses),
      Some(p.depthPerPass), Some(p.pauseInterval), Some(p.feedRate), Some(p.plungeRate),
      Some(p.spindleRpm), Some(p.retractHeight))
  }

  /** The merge keeps the stock size, and keeps every supplied field over its default. */
  lemma MergeKeepsSupplied(o: Overrides)
    ensures var p := MergeWithDefaults(o);
      && p.stockWidth == o.stockWidth && p.stockHeight == o.stockHeight
      && (o.fudgeFactor.Some? ==> p.fudgeFactor == o.fudgeFactor.value)
      && (o.bitDiameter.Some? ==> p.bitDiameter == o.bitDiameter.value)
      && (o.stepoverPercent.Some? ==> p.stepoverPercent == o.stepoverPercent.value)
      && (o.rasterDirection.Some? ==> p.rasterDirection == o.rasterDirection.value)
      && (o.skimPass.Some? ==> p.skimPass == o.skimPass.value)
      && (o.numPasses.Some? ==> p.numPasses == o.numPasses.value)
      && (o.depthPerPass.Some? ==> p.depthPerPass == o.depthPerPass.value)
      && (o.pauseInterval.Some? ==> p.pauseInterval == o.pauseInterval.value)
      && (o.feedRate.Some? ==> p.feedRate == o.feedRate.value)
      && (o.plungeRate.Some? ==> p.plungeRate == o.plungeRate.value)
      && (o.spindleRpm.Some? ==> p.spindleRpm == o.spindleRpm.value)
      && (o.retractHeight.Some? ==> p.retractHeight == o.retractHeight.value)
  {
  }

  /** A job given only its stock size gets every default, including a 0.125" safe Z. */
  lemma StockOnlyJob(w: real, h: real)
    ensures var p := MergeWithDefaults(Overrides(w, h, None, None, None, None, None, None, None, None,
                                                 None, None, None, None));
      && p == SurfacingParams(w, h, 0.25, 1.25, 50.0, RasterX, true, 1, 0.01, 0, 125.0, 12.0, 18000.0, 0.125)
      && SafeZ(p) == 0.125
  {
  }

  /** Merging a complete job with the defaults gives it back unchanged, so merging is idempotent. */
  lemma MergeIdempotent(p: SurfacingParams)
    ensures MergeWithDefaults(AsOverrides(p)) == p
  {
  }

  /** Merging twice is merging once. */
  lemma MergeTwice(o: Overrides)
    ensures MergeWithDefaults(AsOverrides(MergeWithDefaults(o))) == MergeWithDefaults(o)
  {
    MergeIdempotent(MergeWithDefaults(o));
  }

  /**
   * A job that keeps the default bit and stepover steps over by 0.625",
   * so its position loop ends whatever the stock.
   */
  lemma DefaultToolingEnds(o: Overrides)
    requires o.bitDiameter.None? && o.stepoverPercent.None?
    ensures Stepover(MergeWithDefaults(o)) == 0.625
    ensures PositionLoopEnds(MergeWithDefaults(o))
  {
  }

  /**
   * The default pause interval of 0 means a job that leaves it out never
   * stops: no pass is flagged and the program holds no M0.
   */
  lemma DefaultedJobNeverPauses(o: Overrides)
    requires o.pauseInterval.None?
    requires PositionLoopEnds(MergeWithDefaults(o))
    ensures var t := Plan(MergeWithDefaults(o));
      && (forall i :: 0 <= i < |t.passes| ==> !t.passes[i].pauseAfter)
      && CountWhere(ProgramCommands(t), IsPause) == 0
  {
    var p := MergeWithDefaults(o);
    PauseSchedule(p, PlannedLines(p));
    PlanPauseCount(p);
  }

  /** With the pass count defaulted to 1, a defaulted job cuts at least one pass (two with the skim pass). */
  lemma DefaultedJobCuts(o: Overrides)
    requires o.numPasses.None?
    ensures TotalPasses(MergeWithDefaults(o)) == if Or(o.skimPass, DefaultSkimPass) then 2 else 1
  {
  }

  // ---------------------------------------------------------------------
  // The merge as written
  // ---------------------------------------------------------------------

  /**
   * The pass count `calculateToolpath` loops to after the merge as
   * written: `DEFAULT_PARAMS` has no `numPasses`, so a job that leaves it
   * out adds `undefined` to the skim count, giving NaN, and `i < NaN`
   * never holds.
   */
  function PassesAsWritten(o: Overrides): nat {
    match o.numPasses
    case None => 0
    case Some(n) => n + (if Or(o.skimPass, DefaultSkimPass) then 1 else 0)
  }

  /** As written, a job that leaves out the pass count plans no pass at all, not even the skim pass. */
  lemma MissingPassCountCutsNothing(o: Overrides)
    requires o.numPasses.None?
    ensures PassesAsWritten(o) == 0
    ensures TotalPasses(MergeWithDefaults(o)) > PassesAsWritten(o)
  {
  }

  /** Where the pass count is supplied, the as-written merge and the corrected one agree. */
  lemma SuppliedPassCountAgrees(o: Overrides)
    requires o.numPasses.Some?
    ensures PassesAsWritten(o) == TotalPasses(MergeWithDefaults(o))
  {
  }

  // ---------------------------------------------------------------------
  // The generate button
  // ---------------------------------------------------------------------

  /** A form with the stock size and a bit diameter filled in, every other field left empty. */
  function StockAndBitForm(w: real, h: real, bit: real): Validation.FormInput {
    Validation.FormInput(Validation.Val(w), Validation.Val(h), Validation.Absent, Validation.Val(bit),
      Validation.Absent, Validation.Absent, Validation.Absent, Validation.Absent, Validation.Absent,
      Validation.Absent, Validation.Absent, Validation.Absent)
  }

  /** The partial job such a form yields: the stock size and the bit diameter. */
  function StockAndBitJob(w: real, h: real, bit: real): Overrides {
    Overrides(w, h, None, Some(bit), None, None, None, None, None, None, None, None, None, None)
  }

  /**
   * As written, generation is gated on `isFormValid` alone, which reads
   * only the stock size.  A form with a zero bit diameter passes it,
   * although the validator reports the bit; the job merged from it steps
   * over by 0, so the line loop never ends.
   */
  lemma ZeroBitReachesPlanner(w: real, h: real)
    requires w > 0.0 && h > 0.0
    ensures Validation.IsFormValid(StockAndBitForm(w, h, 0.0))
    ensures Validation.BitDiameter in Validation.FailedChecks(StockAndBitForm(w, h, 0.0))
    ensures Stepover(MergeWithDefaults(StockAndBitJob(w, h, 0.0))) == 0.0
    ensures !PositionLoopEnds(MergeWithDefaults(StockAndBitJob(w, h, 0.0)))
  {
    var f := StockAndBitForm(w, h, 0.0);
    Validation.ValidationReport(f);
    assert !Validation.Passes(f, Validation.BitDiameter);
  }

  /**
   * Gated on the validator instead, a form it accepts sets a positive bit
   * diameter and stepover, so the job merged from them steps forward and
   * its line loop ends.
   */
  lemma ValidatedFormPlans(f: Validation.FormInput, o: Overrides)
    requires Validation.FailedChecks(f) == []
    requires f.bitDiameter.Val? && o.bitDiameter == Some(f.bitDiameter.v)
    requires f.stepoverPercent.Val? && o.stepoverPercent == Some(f.stepoverPercent.v)
    ensures Stepover(MergeWithDefaults(o)) > 0.0 && PositionLoopEnds(MergeWithDefaults(o))
  {
    Validation.ValidStepoverPositive(f);
  }
}
