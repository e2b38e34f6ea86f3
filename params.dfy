/** The job description shared by every stage of the surfacing planner. */
module Params {

  datatype Option<T> = None | Some(value: T)

  /** The axis along which cutting lines travel; the other axis is the stepping axis. */
  datatype RasterDirection = RasterX | RasterY

  /**
   * A fully defaulted surfacing job.  Lengths are exact reals (inches);
   * the pass count and the pause interval are whole numbers.
   */
  datatype SurfacingParams = SurfacingParams(
    stockWidth: real,
    stockHeight: real,
    fudgeFactor: real,       // percent of the stock size, split half per side
    bitDiameter: real,
    stepoverPercent: real,
    rasterDirection: RasterDirection,
    skimPass: bool,
    numPasses: nat,
    depthPerPass: real,
    pauseInterval: nat,      // 0 disables pauses
    feedRate: real,
    plungeRate: real,
    spindleRpm: real,
    retractHeight: real)

  /** Perpendicular offset between neighbouring raster lines. */
  function Stepover(p: SurfacingParams): real {
    p.bitDiameter * (p.stepoverPercent / 100.0)
  }

  function BitRadius(p: SurfacingParams): real {
    p.bitDiameter / 2.0
  }

  /**
   * The height the serializer retracts to.  `generateGCode` reads a
   * `safeZ` field that the job record does not have; the model retracts
   * to the record's retract height instead (see Findings).
   */
  function SafeZ(p: SurfacingParams): real {
    p.retractHeight
  }
}
