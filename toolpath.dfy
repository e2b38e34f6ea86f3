/**
 * `calculateToolpath` (src/toolpath.ts): travel bounds, the stepping-axis
 * line positions, the snaking raster lines and the Z pass schedule.
 */
module Toolpath {
  import opened Params

  datatype Direction = Positive | Negative

  /**
   * One cutting line.  An X-raster line travels along X at a fixed `y`;
   * a Y-raster line travels along Y at a fixed `x`.
   */
  datatype RasterLine =
    | XLine(y: real, xStart: real, xEnd: real, direction: Direction)
    | YLine(x: real, yStart: real, yEnd: real, direction: Direction)

  datatype ZPass = ZPass(z: real, lines: seq<RasterLine>, pauseAfter: bool)

  datatype Rect = Rect(xMin: real, xMax: real, yMin: real, yMax: real)

  datatype Toolpath = Toolpath(
    passes: seq<ZPass>,
    bounds: Rect,
    originalStockBounds: Rect,
    params: SurfacingParams)

  // ---------------------------------------------------------------------
  // Bounds
  // ---------------------------------------------------------------------

  /** The fudge added on each side of a stock dimension: half of `fudgePercent` percent of it. */
  function FudgeAmount(size: real, fudgePercent: real): real {
    size * fudgePercent / 100.0 / 2.0
  }

  /** The stock grown by the fudge amount on every side, centred on the original stock. */
  function FudgedStock(p: SurfacingParams): Rect {
    var fw := FudgeAmount(p.stockWidth, p.fudgeFactor);
    var fh := FudgeAmount(p.stockHeight, p.fudgeFactor);
    Rect(-fw, p.stockWidth + fw, -fh, p.stockHeight + fh)
  }

  /** Overhang on the stepping axis; negative when the stepover exceeds the bit radius. */
  function SteppingOverhang(p: SurfacingParams): real {
    BitRadius(p) - Stepover(p)
  }

  /**
   * The region the bit centre travels: the fudged stock, widened by the
   * bit radius along the raster axis and by the stepping overhang across it.
   */
  function TravelBounds(p: SurfacingParams): Rect {
    var f := FudgedStock(p);
    var r := BitRadius(p);
    var o := SteppingOverhang(p);
    match p.rasterDirection
    case RasterX => Rect(f.xMin - r, f.xMax + r, f.yMin - o, f.yMax + o)
    case RasterY => Rect(f.xMin - o, f.xMax + o, f.yMin - r, f.yMax + r)
  }

  /** Lower end of the stepping axis within the travel bounds. */
  function SteppingMin(p: SurfacingParams): real {
    var b := TravelBounds(p);
    if p.rasterDirection == RasterX then b.yMin else b.xMin
  }

  /** Upper end of the stepping axis within the travel bounds. */
  function SteppingMax(p: SurfacingParams): real {
    var b := TravelBounds(p);
    if p.rasterDirection == RasterX then b.yMax else b.xMax
  }

  /**
   * The position loop only ends when it advances, or when it never starts:
   * a zero or negative stepover over a non-empty range loops forever.
   */
  predicate PositionLoopEnds(p: SurfacingParams) {
    Stepover(p) > 0.0 || SteppingMax(p) < SteppingMin(p)
  }

  // ---------------------------------------------------------------------
  // Line positions
  // ---------------------------------------------------------------------

  /** How many times the loop `while (pos <= hi) pos += step` runs from `pos`. */
  function Steps(pos: real, hi: real, step: real): nat
    requires step > 0.0 || hi < pos
  {
    if hi < pos then 0
    else
      assert (hi - pos) / step >= 0.0;
      ((hi - pos) / step).Floor + 1
  }

  lemma StepsDecrease(pos: real, hi: real, step: real)
    requires step > 0.0 && pos <= hi
    ensures Steps(pos + step, hi, step) == Steps(pos, hi, step) - 1
  {
    if hi < pos + step {
      DivBelowOne(hi - pos, step);
    } else {
      DivShift(hi - pos, step);
      assert hi - (pos + step) == (hi - pos) - step;
    }
  }

  lemma DivShift(a: real, s: real)
    requires s > 0.0
    ensures (a - s) / s == a / s - 1.0
  {
    assert (a - s) / s == a / s - s / s;
  }

  lemma DivBelowOne(a: real, s: real)
    requires s > 0.0 && a < s
    ensures a / s < 1.0
  {
  }

  /** The positions the accumulating loop visits: `pos`, `pos + step`, ... while at most `hi`. */
  function Sweep(pos: real, hi: real, step: real): seq<real>
    requires step > 0.0 || hi < pos
    decreases Steps(pos, hi, step)
  {
    if hi < pos then []
    else
      StepsDecrease(pos, hi, step);
      [pos] + Sweep(pos + step, hi, step)
  }

  /** The loop's positions, with `hi` appended when the last one falls short of it. */
  function SteppedPositions(lo: real, hi: real, step: real): seq<real>
    requires step > 0.0 || hi < lo
  {
    var s := Sweep(lo, hi, step);
    if s != [] && s[|s| - 1] < hi then s + [hi] else s
  }

  /** One turn of the position loop: `pos` moves from the remaining sweep to the visited prefix. */
  lemma SweepStep(visited: seq<real>, pos: real, hi: real, step: real)
    requires step > 0.0 && pos <= hi
    ensures Steps(pos + step, hi, step) < Steps(pos, hi, step)
    ensures visited + Sweep(pos, hi, step) == (visited + [pos]) + Sweep(pos + step, hi, step)
  {
    StepsDecrease(pos, hi, step);
    assert Sweep(pos, hi, step) == [pos] + Sweep(pos + step, hi, step);
  }

  /** Past `hi` the sweep is empty, so the visited prefix is the whole sweep. */
  lemma SweepDone(visited: seq<real>, pos: real, hi: real, step: real)
    requires hi < pos
    ensures visited + Sweep(pos, hi, step) == visited
  {
  }

  /** The stepped positions are the finished sweep, closed off at `hi` when it falls short. */
  lemma ClosedSweep(swept: seq<real>, lo: real, hi: real, step: real)
    requires step > 0.0 || hi < lo
    requires swept == Sweep(lo, hi, step)
    ensures SteppedPositions(lo, hi, step)
         == if swept != [] && swept[|swept| - 1] < hi then swept + [hi] else swept
  {
  }

  /** The line-position loop of `calculateToolpath`, run on one stepping axis. */
  method LinePositions(lo: real, hi: real, step: real) returns (positions: seq<real>)
    requires step > 0.0 || hi < lo
    ensures positions == SteppedPositions(lo, hi, step)
  {
    positions := [];
    var pos := lo;
    while pos <= hi
      invariant step > 0.0 || hi < pos
      invariant positions + Sweep(pos, hi, step) == Sweep(lo, hi, step)
      decreases Steps(pos, hi, step)
    {
      SweepStep(positions, pos, hi, step);
      positions := positions + [pos];
      pos := pos + step;
    }
    SweepDone(positions, pos, hi, step);
    ClosedSweep(positions, lo, hi, step);
    if positions != [] && positions[|positions| - 1] < hi {
      positions := positions + [hi];
    }
  }

  /**
   * The loop's own positions: `Steps` of them, from `lo` in equal steps,
   * all within [lo, hi], the last within one step below `hi`.
   */
  lemma {:induction false} SweepShape(lo: real, hi: real, step: real)
    requires step > 0.0
    ensures var s := Sweep(lo, hi, step);
      && |s| == Steps(lo, hi, step)
      && (s == [] <==> hi < lo)
      && (s != [] ==> s[0] == lo && hi - step < s[|s| - 1] <= hi)
      && (forall i :: 0 <= i < |s| ==> lo <= s[i] <= hi)
      && (forall i :: 0 <= i < |s| - 1 ==> s[i + 1] == s[i] + step)
    decreases Steps(lo, hi, step)
  {
    if lo <= hi {
      StepsDecrease(lo, hi, step);
      SweepShape(lo + step, hi, step);
      var t := Sweep(lo + step, hi, step);
      assert Sweep(lo, hi, step) == [lo] + t;
    }
  }

  /** The last position the loop visits is `lo` plus one step per further visit. */
  lemma {:induction false} SweepLast(lo: real, hi: real, step: real)
    requires step > 0.0 && lo <= hi
    ensures var s := Sweep(lo, hi, step);
      s != [] && s[|s| - 1] == lo + (|s| - 1) as real * step
    decreases Steps(lo, hi, step)
  {
    StepsDecrease(lo, hi, step);
    var t := Sweep(lo + step, hi, step);
    assert Sweep(lo, hi, step) == [lo] + t;
    if lo + step <= hi {
      SweepLast(lo + step, hi, step);
      assert (|t| - 1) as real * step + step == |t| as real * step;
    }
  }

  /**
   * The positions start at `lo` and end exactly at `hi`, stay within
   * [lo, hi] and strictly increase; every gap but the last is one stepover
   * and the last is at most one.  There are none exactly when `hi < lo`.
   */
  lemma PositionsShape(lo: real, hi: real, step: real)
    requires step > 0.0
    ensures var s := SteppedPositions(lo, hi, step);
      && (s == [] <==> hi < lo)
      && (s != [] ==> s[0] == lo && s[|s| - 1] == hi)
      && (forall i :: 0 <= i < |s| ==> lo <= s[i] <= hi)
      && (forall i :: 0 <= i < |s| - 1 ==> s[i] < s[i + 1])
      && (forall i :: 0 <= i < |s| - 2 ==> s[i + 1] == s[i] + step)
      && (|s| >= 2 ==> s[|s| - 1] - s[|s| - 2] <= step)
  {
    var s := Sweep(lo, hi, step);
    if s != [] && s[|s| - 1] < hi {
      EndAppended(lo, hi, step);
    } else {
      EndReached(lo, hi, step);
    }
  }

  /** The loop stopped exactly on `hi`, or never ran: nothing is appended. */
  lemma EndReached(lo: real, hi: real, step: real)
    requires step > 0.0
    requires var s := Sweep(lo, hi, step); !(s != [] && s[|s| - 1] < hi)
    ensures var s := SteppedPositions(lo, hi, step);
      && s == Sweep(lo, hi, step)
      && (s == [] <==> hi < lo)
      && (s != [] ==> s[0] == lo && s[|s| - 1] == hi)
      && (forall i :: 0 <= i < |s| ==> lo <= s[i] <= hi)
      && (forall i :: 0 <= i < |s| - 1 ==> s[i] < s[i + 1])
      && (forall i :: 0 <= i < |s| - 2 ==> s[i + 1] == s[i] + step)
      && (|s| >= 2 ==> s[|s| - 1] - s[|s| - 2] <= step)
  {
    var s := Sweep(lo, hi, step);
    SweepShape(lo, hi, step);
    if |s| >= 2 {
      assert s[|s| - 2 + 1] == s[|s| - 2] + step;
    }
  }

  /** The loop stopped short of `hi`: the appended `hi` is less than one step past the last visit. */
  lemma EndAppended(lo: real, hi: real, step: real)
    requires step > 0.0
    requires var s := Sweep(lo, hi, step); s != [] && s[|s| - 1] < hi
    ensures var e := SteppedPositions(lo, hi, step);
      && e == Sweep(lo, hi, step) + [hi]
      && lo <= hi && e[0] == lo && e[|e| - 1] == hi
      && (forall i :: 0 <= i < |e| ==> lo <= e[i] <= hi)
      && (forall i :: 0 <= i < |e| - 1 ==> e[i] < e[i + 1])
      && (forall i :: 0 <= i < |e| - 2 ==> e[i + 1] == e[i] + step)
      && (|e| >= 2 ==> e[|e| - 1] - e[|e| - 2] <= step)
  {
    SweepShape(lo, hi, step);
    AppendShape(Sweep(lo, hi, step), lo, hi, step);
  }

  lemma AppendShape(s: seq<real>, lo: real, hi: real, step: real)
    requires step > 0.0 && s != [] && s[|s| - 1] < hi
    requires s[0] == lo && hi - step < s[|s| - 1]
    requires forall i :: 0 <= i < |s| ==> lo <= s[i] <= hi
    requires forall i :: 0 <= i < |s| - 1 ==> s[i + 1] == s[i] + step
    ensures var e := s + [hi];
      && lo <= hi && e[0] == lo && e[|e| - 1] == hi
      && (forall i :: 0 <= i < |e| ==> lo <= e[i] <= hi)
      && (forall i :: 0 <= i < |e| - 1 ==> e[i] < e[i + 1])
      && (forall i :: 0 <= i < |e| - 2 ==> e[i + 1] == e[i] + step)
      && (|e| >= 2 ==> e[|e| - 1] - e[|e| - 2] <= step)
  {
    var e := s + [hi];
    assert forall i :: 0 <= i < |s| ==> e[i] == s[i];
  }

  /**
   * The line count: `floor(span / step) + 1` visits of the loop, plus one
   * appended line when the span is not a whole number of steps.
   */
  lemma PositionsCount(lo: real, hi: real, step: real)
    requires step > 0.0
    ensures var q := (hi - lo) / step;
      |SteppedPositions(lo, hi, step)|
        == if hi < lo then 0 else q.Floor + 1 + (if q.Floor as real == q then 0 else 1)
  {
    SweepShape(lo, hi, step);
    if lo <= hi {
      var s := Sweep(lo, hi, step);
      var f := ((hi - lo) / step).Floor;
      assert |s| == f + 1;
      SweepLast(lo, hi, step);
      assert s[|s| - 1] == lo + f as real * step;
      FloorGap(hi - lo, step);
      assert s[|s| - 1] < hi <==> f as real != (hi - lo) / step;
    }
  }

  /** A step count below the exact quotient leaves a shortfall, and only then. */
  lemma FloorGap(a: real, step: real)
    requires step > 0.0 && a >= 0.0
    ensures var q := a / step;
      q.Floor as real * step < a <==> q.Floor as real != q
  {
    var q := a / step;
    var f := q.Floor as real;
    assert q * step == a;
    if f != q {
      assert (q - f) * step > 0.0;
    }
  }

  // ---------------------------------------------------------------------
  // Snaking lines
  // ---------------------------------------------------------------------

  /** Line `i` at stepping position `pos`: even lines run forward, odd lines back. */
  function LineAt(dir: RasterDirection, b: Rect, pos: real, i: nat): RasterLine {
    var even := i % 2 == 0;
    var d := if even then Positive else Negative;
    match dir
    case RasterX => XLine(pos, if even then b.xMin else b.xMax, if even then b.xMax else b.xMin, d)
    case RasterY => YLine(pos, if even then b.yMin else b.yMax, if even then b.yMax else b.yMin, d)
  }

  /** One line per stepping position, as the `map` over the positions builds them. */
  function RasterLines(dir: RasterDirection, b: Rect, positions: seq<real>): seq<RasterLine> {
    seq(|positions|, i requires 0 <= i < |positions| => LineAt(dir, b, positions[i], i))
  }

  /** The stepping-axis coordinate a line holds fixed. */
  function Fixed(l: RasterLine): real {
    match l
    case XLine(y, _, _, _) => y
    case YLine(x, _, _, _) => x
  }

  /** Where a line begins on the raster axis. */
  function StartOf(l: RasterLine): real {
    match l
    case XLine(_, xStart, _, _) => xStart
    case YLine(_, yStart, _, _) => yStart
  }

  /** Where a line ends on the raster axis. */
  function EndOf(l: RasterLine): real {
    match l
    case XLine(_, _, xEnd, _) => xEnd
    case YLine(_, _, yEnd, _) => yEnd
  }

  function RasterMin(dir: RasterDirection, b: Rect): real {
    if dir == RasterX then b.xMin else b.yMin
  }

  function RasterMax(dir: RasterDirection, b: Rect): real {
    if dir == RasterX then b.xMax else b.yMax
  }

  /**
   * The lines snake: line `i` sits at position `i`, is positive exactly
   * when `i` is even, runs min to max when positive and max to min when
   * negative, and ends where the next line starts.  Every line is of the
   * raster direction's variant.
   */
  lemma SnakeLines(dir: RasterDirection, b: Rect, positions: seq<real>)
    ensures var lines := RasterLines(dir, b, positions);
      && |lines| == |positions|
      && (forall i :: 0 <= i < |lines| ==>
            && lines[i].XLine? == (dir == RasterX)
            && Fixed(lines[i]) == positions[i]
            && (lines[i].direction == Positive <==> i % 2 == 0)
            && (lines[i].direction == Positive ==>
                  StartOf(lines[i]) == RasterMin(dir, b) && EndOf(lines[i]) == RasterMax(dir, b))
            && (lines[i].direction == Negative ==>
                  StartOf(lines[i]) == RasterMax(dir, b) && EndOf(lines[i]) == RasterMin(dir, b)))
      && (forall i :: 0 <= i < |lines| - 1 ==> EndOf(lines[i]) == StartOf(lines[i + 1]))
  {
  }

  // ---------------------------------------------------------------------
  // Passes
  // ---------------------------------------------------------------------

  /** The optional skim pass plus `numPasses` depth passes. */
  function TotalPasses(p: SurfacingParams): nat {
    p.numPasses + (if p.skimPass then 1 else 0)
  }

  /** How far below the top the `k`-th depth pass cuts. */
  function PassDepth(k: nat, depthPerPass: real): real {
    k as real * depthPerPass
  }

  /** Z of pass `i`: 0 for the skim pass, else minus its depth-pass number times the depth per pass. */
  function PassZ(p: SurfacingParams, i: nat): real {
    var adjusted := if p.skimPass then i else i + 1;
    if p.skimPass && i == 0 then 0.0 else -PassDepth(adjusted, p.depthPerPass)
  }

  /** A pause follows every `pauseInterval`-th pass, never the last one; interval 0 disables pauses. */
  predicate PauseAfter(p: SurfacingParams, i: nat) {
    p.pauseInterval > 0 && (i + 1) % p.pauseInterval == 0 && i < TotalPasses(p) - 1
  }

  /** The pass schedule, every pass cutting the same lines. */
  function PassPlan(p: SurfacingParams, lines: seq<RasterLine>): seq<ZPass> {
    seq(TotalPasses(p), i requires 0 <= i < TotalPasses(p) => ZPass(PassZ(p, i), lines, PauseAfter(p, i)))
  }

  function StockRect(p: SurfacingParams): Rect {
    Rect(0.0, p.stockWidth, 0.0, p.stockHeight)
  }

  /** The lines every pass cuts. */
  function PlannedLines(p: SurfacingParams): seq<RasterLine>
    requires PositionLoopEnds(p)
  {
    RasterLines(p.rasterDirection, TravelBounds(p),
                SteppedPositions(SteppingMin(p), SteppingMax(p), Stepover(p)))
  }

  /** The toolpath `calculateToolpath` returns for `p`. */
  function Plan(p: SurfacingParams): Toolpath
    requires PositionLoopEnds(p)
  {
    Toolpath(PassPlan(p, PlannedLines(p)), TravelBounds(p), StockRect(p), p)
  }

  /** `calculateToolpath`: the bounds, the position loop, then one pass per loop turn. */
  method CalculateToolpath(p: SurfacingParams) returns (t: Toolpath)
    requires PositionLoopEnds(p)
    ensures t == Plan(p)
  {
    var b := TravelBounds(p);
    var positions := LinePositions(SteppingMin(p), SteppingMax(p), Stepover(p));
    var passes: seq<ZPass> := [];
    var total := TotalPasses(p);
    for i := 0 to total
      invariant passes == PassPlan(p, PlannedLines(p))[..i]
    {
      var isSkimPass := p.skimPass && i == 0;
      var adjustedIndex := if p.skimPass then i else i + 1;
      var z := if isSkimPass then 0.0 else -(adjustedIndex as real * p.depthPerPass);
      var lines := RasterLines(p.rasterDirection, b, positions);
      var shouldPause := p.pauseInterval > 0 && (i + 1) % p.pauseInterval == 0 && i < total - 1;
      assert z == PassZ(p, i) && shouldPause == PauseAfter(p, i);
      assert PassPlan(p, PlannedLines(p))[..i + 1] == PassPlan(p, PlannedLines(p))[..i] + [ZPass(z, lines, shouldPause)];
      passes := passes + [ZPass(z, lines, shouldPause)];
    }
    t := Toolpath(passes, b, StockRect(p), p);
  }

  // ---------------------------------------------------------------------
  // Properties of the plan
  // ---------------------------------------------------------------------

  /**
   * The toolpath has one pass per scheduled pass, each cutting the planned
   * lines; it keeps the parameters and reports the unfudged stock as
   * [0, stockWidth] x [0, stockHeight], whatever the fudge and the tool.
   */
  lemma PlanShape(p: SurfacingParams)
    requires PositionLoopEnds(p)
    ensures var t := Plan(p);
      && |t.passes| == TotalPasses(p)
      && (forall i :: 0 <= i < |t.passes| ==> t.passes[i].lines == PlannedLines(p))
      && t.bounds == TravelBounds(p)
      && t.originalStockBounds == Rect(0.0, p.stockWidth, 0.0, p.stockHeight)
      && t.params == p
  {
  }

  /** Index of the `k`-th depth pass (1-based) in the schedule. */
  function DepthPassIndex(p: SurfacingParams, k: nat): nat
    requires k >= 1
  {
    if p.skimPass then k else k - 1
  }

  lemma PassDepthStep(k: nat, depth: real)
    ensures PassDepth(k + 1, depth) == PassDepth(k, depth) + depth
  {
  }

  /**
   * The skim pass, when enabled, is pass 0 at Z 0; the `k`-th depth pass
   * sits at `-k * depthPerPass`; with a positive depth per pass Z strictly
   * falls from each pass to the next.
   */
  lemma PassDepths(p: SurfacingParams, lines: seq<RasterLine>)
    ensures var passes := PassPlan(p, lines);
      && (p.skimPass ==> passes[0].z == 0.0)
      && (forall k :: 1 <= k <= p.numPasses ==>
            DepthPassIndex(p, k) < |passes| && passes[DepthPassIndex(p, k)].z == -PassDepth(k, p.depthPerPass))
      && (p.depthPerPass > 0.0 ==> forall i :: 0 <= i < |passes| - 1 ==> passes[i + 1].z < passes[i].z)
  {
    var passes := PassPlan(p, lines);
    if p.depthPerPass > 0.0 {
      forall i | 0 <= i < |passes| - 1
        ensures passes[i + 1].z < passes[i].z
      {
        var k := if p.skimPass then i else i + 1;
        PassDepthStep(k, p.depthPerPass);
        assert PassDepth(0, p.depthPerPass) == 0.0;
      }
    }
  }

  /** How many of `passes` are followed by a pause. */
  function PausedPasses(passes: seq<ZPass>): nat {
    if passes == [] then 0
    else PausedPasses(passes[..|passes| - 1]) + (if passes[|passes| - 1].pauseAfter then 1 else 0)
  }

  /** The multiples of `k` among 1..n. */
  function Multiples(n: nat, k: nat): nat
    requires k > 0
  {
    if n == 0 then 0 else Multiples(n - 1, k) + (if n % k == 0 then 1 else 0)
  }

  lemma DivStep(n: nat, k: nat)
    requires k > 0 && n > 0
    ensures n / k == (n - 1) / k + (if n % k == 0 then 1 else 0)
  {
    var q, r := (n - 1) / k, (n - 1) % k;
    assert n - 1 == q * k + r && 0 <= r < k;
    if r == k - 1 {
      assert n == (q + 1) * k;
      DivUnique(n, k, q + 1, 0);
    } else {
      assert n == q * k + (r + 1);
      DivUnique(n, k, q, r + 1);
    }
  }

  lemma DivUnique(n: int, k: int, q: int, r: int)
    requires k > 0 && 0 <= r < k && n == q * k + r
    ensures n / k == q && n % k == r
  {
    var q', r' := n / k, n % k;
    assert n == q' * k + r';
    assert (q - q') * k == r' - r;
    if q' < q {
      MulAtLeast(q - q', k);
    } else if q' > q {
      MulAtLeast(q' - q, k);
    }
  }

  lemma MulAtLeast(a: int, k: int)
    requires a >= 1 && k > 0
    ensures a * k >= k
  {
  }

  lemma {:induction false} MultiplesCount(n: nat, k: nat)
    requires k > 0
    ensures Multiples(n, k) == n / k
  {
    if n > 0 {
      MultiplesCount(n - 1, k);
      DivStep(n, k);
    }
  }

  lemma {:induction false} PausedPrefix(p: SurfacingParams, lines: seq<RasterLine>, n: nat)
    requires p.pauseInterval > 0 && n < TotalPasses(p)
    ensures PausedPasses(PassPlan(p, lines)[..n]) == Multiples(n, p.pauseInterval)
  {
    if n > 0 {
      var passes := PassPlan(p, lines);
      assert passes[..n][..n - 1] == passes[..n - 1];
      PausedPrefix(p, lines, n - 1);
    }
  }

  /**
   * Pauses: the last pass never pauses, interval 0 means no pause at all,
   * and otherwise a pause follows every `pauseInterval`-th pass, so there
   * are `(passes - 1) / pauseInterval` of them.
   */
  lemma PauseSchedule(p: SurfacingParams, lines: seq<RasterLine>)
    ensures var passes := PassPlan(p, lines);
      && (passes != [] ==> !passes[|passes| - 1].pauseAfter)
      && (p.pauseInterval == 0 ==> forall i :: 0 <= i < |passes| ==> !passes[i].pauseAfter)
      && (forall i :: 0 <= i < |passes| && passes[i].pauseAfter ==> (i + 1) % p.pauseInterval == 0)
      && PausedPasses(passes) == if p.pauseInterval == 0 || passes == [] then 0
                                 else (|passes| - 1) / p.pauseInterval
  {
    var passes := PassPlan(p, lines);
    if p.pauseInterval == 0 {
      NoPauses(passes);
    } else if passes != [] {
      var n := |passes| - 1;
      PausedPrefix(p, lines, n);
      MultiplesCount(n, p.pauseInterval);
      assert passes[..n] == passes[..|passes| - 1];
      assert passes[..|passes|] == passes;
    }
  }

  lemma {:induction false} NoPauses(passes: seq<ZPass>)
    requires forall i :: 0 <= i < |passes| ==> !passes[i].pauseAfter
    ensures PausedPasses(passes) == 0
  {
    if passes != [] {
      NoPauses(passes[..|passes| - 1]);
    }
  }

  /** Lower end of the fudged stock on the stepping axis. */
  function StockSteppingMin(p: SurfacingParams): real {
    var f := FudgedStock(p);
    if p.rasterDirection == RasterX then f.yMin else f.xMin
  }

  /** Upper end of the fudged stock on the stepping axis. */
  function StockSteppingMax(p: SurfacingParams): real {
    var f := FudgedStock(p);
    if p.rasterDirection == RasterX then f.yMax else f.xMax
  }

  /**
   * The travel bounds are centred on the stock; along the raster axis they
   * exceed the fudged stock by one bit diameter in all, across it by one
   * bit diameter less two stepovers.
   */
  lemma BoundsGeometry(p: SurfacingParams)
    ensures var b := TravelBounds(p);
      var f := FudgedStock(p);
      && b.xMin + b.xMax == p.stockWidth
      && b.yMin + b.yMax == p.stockHeight
      && RasterMax(p.rasterDirection, b) - RasterMin(p.rasterDirection, b)
           == RasterMax(p.rasterDirection, f) - RasterMin(p.rasterDirection, f) + p.bitDiameter
      && SteppingMax(p) - SteppingMin(p)
           == StockSteppingMax(p) - StockSteppingMin(p) + p.bitDiameter - 2.0 * Stepover(p)
  {
  }

  /**
   * Without fudge the raster axis runs from one bit radius before the stock
   * to one after it, and the stepping axis from minus the stepping overhang
   * to the stock size plus it.
   */
  lemma BoundsWithoutFudge(p: SurfacingParams)
    requires p.fudgeFactor == 0.0
    ensures var r, o := BitRadius(p), SteppingOverhang(p);
      TravelBounds(p) == match p.rasterDirection
        case RasterX => Rect(-r, p.stockWidth + r, -o, p.stockHeight + o)
        case RasterY => Rect(-o, p.stockWidth + o, -r, p.stockHeight + r)
  {
    assert FudgeAmount(p.stockWidth, 0.0) == 0.0;
    assert FudgeAmount(p.stockHeight, 0.0) == 0.0;
  }

  /** A 2" bit at 75% stepover on 10" x 5" stock rastering along Y starts and ends the stepping half an inch inside the stock. */
  lemma BoundsExample(p: SurfacingParams)
    requires p.stockWidth == 10.0 && p.stockHeight == 5.0 && p.fudgeFactor == 0.0
    requires p.bitDiameter == 2.0 && p.stepoverPercent == 75.0 && p.rasterDirection == RasterY
    ensures TravelBounds(p) == Rect(0.5, 9.5, -1.0, 6.0)
  {
    BoundsWithoutFudge(p);
  }

  /**
   * Without fudge the first line sits at minus the stepping overhang, so the
   * bit's edge reaches exactly one stepover into the stock.
   */
  lemma FirstLineCutsOneStepover(p: SurfacingParams)
    requires p.fudgeFactor == 0.0 && Stepover(p) > 0.0
    requires PlannedLines(p) != []
    ensures Fixed(PlannedLines(p)[0]) == -SteppingOverhang(p)
    ensures Fixed(PlannedLines(p)[0]) + BitRadius(p) == Stepover(p)
  {
    BoundsWithoutFudge(p);
    PositionsShape(SteppingMin(p), SteppingMax(p), Stepover(p));
    SnakeLines(p.rasterDirection, TravelBounds(p), SteppedPositions(SteppingMin(p), SteppingMax(p), Stepover(p)));
  }

  /**
   * There are no lines at all exactly when the fudged stock is narrower,
   * across the raster, than two stepovers less one bit diameter.
   */
  lemma NoLinesExactly(p: SurfacingParams)
    requires PositionLoopEnds(p)
    ensures PlannedLines(p) == [] <==>
      StockSteppingMax(p) - StockSteppingMin(p) < 2.0 * Stepover(p) - p.bitDiameter
  {
    BoundsGeometry(p);
    var lo, hi, step := SteppingMin(p), SteppingMax(p), Stepover(p);
    if step > 0.0 {
      PositionsShape(lo, hi, step);
    } else {
      assert Sweep(lo, hi, step) == [];
    }
  }

  /** Half-inch square stock under a 1" bit at full stepover gets no line. */
  lemma NarrowStockExample(p: SurfacingParams)
    requires p.stockWidth == 0.5 && p.stockHeight == 0.5 && p.fudgeFactor == 0.0
    requires p.bitDiameter == 1.0 && p.stepoverPercent == 100.0
    ensures PositionLoopEnds(p) && PlannedLines(p) == []
  {
    BoundsWithoutFudge(p);
    NoLinesExactly(p);
  }

  /** Neighbouring positions at most `2r` apart leave no point of [first - r, last + r] farther than `r` from one. */
  lemma {:induction false} GapsCovered(s: seq<real>, r: real, c: real)
    requires s != []
    requires forall i :: 0 <= i < |s| - 1 ==> s[i + 1] - s[i] <= 2.0 * r
    requires s[0] - r <= c <= s[|s| - 1] + r
    ensures exists i :: 0 <= i < |s| && s[i] - r <= c <= s[i] + r
  {
    if c <= s[0] + r {
      assert s[0] - r <= c <= s[0] + r;
    } else {
      var t := s[1..];
      assert t[|t| - 1] == s[|s| - 1];
      assert t[0] == s[1];
      GapsCovered(t, r, c);
      var j :| 0 <= j < |t| && t[j] - r <= c <= t[j] + r;
      assert s[j + 1] == t[j];
    }
  }

  /**
   * Coverage: with a stepover of at most one bit diameter, every point of
   * the fudged stock across the raster lies within one bit radius of a line.
   */
  lemma StockCovered(p: SurfacingParams, c: real)
    requires 0.0 < Stepover(p) <= p.bitDiameter
    requires SteppingMin(p) <= SteppingMax(p)
    requires StockSteppingMin(p) <= c <= StockSteppingMax(p)
    ensures var s := SteppedPositions(SteppingMin(p), SteppingMax(p), Stepover(p));
      exists i :: 0 <= i < |s| && s[i] - BitRadius(p) <= c <= s[i] + BitRadius(p)
  {
    var s := SteppedPositions(SteppingMin(p), SteppingMax(p), Stepover(p));
    PositionsShape(SteppingMin(p), SteppingMax(p), Stepover(p));
    assert forall i :: 0 <= i < |s| - 1 ==> s[i + 1] - s[i] <= 2.0 * BitRadius(p);
    GapsCovered(s, BitRadius(p), c);
  }
}
