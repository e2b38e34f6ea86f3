/**
 * The G-code serializer (src/gcode.ts): `fmt`, `generatePass` and
 * `generateGCode`.  Each output line is modelled as a `Command`, and
 * `Render` gives its exact text.
 */
module GCode {
  import opened Params
  import opened Decimal
  import opened Toolpath

  // ---------------------------------------------------------------------
  // Number formatting
  // ---------------------------------------------------------------------

  /** `fmt` as written: `toFixed(4)`, then the trailing zeros and a bare trailing dot removed. */
  function FmtAsWritten(x: real): string {
    StripZeros(ToFixed(x, 4))
  }

  /**
   * `fmt` with the sign of a value that rounds to zero dropped.  As
   * written, `toFixed(4)` prints such a negative value as "-0.0000", which
   * the strip leaves as "-0" (see Findings); every other value prints as
   * written (`FmtAgrees`).
   */
  function Fmt(x: real): string {
    var n := Magnitude(x, 4);
    StripZeros(FixedText(x < 0.0 && n != 0, n, 4))
  }

  /**
   * The text JavaScript gives a number in a template string, used for the
   * feed rates, the spindle speed and the comment values; modelled by the
   * four-place rendering, which agrees with it on every value with at most
   * four decimals.
   */
  function NumberText(x: real): string {
    Fmt(x)
  }

  /**
   * `fmt` never yields an empty text or one ending in '.', prints at most
   * four fraction digits and, when it prints a point, no trailing zero.
   */
  lemma FmtShape(x: real)
    ensures var s := Fmt(x);
      && s != []
      && s[|s| - 1] != '.'
      && (DotIndex(s) < |s| ==> 1 <= |s| - DotIndex(s) - 1 <= 4 && s[|s| - 1] != '0')
  {
    var s := Fmt(x);
    FourPlaceShape(x < 0.0 && Magnitude(x, 4) != 0, Magnitude(x, 4));
    assert FourPlaceText(s);
  }

  /** Non-empty, no bare trailing point, and at most four fraction digits without a trailing zero. */
  predicate FourPlaceText(s: string) {
    && s != []
    && s[|s| - 1] != '.'
    && (DotIndex(s) < |s| ==> 1 <= |s| - DotIndex(s) - 1 <= 4 && s[|s| - 1] != '0')
  }

  lemma FourPlaceShape(neg: bool, n: nat)
    ensures FourPlaceText(StripZeros(FixedText(neg, n, 4)))
  {
    TrimmedShape(neg, n, 4);
    NumeralShape(neg, IntDigits(n, 4), DropTrailingZeros(FracDigits(n, 4)));
  }

  /** `fmt` reads back as its input rounded half up to four places. */
  lemma FmtValue(x: real)
    ensures ParseDecimal(Fmt(x)) == Some(Rounded(x, 4))
  {
    TrimmedValue(x < 0.0 && Magnitude(x, 4) != 0, Magnitude(x, 4), 4);
    UnsignedZero(x);
  }

  /** Dropping the sign of a value that rounds to zero does not change the rounded value. */
  lemma UnsignedZero(x: real)
    ensures FixedValue(x < 0.0 && Magnitude(x, 4) != 0, Magnitude(x, 4), 4) == Rounded(x, 4)
  {
  }

  /** The corrected `fmt` differs from the one as written only on negative values that round to zero. */
  lemma FmtAgrees(x: real)
    requires x >= 0.0 || x <= -0.00005
    ensures Fmt(x) == FmtAsWritten(x)
  {
    assert Pow10(4) == 10000;
    if x < 0.0 {
      assert Abs(x) * 10000.0 >= 0.5;
    }
  }

  /** Rounding to four places keeps the magnitude, and keeps the sign unless the value rounds to zero. */
  lemma RoundedMagnitude(x: real)
    ensures Magnitude(Rounded(x, 4), 4) == Magnitude(x, 4)
    ensures Rounded(x, 4) < 0.0 <==> x < 0.0 && Magnitude(x, 4) != 0
  {
    var n, y := Magnitude(x, 4), Rounded(x, 4);
    assert Pow10(4) == 10000;
    assert Abs(y) * 10000.0 == n as real;
    GridMagnitude(y, n);
  }

  /**
   * `fmt` is idempotent: the value its text reads back as is formatted to
   * that same text.
   */
  lemma FmtIdempotent(x: real)
    ensures ParseDecimal(Fmt(x)).Some? && Fmt(ParseDecimal(Fmt(x)).value) == Fmt(x)
  {
    FmtValue(x);
    RoundedMagnitude(x);
  }

  /** As written, `fmt` is idempotent away from the negative values that round to zero. */
  lemma FmtAsWrittenIdempotent(x: real)
    requires x >= 0.0 || x <= -0.00005
    ensures FmtAsWritten(Rounded(x, 4)) == FmtAsWritten(x)
  {
    FmtAgrees(x);
    FmtValue(x);
    FmtIdempotent(x);
    RoundedSide(x);
    FmtAgrees(Rounded(x, 4));
  }

  /** Rounding to four places keeps a value out of the interval where the sign is lost. */
  lemma RoundedSide(x: real)
    requires x >= 0.0 || x <= -0.00005
    ensures Rounded(x, 4) >= 0.0 || Rounded(x, 4) <= -0.00005
  {
    var n := Magnitude(x, 4);
    assert Pow10(4) == 10000;
    if x < 0.0 {
      assert Abs(x) * 10000.0 >= 0.5;
      assert n >= 1;
    }
  }

  /** A whole value loses the point entirely. */
  lemma FmtWholeExample()
    ensures Fmt(2.0) == "2"
  {
    GridMagnitude(2.0, 20000);
    TrimmedShape(false, 20000, 4);
    WholeDigits();
  }

  lemma WholeDigits()
    ensures Numeral(false, IntDigits(20000, 4), DropTrailingZeros(FracDigits(20000, 4))) == "2"
  {
    WholeInteger();
    WholeFraction();
    assert Numeral(false, "2", []) == "2";
  }

  lemma WholeInteger()
    ensures IntDigits(20000, 4) == "2"
  {
    assert IntDigits(20000, 4) == NatToDigits(2);
    assert NatToDigits(2) == "2";
  }

  lemma WholeFraction()
    ensures DropTrailingZeros(FracDigits(20000, 4)) == []
  {
    assert FracDigits(20000, 4) == "0000";
    assert DropTrailingZeros("0000") == [];
  }

  /** A quarter keeps only its significant digits. */
  lemma FmtQuarterExample()
    ensures Fmt(1.25) == "1.25"
  {
    GridMagnitude(1.25, 12500);
    TrimmedShape(false, 12500, 4);
    QuarterDigits();
  }

  lemma QuarterDigits()
    ensures Numeral(false, IntDigits(12500, 4), DropTrailingZeros(FracDigits(12500, 4))) == "1.25"
  {
    QuarterWhole();
    QuarterFraction();
    assert Numeral(false, "1", "25") == "1.25";
  }

  lemma QuarterWhole()
    ensures IntDigits(12500, 4) == "1"
  {
    assert IntDigits(12500, 4) == NatToDigits(1);
    assert NatToDigits(1) == "1";
  }

  lemma QuarterFraction()
    ensures DropTrailingZeros(FracDigits(12500, 4)) == "25"
  {
    QuarterPlaces();
    QuarterTrim();
  }

  lemma QuarterPlaces()
    ensures FracDigits(12500, 4) == "2500"
  {
    assert FracDigits(12, 1) == "2";
    assert FracDigits(125, 2) == "2" + "5";
    assert FracDigits(1250, 3) == "25" + "0";
    assert FracDigits(12500, 4) == "250" + "0";
  }

  lemma QuarterTrim()
    ensures DropTrailingZeros("2500") == "25"
  {
    assert "2500"[..3] == "250";
    assert "250"[..2] == "25";
  }

  /** A value on the ten-thousandths grid is its own four-place magnitude. */
  lemma GridMagnitude(x: real, n: nat)
    requires Abs(x) * 10000.0 == n as real
    ensures Magnitude(x, 4) == n
  {
    assert Pow10(4) == 10000;
    RoundHalfUpOfInt(n);
  }

  /**
   * As written, a negative value that rounds to zero keeps its sign:
   * `toFixed` prints "-0.0000", which `fmt` trims to "-0".  The value that
   * text reads back as, zero, formats as "0", so formatting is not
   * idempotent there; the corrected `fmt` prints "0" at once.
   */
  lemma FmtNegativeZero()
    ensures FmtAsWritten(-0.00001) == "-0"
    ensures Rounded(-0.00001, 4) == 0.0 && FmtAsWritten(Rounded(-0.00001, 4)) == "0"
    ensures Fmt(-0.00001) == "0"
  {
    NegativeZeroAsWritten();
    TinyRounded();
    ZeroText();
    TinyCorrected();
  }

  lemma TinyMagnitude()
    ensures Magnitude(-0.00001, 4) == 0
  {
    assert Pow10(4) == 10000;
    assert Abs(-0.00001) * 10000.0 == 0.1;
    assert RoundHalfUp(0.1) == 0;
  }

  lemma NegativeZeroAsWritten()
    ensures FmtAsWritten(-0.00001) == "-0"
  {
    TinyMagnitude();
    TrimmedFixedShape(-0.00001, 4);
    NegativeZeroDigits();
  }

  lemma TinyRounded()
    ensures Rounded(-0.00001, 4) == 0.0
  {
    TinyMagnitude();
  }

  lemma TinyCorrected()
    ensures Fmt(-0.00001) == "0"
  {
    TinyMagnitude();
    TrimmedShape(false, 0, 4);
    ZeroDigits();
  }

  lemma NegativeZeroDigits()
    ensures Numeral(true, IntDigits(0, 4), DropTrailingZeros(FracDigits(0, 4))) == "-0"
  {
    ZeroDigits();
  }

  /** Zero, unsigned, formats as "0". */
  lemma ZeroText()
    ensures FmtAsWritten(0.0) == "0" && Fmt(0.0) == "0"
  {
    GridMagnitude(0.0, 0);
    TrimmedShape(false, 0, 4);
    ZeroDigits();
  }

  lemma ZeroDigits()
    ensures IntDigits(0, 4) == "0" && DropTrailingZeros(FracDigits(0, 4)) == []
    ensures Numeral(false, IntDigits(0, 4), DropTrailingZeros(FracDigits(0, 4))) == "0"
  {
    assert IntDigits(0, 4) == "0" by { assert NatToDigits(0) == "0"; }
    assert FracDigits(0, 4) == "0000";
    assert DropTrailingZeros("0000") == [];
  }

  // ---------------------------------------------------------------------
  // Commands
  // ---------------------------------------------------------------------

  datatype Axis = X | Y

  /** One output line of the program. */
  datatype Command =
    | Heading                                   // "; Surfacing operation"
    | StockNote(width: real, height: real)      // "; Stock: W\" x H\""
    | BitNote(diameter: real)                   // "; Bit: D\" fly cutter"
    | StepoverNote(percent: real)               // "; Stepover: P%"
    | Blank                                     // ""
    | Absolute                                  // "G90"
    | Inches                                    // "G20"
    | SpindleOn(rpm: real)                      // "M3 S<rpm>"
    | Retract(z: real)                          // "G0 Z<z>", to safe Z before the passes
    | MoveToStart(x: real, y: real)             // "G0 X<x> Y<y>"
    | PassNote(number: nat, z: real)            // "; Pass k at Z=<z>"
    | Rapid(axis: Axis, to: real)               // "G0 <axis><to>"
    | Plunge(z: real, rate: real)               // "G1 Z<z> F<rate>"
    | Cut(axis: Axis, to: real, feed: real)     // "G1 <axis><to> F<feed> ; Cut"
    | StepOver(axis: Axis, to: real, feed: real)  // "G1 <axis><to> F<feed> ; Stepover"
    | Pause                                     // "M0"
    | FinalRetract(z: real)                     // "G0 Z<z>", after the passes
    | SpindleOff                                // "M5"
    | ProgramEnd                                // "M30"

  function AxisText(a: Axis): string {
    match a
    case X => "X"
    case Y => "Y"
  }

  /** The exact text of each command. */
  function Render(c: Command): string {
    match c
    case Heading => "; Surfacing operation"
    case StockNote(w, h) => "; Stock: " + NumberText(w) + "\" x " + NumberText(h) + "\""
    case BitNote(d) => "; Bit: " + NumberText(d) + "\" fly cutter"
    case StepoverNote(pct) => "; Stepover: " + NumberText(pct) + "%"
    case Blank => ""
    case Absolute => "G90 ; Absolute positioning"
    case Inches => "G20 ; Inches"
    case SpindleOn(rpm) => "M3 S" + NumberText(rpm) + " ; Spindle on"
    case Retract(z) => "G0 Z" + Fmt(z) + " ; Retract to safe Z"
    case MoveToStart(x, y) => "G0 X" + Fmt(x) + " Y" + Fmt(y) + " ; Move to start"
    case PassNote(k, z) => "; Pass " + IntToText(k) + " at Z=" + Fmt(z)
    case Rapid(a, v) => "G0 " + AxisText(a) + Fmt(v)
    case Plunge(z, rate) => "G1 Z" + Fmt(z) + " F" + NumberText(rate) + " ; Plunge"
    case Cut(a, v, f) => "G1 " + AxisText(a) + Fmt(v) + " F" + NumberText(f) + " ; Cut"
    case StepOver(a, v, f) => "G1 " + AxisText(a) + Fmt(v) + " F" + NumberText(f) + " ; Stepover"
    case Pause => "M0 ; Pause - press resume to continue or stop to end"
    case FinalRetract(z) => "G0 Z" + Fmt(z) + " ; Final retract"
    case SpindleOff => "M5 ; Spindle off"
    case ProgramEnd => "M30 ; Program end"
  }

  function RenderAll(cs: seq<Command>): seq<string> {
    seq(|cs|, i requires 0 <= i < |cs| => Render(cs[i]))
  }

  lemma RenderAppend(a: seq<Command>, b: seq<Command>)
    ensures RenderAll(a + b) == RenderAll(a) + RenderAll(b)
  {
  }

  /** Commands that move the spindle along Z. */
  predicate MovesZ(c: Command) {
    c.Retract? || c.Plunge? || c.FinalRetract?
  }

  // ---------------------------------------------------------------------
  // One pass
  // ---------------------------------------------------------------------

  /** The axis cutting lines travel along. */
  function RasterAxis(dir: RasterDirection): Axis {
    if dir == RasterX then X else Y
  }

  /** The axis the bit steps over along. */
  function SteppingAxis(dir: RasterDirection): Axis {
    if dir == RasterX then Y else X
  }

  /** Every line is of the variant the raster direction reads. */
  predicate LinesMatch(dir: RasterDirection, lines: seq<RasterLine>) {
    forall i :: 0 <= i < |lines| ==> lines[i].XLine? == (dir == RasterX)
  }

  /**
   * The commands for line `i` of a pass: the first line is reached by two
   * rapids, then plunged into and cut; every later line is a stepover at
   * cutting depth and a cut.
   */
  function LineCommands(z: real, line: RasterLine, i: nat, feedRate: real, plungeRate: real,
                        dir: RasterDirection): seq<Command>
  {
    var step, raster := SteppingAxis(dir), RasterAxis(dir);
    if i == 0 then
      [Rapid(step, Fixed(line)), Rapid(raster, StartOf(line)), Plunge(z, plungeRate), Cut(raster, EndOf(line), feedRate)]
    else
      [StepOver(step, Fixed(line), feedRate), Cut(raster, EndOf(line), feedRate)]
  }

  /** The commands for the first `n` lines of a pass. */
  function PassPrefix(z: real, lines: seq<RasterLine>, n: nat, feedRate: real, plungeRate: real,
                      dir: RasterDirection): seq<Command>
    requires n <= |lines|
  {
    if n == 0 then []
    else PassPrefix(z, lines, n - 1, feedRate, plungeRate, dir)
         + LineCommands(z, lines[n - 1], n - 1, feedRate, plungeRate, dir)
  }

  /** The commands `generatePass` emits for a pass. */
  function PassCommands(pass: ZPass, feedRate: real, plungeRate: real, dir: RasterDirection): seq<Command> {
    PassPrefix(pass.z, pass.lines, |pass.lines|, feedRate, plungeRate, dir)
  }

  /** `generatePass`: one loop turn per line, branching on the raster direction. */
  method GeneratePass(pass: ZPass, safeZ: real, feedRate: real, plungeRate: real, dir: RasterDirection)
    returns (lines: seq<string>)
    requires LinesMatch(dir, pass.lines)
    ensures lines == RenderAll(PassCommands(pass, feedRate, plungeRate, dir))
  {
    lines := [];
    for i := 0 to |pass.lines|
      invariant lines == RenderAll(PassPrefix(pass.z, pass.lines, i, feedRate, plungeRate, dir))
    {
      var line := pass.lines[i];
      var emitted: seq<Command>;
      if dir == RasterX {
        if i == 0 {
          emitted := [Rapid(Y, line.y), Rapid(X, line.xStart), Plunge(pass.z, plungeRate), Cut(X, line.xEnd, feedRate)];
        } else {
          emitted := [StepOver(Y, line.y, feedRate), Cut(X, line.xEnd, feedRate)];
        }
      } else {
        if i == 0 {
          emitted := [Rapid(X, line.x), Rapid(Y, line.yStart), Plunge(pass.z, plungeRate), Cut(Y, line.yEnd, feedRate)];
        } else {
          emitted := [StepOver(X, line.x, feedRate), Cut(Y, line.yEnd, feedRate)];
        }
      }
      assert emitted == LineCommands(pass.z, line, i, feedRate, plungeRate, dir);
      RenderAppend(PassPrefix(pass.z, pass.lines, i, feedRate, plungeRate, dir), emitted);
      lines := lines + RenderAll(emitted);
    }
  }

  /**
   * Layout of the commands for `n >= 1` lines: two rapids to the first
   * line's entry point, the plunge, the first cut; then per later line a
   * stepover along the stepping axis to its position and a cut along the
   * raster axis to its end, both at the feed rate.
   */
  predicate LaidOut(cs: seq<Command>, z: real, lines: seq<RasterLine>, n: nat, feedRate: real,
                    plungeRate: real, dir: RasterDirection)
    requires 1 <= n <= |lines|
  {
    var step, raster := SteppingAxis(dir), RasterAxis(dir);
    && |cs| == 2 * n + 2
    && cs[0] == Rapid(step, Fixed(lines[0]))
    && cs[1] == Rapid(raster, StartOf(lines[0]))
    && cs[2] == Plunge(z, plungeRate)
    && cs[3] == Cut(raster, EndOf(lines[0]), feedRate)
    && (forall k :: 1 <= k < n ==>
          && cs[2 * k + 2] == StepOver(step, Fixed(lines[k]), feedRate)
          && cs[2 * k + 3] == Cut(raster, EndOf(lines[k]), feedRate))
  }

  /** The commands for the first `n` lines of a pass are laid out as above. */
  lemma {:induction false} PrefixLayout(z: real, lines: seq<RasterLine>, n: nat, feedRate: real,
                                        plungeRate: real, dir: RasterDirection)
    requires 1 <= n <= |lines|
    ensures LaidOut(PassPrefix(z, lines, n, feedRate, plungeRate, dir), z, lines, n, feedRate, plungeRate, dir)
  {
    if n > 1 {
      PrefixLayout(z, lines, n - 1, feedRate, plungeRate, dir);
      LayoutStep(PassPrefix(z, lines, n - 1, feedRate, plungeRate, dir),
                 PassPrefix(z, lines, n, feedRate, plungeRate, dir), z, lines, n, feedRate, plungeRate, dir);
    }
  }

  /** One more line appends its stepover and cut to a laid-out prefix. */
  lemma LayoutStep(prev: seq<Command>, cs: seq<Command>, z: real, lines: seq<RasterLine>, n: nat,
                   feedRate: real, plungeRate: real, dir: RasterDirection)
    requires 2 <= n <= |lines|
    requires LaidOut(prev, z, lines, n - 1, feedRate, plungeRate, dir)
    requires cs == prev + LineCommands(z, lines[n - 1], n - 1, feedRate, plungeRate, dir)
    ensures LaidOut(cs, z, lines, n, feedRate, plungeRate, dir)
  {
    assert forall i :: 0 <= i < |prev| ==> cs[i] == prev[i];
  }

  /** A pass with `n` lines emits `2n + 2` commands, one with no lines none. */
  lemma PassLayout(pass: ZPass, feedRate: real, plungeRate: real, dir: RasterDirection)
    ensures var cs := PassCommands(pass, feedRate, plungeRate, dir);
      var n := |pass.lines|;
      var step, raster := SteppingAxis(dir), RasterAxis(dir);
      && |cs| == (if n == 0 then 0 else 2 * n + 2)
      && (n > 0 ==>
            && cs[0] == Rapid(step, Fixed(pass.lines[0]))
            && cs[1] == Rapid(raster, StartOf(pass.lines[0]))
            && cs[2] == Plunge(pass.z, plungeRate)
            && cs[3] == Cut(raster, EndOf(pass.lines[0]), feedRate))
      && (forall k :: 1 <= k < n ==>
            && cs[2 * k + 2] == StepOver(step, Fixed(pass.lines[k]), feedRate)
            && cs[2 * k + 3] == Cut(raster, EndOf(pass.lines[k]), feedRate))
  {
    if pass.lines != [] {
      PrefixLayout(pass.z, pass.lines, |pass.lines|, feedRate, plungeRate, dir);
    }
  }

  /**
   * The only Z move in a pass is its single plunge, the third command;
   * everything after it is a cut or a stepover at cutting depth.
   */
  lemma PassSafety(pass: ZPass, feedRate: real, plungeRate: real, dir: RasterDirection)
    requires pass.lines != []
    ensures var cs := PassCommands(pass, feedRate, plungeRate, dir);
      && |cs| == 2 * |pass.lines| + 2
      && cs[2] == Plunge(pass.z, plungeRate)
      && (forall i :: 0 <= i < |cs| ==> (MovesZ(cs[i]) <==> i == 2))
      && (forall i :: 2 < i < |cs| ==> cs[i].Cut? || cs[i].StepOver?)
  {
    var cs := PassCommands(pass, feedRate, plungeRate, dir);
    PassLayout(pass, feedRate, plungeRate, dir);
    forall i | 3 < i < |cs|
      ensures cs[i].Cut? || cs[i].StepOver?
    {
      var k := (i - 2) / 2;
      assert 1 <= k < |pass.lines|;
      var line := pass.lines[k];
      assert cs[2 * k + 2].StepOver? && cs[2 * k + 3].Cut?;
      assert i == 2 * k + 2 || i == 2 * k + 3;
    }
  }

  // ---------------------------------------------------------------------
  // The pass as a two-state machine
  // ---------------------------------------------------------------------

  datatype PassState = AwaitingPlunge | Cutting

  /**
   * Before the plunge only rapids are allowed; the plunge starts cutting;
   * while cutting only cuts and stepovers are allowed.  Anything else is
   * rejected.
   */
  function Step(s: PassState, c: Command): Option<PassState> {
    match s
    case AwaitingPlunge =>
      if c.Rapid? then Some(AwaitingPlunge) else if c.Plunge? then Some(Cutting) else None
    case Cutting =>
      if c.Cut? || c.StepOver? then Some(Cutting) else None
  }

  function Run(s: PassState, cs: seq<Command>): Option<PassState> {
    if cs == [] then Some(s)
    else match Run(s, cs[..|cs| - 1])
      case None => None
      case Some(t) => Step(t, cs[|cs| - 1])
  }

  lemma {:induction false} RunAppend(s: PassState, a: seq<Command>, b: seq<Command>)
    ensures Run(s, a + b) == match Run(s, a)
      case None => None
      case Some(t) => Run(t, b)
  {
    if b == [] {
      assert a + b == a;
    } else {
      assert (a + b)[..|a + b| - 1] == a + b[..|b| - 1];
      RunAppend(s, a, b[..|b| - 1]);
      if Run(s, a).Some? {
        assert Run(s, a).value == Run(s, a).value;
      }
    }
  }

  /** Rapids before index `p`, a plunge at `p`, cuts and stepovers after it. */
  predicate PlungeAt(cs: seq<Command>, p: int) {
    && 0 <= p < |cs| && cs[p].Plunge?
    && (forall i :: 0 <= i < p ==> cs[i].Rapid?)
    && (forall i :: p < i < |cs| ==> cs[i].Cut? || cs[i].StepOver?)
  }

  /**
   * The machine accepts exactly rapids, then one plunge, then cuts and
   * stepovers: ending in `AwaitingPlunge` means only rapids were seen;
   * ending in `Cutting` means a single plunge with only rapids before it
   * and only cuts and stepovers after it.
   */
  lemma {:induction false} RunAccepts(cs: seq<Command>, t: PassState)
    requires Run(AwaitingPlunge, cs) == Some(t)
    ensures t == AwaitingPlunge ==> forall i :: 0 <= i < |cs| ==> cs[i].Rapid?
    ensures t == Cutting ==> exists p :: PlungeAt(cs, p)
  {
    if cs != [] {
      var init, c := cs[..|cs| - 1], cs[|cs| - 1];
      assert cs == init + [c];
      var u := Run(AwaitingPlunge, init).value;
      assert Step(u, c) == Some(t);
      RunAccepts(init, u);
      if u == Cutting {
        var p :| PlungeAt(init, p);
        CutExtends(init, c, p);
      } else if t == Cutting {
        PlungeExtends(init, c);
      } else {
        RapidExtends(init, c);
      }
    }
  }

  lemma RapidExtends(init: seq<Command>, c: Command)
    requires forall i :: 0 <= i < |init| ==> init[i].Rapid?
    requires c.Rapid?
    ensures forall i :: 0 <= i < |init + [c]| ==> (init + [c])[i].Rapid?
  {
  }

  lemma PlungeExtends(init: seq<Command>, c: Command)
    requires forall i :: 0 <= i < |init| ==> init[i].Rapid?
    requires c.Plunge?
    ensures PlungeAt(init + [c], |init|)
  {
  }

  lemma CutExtends(init: seq<Command>, c: Command, p: int)
    requires PlungeAt(init, p)
    requires c.Cut? || c.StepOver?
    ensures PlungeAt(init + [c], p)
  {
  }

  /** Every pass `generatePass` emits is accepted: a pass with lines ends cutting, an empty one never plunges. */
  lemma PassRun(pass: ZPass, feedRate: real, plungeRate: real, dir: RasterDirection)
    ensures Run(AwaitingPlunge, PassCommands(pass, feedRate, plungeRate, dir))
         == Some(if pass.lines == [] then AwaitingPlunge else Cutting)
  {
    PrefixRun(pass.z, pass.lines, |pass.lines|, feedRate, plungeRate, dir);
  }

  lemma {:induction false} PrefixRun(z: real, lines: seq<RasterLine>, n: nat, feedRate: real,
                                     plungeRate: real, dir: RasterDirection)
    requires n <= |lines|
    ensures Run(AwaitingPlunge, PassPrefix(z, lines, n, feedRate, plungeRate, dir))
         == Some(if n == 0 then AwaitingPlunge else Cutting)
  {
    if n > 0 {
      var a := PassPrefix(z, lines, n - 1, feedRate, plungeRate, dir);
      var b := LineCommands(z, lines[n - 1], n - 1, feedRate, plungeRate, dir);
      PrefixRun(z, lines, n - 1, feedRate, plungeRate, dir);
      RunAppend(AwaitingPlunge, a, b);
      if n == 1 {
        assert b[..1][..0] == [];
        assert Run(AwaitingPlunge, b[..1]) == Some(AwaitingPlunge);
        assert b[..2][..1] == b[..1];
        assert Run(AwaitingPlunge, b[..2]) == Some(AwaitingPlunge);
        assert b[..3][..2] == b[..2];
        assert Run(AwaitingPlunge, b[..3]) == Some(Cutting);
        assert b[..|b| - 1] == b[..3];
      } else {
        assert |b| == 2 && b[..|b| - 1] == b[..1];
        assert b[..1][..0] == [];
        assert Run(Cutting, b[..1]) == Some(Cutting);
      }
    }
  }

  // ---------------------------------------------------------------------
  // The whole program
  // ---------------------------------------------------------------------

  /**
   * The start of the first pass's first line, read through the fields the
   * raster direction names; a missing pass, line or field falls back to
   * the bounds' lower corner.
   */
  function StartPoint(t: Toolpath): (real, real) {
    var b := t.bounds;
    if t.passes == [] || t.passes[0].lines == [] then (b.xMin, b.yMin)
    else
      var l := t.passes[0].lines[0];
      match t.params.rasterDirection
      case RasterX => (if l.XLine? then l.xStart else b.xMin, if l.XLine? then l.y else b.yMin)
      case RasterY => (if l.YLine? then l.x else b.xMin, if l.YLine? then l.yStart else b.yMin)
  }

  /** Comments, modes, spindle start, the safe-Z retract and the move to the start point. */
  function Preamble(t: Toolpath): seq<Command> {
    var p := t.params;
    var (sx, sy) := StartPoint(t);
    [Heading, StockNote(p.stockWidth, p.stockHeight), BitNote(p.bitDiameter),
     StepoverNote(p.stepoverPercent), Blank, Absolute, Inches, SpindleOn(p.spindleRpm),
     Retract(SafeZ(p)), MoveToStart(sx, sy), Blank]
  }

  /** Pass `i`: its comment, its moves, a pause when flagged, a blank line. */
  function PassBlock(t: Toolpath, i: nat): seq<Command>
    requires i < |t.passes|
  {
    var p, pass := t.params, t.passes[i];
    [PassNote(i + 1, pass.z)]
      + PassCommands(pass, p.feedRate, p.plungeRate, p.rasterDirection)
      + (if pass.pauseAfter then [Pause] else [])
      + [Blank]
  }

  /** The blocks of the first `n` passes. */
  function Blocks(t: Toolpath, n: nat): seq<Command>
    requires n <= |t.passes|
  {
    if n == 0 then [] else Blocks(t, n - 1) + PassBlock(t, n - 1)
  }

  /** Final retract, spindle off, program end. */
  function Postamble(t: Toolpath): seq<Command> {
    [FinalRetract(SafeZ(t.params)), SpindleOff, ProgramEnd]
  }

  function ProgramCommands(t: Toolpath): seq<Command> {
    Preamble(t) + Blocks(t, |t.passes|) + Postamble(t)
  }

  /** `lines.join('\n')`. */
  function JoinLines(lines: seq<string>): string {
    if lines == [] then ""
    else if |lines| == 1 then lines[0]
    else JoinLines(lines[..|lines| - 1]) + "\n" + lines[|lines| - 1]
  }

  /** Every pass's lines are of the variant the raster direction reads. */
  predicate Serializable(t: Toolpath) {
    forall i :: 0 <= i < |t.passes| ==> LinesMatch(t.params.rasterDirection, t.passes[i].lines)
  }

  /** `generateGCode`: preamble, one block per pass, postamble, joined by newlines. */
  method GenerateGCode(t: Toolpath) returns (text: string)
    requires Serializable(t)
    ensures text == JoinLines(RenderAll(ProgramCommands(t)))
  {
    var p := t.params;
    var lines := RenderAll(Preamble(t));  // the eleven preamble pushes

    for i := 0 to |t.passes|
      invariant lines == RenderAll(Preamble(t) + Blocks(t, i))
    {
      var block := EmitPass(t, i);
      BlockLines(t, i, lines, block);
      lines := lines + block;
    }

    ghost var body := lines;
    lines := lines + [Render(FinalRetract(SafeZ(p)))];
    lines := lines + [Render(SpindleOff)];
    lines := lines + [Render(ProgramEnd)];
    PostambleLines(t, body);
    text := JoinLines(lines);
  }

  /** Appending pass `i`'s lines extends the rendered program by one block. */
  lemma BlockLines(t: Toolpath, i: nat, lines: seq<string>, block: seq<string>)
    requires i < |t.passes|
    requires lines == RenderAll(Preamble(t) + Blocks(t, i)) && block == RenderAll(PassBlock(t, i))
    ensures lines + block == RenderAll(Preamble(t) + Blocks(t, i + 1))
  {
    RenderAppend(Preamble(t) + Blocks(t, i), PassBlock(t, i));
    assert Preamble(t) + Blocks(t, i + 1) == (Preamble(t) + Blocks(t, i)) + PassBlock(t, i);
  }

  /** The three closing pushes complete the rendered program. */
  lemma PostambleLines(t: Toolpath, body: seq<string>)
    requires body == RenderAll(Preamble(t) + Blocks(t, |t.passes|))
    ensures body + [Render(FinalRetract(SafeZ(t.params)))] + [Render(SpindleOff)] + [Render(ProgramEnd)]
         == RenderAll(ProgramCommands(t))
  {
    RenderAppend(Preamble(t) + Blocks(t, |t.passes|), Postamble(t));
  }

  // ---------------------------------------------------------------------
  // The safe Z as written
  // ---------------------------------------------------------------------

  /** A numeric field as JavaScript reads it off the job record. */
  datatype FieldValue = Undefined | Number(v: real)

  /**
   * The record's `safeZ`: the job type declares no such field, the
   * defaults do not set it and the merge does not add it, so it reads as
   * `undefined` on every job.
   */
  function SafeZField(p: SurfacingParams): FieldValue {
    Undefined
  }

  /** `fmt` applied to a field: `undefined.toFixed` throws a TypeError, modelled as `None`. */
  function FmtField(x: FieldValue): Option<string> {
    match x
    case Undefined => None
    case Number(v) => Some(FmtAsWritten(v))
  }

  /** The safe-Z retract line `generateGCode` pushes as written, or `None` when it throws. */
  function RetractLineAsWritten(p: SurfacingParams): Option<string> {
    match FmtField(SafeZField(p))
    case None => None
    case Some(z) => Some("G0 Z" + z + " ; Retract to safe Z")
  }

  /**
   * As written, the ninth push of the preamble throws on every job, so
   * `generateGCode` never returns a program.
   */
  lemma SafeZThrows(p: SurfacingParams)
    ensures RetractLineAsWritten(p) == None
  {
  }

  /**
   * The model's serializer retracts to the job's retract height, both
   * before the first pass and at the end.
   */
  lemma SafeZRetracts(t: Toolpath)
    ensures var ls := RenderAll(ProgramCommands(t));
      var z := Fmt(t.params.retractHeight);
      && |ls| >= 14
      && ls[8] == "G0 Z" + z + " ; Retract to safe Z"
      && ls[|ls| - 3] == "G0 Z" + z + " ; Final retract"
  {
    ProgramOpening(t);
    ProgramClosing(t);
  }

  /** The `forEach` callback of `generateGCode`: the lines for pass `i`. */
  method EmitPass(t: Toolpath, i: nat) returns (block: seq<string>)
    requires Serializable(t) && i < |t.passes|
    ensures block == RenderAll(PassBlock(t, i))
  {
    var p, pass := t.params, t.passes[i];
    block := [Render(PassNote(i + 1, pass.z))];
    var passLines := GeneratePass(pass, SafeZ(p), p.feedRate, p.plungeRate, p.rasterDirection);
    block := block + passLines;
    if pass.pauseAfter {
      block := block + [Render(Pause)];
    }
    block := block + [Render(Blank)];
    PassBlockLines(t, i, passLines);
  }

  /** The pass comment, the pass's lines, the optional M0 and the blank line render the pass block. */
  lemma PassBlockLines(t: Toolpath, i: nat, passLines: seq<string>)
    requires i < |t.passes|
    requires var p := t.params;
      passLines == RenderAll(PassCommands(t.passes[i], p.feedRate, p.plungeRate, p.rasterDirection))
    ensures [Render(PassNote(i + 1, t.passes[i].z))] + passLines
            + (if t.passes[i].pauseAfter then [Render(Pause)] else []) + [Render(Blank)]
         == RenderAll(PassBlock(t, i))
  {
    var p, pass := t.params, t.passes[i];
    var note, cs := [PassNote(i + 1, pass.z)], PassCommands(pass, p.feedRate, p.plungeRate, p.rasterDirection);
    var pause: seq<Command> := if pass.pauseAfter then [Pause] else [];
    assert PassBlock(t, i) == note + cs + pause + [Blank];
    RenderAppend(note, cs);
    RenderAppend(note + cs, pause);
    RenderAppend(note + cs + pause, [Blank]);
    assert RenderAll(note) == [Render(PassNote(i + 1, pass.z))];
    assert RenderAll(pause) == if pass.pauseAfter then [Render(Pause)] else [];
    assert RenderAll([Blank]) == [Render(Blank)];
  }

  lemma RenderSnoc(cs: seq<Command>, c: Command)
    ensures RenderAll(cs + [c]) == RenderAll(cs) + [Render(c)]
  {
  }

  // ---------------------------------------------------------------------
  // Properties of the program
  // ---------------------------------------------------------------------

  /** How many of `cs` satisfy `f`. */
  function CountWhere(cs: seq<Command>, f: Command -> bool): nat {
    if cs == [] then 0 else CountWhere(cs[..|cs| - 1], f) + (if f(cs[|cs| - 1]) then 1 else 0)
  }

  lemma {:induction false} CountAppend(a: seq<Command>, b: seq<Command>, f: Command -> bool)
    ensures CountWhere(a + b, f) == CountWhere(a, f) + CountWhere(b, f)
  {
    if b == [] {
      assert a + b == a;
    } else {
      assert (a + b)[..|a + b| - 1] == a + b[..|b| - 1];
      CountAppend(a, b[..|b| - 1], f);
    }
  }

  lemma {:induction false} CountNone(cs: seq<Command>, f: Command -> bool)
    requires forall i :: 0 <= i < |cs| ==> !f(cs[i])
    ensures CountWhere(cs, f) == 0
  {
    if cs != [] {
      CountNone(cs[..|cs| - 1], f);
    }
  }

  predicate IsAbsolute(c: Command) { c.Absolute? }
  predicate IsInches(c: Command) { c.Inches? }
  predicate IsSpindleOn(c: Command) { c.SpindleOn? }
  predicate IsSpindleOff(c: Command) { c.SpindleOff? }
  predicate IsProgramEnd(c: Command) { c.ProgramEnd? }
  predicate IsPause(c: Command) { c.Pause? }
  predicate IsRetract(c: Command) { c.Retract? }
  predicate IsFinalRetract(c: Command) { c.FinalRetract? }

  /** Commands that can appear inside a pass block. */
  predicate InBlock(c: Command) {
    c.PassNote? || c.Rapid? || c.Plunge? || c.Cut? || c.StepOver? || c.Pause? || c.Blank?
  }

  /** A pass emits only rapids, its plunge, cuts and stepovers. */
  lemma PassKinds(pass: ZPass, feedRate: real, plungeRate: real, dir: RasterDirection)
    ensures var cs := PassCommands(pass, feedRate, plungeRate, dir);
      forall i :: 0 <= i < |cs| ==> cs[i].Rapid? || cs[i].Plunge? || cs[i].Cut? || cs[i].StepOver?
  {
    if pass.lines != [] {
      PassLayout(pass, feedRate, plungeRate, dir);
      PassSafety(pass, feedRate, plungeRate, dir);
    }
  }

  lemma {:induction false} BlocksKinds(t: Toolpath, n: nat)
    requires n <= |t.passes|
    ensures forall i :: 0 <= i < |Blocks(t, n)| ==> InBlock(Blocks(t, n)[i])
  {
    if n > 0 {
      BlocksKinds(t, n - 1);
      var p := t.params;
      PassKinds(t.passes[n - 1], p.feedRate, p.plungeRate, p.rasterDirection);
    }
  }

  /** A program is its eleven-line preamble, then pass-block commands only, then its three-line postamble. */
  lemma ProgramParts(t: Toolpath)
    ensures var cs := ProgramCommands(t);
      && |cs| == 14 + |Blocks(t, |t.passes|)|
      && (forall i :: 0 <= i < 11 ==> cs[i] == Preamble(t)[i])
      && (forall i :: 11 <= i < |cs| - 3 ==> InBlock(cs[i]))
      && (forall i :: |cs| - 3 <= i < |cs| ==> cs[i] == Postamble(t)[i - (|cs| - 3)])
  {
    var pre, body, post := Preamble(t), Blocks(t, |t.passes|), Postamble(t);
    BlocksKinds(t, |t.passes|);
    var cs := ProgramCommands(t);
    assert forall i :: 11 <= i < |cs| - 3 ==> cs[i] == body[i - 11];
  }

  /**
   * The frame of every program: G90, G20, the spindle start and the safe-Z
   * retract open it, before any pass; the final retract, M5 and M30 close it.
   */
  lemma ProgramFrame(t: Toolpath)
    ensures var cs := ProgramCommands(t);
      var p := t.params;
      && |cs| >= 14
      && cs[5] == Absolute && cs[6] == Inches && cs[7] == SpindleOn(p.spindleRpm)
      && cs[8] == Retract(SafeZ(p))
      && cs[|cs| - 3] == FinalRetract(SafeZ(p)) && cs[|cs| - 2] == SpindleOff && cs[|cs| - 1] == ProgramEnd
      && (forall i :: 0 <= i < |cs| && (cs[i].PassNote? || cs[i].Plunge? || cs[i].Cut?) ==> 10 < i < |cs| - 3)
  {
    ProgramOpening(t);
    ProgramClosing(t);
    PassMovesInside(t);
  }

  lemma ProgramOpening(t: Toolpath)
    ensures var cs := ProgramCommands(t);
      && |cs| >= 14
      && cs[5] == Absolute && cs[6] == Inches && cs[7] == SpindleOn(t.params.spindleRpm)
      && cs[8] == Retract(SafeZ(t.params))
  {
    PreambleLeads(t);
    var pre := Preamble(t);
    assert pre[5] == Absolute && pre[6] == Inches && pre[7] == SpindleOn(t.params.spindleRpm)
        && pre[8] == Retract(SafeZ(t.params));
  }

  lemma PreambleLeads(t: Toolpath)
    ensures |ProgramCommands(t)| >= 14 && ProgramCommands(t)[..11] == Preamble(t)
  {
    assert ProgramCommands(t) == Preamble(t) + (Blocks(t, |t.passes|) + Postamble(t));
  }

  lemma ProgramClosing(t: Toolpath)
    ensures var cs := ProgramCommands(t);
      && |cs| >= 14
      && cs[|cs| - 3] == FinalRetract(SafeZ(t.params)) && cs[|cs| - 2] == SpindleOff && cs[|cs| - 1] == ProgramEnd
  {
    ProgramParts(t);
  }

  lemma PassMovesInside(t: Toolpath)
    ensures var cs := ProgramCommands(t);
      forall i :: 0 <= i < |cs| && (cs[i].PassNote? || cs[i].Plunge? || cs[i].Cut?) ==> 10 < i < |cs| - 3
  {
    ProgramParts(t);
  }


  /** Each of G90, G20, M3, M5 and M30 occurs exactly once. */
  lemma ProgramCounts(t: Toolpath)
    ensures var cs := ProgramCommands(t);
      && CountWhere(cs, IsAbsolute) == 1
      && CountWhere(cs, IsInches) == 1
      && CountWhere(cs, IsSpindleOn) == 1
      && CountWhere(cs, IsSpindleOff) == 1
      && CountWhere(cs, IsProgramEnd) == 1
  {
    AbsoluteOnce(t);
    InchesOnce(t);
    SpindleOnOnce(t);
    SpindleOffOnce(t);
    ProgramEndOnce(t);
  }

  /**
   * The bit rises to the safe Z only twice in a program: once before the
   * first pass and once at the end.  No pass block retracts, so each pass
   * after the first rapids to its start at the depth of the pass before.
   */
  lemma RetractsOnce(t: Toolpath)
    ensures CountWhere(ProgramCommands(t), IsRetract) == 1
    ensures CountWhere(ProgramCommands(t), IsFinalRetract) == 1
    ensures forall c :: InBlock(c) ==> !c.Retract? && !c.FinalRetract?
  {
    RetractOnce(t);
    FinalRetractOnce(t);
  }

  lemma RetractOnce(t: Toolpath)
    ensures CountWhere(ProgramCommands(t), IsRetract) == 1
  {
    OpeningOnce(t, 8, IsRetract);
  }

  lemma FinalRetractOnce(t: Toolpath)
    ensures CountWhere(ProgramCommands(t), IsFinalRetract) == 1
  {
    ClosingOnce(t, 0, IsFinalRetract);
  }

  lemma AbsoluteOnce(t: Toolpath)
    ensures CountWhere(ProgramCommands(t), IsAbsolute) == 1
  {
    OpeningOnce(t, 5, IsAbsolute);
  }

  lemma InchesOnce(t: Toolpath)
    ensures CountWhere(ProgramCommands(t), IsInches) == 1
  {
    OpeningOnce(t, 6, IsInches);
  }

  lemma SpindleOnOnce(t: Toolpath)
    ensures CountWhere(ProgramCommands(t), IsSpindleOn) == 1
  {
    OpeningOnce(t, 7, IsSpindleOn);
  }

  lemma SpindleOffOnce(t: Toolpath)
    ensures CountWhere(ProgramCommands(t), IsSpindleOff) == 1
  {
    ClosingOnce(t, 1, IsSpindleOff);
  }

  lemma ProgramEndOnce(t: Toolpath)
    ensures CountWhere(ProgramCommands(t), IsProgramEnd) == 1
  {
    ClosingOnce(t, 2, IsProgramEnd);
  }

  lemma OpeningOnce(t: Toolpath, k: nat, f: Command -> bool)
    requires k < 11 && f(Preamble(t)[k])
    requires forall c :: InBlock(c) ==> !f(c)
    requires forall i :: 0 <= i < 11 && i != k ==> !f(Preamble(t)[i])
    requires forall j :: 0 <= j < 3 ==> !f(Postamble(t)[j])
    ensures CountWhere(ProgramCommands(t), f) == 1
  {
    ProgramParts(t);
    OnceInProgram(t, k, f);
  }

  lemma ClosingOnce(t: Toolpath, k: nat, f: Command -> bool)
    requires k < 3 && f(Postamble(t)[k])
    requires forall c :: InBlock(c) ==> !f(c)
    requires forall i :: 0 <= i < 11 ==> !f(Preamble(t)[i])
    requires forall j :: 0 <= j < 3 && j != k ==> !f(Postamble(t)[j])
    ensures CountWhere(ProgramCommands(t), f) == 1
  {
    ProgramParts(t);
    OnceInProgram(t, |ProgramCommands(t)| - 3 + k, f);
  }

  lemma OnceInProgram(t: Toolpath, k: nat, f: Command -> bool)
    requires k < |ProgramCommands(t)| && f(ProgramCommands(t)[k])
    requires forall c :: InBlock(c) ==> !f(c)
    requires forall i :: 0 <= i < 11 && i != k ==> !f(Preamble(t)[i])
    requires forall j :: 0 <= j < 3 && j + |ProgramCommands(t)| - 3 != k ==> !f(Postamble(t)[j])
    ensures CountWhere(ProgramCommands(t), f) == 1
  {
    var cs := ProgramCommands(t);
    ProgramParts(t);
    forall i | 0 <= i < |cs| && i != k
      ensures !f(cs[i])
    {
      if i >= |cs| - 3 {
        var j := i - (|cs| - 3);
        assert cs[i] == Postamble(t)[j];
      }
    }
    CountOnce(cs, k, f);
  }

  lemma CountOnce(cs: seq<Command>, k: nat, f: Command -> bool)
    requires k < |cs| && f(cs[k])
    requires forall i :: 0 <= i < |cs| && i != k ==> !f(cs[i])
    ensures CountWhere(cs, f) == 1
  {
    var a, b := cs[..k], cs[k + 1..];
    assert cs == a + [cs[k]] + b;
    CountNone(a, f);
    CountNone(b, f);
    CountAppend(a + [cs[k]], b, f);
    CountAppend(a, [cs[k]], f);
    assert [cs[k]][..0] == [];
  }

  // ---------------------------------------------------------------------
  // Pauses
  // ---------------------------------------------------------------------

  /** A pass block holds one M0 exactly when its pass is flagged. */
  lemma BlockPauses(t: Toolpath, i: nat)
    requires i < |t.passes|
    ensures CountWhere(PassBlock(t, i), IsPause) == if t.passes[i].pauseAfter then 1 else 0
  {
    var p, pass := t.params, t.passes[i];
    var note, cs := [PassNote(i + 1, pass.z)], PassCommands(pass, p.feedRate, p.plungeRate, p.rasterDirection);
    var tail: seq<Command> := if pass.pauseAfter then [Pause] else [];
    PassKinds(pass, p.feedRate, p.plungeRate, p.rasterDirection);
    CountNone(note, IsPause);
    CountNone(cs, IsPause);
    CountNone([Blank], IsPause);
    CountAppend(note, cs, IsPause);
    CountAppend(note + cs, tail, IsPause);
    CountAppend(note + cs + tail, [Blank], IsPause);
    assert [Pause][..0] == [];
  }

  lemma {:induction false} BlocksPauses(t: Toolpath, n: nat)
    requires n <= |t.passes|
    ensures CountWhere(Blocks(t, n), IsPause) == PausedPasses(t.passes[..n])
  {
    if n > 0 {
      BlocksPauses(t, n - 1);
      NextBlockPauses(t, n);
    }
  }

  lemma NextBlockPauses(t: Toolpath, n: nat)
    requires 0 < n <= |t.passes|
    requires CountWhere(Blocks(t, n - 1), IsPause) == PausedPasses(t.passes[..n - 1])
    ensures CountWhere(Blocks(t, n), IsPause) == PausedPasses(t.passes[..n])
  {
    BlocksSnoc(t, n);
    BlockPauses(t, n - 1);
    PausedPrefix(t.passes, n);
    CountJoin(Blocks(t, n), Blocks(t, n - 1), PassBlock(t, n - 1), IsPause,
              PausedPasses(t.passes[..n - 1]), if t.passes[n - 1].pauseAfter then 1 else 0);
  }

  lemma CountJoin(whole: seq<Command>, a: seq<Command>, b: seq<Command>, f: Command -> bool, x: nat, y: nat)
    requires whole == a + b && CountWhere(a, f) == x && CountWhere(b, f) == y
    ensures CountWhere(whole, f) == x + y
  {
    CountAppend(a, b, f);
  }

  lemma BlocksSnoc(t: Toolpath, n: nat)
    requires 0 < n <= |t.passes|
    ensures Blocks(t, n) == Blocks(t, n - 1) + PassBlock(t, n - 1)
  {
  }

  lemma PausedPrefix(passes: seq<ZPass>, n: nat)
    requires 0 < n <= |passes|
    ensures PausedPasses(passes[..n])
         == PausedPasses(passes[..n - 1]) + (if passes[n - 1].pauseAfter then 1 else 0)
  {
    assert passes[..n][..n - 1] == passes[..n - 1];
  }

  /** The program holds one M0 per pass flagged `pauseAfter`, and no other. */
  lemma PauseCount(t: Toolpath)
    ensures CountWhere(ProgramCommands(t), IsPause) == PausedPasses(t.passes)
  {
    var pre, body, post := Preamble(t), Blocks(t, |t.passes|), Postamble(t);
    BlocksPauses(t, |t.passes|);
    assert t.passes[..|t.passes|] == t.passes;
    CountNone(pre, IsPause);
    CountNone(post, IsPause);
    CountAppend(pre, body, IsPause);
    CountAppend(pre + body, post, IsPause);
  }

  /** A planned job stops `(passes - 1) / pauseInterval` times, and never when the interval is 0. */
  lemma PlanPauseCount(p: SurfacingParams)
    requires PositionLoopEnds(p)
    ensures CountWhere(ProgramCommands(Plan(p)), IsPause)
         == if p.pauseInterval == 0 || TotalPasses(p) == 0 then 0 else (TotalPasses(p) - 1) / p.pauseInterval
  {
    PauseCount(Plan(p));
    PauseSchedule(p, PlannedLines(p));
  }

  /**
   * In a block with lines, the last cut is followed by the M0 when the pass
   * is flagged, and then by the block's closing blank line.
   */
  lemma PauseFollowsLastCut(t: Toolpath, i: nat)
    requires i < |t.passes| && t.passes[i].lines != []
    ensures var b, pass, p := PassBlock(t, i), t.passes[i], t.params;
      var n := |pass.lines|;
      && |b| >= 2 * n + 4
      && b[2 * n + 2] == Cut(RasterAxis(p.rasterDirection), EndOf(pass.lines[n - 1]), p.feedRate)
      && b[2 * n + 3..] == if pass.pauseAfter then [Pause, Blank] else [Blank]
  {
    var p, pass := t.params, t.passes[i];
    var n := |pass.lines|;
    var cs := PassCommands(pass, p.feedRate, p.plungeRate, p.rasterDirection);
    PassLayout(pass, p.feedRate, p.plungeRate, p.rasterDirection);
    assert cs[2 * n + 1] == Cut(RasterAxis(p.rasterDirection), EndOf(pass.lines[n - 1]), p.feedRate) by {
      if n > 1 {
        assert cs[2 * (n - 1) + 3] == Cut(RasterAxis(p.rasterDirection), EndOf(pass.lines[n - 1]), p.feedRate);
      }
    }
    var b := PassBlock(t, i);
    assert b[2 * n + 2] == cs[2 * n + 1];
  }

  // ---------------------------------------------------------------------
  // Start point and the planned job
  // ---------------------------------------------------------------------

  /**
   * The move to start goes to the bounds' lower corner when there is
   * nothing to cut; otherwise to the first line's entry point, the very
   * point the first pass's two opening rapids reach.
   */
  lemma StartPointRule(t: Toolpath)
    requires Serializable(t)
    ensures var s, dir := StartPoint(t), t.params.rasterDirection;
      if t.passes == [] || t.passes[0].lines == [] then s == (t.bounds.xMin, t.bounds.yMin)
      else
        var p, l := t.params, t.passes[0].lines[0];
        var cs := PassCommands(t.passes[0], p.feedRate, p.plungeRate, dir);
        && s == (if dir == RasterX then (StartOf(l), Fixed(l)) else (Fixed(l), StartOf(l)))
        && cs[0] == Rapid(SteppingAxis(dir), if dir == RasterX then s.1 else s.0)
        && cs[1] == Rapid(RasterAxis(dir), if dir == RasterX then s.0 else s.1)
  {
    if t.passes != [] && t.passes[0].lines != [] {
      var p := t.params;
      PassLayout(t.passes[0], p.feedRate, p.plungeRate, p.rasterDirection);
      assert t.passes[0].lines[0].XLine? == (p.rasterDirection == RasterX);
    }
  }

  /** Every job `calculateToolpath` plans can be serialized: its lines match its direction. */
  lemma PlanSerializable(p: SurfacingParams)
    requires PositionLoopEnds(p)
    ensures Serializable(Plan(p))
  {
    PlanShape(p);
    SnakeLines(p.rasterDirection, TravelBounds(p), SteppedPositions(SteppingMin(p), SteppingMax(p), Stepover(p)));
  }

  /**
   * In every pass of a planned job, the cut of line `k` runs to the far
   * raster bound when `k` is even and back to the near one when it is odd,
   * and the stepover before it moves to the `k`-th stepping position.
   */
  lemma PlanCutsSnake(p: SurfacingParams, i: nat, k: nat)
    requires PositionLoopEnds(p) && i < TotalPasses(p) && k < |PlannedLines(p)|
    ensures var dir, b := p.rasterDirection, TravelBounds(p);
      var cs := PassCommands(Plan(p).passes[i], p.feedRate, p.plungeRate, dir);
      && |cs| > 2 * k + 3
      && cs[2 * k + 3] == Cut(RasterAxis(dir), if k % 2 == 0 then RasterMax(dir, b) else RasterMin(dir, b), p.feedRate)
      && (k > 0 ==> cs[2 * k + 2]
                    == StepOver(SteppingAxis(dir), SteppedPositions(SteppingMin(p), SteppingMax(p), Stepover(p))[k], p.feedRate))
  {
    var dir, b := p.rasterDirection, TravelBounds(p);
    var positions := SteppedPositions(SteppingMin(p), SteppingMax(p), Stepover(p));
    PlanShape(p);
    SnakeLines(dir, b, positions);
    var pass := Plan(p).passes[i];
    assert pass.lines == PlannedLines(p);
    PassLayout(pass, p.feedRate, p.plungeRate, dir);
    var l := pass.lines[k];
    assert Fixed(l) == positions[k];
    assert l.direction == Positive <==> k % 2 == 0;
  }

  // ---------------------------------------------------------------------
  // The text
  // ---------------------------------------------------------------------

  /** The program text always ends with the M5 line and then the M30 line (`M5 ; Spindle off`, `M30 ; Program end`). */
  lemma ProgramEnding(t: Toolpath)
    ensures var text := JoinLines(RenderAll(ProgramCommands(t)));
      var tail := "\n" + Render(SpindleOff) + "\n" + Render(ProgramEnd);
      |text| >= |tail| && text[|text| - |tail|..] == tail
  {
    var cs, post := ProgramCommands(t), Postamble(t);
    assert cs == Preamble(t) + Blocks(t, |t.passes|) + post;
    var ls := RenderAll(cs);
    var n := |ls|;
    assert cs[n - 1] == post[2] && cs[n - 2] == post[1];
    JoinLastTwo(ls);
    var head := JoinLines(ls[..n - 2]);
    var tail := "\n" + Render(SpindleOff) + "\n" + Render(ProgramEnd);
    assert ls[n - 2] == Render(SpindleOff) && ls[n - 1] == Render(ProgramEnd);
    SuffixOf(head, tail);
  }

  lemma SuffixOf(a: string, b: string)
    ensures |a + b| >= |b| && (a + b)[|a + b| - |b|..] == b
  {
  }

  lemma JoinLastTwo(ls: seq<string>)
    requires |ls| >= 3
    ensures JoinLines(ls) == JoinLines(ls[..|ls| - 2]) + ("\n" + ls[|ls| - 2] + "\n" + ls[|ls| - 1])
  {
    var n := |ls|;
    var init := ls[..n - 1];
    var a, x, y := JoinLines(ls[..n - 2]), ls[n - 2], ls[n - 1];
    assert JoinLines(init) == a + "\n" + x by {
      assert |init| == n - 1 && init[..n - 2] == ls[..n - 2] && init[n - 2] == x;
    }
    assert JoinLines(ls) == JoinLines(init) + "\n" + y;
    Regroup(a, x, y);
  }

  lemma Regroup(a: string, x: string, y: string)
    ensures a + "\n" + x + "\n" + y == a + ("\n" + x + "\n" + y)
  {
  }

}
