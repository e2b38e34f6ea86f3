/** `formatDimension` (src/format.ts): stock sizes as inch labels. */
module Format {
  import opened Params
  import opened Decimal

  /** The value rounded to hundredths as `Math.round(value * 100) / 100` does. */
  function Hundredths(value: real): real {
    RoundHalfUp(value * 100.0) as real / 100.0
  }

  /**
   * Rounds to hundredths; a whole result prints as an integer, any other
   * with `toFixed(2)` and its trailing zeros stripped; an inch mark follows.
   */
  function FormatDimension(value: real): string {
    HundredthsText(RoundHalfUp(value * 100.0)) + "\""
  }

  /** The label, without its inch mark, of `r` hundredths of an inch. */
  function HundredthsText(r: int): string {
    if r % 100 == 0 then IntToText(r / 100)
    else StripZeros(ToFixed(r as real / 100.0, 2))
  }

  /** The text before the inch mark. */
  function Label(s: string): string
    requires s != []
  {
    s[..|s| - 1]
  }

  lemma WholeText(k: int)
    ensures IntToText(k) == Numeral(k < 0, NatToDigits(if k < 0 then -k else k), [])
    ensures ParseDecimal(IntToText(k)) == Some(k as real)
  {
    var m: nat := if k < 0 then -k else k;
    assert UnsignedNumeral(NatToDigits(m), []) == NatToDigits(m);
    NumeralValue(k < 0, NatToDigits(m), []);
    NatToDigitsValue(m);
    assert PartsValue(NatToDigits(m), []) == m as real;
  }

  /** `toFixed(2)` of a value already on the hundredths grid does not round again. */
  lemma OnGrid(r: int)
    ensures Magnitude(r as real / 100.0, 2) == (if r < 0 then -r else r)
    ensures Rounded(r as real / 100.0, 2) == r as real / 100.0
  {
    var m := if r < 0 then -r else r;
    assert Abs(r as real / 100.0) * Pow10(2) as real == m as real;
    RoundHalfUpOfInt(m);
  }

  /** The two fraction digits of `n` trim to nothing exactly when 100 divides `n`. */
  lemma TwoPlaces(n: nat)
    ensures DropTrailingZeros(FracDigits(n, 2)) == [] <==> n % 100 == 0
  {
    FracAllZeros(n, 2);
    FracDigitsSnoc(n, 2);
    FracDigitsSnoc(n / 10, 1);
    HundredSplit(n);
  }

  lemma FracDigitsSnoc(n: nat, d: nat)
    requires d > 0
    ensures DigitsValue(FracDigits(n, d)) == DigitsValue(FracDigits(n / 10, d - 1)) * 10 + n % 10
  {
    DigitsValueSnoc(FracDigits(n / 10, d - 1), DigitChar(n % 10));
  }

  lemma HundredSplit(n: nat)
    ensures ((n / 10) % 10) * 10 + n % 10 == n % 100
  {
    var q, r := n / 100, n % 100;
    assert n == 100 * q + r;
    assert n / 10 == 10 * q + r / 10;
    assert (n / 10) % 10 == r / 10;
    assert n % 10 == r % 10;
  }

  lemma WholeLabel(r: int)
    requires r % 100 == 0
    ensures IntToText(r / 100) != []
    ensures ParseDecimal(IntToText(r / 100)) == Some(r as real / 100.0)
  {
    var k := r / 100;
    assert IntToText(k) != [] by {
      WholeText(k);
      NumeralShape(k < 0, NatToDigits(if k < 0 then -k else k), []);
    }
    assert ParseDecimal(IntToText(k)) == Some(k as real) by { WholeText(k); }
    WholeHundredths(r);
  }

  lemma WholeHundredths(r: int)
    requires r % 100 == 0
    ensures (r / 100) as real == r as real / 100.0
  {
    assert r == 100 * (r / 100);
  }

  lemma FractionLabel(r: int)
    ensures StripZeros(ToFixed(r as real / 100.0, 2)) != []
    ensures ParseDecimal(StripZeros(ToFixed(r as real / 100.0, 2))) == Some(r as real / 100.0)
  {
    var neg, n := r < 0, if r < 0 then -r else r;
    var t := StripZeros(FixedText(neg, n, 2));
    assert t != [] && ParseDecimal(t) == Some(r as real / 100.0) by {
      FixedLabel(neg, n);
      GridValue(r);
    }
    GridFixed(r);
  }

  lemma FixedLabel(neg: bool, n: nat)
    ensures StripZeros(FixedText(neg, n, 2)) != []
    ensures ParseDecimal(StripZeros(FixedText(neg, n, 2))) == Some(FixedValue(neg, n, 2))
  {
    TrimmedValue(neg, n, 2);
    TrimmedShape(neg, n, 2);
    NumeralShape(neg, IntDigits(n, 2), DropTrailingZeros(FracDigits(n, 2)));
  }

  lemma GridValue(r: int)
    ensures FixedValue(r < 0, if r < 0 then -r else r, 2) == r as real / 100.0
  {
    assert Pow10(2) == 100;
  }

  /**
   * The label ends in an inch mark, is never empty before it, and reads back
   * as the value rounded to hundredths, ties upward.
   */
  lemma FormatDimensionValue(value: real)
    ensures var s := FormatDimension(value);
      && |s| >= 2 && s[|s| - 1] == '"'
      && ParseDecimal(Label(s)) == Some(Hundredths(value))
  {
    var r := RoundHalfUp(value * 100.0);
    HundredthsTextValue(r);
    InchMark(FormatDimension(value), HundredthsText(r), r as real / 100.0);
  }

  lemma HundredthsTextValue(r: int)
    ensures HundredthsText(r) != []
    ensures ParseDecimal(HundredthsText(r)) == Some(r as real / 100.0)
  {
    if r % 100 == 0 { WholeLabel(r); } else { FractionLabel(r); }
  }

  /**
   * Formatting is idempotent: the value a label reads back as is labelled
   * with that same text.
   */
  lemma FormatIdempotent(value: real)
    ensures var s := FormatDimension(value);
      && ParseDecimal(Label(s)) == Some(Hundredths(value))
      && FormatDimension(Hundredths(value)) == s
  {
    FormatDimensionValue(value);
    HundredthsStable(value);
  }

  /** Rounding to hundredths again changes nothing. */
  lemma HundredthsStable(value: real)
    ensures RoundHalfUp(Hundredths(value) * 100.0) == RoundHalfUp(value * 100.0)
  {
    var r := RoundHalfUp(value * 100.0);
    assert Hundredths(value) * 100.0 == r as real;
    RoundHalfUpOfInt(r);
  }

  lemma InchMark(s: string, t: string, x: real)
    requires s == t + "\"" && t != [] && ParseDecimal(t) == Some(x)
    ensures |s| >= 2 && s[|s| - 1] == '"' && ParseDecimal(Label(s)) == Some(x)
  {
    assert Label(s) == t;
  }

  /**
   * A whole rounded value prints without a decimal point; any other prints
   * one or two fraction digits, the last of them not a zero.
   */
  lemma FormatDimensionShape(value: real)
    ensures var s := FormatDimension(value);
      var t := Label(s);
      var whole := RoundHalfUp(value * 100.0) % 100 == 0;
      && t != []
      && (whole ==> DotIndex(t) == |t|)
      && (!whole ==> FractionDigitsShape(t))
  {
    var r := RoundHalfUp(value * 100.0);
    assert Label(FormatDimension(value)) == HundredthsText(r);
    HundredthsTextShape(r);
  }

  lemma HundredthsTextShape(r: int)
    ensures var t := HundredthsText(r);
      && t != []
      && (r % 100 == 0 ==> DotIndex(t) == |t|)
      && (r % 100 != 0 ==> FractionDigitsShape(t))
  {
    if r % 100 == 0 { WholeShape(r); } else { FractionShape(r); }
  }

  lemma WholeShape(r: int)
    requires r % 100 == 0
    ensures var t := IntToText(r / 100); t != [] && DotIndex(t) == |t|
  {
    WholeText(r / 100);
    NumeralShape(r / 100 < 0, NatToDigits(if r / 100 < 0 then -(r / 100) else r / 100), []);
  }

  /** One or two fraction digits after the point, the last of them not a zero. */
  predicate FractionDigitsShape(t: string) {
    && t != [] && DotIndex(t) < |t|
    && 1 <= |t| - DotIndex(t) - 1 <= 2
    && t[|t| - 1] != '0'
  }

  lemma FractionShape(r: int)
    requires r % 100 != 0
    ensures FractionDigitsShape(StripZeros(ToFixed(r as real / 100.0, 2)))
  {
    GridFixed(r);
    OffGridMagnitude(r);
    FixedFractionShape(r < 0, if r < 0 then -r else r);
  }

  /** Off the whole-inch grid in either sign means off it in magnitude. */
  lemma OffGridMagnitude(r: int)
    requires r % 100 != 0
    ensures (if r < 0 then -r else r) % 100 != 0
  {
    if r < 0 {
      var q, m := r / 100, r % 100;
      assert -r == 100 * (-q - 1) + (100 - m);
    }
  }

  /** On the hundredths grid, `toFixed(2)` prints the sign and the hundredths themselves. */
  lemma GridFixed(r: int)
    ensures ToFixed(r as real / 100.0, 2) == FixedText(r < 0, if r < 0 then -r else r, 2)
  {
    OnGrid(r);
  }

  lemma FixedFractionShape(neg: bool, n: nat)
    requires n % 100 != 0
    ensures FractionDigitsShape(StripZeros(FixedText(neg, n, 2)))
  {
    var fp := DropTrailingZeros(FracDigits(n, 2));
    TrimmedShape(neg, n, 2);
    assert fp != [] && |fp| <= 2 && fp[|fp| - 1] != '0' by { TwoPlaces(n); }
    NumeralShape(neg, IntDigits(n, 2), fp);
  }

  /** A whole value prints without a decimal point. */
  lemma FormatWholeExample()
    ensures FormatDimension(10.0) == "10\""
  {
    assert RoundHalfUp(1000.0) == 1000;
    assert NatToDigits(1) == "1";
    assert NatToDigits(10) == "10";
  }

  /** A label off the whole-inch grid, as the digits of its hundredths. */
  lemma FractionText(r: nat)
    requires r % 100 != 0
    ensures HundredthsText(r) == Numeral(false, IntDigits(r, 2), DropTrailingZeros(FracDigits(r, 2)))
  {
    assert HundredthsText(r) == StripZeros(FixedText(false, r, 2)) by { GridFixed(r); }
    TrimmedShape(false, r, 2);
  }

  /** A half inch keeps its one significant fraction digit. */
  lemma FormatHalfExample()
    ensures FormatDimension(10.5) == "10.5\""
  {
    assert RoundHalfUp(1050.0) == 1050;
    FractionText(1050);
    HalfDigits();
  }

  lemma HalfDigits()
    ensures Numeral(false, IntDigits(1050, 2), DropTrailingZeros(FracDigits(1050, 2))) == "10.5"
  {
    assert DigitChar(0) == '0' && DigitChar(1) == '1' && DigitChar(5) == '5';
    assert NatToDigits(1) == "1";
    assert NatToDigits(10) == "10";
    assert IntDigits(1050, 2) == "10";
    assert FracDigits(105, 1) == "5";
    assert FracDigits(1050, 2) == "50";
    assert DropTrailingZeros("50") == "5" by {
      assert "50"[..1] == "5";
    }
  }

  /** A sixteenth is rounded down to hundredths. */
  lemma FormatSixteenthExample()
    ensures FormatDimension(10.0625) == "10.06\""
  {
    assert RoundHalfUp(1006.25) == 1006;
    FractionText(1006);
    SixteenthDigits();
  }

  lemma SixteenthDigits()
    ensures Numeral(false, IntDigits(1006, 2), DropTrailingZeros(FracDigits(1006, 2))) == "10.06"
  {
    assert DigitChar(0) == '0' && DigitChar(1) == '1' && DigitChar(6) == '6';
    assert NatToDigits(1) == "1";
    assert NatToDigits(10) == "10";
    assert IntDigits(1006, 2) == "10";
    assert FracDigits(100, 1) == "0";
    assert FracDigits(1006, 2) == "06";
    assert DropTrailingZeros("06") == "06";
  }

  /** A tie at the third place rounds up. */
  lemma FormatTieExample()
    ensures FormatDimension(8.125) == "8.13\""
  {
    assert RoundHalfUp(812.5) == 813;
    FractionText(813);
    TieDigits();
  }

  lemma TieDigits()
    ensures Numeral(false, IntDigits(813, 2), DropTrailingZeros(FracDigits(813, 2))) == "8.13"
  {
    assert DigitChar(1) == '1' && DigitChar(3) == '3' && DigitChar(8) == '8';
    assert NatToDigits(8) == "8";
    assert IntDigits(813, 2) == "8";
    assert FracDigits(81, 1) == "1";
    assert FracDigits(813, 2) == "13";
    assert DropTrailingZeros("13") == "13";
  }

  /** A trailing zero after the point is removed. */
  lemma FormatTrailingZeroExample()
    ensures FormatDimension(10.10) == "10.1\""
  {
    assert RoundHalfUp(1010.0) == 1010;
    FractionText(1010);
    TrailingZeroDigits();
  }

  lemma TrailingZeroDigits()
    ensures Numeral(false, IntDigits(1010, 2), DropTrailingZeros(FracDigits(1010, 2))) == "10.1"
  {
    TenInteger();
    TenthFraction();
    assert Numeral(false, "10", "1") == "10.1";
  }

  lemma TenInteger()
    ensures IntDigits(1010, 2) == "10"
  {
    assert DigitChar(0) == '0' && DigitChar(1) == '1';
    assert NatToDigits(1) == "1";
    assert NatToDigits(10) == "10";
  }

  lemma TenthFraction()
    ensures DropTrailingZeros(FracDigits(1010, 2)) == "1"
  {
    assert DigitChar(0) == '0' && DigitChar(1) == '1';
    assert FracDigits(101, 1) == "1";
    assert FracDigits(1010, 2) == "10";
    assert "10"[..1] == "1";
  }
}
