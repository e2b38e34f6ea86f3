/**
 * Decimal text as JavaScript produces it for the planner: `Math.round`,
 * `Number.prototype.toFixed`, integer rendering and the trailing-zero strip
 * `replace(/\.?0+$/, '')`, all over exact reals.  `ParseDecimal` reads such
 * text back and is the partner every rendering is proved against.
 */
module Decimal {
  import opened Params

  function Pow10(d: nat): (r: nat)
    ensures r >= 1
  {
    if d == 0 then 1 else 10 * Pow10(d - 1)
  }

  function Abs(x: real): (r: real)
    ensures r >= 0.0 && (r == x || r == -x)
  {
    if x < 0.0 then -x else x
  }

  /** `Math.round`: the nearest integer, ties toward positive infinity. */
  function RoundHalfUp(v: real): (n: int)
    ensures n as real - 0.5 <= v < n as real + 0.5
  {
    (v + 0.5).Floor
  }

  lemma RoundHalfUpOfInt(k: int)
    ensures RoundHalfUp(k as real) == k
  {
  }

  predicate IsDigit(c: char) {
    '0' <= c <= '9'
  }

  predicate AllDigits(s: string) {
    forall i :: 0 <= i < |s| ==> IsDigit(s[i])
  }

  function DigitChar(d: nat): (c: char)
    requires d < 10
    ensures IsDigit(c)
  {
    ('0' as int + d) as char
  }

  function DigitValue(c: char): (d: nat)
    requires IsDigit(c)
    ensures d < 10 && DigitChar(d) == c
  {
    c as int - '0' as int
  }

  /** Value of a string of digits, most significant first. */
  function DigitsValue(s: string): nat
    requires AllDigits(s)
  {
    if s == [] then 0 else DigitsValue(s[..|s| - 1]) * 10 + DigitValue(s[|s| - 1])
  }

  /** The shortest numeral of `n`: no leading zero, "0" for zero. */
  function NatToDigits(n: nat): (s: string)
    ensures |s| > 0 && AllDigits(s)
    ensures |s| == 1 || s[0] != '0'
    ensures s[0] == '0' <==> n == 0
  {
    if n < 10 then [DigitChar(n)] else NatToDigits(n / 10) + [DigitChar(n % 10)]
  }

  /** The digits of `n` left of the last `d`, as `toFixed` prints the integer part. */
  function IntDigits(n: nat, d: nat): (s: string)
    ensures |s| > 0 && AllDigits(s)
  {
    if d == 0 then NatToDigits(n) else IntDigits(n / 10, d - 1)
  }

  /** The last `d` digits of `n`, zero-padded: the fraction `toFixed` prints. */
  function FracDigits(n: nat, d: nat): (s: string)
    ensures |s| == d && AllDigits(s)
  {
    if d == 0 then [] else FracDigits(n / 10, d - 1) + [DigitChar(n % 10)]
  }

  /** Integer rendering of a whole number, as template literals print it. */
  function IntToText(k: int): string {
    (if k < 0 then "-" else "") + NatToDigits(if k < 0 then -k else k)
  }

  /**
   * `x.toFixed(d)`: a minus sign when `x < 0`, then the magnitude rounded
   * half up to `d` places, with exactly `d` fractional digits.
   */
  function ToFixed(x: real, d: nat): string {
    FixedText(x < 0.0, Magnitude(x, d), d)
  }

  /** The text `toFixed(d)` prints for the magnitude `n` (in units of 10^-d) and a sign. */
  function FixedText(neg: bool, n: nat, d: nat): string {
    (if neg then "-" else "") + IntDigits(n, d) + (if d == 0 then "" else "." + FracDigits(n, d))
  }

  /** The magnitude of `x` in units of 10^-d, rounded half up. */
  function Magnitude(x: real, d: nat): (n: nat)
    ensures n as real - 0.5 <= Abs(x) * Pow10(d) as real < n as real + 0.5
  {
    var v := Abs(x) * Pow10(d) as real;
    assert v >= 0.0 by { NonnegProduct(Abs(x), Pow10(d) as real); }
    RoundHalfUp(v)
  }

  lemma NonnegProduct(a: real, b: real)
    requires a >= 0.0 && b >= 0.0
    ensures a * b >= 0.0
  {
  }

  /** The value `ToFixed(x, d)` denotes. */
  function Rounded(x: real, d: nat): real {
    FixedValue(x < 0.0, Magnitude(x, d), d)
  }

  /** The value `FixedText(neg, n, d)` denotes. */
  function FixedValue(neg: bool, n: nat, d: nat): real {
    var m := n as real / Pow10(d) as real;
    if neg then -m else m
  }

  function DropTrailingZeros(s: string): (r: string)
    ensures |r| <= |s| && r == s[..|r|]
    ensures r == [] || r[|r| - 1] != '0'
    ensures forall i :: |r| <= i < |s| ==> s[i] == '0'
  {
    if s != [] && s[|s| - 1] == '0' then DropTrailingZeros(s[..|s| - 1]) else s
  }

  /**
   * `s.replace(/\.?0+$/, '')`: the leftmost match of the pattern is the
   * maximal run of trailing zeros together with a dot right before it.
   */
  function StripZeros(s: string): string {
    var t := DropTrailingZeros(s);
    if t == s then s
    else if t != [] && t[|t| - 1] == '.' then t[..|t| - 1]
    else t
  }

  /** Index of the first '.', or |s| when there is none. */
  function DotIndex(s: string): (k: nat)
    ensures k <= |s|
    ensures k < |s| ==> s[k] == '.'
  {
    if s == [] then 0 else if s[0] == '.' then 0 else 1 + DotIndex(s[1..])
  }

  /** Splits at the first dot and reads both sides as digit strings. */
  function ParseUnsigned(s: string): Option<real> {
    var k := DotIndex(s);
    ParseParts(s[..k], if k < |s| then s[k + 1..] else "", k < |s|)
  }

  function ParseParts(ip: string, fp: string, dotted: bool): Option<real> {
    if ip == [] || !AllDigits(ip) || !AllDigits(fp) || (dotted && fp == []) then None
    else Some(PartsValue(ip, fp))
  }

  /** Integer digits plus fraction digits, as a number. */
  function PartsValue(ip: string, fp: string): real
    requires AllDigits(ip) && AllDigits(fp)
  {
    DigitsValue(ip) as real + DigitsValue(fp) as real / Pow10(|fp|) as real
  }

  /** Reads `-?D+(.D+)?` back as the number it denotes. */
  function ParseDecimal(s: string): Option<real> {
    if s != [] && s[0] == '-' then
      match ParseUnsigned(s[1..])
      case Some(v) => Some(-v)
      case None => None
    else ParseUnsigned(s)
  }

  /** A decimal numeral: optional sign, integer digits, optional dot and fraction. */
  function Numeral(neg: bool, ip: string, fp: string): string {
    (if neg then "-" else "") + UnsignedNumeral(ip, fp)
  }

  function UnsignedNumeral(ip: string, fp: string): string {
    ip + (if fp == [] then "" else "." + fp)
  }

  // ---------------------------------------------------------------------
  // Digit arithmetic

  lemma DigitsValueSnoc(s: string, c: char)
    requires AllDigits(s) && IsDigit(c)
    ensures AllDigits(s + [c])
    ensures DigitsValue(s + [c]) == DigitsValue(s) * 10 + DigitValue(c)
  {
    assert (s + [c])[..|s|] == s;
  }

  lemma {:induction false} NatToDigitsValue(n: nat)
    ensures DigitsValue(NatToDigits(n)) == n
  {
    if n < 10 {
      assert DigitValue(DigitChar(n)) == n;
    } else {
      NatToDigitsValue(n / 10);
      DigitsValueSnoc(NatToDigits(n / 10), DigitChar(n % 10));
      assert DigitValue(DigitChar(n % 10)) == n % 10;
    }
  }

  /** The integer digits and the fraction digits together make up `n`. */
  lemma {:induction false} FixedDigitsValue(n: nat, d: nat)
    ensures DigitsValue(IntDigits(n, d)) * Pow10(d) + DigitsValue(FracDigits(n, d)) == n
  {
    if d == 0 {
      NatToDigitsValue(n);
    } else {
      FixedDigitsValue(n / 10, d - 1);
      AppendDigitValue(FracDigits(n / 10, d - 1), n % 10);
      ShiftDigit(DigitsValue(IntDigits(n / 10, d - 1)), Pow10(d - 1), DigitsValue(FracDigits(n / 10, d - 1)), n);
    }
  }

  /** Moving the last digit of `n` into the fraction scales both parts by ten. */
  lemma ShiftDigit(a: int, p: int, b: int, n: int)
    requires a * p + b == n / 10
    ensures a * (10 * p) + (b * 10 + n % 10) == n
  {
    assert a * (10 * p) == 10 * (a * p);
  }

  lemma AppendDigitValue(s: string, r: nat)
    requires AllDigits(s) && r < 10
    ensures AllDigits(s + [DigitChar(r)])
    ensures DigitsValue(s + [DigitChar(r)]) == DigitsValue(s) * 10 + r
  {
    DigitsValueSnoc(s, DigitChar(r));
    assert DigitValue(DigitChar(r)) == r;
  }

  /** The fraction trims to nothing exactly when `n` is a whole multiple of 10^d. */
  lemma FracAllZeros(n: nat, d: nat)
    ensures DropTrailingZeros(FracDigits(n, d)) == [] <==> DigitsValue(FracDigits(n, d)) == 0
  {
    var f := FracDigits(n, d);
    var t := DropTrailingZeros(f);
    DropFractionValue(f);
    if t != [] {
      AllZerosValue(f, |t|);
    } else {
      assert DigitsValue(f) as real / Pow10(d) as real == 0.0;
    }
  }

  /** A digit string whose last non-zero digit sits before `k` has a positive prefix value. */
  lemma {:induction false} AllZerosValue(s: string, k: nat)
    requires AllDigits(s) && 0 < k <= |s| && s[k - 1] != '0'
    ensures DigitsValue(s) > 0
  {
    if k == |s| {
      assert DigitValue(s[|s| - 1]) > 0;
    } else {
      AllZerosValue(s[..|s| - 1], k);
    }
  }

  /** Dropping trailing zeros of a fraction keeps its value. */
  lemma {:induction false} DropFractionValue(s: string)
    requires AllDigits(s)
    ensures AllDigits(DropTrailingZeros(s))
    ensures DigitsValue(s) as real / Pow10(|s|) as real
         == DigitsValue(DropTrailingZeros(s)) as real / Pow10(|DropTrailingZeros(s)|) as real
  {
    if s != [] && s[|s| - 1] == '0' {
      var s' := s[..|s| - 1];
      DropFractionValue(s');
      assert DigitsValue(s) == DigitsValue(s') * 10;
      assert Pow10(|s|) == 10 * Pow10(|s'|);
      ScaleRatio(DigitsValue(s') as real, Pow10(|s'|) as real);
    }
  }

  lemma ScaleRatio(a: real, b: real)
    requires b > 0.0
    ensures (a * 10.0) / (10.0 * b) == a / b
  {
  }

  // ---------------------------------------------------------------------
  // The trailing-zero strip

  lemma {:induction false} DropAppend(a: string, b: string)
    ensures DropTrailingZeros(a + b)
         == if DropTrailingZeros(b) == [] then DropTrailingZeros(a) else a + DropTrailingZeros(b)
  {
    if b == [] {
      assert a + b == a;
    } else if b[|b| - 1] == '0' {
      assert (a + b)[..|a + b| - 1] == a + b[..|b| - 1];
      DropAppend(a, b[..|b| - 1]);
    }
  }

  /** Stripping a fixed-point numeral leaves the integer digits and the trimmed fraction. */
  lemma StripFixed(p: string, f: string)
    requires f != [] && AllDigits(f)
    requires p != [] && p[|p| - 1] != '0' ==> p[|p| - 1] != '.'
    ensures StripZeros(p + "." + f)
         == if DropTrailingZeros(f) == [] then p else p + "." + DropTrailingZeros(f)
  {
    var t := DropTrailingZeros(f);
    if t == [] {
      StripAllZeros(p, f);
    } else if t == f {
      StripNoZeros(p, f);
    } else {
      StripSomeZeros(p, f);
    }
  }

  /** An all-zero fraction goes, and the point with it. */
  lemma StripAllZeros(p: string, f: string)
    requires f != [] && DropTrailingZeros(f) == []
    ensures StripZeros(p + "." + f) == p
  {
    var s := p + "." + f;
    assert s == (p + ".") + f;
    DropAppend(p + ".", f);
    KeepsNonZeroEnd(p + ".");
    StripDotted(s, p);
  }

  lemma KeepsNonZeroEnd(s: string)
    requires s != [] && s[|s| - 1] != '0'
    ensures DropTrailingZeros(s) == s
  {
  }

  /** When the zeros run back to a point, the point goes too. */
  lemma StripDotted(s: string, q: string)
    requires DropTrailingZeros(s) == q + "." && |q| + 1 < |s|
    ensures StripZeros(s) == q
  {
    var t := DropTrailingZeros(s);
    assert t[..|t| - 1] == q;
  }

  /** A fraction ending in a non-zero digit is kept whole. */
  lemma StripNoZeros(p: string, f: string)
    requires f != [] && DropTrailingZeros(f) == f
    ensures StripZeros(p + "." + f) == p + "." + f
  {
    var s := p + "." + f;
    assert s == (p + ".") + f;
    DropAppend(p + ".", f);
  }

  /** A fraction with some trailing zeros keeps its digits up to the last non-zero one. */
  lemma StripSomeZeros(p: string, f: string)
    requires AllDigits(f)
    requires DropTrailingZeros(f) != [] && DropTrailingZeros(f) != f
    ensures StripZeros(p + "." + f) == p + "." + DropTrailingZeros(f)
  {
    var s := p + "." + f;
    var t := DropTrailingZeros(f);
    assert s == (p + ".") + f;
    DropAppend(p + ".", f);
    assert DropTrailingZeros(s) == p + "." + t;
    assert |DropTrailingZeros(s)| < |s|;
    assert IsDigit(t[|t| - 1]);
  }


  // ---------------------------------------------------------------------
  // Reading numerals back

  lemma {:induction false} DotIndexAfter(p: string, rest: string)
    requires forall i :: 0 <= i < |p| ==> p[i] != '.'
    ensures DotIndex(p + rest) == |p| + DotIndex(rest)
  {
    if p != [] {
      assert (p + rest)[1..] == p[1..] + rest;
      DotIndexAfter(p[1..], rest);
    } else {
      assert p + rest == rest;
    }
  }

  /** Where the first dot of an unsigned numeral sits, and what lies on each side. */
  lemma UnsignedSplit(ip: string, fp: string)
    requires AllDigits(ip)
    ensures var u := UnsignedNumeral(ip, fp);
      && DotIndex(u) == |ip|
      && u[..|ip|] == ip
      && (fp != [] ==> |ip| < |u| && u[|ip| + 1..] == fp)
      && (fp == [] ==> u == ip)
  {
    var u := UnsignedNumeral(ip, fp);
    if fp == [] {
      assert u == ip + "";
      DotIndexAfter(ip, "");
      assert ip + "" == ip;
    } else {
      DotIndexAfter(ip, "." + fp);
      assert u[..|ip|] == ip;
      assert u[|ip| + 1..] == fp;
    }
  }

  /** The unsigned part of a numeral reads back as integer part plus fraction. */
  lemma UnsignedValue(ip: string, fp: string)
    requires ip != [] && AllDigits(ip) && AllDigits(fp)
    ensures ParseUnsigned(UnsignedNumeral(ip, fp)) == Some(PartsValue(ip, fp))
  {
    UnsignedSplit(ip, fp);
  }

  /** A leading minus negates what the rest reads as. */
  lemma MinusParse(u: string, v: real)
    requires ParseUnsigned(u) == Some(v)
    ensures ParseDecimal("-" + u) == Some(-v)
  {
    assert ("-" + u)[1..] == u;
  }

  /** A numeral reads back as its signed integer part plus fraction. */
  lemma NumeralValue(neg: bool, ip: string, fp: string)
    requires ip != [] && AllDigits(ip) && AllDigits(fp)
    ensures ParseDecimal(Numeral(neg, ip, fp))
         == Some(if neg then -PartsValue(ip, fp) else PartsValue(ip, fp))
  {
    var v := PartsValue(ip, fp);
    UnsignedValue(ip, fp);
    UnsignedStartsWithDigit(ip, fp);
    if neg {
      NegativeNumeral(ip, fp, v);
    } else {
      PositiveNumeral(ip, fp, v);
    }
  }

  lemma NegativeNumeral(ip: string, fp: string, v: real)
    requires ParseUnsigned(UnsignedNumeral(ip, fp)) == Some(v)
    ensures ParseDecimal(Numeral(true, ip, fp)) == Some(-v)
  {
    MinusParse(UnsignedNumeral(ip, fp), v);
  }

  lemma PositiveNumeral(ip: string, fp: string, v: real)
    requires ParseUnsigned(UnsignedNumeral(ip, fp)) == Some(v)
    requires UnsignedNumeral(ip, fp) != [] && UnsignedNumeral(ip, fp)[0] != '-'
    ensures ParseDecimal(Numeral(false, ip, fp)) == Some(v)
  {
    assert Numeral(false, ip, fp) == UnsignedNumeral(ip, fp);
  }

  lemma UnsignedStartsWithDigit(ip: string, fp: string)
    requires ip != [] && AllDigits(ip)
    ensures UnsignedNumeral(ip, fp) != [] && IsDigit(UnsignedNumeral(ip, fp)[0])
  {
    assert UnsignedNumeral(ip, fp)[0] == ip[0];
  }

  /** Where the dot of a numeral sits and what it ends with. */
  lemma NumeralShape(neg: bool, ip: string, fp: string)
    requires ip != [] && AllDigits(ip) && AllDigits(fp)
    ensures var s := Numeral(neg, ip, fp);
      && s != []
      && s[|s| - 1] != '.'
      && (fp == [] ==> DotIndex(s) == |s|)
      && (fp != [] ==> DotIndex(s) < |s| && |s| - DotIndex(s) - 1 == |fp| && s[|s| - 1] == fp[|fp| - 1])
  {
    var sign := if neg then "-" else "";
    var u := UnsignedNumeral(ip, fp);
    var s := Numeral(neg, ip, fp);
    UnsignedSplit(ip, fp);
    DotIndexAfter(sign, u);
    assert DotIndex(s) == |sign| + |ip|;
    if fp != [] {
      assert |u| == |ip| + 1 + |fp|;
      assert s[|s| - 1] == fp[|fp| - 1];
      assert IsDigit(fp[|fp| - 1]);
    } else {
      assert s[|s| - 1] == ip[|ip| - 1];
      assert IsDigit(ip[|ip| - 1]);
    }
  }

  /**
   * `StripZeros(ToFixed(x, d))` is the numeral of the rounded magnitude with
   * the fraction's trailing zeros (and then a bare dot) removed.
   */
  lemma TrimmedFixedShape(x: real, d: nat)
    requires d > 0
    ensures var n := Magnitude(x, d);
      StripZeros(ToFixed(x, d))
      == Numeral(x < 0.0, IntDigits(n, d), DropTrailingZeros(FracDigits(n, d)))
  {
    TrimmedShape(x < 0.0, Magnitude(x, d), d);
  }

  lemma TrimmedShape(neg: bool, n: nat, d: nat)
    requires d > 0
    ensures StripZeros(FixedText(neg, n, d))
         == Numeral(neg, IntDigits(n, d), DropTrailingZeros(FracDigits(n, d)))
  {
    var ip, f := IntDigits(n, d), FracDigits(n, d);
    var p := (if neg then "-" else "") + ip;
    assert FixedText(neg, n, d) == p + "." + f;
    assert IsDigit(p[|p| - 1]) by {
      assert p[|p| - 1] == ip[|ip| - 1];
    }
    StripFixed(p, f);
    NumeralSplit(neg, ip, DropTrailingZeros(f));
  }

  lemma NumeralSplit(neg: bool, ip: string, t: string)
    ensures var p := (if neg then "-" else "") + ip;
      Numeral(neg, ip, t) == if t == [] then p else p + "." + t
  {
    if t != [] {
      assert UnsignedNumeral(ip, t) == ip + ("." + t);
    }
  }

  /** `StripZeros(ToFixed(x, d))` reads back as `x` rounded to `d` places. */
  lemma TrimmedFixedValue(x: real, d: nat)
    requires d > 0
    ensures ParseDecimal(StripZeros(ToFixed(x, d))) == Some(Rounded(x, d))
  {
    TrimmedValue(x < 0.0, Magnitude(x, d), d);
  }

  lemma TrimmedValue(neg: bool, n: nat, d: nat)
    requires d > 0
    ensures ParseDecimal(StripZeros(FixedText(neg, n, d))) == Some(FixedValue(neg, n, d))
  {
    TrimmedShape(neg, n, d);
    NumeralOfFixed(neg, n, d);
  }

  lemma NumeralOfFixed(neg: bool, n: nat, d: nat)
    ensures ParseDecimal(Numeral(neg, IntDigits(n, d), DropTrailingZeros(FracDigits(n, d))))
         == Some(FixedValue(neg, n, d))
  {
    var ip, fp := IntDigits(n, d), DropTrailingZeros(FracDigits(n, d));
    FixedPartsValue(n, d);
    NumeralValue(neg, ip, fp);
    SignedFixed(neg, n, d, PartsValue(ip, fp));
  }

  lemma SignedFixed(neg: bool, n: nat, d: nat, m: real)
    requires m == n as real / Pow10(d) as real
    ensures Some(if neg then -m else m) == Some(FixedValue(neg, n, d))
  {
  }

  /** The trimmed digits of `n` with `d` places denote n / 10^d. */
  lemma FixedPartsValue(n: nat, d: nat)
    ensures AllDigits(DropTrailingZeros(FracDigits(n, d)))
    ensures PartsValue(IntDigits(n, d), DropTrailingZeros(FracDigits(n, d))) == n as real / Pow10(d) as real
  {
    var f := FracDigits(n, d);
    var t := DropTrailingZeros(f);
    assert AllDigits(t) && DigitsValue(t) as real / Pow10(|t|) as real
                           == DigitsValue(f) as real / Pow10(d) as real by {
      DropFractionValue(f);
    }
    FixedDigitsRatio(n, d);
  }

  /** Integer digits plus the untrimmed fraction over 10^d make n / 10^d. */
  lemma FixedDigitsRatio(n: nat, d: nat)
    ensures DigitsValue(IntDigits(n, d)) as real + DigitsValue(FracDigits(n, d)) as real / Pow10(d) as real
         == n as real / Pow10(d) as real
  {
    FixedDigitsValue(n, d);
    WholePlusFraction(DigitsValue(IntDigits(n, d)), DigitsValue(FracDigits(n, d)), Pow10(d), n);
  }

  lemma WholePlusFraction(a: int, b: int, p: int, n: int)
    requires p > 0 && a * p + b == n
    ensures a as real + b as real / p as real == n as real / p as real
  {
    assert (a * p) as real == a as real * p as real;
  }
}
