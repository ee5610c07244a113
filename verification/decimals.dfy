/**
  The C# `decimal` as a scaled integer, and its `ToString()` in the invariant
  culture, which keeps the scale: 15 prints as "15", 15.0 as "15.0",
  -0.05 as "-0.05".
 */
module Decimals {
  import opened Wrappers
  import opened Numerals
  import Text

  /** The value `mantissa / 10^scale`; the scale is part of the value's identity. */
  datatype Decimal = Decimal(mantissa: int, scale: nat)

  /** `n` copies of the digit zero. */
  function Zeros(n: nat): (z: string)
    ensures |z| == n && AllDigits(z)
    ensures forall i :: 0 <= i < n ==> z[i] == '0'
  {
    if n == 0 then [] else "0" + Zeros(n - 1)
  }

  /** The absolute value of the mantissa. */
  function Magnitude(d: Decimal): (n: nat)
    ensures n == d.mantissa || n == -d.mantissa
  {
    if d.mantissa < 0 then -d.mantissa else d.mantissa
  }

  /** `t` left-padded with zeros to at least `scale + 1` digits. */
  function Pad(t: string, scale: nat): (s: string)
    requires AllDigits(t)
    ensures |s| > scale && AllDigits(s)
    ensures |s| >= |t| && s[|s| - |t|..] == t
  {
    if |t| > scale then t else Zeros(scale + 1 - |t|) + t
  }

  /** The digits of `|mantissa|`, left-padded with zeros to at least `scale + 1` digits. */
  function Digits(d: Decimal): (s: string)
    ensures |s| > d.scale && AllDigits(s)
  {
    Pad(NatToString(Magnitude(d)), d.scale)
  }

  /** Digits with a "." before the last `scale` of them, or none when `scale` is 0. */
  function Point(digits: string, scale: nat): (s: string)
    requires |digits| > scale && AllDigits(digits)
    ensures |s| > 0 && IsDigit(s[0])
    ensures forall i :: 0 <= i < |s| ==> IsDigit(s[i]) || s[i] == '.'
  {
    var k := |digits| - scale;
    if scale == 0 then digits else digits[..k] + "." + digits[k..]
  }

  /** The rendering without its sign: the padded digits of the magnitude, pointed at the scale. */
  function Unsigned(d: Decimal): (s: string)
    ensures |s| > 0 && IsDigit(s[0])
    ensures forall i :: 0 <= i < |s| ==> IsDigit(s[i]) || s[i] == '.'
  {
    Point(Digits(d), d.scale)
  }

  /** `decimal.ToString()` with "." as the separator and "-" as the sign. */
  function Render(d: Decimal): (s: string)
    ensures |s| > 0
    ensures forall i :: 0 <= i < |s| ==> IsDigit(s[i]) || s[i] == '.' || s[i] == '-'
  {
    if d.mantissa < 0 then "-" + Unsigned(d) else Unsigned(d)
  }

  /**
    Reads digits with at most one "." that has a digit on each side; the
    scale is the number of digits after the ".".
   */
  function ParseUnsigned(s: string): Option<Decimal> {
    var parts := Text.Split(s, '.');
    if |parts| == 1 && parts[0] != [] && AllDigits(parts[0]) then
      Some(Decimal(ParseNat(parts[0]), 0))
    else if |parts| == 2 && parts[0] != [] && parts[1] != [] && AllDigits(parts[0] + parts[1]) then
      Some(Decimal(ParseNat(parts[0] + parts[1]), |parts[1]|))
    else
      None
  }

  /** Reads an optional "-", then an unsigned decimal. */
  function ParseDecimal(s: string): Option<Decimal> {
    if |s| > 0 && s[0] == '-' then
      match ParseUnsigned(s[1..])
      case Some(d) => Some(Decimal(-d.mantissa, d.scale))
      case None => None
    else
      ParseUnsigned(s)
  }

  /** Zero-padding does not change the value of the digits. */
  lemma {:induction false} ParseNatZeros(k: nat, t: string)
    requires AllDigits(t)
    ensures AllDigits(Zeros(k) + t) && ParseNat(Zeros(k) + t) == ParseNat(t)
  {
    if k > 0 {
      var u := Zeros(k - 1) + t;
      ParseNatZeros(k - 1, t);
      ParseNatLeadingZero(u);
      ZerosFront(k, t);
    } else {
      assert Zeros(k) + t == t;
    }
  }

  /** One more zero in front is one more "0" in front. */
  lemma ZerosFront(k: nat, t: string)
    requires k > 0
    ensures Zeros(k) + t == "0" + (Zeros(k - 1) + t)
  {
    assert Zeros(k) == "0" + Zeros(k - 1);
  }

  /** The padded digits denote `|mantissa|`. */
  lemma DigitsValue(d: Decimal)
    ensures ParseNat(Digits(d)) == Magnitude(d)
  {
    ParseNatToString(Magnitude(d));
    Padded(NatToString(Magnitude(d)), d.scale);
  }

  /** Padding keeps the digits' value. */
  lemma Padded(t: string, scale: nat)
    requires AllDigits(t)
    ensures AllDigits(Pad(t, scale)) && ParseNat(Pad(t, scale)) == ParseNat(t)
  {
    if |t| <= scale {
      ParseNatZeros(scale + 1 - |t|, t);
    }
  }

  /** Rendering loses nothing: reading the text back gives the same decimal, scale included. */
  lemma RenderParses(d: Decimal)
    ensures ParseDecimal(Render(d)) == Some(d)
  {
    var u := Unsigned(d);
    var n: int := Magnitude(d);
    UnsignedParses(d);
    if d.mantissa < 0 {
      assert Render(d) == "-" + u;
      assert ("-" + u)[0] == '-' && ("-" + u)[1..] == u;
      assert Decimal(-n, d.scale) == d;
    } else {
      assert Render(d) == u && u[0] != '-';
    }
  }

  /** The unsigned rendering reads back as the magnitude, scale included. */
  lemma UnsignedParses(d: Decimal)
    ensures ParseUnsigned(Unsigned(d)) == Some(Decimal(Magnitude(d), d.scale))
  {
    DigitsValue(d);
    PointParses(Digits(d), d.scale);
  }

  /** Pointed digits read back as their value with the scale they were pointed at. */
  lemma PointParses(digits: string, scale: nat)
    requires |digits| > scale && AllDigits(digits)
    ensures ParseUnsigned(Point(digits, scale)) == Some(Decimal(ParseNat(digits), scale))
  {
    if scale == 0 {
      assert Point(digits, scale) == digits;
      WholeParses(digits);
    } else {
      PointFraction(digits, scale);
    }
  }

  /** With a positive scale, the "." splits the digits into a whole part and a fraction. */
  lemma PointFraction(digits: string, scale: nat)
    requires 0 < scale < |digits| && AllDigits(digits)
    ensures ParseUnsigned(Point(digits, scale)) == Some(Decimal(ParseNat(digits), scale))
  {
    var k := |digits| - scale;
    var whole, fraction := digits[..k], digits[k..];
    assert Point(digits, scale) == whole + "." + fraction;
    Rejoin(digits, k);
    FractionParses(whole, fraction);
  }

  /** A string cut in two is the concatenation of its pieces. */
  lemma Rejoin<T>(s: seq<T>, k: nat)
    requires k <= |s|
    ensures s[..k] + s[k..] == s
  {
  }

  /** A non-empty digit string reads as itself with scale 0. */
  lemma WholeParses(digits: string)
    requires digits != [] && AllDigits(digits)
    ensures ParseUnsigned(digits) == Some(Decimal(ParseNat(digits), 0))
  {
    assert '.' !in digits;
    Text.SplitWithoutSeparator(digits, '.');
  }

  /** Two non-empty digit strings around a "." read as their concatenation, scaled by the second's length. */
  lemma FractionParses(whole: string, fraction: string)
    requires whole != [] && fraction != [] && AllDigits(whole) && AllDigits(fraction)
    ensures ParseUnsigned(whole + "." + fraction) == Some(Decimal(ParseNat(whole + fraction), |fraction|))
  {
    assert '.' !in whole && '.' !in fraction;
    Text.SplitAtSeparator(whole, '.', fraction);
    Text.SplitWithoutSeparator(fraction, '.');
    assert whole + "." + fraction == whole + ['.'] + fraction;
    assert AllDigits(whole + fraction);
  }

  /** The rendering contains no white space. */
  lemma RenderHasNoWhiteSpace(d: Decimal)
    ensures forall c :: c in Render(d) ==> !Text.IsWhiteSpace(c)
  {
  }

  /** A whole non-negative quantity prints as its plain numeral: 15 gives "15". */
  lemma RenderWhole(n: nat)
    ensures Render(Decimal(n, 0)) == NatToString(n)
  {
  }
}
