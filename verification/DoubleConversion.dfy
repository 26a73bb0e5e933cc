/** The conversion of a double, given by its bits, to text: the special values, and for every finite
    non-zero number the closeness of what is printed. */
module DoubleConversion {
  import opened DoubleText
  import opened DoubleFormat

  const TWO_46: nat := 0x4000_0000_0000

  // ----- the layout of a double -----

  predicate Negative(bits: nat) { bits / TWO_63 % 2 != 0 }

  function Biased(bits: nat): nat { bits % TWO_63 / TWO_52 }

  function Mantissa(bits: nat): nat { bits % TWO_63 % TWO_52 }

  predicate Finite(bits: nat) { Biased(bits) != 0x7ff }

  /** The significand with the implicit leading one of a normal number. */
  function Significand(bits: nat): nat {
    if Biased(bits) == 0 then Mantissa(bits) else Mantissa(bits) + TWO_52
  }

  function BinaryExponent(bits: nat): int {
    (if Biased(bits) == 0 then 1 else Biased(bits)) - (1023 + 52)
  }

  /** The absolute value of the number. */
  function Magnitude(bits: nat): real { Value(Significand(bits), BinaryExponent(bits), 0) }

  /** The absolute value is the integer `m`, below 2**53. */
  ghost predicate IsWhole(bits: nat, m: nat) { Magnitude(bits) == m as real && m < TWO_53 }

  lemma Layout(bits: nat)
    ensures Biased(bits) < 0x800 && Mantissa(bits) < TWO_52
    ensures BinaryExponent(bits) >= -1074 && (Finite(bits) ==> BinaryExponent(bits) <= 971)
    ensures Significand(bits) < TWO_53
    ensures BinaryExponent(bits) > 0 ==> Significand(bits) >= TWO_52
  {
  }

  /** The layout in numbers: one bit of sign, eleven of exponent and fifty-two of fraction. */
  lemma Encoding(neg: bool, biased: nat, fraction: nat)
    requires biased < 0x800 && fraction < 0x10_0000_0000_0000
    ensures var bits := (if neg then 0x8000_0000_0000_0000 else 0) + biased * 0x10_0000_0000_0000 + fraction;
            && bits < 0x1_0000_0000_0000_0000 && (neg <==> bits >= 0x8000_0000_0000_0000)
            && Negative(bits) == neg && Biased(bits) == biased && Mantissa(bits) == fraction
  {
  }

  /** What a finite double stands for: its fraction as a part of 2**52, after a one unless the exponent is zero, times a power
      of two. */
  lemma MagnitudeIs(neg: bool, biased: nat, fraction: nat)
    requires biased < 0x7ff && fraction < 0x10_0000_0000_0000
    ensures var bits := (if neg then 0x8000_0000_0000_0000 else 0) + biased * 0x10_0000_0000_0000 + fraction;
            && Finite(bits) && (biased > 0 || fraction > 0 ==> Significand(bits) != 0)
            && Magnitude(bits) == if biased == 0 then fraction as real * Pow(2.0, -1074)
                                  else (0x10_0000_0000_0000 + fraction) as real * Pow(2.0, biased - 1075)
  {
    Encoding(neg, biased, fraction);
    assert Pow(10.0, 0) == 1.0;
  }

  // ----- integers -----

  lemma {:induction false} PowNegative(k: nat)
    ensures Pow(2.0, 0 - k) * PowNat(2, k) as real == 1.0
  {
    if k > 0 {
      PowNegative(k - 1);
      PowNext(2.0, 0 - k);
      var x, y := Pow(2.0, 0 - k), PowNat(2, k - 1);
      assert Pow(2.0, 0 - (k - 1)) == 2.0 * x;
      assert (2 * y) as real == 2.0 * y as real;
      assert (2.0 * x) * y as real == x * (2.0 * y as real);
    }
  }

  /** A number of the form f * 2**e2, e2 <= 0, equal to the integer m is the exact multiple. */
  lemma IntegerValue(f: nat, e2: int, m: nat)
    requires Value(f, e2, 0) == m as real && e2 <= 0
    ensures IsInteger(f, e2, m)
  {
    PowNegative(-e2);
    assert Pow(10.0, 0) == 1.0;
    CancelPower(f as real, Pow(2.0, e2), PowNat(2, -e2) as real, m as real);
    assert (m * PowNat(2, -e2)) as real == m as real * PowNat(2, -e2) as real;
  }

  lemma CancelPower(f: real, p: real, q: real, m: real)
    requires p * q == 1.0 && f * (p * 1.0) == m
    ensures f == m * q
  {
    assert f * p == m;
    assert (f * p) * q == f * (p * q);
  }

  /** With a positive exponent the number is at least 2**53. */
  lemma LargeValue(f: nat, e2: int)
    requires f >= TWO_52 && e2 > 0
    ensures Value(f, e2, 0) >= TWO_53 as real
  {
    assert Pow(10.0, 0) == 1.0;
    PowAtLeastTwo(e2);
    var p, g := Pow(2.0, e2), f as real;
    MulMonotone(2.0, p, g);
    assert g * (p * 1.0) == p * g;
  }

  lemma {:induction false} PowAtLeastTwo(e: nat)
    requires e > 0
    ensures Pow(2.0, e) >= 2.0
  {
    if e > 1 {
      PowAtLeastTwo(e - 1);
    } else {
      assert Pow(2.0, 1) == 2.0 * Pow(2.0, 0);
    }
  }

  lemma SmallInteger(bits: nat, m: nat)
    requires IsWhole(bits, m)
    ensures IsInteger(Significand(bits), BinaryExponent(bits), m)
  {
    hide Value;
    Layout(bits);
    if BinaryExponent(bits) > 0 {
      LargeValue(Significand(bits), BinaryExponent(bits));
      assert false;
    }
    IntegerValue(Significand(bits), BinaryExponent(bits), m);
  }

  // ----- closeness -----

  /** `v` is within one part in 2**46 of `n`. */
  ghost predicate Close(n: real, v: real) {
    -n <= TWO_46 as real * (v - n) <= n
  }

  lemma NearBound(n: real, v: real, unit: real, r: nat, most: nat)
    requires Near(n, v, unit, r) && r <= most && unit > 0.0
    ensures Near(n, v, unit, most)
  {
    MulMonotone(r as real, most as real, unit);
  }

  lemma Constants()
    ensures (TWO_60 / 2) as real == 576460752303423488.0 && (TWO_53 / 16) as real == 562949953421312.0
    ensures TWO_46 as real == 70368744177664.0
  {
  }

  lemma CloseReal(n: real, mid: real, v: real, u1: real, u2: real, k1: real, k2: real, m1: real, m2: real)
    requires k1 == 576460752303423488.0 && k2 == 562949953421312.0 && m1 == 1074.0 && m2 == 4.0
    requires n == k1 * u1 && mid == k2 * u2 && u1 > 0.0 && u2 > 0.0
    requires -(m1 * u1) <= mid - n <= m1 * u1 && -(m2 * u2) <= v - mid <= m2 * u2
    ensures -n <= 70368744177664.0 * (v - n) <= n
  {
  }

  /** The error of the scaling loop followed by that of the shortening loop. */
  lemma CloseEnough(n: real, mid: real, v: real, u1: real, u2: real, r1: nat, r2: nat)
    requires n == (TWO_60 / 2) as real * u1 && u1 > 0.0 && Near(n, mid, u1, r1) && r1 <= 1074
    requires mid == (TWO_53 / 16) as real * u2 && u2 > 0.0 && Near(mid, v, u2, r2) && r2 <= 4
    ensures Close(n, v)
  {
    NearBound(n, mid, u1, r1, 1074);
    NearBound(mid, v, u2, r2, 4);
    Constants();
    CloseReal(n, mid, v, u1, u2, (TWO_60 / 2) as real, (TWO_53 / 16) as real, 1074 as real, 4 as real);
  }

  lemma PositiveValue(f: nat, e2: int, e10: int)
    requires f > 0
    ensures Value(f, e2, e10) > 0.0
  {
    var w := Pow(2.0, e2) * Pow(10.0, e10);
    assert w > 0.0;
    assert f as real >= 1.0;
  }

  // ----- the whole conversion -----

  /** The loops in sequence, from the binary to the decimal significand and exponent. */
  method ToDecimal(bits: nat) returns (f: nat, e10: int)
    requires Finite(bits) && Significand(bits) != 0
    ensures 0 < f <= TWO_53 && f % 10 != 0 && -1074 <= e10 <= 343
    ensures Close(Magnitude(bits), Value(f, 0, e10))
    ensures forall m: nat :: IsWhole(bits, m) ==> e10 >= 0 && f * PowNat(10, e10) == m
  {
    Layout(bits);
    PositiveValue(Significand(bits), BinaryExponent(bits), 0);
    hide Value, Near, IsInteger, Close, Significand, BinaryExponent, PowNat;
    ghost var n := Magnitude(bits);
    ghost var u1, r1, r2 := n / (TWO_60 / 2) as real, 0, 0;
    f, e10, r1 := Scale(Significand(bits), BinaryExponent(bits), u1);
    PositiveValue(f, 0, e10);
    ghost var f1, x1, mid := f, e10, Value(f, 0, e10);
    ghost var u2 := mid / (TWO_53 / 16) as real;
    f, e10, r2 := Shorten(f, e10, u2);
    ghost var f2, x2, v := f, e10, Value(f, 0, e10);
    CloseEnough(n, mid, v, u1, u2, r1, r2);
    f, e10 := Strip(f, e10);
    forall m: nat | IsWhole(bits, m) ensures e10 >= 0 && f * PowNat(10, e10) == m {
      SmallInteger(bits, m);
      assert f1 == m && x1 == 0;
      assert f2 == m && x2 == 0;
    }
  }

  /** The text of a number that is not finite, or zero. */
  function SpecialText(bits: nat): string {
    if !Finite(bits) then
      if Mantissa(bits) != 0 then if Negative(bits) then "-NaN" else "+NaN"
      else if Negative(bits) then "-Infinity" else "+Infinity"
    else if Negative(bits) then "-0." else "0"
  }

  method DoubleToStr(bits: nat) returns (text: string, ghost f: nat, ghost e10: int)
    requires bits < TWO_64
    ensures text != "" && (text[0] == '-' <==> bits >= 0x8000_0000_0000_0000)
    ensures !Finite(bits) || Significand(bits) == 0 ==> text == SpecialText(bits)
    ensures Finite(bits) && Significand(bits) != 0 ==>
              && text == Text(Negative(bits), f, e10) && |text| <= 127 && -2000 <= e10 <= 2000
              && 0 < f <= TWO_53 && f % 10 != 0
              && Close(Magnitude(bits), Value(f, 0, e10))
              && forall m: nat :: IsWhole(bits, m) ==> e10 >= 0 && f * PowNat(10, e10) == m
  {
    hide Close, Magnitude, Text, PowNat, Value;
    SignBit(bits);
    var neg := Negative(bits);
    var exponent2 := Biased(bits);
    var fraction := Mantissa(bits);
    f, e10 := 0, 0;
    if exponent2 == 0x7ff {
      text := if fraction != 0 then if neg then "-NaN" else "+NaN" else if neg then "-Infinity" else "+Infinity";
      return;
    }
    if exponent2 == 0 { exponent2 := 1; } else { fraction := fraction + TWO_52; }
    if fraction == 0 {
      text := if neg then "-0." else "0";
      return;
    }
    var d, x := ToDecimal(bits);
    f, e10 := d, x;
    var buf := new char[128];
    var i := Print(buf, neg, d, x);
    text := buf[..][i..127];
    assert text + ['\0'] == buf[..][i..];
    SignFirst(neg, d, x);
    assert text == Text(neg, d, x);
  }

  lemma SignBit(bits: nat)
    requires bits < TWO_64
    ensures Negative(bits) <==> bits >= 0x8000_0000_0000_0000
  {
  }

  lemma SignFirst(neg: bool, f: nat, e10: int)
    ensures Text(neg, f, e10) != "" && (Text(neg, f, e10)[0] == '-' <==> neg)
  {
    FirstDigit(f);
  }

  /** The texts of the numbers that are not finite, and of the zeros, by their bits. */
  lemma SpecialTexts(bits: nat)
    requires bits < 0x1_0000_0000_0000_0000
    ensures bits == 0 ==> SpecialText(bits) == "0"
    ensures bits == 0x8000_0000_0000_0000 ==> SpecialText(bits) == "-0."
    ensures bits == 0x7ff0_0000_0000_0000 ==> SpecialText(bits) == "+Infinity"
    ensures bits == 0xfff0_0000_0000_0000 ==> SpecialText(bits) == "-Infinity"
    ensures 0x7ff0_0000_0000_0000 < bits < 0x8000_0000_0000_0000 ==> SpecialText(bits) == "+NaN"
    ensures 0xfff0_0000_0000_0000 < bits ==> SpecialText(bits) == "-NaN"
  {
  }

  /** Integers below 2**53, from their encoding to their text: the bits of `m` or of its negative are printed as the sign and a
      decimal equal to `m`. */
  method PrintWhole(neg: bool, m: nat, e: nat) returns (text: string, ghost f: nat, ghost e10: nat)
    requires 0 < m < 0x20_0000_0000_0000 && PowNat(2, e) <= m < 2 * PowNat(2, e)
    ensures f * PowNat(10, e10) == m && text == (if neg then "-" else "") + (Digits(f) + ExponentText(e10))
  {
    WholeBits(neg, m, e);
    hide PowNat, Magnitude, Digits, ExponentText, Close;
    var bits := (if neg then 0x8000_0000_0000_0000 else 0) + (1023 + e) * 0x10_0000_0000_0000 + (m * PowNat(2, 52 - e) - 0x10_0000_0000_0000);
    ghost var x;
    text, f, x := DoubleToStr(bits);
    e10 := x;
  }

  /** Those bits encode the integer. */
  lemma WholeBits(neg: bool, m: nat, e: nat)
    requires 0 < m < 0x20_0000_0000_0000 && PowNat(2, e) <= m < 2 * PowNat(2, e)
    ensures e <= 52 && 0x10_0000_0000_0000 <= m * PowNat(2, 52 - e) < 0x20_0000_0000_0000
    ensures var bits := (if neg then 0x8000_0000_0000_0000 else 0) + (1023 + e) * 0x10_0000_0000_0000
                        + (m * PowNat(2, 52 - e) - 0x10_0000_0000_0000);
            bits < 0x1_0000_0000_0000_0000 && Negative(bits) == neg && Finite(bits) && Significand(bits) != 0 && IsWhole(bits, m)
  {
    Exponents(m, e);
    hide PowNat, Pow, Magnitude, Negative, Finite, Significand, Biased, Mantissa;
    WholeValue(m, 52 - e);
    Encoded(neg, e, m * PowNat(2, 52 - e), m);
  }

  lemma Encoded(neg: bool, e: nat, f: nat, m: nat)
    requires e <= 52 && 0x10_0000_0000_0000 <= f < 0x20_0000_0000_0000 && f as real * Pow(2.0, e - 52) == m as real && m < TWO_53
    ensures var bits := (if neg then 0x8000_0000_0000_0000 else 0) + (1023 + e) * 0x10_0000_0000_0000 + (f - 0x10_0000_0000_0000);
            bits < 0x1_0000_0000_0000_0000 && Negative(bits) == neg && Finite(bits) && Significand(bits) != 0 && IsWhole(bits, m)
  {
    hide Pow, Magnitude, Negative, Finite, Significand, Biased, Mantissa;
    Encoding(neg, 1023 + e, f - 0x10_0000_0000_0000);
    MagnitudeIs(neg, 1023 + e, f - 0x10_0000_0000_0000);
  }

  lemma WholeValue(m: nat, k: nat)
    ensures (m * PowNat(2, k)) as real * Pow(2.0, 0 - k) == m as real
  {
    hide PowNat, Pow;
    PowNegative(k);
    ScaledBack(m as real, PowNat(2, k) as real, Pow(2.0, 0 - k));
    assert (m * PowNat(2, k)) as real == m as real * PowNat(2, k) as real;
  }

  lemma ScaledBack(m: real, p: real, q: real)
    requires q * p == 1.0
    ensures m * p * q == m
  {
    assert m * p * q == m * (q * p);
  }

  lemma Exponents(m: nat, e: nat)
    requires 0 < m < 0x20_0000_0000_0000 && PowNat(2, e) <= m < 2 * PowNat(2, e)
    ensures e <= 52 && 0x10_0000_0000_0000 <= m * PowNat(2, 52 - e) < 0x20_0000_0000_0000
  {
    PowerOf52();
    if e > 52 { PowMonotone(2, 53, e); }
    PowSum(2, e, 52 - e);
    Between(PowNat(2, e), m, PowNat(2, 52 - e));
  }

  lemma Between(a: nat, m: nat, p: nat)
    requires a <= m < 2 * a && p > 0
    ensures a * p <= m * p < 2 * (a * p)
  {
  }

  lemma PowerOf52()
    ensures PowNat(2, 52) == 0x10_0000_0000_0000 && PowNat(2, 53) == 0x20_0000_0000_0000
  {
    PowSum(2, 10, 10);
    PowSum(2, 20, 20);
    PowSum(2, 40, 12);
    PowSum(2, 10, 2);
    assert PowNat(2, 10) == 1024 && PowNat(2, 2) == 4;
  }

  /** Reading back the text of a finite non-zero double gives its sign and a decimal close to it. */
  method ReadBack(bits: nat) returns (neg: bool, val: nat, exponent: int, overflows: bool)
    requires bits < TWO_64 && Finite(bits) && Significand(bits) != 0
    ensures !overflows && neg == Negative(bits) && Close(Magnitude(bits), Value(val, 0, exponent))
    ensures neg <==> bits >= 0x8000_0000_0000_0000
    ensures forall m: nat :: IsWhole(bits, m) ==> exponent >= 0 && val * PowNat(10, exponent) == m
  {
    hide Close, Magnitude, Text, PowNat, Value, Finite, Significand, Grammar, Digits, Num, Truncates;
    var text;
    var end;
    ghost var f, e10, dropped;
    SignBit(bits);
    text, f, e10 := DoubleToStr(bits);
    neg, val, exponent, end, overflows, dropped := ParseDecimal(text);
    GrammarOfText(neg, f, e10);
    GrammarOfText(Negative(bits), f, e10);
    NumDigits(f);
    assert Digits(f) + "" == Digits(f);
    NothingDropped(f, val, dropped);
  }
}
