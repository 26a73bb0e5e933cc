/** Decimal conversion of double-precision numbers: the integer arithmetic that turns a binary
    significand and exponent into a decimal one, the printing of the result, and the reading of it back. */
module DoubleText {

  const TWO_52: nat := 0x10_0000_0000_0000
  const TWO_53: nat := 0x20_0000_0000_0000
  const TWO_60: nat := 0x1000_0000_0000_0000
  const TWO_61: nat := 0x2000_0000_0000_0000
  const TWO_62: nat := 0x4000_0000_0000_0000
  const TWO_63: nat := 0x8000_0000_0000_0000
  const TWO_64: nat := 0x1_0000_0000_0000_0000

  // ----- powers with integer exponents -----

  function Pow(b: real, e: int): (r: real)
    requires b > 0.0
    ensures r > 0.0
    decreases if e < 0 then -e else e
  {
    if e == 0 then 1.0 else if e > 0 then b * Pow(b, e - 1) else Pow(b, e + 1) / b
  }

  lemma PowNext(b: real, e: int)
    requires b > 0.0
    ensures Pow(b, e + 1) == b * Pow(b, e)
  {
    if e < 0 {
      assert Pow(b, e) == Pow(b, e + 1) / b;
    }
  }

  /** fraction * 2**exponent2 * 10**exponent10 */
  function Value(f: nat, e2: int, e10: int): real {
    f as real * (Pow(2.0, e2) * Pow(10.0, e10))
  }

  lemma HalveExact(f: nat, e2: int, e10: int)
    requires f % 2 == 0
    ensures Value(f / 2, e2 + 1, e10) == Value(f, e2, e10)
  {
    PowNext(2.0, e2);
    var g, w := f / 2, Pow(2.0, e2) * Pow(10.0, e10);
    assert f == 2 * g;
    assert Pow(2.0, e2 + 1) * Pow(10.0, e10) == 2.0 * w;
    assert g as real * (2.0 * w) == (2.0 * g as real) * w;
  }

  lemma TimesFiveExact(f: nat, e2: int, e10: int)
    ensures Value(f * 5, e2 + 1, e10 - 1) == Value(f, e2, e10)
  {
    PowNext(2.0, e2);
    PowNext(10.0, e10 - 1);
    var p, t := Pow(2.0, e2), Pow(10.0, e10 - 1);
    assert (2.0 * p) * t * 5.0 == p * (10.0 * t);
    assert (f * 5) as real == f as real * 5.0;
    assert (f as real * 5.0) * ((2.0 * p) * t) == f as real * (p * (10.0 * t));
  }

  lemma DoubleExact(f: nat, e2: int, e10: int)
    ensures Value(f * 2, e2 - 1, e10) == Value(f, e2, e10)
  {
    HalveExact(f * 2, e2 - 1, e10);
  }

  lemma TenthExact(f: nat, e2: int, e10: int)
    requires f % 10 == 0
    ensures Value(f / 10, e2, e10 + 1) == Value(f, e2, e10)
  {
    PowNext(10.0, e10);
    var g, p, t := f / 10, Pow(2.0, e2), Pow(10.0, e10);
    assert f == 10 * g;
    assert g as real * (p * (10.0 * t)) == (10.0 * g as real) * (p * t);
  }

  // ----- error bounds -----

  lemma MulMonotone(a: real, b: real, c: real)
    requires a <= b && c >= 0.0
    ensures a * c <= b * c
  {
  }

  /** Replacing f by g, which differ by at most one k-th of f, changes the value by at most one k-th of it. */
  lemma ValueNear(f: nat, g: nat, e2: int, e10: int, k: nat)
    requires 0 <= f + k * (g - f) && k * (g - f) <= f
    ensures var v, u := Value(f, e2, e10), Value(g, e2, e10);
            -v <= k as real * (u - v) <= v
  {
    hide Pow;
    var w, d := Pow(2.0, e2) * Pow(10.0, e10), k * (g - f);
    IntToReal(k, g, f);
    Distribute(k as real, g as real, f as real, w);
    MulMonotone(-(f as real), d as real, w);
    MulMonotone(d as real, f as real, w);
    NegMul(f as real, w);
  }

  lemma IntToReal(k: nat, g: nat, f: nat)
    ensures (k * (g - f)) as real == k as real * (g as real - f as real)
  {
  }

  lemma Distribute(k: real, a: real, b: real, w: real)
    ensures (k * (a - b)) * w == k * (a * w - b * w)
  {
    assert (a - b) * w == a * w - b * w;
    assert (k * (a - b)) * w == k * ((a - b) * w);
  }

  lemma NegMul(a: real, w: real)
    ensures -a * w == -(a * w)
  {
  }

  lemma HalveRounded(f: nat, e2: int, e10: int, k: nat)
    requires f % 2 == 1 && k <= f
    ensures var v, u := Value(f, e2, e10), Value((f + 1) / 2, e2 + 1, e10);
            -v <= k as real * (u - v) <= v
  {
    hide Value;
    HalveExact(f + 1, e2, e10);
    ValueNear(f, f + 1, e2, e10, k);
  }

  lemma TenthRounded(f: nat, e2: int, e10: int, k: nat)
    requires 5 * k <= f
    ensures var v, u := Value(f, e2, e10), Value((f + 5) / 10, e2, e10 + 1);
            -v <= k as real * (u - v) <= v
  {
    hide Value;
    var g := (f + 5) / 10 * 10;
    assert f - 5 <= g <= f + 5;
    assert g / 10 == (f + 5) / 10 && g % 10 == 0;
    TenthExact(g, e2, e10);
    MulBound(k, g - f);
    ValueNear(f, g, e2, e10, k);
  }

  lemma MulBound(k: nat, d: int)
    requires -5 <= d <= 5
    ensures -5 * k <= k * d <= 5 * k
  {
  }

  // ----- the conversion -----

  /** `v` differs from `n` by at most `r` times `unit`. */
  ghost predicate Near(n: real, v: real, unit: real, r: nat) {
    -(r as real * unit) <= v - n <= r as real * unit
  }

  /** One more rounding step, of relative size 1/2h, stays within one more unit, which is n/h. */
  lemma NearStep(n: real, v: real, u: real, unit: real, r: nat, h: nat)
    requires n == h as real * unit && unit > 0.0 && r <= h && h > 0
    requires Near(n, v, unit, r)
    requires -v <= (2 * h) as real * (u - v) <= v
    ensures Near(n, u, unit, r + 1)
  {
    var err, k := r as real * unit, (2 * h) as real;
    MulMonotone(r as real, h as real, unit);
    Twice(h, unit);
    OneMore(r, unit);
    NearStepReal(n, v, u, unit, err, k);
  }

  lemma Twice(h: nat, unit: real)
    ensures (2 * h) as real * unit == h as real * unit + h as real * unit
  {
    var x := h as real;
    assert (2 * h) as real == x + x;
    assert (x + x) * unit == x * unit + x * unit;
  }

  lemma OneMore(r: nat, unit: real)
    ensures (r + 1) as real * unit == r as real * unit + unit
  {
    var x := r as real;
    assert (r + 1) as real == x + 1.0;
    assert (x + 1.0) * unit == x * unit + unit;
  }

  lemma NearStepReal(n: real, v: real, u: real, unit: real, err: real, k: real)
    requires err <= n && k > 0.0 && k * unit == n + n
    requires -err <= v - n <= err
    requires -v <= k * (u - v) <= v
    ensures -(err + unit) <= u - n <= err + unit
  {
    NearStepDifference(v, u - v, unit, k, n);
  }

  lemma NearStepDifference(v: real, d: real, unit: real, k: real, n: real)
    requires k > 0.0 && k * unit == n + n && v <= n + n && -v <= k * d <= v
    ensures -unit <= d <= unit
  {
    var x, y := k * d, k * unit;
    assert x <= y;
    DivMonotone(d, unit, k);
    assert k * (-d) == -x;
    DivMonotone(-d, unit, k);
  }

  lemma DivMonotone(a: real, b: real, k: real)
    requires k > 0.0 && k * a <= k * b
    ensures a <= b
  {
  }

  /** How many bits of room are used above 2**61. */
  function Level(f: nat): nat {
    if f < TWO_61 then 0 else if f < TWO_62 then 1 else if f < TWO_63 then 2 else 3
  }

  /** A significand above 2**61 has got there by doubling, so its low bits are zero. */
  predicate Doubled(f: nat) {
    && f < TWO_64
    && (f >= TWO_61 ==> f % 2 == 0)
    && (f >= TWO_62 ==> f % 4 == 0)
    && (f >= TWO_63 ==> f % 8 == 0)
  }

  lemma DoubledTwice(f: nat)
    requires Doubled(f) && f < TWO_63
    ensures Doubled(f * 2) && Level(f * 2) <= Level(f) + 1
  {
  }

  /** Adding 5 does not wrap: the significand is a multiple of 8 below 2**64. */
  lemma NoWrap(f: nat)
    requires Doubled(f) && f >= TWO_63
    ensures f + 5 < TWO_64 && Doubled((f + 5) / 10) && Level((f + 5) / 10) == 0 && 0 < (f + 5) / 10 < f
  {
  }

  /** One turn of the loop for a negative binary exponent. */
  method StepDown(fraction: nat, e2: int, e10: int) returns (f: nat, exponent10: int, ghost rounded: bool)
    requires 0 < fraction <= 5 * TWO_60
    ensures 0 < f <= 5 * TWO_60 && e10 - 1 <= exponent10 <= e10
    ensures var v, u := Value(fraction, e2, e10), Value(f, e2 + 1, exponent10);
            if rounded then -v <= TWO_60 as real * (u - v) <= v else u == v
    ensures fraction % 2 == 0 ==> f == fraction / 2 && exponent10 == e10 && !rounded
  {
    hide Value;
    exponent10, rounded := e10, false;
    if fraction % 2 == 0 {
      HalveExact(fraction, e2, e10);
      f := fraction / 2;
    } else if fraction > TWO_60 {
      HalveRounded(fraction, e2, e10, TWO_60);
      f := (fraction + 1) / 2;
      rounded := true;
    } else {
      TimesFiveExact(fraction, e2, e10);
      f := fraction * 5;
      assert f < TWO_64;
      exponent10 := e10 - 1;
    }
  }

  /** One turn of the loop for a positive binary exponent. */
  method StepUp(fraction: nat, e2: int, e10: int) returns (f: nat, exponent2: int, exponent10: int, ghost rounded: bool)
    requires 0 < fraction && Doubled(fraction)
    ensures 0 < f && Doubled(f)
    ensures if rounded then exponent2 == e2 && exponent10 == e10 + 1 && Level(fraction) == 3 && Level(f) == 0 && f < fraction
            else exponent2 == e2 - 1 && exponent10 == e10 && Level(f) <= Level(fraction) + 1
    ensures var v, u := Value(fraction, e2, e10), Value(f, exponent2, exponent10);
            if rounded then -v <= TWO_60 as real * (u - v) <= v else u == v
  {
    hide Value;
    if fraction < TWO_63 {
      DoubleExact(fraction, e2, e10);
      DoubledTwice(fraction);
      f, exponent2, exponent10, rounded := fraction * 2, e2 - 1, e10, false;
      assert f < TWO_64;
    } else {
      NoWrap(fraction);
      assert fraction + 5 < TWO_64;
      TenthRounded(fraction, e2, e10, TWO_60);
      f, exponent2, exponent10, rounded := (fraction + 5) / 10, e2, e10 + 1, true;
    }
  }

  /** The number f * 2**e2 is the integer m. */
  ghost predicate IsInteger(f: nat, e2: int, m: nat) {
    e2 <= 0 && f == m * PowNat(2, -e2)
  }

  function PowNat(b: nat, e: nat): nat {
    if e == 0 then 1 else b * PowNat(b, e - 1)
  }

  lemma IntegerHalf(f: nat, e2: int, m: nat)
    requires IsInteger(f, e2, m) && e2 < 0
    ensures f % 2 == 0 && IsInteger(f / 2, e2 + 1, m)
  {
    var p := PowNat(2, -e2 - 1);
    assert PowNat(2, -e2) == 2 * p;
    assert f == 2 * (m * p);
  }

  /** The loop that brings the binary exponent to zero. */
  method Scale(f0: nat, x2: int, ghost unit: real) returns (fraction: nat, exponent10: int, ghost r: nat)
    requires 0 < f0 < TWO_53 && -1074 <= x2 <= 971
    requires Value(f0, x2, 0) == (TWO_60 / 2) as real * unit && unit > 0.0
    ensures 0 < fraction < TWO_64
    ensures Near(Value(f0, x2, 0), Value(fraction, 0, exponent10), unit, r)
    ensures r <= 1074 && -1074 <= exponent10 <= 324
    ensures forall m :: IsInteger(f0, x2, m) ==> fraction == m && exponent10 == 0 && r == 0
  {
    hide Value, Near, IsInteger, Doubled, Level;
    ghost var n := Value(f0, x2, 0);
    var exponent2 := x2;
    fraction, exponent10, r := f0, 0, 0;
    Start(f0, x2, unit);
    while exponent2 != 0
      invariant 0 < fraction < TWO_64
      invariant x2 <= 0 ==> x2 <= exponent2 <= 0 && fraction <= 5 * TWO_60
      invariant x2 <= 0 ==> r <= exponent2 - x2 && x2 - exponent2 <= exponent10 <= 0
      invariant x2 >= 0 ==> 0 <= exponent2 <= x2 && Doubled(fraction)
      invariant x2 >= 0 ==> 3 * r + Level(fraction) <= x2 - exponent2 && exponent10 == r
      invariant Near(n, Value(fraction, exponent2, exponent10), unit, r)
      invariant forall m :: IsInteger(f0, x2, m) ==> IsInteger(fraction, exponent2, m) && exponent10 == 0 && r == 0 && x2 <= 0
      decreases if exponent2 < 0 then -exponent2 else exponent2, fraction
    {
      ghost var v := Value(fraction, exponent2, exponent10);
      ghost var rounded;
      if exponent2 < 0 {
        forall m | IsInteger(fraction, exponent2, m) ensures fraction % 2 == 0 && IsInteger(fraction / 2, exponent2 + 1, m) {
          IntegerHalf(fraction, exponent2, m);
        }
        fraction, exponent10, rounded := StepDown(fraction, exponent2, exponent10);
        exponent2 := exponent2 + 1;
      } else {
        fraction, exponent2, exponent10, rounded := StepUp(fraction, exponent2, exponent10);
        DoubledBound(fraction);
      }
      if rounded {
        NearStep(n, v, Value(fraction, exponent2, exponent10), unit, r, TWO_60 / 2);
        r := r + 1;
      }
    }
    forall m | IsInteger(fraction, 0, m) ensures fraction == m { IntegerEnd(fraction, m); }
  }

  lemma DoubledBound(f: nat)
    requires Doubled(f)
    ensures f < TWO_64
  {
  }

  lemma IntegerEnd(f: nat, m: nat)
    requires IsInteger(f, 0, m)
    ensures f == m
  {
  }

  lemma Start(f0: nat, x2: int, unit: real)
    requires 0 < f0 < TWO_53
    ensures Near(Value(f0, x2, 0), Value(f0, x2, 0), unit, 0)
    ensures Doubled(f0) && Level(f0) == 0
    ensures forall m :: IsInteger(f0, x2, m) ==> x2 <= 0
  {
  }

  /** The loop that brings the significand to 53 bits. */
  method Shorten(f0: nat, x10: int, ghost unit: real) returns (fraction: nat, exponent10: int, ghost r: nat)
    requires 0 < f0 < TWO_64 && Value(f0, 0, x10) == (TWO_53 / 16) as real * unit && unit > 0.0
    ensures 0 < fraction <= TWO_53 && r <= 4 && exponent10 == x10 + r
    ensures Near(Value(f0, 0, x10), Value(fraction, 0, exponent10), unit, r)
    ensures f0 <= TWO_53 ==> fraction == f0 && r == 0
  {
    hide Value, Near;
    fraction, exponent10, r := f0, x10, 0;
    NearSelf(Value(f0, 0, x10), unit);
    while fraction > TWO_53
      invariant 0 < fraction && exponent10 == x10 + r && r <= 4
      invariant r == 0 ==> fraction == f0
      invariant fraction < (if r == 0 then TWO_64 else if r == 1 then TWO_61 else if r == 2 then TWO_60 / 4 else if r == 3 then TWO_60 / 32 else TWO_52)
      invariant Near(Value(f0, 0, x10), Value(fraction, 0, exponent10), unit, r)
      invariant f0 <= TWO_53 ==> r == 0
    {
      TenthRounded(fraction, 0, exponent10, TWO_53 / 8);
      NearStep(Value(f0, 0, x10), Value(fraction, 0, exponent10), Value((fraction + 5) / 10, 0, exponent10 + 1), unit, r, TWO_53 / 16);
      fraction := (fraction + 5) / 10;
      exponent10 := exponent10 + 1;
      r := r + 1;
    }
  }

  lemma NearSelf(v: real, unit: real)
    ensures Near(v, v, unit, 0)
  {
  }

  lemma {:induction false} PowMonotone(b: nat, i: nat, j: nat)
    requires b > 0 && i <= j
    ensures 0 < PowNat(b, i) <= PowNat(b, j)
    decreases j
  {
    if i < j {
      PowMonotone(b, i, j - 1);
    } else if i > 0 {
      PowMonotone(b, i - 1, j - 1);
    }
  }

  lemma SmallPower(k: nat)
    requires PowNat(10, k) <= TWO_53
    ensures k <= 15
  {
    if k >= 16 {
      PowMonotone(10, 16, k);
      TenToThe16();
      assert false;
    }
  }

  lemma TenToThe16()
    ensures PowNat(10, 4) == 10_000 && PowNat(10, 8) == 1_0000_0000 && PowNat(10, 16) == 1_0000_0000_0000_0000
  {
    PowSum(10, 4, 4);
    PowSum(10, 8, 8);
    assert PowNat(10, 2) == 100;
  }

  lemma {:induction false} PowSum(b: nat, i: nat, j: nat)
    ensures PowNat(b, i + j) == PowNat(b, i) * PowNat(b, j)
    decreases i
  {
    if i > 0 {
      PowSum(b, i - 1, j);
      assert b * (PowNat(b, i - 1) * PowNat(b, j)) == (b * PowNat(b, i - 1)) * PowNat(b, j);
    }
  }

  /** The loop that drops trailing zeros. */
  method Strip(f0: nat, x10: int) returns (fraction: nat, exponent10: int)
    requires 0 < f0 <= TWO_53
    ensures 0 < fraction <= f0 && fraction % 10 != 0 && x10 <= exponent10 <= x10 + 15
    ensures Value(fraction, 0, exponent10) == Value(f0, 0, x10)
    ensures fraction * PowNat(10, exponent10 - x10) == f0
  {
    hide Value;
    fraction, exponent10 := f0, x10;
    while fraction % 10 == 0
      invariant 0 < fraction <= f0 && x10 <= exponent10
      invariant Value(fraction, 0, exponent10) == Value(f0, 0, x10)
      invariant fraction * PowNat(10, exponent10 - x10) == f0
      decreases fraction
    {
      TenthExact(fraction, 0, exponent10);
      Regroup(fraction, exponent10 - x10);
      fraction := fraction / 10;
      exponent10 := exponent10 + 1;
    }
    PowMonotone(10, 0, exponent10 - x10);
    Factor(fraction, PowNat(10, exponent10 - x10));
    SmallPower(exponent10 - x10);
  }

  lemma Regroup(f: nat, k: nat)
    requires f % 10 == 0
    ensures f / 10 * PowNat(10, k + 1) == f * PowNat(10, k)
  {
    var g, p := f / 10, PowNat(10, k);
    assert f == 10 * g;
    assert g * (10 * p) == (10 * g) * p;
  }

  lemma Factor(a: nat, b: nat)
    requires a > 0
    ensures b <= a * b
  {
  }
}
