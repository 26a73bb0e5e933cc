/** The text of a number: printing a decimal significand and exponent from right to left into a
    character buffer, and the digit and exponent stage of reading it back. */
module DoubleFormat {
  import opened DoubleText

  const DIGITS: string := "0123456789"

  function Digits(n: nat): (r: string)
    ensures |r| > 0
  {
    if n < 10 then [DIGITS[n]] else Digits(n / 10) + [DIGITS[n % 10]]
  }

  /** The digits still to be printed when the loop variable is `m`. */
  function Left(m: nat): string {
    if m == 0 then "" else Digits(m)
  }

  lemma LastDigit(n: nat)
    ensures Digits(n) == Left(n / 10) + [DIGITS[n % 10]]
  {
  }

  lemma LeftNext(m: nat)
    requires m > 0
    ensures Left(m) == Left(m / 10) + [DIGITS[m % 10]]
  {
  }

  lemma {:induction false} DigitsLength(n: nat, k: nat)
    requires n < PowNat(10, k) && k > 0
    ensures |Digits(n)| <= k
  {
    if n >= 10 {
      assert PowNat(10, k) == 10 * PowNat(10, k - 1);
      DigitsLength(n / 10, k - 1);
    }
  }

  lemma SixteenDigits(f: nat)
    requires f <= TWO_53
    ensures |Digits(f)| <= 16
  {
    TenToThe16();
    DigitsLength(f, 16);
  }

  lemma FourDigits(e: nat)
    requires e <= 2000
    ensures |Digits(e)| <= 4
  {
    TenToThe16();
    DigitsLength(e, 4);
  }

  function Abs(x: int): nat { if x < 0 then -x else x }

  function ExponentText(e10: int): string {
    if e10 == 0 then "" else "E" + ((if e10 < 0 then "-" else "") + Digits(Abs(e10)))
  }

  function SignText(neg: bool): string {
    if neg then "-" else ""
  }

  /** The text printed for a sign, a significand and an exponent of ten. */
  function Text(neg: bool, f: nat, e10: int): string {
    SignText(neg) + (Digits(f) + ExponentText(e10))
  }

  // ----- printing -----

  /** Store one character before the text that runs from `at` to the terminating NUL. */
  method Prepend(buf: array<char>, at: nat, ch: char) returns (i: nat)
    requires 0 < at < buf.Length
    modifies buf
    ensures i == at - 1 && buf[..][i..] == [ch] + old(buf[..][at..])
  {
    i := at - 1;
    buf[i] := ch;
    assert buf[..] == old(buf[..])[i := ch];
  }

  /** Print the digits of `n` from right to left, before the text that starts at `at`. */
  method PrintDigits(buf: array<char>, at: nat, n: nat) returns (i: nat)
    requires |Digits(n)| <= at < buf.Length
    modifies buf
    ensures i == at - |Digits(n)| && buf[..][i..] == Digits(n) + old(buf[..][at..])
  {
    LastDigit(n);
    hide Digits, Left;
    ghost var rest := buf[..][at..];
    i := Prepend(buf, at, DIGITS[n % 10]);
    var m: nat := n / 10;
    Reassoc(Left(m), DIGITS[n % 10], rest);
    while m != 0
      invariant 0 <= i < at && i == at - |Digits(n)| + |Left(m)|
      invariant Left(m) + buf[..][i..] == Digits(n) + rest
    {
      LeftNext(m);
      Reassoc(Left(m / 10), DIGITS[m % 10], buf[..][i..]);
      i := Prepend(buf, i, DIGITS[m % 10]);
      m := m / 10;
    }
    NothingLeft(buf[..][i..]);
  }

  lemma Reassoc(a: string, ch: char, b: string)
    ensures a + ([ch] + b) == (a + [ch]) + b
  {
  }

  lemma NothingLeft(b: string)
    ensures Left(0) == "" && Left(0) + b == b
  {
  }

  /** Print from right to left; the text runs from the returned position to the terminating NUL. */
  method Print(buf: array<char>, neg: bool, f: nat, e10: int) returns (i: nat)
    requires buf.Length == 128 && f <= TWO_53 && -2000 <= e10 <= 2000
    modifies buf
    ensures i <= 127 && buf[..][i..] == Text(neg, f, e10) + ['\0']
  {
    SixteenDigits(f);
    FourDigits(Abs(e10));
    hide Digits;
    i := 127;
    buf[i] := '\0';
    assert buf[..][i..] == "\0";
    if e10 != 0 {
      i := PrintDigits(buf, i, Abs(e10));
      if e10 < 0 {
        i := Prepend(buf, i, '-');
      }
      i := Prepend(buf, i, 'E');
    }
    assert buf[..][i..] == ExponentText(e10) + ['\0'];
    i := PrintDigits(buf, i, f);
    if neg {
      i := Prepend(buf, i, '-');
    }
    Joined(neg, f, e10);
  }

  lemma Joined(neg: bool, f: nat, e10: int)
    ensures SignText(neg) + (Digits(f) + (ExponentText(e10) + ['\0'])) == Text(neg, f, e10) + ['\0']
  {
    hide Digits, ExponentText;
  }

  // ----- reading -----

  predicate IsDigit(c: char) { '0' <= c <= '9' }

  predicate IsSpace(c: char) { c == ' ' || '\t' <= c <= '\r' }

  /** The character at a position of a NUL-terminated string. */
  function At(s: string, i: nat): char { if i < |s| then s[i] else '\0' }

  /** Digits and whitespace by their codes. */
  lemma Characters(c: char)
    ensures IsDigit(c) <==> 48 <= c as int <= 57
    ensures IsSpace(c) <==> c as int in {9, 10, 11, 12, 13, 32}
  {
  }

  function SpaceEnd(s: string, i: nat): (r: nat)
    requires i <= |s|
    ensures i <= r <= |s|
    decreases |s| - i
  {
    if IsSpace(At(s, i)) then SpaceEnd(s, i + 1) else i
  }

  function DigitEnd(s: string, i: nat): (r: nat)
    requires i <= |s|
    ensures i <= r <= |s|
    decreases |s| - i
  {
    if IsDigit(At(s, i)) then DigitEnd(s, i + 1) else i
  }

  function DigitValue(c: char): (d: nat)
    ensures d < 10
  {
    if IsDigit(c) then (c - '0') as nat else 0
  }

  /** The number a string of digits stands for. */
  function Num(ds: string): nat {
    if ds == "" then 0
    else 10 * Num(ds[..|ds| - 1]) + DigitValue(ds[|ds| - 1])
  }

  lemma NumSnoc(ds: string, c: char)
    requires IsDigit(c)
    ensures Num(ds + [c]) == 10 * Num(ds) + DigitValue(c)
  {
    assert (ds + [c])[..|ds|] == ds;
  }

  predicate AllDigits(ds: string) { forall k :: 0 <= k < |ds| ==> IsDigit(ds[k]) }

  lemma {:induction false} NumDigits(n: nat)
    ensures Num(Digits(n)) == n && AllDigits(Digits(n))
  {
    if n < 10 {
      assert Digits(n)[..0] == "";
    } else {
      NumDigits(n / 10);
      NumSnoc(Digits(n / 10), DIGITS[n % 10]);
    }
  }

  lemma {:induction false} DigitEndIs(s: string, i: nat, r: nat)
    requires i <= r <= |s|
    requires forall k :: i <= k < r ==> IsDigit(s[k])
    requires !IsDigit(At(s, r))
    ensures DigitEnd(s, i) == r
    decreases r - i
  {
    if i < r {
      DigitEndIs(s, i + 1, r);
    }
  }

  /** A decimal number as written: its sign, the digits before and after the point, the exponent, and where it ends. */
  datatype Decimal = Decimal(neg: bool, whole: string, point: string, exp: int, end: nat)

  function SignLength(c: char): nat { if c == '-' || c == '+' then 1 else 0 }

  /** The exponent part, if one starts at `i`: its value and its end. */
  function Exponent(s: string, i: nat): (r: (int, nat))
    requires i <= |s|
    ensures i <= r.1 <= |s|
  {
    if At(s, i) != 'E' && At(s, i) != 'e' then (0, i) else
    var p := i + 1 + SignLength(At(s, i + 1));
    var n: int := Num(s[p..DigitEnd(s, p)]);
    (if At(s, i + 1) == '-' then -n else n, DigitEnd(s, p))
  }

  /** The longest decimal number at the start of a text: spaces, sign, digits, point and digits, exponent. */
  function Grammar(s: string): Decimal {
    var p0 := SpaceEnd(s, 0);
    var p1 := p0 + SignLength(At(s, p0));
    var p2 := DigitEnd(s, p1);
    var p3 := if At(s, p2) == '.' then p2 + 1 else p2;
    var p4 := if At(s, p2) == '.' then DigitEnd(s, p3) else p3;
    var e := Exponent(s, p4);
    Decimal(At(s, p0) == '-', s[p1..p2], s[p3..p4], e.0, e.1)
  }

  /** Examples: a number with everything, and one that begins with a point. */
  lemma GrammarExamples()
    ensures Grammar(" -12.5E+3x") == Decimal(true, "12", "5", 3, 9)
    ensures Grammar("+.5e-7") == Decimal(false, "", "5", -7, 6)
  {
    hide Grammar;
    FullExample();
    PointExample();
  }

  lemma FullExample()
    ensures Grammar(" -12.5E+3x") == Decimal(true, "12", "5", 3, 9)
  {
    var s := " -12.5E+3x";
    assert SpaceEnd(s, 0) == 1 && DigitEnd(s, 2) == 4 && DigitEnd(s, 5) == 6 && DigitEnd(s, 8) == 9;
    assert s[8..9] == "3" && Num("3") == 3;
    hide SpaceEnd, DigitEnd, Num;
  }

  lemma PointExample()
    ensures Grammar("+.5e-7") == Decimal(false, "", "5", -7, 6)
  {
    var s := "+.5e-7";
    assert SpaceEnd(s, 0) == 0 && DigitEnd(s, 1) == 1 && DigitEnd(s, 2) == 3 && DigitEnd(s, 5) == 6;
    assert s[5..6] == "7" && Num("7") == 7;
    hide SpaceEnd, DigitEnd, Num;
  }

  lemma TextExamples()
    ensures Text(true, 15, -3) == "-15E-3" && Text(false, 7, 0) == "7" && Text(false, 20, 10) == "20E10"
  {
  }

  /** `val` is `n` with its last `k` digits dropped. */
  ghost predicate Truncates(n: nat, val: nat, k: nat) {
    val * PowNat(10, k) <= n < (val + 1) * PowNat(10, k)
  }

  /** The significand `val` of `digits` significant digits, at most 18, stands for `n` without its last `dropped` digits. */
  ghost predicate Accumulated(n: nat, val: nat, digits: nat, dropped: nat) {
    && digits <= 18 && (dropped > 0 ==> digits == 18)
    && Truncates(n, val, dropped)
    && val < PowNat(10, digits)
    && (digits > 0 ==> PowNat(10, digits - 1) <= val)
  }

  lemma AccumulateKept(n: nat, val: nat, digits: nat, c: nat)
    requires Accumulated(n, val, digits, 0) && digits < 18 && c < 10
    ensures Accumulated(10 * n + c, 10 * val + c, if 10 * val + c != 0 then digits + 1 else digits, 0)
  {
    assert PowNat(10, 0) == 1;
    assert PowNat(10, digits + 1) == 10 * PowNat(10, digits);
    assert digits > 0 ==> PowNat(10, digits) == 10 * PowNat(10, digits - 1);
  }

  lemma AccumulateDropped(n: nat, val: nat, dropped: nat, c: nat)
    requires Accumulated(n, val, 18, dropped) && c < 10
    ensures Accumulated(10 * n + c, val, 18, dropped + 1)
  {
    var p := PowNat(10, dropped);
    assert PowNat(10, dropped + 1) == 10 * p;
    assert val * (10 * p) == 10 * (val * p);
    assert (val + 1) * (10 * p) == 10 * ((val + 1) * p);
  }

  /** The significand never reaches 2**64. */
  lemma AccumulatedFits(n: nat, val: nat, digits: nat, dropped: nat)
    requires Accumulated(n, val, digits, dropped)
    ensures val < 1_000_000_000_000_000_000
    ensures digits < 18 ==> val < 100_000_000_000_000_000
  {
    TenToThe16();
    PowSum(10, 16, 1);
    PowSum(10, 16, 2);
    assert PowNat(10, 1) == 10 && PowNat(10, 2) == 100;
    PowMonotone(10, digits, 18);
    if digits < 18 { PowMonotone(10, digits, 17); }
  }

  /** One digit of the significand. */
  method TakeDigit(c: char, v0: nat, d0: nat, ghost n: nat, ghost k0: nat) returns (val: nat, digits: nat, kept: bool, ghost dropped: nat)
    requires IsDigit(c) && Accumulated(n, v0, d0, k0)
    ensures Accumulated(10 * n + DigitValue(c), val, digits, dropped)
    ensures dropped == if kept then k0 else k0 + 1
  {
    AccumulatedFits(n, v0, d0, k0);
    if d0 < 18 {
      AccumulateKept(n, v0, d0, DigitValue(c));
      val := v0 * 10 + DigitValue(c);
      assert val < TWO_64;
      digits, kept, dropped := if val != 0 then d0 + 1 else d0, true, k0;
    } else {
      AccumulateDropped(n, v0, k0, DigitValue(c));
      val, digits, kept, dropped := v0, d0, false, k0 + 1;
    }
  }

  /** A run of digits of the significand, after the digits `before`. */
  method TakeRun(s: string, i: nat, v0: nat, d0: nat, ghost before: string, ghost k0: nat)
    returns (val: nat, digits: nat, j: nat, kept: nat, lost: nat, ghost dropped: nat)
    requires i <= |s| && Accumulated(Num(before), v0, d0, k0)
    ensures j == DigitEnd(s, i)
    ensures Accumulated(Num(before + s[i..j]), val, digits, dropped)
    ensures kept + lost == j - i && dropped == k0 + lost
  {
    hide Num, Accumulated, IsDigit;
    val, digits, j, kept, lost, dropped := v0, d0, i, 0, 0, k0;
    assert before + s[i..i] == before;
    while IsDigit(At(s, j))
      invariant i <= j <= |s| && DigitEnd(s, i) == DigitEnd(s, j)
      invariant Accumulated(Num(before + s[i..j]), val, digits, dropped)
      invariant kept + lost == j - i && dropped == k0 + lost
      decreases |s| - j
    {
      NulIsNoDigit(s, j);
      NumSnoc(before + s[i..j], s[j]);
      assert before + s[i..j + 1] == before + s[i..j] + [s[j]];
      var k;
      val, digits, k, dropped := TakeDigit(s[j], val, digits, Num(before + s[i..j]), dropped);
      j := j + 1;
      if k { kept := kept + 1; } else { lost := lost + 1; }
    }
  }

  lemma NulIsNoDigit(s: string, j: nat)
    requires IsDigit(At(s, j))
    ensures j < |s|
  {
  }

  /** The range of the int in which the exponent is kept. */
  const INT_MAX: int := 0x7fff_ffff

  predicate FitsInt(n: int) { -INT_MAX - 1 <= n <= INT_MAX }

  /** The digits of the exponent; `overflows` says that an int does not hold the number. */
  method TakeNumber(s: string, p: nat) returns (n: nat, j: nat, overflows: bool)
    requires p <= |s|
    ensures j == DigitEnd(s, p) && n == Num(s[p..j]) && (overflows <==> !FitsInt(n))
  {
    hide Num, IsDigit;
    n, j, overflows := 0, p, false;
    NumEmpty(s[p..p]);
    while IsDigit(At(s, j))
      invariant p <= j <= |s| && DigitEnd(s, p) == DigitEnd(s, j)
      invariant n == Num(s[p..j]) && (overflows <==> !FitsInt(n))
      decreases |s| - j
    {
      NulIsNoDigit(s, j);
      assert s[p..j + 1] == s[p..j] + [s[j]];
      NumSnoc(s[p..j], s[j]);
      n := n * 10 + DigitValue(s[j]);
      overflows := overflows || !FitsInt(n);
      j := j + 1;
    }
  }

  lemma NumEmpty(s: string)
    requires s == ""
    ensures Num(s) == 0
  {
  }

  /** The exponent part. */
  method TakeExponent(s: string, i: nat) returns (exponent: int, j: nat, overflows: bool)
    requires i <= |s|
    ensures (exponent, j) == Exponent(s, i) && (overflows <==> Abs(exponent) > INT_MAX)
  {
    hide Num, DigitEnd;
    exponent, j, overflows := 0, i, false;
    if At(s, j) == 'E' || At(s, j) == 'e' {
      j := j + 1;
      var signExp := At(s, j) == '-';
      if signExp || At(s, j) == '+' {
        j := j + 1;
      }
      exponent, j, overflows := TakeNumber(s, j);
      if signExp {
        exponent := -exponent;
      }
    }
  }

  method SkipSpaces(s: string) returns (j: nat)
    ensures j == SpaceEnd(s, 0)
  {
    j := 0;
    while IsSpace(At(s, j))
      invariant j <= |s| && SpaceEnd(s, 0) == SpaceEnd(s, j)
      decreases |s| - j
    {
      j := j + 1;
    }
  }

  /** The digit and exponent stage: the number written is the significand times ten to the exponent, cut to 18
      significant digits (never to fewer, and only when there are more), which always fit 64 bits. The exponent is an int in the
      source: `overflows` says that one of the numbers computed for it does not fit. For a text whose length is an int that
      happens exactly if the exponent written does not fit or the exponent of the significand does not. */
  method ParseDecimal(s: string) returns (neg: bool, val: nat, exponent: int, end: nat, overflows: bool, ghost dropped: nat)
    ensures neg == Grammar(s).neg && end == Grammar(s).end && val < 1_000_000_000_000_000_000
    ensures var g := Grammar(s);
            Truncates(Num(g.whole + g.point), val, dropped) && exponent == g.exp - |g.point| + dropped
    ensures dropped > 0 ==> PowNat(10, 17) <= val
    ensures |s| <= 0x7fff_ffff ==>
              (overflows <==> Abs(Grammar(s).exp) > 0x7fff_ffff || exponent < -0x8000_0000 || exponent > 0x7fff_ffff)
  {
    hide Accumulated, Truncates, SpaceEnd, DigitEnd, Num, Exponent, PowNat;
    var j := SkipSpaces(s);
    neg := At(s, j) == '-';
    if neg || At(s, j) == '+' {
      j := j + 1;
    }
    ghost var p1 := j;
    NothingAccumulated();
    var digits, kept, lost;
    val, digits, j, kept, lost, dropped := TakeRun(s, j, 0, 0, "", 0);
    ghost var whole := s[p1..j];
    assert "" + whole == whole;
    var fraction: int := -(lost as int);
    ghost var p3 := j;
    if At(s, j) == '.' {
      j := j + 1;
      p3 := j;
      val, digits, j, kept, lost, dropped := TakeRun(s, j, val, digits, whole, dropped);
      fraction := fraction + kept;
    } else {
      assert whole + s[j..j] == whole;
    }
    ghost var point := s[p3..j];
    assert |s| <= INT_MAX ==> FitsInt(fraction);
    exponent, end, overflows := TakeExponent(s, j);
    exponent, overflows := exponent - fraction, overflows || !FitsInt(fraction) || !FitsInt(exponent - fraction);
    AccumulatedFits(Num(whole + point), val, digits, dropped);
    AccumulatedMeans(Num(whole + point), val, digits, dropped);
  }

  lemma NothingAccumulated()
    ensures Accumulated(Num(""), 0, 0, 0)
  {
    assert PowNat(10, 0) == 1;
  }

  lemma AccumulatedMeans(n: nat, val: nat, digits: nat, dropped: nat)
    requires Accumulated(n, val, digits, dropped)
    ensures Truncates(n, val, dropped) && (dropped > 0 ==> PowNat(10, 17) <= val)
  {
  }

  // ----- the round trip -----

  lemma FirstDigit(n: nat)
    ensures !IsSpace(Digits(n)[0]) && Digits(n)[0] != '-' && Digits(n)[0] != '+'
  {
    NumDigits(n);
    hide Digits, Num;
    assert IsDigit(Digits(n)[0]);
  }

  /** A printed number is taken apart into what was printed. */
  lemma GrammarOfText(neg: bool, f: nat, e10: int)
    ensures Grammar(Text(neg, f, e10)) == Decimal(neg, Digits(f), "", e10, |Text(neg, f, e10)|)
  {
    hide Digits, Num, DigitEnd, SpaceEnd, Exponent, ExponentText, SignLength;
    var s, p1 := Text(neg, f, e10), |SignText(neg)|;
    var p2 := p1 + |Digits(f)|;
    Slices(SignText(neg), Digits(f), ExponentText(e10));
    SignOfText(neg, f, e10);
    DigitsOfText(s, SignText(neg), f, ExponentText(e10), e10);
    ExponentOfText(s, p2, e10);
    hide Text, SignText;
    assert s[p2..p2] == "";
  }

  lemma Slices(a: string, b: string, c: string)
    ensures var s := a + (b + c);
            && |s| == |a| + |b| + |c| && s[|a|..|a| + |b|] == b && s[|a| + |b|..] == c
            && (forall k :: |a| <= k < |a| + |b| ==> s[k] == b[k - |a|]) && (c != "" ==> s[|a| + |b|] == c[0])
  {
  }

  /** The text begins with the sign, if there is one, and has no spaces before it. */
  lemma SignOfText(neg: bool, f: nat, e10: int)
    ensures var s := Text(neg, f, e10); SpaceEnd(s, 0) == 0 && (At(s, 0) == '-' <==> neg) && SignLength(At(s, 0)) == |SignText(neg)|
  {
    FirstDigit(f);
    hide Digits;
    var s := Text(neg, f, e10);
    assert s[0] == if neg then '-' else Digits(f)[0];
  }

  /** Its digits are followed by the end or by the exponent. */
  lemma DigitsOfText(s: string, sign: string, f: nat, exponent: string, e10: int)
    requires s == sign + (Digits(f) + exponent) && exponent == ExponentText(e10)
    ensures var p1, p2 := |sign|, |sign| + |Digits(f)|;
            p2 <= |s| && DigitEnd(s, p1) == p2 && At(s, p2) != '.'
  {
    hide Digits, Num, DigitEnd, ExponentText;
    NumDigits(f);
    ExponentFirst(e10);
    Slices(sign, Digits(f), exponent);
    RunInside(s, |sign|, Digits(f));
  }

  lemma ExponentFirst(e10: int)
    ensures ExponentText(e10) != "" ==> ExponentText(e10)[0] == 'E'
  {
  }

  lemma RunInside(s: string, p: nat, ds: string)
    requires AllDigits(ds) && p + |ds| <= |s| && (forall k :: p <= k < p + |ds| ==> s[k] == ds[k - p]) && !IsDigit(At(s, p + |ds|))
    ensures DigitEnd(s, p) == p + |ds|
  {
    hide IsDigit, DigitEnd;
    forall k | p <= k < p + |ds| ensures IsDigit(s[k]) { assert IsDigit(ds[k - p]); }
    DigitEndIs(s, p, p + |ds|);
  }

  lemma ExponentOfText(s: string, i: nat, e10: int)
    requires i <= |s| && s[i..] == ExponentText(e10)
    ensures Exponent(s, i) == (e10, |s|)
  {
    NumDigits(Abs(e10));
    FirstDigit(Abs(e10));
    hide Digits, Num, DigitEnd;
    if e10 != 0 {
      var t := s[i..];
      assert s[i] == t[0] && At(s, i + 1) == t[1];
      var p := i + 1 + SignLength(At(s, i + 1));
      assert s[p..] == t[p - i..] == Digits(Abs(e10));
      assert s[p..|s|] == s[p..];
      assert forall k :: p <= k < |s| ==> s[k] == s[p..][k - p];
      DigitEndIs(s, p, |s|);
    }
  }

  lemma WithoutNul(all: string, s: string, t: string)
    requires all == t + ['\0'] && |s| == |all| - 1 && s == all[..|s|]
    ensures s == t
  {
  }

  /** A printed number reads back as the sign, the significand and the exponent that were printed. */
  method PrintAndParse(neg: bool, f: nat, e10: int) returns (neg2: bool, val: nat, exponent: int, end: nat, overflows: bool)
    requires f <= TWO_53 && -2000 <= e10 <= 2000
    ensures !overflows && neg2 == neg && val == f && exponent == e10 && end == |Text(neg, f, e10)|
  {
    hide Text, Digits, Grammar, Num, Truncates, PowNat;
    ghost var dropped;
    var buf := new char[128];
    var i := Print(buf, neg, f, e10);
    var s := buf[..][i..127];
    WithoutNul(buf[..][i..], s, Text(neg, f, e10));
    neg2, val, exponent, end, overflows, dropped := ParseDecimal(s);
    GrammarOfText(neg, f, e10);
    NumDigits(f);
    assert Digits(f) + "" == Digits(f);
    NothingDropped(f, val, dropped);
  }

  /** The number 1E2147483648 makes the exponent overflow. */
  method BigExponent() returns (overflows: bool)
    ensures overflows
  {
    var s := Text(false, 1, 2147483648);
    SixteenDigits(1);
    SixteenDigits(2147483648);
    GrammarOfText(false, 1, 2147483648);
    hide Digits, Grammar, Truncates;
    var neg, val, exponent, end;
    ghost var dropped;
    neg, val, exponent, end, overflows, dropped := ParseDecimal(s);
  }

  lemma TimesAtLeast(a: nat, b: nat)
    requires b > 0
    ensures a <= a * b
  {
  }

  lemma NothingDropped(n: nat, val: nat, dropped: nat)
    requires Truncates(n, val, dropped) && n <= TWO_53 && (dropped > 0 ==> PowNat(10, 17) <= val)
    ensures dropped == 0 && val == n
  {
    PowMonotone(10, 0, dropped);
    if dropped > 0 {
      TenToThe16();
      PowSum(10, 16, 1);
      TimesAtLeast(val, PowNat(10, dropped));
      assert false;
    }
    assert PowNat(10, 0) == 1;
  }
}
