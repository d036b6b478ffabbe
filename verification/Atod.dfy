/** The numeric part of js_atod, the bits of a double, and printing followed by parsing. */
module Atod {
  import opened Limbs
  import opened Bignum
  import opened RealRounding
  import opened Scaling
  import opened DoubleRounding
  import opened ReadBack
  import opened FreeFormat
  import opened DigitText

  // The bits of a double, sign aside.

  const INFINITY: nat := 0x7ff0_0000_0000_0000

  /** The number that the bits below those of infinity stand for. */
  ghost function MagnitudeOf(a: nat): real {
    if a / TWO52 == 0 then Shift2((a % TWO52) as real, MIN_EXPONENT)
    else Shift2((TWO52 + a % TWO52) as real, a / TWO52 - 1075)
  }

  /** One, the least positive double and the greatest finite one, as IEEE 754 has them. */
  lemma KnownDoubles()
    ensures MagnitudeOf(0x3ff0_0000_0000_0000) == 1.0
    ensures MagnitudeOf(1) == Scale(2, -1074)
    ensures MagnitudeOf(0x7fef_ffff_ffff_ffff) == Scale(2, 1024) - Scale(2, 971)
  {
    hide Shift2, Scale;
    PowMantissa();
    ShiftUnit(-1074);
    ShiftNat(1, 52, -52, 0);
    ShiftZero(1.0);
    ShiftNat(1, 53, 971, 1024);
    ShiftUnit(1024);
    ShiftUnit(971);
    ShiftDiff(9007199254740992.0, 1.0, 971);
  }

  /** js_dtoa: the normalized mantissa and exponent of a finite nonzero double. */
  function UnpackOf(a: nat): (nat, int) {
    var e, m := a / TWO52, a % TWO52;
    if e == 0 then
      BitLenSmall(m);
      var l := 64 - BitLen(m) - 11;
      (Shl(m, l), e - (l - 1) - 1022)
    else (m + TWO52, e - 1022)
  }

  lemma BitLenSmall(m: nat)
    requires m < TWO52
    ensures BitLen(m) <= 52
  {
    if m > 0 {
      BitLenIs(m);
      PowMantissa();
      if BitLen(m) > 52 { PowMono(2, 52, BitLen(m) - 1); }
    }
  }

  /** js_atod: the bits of a rounded mantissa and exponent. */
  function PackOf(m: nat, e: int): nat {
    if m == 0 then 0
    else if e > 1024 then INFINITY
    else if e < -1073 then 0
    else if e < -1021 then PackSubnormal(m, -e - 1021)
    else (e + 1022) * TWO52 + m % TWO52
  }

  function PackSubnormal(m: nat, j: nat): nat {
    m / Pow(2, j)
  }

  lemma UnpackIs(a: nat)
    requires 0 < a < INFINITY
    ensures var (m, e) := UnpackOf(a); DoubleParts(m, e) && e <= 1024 && ValueOf(m, e) == MagnitudeOf(a)
  {
    hide Shift2, Pow;
    if a / TWO52 == 0 {
      var m := a % TWO52;
      BitLenSmall(m);
      BitLenIs(m);
      PowMantissa();
      hide BitLen;
      var b := BitLen(m);
      var l: nat := 53 - b;
      PowAdd(2, b - 1, l);
      PowAdd(2, b, l);
      MulMono(Pow(2, b - 1), m, Pow(2, l));
      MulLess(m, Pow(2, b), Pow(2, l));
      Divisible(m, l);
      ShlIs(m, l);
      ShiftNat(m, l, -1021 - l - 53, MIN_EXPONENT);
    }
  }

  lemma PackIs(m: nat, e: int)
    requires DoubleParts(m, e)
    ensures e > 1024 ==> PackOf(m, e) == INFINITY
    ensures e <= 1024 ==> 0 < PackOf(m, e) < INFINITY && MagnitudeOf(PackOf(m, e)) == ValueOf(m, e)
  {
    hide Shift2, Pow;
    if e < -1021 {
      StepsOfIs(m, e);
      var n := PackSubnormal(m, -1021 - e);
      assert n == StepsOf(m, e);
      PowMono(2, Precision(e), 52);
      PowMantissa();
      DivUnique(n, TWO52, 0, n);
    } else if e <= 1024 {
      DivUnique(PackOf(m, e), TWO52, e + 1022, m - TWO52);
      DivUnique(m, TWO52, 1, m - TWO52);
    }
  }

  /** Different bits are different numbers. */
  lemma MagnitudeUnique(a: nat, m: nat, e: int)
    requires 0 < a < INFINITY && DoubleParts(m, e) && e <= 1024 && MagnitudeOf(a) == ValueOf(m, e)
    ensures UnpackOf(a) == (m, e)
  {
    UnpackIs(a);
    ValueUnique(UnpackOf(a).0, UnpackOf(a).1, m, e);
  }

  /** Unpacking and packing give back the bits. */
  lemma PackUnpack(a: nat)
    requires 0 < a < INFINITY
    ensures var (m, e) := UnpackOf(a); PackOf(m, e) == a
  {
    hide Shift2, Pow, BitLen;
    UnpackIs(a);
    if a / TWO52 == 0 {
      var m := a % TWO52;
      BitLenSmall(m);
      BitLenIs(m);
      var l: nat := 53 - BitLen(m);
      ShlIs(m, l);
      DivUnique(Shl(m, l), Pow(2, l), m, 0);
    } else {
      DivUnique(a % TWO52 + TWO52, TWO52, 1, a % TWO52);
    }
  }

  // Rounding to a double, overflow included.

  /** a are the bits of y rounded to nearest, ties to even. */
  ghost predicate RoundedTo(y: real, a: nat)
    requires y >= 0.0
  {
    if NearestDouble(y, RNDN) >= Scale(2, 1024) then a == INFINITY
    else a < INFINITY && MagnitudeOf(a) == NearestDouble(y, RNDN)
  }

  lemma ZeroBits()
    ensures MagnitudeOf(0) == 0.0
  {
  }

  lemma FromNearest(y: real, m: nat, e: int)
    requires y >= 0.0 && IsNearest(y, RNDN, m, e)
    ensures RoundedTo(y, PackOf(m, e))
  {
    hide Shift2, Scale, NearestDouble, InBinade, MagnitudeOf;
    if m == 0 {
      ZeroShift(e - 53);
      ZeroBits();
    } else {
      InItsBinade(m, e);
      PackIs(m, e);
      IsInBinadeOf(ValueOf(m, e), e);
      if e > 1024 { ScaleMono(2, 1024, e - 1); } else { ScaleMono(2, e, 1024); }
    }
  }

  lemma IsInBinadeOf(y: real, k: int)
    requires InBinade(y, k)
    ensures Scale(2, k - 1) <= y < Scale(2, k)
  {
  }

  /** Below half of the smallest double everything rounds to zero. */
  lemma TinyIsZero(y: real)
    requires 0.0 <= y < Scale(2, MIN_EXPONENT - 1)
    ensures RoundedTo(y, 0)
  {
    ZeroBits();
    if y > 0.0 {
      var k := Binade(y);
      NearestIn(y, k, RNDN);
      StepsRange(y, k, RNDN);
      hide Shift2, Scale, NearestDouble, StepsIn, InBinade, MagnitudeOf;
      BinadeBelow(y, k, MIN_EXPONENT - 1);
      ZeroShift(Spacing(k));
    }
  }

  /** From 2^1024 on everything rounds to infinity. */
  lemma HugeIsInfinite(y: real)
    requires y >= Scale(2, 1024)
    ensures RoundedTo(y, INFINITY)
  {
    var k := Binade(y);
    NearestIn(y, k, RNDN);
    StepsRange(y, k, RNDN);
    PowMantissa();
    hide Shift2, Scale, NearestDouble, StepsIn, Pow, InBinade, MagnitudeOf;
    BinadeBelow(y, k, 1025);
    AtMost(TWO52, StepsIn(y, k, RNDN), Spacing(k));
    MantissaTimes(Spacing(k));
    ScaleMono(2, 1024, k - 1);
  }

  // The code: radixes that are not powers of two.

  /** What js_atod needs of its tables of exponent limits. */
  ghost predicate ExponentLimits(b: nat, minExponent: int, maxExponent: int) {
    && b > 0
    && Scale(2, MIN_EXPONENT - 11) <= Scale(b, minExponent) <= Scale(2, MIN_EXPONENT - 1)
    && Scale(b, maxExponent) >= Scale(2, 1024)
  }

  lemma DecimalBounds(n: nat, b: nat, dc: nat, expn: int)
    requires b > 0 && dc >= 1 && Pow(b, dc - 1) <= n < Pow(b, dc)
    ensures Scale(b, dc - 1 + expn) <= Decimal(n, b, expn) < Scale(b, dc + expn)
  {
    hide Scale, Pow, Times;
    PowTimes(b, dc - 1, expn);
    PowTimes(b, dc, expn);
    TimesMono(Pow(b, dc - 1) as real, n as real, b, expn);
    TimesLess(n as real, Pow(b, dc) as real, b, expn);
  }

  /** The branch of js_atod for a radix that is not a power of two. */
  method RoundNumber(tmp: Mpb, radix1: Limb, radixShift: nat, radix: nat, digitCount: nat, expn: int,
                     minExponent: int, maxExponent: int)
    returns (a: nat)
    requires tmp.Normal() && OddRadix(radix1) && radix == radix1 * Pow(2, radixShift) && digitCount >= 1
    requires Pow(radix, digitCount - 1) <= tmp.Val() < Pow(radix, digitCount)
    requires ExponentLimits(radix, minExponent, maxExponent)
    modifies tmp
    ensures RoundedTo(Decimal(old(tmp.Val()), radix, expn), a)
  {
    var expn1 := expn + digitCount;
    ghost var n, y := tmp.Val(), Decimal(tmp.Val(), radix, expn);
    DecimalBounds(n, radix, digitCount, expn);
    ProductOfDigits(n, radix1, radixShift, expn, radix);
    hide Pow, Value, Scale, Times, Decimal, Product, NearestDouble, IsNearest, RoundedTo;
    if expn1 >= maxExponent + 1 {
      ScaleMono(radix, maxExponent, expn1 - 1);
      HugeIsInfinite(y);
      a := INFINITY;
    } else if expn1 <= minExponent {
      ScaleMono(radix, expn1, minExponent);
      TinyIsZero(y);
      a := 0;
    } else {
      ScaleMono(radix, minExponent, expn1 - 1);
      var m, e := MulPowRoundToD(tmp, radix1, radixShift, expn, RNDN);
      FromNearest(y, m, e);
      a := PackOf(m, e);
    }
  }

  /** The numeric part of js_atod for such a radix: ds are the digits from the first nonzero one on,
      and the number is 0.ds * radix^point. Digits beyond the first maxDigits are dropped. */
  method ParseNumber(ds: seq<nat>, radix1: Limb, radixShift: nat, radix: nat, point: int, maxDigits: nat,
                     minExponent: int, maxExponent: int)
    returns (a: nat)
    requires OddRadix(radix1) && radix == radix1 * Pow(2, radixShift) && 2 <= radix <= 36
    requires AreDigits(ds, radix) && (ds != [] ==> ds[0] != 0) && maxDigits >= 1
    requires ExponentLimits(radix, minExponent, maxExponent)
    ensures var dc := if |ds| < maxDigits then |ds| else maxDigits;
      RoundedTo(Decimal(NumberOf(ds[..dc], radix), radix, point - dc), a)
  {
    var tmp, digitCount, extra := AccumulateDigits(ds, radix, maxDigits);
    if digitCount == 0 {
      assert ds[..0] == [];
      NoNumber(radix, point);
      a := 0;
    } else {
      NumberLeading(ds[..digitCount], radix);
      NumberBound(ds[..digitCount], radix);
      a := RoundNumber(tmp, radix1, radixShift, radix, digitCount, point - digitCount, minExponent, maxExponent);
    }
  }

  lemma NoNumber(b: nat, j: int)
    requires b > 0
    ensures NumberOf([], b) == 0 && RoundedTo(Decimal(0, b, j), 0)
  {
    ZeroBits();
    TinyIsZero(0.0);
  }

  /** What is correctly rounded from two numbers is so from all between them. */
  lemma RoundedBetween(x: real, y: real, z: real, a: nat)
    requires 0.0 <= x <= y <= z && RoundedTo(x, a) && RoundedTo(z, a)
    ensures RoundedTo(y, a)
  {
    NearestMono(x, y);
    NearestMono(y, z);
    hide NearestDouble, Scale;
  }

  /** Dropped digits do no harm when the digits kept and the next number with as many digits are rounded
      alike: no boundary lies between them. */
  lemma DroppedHarmless(ds: seq<nat>, b: nat, dc: nat, point: int, a: nat)
    requires b > 0 && AreDigits(ds, b) && dc <= |ds|
    requires RoundedTo(Decimal(NumberOf(ds[..dc], b), b, point - dc), a)
    requires RoundedTo(Decimal(NumberOf(ds[..dc], b) + 1, b, point - dc), a)
    ensures RoundedTo(Decimal(NumberOf(ds, b), b, point - |ds|), a)
  {
    hide NumberOf, RoundedTo, Decimal, Pow;
    var n, all, unit := NumberOf(ds[..dc], b), NumberOf(ds, b), Pow(b, |ds| - dc);
    KeptAndDropped(ds, b, dc);
    SameGrid(n, b, point - dc, point - |ds|);
    SameGrid(n + 1, b, point - dc, point - |ds|);
    QuotientBetween(all, unit, n);
    DecimalOrder(n * unit, all, b, point - |ds|);
    DecimalOrder(all, (n + 1) * unit, b, point - |ds|);
    RoundedBetween(Decimal(n * unit, b, point - |ds|), Decimal(all, b, point - |ds|),
      Decimal((n + 1) * unit, b, point - |ds|), a);
  }

  lemma QuotientBetween(all: nat, unit: nat, n: nat)
    requires unit > 0 && n == all / unit
    ensures n * unit <= all <= (n + 1) * unit
  {
  }

  lemma DecimalOrder(n: nat, k: nat, b: nat, j: int)
    requires b > 0 && n <= k
    ensures Decimal(n, b, j) <= Decimal(k, b, j)
  {
    hide Times;
    TimesMono(n as real, k as real, b, j);
  }

  // The code: radixes that are powers of two.

  /** The number of bits of a string of digits. */
  function BitCount(digits: nat, bits: nat): nat {
    digits * bits
  }

  /** The branch of js_atod for a power of two: n / d is the number of all digits, of which tmp keeps
      the whole part; what was dropped becomes a sticky bit. */
  method RoundBinary(tmp: Mpb, radixBits: nat, digitCount: nat, expn: int, extra: bool, ghost n: nat, ghost d: nat)
    returns (a: nat)
    requires tmp.Normal() && 1 <= radixBits <= 5 && digitCount >= 1 && d > 0
    requires tmp.Val() == n / d && (extra <==> n % d != 0) && (d > 1 ==> tmp.Val() >= Pow(2, 55))
    requires Pow(2, BitCount(digitCount - 1, radixBits)) <= tmp.Val() < Pow(2, BitCount(digitCount, radixBits))
    modifies tmp
    ensures RoundedTo(Scaled(n, d, -expn), a)
  {
    var expn1 := expn + BitCount(digitCount, radixBits);
    ghost var y := Scaled(n, d, -expn);
    hide Pow, Value, Scale, Scaled, NearestDouble, IsNearest, RoundedTo, InBinade, BitLen, BitCount;
    tmp.SetLowBit(extra);
    OneLess(digitCount, radixBits);
    TopOfDigits(n, d, tmp.Val(), BitCount(digitCount - 1, radixBits), BitCount(digitCount, radixBits), expn);
    if expn1 >= 1024 + radixBits {
      ScaleMono(2, 1024, expn1 - radixBits);
      HugeIsInfinite(y);
      a := INFINITY;
    } else if expn1 <= -1075 {
      ScaleMono(2, expn1, -1075);
      TinyIsZero(y);
      a := 0;
    } else {
      var m, e := RoundToD(tmp, -expn, RNDN, n, d);
      FromNearest(y, m, e);
      a := PackOf(m, e);
    }
  }

  /** The size of the number from its digit count. */
  lemma TopOfDigits(n: nat, d: nat, v: nat, lo: nat, hi: nat, expn: int)
    requires d > 0 && v == Sticky(n, d) && (d > 1 ==> n / d >= Pow(2, 55))
    requires hi >= 1 && Pow(2, lo) <= n / d < Pow(2, hi)
    ensures Scale(2, lo + expn) <= Scaled(n, d, -expn) < Scale(2, hi + expn)
    ensures v >= n / d && v > 0 && BitLen(v) > lo
  {
    StickyBits(n, d, v, lo, hi);
    BitLenIs(v);
    hide Pow, Scale, Sticky, Scaled, BitLen;
    var top := BitLen(v) - 1;
    if d > 1 { TopAbove(v, 55, top); }
    ScaledBinade(n, d, v, -expn, top);
    if top < lo { PowMono(2, top + 1, lo); }
    if top >= hi { PowMono(2, hi, top); }
    BinadeWithin(Scaled(n, d, -expn), top + 1 + expn, lo + expn, hi + expn);
  }

  lemma TopAbove(v: nat, c: nat, top: nat)
    requires Pow(2, c) <= v < Pow(2, top + 1)
    ensures top >= c
  {
    if top < c { PowMono(2, top + 1, c); }
  }

  lemma BinadeWithin(y: real, k: int, i: int, j: int)
    requires InBinade(y, k) && i < k <= j
    ensures Scale(2, i) <= y < Scale(2, j)
  {
    ScaleMono(2, i, k - 1);
    ScaleMono(2, k, j);
  }

  lemma StickyBits(n: nat, d: nat, v: nat, lo: nat, hi: nat)
    requires d > 0 && v == Sticky(n, d) && Pow(2, lo) <= n / d < Pow(2, hi) && hi >= 1
    ensures n / d <= v && Pow(2, lo) <= v < Pow(2, hi)
  {
  }

  lemma OneLess(digitCount: nat, radixBits: nat)
    requires digitCount >= 1 && radixBits >= 1
    ensures BitCount(digitCount, radixBits) == BitCount(digitCount - 1, radixBits) + radixBits
  {
  }

  lemma {:induction false} NumberZero(ds: seq<nat>, b: nat)
    requires b > 0
    ensures NumberOf(ds, b) != 0 <==> SomeNonZero(ds, 0, |ds|)
    decreases |ds|
  {
    if ds != [] {
      var n := |ds| - 1;
      NumberZero(ds[..n], b);
      NonZero(NumberOf(ds[..n], b), b);
      assert SomeNonZero(ds[..n], 0, n) <==> SomeNonZero(ds, 0, n) by {
        assert forall k :: 0 <= k < n ==> ds[..n][k] == ds[k];
      }
    }
  }

  /** The digits kept and the digits dropped are quotient and remainder. */
  lemma KeptAndDropped(ds: seq<nat>, b: nat, dc: nat)
    requires b > 0 && AreDigits(ds, b) && dc <= |ds|
    ensures NumberOf(ds, b) / Pow(b, |ds| - dc) == NumberOf(ds[..dc], b)
    ensures NumberOf(ds, b) % Pow(b, |ds| - dc) != 0 <==> SomeNonZero(ds, dc, |ds|)
  {
    assert ds == ds[..dc] + ds[dc..];
    NumberAppend(ds[..dc], ds[dc..], b);
    NumberBound(ds[dc..], b);
    NumberZero(ds[dc..], b);
    hide Pow, NumberOf;
    DivUnique(NumberOf(ds, b), Pow(b, |ds| - dc), NumberOf(ds[..dc], b), NumberOf(ds[dc..], b));
    if k :| dc <= k < |ds| && ds[k] != 0 {
      assert ds[dc..][k - dc] != 0;
    }
  }

  /** A binary radix only shifts. */
  lemma BinaryScaled(n: nat, j: int, i: int, q: int)
    requires j >= 0 && q == i - j
    ensures Scaled(n, Pow(2, j), -i) == Shift2(n as real, q)
  {
    hide Shift2, Pow;
    ShiftRatio(n, j);
    ShiftShift(n as real, 0 - j, i, q);
  }

  /** The numeric part of js_atod for a power of two: all digits count, however many there are. The
      number is 0.ds in the radix, times 2^pointBits. */
  method ParseBinary(ds: seq<nat>, radix: nat, pointBits: int, maxDigits: nat) returns (a: nat)
    requires 2 <= radix <= 36 && RadixBits(radix) != 0 && maxDigits >= 1
      && BitCount(maxDigits - 1, RadixBits(radix)) >= 55
    requires AreDigits(ds, radix) && (ds != [] ==> ds[0] != 0)
    ensures RoundedTo(Shift2(NumberOf(ds, radix) as real, pointBits - BitCount(|ds|, RadixBits(radix))), a)
  {
    hide *;
    var bits := RadixBits(radix);
    RadixBitsIs(radix);
    FewBits(radix);
    var tmp, digitCount, extra := AccumulateDigits(ds, radix, maxDigits);
    if digitCount == 0 {
      assert ds == [];
      EmptyNumber(radix, pointBits - BitCount(|ds|, bits));
      a := 0;
    } else {
      BinaryParts(ds, radix, bits, digitCount, maxDigits, pointBits);
      ghost var n, d := NumberOf(ds, radix), Pow(radix, |ds| - digitCount);
      a := RoundBinary(tmp, bits, digitCount, pointBits - BitCount(digitCount, bits), extra, n, d);
    }
  }

  /** The number of all digits, split where js_atod stops keeping digits. */
  lemma BinaryParts(ds: seq<nat>, radix: nat, bits: nat, dc: nat, maxDigits: nat, pointBits: int)
    requires AreDigits(ds, radix) && ds != [] && ds[0] != 0 && 1 <= dc <= |ds| && (dc < |ds| ==> dc == maxDigits)
    requires Pow(2, bits) == radix && 1 <= bits <= 5 && maxDigits >= 1 && BitCount(maxDigits - 1, bits) >= 55
    ensures var n, d, v := NumberOf(ds, radix), Pow(radix, |ds| - dc), NumberOf(ds[..dc], radix);
      && d > 0 && v == n / d && (SomeNonZero(ds, dc, |ds|) <==> n % d != 0) && (d > 1 ==> v >= Pow(2, 55))
      && Pow(2, BitCount(dc - 1, bits)) <= v < Pow(2, BitCount(dc, bits))
      && Scaled(n, d, -(pointBits - BitCount(dc, bits))) == Shift2(n as real, pointBits - BitCount(|ds|, bits))
  {
    hide Pow, NumberOf, Shift2, SomeNonZero, BitCount, Scaled, BASE;
    KeptAndDropped(ds, radix, dc);
    NumberLeading(ds[..dc], radix);
    NumberBound(ds[..dc], radix);
    BinaryPowers(radix, bits, |ds|, dc, maxDigits);
    BinaryScaled(NumberOf(ds, radix), BitCount(|ds| - dc, bits), pointBits - BitCount(dc, bits),
      pointBits - BitCount(|ds|, bits));
  }

  lemma FewBits(radix: nat)
    ensures RadixBits(radix) <= 5
  {
  }

  lemma EmptyNumber(radix: nat, q: int)
    ensures RoundedTo(Shift2(NumberOf([], radix) as real, q), 0)
  {
    ZeroShift(q);
    ZeroBits();
    TinyIsZero(0.0);
  }

  lemma BinaryPowers(radix: nat, bits: nat, len: nat, dc: nat, maxDigits: nat)
    requires Pow(2, bits) == radix && 1 <= bits <= 5 && 1 <= dc <= len && (dc < len ==> dc == maxDigits)
    requires maxDigits >= 1 && BitCount(maxDigits - 1, bits) >= 55
    ensures Pow(radix, dc - 1) == Pow(2, BitCount(dc - 1, bits)) && Pow(radix, dc) == Pow(2, BitCount(dc, bits))
    ensures Pow(radix, len - dc) == Pow(2, BitCount(len - dc, bits))
    ensures dc < len ==> Pow(radix, dc - 1) >= Pow(2, 55)
    ensures Pow(radix, len - dc) > 1 ==> dc < len
    ensures BitCount(len - dc, bits) == BitCount(len, bits) - BitCount(dc, bits)
  {
    PowZero(radix);
    BitPower(radix, bits, dc - 1);
    BitPower(radix, bits, dc);
    BitPower(radix, bits, len - dc);
    MulDist(len, dc, bits);
    hide Pow;
    if dc < len { PowMono(2, 55, BitCount(dc - 1, bits)); }
  }

  lemma BitPower(radix: nat, bits: nat, k: nat)
    requires Pow(2, bits) == radix
    ensures Pow(radix, k) == Pow(2, BitCount(k, bits))
  {
    PowMul(2, bits, k);
    assert bits * k == k * bits;
  }

  // Printing, then parsing.

  /** The digits that js_dtoa writes for a finite nonzero double in free format. */
  ghost predicate Printed(a: nat, b: nat, ds: seq<nat>, point: int)
    requires b > 0
  {
    && AreDigits(ds, b) && ds != [] && ds[0] != 0 && ds[|ds| - 1] != 0
    && 0 < a < INFINITY
    && Shortest(UnpackOf(a).0, UnpackOf(a).1, b, |ds|, NumberOf(ds, b), point)
  }

  lemma PrintedDigits(mant: nat, b: nat, p: nat)
    requires b >= 2 && p >= 1 && Pow(b, p - 1) <= mant < Pow(b, p) && mant % b != 0
    ensures var ds := DigitsOf(mant, b, p);
      AreDigits(ds, b) && NumberOf(ds, b) == mant && ds[0] != 0 && ds[p - 1] != 0
  {
    var ds := DigitsOf(mant, b, p);
    NumberOfDigits(mant, b, p);
    SmallLast(mant, Pow(b, p));
    assert ds[p - 1] == Last(mant, b);
    if ds[0] == 0 {
      assert ds == [ds[0]] + ds[1..];
      NumberAppend([ds[0]], ds[1..], b);
      NumberSnoc([], 0, b);
      assert [] + [ds[0]] == [ds[0]];
      NumberBound(ds[1..], b);
    }
  }

  /** js_dtoa in free format, up to the layout: the digits and the position of the point. */
  method DtoaFree(a: nat, radix1: Limb, radixShift: nat, radix: nat, pMax: nat, e0: int)
    returns (ds: seq<nat>, point: int)
    requires 0 < a < INFINITY && OddRadix(radix1) && radix == radix1 * Pow(2, radixShift)
    requires EnoughDigits(radix, pMax) && FirstExponent(UnpackOf(a).1, radix, e0)
    ensures |ds| <= pMax && Printed(a, radix, ds, point)
    ensures var (m, e) := UnpackOf(a);
      NoneBelow(m, e, radix, Pow(radix, |ds| - 1)) <==> NeverMissed(m, e, radix, 1, pMax, e0)
  {
    hide *;
    UnpackIs(a);
    EnoughIs(radix, pMax);
    var (m, e) := UnpackOf(a);
    var mant, p, e1 := FreeFormatDigits(m, e, radix1, radixShift, radix, pMax, e0);
    ShortestIs(m, e, radix, p, mant, e1);
    PrintedDigits(mant, radix, p);
    DigitsFit(radix, p, pMax);
    var tmp := new Mpb(0);
    tmp.SetU64(mant);
    var buf := new nat[p];
    OutputDigits(buf, tmp, radix, p);
    ds, point := buf[..p], e1;
    IsPrinted(a, radix, ds, point);
  }

  lemma ShortestIs(m: nat, e: int, b: nat, p: nat, mant: nat, e1: int)
    requires b > 0 && Shortest(m, e, b, p, mant, e1)
    ensures p >= 1 && Pow(b, p - 1) <= mant < Pow(b, p) && mant % b != 0
  {
  }

  lemma IsPrinted(a: nat, b: nat, ds: seq<nat>, point: int)
    requires b > 0 && AreDigits(ds, b) && ds != [] && ds[0] != 0 && ds[|ds| - 1] != 0 && 0 < a < INFINITY
    requires Shortest(UnpackOf(a).0, UnpackOf(a).1, b, |ds|, NumberOf(ds, b), point)
    ensures Printed(a, b, ds, point)
  {
    hide Shortest, AreDigits;
  }

  /** Whatever bits are correctly rounded from the printed digits are the bits that were printed. */
  lemma PrintParse(a: nat, b: nat, ds: seq<nat>, point: int, a1: nat)
    requires b > 0 && Printed(a, b, ds, point)
    requires RoundedTo(Decimal(NumberOf(ds, b), b, point - |ds|), a1)
    ensures a1 == a
  {
    UnpackIs(a);
    var (m, e) := UnpackOf(a);
    InItsBinade(m, e);
    hide Shift2, Pow, Times, NearestDouble, Scale, DoubleParts, UnpackOf;
    BelowInfinity(m, e);
    if a1 == 0 { ZeroBits(); }
    MagnitudeUnique(a1, m, e);
    PackUnpack(a);
    PackUnpack(a1);
  }

  lemma BelowInfinity(m: nat, e: int)
    requires DoubleParts(m, e) && e <= 1024
    ensures 0.0 < ValueOf(m, e) < Scale(2, 1024)
  {
    InItsBinade(m, e);
    ScaleMono(2, e, 1024);
  }
}
