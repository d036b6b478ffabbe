/** Printing a double and parsing the digits gives the same bits, with the tables of the program. */
module RoundTrip {
  import opened Limbs
  import opened RealRounding
  import opened Scaling
  import opened FreeFormat
  import opened MaxDigits
  import opened DigitText
  import opened Atod
  import opened ExponentTables

  const ATOD_MAX_DIGITS: seq<nat> := [
    64, 80, 32, 55, 49, 45, 21, 40, 38, 37, 35, 34, 33, 32, 16, 31, 30, 30, 29, 29, 28, 28, 27, 27, 27, 26, 26,
    26, 26, 25, 12, 25, 25, 24, 24]

  /** The parser counts at least as many digits as the printer writes, in every radix; in a power of two
      they hold the bits that rounding needs. */
  lemma DigitLimits(radix: nat)
    requires 2 <= radix <= 36
    ensures |DTOA_MAX_DIGITS| == |ATOD_MAX_DIGITS| == 35
    ensures 1 <= DTOA_MAX_DIGITS[radix - 2] <= ATOD_MAX_DIGITS[radix - 2]
    ensures RadixBits(radix) != 0 ==> BitCount(ATOD_MAX_DIGITS[radix - 2] - 1, RadixBits(radix)) >= 55
  {
  }

  /** Digits in a power of two are a shift. */
  lemma DecimalIsShift(n: nat, radix: nat, bits: nat, k: int)
    requires radix > 0 && radix == Pow(2, bits)
    ensures Decimal(n, radix, k) == Shift2(n as real, bits * k)
  {
    hide Scale, Pow;
    ScalePower(2, bits, radix, k);
  }

  lemma {:induction false} ScalePower(b: nat, bits: nat, c: nat, k: int)
    requires b > 0 && c > 0 && c == Pow(b, bits)
    ensures Scale(c, k) == Scale(b, bits * k)
    decreases if k < 0 then -k else k
  {
    hide Scale, Pow;
    ScaleNat(b, bits);
    if k > 0 {
      ScalePower(b, bits, c, k - 1);
      ScaleSucc(c, k - 1);
      assert bits * k == bits * (k - 1) + bits;
      ScaleAdd(b, bits * (k - 1), bits);
    } else if k < 0 {
      ScalePower(b, bits, c, k + 1);
      ScaleSucc(c, k);
      assert bits * (k + 1) == bits * k + bits;
      ScaleAdd(b, bits * k, bits);
      RMulCancel(Scale(c, k), Scale(b, bits * k), c as real);
    } else {
      ScaleZero(b);
      ScaleZero(c);
    }
  }

  /** js_dtoa in free format, and js_atod on its digits and point: the same bits. */
  method PrintAndParse(a: nat, radix1: Limb, radixShift: nat, radix: nat, e0: int) returns (a1: nat)
    requires 0 < a < INFINITY && 2 <= radix <= 36 && OddRadix(radix1) && radix == radix1 * Pow(2, radixShift)
    requires FirstExponent(UnpackOf(a).1, radix, e0)
    ensures a1 == a
  {
    hide *;
    MaxDigitsTable(radix);
    DigitLimits(radix);
    RadixBitsIs(radix);
    var ds, point := DtoaFree(a, radix1, radixShift, radix, DTOA_MAX_DIGITS[radix - 2], e0);
    PrintedIs(a, radix, ds, point);
    var maxDigits := ATOD_MAX_DIGITS[radix - 2];
    var bits := RadixBits(radix);
    if bits != 0 {
      a1 := ParseBinary(ds, radix, point * bits, maxDigits);
      SameNumber(NumberOf(ds, radix), radix, bits, |ds|, point, a1);
    } else {
      assert ds[..|ds|] == ds;
      ExponentTable(radix);
      a1 := ParseNumber(ds, radix1, radixShift, radix, point, maxDigits,
        UNDERFLOW_EXPONENT[radix - 2], MAX_EXPONENT[radix - 2]);
    }
    PrintParse(a, radix, ds, point, a1);
  }

  lemma SameNumber(k: nat, radix: nat, bits: nat, n: nat, point: int, a1: nat)
    requires radix > 0 && radix == Pow(2, bits) && RoundedTo(Shift2(k as real, point * bits - BitCount(n, bits)), a1)
    ensures RoundedTo(Decimal(k, radix, point - n), a1)
  {
    hide Pow, Decimal, Shift2, RoundedTo;
    DecimalIsShift(k, radix, bits, point - n);
    assert point * bits - BitCount(n, bits) == bits * (point - n);
  }

  lemma PrintedIs(a: nat, b: nat, ds: seq<nat>, point: int)
    requires b > 0 && Printed(a, b, ds, point)
    ensures AreDigits(ds, b) && ds != [] && ds[0] != 0
  {
  }
}
