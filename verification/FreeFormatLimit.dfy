/** Where the digit search of js_dtoa does not find the shortest digits: below a power of two the
    doubles are denser, so the closest digits can fail while others succeed. */
module FreeFormatLimit {
  import opened Limbs
  import opened Bignum
  import opened RealRounding
  import opened Scaling
  import opened DoubleRounding
  import opened ReadBack
  import opened FreeFormat

  const TEN29: nat := 100000000000000000000000000000
  const TWO44: nat := 0x1000_0000_0000
  const LOW16: nat := 5684341886080801
  const HIGH16: nat := 5684341886080802

  lemma PowersOfTen()
    ensures Pow(10, 29) == TEN29 && Pow(10, 13) == 10000000000000 && Pow(10, 14) == 100000000000000
  {
    assert Pow(10, 4) == 10000;
    PowAdd(10, 4, 4);
    PowAdd(10, 8, 5);
    assert Pow(10, 5) == 100000;
    PowSucc(10, 13);
    PowAdd(10, 14, 14);
    PowSucc(10, 28);
  }

  lemma PowersOfTwo()
    ensures Pow(2, 44) == TWO44 && Pow(2, 96) == BASE * BASE * BASE && Pow(2, 97) == 2 * (BASE * BASE * BASE)
  {
    PowLimb();
    assert Pow(2, 6) == 64;
    PowAdd(2, 6, 6);
    PowAdd(2, 32, 12);
    PowAdd(2, 32, 32);
    PowAdd(2, 64, 32);
    PowSucc(2, 96);
  }

  /** k * 10^-29, in units of 2^-s. */
  lemma DecimalSteps(k: nat, b: nat, j: nat, s: nat, i: int)
    requires b > 0 && i + j == 0
    ensures Shift2(Decimal(k, b, i), s) == Shl(k, s) as real / Pow(b, j) as real
  {
    hide Scale, Pow, Shl, Shift2, Times;
    var y := Shift2(Decimal(k, b, i), s);
    SwapMoves(k as real, b, i, s);
    TimesBack(Shift2(k as real, s), b, i, j);
    TimesIs(y, b, j);
    ScaleNat(b, j);
    ShiftNat(k, s, 0, s);
    ShiftZero(Shl(k, s) as real);
    QuotientIs(Shl(k, s) as real, Pow(b, j) as real, y);
  }

  lemma SwapMoves(x: real, b: nat, i: int, s: int)
    requires b > 0
    ensures Shift2(Times(x, b, i), s) == Times(Shift2(x, s), b, i)
  {
    hide Scale;
    MiddleSwap(x, Scale(b, i), Scale(2, s));
  }

  /** The steps of the two candidates with sixteen digits. */
  lemma Candidates()
    ensures RoundR(Shift2(Decimal(HIGH16, 10, -29), 96), RNDN) == TWO52
    ensures Shift2(Decimal(HIGH16, 10, -29), 96) >= TWO52 as real
    ensures RoundR(Shift2(Decimal(LOW16, 10, -29), 97), RNDN) == TWO53 - 1
    ensures TWO52 as real <= Shift2(Decimal(LOW16, 10, -29), 97) < TWO53 as real
  {
    PowersOfTen();
    PowersOfTwo();
    hide Pow, RoundR, Times, Shift2, Decimal;
    DecimalSteps(HIGH16, 10, 29, 96, -29);
    DecimalSteps(LOW16, 10, 29, 97, -29);
    RoundRational(Shl(HIGH16, 96), TEN29, RNDN);
    RoundRational(Shl(LOW16, 97), TEN29, RNDN);
    assert Shl(HIGH16, 96) == 450359962737049640646503907083062111971049472;
    assert Shl(LOW16, 97) == 900719925474099122836682785637449036854198272;
  }

  lemma DecadeOf()
    ensures FirstExponent(-43, 10, -13)
  {
    PowersOfTen();
    PowersOfTwo();
    ScaleNat(10, 14);
    ScaleNat(10, 13);
    ScaleNat(2, 44);
    hide Scale, Pow;
    ScaleInverse(2, 44);
    ScaleInverse(10, 14);
    ScaleInverse(10, 13);
    RecipLess(Scale(2, -44), Scale(2, 44), Scale(10, 14), Scale(10, -14));
    RecipLess(Scale(2, -44), Scale(2, 44), Scale(10, 13), Scale(10, -13));
  }

  /** The sixteen digits that the search tries for 2^-44. */
  lemma TriedDigits()
    ensures RoundAt(ValueOf(TWO52, -43), 10, 16, -13) == LOW16
  {
    PowersOfTen();
    PowersOfTwo();
    LowestOf(-43);
    hide Scale, Pow, RoundR, Shift2, Times, ValueOf;
    ShiftUnit(-44);
    ShiftIsTimes(1.0, -44);
    SwapMoves(1.0, 10, 29, -44);
    TimesUnit(10, 29);
    ScaleNat(10, 29);
    ShiftRatio(TEN29, 44);
    RoundRational(TEN29, TWO44, RNDN);
  }

  /** For 2^-44 the search tries 5684341886080801e-29, which does not read back, and stops at
      seventeen digits, although the sixteen digits 5684341886080802e-29 do read back. */
  lemma SearchMissesShorter()
    ensures DoubleParts(TWO52, -43) && !Symmetric(TWO52, -43) && FirstExponent(-43, 10, -13)
    ensures RoundAt(ValueOf(TWO52, -43), 10, 16, -13) == LOW16
    ensures NearestDouble(Decimal(LOW16, 10, -29), RNDN) != ValueOf(TWO52, -43)
    ensures NearestDouble(Decimal(HIGH16, 10, -29), RNDN) == ValueOf(TWO52, -43)
    ensures Missed(TWO52, -43, 10, 16, -13)
  {
    FoundMissed();
    TriedReadBack();
  }

  lemma FoundMissed()
    ensures Missed(TWO52, -43, 10, 16, -13)
  {
    DecadeOf();
    TriedDigits();
    TriedReadBack();
    Sixteen();
    hide Scale, Pow, RoundAt, Decimal, NearestDouble, Missed, ValueOf, FirstExponent;
    FailsUnlessMissed(TWO52, -43, 10, 16, -13);
  }

  lemma Sixteen()
    ensures HIGH16 < Pow(10, 16)
  {
    PowChain(10);
    PowAdd(10, 13, 3);
    hide Pow;
  }

  lemma TriedReadBack()
    ensures DoubleParts(TWO52, -43) && !Symmetric(TWO52, -43) && FirstExponent(-43, 10, -13)
    ensures RoundAt(ValueOf(TWO52, -43), 10, 16, -13) == LOW16
    ensures NearestDouble(Decimal(LOW16, 10, -29), RNDN) != ValueOf(TWO52, -43)
    ensures NearestDouble(Decimal(HIGH16, 10, -29), RNDN) == ValueOf(TWO52, -43)
  {
    DecadeOf();
    TriedDigits();
    Candidates();
    hide Scale, Pow, RoundR, Shift2, Decimal, NearestDouble, InBinade;
    var low, high := Decimal(LOW16, 10, -29), Decimal(HIGH16, 10, -29);
    StepOrder(high, TWO52, -96);
    ReadsNear(TWO52, -43, high);
    StepOrder(low, TWO52, -97);
    StepOrder(low, TWO53, -97);
    MantissaTimes(-97);
    IsInBinade(low, -44);
    NearestIn(low, -44, RNDN);
    ShiftLess((TWO53 - 1) as real, TWO53 as real, -97);
    LowestOf(-43);
  }
}
