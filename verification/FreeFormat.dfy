/** The search for the shortest digits of js_dtoa. */
module FreeFormat {
  import opened Limbs
  import opened Bignum
  import opened RealRounding
  import opened Scaling
  import opened DoubleRounding
  import opened ReadBack

  /** k * b^j: the number written with the digits of k. */
  ghost function Decimal(k: nat, b: nat, j: int): (y: real)
    requires b > 0
    ensures y >= 0.0 && (k == 0 <==> y == 0.0)
  {
    Times(k as real, b, j)
  }

  /** No number with digits below n is closer to x than z. */
  ghost predicate Closest(x: real, b: nat, z: real, n: nat)
    requires b > 0
  {
    forall k: nat, j: int {:trigger Decimal(k, b, j)} :: k < n ==> AbsR(x - z) <= AbsR(x - Decimal(k, b, j))
  }

  ghost function RoundAt(x: real, b: nat, p: int, e: int): nat
    requires x >= 0.0 && b > 0
  {
    RoundR(Times(x, b, p - e), RNDN)
  }

  // What the code's products mean.

  lemma ProductOfDouble(m: nat, e: int, radix1: nat, radixShift: nat, f: int, b: nat)
    requires radix1 > 0 && b == radix1 * Pow(2, radixShift)
    ensures b > 0 && Product(m, e - 53, radix1, radixShift, f) == Times(ValueOf(m, e), b, f)
  {
    NonZero(radix1, Pow(2, radixShift));
    ShiftIs(m as real, e - 53);
    TimesIs(ValueOf(m, e), b, f);
  }

  lemma ProductOfDigits(k: nat, radix1: nat, radixShift: nat, f: int, b: nat)
    requires radix1 > 0 && b == radix1 * Pow(2, radixShift)
    ensures b > 0 && Product(k, 0, radix1, radixShift, f) == Decimal(k, b, f)
  {
    NonZero(radix1, Pow(2, radixShift));
    ScaleZero(2);
    TimesIs(k as real, b, f);
  }

  // Rounding at a given number of digits.

  lemma PowTimes(b: nat, j: nat, q: int)
    requires b > 0
    ensures Times(Pow(b, j) as real, b, q) == Scale(b, j + q)
  {
    hide Scale, Pow, Times;
    TimesUnit(b, j + q);
    TimesNat(1, b, j, q, j + q, Pow(b, j));
  }

  lemma TimesMono(x: real, y: real, b: nat, q: int)
    requires b > 0 && x <= y
    ensures Times(x, b, q) <= Times(y, b, q)
  {
    hide Times;
    TimesLess(y, x, b, q);
  }

  /** Digits on the same grid. */
  lemma ClosestOnDigits(x: real, b: nat, p: int, e: int, t: nat)
    requires b > 0 && x >= 0.0
    ensures AbsR(x - Decimal(RoundAt(x, b, p, e), b, e - p)) <= AbsR(x - Decimal(t, b, e - p))
  {
    hide Times, RoundR, AbsR;
    var xx := Times(x, b, p - e);
    RoundClosest(xx, t);
    TimesBack(x, b, p - e, e - p);
    TimesDistance(xx, RoundR(xx, RNDN) as real, t as real, b, e - p);
  }

  /** Digits on a finer grid lie below the first number with p digits. */
  lemma FinerIsBelow(x: real, b: nat, p: nat, e: int, k: nat, j: int)
    requires b > 0 && p >= 1 && k < Pow(b, p) && j < e - p && Scale(b, e - 1) <= x
    ensures Decimal(k, b, j) <= Decimal(Pow(b, p - 1), b, e - p) <= x
  {
    hide Times, Pow, Scale;
    PowTimes(b, p, j);
    PowTimes(b, p - 1, e - p);
    TimesMono(k as real, Pow(b, p) as real, b, j);
    ScaleMono(b, p + j, e - 1);
  }

  /** Rounding at p digits finds the closest number with at most p digits, whatever its exponent. */
  lemma ClosestAt(x: real, b: nat, p: nat, e: int)
    requires b > 0 && p >= 1 && x >= 0.0 && Scale(b, e - 1) <= x
    ensures Closest(x, b, Decimal(RoundAt(x, b, p, e), b, e - p), Pow(b, p))
  {
    hide Scale, Pow, RoundAt, AbsR, Decimal;
    var z := Decimal(RoundAt(x, b, p, e), b, e - p);
    forall k: nat, j: int | k < Pow(b, p) ensures AbsR(x - z) <= AbsR(x - Decimal(k, b, j)) {
      if j >= e - p {
        SameGrid(k, b, j, e - p);
        ClosestOnDigits(x, b, p, e, k * Pow(b, j - (e - p)));
      } else {
        FinerIsBelow(x, b, p, e, k, j);
        ClosestOnDigits(x, b, p, e, Pow(b, p - 1));
        Below(x, Decimal(Pow(b, p - 1), b, e - p), Decimal(k, b, j));
      }
    }
  }

  lemma SameGrid(k: nat, b: nat, j: int, q: int)
    requires b > 0 && j >= q
    ensures Decimal(k, b, j) == Decimal(k * Pow(b, j - q), b, q)
  {
    TimesNat(k, b, j - q, q, j, k * Pow(b, j - q));
  }

  /** How large the rounded digits can be. */
  lemma RoundAtBounds(x: real, b: nat, p: nat, e: int)
    requires b >= 2 && p >= 1 && 0.0 <= x
    ensures Scale(b, e - 1) <= x ==> RoundAt(x, b, p, e) >= Pow(b, p - 1)
    ensures x < Scale(b, e) ==> RoundAt(x, b, p, e) <= Pow(b, p)
    ensures x < Times(2.0, b, e) ==> RoundAt(x, b, p, e) <= 2 * Pow(b, p)
    ensures AbsR(x - Decimal(RoundAt(x, b, p, e), b, e - p)) <= Times(0.5, b, e - p)
  {
    hide Scale, Pow, Times, RoundR;
    var xx := Times(x, b, p - e);
    PowAtGrid(b, p, e);
    PowAtGrid(b, p - 1, e - 1);
    if Scale(b, e - 1) <= x {
      TimesMono(Scale(b, e - 1), x, b, p - e);
      RoundAbove(xx, Pow(b, p - 1));
    }
    if x < Scale(b, e) {
      TimesMono(x, Scale(b, e), b, p - e);
      RoundBetween(xx, 0, Pow(b, p), RNDN);
    }
    if x < Times(2.0, b, e) {
      TwiceAtGrid(b, p, e);
      TimesMono(x, Times(2.0, b, e), b, p - e);
      RoundBetween(xx, 0, 2 * Pow(b, p), RNDN);
    }
    RoundError(xx);
    var r := RoundR(xx, RNDN) as real;
    TimesMono(AbsR(xx - r), 0.5, b, e - p);
    AbsTimes(xx, r, b, e - p);
    TimesBack(x, b, p - e, e - p);
  }

  lemma PowAtGrid(b: nat, p: nat, e: int)
    requires b > 0
    ensures Times(Scale(b, e), b, p - e) == Pow(b, p) as real
  {
    hide Scale, Pow, Times;
    PowTimes(b, p, e - p);
    TimesBack(Pow(b, p) as real, b, e - p, p - e);
  }

  lemma TwiceAtGrid(b: nat, p: nat, e: int)
    requires b > 0
    ensures Times(Times(2.0, b, e), b, p - e) == (2 * Pow(b, p)) as real
  {
    hide Scale, Pow, Times;
    TimesTimes(2.0, b, e, p - e, p);
    TimesNat(2, b, p, 0, p, 2 * Pow(b, p));
    TimesZero((2 * Pow(b, p)) as real, b);
  }

  lemma RoundAbove(x: real, n: nat)
    requires x >= n as real
    ensures RoundR(x, RNDN) >= n
  {
  }

  lemma RoundError(x: real)
    requires x >= 0.0
    ensures AbsR(x - RoundR(x, RNDN) as real) <= 0.5
  {
  }

  // One precision.

  /** The digits found at one precision, and how far they can be from the double. */
  ghost predicate DigitsFor(x: real, b: nat, e0: int, p: nat, mant: nat, e: int)
    requires b > 0
  {
    && p >= 1 && Pow(b, p - 1) <= mant < Pow(b, p)
    && Closest(x, b, Decimal(mant, b, e - p), Pow(b, p))
    && (|| AbsR(x - Decimal(mant, b, e - p)) <= Times(0.5, b, e0 - p)
        || (Scale(b, e0) <= x && AbsR(x - Decimal(mant, b, e - p)) <= Times(0.5, b, e0 + 1 - p)))
  }

  /** What the caller of the search knows of the first exponent. */
  ghost predicate FirstExponent(e: int, b: nat, e0: int)
    requires b > 0
  {
    Scale(b, e0 - 1) <= Scale(2, e - 1) < Scale(b, e0)
  }

  lemma FirstBounds(m: nat, e: int, b: nat, e0: int)
    requires b >= 2 && DoubleParts(m, e) && FirstExponent(e, b, e0)
    ensures var x := ValueOf(m, e);
      x > 0.0 && Scale(b, e0 - 1) <= x < Times(2.0, b, e0) && (b == 2 ==> x < Scale(b, e0))
  {
    InItsBinade(m, e);
    hide Scale, ValueOf, DoubleParts, Times;
    ScaleSucc(2, e - 1);
    TimesIs(2.0, b, e0);
    if b == 2 && e > e0 { ScaleMono(2, e0, e - 1); }
    if b == 2 { ScaleMono(2, e, e0); }
  }

  lemma FirstTry(x: real, b: nat, e0: int, p: nat)
    requires b >= 2 && p >= 1 && x > 0.0 && Scale(b, e0 - 1) <= x && RoundAt(x, b, p, e0) < Pow(b, p)
    ensures DigitsFor(x, b, e0, p, RoundAt(x, b, p, e0), e0)
  {
    hide Scale, Pow, Times, RoundAt, Closest;
    ClosestAt(x, b, p, e0);
    RoundAtBounds(x, b, p, e0);
  }

  /** When the digits overflow, one more try with the next exponent succeeds. */
  lemma SecondTry(x: real, b: nat, e0: int, p: nat)
    requires b >= 2 && p >= 1 && x > 0.0 && Scale(b, e0 - 1) <= x < Times(2.0, b, e0) && (b == 2 ==> x < Scale(b, e0))
    requires RoundAt(x, b, p, e0) >= Pow(b, p)
    ensures RoundAt(x, b, p, e0 + 1) < Pow(b, p)
    ensures DigitsFor(x, b, e0, p, RoundAt(x, b, p, e0 + 1), e0 + 1)
  {
    hide Scale, Times, RoundAt, Closest;
    RoundAtBounds(x, b, p, e0);
    var low, f := Pow(b, p - 1), RoundAt(x, b, p, e0 + 1);
    assert Pow(b, p) == b * low && b * low >= 2 * low by { MulMono(2, b, low); }
    if x >= Scale(b, e0) {
      RoundAtBounds(x, b, p, e0 + 1);
      ClosestAt(x, b, p, e0 + 1);
      NextBounds(x, b, p, e0);
      MulMono(3, b, low);
    } else {
      JustUnder(x, b, p, e0);
      ClosestAt(x, b, p, e0);
      NextGrid(b, p, e0);
    }
  }

  lemma NextBounds(x: real, b: nat, p: nat, e0: int)
    requires b >= 2 && p >= 1 && 0.0 <= x < Times(2.0, b, e0)
    ensures RoundAt(x, b, p, e0 + 1) <= 2 * Pow(b, p - 1)
  {
    hide Pow, Times, RoundR;
    TwiceAtGrid(b, p - 1, e0);
    assert p - 1 - e0 == p - (e0 + 1);
    TimesMono(x, Times(2.0, b, e0), b, p - (e0 + 1));
    RoundBetween(Times(x, b, p - (e0 + 1)), 0, 2 * Pow(b, p - 1), RNDN);
  }

  /** A number that rounds up to the next power of the radix does so at both exponents. */
  lemma JustUnder(x: real, b: nat, p: nat, e0: int)
    requires b >= 2 && p >= 1 && 0.0 < x < Scale(b, e0) && RoundAt(x, b, p, e0) >= Pow(b, p)
    ensures RoundAt(x, b, p, e0) == Pow(b, p) && RoundAt(x, b, p, e0 + 1) == Pow(b, p - 1)
  {
    hide Pow, Times, RoundR, Scale;
    RoundAtBounds(x, b, p, e0);
    var xx, yy := Times(x, b, p - e0), Times(x, b, p - (e0 + 1));
    RoundNearest(xx, Pow(b, p));
    PowSucc(b, p - 1);
    PowAtGrid(b, p, e0);
    TimesLess(x, Scale(b, e0), b, p - e0);
    TimesTimes(x, b, p - e0, -1, p - (e0 + 1));
    Tenth(xx, b, Pow(b, p - 1));
    RoundNearest(yy, Pow(b, p - 1));
  }

  lemma Tenth(xx: real, b: nat, low: nat)
    requires b >= 2 && (b * low) as real - 0.5 <= xx < (b * low) as real
    ensures low as real - 0.5 < Times(xx, b, -1) < low as real
  {
    ScaleSucc(b, -1);
    ScaleZero(b);
    TimesIs(xx, b, -1);
    RMulAssoc(xx, Scale(b, -1), b as real);
    RealProduct(low, b);
    assert b * low == low * b;
    hide Times, Scale;
    TenthBounds(Times(xx, b, -1), xx, b as real, low as real);
  }

  lemma TenthBounds(y: real, xx: real, b: real, low: real)
    requires b >= 2.0 && y * b == xx && low * b - 0.5 <= xx < low * b
    ensures low - 0.5 < y < low
  {
    RMulCancel(y, low, b);
    RMulCancel(low - 0.5, y, b);
    RMulDist(low, 0.5, b);
  }

  /** Moving to the next exponent with one digit less is the same number. */
  lemma NextGrid(b: nat, p: nat, e0: int)
    requires b > 0 && p >= 1
    ensures Decimal(Pow(b, p), b, e0 - p) == Decimal(Pow(b, p - 1), b, e0 + 1 - p)
  {
    hide Times, Pow;
    PowTimes(b, p, e0 - p);
    PowTimes(b, p - 1, e0 + 1 - p);
  }

  // Enough digits always read back.

  lemma ErrorAtMax(b: nat, p: nat, e: int, k: int)
    requires b > 0 && p >= 1 && Pow(b, p - 1) >= TWO53
    ensures Scale(b, e - 1) <= Scale(2, k) ==> Times(0.5, b, e - p) <= Scale(2, k - 54)
    ensures Scale(b, e - 1) < Scale(2, k) ==> Times(0.5, b, e - p) < Scale(2, k - 54)
  {
    hide Scale, Pow, Times;
    var t, h := Times(0.5, b, e - p), Scale(2, k - 54);
    HalfGrid(b, p, e);
    ScaleMantissa();
    ScaleAdd(2, 53, k - 54);
    ScaleSucc(2, k - 1);
    LargeFactor(t, h, Pow(b, p - 1) as real, TWO53 as real, Scale(b, e - 1), Scale(2, k));
  }

  lemma HalfGrid(b: nat, p: nat, e: int)
    requires b > 0 && p >= 1
    ensures Times(0.5, b, e - p) * Pow(b, p - 1) as real == 0.5 * Scale(b, e - 1)
  {
    hide Scale, Pow;
    ScaleAdd(b, e - p, p - 1);
    ScaleNat(b, p - 1);
    RMulAssoc(0.5, Scale(b, e - p), Scale(b, p - 1));
  }

  lemma LargeFactor(t: real, h: real, w: real, w53: real, s: real, s2: real)
    requires t * w == 0.5 * s && w53 * h == 0.5 * s2 && w >= w53 > 0.0 && h > 0.0
    ensures s <= s2 ==> t <= h
    ensures s < s2 ==> t < h
  {
    RMulMono(w53, w, h);
    assert w * h == h * w && w53 * h == h * w53;
    if t > h { RMulLess(h, t, w); }
    if t >= h { RMulMono(h, t, w); }
  }

  /** The unchecked first try of the search reads back. */
  lemma MaxDigitsRead(m: nat, e: int, b: nat, e0: int, p: nat, mant: nat, e1: int)
    requires b > 0 && DoubleParts(m, e) && FirstExponent(e, b, e0)
    requires DigitsFor(ValueOf(m, e), b, e0, p, mant, e1) && Pow(b, p - 1) >= TWO53
    ensures NearestDouble(Decimal(mant, b, e1 - p), RNDN) == ValueOf(m, e)
  {
    InItsBinade(m, e);
    hide Scale, Pow, Times, Closest, NearestDouble, DoubleParts;
    var x, z := ValueOf(m, e), Decimal(mant, b, e1 - p);
    if AbsR(x - z) <= Times(0.5, b, e0 - p) {
      ErrorAtMax(b, p, e0, e - 1);
    } else {
      ErrorAtMax(b, p, e0 + 1, e);
      if m == TWO52 { LowestOf(e); }
    }
    CloseReads(m, e, z);
  }

  lemma LowestOf(e: int)
    ensures ValueOf(TWO52, e) == Scale(2, e - 1)
  {
    MantissaTimes(e - 53);
  }

  // The code: the search loop.

  /** What the search needs of the largest number of digits. */
  ghost predicate EnoughDigits(b: nat, pMax: nat) {
    2 <= b <= 36 && pMax >= 1 && Pow(b, pMax - 1) >= TWO53 && 2 * Pow(b, pMax) < BASE * BASE
  }

  lemma DigitsFit(b: nat, p: nat, pMax: nat)
    requires EnoughDigits(b, pMax) && p <= pMax
    ensures 2 * Pow(b, p) < BASE * BASE
  {
    PowMono(b, p, pMax);
  }

  lemma FitsLimbs(s: seq<Limb>)
    requires |s| >= 1 && (|s| == 1 || s[|s| - 1] != 0) && Value(s) < BASE * BASE
    ensures |s| <= 2
  {
    TwoLimbs();
    LengthBound(s, 2);
  }

  /** One mul_pow_round of the search, read as a 64-bit number. */
  method RoundDigits(tmp: Mpb, m: nat, e: int, radix1: Limb, radixShift: nat, p: nat, e1: int, ghost b: nat)
    returns (mant: nat)
    requires DoubleParts(m, e) && OddRadix(radix1) && b == radix1 * Pow(2, radixShift) && b > 0
    requires RoundAt(ValueOf(m, e), b, p, e1) < BASE * BASE
    modifies tmp
    ensures mant == RoundAt(ValueOf(m, e), b, p, e1)
  {
    ProductOfDouble(m, e, radix1, radixShift, p - e1, b);
    hide Pow, Value, Times, RoundR, Product, ValueOf;
    MulPowRound(tmp, m, e - 53, radix1, radixShift, p - e1, RNDN);
    FitsLimbs(tmp.tab);
    mant := tmp.GetU64();
  }

  /** The inner loop: the digits at one precision. */
  method TryPrecision(tmp: Mpb, m: nat, e: int, radix1: Limb, radixShift: nat, p: nat, e0: int, radix: nat,
      ghost pMax: nat)
    returns (mant: nat, e1: int)
    requires DoubleParts(m, e) && OddRadix(radix1) && radix == radix1 * Pow(2, radixShift)
    requires EnoughDigits(radix, pMax) && 1 <= p <= pMax && FirstExponent(e, radix, e0)
    modifies tmp
    ensures DigitsFor(ValueOf(m, e), radix, e0, p, mant, e1)
    ensures ValueOf(m, e) < Scale(radix, e0) ==>
      Decimal(mant, radix, e1 - p) == Decimal(RoundAt(ValueOf(m, e), radix, p, e0), radix, e0 - p)
  {
    DigitsFit(radix, p, pMax);
    FirstBounds(m, e, radix, e0);
    ghost var x := ValueOf(m, e);
    RoundAtBounds(x, radix, p, e0);
    hide Pow, RoundAt, DigitsFor, Value, Times, Scale, DoubleParts, FirstExponent, EnoughDigits, ValueOf;
    if RoundAt(x, radix, p, e0) >= Pow(radix, p) {
      SecondTry(x, radix, e0, p);
    } else {
      FirstTry(x, radix, e0, p);
    }
    var mantMax := PowUi(radix, p);
    e1 := e0;
    mant := RoundDigits(tmp, m, e, radix1, radixShift, p, e1, radix);
    while mant >= mantMax
      invariant e0 <= e1 <= e0 + 1 && mant == RoundAt(x, radix, p, e1)
      invariant e1 == e0 + 1 ==> RoundAt(x, radix, p, e0) >= Pow(radix, p)
      decreases e0 + 1 - e1
    {
      e1 := e1 + 1;
      mant := RoundDigits(tmp, m, e, radix1, radixShift, p, e1, radix);
    }
    if e1 > e0 && x < Scale(radix, e0) { CarriedOver(x, radix, p, e0); }
  }

  /** Digits that round up to one more digit stand for the same number at the next exponent. */
  lemma CarriedOver(x: real, b: nat, p: nat, e0: int)
    requires b >= 2 && p >= 1 && 0.0 < x < Scale(b, e0) && RoundAt(x, b, p, e0) >= Pow(b, p)
    ensures Decimal(RoundAt(x, b, p, e0 + 1), b, e0 + 1 - p) == Decimal(RoundAt(x, b, p, e0), b, e0 - p)
  {
    hide Scale, Pow, RoundAt, Decimal;
    JustUnder(x, b, p, e0);
    NextGrid(b, p, e0);
  }

  /** Removing useless trailing zeros. */
  method StripZeros(mant0: nat, p0: nat, radix: nat) returns (mant: nat, p: nat)
    requires radix >= 2 && p0 >= 1 && Pow(radix, p0 - 1) <= mant0 < Pow(radix, p0)
    ensures 1 <= p <= p0 && Pow(radix, p - 1) <= mant < Pow(radix, p) && mant % radix != 0
    ensures mant0 == mant * Pow(radix, p0 - p)
  {
    mant, p := mant0, p0;
    PowZero(radix);
    while mant % radix == 0
      invariant 1 <= p <= p0 && Pow(radix, p - 1) <= mant < Pow(radix, p)
      invariant mant0 == mant * Pow(radix, p0 - p)
      decreases p
    {
      StripStep(mant, p, p0, radix);
      mant := mant / radix;
      p := p - 1;
    }
  }

  lemma StripStep(mant: nat, p: nat, p0: nat, b: nat)
    requires b >= 2 && 1 <= p <= p0 && Pow(b, p - 1) <= mant < Pow(b, p) && mant % b == 0
    ensures p >= 2 && mant / b >= 0 && Pow(b, p - 2) <= mant / b < Pow(b, p - 1)
    ensures mant * Pow(b, p0 - p) == mant / b * Pow(b, p0 - p + 1)
  {
    PowZero(b);
    PowSucc(b, 0);
    hide Pow;
    if p == 1 { DivUnique(mant, b, 0, mant); }
    PowSucc(b, p - 2);
    PowSucc(b, p - 1);
    PowSucc(b, p0 - p);
    DivParts(mant, b);
    Stripping(mant, mant / b, b, Pow(b, p - 2), Pow(b, p - 1), Pow(b, p0 - p));
  }

  lemma Stripping(mant: nat, n: nat, b: nat, lo: nat, hi: nat, w: nat)
    requires mant == n * b && b > 0 && b * lo <= mant < b * hi
    ensures lo <= n < hi && mant * w == n * (b * w)
  {
    assert b * lo == lo * b && b * hi == hi * b;
    if n < lo { MulLess(n, lo, b); }
    if n >= hi { MulMono(hi, n, b); }
    MulAssoc(n, b, w);
  }

  /** A digit string that was found: what the source promises of js_dtoa's free format. */
  ghost predicate Shortest(m: nat, e: int, b: nat, p: nat, mant: nat, e1: int)
    requires b > 0
  {
    && p >= 1 && Pow(b, p - 1) <= mant < Pow(b, p) && mant % b != 0
    && NearestDouble(Decimal(mant, b, e1 - p), RNDN) == ValueOf(m, e)
    && Closest(ValueOf(m, e), b, Decimal(mant, b, e1 - p), Pow(b, p))
  }

  /** No digit string below n, with any exponent, reads back. */
  ghost predicate NoneBelow(m: nat, e: int, b: nat, n: nat)
    requires b > 0
  {
    forall k: nat, j: int {:trigger Decimal(k, b, j)} ::
      k < n ==> NearestDouble(Decimal(k, b, j), RNDN) != ValueOf(m, e)
  }

  /** The digits without their zeros are the same number. */
  lemma Stripped(m: nat, e: int, b: nat, e0: int, p0: nat, mant0: nat, e1: int, p: nat, mant: nat)
    requires b >= 2 && DigitsFor(ValueOf(m, e), b, e0, p0, mant0, e1) && 1 <= p <= p0
    requires Pow(b, p - 1) <= mant < Pow(b, p) && mant % b != 0 && mant0 == mant * Pow(b, p0 - p)
    ensures Decimal(mant, b, e1 - p) == Decimal(mant0, b, e1 - p0)
    ensures NearestDouble(Decimal(mant0, b, e1 - p0), RNDN) == ValueOf(m, e) ==> Shortest(m, e, b, p, mant, e1)
  {
    TimesNat(mant, b, p0 - p, e1 - p0, e1 - p, mant0);
    PowMono(b, p, p0);
    hide Times, NearestDouble, Pow, AbsR;
    assert Closest(ValueOf(m, e), b, Decimal(mant, b, e1 - p), Pow(b, p)) by { hide Decimal; }
  }

  /** When the closest digits of a precision fail, all digits of that precision fail. */
  lemma AllFail(m: nat, e: int, b: nat, p: nat, z: real)
    requires b > 0 && DoubleParts(m, e) && Symmetric(m, e) && z >= 0.0
    requires Closest(ValueOf(m, e), b, z, Pow(b, p)) && NearestDouble(z, RNDN) != ValueOf(m, e)
    ensures NoneBelow(m, e, b, Pow(b, p))
  {
    hide Times, NearestDouble, Pow, AbsR, ValueOf, DoubleParts, Decimal;
    forall k: nat, j: int | k < Pow(b, p) ensures NearestDouble(Decimal(k, b, j), RNDN) != ValueOf(m, e) {
      if NearestDouble(Decimal(k, b, j), RNDN) == ValueOf(m, e) {
        CloserReads(m, e, Decimal(k, b, j), z);
      }
    }
  }

  // Powers of two, where the interval is uneven.

  ghost function FloorAt(x: real, b: nat, p: int, e: int): nat
    requires x >= 0.0 && b > 0
  {
    Times(x, b, p - e).Floor
  }

  /** The digits tried lie below all that reads back, but the next number with as many digits, which is
      above the double, reads back. */
  ghost predicate Missed(m: nat, e: int, b: nat, p: nat, e0: int)
    requires b > 0
  {
    var x := ValueOf(m, e);
    && p >= 1 && !Symmetric(m, e)
    && Decimal(RoundAt(x, b, p, e0), b, e0 - p) < x - Scale(2, e - 55)
    && Decimal(FloorAt(x, b, p, e0) + 1, b, e0 - p) <= x + Scale(2, e - 54)
  }

  /** The next number above x with at most p digits. */
  lemma NextAbove(x: real, b: nat, p: nat, e: int, k: nat, j: int)
    requires b > 0 && p >= 1 && x >= 0.0 && Scale(b, e - 1) <= x && k < Pow(b, p) && Decimal(k, b, j) > x
    ensures x < Decimal(FloorAt(x, b, p, e) + 1, b, e - p) <= Decimal(k, b, j)
  {
    hide Scale, Pow, Times;
    AboveFloor(x, b, p, e);
    if j < e - p {
      FinerIsBelow(x, b, p, e, k, j);
    } else {
      SameGrid(k, b, j, e - p);
      GridAbove(x, b, p, e, k * Pow(b, j - (e - p)));
    }
  }

  lemma AboveFloor(x: real, b: nat, p: nat, e: int)
    requires b > 0 && x >= 0.0
    ensures x < Decimal(FloorAt(x, b, p, e) + 1, b, e - p)
  {
    hide Times;
    var xx := Times(x, b, p - e);
    TimesBack(x, b, p - e, e - p);
    TimesLess(xx, (FloorAt(x, b, p, e) + 1) as real, b, e - p);
  }

  lemma GridAbove(x: real, b: nat, p: nat, e: int, t: nat)
    requires b > 0 && x >= 0.0 && Decimal(t, b, e - p) > x
    ensures Decimal(FloorAt(x, b, p, e) + 1, b, e - p) <= Decimal(t, b, e - p)
  {
    hide Times, FloorAt;
    var f, xx := FloorAt(x, b, p, e) + 1, Times(x, b, p - e);
    TimesBack(x, b, p - e, e - p);
    TimesLess(xx, t as real, b, e - p);
    FloorBelow(x, b, p, e, t);
    TimesMono(f as real, t as real, b, e - p);
  }

  lemma FloorBelow(x: real, b: nat, p: nat, e: int, t: nat)
    requires b > 0 && x >= 0.0 && Times(x, b, p - e) < t as real
    ensures FloorAt(x, b, p, e) + 1 <= t
  {
    hide Times;
  }

  /** The next number above x needs no more digits. */
  lemma NextFits(x: real, b: nat, p: nat, e: int) returns (k: nat, j: int)
    requires b >= 2 && p >= 1 && 0.0 <= x < Scale(b, e)
    ensures k < Pow(b, p) && Decimal(k, b, j) == Decimal(FloorAt(x, b, p, e) + 1, b, e - p)
  {
    var f := FloorAt(x, b, p, e) + 1;
    PowSucc(b, p - 1);
    hide Scale, Pow, Times;
    PowAtGrid(b, p, e);
    TimesLess(x, Scale(b, e), b, p - e);
    if f < Pow(b, p) {
      k, j := f, e - p;
    } else {
      k, j := Pow(b, p - 1), e + 1 - p;
      NextGrid(b, p, e);
      MulMono(2, b, Pow(b, p - 1));
    }
  }

  /** What is missed reads back. */
  lemma MissedReads(m: nat, e: int, b: nat, p: nat, e0: int)
    requires b >= 2 && DoubleParts(m, e) && FirstExponent(e, b, e0) && Missed(m, e, b, p, e0)
    ensures !NoneBelow(m, e, b, Pow(b, p))
  {
    var x := ValueOf(m, e);
    LowestOf(e);
    hide Scale, Pow, Times, RoundAt, NearestDouble, Decimal, FloorAt, ValueOf, DoubleParts;
    var k, j := NextFits(x, b, p, e0);
    AboveFloor(x, b, p, e0);
    ReadsUneven(e, Decimal(k, b, j));
    ScaleLess(2, e - 55, e - 54);
  }

  /** When the closest digits of a precision fail, some digits of that precision read back exactly when
      they are missed. */
  lemma FailsUnlessMissed(m: nat, e: int, b: nat, p: nat, e0: int)
    requires b >= 2 && p >= 1 && DoubleParts(m, e) && !Symmetric(m, e) && FirstExponent(e, b, e0)
    requires NearestDouble(Decimal(RoundAt(ValueOf(m, e), b, p, e0), b, e0 - p), RNDN) != ValueOf(m, e)
    ensures NoneBelow(m, e, b, Pow(b, p)) <==> !Missed(m, e, b, p, e0)
  {
    hide Scale, Pow, Times, RoundAt, NearestDouble, Decimal, FloorAt, ValueOf, DoubleParts, Missed, FirstExponent;
    if Missed(m, e, b, p, e0) {
      MissedReads(m, e, b, p, e0);
    } else {
      forall k: nat, j: int | k < Pow(b, p) ensures NearestDouble(Decimal(k, b, j), RNDN) != ValueOf(m, e) {
        NotMissed(m, e, b, p, e0, k, j);
      }
    }
  }

  lemma NotMissed(m: nat, e: int, b: nat, p: nat, e0: int, k: nat, j: int)
    requires b >= 2 && p >= 1 && DoubleParts(m, e) && !Symmetric(m, e) && FirstExponent(e, b, e0) && k < Pow(b, p)
    requires NearestDouble(Decimal(RoundAt(ValueOf(m, e), b, p, e0), b, e0 - p), RNDN) != ValueOf(m, e)
    requires !Missed(m, e, b, p, e0)
    ensures NearestDouble(Decimal(k, b, j), RNDN) != ValueOf(m, e)
  {
    var x := ValueOf(m, e);
    LowestOf(e);
    hide Scale, Pow, Times, RoundAt, NearestDouble, Decimal, FloorAt, ValueOf, DoubleParts;
    var z, v := Decimal(RoundAt(x, b, p, e0), b, e0 - p), Decimal(k, b, j);
    ClosestAt(x, b, p, e0);
    assert AbsR(x - z) <= AbsR(x - v);
    ReadsUneven(e, z);
    ReadsUneven(e, v);
    ScaleLess(2, e - 55, e - 54);
    if v > x { NextAbove(x, b, p, e0, k, j); }
  }

  /** The two neighbours of x on the grid of p digits are a step apart. */
  lemma GridStep(x: real, b: nat, p: nat, e: int, k: nat)
    requires b > 0 && x >= 0.0 && Decimal(k, b, e - p) < x
    ensures Decimal(FloorAt(x, b, p, e) + 1, b, e - p) - Decimal(k, b, e - p) >= Scale(b, e - p)
  {
    hide Times, Scale;
    var xx, f := Times(x, b, p - e), FloorAt(x, b, p, e) + 1;
    TimesBack(x, b, p - e, e - p);
    TimesLess(k as real, xx, b, e - p);
    assert k + 1 <= f;
    TimesStep(k as real, f as real, b, e - p);
  }

  lemma TimesStep(k: real, f: real, b: nat, q: int)
    requires b > 0 && f >= k + 1.0
    ensures Times(f, b, q) - Times(k, b, q) >= Scale(b, q)
  {
    TimesIs(f, b, q);
    TimesIs(k, b, q);
    hide Times, Scale;
    StepApart(k, f, Scale(b, q), Times(k, b, q), Times(f, b, q));
  }

  lemma StepApart(k: real, f: real, g: real, y: real, z: real)
    requires f >= k + 1.0 && g > 0.0 && y == k * g && z == f * g
    ensures z - y >= g
  {
    RMulMono(k + 1.0, f, g);
    RMulDist(k, 1.0, g);
  }

  lemma FewerDigits(x: real, b: nat, q: nat, p: nat, e: int, k: nat)
    requires b > 0 && q <= p && Decimal(k, b, e - q) < x < Scale(b, e)
    ensures k < Pow(b, p)
  {
    hide Times, Scale, Pow;
    PowTimes(b, q, e - q);
    TimesLess(k as real, Pow(b, q) as real, b, e - q);
    PowMono(b, q, p);
  }

  /** The digits that a try at p digits finds are not missed at any smaller number of digits that holds them:
      otherwise both roundings would be equally far from x, on neighbouring points of the finer grid. */
  lemma FoundNotMissed(m: nat, e: int, b: nat, p: nat, e0: int, q: nat, k: nat, j: int)
    requires b >= 2 && 1 <= q <= p && DoubleParts(m, e) && FirstExponent(e, b, e0) && k < Pow(b, q)
    requires Decimal(k, b, j) == Decimal(RoundAt(ValueOf(m, e), b, p, e0), b, e0 - p)
    requires NearestDouble(Decimal(k, b, j), RNDN) == ValueOf(m, e)
    ensures !Missed(m, e, b, q, e0)
  {
    if Missed(m, e, b, q, e0) {
      var x := ValueOf(m, e);
      LowestOf(e);
      UnevenBelow(m, e, b, e0);
      FirstBounds(m, e, b, e0);
      hide Scale, Pow, Times, RoundAt, NearestDouble, Decimal, FloorAt, ValueOf, DoubleParts, FirstExponent;
      ReadsUneven(e, Decimal(k, b, j));
      ScaleLess(2, e - 55, e - 54);
      var r := RoundAt(x, b, q, e0);
      FewerDigits(x, b, q, p, e0, r);
      ClosestAt(x, b, q, e0);
      ClosestAt(x, b, p, e0);
      EquallyFar(x, b, p, e0, q, k, j);
    }
  }

  lemma EquallyFar(x: real, b: nat, p: nat, e0: int, q: nat, k: nat, j: int)
    requires b >= 2 && 1 <= q <= p && Scale(b, e0 - 1) <= x && x > 0.0 && k < Pow(b, q)
    requires Decimal(k, b, j) == Decimal(RoundAt(x, b, p, e0), b, e0 - p) > x
    ensures x - Decimal(RoundAt(x, b, q, e0), b, e0 - q) != Decimal(k, b, j) - x
  {
    hide Scale, Pow, Times, RoundAt, Decimal, FloorAt;
    var r, z := Decimal(RoundAt(x, b, q, e0), b, e0 - q), Decimal(k, b, j);
    if q == p {
      assert RoundAt(x, b, q, e0) == RoundAt(x, b, p, e0) && e0 - q == e0 - p;
    } else if r < x {
      NextAbove(x, b, q, e0, k, j);
      GridStep(x, b, q, e0, RoundAt(x, b, q, e0));
      RoundAtBounds(x, b, p, e0);
      TimesIs(0.5, b, e0 - p);
      assert z - r >= Scale(b, e0 - q) && z - x <= 0.5 * Scale(b, e0 - p);
      ScaleLess(b, e0 - p, e0 - q);
    }
  }

  /** The search misses nothing from lo to hi digits. */
  ghost predicate NeverMissed(m: nat, e: int, b: nat, lo: nat, hi: nat, e0: int)
    requires b > 0
  {
    forall q: nat :: lo <= q <= hi ==> !Missed(m, e, b, q, e0)
  }

  lemma FoundNeverMissed(m: nat, e: int, b: nat, p0: nat, e0: int, p: nat, mant: nat, e1: int)
    requires b >= 2 && 1 <= p <= p0 && DoubleParts(m, e) && FirstExponent(e, b, e0) && mant < Pow(b, p)
    requires ValueOf(m, e) < Scale(b, e0) ==>
      Decimal(mant, b, e1 - p) == Decimal(RoundAt(ValueOf(m, e), b, p0, e0), b, e0 - p0)
    requires NearestDouble(Decimal(mant, b, e1 - p), RNDN) == ValueOf(m, e)
    ensures NeverMissed(m, e, b, p, p0, e0)
  {
    UnevenBelow(m, e, b, e0);
    hide Scale, Pow, Times, RoundAt, NearestDouble, Decimal, Missed, ValueOf, DoubleParts, FirstExponent, Symmetric;
    forall q: nat | p <= q <= p0 ensures !Missed(m, e, b, q, e0) {
      if Symmetric(m, e) {
        EvenNotMissed(m, e, b, q, e0);
      } else {
        PowMono(b, p, q);
        FoundNotMissed(m, e, b, p0, e0, q, mant, e1 - p);
      }
    }
  }

  /** Nothing shorter reads back exactly when no number of digits is missed. */
  lemma FewestUnlessMissed(m: nat, e: int, b: nat, p: nat, pMax: nat, e0: int)
    requires b >= 2 && 1 <= p <= pMax && DoubleParts(m, e) && FirstExponent(e, b, e0)
    requires NeverMissed(m, e, b, p, pMax, e0)
    requires NoneBelow(m, e, b, Pow(b, p - 1)) <==> !Missed(m, e, b, p - 1, e0)
    ensures NoneBelow(m, e, b, Pow(b, p - 1)) <==> NeverMissed(m, e, b, 1, pMax, e0)
  {
    EvenNotMissed(m, e, b, 0, e0);
    hide Pow, Missed, DoubleParts, FirstExponent, NoneBelow;
    if NoneBelow(m, e, b, Pow(b, p - 1)) {
      forall q: nat | 1 <= q <= pMax ensures !Missed(m, e, b, q, e0) {
        if q < p { NoneHidden(m, e, b, q, p - 1, e0); }
      }
    }
  }

  lemma NoneHidden(m: nat, e: int, b: nat, q: nat, p: nat, e0: int)
    requires b >= 2 && q <= p && DoubleParts(m, e) && FirstExponent(e, b, e0) && NoneBelow(m, e, b, Pow(b, p))
    ensures !Missed(m, e, b, q, e0)
  {
    hide Pow, Missed, DoubleParts, FirstExponent, NoneBelow;
    if Missed(m, e, b, q, e0) {
      MissedReads(m, e, b, q, e0);
      PowMono(b, q, p);
      NoneBelowLess(m, e, b, Pow(b, q), Pow(b, p));
    }
  }

  lemma NoneBelowLess(m: nat, e: int, b: nat, n: nat, n1: nat)
    requires b > 0 && n <= n1 && NoneBelow(m, e, b, n1)
    ensures NoneBelow(m, e, b, n)
  {
    hide NearestDouble, Decimal, ValueOf;
  }

  lemma ZeroFails(m: nat, e: int, b: nat)
    requires b > 0 && DoubleParts(m, e)
    ensures NoneBelow(m, e, b, Pow(b, 0))
  {
    InItsBinade(m, e);
    PowZero(b);
    hide Pow, ValueOf, DoubleParts, InBinade, Times;
    forall k: nat, j: int | k < Pow(b, 0) ensures NearestDouble(Decimal(k, b, j), RNDN) != ValueOf(m, e) {
      assert Decimal(k, b, j) == 0.0;
    }
  }

  /** The test of the search: whether the digits read back. */
  method ReadsAs(tmp: Mpb, m: nat, e: int, radix1: Limb, radixShift: nat, mant: nat, f: int, ghost b: nat)
    returns (same: bool)
    requires DoubleParts(m, e) && OddRadix(radix1) && b == radix1 * Pow(2, radixShift) && b > 0
    requires 0 < mant < BASE * BASE && Decimal(mant, b, f) >= Scale(2, MIN_EXPONENT - 11)
    modifies tmp
    ensures same == (NearestDouble(Decimal(mant, b, f), RNDN) == ValueOf(m, e))
  {
    ProductOfDigits(mant, radix1, radixShift, f, b);
    hide Pow, Value, Times, Product, Scale, NearestDouble, ValueOf, Decimal, DoubleParts, IsNearest;
    tmp.SetU64(mant);
    var m1, e1 := MulPowRoundToD(tmp, radix1, radixShift, f, RNDN);
    same := m1 == m && e1 == e;
    SameNearest(Decimal(mant, b, f), m, e, m1, e1);
  }

  lemma SameNearest(y: real, m: nat, e: int, m1: nat, e1: int)
    requires y >= 0.0 && DoubleParts(m, e) && IsNearest(y, RNDN, m1, e1)
    ensures m1 == m && e1 == e <==> NearestDouble(y, RNDN) == ValueOf(m, e)
  {
    hide NearestDouble, ValueOf, DoubleParts;
    SameValue(m, e, m1, e1);
  }

  lemma SameValue(m: nat, e: int, m1: nat, e1: int)
    requires DoubleParts(m, e) && (m1 == 0 || DoubleParts(m1, e1))
    ensures m1 == m && e1 == e <==> ValueOf(m1, e1) == ValueOf(m, e)
  {
    InItsBinade(m, e);
    hide Shift2, InBinade;
    if m1 != 0 && ValueOf(m1, e1) == ValueOf(m, e) { ValueUnique(m, e, m1, e1); }
    if m1 == 0 { ZeroShift(e1 - 53); }
  }

  /** The digits found stay within the range of the last shift. */
  lemma NotTiny(m: nat, e: int, b: nat, e0: int, p: nat, mant: nat, e1: int)
    requires b >= 2 && DoubleParts(m, e) && FirstExponent(e, b, e0) && DigitsFor(ValueOf(m, e), b, e0, p, mant, e1)
    ensures mant > 0 && Decimal(mant, b, e1 - p) >= Scale(2, MIN_EXPONENT - 11)
  {
    FirstBounds(m, e, b, e0);
    InItsBinade(m, e);
    hide Scale, Pow, Times, ValueOf, Closest;
    var x, z := ValueOf(m, e), Decimal(mant, b, e1 - p);
    var e2 := if AbsR(x - z) <= Times(0.5, b, e0 - p) then e0 else e0 + 1;
    HalfAtMost(b, p, e2, x);
    ScaleSucc(2, e - 2);
    ScaleMono(2, MIN_EXPONENT - 11, e - 2);
  }

  lemma HalfAtMost(b: nat, p: nat, e: int, x: real)
    requires b >= 2 && p >= 1 && Scale(b, e - 1) <= x
    ensures Times(0.5, b, e - p) <= 0.5 * x
  {
    hide Scale;
    TimesIs(0.5, b, e - p);
    ScaleMono(b, e - p, e - 1);
  }

  /** One round of the search at precision p, with the useless zeros removed. */
  method OneTry(tmp: Mpb, m: nat, e: int, radix1: Limb, radixShift: nat, radix: nat, p0: nat, e0: int, check: bool,
      ghost pMax: nat)
    returns (mant: nat, p: nat, e1: int, ok: bool)
    requires DoubleParts(m, e) && OddRadix(radix1) && radix == radix1 * Pow(2, radixShift)
    requires EnoughDigits(radix, pMax) && 1 <= p0 <= pMax && FirstExponent(e, radix, e0)
    requires check || p0 == pMax
    modifies tmp
    ensures 1 <= p <= p0 && (ok ==> Shortest(m, e, radix, p, mant, e1))
    ensures !ok ==> (NoneBelow(m, e, radix, Pow(radix, p0)) <==> !Missed(m, e, radix, p0, e0))
    ensures !check ==> ok
    ensures ok ==> NeverMissed(m, e, radix, p, p0, e0)
  {
    DigitsFit(radix, p0, pMax);
    EnoughIs(radix, pMax);
    UnevenBelow(m, e, radix, e0);
    hide Pow, Scale, DoubleParts, FirstExponent, DigitsFor, Shortest, NoneBelow, Decimal, ValueOf, EnoughDigits,
      Missed, RoundAt, NeverMissed;
    var mant0: nat;
    mant0, e1 := TryPrecision(tmp, m, e, radix1, radixShift, p0, e0, radix, pMax);
    NotTiny(m, e, radix, e0, p0, mant0, e1);
    DigitsForIs(ValueOf(m, e), radix, e0, p0, mant0, e1);
    mant, p := StripZeros(mant0, p0, radix);
    Stripped(m, e, radix, e0, p0, mant0, e1, p, mant);
    PowMono(radix, p, p0);
    ok := true;
    if check {
      ok := ReadsAs(tmp, m, e, radix1, radixShift, mant, e1 - p, radix);
      if !ok {
        if Symmetric(m, e) {
          AllFail(m, e, radix, p0, Decimal(mant0, radix, e1 - p0));
          EvenNotMissed(m, e, radix, p0, e0);
        } else {
          FailsUnlessMissed(m, e, radix, p0, e0);
        }
      }
    } else {
      MaxDigitsRead(m, e, radix, e0, p0, mant0, e1);
    }
    if ok { FoundNeverMissed(m, e, radix, p0, e0, p, mant, e1); }
  }

  lemma EvenNotMissed(m: nat, e: int, b: nat, p: nat, e0: int)
    requires b > 0 && (Symmetric(m, e) || p == 0)
    ensures !Missed(m, e, b, p, e0)
  {
  }

  /** A power of two is below the first power of the radix that the search assumes it to be. */
  lemma UnevenBelow(m: nat, e: int, b: nat, e0: int)
    requires b > 0 && FirstExponent(e, b, e0)
    ensures !Symmetric(m, e) ==> ValueOf(m, e) < Scale(b, e0)
  {
    LowestOf(e);
  }

  lemma EnoughIs(b: nat, pMax: nat)
    requires EnoughDigits(b, pMax)
    ensures 2 <= b <= 36 && Pow(b, pMax - 1) >= TWO53
  {
  }

  lemma DigitsForIs(x: real, b: nat, e0: int, p: nat, mant: nat, e: int)
    requires b > 0 && DigitsFor(x, b, e0, p, mant, e)
    ensures p >= 1 && Pow(b, p - 1) <= mant < Pow(b, p) && Closest(x, b, Decimal(mant, b, e - p), Pow(b, p))
  {
  }

  /** The digit search of js_dtoa in free format: the digits read back to the double, no number with as
      many digits is closer, and no shorter digits read back exactly when no number of digits is missed. */
  method FreeFormatDigits(m: nat, e: int, radix1: Limb, radixShift: nat, radix: nat, pMax: nat, e0: int)
    returns (mant: nat, p: nat, e1: int)
    requires DoubleParts(m, e) && OddRadix(radix1) && radix == radix1 * Pow(2, radixShift)
    requires EnoughDigits(radix, pMax) && FirstExponent(e, radix, e0)
    ensures p <= pMax && Shortest(m, e, radix, p, mant, e1)
    ensures NoneBelow(m, e, radix, Pow(radix, p - 1)) <==> NeverMissed(m, e, radix, 1, pMax, e0)
  {
    EnoughIs(radix, pMax);
    ZeroFails(m, e, radix);
    EvenNotMissed(m, e, radix, 0, e0);
    hide Pow, DoubleParts, FirstExponent, EnoughDigits, Shortest, NoneBelow, Missed;
    var tmp := new Mpb(0);
    var ok: bool;
    mant, p, e1, ok := OneTry(tmp, m, e, radix1, radixShift, radix, pMax, e0, false, pMax);
    while ok && p > 1
      invariant 1 <= p <= pMax && Shortest(m, e, radix, p, mant, e1) && NeverMissed(m, e, radix, p, pMax, e0)
      invariant !ok ==> (NoneBelow(m, e, radix, Pow(radix, p - 1)) <==> !Missed(m, e, radix, p - 1, e0))
      decreases p, ok
    {
      var mant1, p1, e2;
      mant1, p1, e2, ok := OneTry(tmp, m, e, radix1, radixShift, radix, p - 1, e0, true, pMax);
      if ok {
        mant, p, e1 := mant1, p1, e2;
      }
    }
    FewestUnlessMissed(m, e, radix, p, pMax, e0);
  }
}
