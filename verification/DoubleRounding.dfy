/** Rounding to a double: the nearest representable number, and the code that finds it. */
module DoubleRounding {
  import opened Limbs
  import opened Bignum
  import opened RealRounding
  import opened Scaling

  const TWO52: nat := 0x10_0000_0000_0000
  const TWO53: nat := 0x20_0000_0000_0000
  const MIN_EXPONENT := -1074

  lemma PowMantissa()
    ensures Pow(2, 52) == TWO52 && Pow(2, 53) == TWO53
  {
    PowLimb();
    PowAdd(2, 32, 20);
    PowAdd(2, 10, 10);
    PowAdd(2, 5, 5);
    PowSucc(2, 52);
  }

  lemma ScaleMantissa()
    ensures Scale(2, 52) == TWO52 as real && Scale(2, 53) == TWO53 as real
  {
    PowMantissa();
    ScaleNat(2, 52);
    ScaleNat(2, 53);
  }

  lemma MantissaTimes(q: int)
    ensures Shift2(TWO52 as real, q) == Scale(2, 52 + q) && Shift2(TWO53 as real, q) == Scale(2, 53 + q)
  {
    hide Scale;
    ScaleMantissa();
    ScaleAdd(2, 52, q);
    ScaleAdd(2, 53, q);
    ShiftIs(TWO52 as real, q);
    ShiftIs(TWO53 as real, q);
  }

  // The binade of a positive number.

  ghost predicate InBinade(y: real, k: int) {
    Scale(2, k - 1) <= y < Scale(2, k)
  }

  lemma BinadeUnique(y: real, i: int, j: int)
    requires InBinade(y, i) && InBinade(y, j)
    ensures i == j
  {
    if i < j { ScaleMono(2, i, j - 1); }
    if j < i { ScaleMono(2, j, i - 1); }
  }

  lemma BinadeAbove(y: real, n: nat)
    requires n > 0 && n as real <= y < n as real + 1.0
    ensures InBinade(y, BitLen(n))
  {
    BitLenIs(n);
    ScaleNat(2, BitLen(n) - 1);
    ScaleNat(2, BitLen(n));
  }

  /** Reciprocals reverse the order. */
  lemma RecipLess(y: real, z: real, a: real, b: real)
    requires y > 0.0 && y * z == 1.0 && a > 0.0 && a * b == 1.0
    ensures z < a <==> b < y
    ensures z == a <==> b == y
  {
    RMulCancel(z, a, y);
    RMulCancel(b, y, a);
    assert y * a == a * y && z * y == y * z && b * a == a * b;
  }

  lemma BinadeOfReciprocal(y: real, z: real, b: int)
    requires y > 0.0 && y * z == 1.0 && InBinade(z, b)
    ensures InBinade(y, 1 - b) || InBinade(y, 2 - b)
  {
    hide Scale;
    ScaleInverse(2, b);
    ScaleInverse(2, b - 1);
    RecipLess(y, z, Scale(2, b), Scale(2, -b));
    RecipLess(y, z, Scale(2, b - 1), Scale(2, 1 - b));
    ScaleLess(2, 1 - b, 2 - b);
  }

  lemma BinadeExists(y: real)
    requires y > 0.0
    ensures exists k :: InBinade(y, k)
  {
    if y >= 1.0 {
      BinadeAbove(y, y.Floor);
    } else {
      hide InBinade;
      var z := 1.0 / y;
      DivMul(1.0, y);
      assert y * z == 1.0;
      if z < 1.0 { RMulLess(z, 1.0, y); }
      BinadeAbove(z, z.Floor);
      BinadeOfReciprocal(y, z, BitLen(z.Floor));
    }
  }

  ghost function Binade(y: real): (k: int)
    requires y > 0.0
    ensures InBinade(y, k)
  {
    BinadeExists(y);
    var k :| InBinade(y, k);
    k
  }

  // The nearest double, without an upper bound on the exponent.

  /** The exponent of the spacing of the doubles in a binade. */
  function Spacing(k: int): int {
    if k - 53 >= MIN_EXPONENT then k - 53 else MIN_EXPONENT
  }

  /** How many bits of precision a binade has. */
  function Precision(k: int): int {
    k - Spacing(k)
  }

  /** y rounded to a whole number of spacings of binade k. */
  ghost function StepsIn(y: real, k: int, mode: Rounding): nat
    requires y >= 0.0
  {
    RoundR(Shift2(y, -Spacing(k)), mode)
  }

  ghost function NearestDouble(y: real, mode: Rounding): (v: real)
    requires y >= 0.0
    ensures v >= 0.0
  {
    if y == 0.0 then 0.0 else Shift2(StepsIn(y, Binade(y), mode) as real, Spacing(Binade(y)))
  }

  lemma NearestIn(y: real, k: int, mode: Rounding)
    requires y > 0.0 && InBinade(y, k)
    ensures NearestDouble(y, mode) == Shift2(StepsIn(y, k, mode) as real, Spacing(k))
  {
    BinadeUnique(y, k, Binade(y));
  }

  /** n steps of 2^q, where the format has such a number. */
  ghost predicate IsDouble(v: real, n: nat, q: int) {
    n <= TWO53 && q >= MIN_EXPONENT && v == Shift2(n as real, q)
  }

  lemma RoundBetween(x: real, lo: int, hi: int, mode: Rounding)
    requires x >= 0.0 && lo as real <= x <= hi as real
    ensures lo <= RoundR(x, mode) <= hi
  {
  }

  /** A number shifted within its binade. */
  lemma ShiftedBinade(y: real, k: int, q: int)
    requires InBinade(y, k)
    ensures Scale(2, k - 1 - q) <= Shift2(y, -q) < Scale(2, k - q)
  {
    hide Shift2, Scale;
    ShiftUnit(k - 1);
    ShiftUnit(k);
    ShiftUnit(k - 1 - q);
    ShiftUnit(k - q);
    ShiftLess(y, Shift2(1.0, k - 1), -q);
    ShiftLess(y, Shift2(1.0, k), -q);
    ShiftShift(1.0, k - 1, -q, k - 1 - q);
    ShiftShift(1.0, k, -q, k - q);
  }

  /** Rounding keeps a number inside its binade, the upper end included. */
  lemma StepsRange(y: real, k: int, mode: Rounding)
    requires y > 0.0 && InBinade(y, k)
    ensures var n, prec := StepsIn(y, k, mode), Precision(k);
      && prec <= 53 && n <= TWO53
      && (prec >= 1 ==> Pow(2, prec - 1) <= n <= Pow(2, prec))
      && (prec == 0 ==> n <= 1)
      && (prec < 0 ==> n == 0)
  {
    hide Scale, RoundR, Shift2, InBinade, Pow;
    var q, prec := Spacing(k), Precision(k);
    ShiftedBinade(y, k, q);
    PowMantissa();
    if prec >= 1 {
      ScaleNat(2, prec - 1);
      ScaleNat(2, prec);
      PowMono(2, prec, 53);
      RoundBetween(Shift2(y, -q), Pow(2, prec - 1), Pow(2, prec), mode);
    } else if prec == 0 {
      ScaleZero(2);
      RoundBetween(Shift2(y, -q), 0, 1, mode);
    } else {
      ScaleMono(2, prec, -1);
      RoundHalf(Shift2(y, -q), mode);
    }
  }

  lemma RoundHalf(x: real, mode: Rounding)
    requires 0.0 <= x < Scale(2, -1)
    ensures RoundR(x, mode) == 0
  {
    assert Scale(2, -1) == 0.5;
    FloorIs(x, 0);
  }

  lemma NearestIsDouble(y: real, mode: Rounding)
    requires y > 0.0
    ensures var k := Binade(y);
      IsDouble(NearestDouble(y, mode), StepsIn(y, k, mode), Spacing(k))
  {
    hide Shift2, StepsIn;
    StepsRange(y, Binade(y), mode);
  }

  /** The nearest double is a double and no farther than any other; a tie goes to an even mantissa. */
  lemma NearestIsClosest(y: real, w: real, n: nat, q1: int)
    requires y > 0.0 && IsDouble(w, n, q1)
    ensures var v := NearestDouble(y, RNDN);
      && AbsR(y - v) <= AbsR(y - w)
      && (AbsR(y - v) == AbsR(y - w) ==> v == w || StepsIn(y, Binade(y), RNDN) % 2 == 0)
    ensures IsDouble(NearestDouble(y, RNDN), StepsIn(y, Binade(y), RNDN), Spacing(Binade(y)))
  {
    NearestIsDouble(y, RNDN);
    hide Scale, AbsR, Shift2, InBinade;
    var k := Binade(y);
    var q := Spacing(k);
    if q1 >= q {
      ShiftNat(n, q1 - q, q, q1);
      ClosestOnGrid(y, k, Shl(n, q1 - q));
    } else {
      ClosestOnGrid(y, k, TWO52);
      LowerBinade(y, k, w, n, q1);
      Below(y, Shift2(TWO52 as real, q), w);
    }
  }

  /** Rounding keeps the order. */
  lemma NearestMono(y: real, z: real)
    requires 0.0 <= y <= z
    ensures NearestDouble(y, RNDN) <= NearestDouble(z, RNDN)
  {
    hide NearestDouble, IsDouble, StepsIn, Binade, Spacing;
    ZeroNearest();
    if 0.0 < y < z {
      NearestIsDouble(y, RNDN);
      NearestIsDouble(z, RNDN);
      NearestIsClosest(y, NearestDouble(z, RNDN), StepsIn(z, Binade(z), RNDN), Spacing(Binade(z)));
      NearestIsClosest(z, NearestDouble(y, RNDN), StepsIn(y, Binade(y), RNDN), Spacing(Binade(y)));
    }
  }

  lemma ZeroNearest()
    ensures NearestDouble(0.0, RNDN) == 0.0
  {
  }

  lemma ClosestOnGrid(y: real, k: int, t: nat)
    requires y > 0.0 && k == Binade(y)
    ensures var v, w := NearestDouble(y, RNDN), Shift2(t as real, Spacing(k));
      && AbsR(y - v) <= AbsR(y - w)
      && (AbsR(y - v) == AbsR(y - w) ==> v == w || StepsIn(y, k, RNDN) % 2 == 0)
  {
    hide AbsR, Shift2, RoundR;
    var q := Spacing(k);
    var x := Shift2(y, -q);
    RoundClosest(x, t);
    ShiftBack(y, -q, q);
    ShiftDistance(x, StepsIn(y, k, RNDN) as real, t as real, q);
  }

  /** Finer doubles than those of y's binade lie below it. */
  lemma LowerBinade(y: real, k: int, w: real, n: nat, q1: int)
    requires InBinade(y, k) && IsDouble(w, n, q1) && q1 < Spacing(k)
    ensures w <= Shift2(TWO52 as real, Spacing(k)) <= y
  {
    hide Scale, Shift2;
    MantissaTimes(Spacing(k));
    MantissaTimes(q1);
    ScaleMono(2, 53 + q1, 52 + Spacing(k));
    ShiftLess(TWO53 as real, n as real, q1);
  }

  lemma Below(y: real, t: real, w: real)
    requires w <= t <= y
    ensures AbsR(y - t) <= AbsR(y - w) && (AbsR(y - t) == AbsR(y - w) ==> t == w)
  {
  }

  // The code: round_to_d.

  /** m * 2^(e - 53) is a normalized double, possibly with a too large exponent. */
  ghost predicate DoubleParts(m: nat, e: int) {
    && TWO52 <= m < TWO53
    && (e >= -1021 || (e >= -1073 && m % Pow(2, -1021 - e) == 0))
  }

  ghost function ValueOf(m: nat, e: int): (v: real)
    ensures v >= 0.0
  {
    Shift2(m as real, e - 53)
  }

  /** (m, e) stands for the double nearest to y. */
  ghost predicate IsNearest(y: real, mode: Rounding, m: nat, e: int)
    requires y >= 0.0
  {
    NearestDouble(y, mode) == ValueOf(m, e) && (m == 0 || DoubleParts(m, e))
  }

  function Ratio(n: nat, d: nat): (x: real)
    requires d > 0
    ensures x >= 0.0
  {
    RMulCancel(n as real / d as real, 0.0, d as real);
    n as real / d as real
  }

  /** n / d * 2^-off. */
  ghost function Scaled(n: nat, d: nat, off: int): (y: real)
    requires d > 0
    ensures y >= 0.0
  {
    Shift2(Ratio(n, d), -off)
  }

  /** The number before rounding lies in the binade that its top bit tells. */
  lemma ScaledBinade(n: nat, d: nat, v: nat, off: int, top: nat)
    requires d > 0 && v == Sticky(n, d) && Pow(2, top) <= v < Pow(2, top + 1) && (d > 1 ==> top > 0)
    ensures Scaled(n, d, off) > 0.0 && InBinade(Scaled(n, d, off), top + 1 - off)
  {
    hide Pow, Sticky, Scale, Shift2, Ratio;
    QuotientBounds(n, d, v, Pow(2, top), Pow(2, top + 1), top);
    ScaleNat(2, top);
    ScaleNat(2, top + 1);
    assert InBinade(Ratio(n, d), top + 1);
    ShiftedBinade(Ratio(n, d), top + 1, off);
    assert top + 1 - 1 - off == top + 1 - off - 1;
  }

  lemma QuotientBounds(n: nat, d: nat, v: nat, lo: nat, hi: nat, top: nat)
    requires d > 0 && v == Sticky(n, d) && lo <= v < hi && lo == Pow(2, top) && hi == Pow(2, top + 1)
    requires d > 1 ==> top > 0
    ensures lo as real <= Ratio(n, d) < hi as real
  {
    var q, r := n / d, n % d;
    assert hi == 2 * lo;
    if d > 1 {
      assert lo == 2 * Pow(2, top - 1);
      assert lo <= q && q + 1 <= hi;
    } else {
      assert q == n && r == 0;
    }
    hide Pow, Sticky;
    FractionIs(n, d, q, r);
    FractionBounds(r, d);
  }

  /** The integer that round_to_d computes is the rounded number of steps. */
  lemma ShiftedSteps(n: nat, d: nat, v: nat, off: int, k: int, mode: Rounding)
    requires d > 0 && v == Sticky(n, d) && (d > 1 ==> off + Spacing(k) >= 2)
    ensures StepsIn(Scaled(n, d, off), k, mode) == RoundShift(v, off + Spacing(k), mode)
  {
    hide RoundR, RoundQ, Pow, Shift2, Ratio, Sticky, Shl;
    var q, s := Spacing(k), off + Spacing(k);
    ShiftShift(Ratio(n, d), -off, -q, -s);
    if d == 1 {
      OverOne(n);
      StickyOne(n);
      ExactRound(n, s, mode);
    } else {
      FractionRound(n, d, s, mode);
    }
  }

  lemma FractionRound(n: nat, d: nat, s: int, mode: Rounding)
    requires d > 0 && s >= 2
    ensures RoundR(Shift2(Ratio(n, d), -s), mode) == RoundQ(Sticky(n, d), Pow(2, s), mode)
  {
    hide RoundR, RoundQ, Pow, Sticky, Shift2, Shl;
    StickyRound(n, d, s, mode);
    FractionShift(n, d, s);
    RoundRational(n, Shl(d, s), mode);
  }

  lemma OverOne(n: nat)
    ensures Ratio(n, 1) == n as real
  {
  }

  lemma StickyOne(n: nat)
    ensures Sticky(n, 1) == n
  {
    DivUnique(n, 1, n, 0);
  }

  lemma FractionShift(n: nat, d: nat, s: int)
    requires d > 0 && s >= 0
    ensures Shl(d, s) > 0
    ensures n as real / Shl(d, s) as real == Shift2(Ratio(n, d), -s)
  {
    hide Scale, Pow, Shl, Shift2, Ratio;
    ShlPositive(d, s);
    ShiftNat(d, s, 0, s);
    ShiftZero(Shl(d, s) as real);
    RatioTimes(n, d);
    ShiftTimes(Ratio(n, d), d as real, -s, s);
    QuotientIs(n as real, Shl(d, s) as real, Shift2(Ratio(n, d), -s));
  }

  lemma RatioTimes(n: nat, d: nat)
    requires d > 0
    ensures Ratio(n, d) * d as real == n as real
  {
    DivMul(n as real, d as real);
  }

  lemma ShiftTimes(x: real, y: real, i: int, j: int)
    requires i == -j
    ensures Shift2(x, i) * Shift2(y, j) == x * y
  {
    hide Scale;
    ScaleInverse(2, i);
    RMulSwap(x, Scale(2, i), y, Scale(2, j));
  }

  /** The mantissa that round_to_d returns for n steps. */
  lemma Assembled(y: real, k: int, mode: Rounding, m1: nat)
    requires y > 0.0 && InBinade(y, k) && m1 == Shl(StepsIn(y, k, mode), 53 - Precision(k))
    ensures m1 <= TWO53 && (Precision(k) >= 1 ==> m1 > 0)
    ensures if m1 >= TWO53 then IsNearest(y, mode, m1 / 2, k + 1) else IsNearest(y, mode, m1, k)
  {
    NearestIn(y, k, mode);
    StepsRange(y, k, mode);
    hide NearestDouble, StepsIn, Shl, Pow, DoubleParts, InBinade, Shift2;
    var n, prec := StepsIn(y, k, mode), Precision(k);
    ShiftNat(n, 53 - prec, k - 53, Spacing(k));
    if prec >= 1 {
      NormalMantissa(n, prec, k);
    } else if n == 1 {
      PowMantissa();
      ShlOne(53);
      Halved(k);
    } else {
      ShlZero(53 - prec);
    }
  }

  lemma ShlOne(j: nat)
    ensures Shl(1, j) == Pow(2, j)
  {
  }

  lemma ShlZero(j: nat)
    ensures Shl(0, j) == 0
  {
  }

  lemma NormalMantissa(n: nat, prec: nat, k: int)
    requires 1 <= prec <= 53 && prec == Precision(k) && Pow(2, prec - 1) <= n <= Pow(2, prec)
    ensures var m1 := Shl(n, 53 - prec);
      && TWO52 <= m1 <= TWO53
      && (m1 < TWO53 ==> DoubleParts(m1, k))
      && (m1 == TWO53 ==> DoubleParts(TWO52, k + 1) && ValueOf(TWO52, k + 1) == ValueOf(TWO53, k))
  {
    hide Pow, ValueOf;
    PowMantissa();
    PowAdd(2, prec - 1, 53 - prec);
    PowAdd(2, prec, 53 - prec);
    MulMono(Pow(2, prec - 1), n, Pow(2, 53 - prec));
    MulMono(n, Pow(2, prec), Pow(2, 53 - prec));
    Divisible(n, 53 - prec);
    Halved(k);
  }

  lemma Divisible(n: nat, j: nat)
    ensures n * Pow(2, j) % Pow(2, j) == 0
  {
    DivUnique(n * Pow(2, j), Pow(2, j), n, 0);
  }

  /** A mantissa that overflows is halved. */
  lemma Halved(k: int)
    requires k >= MIN_EXPONENT
    ensures DoubleParts(TWO52, k + 1) && ValueOf(TWO52, k + 1) == ValueOf(TWO53, k)
  {
    hide Pow, Shift2;
    Pow2Small();
    assert Shl(TWO52, 1) == TWO53;
    ShiftNat(TWO52, 1, k - 53, k - 52);
    if k + 1 < -1021 {
      var j := -1021 - (k + 1);
      PowMantissa();
      PowAdd(2, 52 - j, j);
      Divisible(Pow(2, 52 - j), j);
    }
  }

  lemma ZeroDone(n: nat, d: nat, off: int, e: int, mode: Rounding)
    requires d > 0 && Sticky(n, d) == 0
    ensures IsNearest(Scaled(n, d, off), mode, 0, e)
  {
    assert n == d * (n / d) + n % d;
    assert n == 0;
    QuotientIs(n as real, d as real, 0.0);
  }

  lemma FitsTwoLimbs(s: seq<Limb>)
    requires |s| >= 1 && (|s| == 1 || s[|s| - 1] != 0) && Value(s) <= TWO53
    ensures |s| <= 2
  {
    TwoLimbs();
    LengthBound(s, 2);
  }

  /** What round_to_d computes from the position of the top bit. */
  lemma RoundPlan(n: nat, d: nat, v: nat, off: int, top: nat, mode: Rounding)
    requires d > 0 && v == Sticky(n, d) && (d > 1 ==> v >= Pow(2, 55)) && Pow(2, top) <= v < Pow(2, top + 1)
    ensures var k := top + 1 - off;
      var steps, y := RoundShift(v, off + Spacing(k), mode), Scaled(n, d, off);
      var m1 := Shl(steps, 53 - Precision(k));
      && steps <= TWO53 && m1 <= TWO53
      && if m1 >= TWO53 then IsNearest(y, mode, m1 / 2, k + 1) else IsNearest(y, mode, m1, k)
  {
    hide Pow, Sticky, NearestDouble, Scaled, StepsIn, RoundShift, InBinade, IsNearest, Shl;
    var k := top + 1 - off;
    if top < 55 && d > 1 { PowMono(2, top + 1, 55); }
    ScaledBinade(n, d, v, off, top);
    ShiftedSteps(n, d, v, off, k, mode);
    StepsRange(Scaled(n, d, off), k, mode);
    Assembled(Scaled(n, d, off), k, mode, Shl(StepsIn(Scaled(n, d, off), k, mode), 53 - Precision(k)));
  }

  lemma PrecisionIs(e: int)
    ensures Precision(e) == (if e < -1021 then 53 - (-1021 - e) else 53) && Spacing(e) == e - Precision(e)
  {
  }

  /** The branch of round_to_d for a nonzero number. */
  method RoundPositive(a: Mpb, eOffset: int, top: nat, mode: Rounding, ghost n: nat, ghost d: nat)
      returns (m: nat, e: int)
    requires a.Normal() && d > 0 && a.Val() == Sticky(n, d) && (d > 1 ==> a.Val() >= Pow(2, 55))
    requires Pow(2, top) <= a.Val() < Pow(2, top + 1) && top + 1 - eOffset >= MIN_EXPONENT - 10
    modifies a
    ensures IsNearest(Scaled(n, d, eOffset), mode, m, e)
  {
    hide Pow, Value, Sticky, Scaled, RoundShift, IsNearest, Shl, Spacing, Precision;
    e := top + 1 - eOffset;
    var prec := if e < -1021 then 53 - (-1021 - e) else 53;
    PrecisionIs(e);
    RoundPlan(n, d, a.Val(), eOffset, top, mode);
    a.ShrRound(e + eOffset - prec, mode);
    FitsTwoLimbs(a.tab);
    m := a.GetU64();
    m := Shl(m, 53 - prec);
    if m >= TWO53 {
      m := m / 2;
      e := e + 1;
    }
  }

  /** round_to_d; n and d are the number before mul_pow turned its lost part into a sticky bit. */
  method RoundToD(a: Mpb, eOffset: int, mode: Rounding, ghost n: nat, ghost d: nat) returns (m: nat, e: int)
    requires a.Normal() && d > 0 && a.Val() == Sticky(n, d) && (d > 1 ==> a.Val() >= Pow(2, 55))
    requires a.Val() > 0 ==> BitLen(a.Val()) - eOffset >= MIN_EXPONENT - 10
    modifies a
    ensures IsNearest(Scaled(n, d, eOffset), mode, m, e)
  {
    ZeroIff(a.tab);
    hide Pow, Value, Sticky, Scaled, BitLen, IsNearest;
    if a.tab[0] == 0 && |a.tab| == 1 {
      m := 0;
      e := 0;
      ZeroDone(n, d, eOffset, e, mode);
    } else {
      var top := a.FloorLog2();
      BitLenUnique(a.Val(), top);
      m, e := RoundPositive(a, eOffset, top, mode, n, d);
    }
  }

  // The code: mul_pow_round_to_d.

  /** The fraction whose truncation mul_pow leaves in the table. */
  ghost function Numerator(v0: nat, radix1: nat, radixShift: nat, f: int, eOffset: int): nat {
    if radix1 == 1 || f >= 0 then v0 * Pow(radix1, if f >= 0 then f else 0)
    else if eOffset + f * radixShift >= 0 then Shl(v0, eOffset + f * radixShift) else 0
  }

  ghost function Denominator(radix1: nat, f: int): (d: nat)
    requires radix1 > 0
    ensures d > 0
  {
    if radix1 == 1 || f >= 0 then 1 else Pow(radix1, -f)
  }

  /** That fraction, shifted back, is the whole product. */
  lemma MultipliedIs(v0: nat, v: nat, radix1: nat, radixShift: nat, f: int, off: int)
    requires radix1 > 0 && Multiplied(v0, v, radix1, radixShift, f, off)
    ensures v == Sticky(Numerator(v0, radix1, radixShift, f, off), Denominator(radix1, f))
    ensures Scaled(Numerator(v0, radix1, radixShift, f, off), Denominator(radix1, f), off)
         == Product(v0, 0, radix1, radixShift, f)
  {
    hide Scale, Pow, Product, Sticky, Shift2, Shl, Power, Ratio;
    var g := f * radixShift;
    var y := Product(v0, 0, radix1, radixShift, f);
    ProductIs(v0, 0, radix1, radixShift, f, g);
    if radix1 == 1 || f >= 0 {
      MultipliedExact(y, v0, v, radix1, f, g);
      StickyOne(v);
      OverOne(v);
      assert g == -off;
    } else {
      SplitFraction(v0, off + g, radix1, -f, f, off, g);
    }
  }

  lemma SplitFraction(v0: nat, x: nat, radix: nat, k: int, j: int, off: int, i: int)
    requires radix > 0 && k >= 0 && j == -k && i == x - off
    ensures Shift2(Ratio(Shl(v0, x), Pow(radix, k)), -off) == Power(v0, i, radix, j)
  {
    hide Scale, Pow, Shl, Ratio, Shift2, Power;
    RatioIsPower(v0, x, radix, k, j);
    ShiftPower(v0, x, radix, j, -off, i);
  }

  lemma RatioIsPower(v0: nat, x: nat, radix: nat, k: int, j: int)
    requires radix > 0 && k >= 0 && j == -k
    ensures Ratio(Shl(v0, x), Pow(radix, k)) == Power(v0, x, radix, j)
  {
    hide Scale, Pow, Shl, Power;
    PowRatio(v0, x, radix, k, j, x, 0);
    ShlNone(Pow(radix, k));
  }

  lemma ShlNone(n: nat)
    ensures Shl(n, 0) == n
  {
  }

  lemma ShiftPower(m: nat, x: int, radix: nat, j: int, q: int, i: int)
    requires radix > 0 && i == x + q
    ensures Shift2(Power(m, x, radix, j), q) == Power(m, i, radix, j)
  {
    hide Scale;
    ScaleAdd(2, x, q);
    RMulAssoc(m as real, Scale(2, x), Scale(2, q));
    MiddleSwap(m as real * Scale(2, x), Scale(radix, j), Scale(2, q));
  }

  /** A product that is not too small keeps the last shift of round_to_d within 64 bits. */
  lemma NotTooSmall(n: nat, d: nat, v: nat, off: int)
    requires d > 0 && v == Sticky(n, d) && v > 0 && (d > 1 ==> v >= Pow(2, 55))
    requires Scaled(n, d, off) >= Scale(2, MIN_EXPONENT - 11)
    ensures BitLen(v) - off >= MIN_EXPONENT - 10
  {
    BitLenIs(v);
    hide Pow, Sticky, Scaled, BitLen, InBinade, Scale;
    var top := BitLen(v) - 1;
    if top < 55 && d > 1 { PowMono(2, top + 1, 55); }
    ScaledBinade(n, d, v, off, top);
    BinadeOver(Scaled(n, d, off), top + 1 - off, MIN_EXPONENT - 11);
  }

  lemma BinadeOver(y: real, k: int, j: int)
    requires InBinade(y, k) && y >= Scale(2, j)
    ensures k > j
  {
    hide Scale;
    if k <= j { ScaleMono(2, k, j); }
  }

  /** mul_pow_round_to_d: the double nearest to a * radix^f. */
  method MulPowRoundToD(a: Mpb, radix1: Limb, radixShift: nat, f: int, mode: Rounding) returns (m: nat, e: int)
    requires a.Normal() && a.Val() > 0 && OddRadix(radix1)
    requires Product(a.Val(), 0, radix1, radixShift, f) >= Scale(2, MIN_EXPONENT - 11)
    modifies a
    ensures IsNearest(Product(old(a.Val()), 0, radix1, radixShift, f), mode, m, e)
  {
    hide Pow, Value, Product, Multiplied, Numerator, Denominator, Sticky, Scaled, BitLen, IsNearest, Scale;
    ghost var v0 := a.Val();
    var eOffset := MulPow(a, radix1, radixShift, f, false, 55);
    MultipliedIs(v0, a.Val(), radix1, radixShift, f, eOffset);
    NotLost(v0, a.Val(), radix1, radixShift, f, eOffset);
    DenominatorOne(radix1, f);
    ghost var n, d := Numerator(v0, radix1, radixShift, f, eOffset), Denominator(radix1, f);
    NotTooSmall(n, d, a.Val(), eOffset);
    m, e := RoundToD(a, eOffset, mode, n, d);
  }

  lemma DenominatorOne(radix1: nat, f: int)
    requires radix1 > 0
    ensures radix1 == 1 || f >= 0 ==> Denominator(radix1, f) == 1
  {
  }
}
