/** Which numbers read back to a given double. */
module ReadBack {
  import opened Limbs
  import opened Bignum
  import opened RealRounding
  import opened Scaling
  import opened DoubleRounding

  /** Whether the neighbours of a double are equally far on both sides. */
  predicate Symmetric(m: nat, e: int) {
    m != TWO52 || e <= -1021
  }

  /** The double as a whole number of spacings of its binade. */
  ghost function StepsOf(m: nat, e: int): nat {
    if e >= -1021 then m else m / Pow(2, -1021 - e)
  }

  lemma StepsOfIs(m: nat, e: int)
    requires DoubleParts(m, e)
    ensures ValueOf(m, e) == Shift2(StepsOf(m, e) as real, Spacing(e)) && Precision(e) >= 1
    ensures Pow(2, Precision(e) - 1) <= StepsOf(m, e) < Pow(2, Precision(e))
  {
    PowMantissa();
    hide Pow, Shift2;
    if e < -1021 {
      var j := -1021 - e;
      var n, p := StepsOf(m, e), Pow(2, j);
      assert m == n * p;
      PowAdd(2, 52 - j, j);
      PowAdd(2, 53 - j, j);
      StepsBetween(n, p, Pow(2, 52 - j), Pow(2, 53 - j));
      ShiftNat(n, j, e - 53, MIN_EXPONENT);
      ShlIs(n, j);
    }
  }

  lemma StepsBetween(n: nat, p: nat, lo: nat, hi: nat)
    requires p > 0 && lo * p <= n * p < hi * p
    ensures lo <= n < hi
  {
    if n < lo { MulLess(n, lo, p); }
    if n >= hi { MulMono(hi, n, p); }
  }

  lemma InItsBinade(m: nat, e: int)
    requires DoubleParts(m, e)
    ensures ValueOf(m, e) > 0.0 && InBinade(ValueOf(m, e), e)
  {
    hide Scale, Shift2, Pow;
    MantissaTimes(e - 53);
    ShiftLess(m as real, TWO52 as real, e - 53);
    ShiftLess(m as real, TWO53 as real, e - 53);
    assert 52 + (e - 53) == e - 1 && 53 + (e - 53) == e;
  }

  lemma ValueUnique(m: nat, e: int, m1: nat, e1: int)
    requires DoubleParts(m, e) && DoubleParts(m1, e1) && ValueOf(m, e) == ValueOf(m1, e1)
    ensures m == m1 && e == e1
  {
    hide Shift2, InBinade;
    InItsBinade(m, e);
    InItsBinade(m1, e1);
    BinadeUnique(ValueOf(m, e), e, e1);
    ShiftLess(m as real, m1 as real, e - 53);
  }

  /** Order between a number of steps and a number. */
  lemma StepOrder(z: real, t: nat, q: int)
    ensures Shift2(z, -q) < t as real <==> z < Shift2(t as real, q)
    ensures Shift2(z, -q) > t as real <==> z > Shift2(t as real, q)
  {
    hide Shift2;
    ShiftBack(t as real, q, -q);
    ShiftLess(z, Shift2(t as real, q), -q);
    ShiftLess(Shift2(t as real, q), z, -q);
  }

  lemma PowSteps(j: nat, q: int)
    ensures Shift2(Pow(2, j) as real, q) == Scale(2, j + q)
  {
    hide Scale, Pow, Shift2;
    ShiftUnit(j + q);
    ShiftNat(1, j, q, j + q);
    ShlOne(j);
  }

  lemma BinadeBelow(z: real, k: int, e: int)
    requires InBinade(z, k)
    ensures z < Scale(2, e) ==> k <= e
    ensures z >= Scale(2, e - 1) ==> k >= e
  {
    if k > e { ScaleMono(2, e, k - 1); }
    if k < e { ScaleMono(2, k, e - 1); }
  }

  /** A number that rounds to the double's steps, and is not across a binade boundary, reads back. */
  lemma ReadsNear(m: nat, e: int, z: real)
    requires DoubleParts(m, e) && z >= 0.0 && RoundR(Shift2(z, -Spacing(e)), RNDN) == StepsOf(m, e)
    requires Symmetric(m, e) || z >= ValueOf(m, e)
    ensures NearestDouble(z, RNDN) == ValueOf(m, e)
  {
    var q, n, prec := Spacing(e), StepsOf(m, e), Precision(e);
    StepsOfIs(m, e);
    RoundNearest(Shift2(z, -q), n);
    StepsNormal(m, e);
    hide Scale, Shift2, Pow, RoundR, InBinade, StepsOf, ValueOf, Symmetric, DoubleParts, NearestDouble;
    var k := Binade(z);
    StepOrder(z, Pow(2, prec), q);
    PowSteps(prec, q);
    BinadeBelow(z, k, e);
    if q > MIN_EXPONENT { NotBelow(m, e, z, q); }
    NearestIn(z, k, RNDN);
  }

  lemma NotBelow(m: nat, e: int, z: real, q: int)
    requires DoubleParts(m, e) && q == Spacing(e) > MIN_EXPONENT && m as real - 0.5 <= Shift2(z, -q)
    requires Symmetric(m, e) || z >= ValueOf(m, e)
    ensures z >= Scale(2, e - 1)
  {
    hide Scale, Shift2, Pow;
    StepOrder(z, m, q);
    MantissaTimes(q);
    StepOrder(z, TWO52, q);
  }

  lemma StepsNormal(m: nat, e: int)
    ensures Spacing(e) > MIN_EXPONENT ==> StepsOf(m, e) == m
  {
  }

  /** Just below a power of two the spacing is half as wide. */
  lemma ReadsBelow(e: int, z: real)
    requires e > -1021 && TWO53 as real - 0.5 <= Shift2(z, -(e - 54)) < TWO53 as real && z >= 0.0
    ensures NearestDouble(z, RNDN) == ValueOf(TWO52, e)
  {
    hide Scale, Shift2, RoundR, InBinade;
    var q := e - 54;
    RoundNearest(Shift2(z, -q), TWO53);
    StepOrder(z, TWO53, q);
    StepOrder(z, TWO52, q);
    MantissaTimes(q);
    IsInBinade(z, e - 1);
    NearestIn(z, e - 1, RNDN);
    Halved(e - 1);
  }

  lemma IsInBinade(y: real, k: int)
    requires Scale(2, k - 1) <= y < Scale(2, k)
    ensures InBinade(y, k) && (y > 0.0)
  {
  }

  /** Where the spacing is even on both sides, nothing else reads back. */
  lemma ReadsOnly(m: nat, e: int, y: real)
    requires DoubleParts(m, e) && Symmetric(m, e) && y >= 0.0 && NearestDouble(y, RNDN) == ValueOf(m, e)
    ensures RoundR(Shift2(y, -Spacing(e)), RNDN) == StepsOf(m, e)
  {
    InItsBinade(m, e);
    StepsOfIs(m, e);
    var k := Binade(y);
    NearestIn(y, k, RNDN);
    var q, s, r := Spacing(e), Spacing(k), StepsIn(y, k, RNDN);
    if s == q {
      hide Scale, Shift2, Pow, NearestDouble, RoundR, DoubleParts, StepsOf, InBinade;
      ShiftLess(r as real, StepsOf(m, e) as real, q);
    } else if s > q {
      WiderIsAbove(m, e, y, k);
    } else {
      NarrowerIsBelow(m, e, y, k);
    }
  }

  /** What rounds in a wider binade is above the double. */
  lemma WiderIsAbove(m: nat, e: int, y: real, k: int)
    requires DoubleParts(m, e) && y > 0.0 && InBinade(y, k) && Spacing(k) > Spacing(e)
    ensures Shift2(StepsIn(y, k, RNDN) as real, Spacing(k)) > ValueOf(m, e)
  {
    InItsBinade(m, e);
    StepsRange(y, k, RNDN);
    PowMantissa();
    hide Scale, Shift2, Pow, StepsIn, DoubleParts;
    MantissaTimes(Spacing(k));
    AtMost(TWO52, StepsIn(y, k, RNDN), Spacing(k));
    ScaleMono(2, e, k - 1);
  }

  /** What rounds in a narrower binade is below a double that is not a power of two. */
  lemma NarrowerIsBelow(m: nat, e: int, y: real, k: int)
    requires DoubleParts(m, e) && Symmetric(m, e) && y > 0.0 && InBinade(y, k) && Spacing(k) < Spacing(e)
    ensures Shift2(StepsIn(y, k, RNDN) as real, Spacing(k)) < ValueOf(m, e)
  {
    LastOf(y, k, StepsIn(y, k, RNDN));
    hide Scale, Shift2, Pow, StepsIn, InBinade;
    ScaleMono(2, k, e - 1);
    MantissaTimes(Spacing(e));
    ShiftLess(TWO52 as real, m as real, Spacing(e));
  }

  lemma LastOf(y: real, k: int, r: nat)
    requires y > 0.0 && InBinade(y, k) && r == StepsIn(y, k, RNDN)
    ensures Shift2(r as real, Spacing(k)) <= Scale(2, k)
  {
    StepsRange(y, k, RNDN);
    hide StepsIn, InBinade;
    TopStep(r, k, Precision(k));
  }

  lemma TopStep(r: nat, k: int, prec: int)
    requires prec == Precision(k)
    requires prec >= 1 ==> r <= Pow(2, prec)
    requires prec == 0 ==> r <= 1
    requires prec < 0 ==> r == 0
    ensures Shift2(r as real, Spacing(k)) <= Scale(2, k)
  {
    var q := Spacing(k);
    hide Scale, Shift2, Pow;
    if prec >= 0 {
      PowZero(2);
      PowSteps(prec, q);
      AtMost(r, Pow(2, prec), q);
    } else {
      ZeroShift(q);
    }
  }

  lemma AtMost(r: nat, t: nat, q: int)
    requires r <= t
    ensures Shift2(r as real, q) <= Shift2(t as real, q)
  {
    hide Shift2;
    ShiftLess(t as real, r as real, q);
  }

  lemma ZeroShift(q: int)
    ensures Shift2(0 as real, q) == 0.0
  {
  }

  lemma CloserRounds(n: nat, yy: real, zz: real)
    requires yy >= 0.0 && zz >= 0.0 && RoundR(yy, RNDN) == n && AbsR(n as real - zz) <= AbsR(n as real - yy)
    ensures RoundR(zz, RNDN) == n
  {
    hide RoundR;
    RoundNearest(yy, n);
    RoundNearest(zz, n);
  }

  /** For such a double, whatever is no farther than a number that reads back reads back too. */
  lemma CloserReads(m: nat, e: int, y: real, z: real)
    requires DoubleParts(m, e) && Symmetric(m, e) && y >= 0.0 && z >= 0.0
    requires NearestDouble(y, RNDN) == ValueOf(m, e)
    requires AbsR(ValueOf(m, e) - z) <= AbsR(ValueOf(m, e) - y)
    ensures NearestDouble(z, RNDN) == ValueOf(m, e)
  {
    var q, n, x := Spacing(e), StepsOf(m, e), ValueOf(m, e);
    StepsOfIs(m, e);
    ReadsOnly(m, e, y);
    hide Shift2, NearestDouble, ValueOf, DoubleParts, Pow, StepsOf, RoundR, Spacing, Symmetric, Scale;
    var yy, zz := Shift2(y, -q), Shift2(z, -q);
    ShiftBack(n as real, q, -q);
    ShiftDistance(x, z, y, -q);
    CloserRounds(n, yy, zz);
    ReadsNear(m, e, z);
  }

  /** A number within a quarter of the spacing, or within half of it inside a binade, reads back. */
  lemma CloseReads(m: nat, e: int, z: real)
    requires DoubleParts(m, e) && z >= 0.0
    requires
      || AbsR(ValueOf(m, e) - z) <= Scale(2, e - 55)
      || (m != TWO52 && AbsR(ValueOf(m, e) - z) < Scale(2, e - 54))
    ensures NearestDouble(z, RNDN) == ValueOf(m, e)
  {
    var q, n, x := Spacing(e), StepsOf(m, e), ValueOf(m, e);
    StepsOfIs(m, e);
    if Symmetric(m, e) || z >= x {
      hide Scale, Shift2, NearestDouble, DoubleParts, Pow, StepsOf, RoundR, ValueOf;
      WithinHalf(x, z, e, q, n);
      RoundNearest(Shift2(z, -q), n);
      ReadsNear(m, e, z);
    } else {
      hide Scale, Shift2, NearestDouble, DoubleParts, Pow, StepsOf, RoundR;
      JustBelow(e, z);
      ReadsBelow(e, z);
    }
  }

  lemma WithinHalf(x: real, z: real, e: int, q: int, n: nat)
    requires q >= e - 53 && x == Shift2(n as real, q)
    requires AbsR(x - z) <= Scale(2, e - 55) || AbsR(x - z) < Scale(2, e - 54)
    ensures AbsR(n as real - Shift2(z, -q)) < 0.5
  {
    hide Scale, Shift2, Times;
    ScaleLess(2, e - 55, e - 54);
    ScaleMono(2, e - 54, q - 1);
    ShiftUnit(q - 1);
    ShiftBack(n as real, q, -q);
    AbsTimes(x, z, 2, -q);
    ShiftIsTimes(x, -q);
    ShiftIsTimes(z, -q);
    ShiftIsTimes(AbsR(x - z), -q);
    ShiftLess(AbsR(x - z), Shift2(1.0, q - 1), -q);
    ShiftShift(1.0, q - 1, -q, -1);
    ShiftUnit(-1);
    HalfIs();
  }

  lemma ShiftIsTimes(x: real, q: int)
    ensures Shift2(x, q) == Times(x, 2, q)
  {
  }

  lemma HalfIs()
    ensures Scale(2, -1) == 0.5
  {
  }

  lemma JustBelow(e: int, z: real)
    requires 0.0 <= z < ValueOf(TWO52, e) && AbsR(ValueOf(TWO52, e) - z) <= Scale(2, e - 55)
    ensures TWO53 as real - 0.5 <= Shift2(z, -(e - 54)) < TWO53 as real
  {
    hide Scale, Shift2;
    var x, q := ValueOf(TWO52, e), e - 54;
    Pow2Small();
    ShlIs(TWO52, 1);
    ShiftNat(TWO52, 1, q, e - 53);
    ShiftBack(TWO53 as real, q, -q);
    ShiftLess(z, x, -q);
    ShiftDiff(x, z, -q);
    ShiftUnit(e - 55);
    ShiftLess(Shift2(1.0, e - 55), x - z, -q);
    ShiftShift(1.0, e - 55, -q, -1);
    ShiftUnit(-1);
    HalfIs();
  }

  // A power of two, whose lower neighbour is nearer.

  /** At most a quarter of the spacing below 2^(e-1), and at most half of it above. */
  ghost predicate InUneven(e: int, y: real) {
    ValueOf(TWO52, e) - Scale(2, e - 55) <= y <= ValueOf(TWO52, e) + Scale(2, e - 54)
  }

  /** The same, counted in halves of the spacing. */
  ghost predicate NearTop(w: real) { TWO53 as real - 0.5 <= w <= TWO53 as real + 1.0 }

  lemma EdgesInHalves(e: int, y: real)
    ensures InUneven(e, y) <==> NearTop(Shift2(y, -(e - 54)))
  {
    var q, x := e - 54, ValueOf(TWO52, e);
    var low, high := x - Scale(2, e - 55), x + Scale(2, e - 54);
    hide Scale, Shift2;
    TopInHalves(e);
    OneLessSpacing(e);
    ShiftDiff(x, Scale(2, e - 55), -q);
    ShiftDiff(high, x, -q);
    assert high - x == Scale(2, e - 54);
    ShiftLess(y, low, -q);
    ShiftLess(high, y, -q);
  }

  lemma TopInHalves(e: int)
    ensures Shift2(ValueOf(TWO52, e), -(e - 54)) == TWO53 as real && ValueOf(TWO52, e) == Shift2(TWO53 as real, e - 54)
  {
    hide Shift2;
    Pow2Small();
    ShlIs(TWO52, 1);
    ShiftNat(TWO52, 1, e - 54, e - 53);
    ShiftBack(TWO53 as real, e - 54, -(e - 54));
  }

  lemma OneLessSpacing(e: int)
    ensures Shift2(Scale(2, e - 55), -(e - 54)) == 0.5 && Shift2(Scale(2, e - 54), -(e - 54)) == 1.0
  {
    hide Scale, Shift2;
    ShiftUnit(e - 55);
    ShiftUnit(e - 54);
    ShiftShift(1.0, e - 55, -(e - 54), -1);
    ShiftBack(1.0, e - 54, -(e - 54));
    ShiftUnit(-1);
    HalfIs();
  }

  lemma WholeSteps(n: nat, r: nat, q: int)
    ensures Shift2(r as real, q) == Shift2(n as real, q) <==> r == n
  {
    hide Shift2;
    ShiftLess(r as real, n as real, q);
  }

  lemma HalfSteps(y: real, e: int)
    ensures Shift2(y, -(e - 54)) == 2.0 * Shift2(y, -(e - 53))
  {
    hide Shift2;
    ShiftShift(y, -(e - 53), 1, -(e - 54));
    TwiceIs(Shift2(y, -(e - 53)));
  }

  lemma TwiceIs(x: real)
    ensures Shift2(x, 1) == 2.0 * x
  {
  }

  lemma SameBinade(e: int, y: real)
    requires e > -1021 && y > 0.0 && InBinade(y, e)
    ensures NearestDouble(y, RNDN) == ValueOf(TWO52, e) <==> NearTop(Shift2(y, -(e - 54)))
  {
    NearestIn(y, e, RNDN);
    hide Scale, Shift2, RoundR, NearestDouble;
    var w := Shift2(y, -(e - 53));
    HalfSteps(y, e);
    RoundNearest(w, TWO52);
    WholeSteps(TWO52, RoundR(w, RNDN), e - 53);
    AtLeastTop(e, y);
  }

  lemma AtLeastTop(e: int, y: real)
    requires y > 0.0 && InBinade(y, e)
    ensures Shift2(y, -(e - 54)) >= TWO53 as real
  {
    ShiftedBinade(y, e, e - 54);
    hide Scale, Shift2, InBinade;
    assert e - 1 - (e - 54) == 53;
    ScaleMantissa();
  }

  lemma LowerNeighbours(e: int, y: real)
    requires e > -1021 && y > 0.0 && InBinade(y, e - 1)
    ensures NearestDouble(y, RNDN) == ValueOf(TWO52, e) <==> NearTop(Shift2(y, -(e - 54)))
  {
    NearestIn(y, e - 1, RNDN);
    ShiftedBinade(y, e - 1, e - 54);
    hide Scale, Shift2, RoundR, NearestDouble, InBinade;
    var w := Shift2(y, -(e - 54));
    RoundNearest(w, TWO53);
    WholeSteps(TWO53, RoundR(w, RNDN), e - 54);
    TopInHalves(e);
    assert e - 1 - (e - 54) == 53;
    ScaleMantissa();
  }

  /** Exactly these numbers read back to a power of two. */
  lemma ReadsUneven(e: int, y: real)
    requires DoubleParts(TWO52, e) && e > -1021 && y >= 0.0
    ensures NearestDouble(y, RNDN) == ValueOf(TWO52, e) <==> InUneven(e, y)
  {
    EdgesInHalves(e, y);
    InItsBinade(TWO52, e);
    if y == 0.0 {
      NothingNear(e);
    } else {
      var k := Binade(y);
      if k == e {
        SameBinade(e, y);
      } else if k == e - 1 {
        LowerNeighbours(e, y);
      } else if k > e {
        WiderIsAbove(TWO52, e, y, k);
        NearestIn(y, k, RNDN);
        FarAbove(e, y, k);
      } else {
        LastOf(y, k, StepsIn(y, k, RNDN));
        NearestIn(y, k, RNDN);
        FarBelow(e, y, k);
      }
    }
  }

  lemma NothingNear(e: int)
    ensures !NearTop(Shift2(0.0, -(e - 54)))
  {
  }

  lemma FarAbove(e: int, y: real, k: int)
    requires InBinade(y, k) && k > e
    ensures !NearTop(Shift2(y, -(e - 54)))
  {
    ShiftedBinade(y, k, e - 54);
    hide Scale, Shift2, InBinade;
    ScaleMono(2, 54, k - 1 - (e - 54));
    ScaleMantissa();
    ScaleSucc(2, 53);
  }

  lemma FarBelow(e: int, y: real, k: int)
    requires InBinade(y, k) && k < e - 1
    ensures !NearTop(Shift2(y, -(e - 54))) && Scale(2, k) < ValueOf(TWO52, e)
  {
    ShiftedBinade(y, k, e - 54);
    MantissaTimes(e - 53);
    hide Scale, Shift2, InBinade;
    ScaleMono(2, k - (e - 54), 52);
    ScaleMantissa();
    ScaleSucc(2, 52);
    ScaleMono(2, k, e - 2);
    ScaleLess(2, e - 2, e - 1);
  }
}
