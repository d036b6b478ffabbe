/** Real powers and correct rounding: what the limb algorithms are measured against. */
module RealRounding {
  import opened Limbs
  import opened Bignum

  // Small facts about products of reals.

  lemma RealProduct(x: int, y: int)
    ensures (x * y) as real == x as real * y as real
  {
  }

  lemma RMulAssoc(a: real, b: real, c: real)
    ensures (a * b) * c == a * (b * c)
  {
  }

  lemma RMulDist(a: real, b: real, c: real)
    ensures (a + b) * c == a * c + b * c && (a - b) * c == a * c - b * c
  {
  }

  lemma RMulMono(a: real, b: real, c: real)
    requires a <= b && c >= 0.0
    ensures a * c <= b * c
  {
  }

  lemma RMulLess(a: real, b: real, c: real)
    requires a < b && c > 0.0
    ensures a * c < b * c
  {
  }

  /** A common positive factor can be removed. */
  lemma RMulCancel(a: real, b: real, c: real)
    requires c > 0.0
    ensures a * c < b * c <==> a < b
    ensures a * c == b * c <==> a == b
    ensures a * c > 0.0 <==> a > 0.0
  {
    if a < b { RMulLess(a, b, c); }
    if b < a { RMulLess(b, a, c); }
    if a > 0.0 { RMulLess(0.0, a, c); }
    if a < 0.0 { RMulLess(a, 0.0, c); }
  }

  lemma DivMul(a: real, c: real)
    requires c != 0.0
    ensures a / c * c == a
  {
  }

  // Powers with an integer exponent.

  /** b to the power k. */
  function Scale(b: nat, k: int): (r: real)
    requires b > 0
    ensures r > 0.0
    decreases if k < 0 then -k else k
  {
    if k == 0 then 1.0
    else if k > 0 then (RMulLess(0.0, Scale(b, k - 1), b as real); Scale(b, k - 1) * b as real)
    else Scale(b, k + 1) / b as real
  }

  lemma ScaleZero(b: nat)
    requires b > 0
    ensures Scale(b, 0) == 1.0
  {
  }

  lemma ScaleSucc(b: nat, k: int)
    requires b > 0
    ensures Scale(b, k + 1) == Scale(b, k) * b as real
  {
    if k < 0 {
      DivMul(Scale(b, k + 1), b as real);
    }
  }

  /** A fact that holds at 0 and moves with each factor holds at every exponent. */
  lemma {:induction false} ScaleAdd(b: nat, i: int, j: int)
    requires b > 0
    ensures Scale(b, i + j) == Scale(b, i) * Scale(b, j)
    decreases if j < 0 then -j else j
  {
    hide Scale;
    if j > 0 {
      ScaleAdd(b, i, j - 1);
      ScaleSucc(b, i + j - 1);
      ScaleSucc(b, j - 1);
      RMulAssoc(Scale(b, i), Scale(b, j - 1), b as real);
    } else if j < 0 {
      ScaleAdd(b, i, j + 1);
      ScaleSucc(b, i + j);
      ScaleSucc(b, j);
      RMulAssoc(Scale(b, i), Scale(b, j), b as real);
      RMulCancel(Scale(b, i + j), Scale(b, i) * Scale(b, j), b as real);
    } else {
      ScaleZero(b);
    }
  }

  lemma ScaleInverse(b: nat, k: int)
    requires b > 0
    ensures Scale(b, k) * Scale(b, -k) == 1.0
  {
    ScaleAdd(b, k, -k);
  }

  lemma {:induction false} ScaleNat(b: nat, k: nat)
    requires b > 0
    ensures Scale(b, k) == Pow(b, k) as real
  {
    hide Scale;
    if k > 0 {
      ScaleNat(b, k - 1);
      ScaleSucc(b, k - 1);
      RealProduct(b, Pow(b, k - 1));
    } else {
      ScaleZero(b);
    }
  }

  lemma {:induction false} ScaleProduct(a: nat, b: nat, c: nat, k: int)
    requires a > 0 && b > 0 && c == a * b
    ensures c > 0 && Scale(c, k) == Scale(a, k) * Scale(b, k)
    decreases if k < 0 then -k else k
  {
    hide Scale;
    MulLess(0, a, b);
    RealProduct(a, b);
    var k1 := if k > 0 then k - 1 else k;
    var x, y := a as real, b as real;
    if k != 0 {
      ScaleProduct(a, b, c, if k > 0 then k - 1 else k + 1);
      ScaleSucc(a, k1);
      ScaleSucc(b, k1);
      ScaleSucc(c, k1);
      var s, t, u := Scale(a, k1), Scale(b, k1), Scale(c, k1);
      RMulSwap(s, t, x, y);
      RMulCancel(u, s * t, x * y);
    } else {
      ScaleZero(a);
      ScaleZero(b);
      ScaleZero(c);
    }
  }

  lemma RMulSwap(a: real, b: real, c: real, d: real)
    ensures (a * b) * (c * d) == (a * c) * (b * d)
  {
    RMulAssoc(a, b, c * d);
    RMulAssoc(b, c, d);
    assert b * c == c * b;
    RMulAssoc(c, b, d);
    RMulAssoc(a, c, b * d);
  }

  lemma Grows(s: real, x: real, t: real)
    requires s > 0.0 && x >= 1.0 && t == s * x
    ensures s <= t && (x > 1.0 ==> s < t)
  {
    RMulMono(1.0, x, s);
    if x > 1.0 { RMulLess(1.0, x, s); }
  }

  lemma {:induction false} ScaleMono(b: nat, i: int, j: int)
    requires b > 0 && i <= j
    ensures Scale(b, i) <= Scale(b, j)
    decreases j - i
  {
    hide Scale;
    if i < j {
      var k := j - 1;
      ScaleMono(b, i, k);
      ScaleSucc(b, k);
      Grows(Scale(b, k), b as real, Scale(b, j));
    }
  }

  lemma ScaleLess(b: nat, i: int, j: int)
    requires b > 1 && i < j
    ensures Scale(b, i) < Scale(b, j)
  {
    hide Scale;
    ScaleMono(b, i + 1, j);
    ScaleSucc(b, i);
    Grows(Scale(b, i), b as real, Scale(b, i + 1));
  }

  lemma {:induction false} ScalePow(b: nat, s: nat, k: int)
    requires b > 0
    ensures Scale(Pow(b, s), k) == Scale(b, s * k)
    decreases s
  {
    hide Scale;
    if s > 0 {
      ScalePow(b, s - 1, k);
      ScaleProduct(b, Pow(b, s - 1), Pow(b, s), k);
      assert s * k == k + (s - 1) * k;
      ScaleAdd(b, k, (s - 1) * k);
    } else {
      ScaleOne(k);
      ScaleZero(b);
    }
  }

  lemma {:induction false} ScaleOne(k: int)
    ensures Scale(1, k) == 1.0
    decreases if k < 0 then -k else k
  {
    if k > 0 { ScaleOne(k - 1); }
    if k < 0 { ScaleOne(k + 1); }
  }

  // Moving a real number by a power.

  /** x * b^q. */
  function Times(x: real, b: nat, q: int): (y: real)
    requires b > 0
    ensures x >= 0.0 ==> y >= 0.0
    ensures x > 0.0 <==> y > 0.0
    ensures x == 0.0 <==> y == 0.0
  {
    RMulCancel(x, 0.0, Scale(b, q));
    if x >= 0.0 then (RMulMono(0.0, x, Scale(b, q)); x * Scale(b, q)) else x * Scale(b, q)
  }

  lemma TimesIs(x: real, b: nat, q: int)
    requires b > 0
    ensures Times(x, b, q) == x * Scale(b, q)
  {
  }

  lemma TimesTimes(x: real, b: nat, i: int, j: int, k: int)
    requires b > 0 && k == i + j
    ensures Times(Times(x, b, i), b, j) == Times(x, b, k)
  {
    hide Scale;
    ScaleAdd(b, i, j);
    RMulAssoc(x, Scale(b, i), Scale(b, j));
  }

  lemma TimesZero(x: real, b: nat)
    requires b > 0
    ensures Times(x, b, 0) == x
  {
    ScaleZero(b);
  }

  lemma TimesBack(x: real, b: nat, i: int, j: int)
    requires b > 0 && i == -j
    ensures Times(Times(x, b, i), b, j) == x
  {
    TimesTimes(x, b, i, j, 0);
    TimesZero(x, b);
  }

  lemma TimesLess(x: real, y: real, b: nat, q: int)
    requires b > 0
    ensures x < y <==> Times(x, b, q) < Times(y, b, q)
    ensures x == y <==> Times(x, b, q) == Times(y, b, q)
  {
    TimesIs(x, b, q);
    TimesIs(y, b, q);
    hide Scale, Times;
    if x < y { RMulLess(x, y, Scale(b, q)); }
    if y < x { RMulLess(y, x, Scale(b, q)); }
  }

  lemma TimesDiff(x: real, y: real, b: nat, q: int)
    requires b > 0
    ensures Times(x - y, b, q) == Times(x, b, q) - Times(y, b, q)
  {
    hide Scale;
    RMulDist(x, y, Scale(b, q));
  }

  lemma TimesUnit(b: nat, q: int)
    requires b > 0
    ensures Times(1.0, b, q) == Scale(b, q)
  {
    hide Scale;
  }

  lemma TimesNat(n: nat, b: nat, j: nat, q: int, i: int, t: nat)
    requires b > 0 && i == q + j && t == n * Pow(b, j)
    ensures Times(n as real, b, i) == Times(t as real, b, q)
  {
    hide Scale, Pow;
    ScaleAdd(b, j, q);
    ScaleNat(b, j);
    RealProduct(n, Pow(b, j));
    RMulAssoc(n as real, Scale(b, j), Scale(b, q));
  }

  // Shifts by a power of two.

  /** x * 2^q. */
  function Shift2(x: real, q: int): (y: real)
    ensures x >= 0.0 ==> y >= 0.0
    ensures x > 0.0 <==> y > 0.0
    ensures x == 0.0 <==> y == 0.0
  {
    Times(x, 2, q)
  }

  lemma ShiftIs(x: real, q: int)
    ensures Shift2(x, q) == x * Scale(2, q)
  {
    TimesIs(x, 2, q);
  }

  lemma ShiftShift(x: real, i: int, j: int, k: int)
    requires k == i + j
    ensures Shift2(Shift2(x, i), j) == Shift2(x, k)
  {
    TimesTimes(x, 2, i, j, k);
  }

  lemma ShiftZero(x: real)
    ensures Shift2(x, 0) == x
  {
    TimesZero(x, 2);
  }

  lemma ShiftBack(x: real, i: int, j: int)
    requires i == -j
    ensures Shift2(Shift2(x, i), j) == x
  {
    TimesBack(x, 2, i, j);
  }

  lemma ShiftLess(x: real, y: real, q: int)
    ensures x < y <==> Shift2(x, q) < Shift2(y, q)
    ensures x == y <==> Shift2(x, q) == Shift2(y, q)
  {
    TimesLess(x, y, 2, q);
  }

  lemma ShiftDiff(x: real, y: real, q: int)
    ensures Shift2(x - y, q) == Shift2(x, q) - Shift2(y, q)
  {
    TimesDiff(x, y, 2, q);
  }

  lemma ShiftUnit(q: int)
    ensures Shift2(1.0, q) == Scale(2, q)
  {
    TimesUnit(2, q);
  }

  lemma ShiftNat(n: nat, j: nat, q: int, i: int)
    requires i == q + j
    ensures Shift2(n as real, i) == Shift2(Shl(n, j) as real, q)
  {
    TimesNat(n, 2, j, q, i, Shl(n, j));
  }

  // Rounding to an integer.

  function RoundR(x: real, mode: Rounding): (n: int)
    requires x >= 0.0
    ensures n >= 0
  {
    var q := x.Floor;
    var r := x - q as real;
    if mode == RNDZ || r < 0.5 then q
    else if r > 0.5 || mode == RNDNA then q + 1
    else q + q % 2
  }

  lemma FloorIs(x: real, q: int)
    requires q as real <= x < q as real + 1.0
    ensures x.Floor == q
  {
  }

  lemma FractionIs(n: int, d: nat, q: int, r: int)
    requires d > 0 && n == q * d + r
    ensures n as real / d as real == q as real + r as real / d as real
  {
    var y := d as real;
    var x, t := n as real / y, r as real / y;
    DivMul(r as real, y);
    DivMul(n as real, y);
    RealProduct(q, d);
    RMulDist(q as real, t, y);
    RMulCancel(x, q as real + t, y);
  }

  lemma RatioOrder(r: nat, d: nat, c: real)
    requires d > 0
    ensures r as real / d as real < c <==> r as real < c * d as real
    ensures r as real / d as real > c <==> r as real > c * d as real
  {
    DivMul(r as real, d as real);
    RMulCancel(r as real / d as real, c, d as real);
    RMulCancel(c, r as real / d as real, d as real);
  }

  lemma FractionBounds(r: nat, d: nat)
    requires r < d
    ensures 0.0 <= r as real / d as real < 1.0
    ensures 2 * r < d <==> r as real / d as real < 0.5
    ensures 2 * r > d <==> r as real / d as real > 0.5
  {
    RatioOrder(r, d, 0.0);
    RatioOrder(r, d, 1.0);
    RatioOrder(r, d, 0.5);
  }

  /** The rounding of a fraction is decided by its remainder. */
  lemma RoundRational(n: nat, d: nat, mode: Rounding)
    requires d > 0
    ensures n as real / d as real >= 0.0
    ensures RoundR(n as real / d as real, mode) == RoundQ(n, d, mode)
  {
    hide RoundR;
    var q, r := n / d, n % d;
    FractionIs(n, d, q, r);
    FractionBounds(r, d);
    RoundParts(n as real / d as real, q, r as real / d as real, mode);
  }

  lemma RoundParts(x: real, q: nat, t: real, mode: Rounding)
    requires x == q as real + t && 0.0 <= t < 1.0
    ensures RoundR(x, mode)
         == if mode == RNDZ || t < 0.5 then q else if t > 0.5 || mode == RNDNA then q + 1 else q + q % 2
  {
    FloorIs(x, q);
  }

  /** Rounding to nearest gives the one integer at most a half away, the even one when two are. */
  lemma RoundNearest(x: real, n: int)
    requires x >= 0.0
    ensures RoundR(x, RNDN) == n
       <==> (n as real - 0.5 < x < n as real + 0.5 || (n % 2 == 0 && (x == n as real - 0.5 || x == n as real + 0.5)))
  {
    var q := x.Floor;
    if n as real - 0.5 <= x < n as real {
      FloorIs(x, n - 1);
    } else if n as real <= x <= n as real + 0.5 {
      FloorIs(x, n);
    }
  }

  /** Rounding ties away from zero gives the one integer that is less than a half below x or at most a half above. */
  lemma RoundAway(x: real, n: int)
    requires x >= 0.0
    ensures RoundR(x, RNDNA) == n <==> n as real - 0.5 <= x < n as real + 0.5
  {
    if n as real - 0.5 <= x < n as real {
      FloorIs(x, n - 1);
    } else if n as real <= x < n as real + 0.5 {
      FloorIs(x, n);
    }
  }

  /** Truncation gives the greatest integer that is not above x. */
  lemma RoundDown(x: real, n: int)
    requires x >= 0.0
    ensures RoundR(x, RNDZ) == n <==> n as real <= x < n as real + 1.0
  {
    if n as real <= x < n as real + 1.0 { FloorIs(x, n); }
  }

  // Distances.

  function AbsR(x: real): (r: real)
    ensures r >= 0.0
  {
    if x < 0.0 then -x else x
  }

  /** No integer is closer than the rounded one. */
  lemma RoundClosest(x: real, t: int)
    requires x >= 0.0
    ensures var r := RoundR(x, RNDN);
      && AbsR(x - r as real) <= AbsR(x - t as real)
      && (AbsR(x - r as real) == AbsR(x - t as real) ==> t == r || r % 2 == 0)
  {
  }

  lemma AbsTimes(x: real, a: real, b: nat, q: int)
    requires b > 0
    ensures AbsR(Times(x, b, q) - Times(a, b, q)) == Times(AbsR(x - a), b, q)
  {
    hide Times;
    TimesDiff(x, a, b, q);
    TimesDiff(a, x, b, q);
  }

  /** Distances are moved with the numbers. */
  lemma TimesDistance(x: real, u: real, v: real, b: nat, q: int)
    requires b > 0
    ensures AbsR(x - u) < AbsR(x - v) <==> AbsR(Times(x, b, q) - Times(u, b, q)) < AbsR(Times(x, b, q) - Times(v, b, q))
    ensures AbsR(x - u) == AbsR(x - v)
      <==> AbsR(Times(x, b, q) - Times(u, b, q)) == AbsR(Times(x, b, q) - Times(v, b, q))
  {
    hide AbsR, Times;
    AbsTimes(x, u, b, q);
    AbsTimes(x, v, b, q);
    TimesLess(AbsR(x - u), AbsR(x - v), b, q);
  }

  lemma ShiftDistance(x: real, u: real, v: real, q: int)
    ensures AbsR(x - u) < AbsR(x - v) <==> AbsR(Shift2(x, q) - Shift2(u, q)) < AbsR(Shift2(x, q) - Shift2(v, q))
    ensures AbsR(x - u) == AbsR(x - v) <==> AbsR(Shift2(x, q) - Shift2(u, q)) == AbsR(Shift2(x, q) - Shift2(v, q))
  {
    TimesDistance(x, u, v, 2, q);
  }
}
