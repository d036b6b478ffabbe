/** Pi by binary splitting: logarithms, the integer square root and the Chudnovsky series. */
module PiBigint {
  import opened Limbs
  import Bignum
  import opened RealRounding

  // Powers of two.

  function Pow2(n: nat): (p: nat)
    ensures p > 0
  {
    Pow(2, n)
  }

  lemma Pow2Add(m: nat, n: nat)
    ensures Pow2(m + n) == Pow2(m) * Pow2(n)
  {
    PowAdd(2, m, n);
  }

  lemma Pow2Next(n: nat)
    ensures Pow2(n + 1) == 2 * Pow2(n)
  {
    hide Pow;
    PowSucc(2, n);
  }

  lemma {:induction false} Pow2Above(n: nat)
    ensures n < Pow2(n)
  {
    hide Pow2;
    if n > 0 {
      Pow2Above(n - 1);
      Pow2Next(n - 1);
    }
  }

  /** a >> n */
  function Shr(a: nat, n: nat): nat { Over(a, Pow2(n)) }

  function Over(a: nat, d: nat): nat
    requires d > 0
  {
    a / d
  }

  lemma ShrZero(a: nat, n: nat)
    ensures Shr(a, n) == 0 <==> a < Pow2(n)
  {
    hide Pow2;
    OverZero(a, Pow2(n));
  }

  lemma ShrShr(a: nat, m: nat, n: nat)
    ensures Shr(Shr(a, m), n) == Shr(a, m + n)
  {
    hide Pow2;
    Pow2Add(m, n);
    OverOver(a, Pow2(m), Pow2(n));
  }

  lemma OverZero(a: nat, d: nat)
    requires d > 0
    ensures Over(a, d) == 0 <==> a < d
  {
  }

  lemma OverOver(a: nat, p: nat, q: nat)
    requires p > 0 && q > 0
    ensures p * q > 0 && Over(Over(a, p), q) == Over(a, p * q)
  {
    MulMono(1, p, q);
    Bignum.DivDiv(a, p, q);
  }

  // Logarithms.

  /** k is the binary logarithm of a rounded down, or 0 for 0. */
  predicate FloorLog(a: nat, k: nat) {
    if a == 0 then k == 0 else Pow2(k) <= a < Pow2(k + 1)
  }

  /** k is the binary logarithm of a rounded up. */
  predicate CeilLog(a: nat, k: nat) {
    a <= Pow2(k) && (k > 0 ==> Pow2(k - 1) < a)
  }

  /** k | (1 << i) */
  function SetBit(k: nat, i: nat): nat { if k / Pow2(i) % 2 == 1 then k else k + Pow2(i) }

  lemma SetClear(k: nat, m: nat, i: nat)
    requires k == m * Pow2(i + 1)
    ensures SetBit(k, i) == k + Pow2(i) == (2 * m + 1) * Pow2(i) && k == 2 * m * Pow2(i)
  {
    hide Pow2;
    var p := Pow2(i);
    Pow2Next(i);
    MulAssoc(m, 2, p);
    DivIs(k, p, 2 * m, 0);
  }

  method FloorLog2(a0: nat) returns (k: nat)
    ensures FloorLog(a0, k)
  {
    hide Pow2, Shr;
    var a := a0;
    var kMax := 0;
    while Shr(a, Pow2(kMax)) != 0
      invariant a == a0 && kMax <= a + 1
      decreases a + 1 - kMax
    {
      ShrZero(a, Pow2(kMax));
      Pow2Above(Pow2(kMax));
      Pow2Above(kMax);
      kMax := kMax + 1;
    }
    ShrZero(a, Pow2(kMax));
    k := 0;
    ghost var m := 0;
    ShrNone(a);
    var i: int := kMax - 1;
    while i >= 0
      invariant -1 <= i < kMax
      invariant k == m * Pow2(i + 1) && Shr(a0, k) == a < Pow2(Pow2(i + 1))
      invariant a0 > 0 ==> a > 0
      invariant a0 == 0 ==> k == 0
    {
      var a1 := Shr(a, Pow2(i));
      ShrZero(a, Pow2(i));
      if a == 0 { ShrNothing(Pow2(i)); }
      SetClear(k, m, i);
      Squared(i);
      if a1 != 0 {
        ShrShr(a0, k, Pow2(i));
        ShrBelow(a, Pow2(i), Pow2(i));
        a := a1;
        k := SetBit(k, i);
        m := 2 * m + 1;
      } else {
        m := 2 * m;
      }
      i := i - 1;
    }
    PowOne();
    LogFromShr(a0, k, a);
  }

  lemma ShrNone(a: nat)
    ensures Shr(a, 0) == a
  {
  }

  lemma ShrNothing(n: nat)
    ensures Shr(0, n) == 0
  {
    ShrZero(0, n);
  }

  lemma PowOne()
    ensures Pow2(0) == 1 && Pow2(1) == 2
  {
  }

  lemma Squared(i: nat)
    ensures Pow2(i + 1) == Pow2(i) + Pow2(i)
    ensures Pow2(Pow2(i + 1)) == Pow2(Pow2(i) + Pow2(i))
  {
    Pow2Next(i);
  }

  lemma ShrBelow(a: nat, m: nat, n: nat)
    requires a < Pow2(m + n)
    ensures Shr(a, m) < Pow2(n)
  {
    ShrShr(a, m, n);
    ShrZero(a, m + n);
    ShrZero(Shr(a, m), n);
  }

  lemma OverOne(a: nat, d: nat)
    requires d > 0 && Over(a, d) == 1
    ensures d <= a < 2 * d
  {
  }

  lemma LogFromShr(a: nat, k: nat, r: nat)
    requires Shr(a, k) == r < 2 && (a > 0 ==> r > 0) && (a == 0 ==> k == 0)
    ensures FloorLog(a, k)
  {
    hide Pow2;
    var p := Pow2(k);
    Pow2Next(k);
    if a > 0 { OverOne(a, p); }
  }

  /** The logarithm rounded up, which is right exactly when a is not 1. */
  method CeilLog2(a: nat) returns (l: nat)
    requires a > 0
    ensures CeilLog(a, l) <==> a != 1
    ensures l > 0 && a <= Pow2(l)
  {
    l := FloorLog2(a - 1);
    l := l + 1;
  }

  // The square root.

  predicate IsRoot(a: nat, s: nat) { s * s <= a < (s + 1) * (s + 1) }

  predicate BelowRoot(a: nat, s: nat) { (s + 1) * (s + 1) <= a }

  /** ((a / s) + s) / 2 */
  function Newton(a: nat, s: nat): nat
    requires s > 0
  {
    (a / s + s) / 2
  }

  /** A Newton step does not fall below the root. */
  lemma NewtonAbove(a: nat, s: nat)
    requires s > 0
    ensures !BelowRoot(a, Newton(a, s))
  {
    var q, u := a / s, Newton(a, s);
    assert a == s * q + a % s;
    MeanSquare(q + 1, s, 2 * (u + 1));
    MulDist(q, 1, s);
    MulSwap(2, u + 1, 2, u + 1);
  }

  lemma MeanSquare(x: nat, y: nat, v: nat)
    requires v >= x + y
    ensures v * v >= 4 * (x * y)
  {
    SquareMono(x + y, v);
    assert (x + y) * (x + y) == 4 * (x * y) + (x - y) * (x - y);
    SquarePositive(x - y);
  }

  lemma SquareMono(x: nat, y: nat)
    requires x <= y
    ensures x * x <= y * y
  {
    MulMono(x, y, x);
    MulMono(x, y, y);
  }

  lemma SquarePositive(x: int)
    ensures x * x >= 0
  {
  }

  lemma StartAbove(a: nat, l: nat)
    requires a <= Pow2(l)
    ensures !BelowRoot(a, Pow2((l + 1) / 2))
  {
    hide Pow2;
    var h := (l + 1) / 2;
    var d: nat := h + h - l;
    Pow2Add(h, h);
    Pow2Add(l, d);
    assert h + h == l + d;
    var x, y, z := Pow2(h), Pow2(l), Pow2(d);
    assert y <= y * z;
    assert (x + 1) * (x + 1) == x * x + 2 * x + 1;
  }

  lemma NewtonDone(a: nat, s: nat)
    requires s > 0 && Newton(a, s) >= s && !BelowRoot(a, s)
    ensures IsRoot(a, s)
  {
    var q := a / s;
    assert q >= s;
    MulMono(s, q, s);
  }

  /** The square root rounded down; every round but the last makes the estimate smaller. */
  method IntSqrt(a: nat) returns (s: nat)
    ensures IsRoot(a, s)
  {
    if a == 0 { return a; }
    hide Pow2, CeilLog, Newton, IsRoot, BelowRoot;
    var l := CeilLog2(a);
    var u := Pow2((l + 1) / 2);
    StartAbove(a, l);
    s := u;
    u := Newton(a, s);
    NewtonAbove(a, s);
    while u < s
      invariant s > 0 && u == Newton(a, s)
      invariant !BelowRoot(a, s) && !BelowRoot(a, u)
      decreases s
    {
      StillPositive(a, u);
      s := u;
      u := Newton(a, s);
      NewtonAbove(a, s);
    }
    NewtonDone(a, s);
  }

  lemma StillPositive(a: nat, u: nat)
    requires a > 0 && !BelowRoot(a, u)
    ensures u > 0
  {
  }

  // The Chudnovsky series.

  const CHUD_A: nat := 13591409
  const CHUD_B: nat := 545140134
  const CHUD_C: nat := 640320
  const CHUD_C3: nat := 10939058860032000

  /** The factor of the numerators that the term b adds. */
  function Factor(b: nat): int { (2 * b - 1) * (6 * b - 1) * (6 * b - 5) }

  /** The factor of the denominators that the term b adds. */
  function Divisor(b: nat): nat { b * b * b * CHUD_C3 }

  lemma DivisorPositive(b: nat)
    requires b > 0
    ensures Divisor(b) > 0
  {
    MulLess(0, b, b);
    MulLess(0, b * b, b);
  }

  function Coefficient(b: nat): int { if b % 2 == 1 then -(CHUD_B * b + CHUD_A) else CHUD_B * b + CHUD_A }

  /** The products over a+1..b. */
  function Factors(a: nat, b: nat): int
    requires a <= b
  {
    if a == b then 1 else Factors(a, b - 1) * Factor(b)
  }

  function Divisors(a: nat, b: nat): (r: nat)
    requires a <= b
    ensures r > 0
  {
    if a == b then 1 else
      DivisorPositive(b);
      Divisors(a, b - 1) * Divisor(b)
  }

  /** The numerator of the sum of the terms a+1..b over Divisors(a, b). */
  function Numerator(a: nat, b: nat): int
    requires a <= b
  {
    if a == b then 0 else Numerator(a, b - 1) * Divisor(b) + Coefficient(b) * Factors(a, b)
  }

  lemma {:induction false} FactorsSplit(a: nat, c: nat, b: nat)
    requires a <= c <= b
    ensures Factors(a, b) == Factors(a, c) * Factors(c, b)
    decreases b
  {
    if c < b {
      FactorsSplit(a, c, b - 1);
      MulAssoc(Factors(a, c), Factors(c, b - 1), Factor(b));
    }
  }

  lemma {:induction false} DivisorsSplit(a: nat, c: nat, b: nat)
    requires a <= c <= b
    ensures Divisors(a, b) == Divisors(a, c) * Divisors(c, b)
    decreases b
  {
    if c < b {
      DivisorsSplit(a, c, b - 1);
      MulAssoc(Divisors(a, c), Divisors(c, b - 1), Divisor(b));
    }
  }

  /** Two neighbouring sums make the whole, wherever they meet. */
  lemma {:induction false} NumeratorSplit(a: nat, c: nat, b: nat)
    requires a <= c <= b
    ensures Numerator(a, b) == Numerator(a, c) * Divisors(c, b) + Numerator(c, b) * Factors(a, c)
    decreases b
  {
    if c < b {
      hide Divisor, Factor, Coefficient, Divisors, Factors;
      NumeratorSplit(a, c, b - 1);
      FactorsSplit(a, c, b);
      DivisorsNext(c, b);
      SplitStep(Numerator(a, c), Divisors(c, b - 1), Numerator(c, b - 1), Factors(a, c), Divisor(b), Coefficient(b),
        Factors(c, b));
    } else {
      DivisorsNone(b);
    }
  }

  lemma DivisorsNext(a: nat, b: nat)
    requires a < b
    ensures Divisors(a, b) == Divisors(a, b - 1) * Divisor(b)
  {
  }

  lemma DivisorsNone(b: nat)
    ensures Divisors(b, b) == 1
  {
  }

  lemma SplitStep(n: int, d: int, m: int, f: int, e: int, c: int, g: int)
    ensures (n * d + m * f) * e + c * (f * g) == n * (d * e) + (m * e + c * g) * f
  {
    MulDist(n * d, m * f, e);
    MulAssoc(n, d, e);
    MulDist(m * e, c * g, f);
    MulAssoc(m, f, e);
    MulAssoc(m, e, f);
    MulAssoc(c, g, f);
  }

  /** Binary splitting, the same whatever the split: the sum of the terms a+1..b as numerator and
      denominator, and the product of their factors where it is needed. */
  method ChudBs(a: nat, b: nat, needG: bool) returns (p: int, q: int, g: int)
    requires a < b
    ensures p == Numerator(a, b) && q == Divisors(a, b)
    ensures g == if needG || a == b - 1 then Factors(a, b) else 0
    decreases b - a
  {
    if a == b - 1 {
      OneTerm(b);
      g := (2 * b - 1) * (6 * b - 1) * (6 * b - 5);
      p := g * (CHUD_B * b + CHUD_A);
      if b % 2 == 1 { p := -p; }
      q := b * b * b * CHUD_C3;
    } else {
      hide Numerator, Divisors, Factors;
      var c := (a + b) / 2;
      var p1, q1, g1 := ChudBs(a, c, true);
      var p2, q2, g2 := ChudBs(c, b, needG);
      p := p1 * q2 + p2 * g1;
      q := q1 * q2;
      if needG { g := g1 * g2; } else { g := 0; }
      NumeratorSplit(a, c, b);
      DivisorsSplit(a, c, b);
      FactorsSplit(a, c, b);
    }
  }

  lemma OneTerm(b: nat)
    requires b > 0
    ensures Factors(b - 1, b) == Factor(b) && Divisors(b - 1, b) == Divisor(b)
    ensures Numerator(b - 1, b) == Coefficient(b) * Factor(b)
    ensures Factor(b) * -(CHUD_B * b + CHUD_A) == -(Factor(b) * (CHUD_B * b + CHUD_A))
  {
    hide Divisor, Factor, Coefficient;
    assert Factors(b - 1, b - 1) == 1 && Divisors(b - 1, b - 1) == 1 && Numerator(b - 1, b - 1) == 0;
  }

  // What the sum means.

  /** The product of Factor(j) / Divisor(j) over a+1..b. */
  function Weight(a: nat, b: nat): real
    requires a <= b
  {
    if a == b then 1.0 else
      DivisorPositive(b);
      Weight(a, b - 1) * (Factor(b) as real / Divisor(b) as real)
  }

  function Series(a: nat, b: nat): real
    requires a <= b
  {
    if a == b then 0.0 else Series(a, b - 1) + Coefficient(b) as real * Weight(a, b)
  }

  lemma WeightNext(a: nat, b: nat)
    requires a < b
    ensures Divisor(b) > 0 && Weight(a, b) == Weight(a, b - 1) * (Factor(b) as real / Divisor(b) as real)
  {
    hide Factor, Divisor;
    DivisorPositive(b);
  }

  lemma RatioStep(w: real, d: real, f: real, e: real, g: real)
    requires e > 0.0 && g == w * d
    ensures g * f == (w * (f / e)) * (d * e)
  {
    assert f / e * e == f;
    var r := f / e;
    assert (w * r) * (d * e) == (w * d) * (r * e);
  }

  lemma WeightStep(w: real, d: nat, f: int, e: nat, g: int, w2: real, d2: nat, g2: int)
    requires e > 0 && g as real == w * d as real && w2 == w * (f as real / e as real) && d2 == d * e && g2 == g * f
    ensures g2 as real == w2 * d2 as real
  {
    RealProduct(d, e);
    RealProduct(g, f);
    RatioStep(w, d as real, f as real, e as real, g as real);
  }

  lemma FactorsNext(a: nat, b: nat)
    requires a < b
    ensures Factors(a, b) == Factors(a, b - 1) * Factor(b)
  {
  }

  lemma WeightNone(b: nat)
    ensures Factors(b, b) as real == Weight(b, b) * Divisors(b, b) as real
    ensures Numerator(b, b) as real == Series(b, b) * Divisors(b, b) as real
  {
  }

  lemma {:induction false} WeightIs(a: nat, b: nat)
    requires a <= b
    ensures Factors(a, b) as real == Weight(a, b) * Divisors(a, b) as real
    decreases b
  {
    hide *;
    if a < b {
      WeightIs(a, b - 1);
      WeightNext(a, b);
      DivisorsNext(a, b);
      FactorsNext(a, b);
      WeightStep(Weight(a, b - 1), Divisors(a, b - 1), Factor(b), Divisor(b), Factors(a, b - 1), Weight(a, b),
        Divisors(a, b), Factors(a, b));
    } else {
      WeightNone(b);
    }
  }

  lemma SumStep(n: real, s: real, d: real, e: real, c: real, w: real, f: real)
    requires n == s * d && f == w * (d * e)
    ensures n * e + c * f == (s + c * w) * (d * e)
  {
    assert (s * d) * e == s * (d * e);
    assert c * (w * (d * e)) == (c * w) * (d * e);
  }

  lemma SeriesStep(n: int, s: real, d: nat, e: nat, c: int, w: real, f: int, s2: real, d2: nat, n2: int)
    requires n as real == s * d as real && f as real == w * d2 as real && d2 == d * e && n2 == n * e + c * f
    requires s2 == s + c as real * w
    ensures n2 as real == s2 * d2 as real
  {
    RealProduct(d, e);
    RealProduct(n, e);
    RealProduct(c, f);
    SumStep(n as real, s, d as real, e as real, c as real, w, f as real);
  }

  lemma SumNext(a: nat, b: nat)
    requires a < b
    ensures Numerator(a, b) == Numerator(a, b - 1) * Divisor(b) + Coefficient(b) * Factors(a, b)
    ensures Series(a, b) == Series(a, b - 1) + Coefficient(b) as real * Weight(a, b)
  {
  }

  /** The fraction of binary splitting is the partial sum of the series. */
  lemma {:induction false} SeriesIs(a: nat, b: nat)
    requires a <= b
    ensures Numerator(a, b) as real == Series(a, b) * Divisors(a, b) as real
    decreases b
  {
    hide *;
    if a < b {
      SeriesIs(a, b - 1);
      WeightIs(a, b);
      DivisorsNext(a, b);
      SumNext(a, b);
      SeriesStep(Numerator(a, b - 1), Series(a, b - 1), Divisors(a, b - 1), Divisor(b), Coefficient(b), Weight(a, b),
        Factors(a, b), Series(a, b), Divisors(a, b), Numerator(a, b));
    } else {
      WeightNone(b);
    }
  }

  // How small the terms are.

  /** What each term is smaller than the one before by, at least: about 47.11 bits. */
  const RATE: nat := 151931373056000

  const LARGEST: nat := 600000000

  function Size(x: int): nat { if x < 0 then -x else x }

  lemma SizeProduct(x: int, y: int)
    ensures Size(x * y) == Size(x) * Size(y)
  {
    if x >= 0 && y < 0 { MulMono(0, x, -y); }
    if x < 0 && y >= 0 { MulMono(0, -x, y); }
    if x < 0 && y < 0 { MulMono(0, -x, -y); }
    if x >= 0 && y >= 0 { MulMono(0, x, y); }
  }

  lemma FactorSmall(b: nat)
    requires b > 0
    ensures Factor(b) > 0 && RATE * Factor(b) <= Divisor(b)
  {
    var x, y, z := 2 * b - 1, 6 * b - 1, 6 * b - 5;
    ProductBound(x, y, 2 * b, 6 * b);
    ProductBound(x * y, z, (2 * b) * (6 * b), 6 * b);
    assert (2 * b) * (6 * b) == 12 * (b * b);
    assert 12 * (b * b) * (6 * b) == 72 * (b * b * b);
  }

  lemma ProductBound(x: nat, y: nat, a: nat, b: nat)
    requires 0 < x <= a && 0 < y <= b
    ensures 0 < x * y <= a * b
  {
    MulLess(0, x, y);
    MulMono(x, a, y);
    MulMono(y, b, a);
  }

  lemma {:induction false} FactorsSmall(a: nat, b: nat)
    requires a <= b
    ensures Factors(a, b) > 0 && Factors(a, b) * Pow(RATE, b - a) <= Divisors(a, b)
    decreases b
  {
    hide *;
    if a < b {
      FactorsSmall(a, b - 1);
      FactorsNext(a, b);
      DivisorsNext(a, b);
      FactorSmall(b);
      PowSucc(RATE, b - 1 - a);
      SmallStep(Factors(a, b - 1), Factor(b), Pow(RATE, b - 1 - a), RATE, Divisors(a, b - 1), Divisor(b),
        Pow(RATE, b - a));
    } else {
      PowZero(RATE);
      FactorsNone(b);
    }
  }

  lemma FactorsNone(b: nat)
    ensures Factors(b, b) == 1 && Divisors(b, b) == 1 && Numerator(b, b) == 0
  {
  }

  lemma SmallStep(f: int, g: int, w: nat, r: nat, d: nat, e: nat, w2: nat)
    requires f > 0 && g > 0 && f * w <= d && r * g <= e && w2 == w * r
    ensures f * g > 0 && (f * g) * w2 <= d * e
  {
    MulLess(0, f, g);
    MulSwap(f, g, w, r);
    assert g * r == r * g;
    MulMono(0, r, g);
    MulMono(f * w, d, g * r);
    MulMono(g * r, e, d);
  }

  lemma CoefficientBound(b: nat)
    requires b > 0
    ensures Size(Coefficient(b)) <= LARGEST * b
  {
  }

  /** The sum of the terms a+1..b is at most twice the bound of its first term. */
  lemma {:induction false} NumeratorBound(a: nat, b: nat)
    requires a <= b
    ensures Size(Numerator(a, b)) * RATE <= 2 * LARGEST * (a + 1) * Divisors(a, b)
    decreases b - a
  {
    hide *;
    if a < b {
      NumeratorBound(a + 1, b);
      NumeratorSplit(a, a + 1, b);
      DivisorsSplit(a, a + 1, b);
      OneTerm(a + 1);
      CoefficientBound(a + 1);
      FactorSmall(a + 1);
      BoundStep(Coefficient(a + 1), Factor(a + 1), Divisor(a + 1), Numerator(a + 1, b), Divisors(a + 1, b), a,
        Numerator(a, b), Divisors(a, b));
    } else {
      FactorsNone(b);
      NothingBound(a, Divisors(a, b), Numerator(a, b));
    }
  }

  lemma NothingBound(a: nat, d: nat, n: int)
    requires n == 0
    ensures Size(n) * RATE <= 2 * LARGEST * (a + 1) * d
  {
    MulMono(0, 2 * LARGEST * (a + 1), d);
  }

  lemma BoundStep(c: int, f: int, e: nat, n: int, d: nat, a: nat, n2: int, d2: nat)
    requires n2 == c * f * d + n * f && d2 == e * d
    requires Size(c) <= LARGEST * (a + 1) && f > 0 && RATE * f <= e
    requires Size(n) * RATE <= 2 * LARGEST * (a + 1 + 1) * d
    ensures Size(n2) * RATE <= 2 * LARGEST * (a + 1) * d2
  {
    var k := LARGEST * (a + 1);
    assert Size(n) <= k * d by {
      MulMono(2 * LARGEST * (a + 1 + 1), RATE * k, d);
      MulAssoc(RATE, k, d);
    }
    MulAssoc(c, f, d);
    SizeProduct(c, f * d);
    SizeProduct(f, d);
    SizeProduct(n, f);
    var u, v := Size(c) * (f * d), Size(n) * f;
    assert Size(n2) <= u + v;
    assert u * RATE <= k * (e * d) by {
      MulMono(RATE * f, e, d);
      MulMono(0, f, d);
      MulMono(Size(c), k, f * d);
      MulAssoc(RATE, f, d);
      MulMono(RATE * (f * d), e * d, k);
      Shuffle(RATE, k, f * d);
    }
    assert v * RATE <= k * (e * d) by {
      MulMono(Size(n), k * d, f);
      MulMono(RATE * f, e, k * d);
      Shuffle(RATE, k * d, f);
      MulAssoc(k, d, e);
      assert d * e == e * d;
    }
    assert 2 * LARGEST * (a + 1) == 2 * k;
    Doubled(k, e * d);
  }

  lemma Shuffle(r: nat, x: nat, y: nat)
    ensures x * y * r == (r * y) * x
  {
    MulAssoc(x, y, r);
    assert y * r == r * y && x * (r * y) == (r * y) * x;
  }

  lemma Doubled(k: nat, x: nat)
    ensures 2 * k * x == k * x + k * x
  {
    MulAssoc(2, k, x);
  }

  /** Terms behind the first n change the sum by at most 2 * LARGEST * (n + 1) / RATE^(n + 1). */
  lemma TailBound(n: nat, n2: nat)
    requires n <= n2
    ensures Size(Numerator(0, n2) * Divisors(0, n) - Numerator(0, n) * Divisors(0, n2)) * Pow(RATE, n + 1)
         <= 2 * LARGEST * (n + 1) * (Divisors(0, n) * Divisors(0, n2))
  {
    hide *;
    NumeratorSplit(0, n, n2);
    DivisorsSplit(0, n, n2);
    NumeratorBound(n, n2);
    FactorsSmall(0, n);
    PowSucc(RATE, n);
    TailStep(Numerator(0, n), Divisors(0, n), Numerator(n, n2), Divisors(n, n2), Factors(0, n), Pow(RATE, n), n,
      Numerator(0, n2), Divisors(0, n2), Pow(RATE, n + 1));
  }

  lemma TailStep(n1: int, d1: nat, n: int, d: nat, f: int, w: nat, k: nat, n2: int, d2: nat, w2: nat)
    requires n2 == n1 * d + n * f && d2 == d1 * d && w2 == RATE * w && f > 0
    requires Size(n) * RATE <= 2 * LARGEST * (k + 1) * d && f * w <= d1
    ensures Size(n2 * d1 - n1 * d2) * w2 <= 2 * LARGEST * (k + 1) * (d1 * d2)
  {
    var m, t := 2 * LARGEST * (k + 1), n2 * d1 - n1 * d2;
    assert t == n * f * d1 by {
      MulDist(n1 * d, n * f, d1);
      MulAssoc(n1, d, d1);
      assert d * d1 == d1 * d;
    }
    MulAssoc(n, f, d1);
    SizeProduct(n, f * d1);
    SizeProduct(f, d1);
    var x, y := Size(n) * RATE, (f * w) * d1;
    assert Size(t) * w2 == x * y by {
      MulSwap(Size(n), f * d1, RATE, w);
      MulAssoc(f, d1, w);
      MulAssoc(f, w, d1);
      assert d1 * w == w * d1;
    }
    MulMono(f * w, d1, d1);
    MulMono(0, f, w);
    MulMono(x, m * d, y);
    MulMono(0, m, d);
    MulMono(y, d1 * d1, m * d);
    MulSwap(m, d, d1, d1);
    assert (d1 * d1) * (m * d) == m * (d1 * (d1 * d)) by {
      MulAssoc(d1, d1, m * d);
      MulAssoc(m, d1, d1 * d);
      MulAssoc(m, d1, d1 * d);
      Regroup(d1, m, d);
    }
  }

  lemma Regroup(e: nat, m: nat, d: nat)
    ensures e * (e * (m * d)) == m * (e * (e * d))
  {
    MulAssoc(e, m, d);
    MulAssoc(m, e, d);
    assert e * m == m * e;
    MulAssoc(e, m, e * d);
    MulAssoc(m, e, e * d);
  }

  /** With ten terms more than the bits ask for, all further terms are worth at most 1.2e9 (n + 1) / RATE^11
      units of 2^-prec, which is less than one unit for all n below 10^146. */
  lemma EnoughTerms(prec: nat, t: nat, n: nat, n2: nat)
    requires Pow(RATE, t) >= Pow2(prec) && t + 10 <= n <= n2
    ensures Size(Numerator(0, n2) * Divisors(0, n) - Numerator(0, n) * Divisors(0, n2)) * (Pow2(prec) * Pow(RATE, 11))
         <= 2 * LARGEST * (n + 1) * (Divisors(0, n) * Divisors(0, n2))
    ensures 2 * LARGEST * (n + 1) < Pow(RATE, 11) ==>
      Size(Numerator(0, n2) * Divisors(0, n) - Numerator(0, n) * Divisors(0, n2)) * Pow2(prec) < Divisors(0,
        n) * Divisors(0, n2)
  {
    hide *;
    TailBound(n, n2);
    PowAdd(RATE, t, 11);
    RateMono(t + 11, n + 1);
    MulMono(Pow2(prec), Pow(RATE, t), Pow(RATE, 11));
    var x := Size(Numerator(0, n2) * Divisors(0, n) - Numerator(0, n) * Divisors(0, n2));
    Scaled(x, Pow2(prec) * Pow(RATE, 11), Pow(RATE, n + 1));
    LessThanOne(x, Pow2(prec), Pow(RATE, 11), 2 * LARGEST * (n + 1), Divisors(0, n) * Divisors(0, n2));
  }

  lemma LessThanOne(x: nat, p: nat, w: nat, m: nat, d: nat)
    requires x * (p * w) <= m * d && d > 0
    ensures m < w ==> x * p < d
  {
    MulAssoc(x, p, w);
    if m < w && x * p >= d {
      MulMono(d, x * p, w);
      MulLess(m, w, d);
    }
  }

  lemma RateMono(i: nat, j: nat)
    requires i <= j
    ensures Pow(RATE, i) <= Pow(RATE, j)
  {
    hide Pow;
    PowMono(RATE, i, j);
  }

  lemma Scaled(x: nat, y: nat, z: nat)
    requires y <= z
    ensures x * y <= x * z
  {
    MulMono(y, z, x);
  }

  // Pi.

  function Square(x: int): int { x * x }

  /** The denominator of the formula with n terms, over Divisors(0, n). */
  function Denominator(n: nat): int { 13591409 * Divisors(0, n) + Numerator(0, n) }

  /** r is at most, and less than 804 below, 2^prec * 53360 * sqrt(640320) / (13591409 + sum), where the sum
      of the first n terms is Numerator(0, n) / Divisors(0, n).  Both sides are squared. */
  predicate NearFormula(n: nat, prec: nat, r: nat) {
    var m, t := Denominator(n), 53360 * (Divisors(0, n) * Pow2(prec));
    m > 0 && Square(r * m) <= 640320 * Square(t) < Square((r + 804) * m)
  }

  // The digits of pi.

  const DIGITS: nat := 100000000000000000000000000000000000000000000000000

  /** Pi with 50 digits behind the point, cut off. */
  const PI_BELOW: nat := 314159265358979323846264338327950288419716939937510

  /** r / 2^prec is at most 10^-50 above pi, and less than 10^-50 + 804 / 2^prec below it. */
  predicate NearPi(prec: nat, r: nat) {
    r * DIGITS <= (PI_BELOW + 1) * Pow2(prec) && PI_BELOW * Pow2(prec) < (r + 804) * DIGITS
  }

  lemma NextTerm(b: nat, n: int, d: nat, f: int, n2: int, d2: nat, f2: int)
    requires b > 0 && Numerator(0, b - 1) == n && Divisors(0, b - 1) == d && Factors(0, b - 1) == f
    requires d2 == d * (b * b * b * CHUD_C3) && f2 == f * ((2 * b - 1) * (6 * b - 1) * (6 * b - 5))
    requires n2 == n * (b * b * b * CHUD_C3) + (if b % 2 == 1 then -(CHUD_B * b + CHUD_A) else CHUD_B * b + CHUD_A) * f2
    ensures Numerator(0, b) == n2 && Divisors(0, b) == d2 && Factors(0, b) == f2
  {
    hide *;
    FactorsNext(0, b);
    DivisorsNext(0, b);
    SumNext(0, b);
    TermParts(b);
  }

  lemma TermParts(b: nat)
    ensures Divisor(b) == b * b * b * CHUD_C3 && Factor(b) == (2 * b - 1) * (6 * b - 1) * (6 * b - 5)
    ensures Coefficient(b) == if b % 2 == 1 then -(CHUD_B * b + CHUD_A) else CHUD_B * b + CHUD_A
  {
  }

  /** The first four terms. */
  lemma FourTerms()
    ensures Numerator(0, 4) == -50552984125686101746228994534091499889077848307882335805887375
    ensures Divisors(0, 4) == 197949113784380161370086287723699183824180409892941594624000000000000
  {
    hide Numerator, Divisors, Factors;
    FactorsNone(0);
    NextTerm(1, 0,
      1, 1,
      -2793657715,
      10939058860032000, 5);
    NextTerm(2, -2793657715,
      10939058860032000, 5,
      -244479889433338740603253065,
      957304069945956794936328192000000, 1155);
    NextTerm(3, -244479889433338740603253065,
      957304069945956794936328192000000, 1155,
      -72208257316346012928456348682766762497244025,
      282744150338349327484720295874090277797888000000000, 1276275);
    NextTerm(4, -72208257316346012928456348682766762497244025,
      282744150338349327484720295874090277797888000000000, 1276275,
      -50552984125686101746228994534091499889077848307882335805887375,
      197949113784380161370086287723699183824180409892941594624000000000000, 3904125225);
  }

  const SCALE: nat := 1000000000000000000000000000000000000000000000000000000
  const BELOW: nat := 13591408999999744616264456976040859064519252791806927647150762
  const ABOVE: nat := 13591408999999744616264456976040859064519252791806927647150765

  /** From four terms on, the denominator of the formula is fixed to 54 digits behind the point. */
  lemma DenominatorNear(n: nat)
    requires n >= 4
    ensures BELOW * Divisors(0, n) <= SCALE * Denominator(n) <= ABOVE * Divisors(0, n)
  {
    hide Numerator, Divisors, Pow, Size;
    TailBound(4, n);
    FourTerms();
    RateFive();
    var n1, d1, n2, d2 := Numerator(0, 4), Divisors(0, 4), Numerator(0, n), Divisors(0, n);
    var x := n2 * d1 - n1 * d2;
    MulLess(0, d1, d2);
    FarBelow(Size(x), Pow(RATE, 5), d1 * d2);
    FourEnough(n1, d1, n2, d2, x);
  }

  lemma RateFive()
    ensures Pow(RATE, 5) >= SCALE * (2 * LARGEST * 5)
  {
    hide Pow;
    PowChain(RATE);
    PowSucc(RATE, 4);
  }

  lemma FarBelow(x: nat, w: nat, d: nat)
    requires x * w <= 2 * LARGEST * (4 + 1) * d && w >= SCALE * (2 * LARGEST * 5)
    ensures SCALE * x <= d
  {
    MulMono(SCALE * (2 * LARGEST * 5), w, x);
  }

  lemma FourEnough(n1: int, d1: nat, n2: int, d2: nat, x: int)
    requires x == n2 * d1 - n1 * d2 && SCALE * Size(x) <= d1 * d2 && d1 > 0
    requires (BELOW + 1) * d1 <= SCALE * (CHUD_A * d1 + n1) <= (ABOVE - 1) * d1
    ensures BELOW * d2 <= SCALE * (CHUD_A * d2 + n2) <= ABOVE * d2
  {
    var m1, m2 := SCALE * (CHUD_A * d1 + n1), SCALE * (CHUD_A * d2 + n2);
    assert m2 * d1 == m1 * d2 + SCALE * x by {
      MulDist(SCALE * CHUD_A * d2, SCALE * n2, d1);
      MulDist(SCALE * CHUD_A * d1, SCALE * n1, d2);
      Order(SCALE * CHUD_A, d2, d1);
      MulAssoc(SCALE, n2, d1);
      MulAssoc(SCALE, n1, d2);
    }
    MulMono((BELOW + 1) * d1, m1, d2);
    MulMono(m1, (ABOVE - 1) * d1, d2);
    MulAssoc(BELOW + 1, d1, d2);
    MulAssoc(ABOVE - 1, d1, d2);
    MulAssoc(BELOW, d2, d1);
    MulAssoc(ABOVE, d2, d1);
    Cancel(BELOW * d2, m2, d1);
    Cancel(m2, ABOVE * d2, d1);
  }

  /** The square of 53360 * sqrt(640320) * t. */
  function Radicand(t: int): int { 640320 * Square(53360 * t) }

  lemma RadicandTimes(t: int, k: int)
    ensures Radicand(t * k) == Radicand(t) * Square(k)
  {
    hide Square;
    MulAssoc(53360, t, k);
    SquareTimes(53360 * t, k);
    MulAssoc(640320, Square(53360 * t), Square(k));
  }

  lemma PiSquares()
    ensures Square(PI_BELOW * ABOVE) <= Radicand(SCALE * DIGITS) <= Square((PI_BELOW + 1) * BELOW)
  {
  }

  /** The formula with a denominator that is fixed that well is pi. */
  lemma PiFromFormula(n: nat, prec: nat, r: nat)
    requires n >= 4 && NearFormula(n, prec, r)
    ensures NearPi(prec, r)
  {
    hide Square, Divisors, Denominator, Pow2;
    DenominatorNear(n);
    PiSquares();
    PiAbove(r, Denominator(n), Divisors(0, n), Pow2(prec), BELOW, SCALE, DIGITS, PI_BELOW + 1);
    PiBelow(r + 804, Denominator(n), Divisors(0, n), Pow2(prec), ABOVE, SCALE, DIGITS, PI_BELOW);
  }

  /** Four numbers, each in both products. */
  lemma FourFactors(r: int, m: int, s: int, t: int)
    ensures (r * t) * (s * m) == (r * m) * (s * t)
  {
    MulSwap(r, t, m, s);
    assert s * m == m * s && s * t == t * s;
  }

  /** The radicand for d * p, times Square(s * t), is the one for s * t, times the other squares. */
  lemma RadicandSwap(d: int, p: int, s: int, t: int)
    ensures Radicand(d * p) * Square(s * t) == Radicand(s * t) * Square(p) * Square(d)
  {
    hide Square, Radicand;
    RadicandTimes(d * p, s * t);
    RadicandTimes(s * t, d * p);
    assert d * p * (s * t) == s * t * (d * p);
    SquareTimes(d, p);
    assert Square(d) * Square(p) == Square(p) * Square(d);
    MulAssoc(Radicand(s * t), Square(p), Square(d));
  }

  lemma PiAbove(r: nat, m: nat, d: nat, p: nat, low: nat, s: nat, t: nat, high: nat)
    requires Square(r * m) <= Radicand(d * p) && low * d <= s * m && d > 0 && low > 0
    requires Radicand(s * t) <= Square(high * low)
    ensures r * t <= high * p
  {
    hide *;
    var x, y := r * t * low, high * low * p;
    assert Square(x) * Square(d) <= Radicand(d * p) * Square(s * t) by {
      SquareTimes(x, d);
      MulAssoc(r * t, low, d);
      Scaled(r * t, low * d, s * m);
      FourFactors(r, m, s, t);
      SquareUp(x * d, (r * m) * (s * t));
      SquareTimes(r * m, s * t);
      SquareUp(0, s * t);
      MulMono(Square(r * m), Radicand(d * p), Square(s * t));
    }
    assert Radicand(s * t) * Square(p) * Square(d) <= Square(y) * Square(d) by {
      SquareTimes(high * low, p);
      SquareUp(0, p);
      SquareUp(0, d);
      MulMono(Radicand(s * t), Square(high * low), Square(p));
      MulMono(Radicand(s * t) * Square(p), Square(high * low) * Square(p), Square(d));
    }
    RadicandSwap(d, p, s, t);
    SquarePlus(d);
    Cancel(Square(x), Square(y), Square(d));
    Unsquared(r * t, high * p, low);
    Order(high, low, p);
  }

  lemma PiBelow(r: nat, m: nat, d: nat, p: nat, high: nat, s: nat, t: nat, low: nat)
    requires Radicand(d * p) < Square(r * m) && s * m <= high * d && d > 0 && high > 0 && s > 0 && t > 0
    requires Square(low * high) <= Radicand(s * t)
    ensures low * p < r * t
  {
    hide *;
    var x, y := r * t * high, low * high * p;
    assert Radicand(d * p) * Square(s * t) < Square(x) * Square(d) by {
      SquareTimes(x, d);
      MulAssoc(r * t, high, d);
      Scaled(r * t, s * m, high * d);
      FourFactors(r, m, s, t);
      SquareUp((r * m) * (s * t), x * d);
      SquareTimes(r * m, s * t);
      MulLess(0, s, t);
      SquarePlus(s * t);
      MulLess(Radicand(d * p), Square(r * m), Square(s * t));
    }
    assert Square(y) * Square(d) <= Radicand(s * t) * Square(p) * Square(d) by {
      SquareTimes(low * high, p);
      SquareUp(0, p);
      SquareUp(0, d);
      MulMono(Square(low * high), Radicand(s * t), Square(p));
      MulMono(Square(low * high) * Square(p), Radicand(s * t) * Square(p), Square(d));
    }
    RadicandSwap(d, p, s, t);
    SquarePlus(d);
    Cancel(Square(y), Square(x), Square(d));
    Unsquared(r * t, low * p, high);
    Order(low, high, p);
  }

  /** Both sides without the squares and the common factor. */
  lemma Unsquared(x: nat, y: nat, k: nat)
    requires k > 0
    ensures Square(x * k) <= Square(y * k) <==> x <= y
  {
    MulMono(0, x, k);
    MulMono(0, y, k);
    SquareLess(y * k, x * k);
    Cancel(x, y, k);
  }

  /** (CHUD_C / 12) * (q << prec) / d */
  function Quotient(q: nat, prec: nat, d: nat): nat
    requires d > 0
  {
    CHUD_C / 12 * (q * Pow2(prec)) / d
  }

  /** calc_pi with n terms. */
  method CalcPi(prec: nat, n: nat) returns (r: nat)
    requires n > 0
    ensures NearFormula(n, prec, r)
    ensures n >= 4 ==> NearPi(prec, r)
  {
    hide *;
    var p, q, g := ChudBs(0, n, false);
    var d := p + q * CHUD_A;
    DenominatorIs(n, p, q, d);
    var x := Quotient(q, prec, d);
    var c := CHUD_C * Pow2(2 * prec);
    g := IntSqrt(c);
    var v := x * g;
    r := Shr(v, prec);
    CalcClose(prec, n, q, d, x, c, g, v, r);
    if n >= 4 { PiFromFormula(n, prec, r); }
  }

  lemma DenominatorIs(n: nat, p: int, q: int, d: int)
    requires p == Numerator(0, n) && q == Divisors(0, n) && q > 0 && d == p + q * CHUD_A
    ensures d == Denominator(n) && d > 53360 * q
  {
    hide Numerator, Divisors;
    NumeratorBound(0, n);
  }

  lemma CalcClose(prec: nat, n: nat, q: nat, d: nat, x: nat, c: nat, g: nat, v: nat, r: nat)
    requires q == Divisors(0, n) && d == Denominator(n) && d > 53360 * q
    requires x == Quotient(q, prec, d) && c == CHUD_C * Pow2(2 * prec) && IsRoot(c, g) && v == x * g
      && r == Shr(v, prec)
    ensures NearFormula(n, prec, r)
  {
    hide Pow2, Divisors, Numerator, Denominator, Square, IsRoot;
    Pow2Add(prec, prec);
    var p := Pow2(prec);
    var t := 53360 * (q * p);
    QuotientIs(t, d, x);
    ShrIs(v, prec, r);
    QuotientSmall(q, p, d, x);
    RootIs(p, g);
    LowerSide(r, p, d, x, g, t);
    UpperSide(r, p, d, x, g, t);
  }

  lemma QuotientIs(t: nat, d: nat, x: nat)
    requires d > 0 && x == t / d
    ensures x * d <= t < (x + 1) * d
  {
    assert t == d * x + t % d;
    MulDist(x, 1, d);
  }

  lemma ShrIs(v: nat, prec: nat, r: nat)
    requires r == Shr(v, prec)
    ensures r * Pow2(prec) <= v < (r + 1) * Pow2(prec)
  {
    hide Pow2;
    QuotientIs(v, Pow2(prec), r);
  }

  lemma QuotientSmall(q: nat, p: nat, d: nat, x: nat)
    requires d > 53360 * q && p > 0 && x * d <= 53360 * (q * p)
    ensures x < p
  {
    if x >= p {
      MulMono(p, x, d);
      MulLess(53360 * q, d, p);
      MulAssoc(53360, q, p);
    }
  }

  lemma RootIs(p: nat, g: nat)
    requires IsRoot(640320 * (p * p), g)
    ensures Square(g) <= 640320 * Square(p) < Square(g + 1) && g <= 801 * p
  {
    if g > 801 * p { SquareLess(801 * p, g); SquareTimes(801, p); }
  }

  lemma SquareLess(x: nat, y: nat)
    ensures x < y <==> x * x < y * y
  {
    if x < y { MulMono(x, y, x); MulLess(x, y, y); }
    if y <= x { MulMono(y, x, y); MulMono(y, x, x); }
  }

  lemma SquareTimes(x: int, y: int)
    ensures Square(x * y) == Square(x) * Square(y) == (x * x) * (y * y)
  {
    MulSwap(x, y, x, y);
  }

  lemma SquareUp(x: nat, y: nat)
    requires x <= y
    ensures 0 <= Square(x) <= Square(y)
  {
    MulMono(x, y, x);
    MulMono(x, y, y);
    MulMono(0, x, x);
  }

  /** A positive factor of both sides can be dropped. */
  lemma Cancel(a: int, b: int, c: int)
    requires c > 0
    ensures a * c <= b * c <==> a <= b
    ensures a * c < b * c <==> a < b
  {
    if a < b { MulLess(a, b, c); }
    if b < a { MulLess(b, a, c); }
  }

  lemma LowerSide(r: nat, p: nat, d: nat, x: nat, g: nat, t: nat)
    requires p > 0 && r * p <= x * g && x * d <= t && Square(g) <= 640320 * Square(p)
    ensures Square(r * d) <= 640320 * Square(t)
  {
    assert r * d * p <= t * g by {
      MulMono(r * p, x * g, d);
      MulMono(x * d, t, g);
      Order(r, p, d);
      Order(x, g, d);
    }
    hide Square;
    MulMono(0, r, d);
    MulMono(0, r * d, p);
    SquareUp(r * d * p, t * g);
    SquareTimes(r * d, p);
    SquareTimes(t, g);
    SquareUp(0, t);
    Scaled(Square(t), Square(g), 640320 * Square(p));
    assert Square(t) * (640320 * Square(p)) == (640320 * Square(t)) * Square(p) by { Moved(Square(t), Square(p)); }
    SquarePlus(p);
    Cancel(Square(r * d), 640320 * Square(t), Square(p));
  }

  lemma Moved(x: int, y: int)
    ensures x * (640320 * y) == (640320 * x) * y
  {
  }

  lemma SquarePlus(p: nat)
    requires p > 0
    ensures Square(p) > 0
  {
    MulLess(0, p, p);
  }

  lemma Order(x: nat, y: nat, z: nat)
    ensures x * y * z == x * z * y
  {
    MulAssoc(x, y, z);
    MulAssoc(x, z, y);
    assert y * z == z * y;
  }

  lemma UpperSide(r: nat, p: nat, d: nat, x: nat, g: nat, t: nat)
    requires p > 0 && d > 0 && x * g < (r + 1) * p && t < (x + 1) * d && 640320 * Square(p) < Square(g + 1)
    requires x < p && g <= 801 * p
    ensures 640320 * Square(t) < Square((r + 804) * d)
  {
    assert (x + 1) * (g + 1) <= (r + 804) * p by {
      assert (x + 1) * (g + 1) == x * g + x + g + 1;
      MulDist(r, 1, p);
      MulDist(r, 804, p);
    }
    hide Square;
    var u := (x + 1) * d;
    MulLess(0, x + 1, d);
    SquareUp(t, u);
    SquareUp(0, t);
    SquarePlus(p);
    SquarePlus(u);
    assert Square(t) * (640320 * Square(p)) < Square(u) * Square(g + 1) by {
      MulMono(Square(t), Square(u), 640320 * Square(p));
      MulLess(640320 * Square(p), Square(g + 1), Square(u));
    }
    Moved(Square(t), Square(p));
    SquareTimes(u, g + 1);
    assert u * (g + 1) <= (r + 804) * d * p by {
      Order(x + 1, d, g + 1);
      MulMono((x + 1) * (g + 1), (r + 804) * p, d);
      Order(r + 804, p, d);
    }
    MulLess(0, u, g + 1);
    SquareUp(u * (g + 1), (r + 804) * d * p);
    SquareTimes((r + 804) * d, p);
    Cancel(640320 * Square(t), Square((r + 804) * d), Square(p));
  }
}
