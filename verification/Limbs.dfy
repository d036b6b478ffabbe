/** Numbers on 32-bit limbs: powers, the value of a limb table, division by a limb with a
    precomputed inverse. */
module Limbs {

  const BASE: nat := 0x1_0000_0000
  const LIMB_BITS: nat := 32

  type Limb = x: int | 0 <= x < 0x1_0000_0000

  // Products.

  lemma MulAssoc(a: int, b: int, c: int)
    ensures (a * b) * c == a * (b * c)
  {
  }

  lemma MulDist(a: int, b: int, c: int)
    ensures (a + b) * c == a * c + b * c && (a - b) * c == a * c - b * c
  {
  }

  lemma MulMono(a: int, b: int, c: int)
    requires a <= b && c >= 0
    ensures a * c <= b * c
  {
  }

  lemma MulLess(a: int, b: int, c: int)
    requires a < b && c > 0
    ensures a * c < b * c
  {
  }

  lemma MulSwap(a: int, b: int, c: int, d: int)
    ensures (a * b) * (c * d) == (a * c) * (b * d)
  {
    MulAssoc(a, b, c * d);
    MulAssoc(b, c, d);
    assert b * c == c * b;
    MulAssoc(c, b, d);
    MulAssoc(a, c, b * d);
  }

  // Powers.

  function Pow(b: nat, e: nat): (r: nat)
    ensures b > 0 ==> r > 0
  {
    if e == 0 then 1 else b * Pow(b, e - 1)
  }

  /** The first powers, one factor at a time. */
  lemma PowChain(b: nat)
    ensures Pow(b, 1) == b && Pow(b, 2) == b * Pow(b, 1) && Pow(b, 3) == b * Pow(b, 2) && Pow(b, 4) == b * Pow(b, 3)
    ensures Pow(b, 5) == b * Pow(b, 4) && Pow(b, 6) == b * Pow(b, 5) && Pow(b, 7) == b * Pow(b, 6)
    ensures Pow(b, 8) == b * Pow(b, 7) && Pow(b, 9) == b * Pow(b, 8) && Pow(b, 10) == b * Pow(b, 9)
    ensures Pow(b, 11) == b * Pow(b, 10) && Pow(b, 12) == b * Pow(b, 11) && Pow(b, 13) == b * Pow(b, 12)
  {
    hide Pow;
    PowSucc(b, 0);
    PowSucc(b, 1);
    PowSucc(b, 2);
    PowSucc(b, 3);
    PowSucc(b, 4);
    PowSucc(b, 5);
    PowSucc(b, 6);
    PowSucc(b, 7);
    PowSucc(b, 8);
    PowSucc(b, 9);
    PowSucc(b, 10);
    PowSucc(b, 11);
    PowSucc(b, 12);
  }

  /** n shifted left by j. */
  function Shl(n: nat, j: nat): nat {
    n * Pow(2, j)
  }

  lemma PowZero(b: nat)
    ensures Pow(b, 0) == 1
  {
  }

  lemma PowSucc(b: nat, e: nat)
    ensures Pow(b, e + 1) == b * Pow(b, e) == Pow(b, e) * b
    ensures e == 0 ==> Pow(b, 1) == b
  {
  }

  lemma {:induction false} PowAdd(b: nat, i: nat, j: nat)
    ensures Pow(b, i + j) == Pow(b, i) * Pow(b, j)
  {
    if i > 0 {
      PowAdd(b, i - 1, j);
      MulAssoc(b, Pow(b, i - 1), Pow(b, j));
    }
  }

  lemma {:induction false} PowMul(b: nat, i: nat, j: nat)
    ensures Pow(Pow(b, i), j) == Pow(b, i * j)
  {
    if j > 0 {
      PowMul(b, i, j - 1);
      assert i * j == i + i * (j - 1);
      PowAdd(b, i, i * (j - 1));
    } else {
      assert i * j == 0;
    }
  }

  lemma {:induction false} PowProduct(a: nat, b: nat, e: nat)
    ensures Pow(a * b, e) == Pow(a, e) * Pow(b, e)
  {
    if e > 0 {
      PowProduct(a, b, e - 1);
      MulSwap(a, b, Pow(a, e - 1), Pow(b, e - 1));
    }
  }

  lemma {:induction false} PowMono(b: nat, i: nat, j: nat)
    requires b > 0 && i <= j
    ensures Pow(b, i) <= Pow(b, j)
  {
    PowAdd(b, i, j - i);
    MulMono(1, Pow(b, j - i), Pow(b, i));
  }

  lemma {:induction false} PowLess(b: nat, i: nat, j: nat)
    requires b > 1 && i < j
    ensures Pow(b, i) < Pow(b, j)
  {
    PowMono(b, i + 1, j);
    var x := Pow(b, i);
    assert b * x > x;
  }

  lemma {:induction false} PowZeroOne(e: nat)
    ensures Pow(1, e) == 1
  {
    if e > 0 {
      PowZeroOne(e - 1);
    }
  }

  lemma PowLimb()
    ensures Pow(2, LIMB_BITS) == BASE
  {
    PowAdd(2, 16, 16);
    PowAdd(2, 8, 8);
    assert Pow(2, 4) == 16;
    PowAdd(2, 4, 4);
  }

  lemma PowLimbs(n: nat)
    ensures Pow(2, LIMB_BITS * n) == Pow(BASE, n)
  {
    PowLimb();
    PowMul(2, LIMB_BITS, n);
  }

  lemma PowSplit(shift: nat)
    requires shift <= LIMB_BITS
    ensures Pow(2, shift) * Pow(2, LIMB_BITS - shift) == BASE
  {
    PowLimb();
    PowAdd(2, shift, LIMB_BITS - shift);
  }

  // The value of a table, least significant limb first.

  function Value(s: seq<Limb>): nat {
    if s == [] then 0 else s[0] + BASE * Value(s[1..])
  }

  lemma {:induction false} ValueAppend(a: seq<Limb>, b: seq<Limb>)
    ensures Value(a + b) == Value(a) + Pow(BASE, |a|) * Value(b)
  {
    if a == [] {
      assert a + b == b;
    } else {
      assert (a + b)[1..] == a[1..] + b;
      ValueAppend(a[1..], b);
      MulAssoc(BASE, Pow(BASE, |a| - 1), Value(b));
    }
  }

  lemma ValueOne(x: Limb)
    ensures Value([x]) == x
  {
    assert [x][1..] == [];
    assert Value([x][1..]) == 0;
  }

  lemma {:induction false} ValueBound(s: seq<Limb>)
    ensures Value(s) < Pow(BASE, |s|)
  {
    if s != [] {
      ValueBound(s[1..]);
    }
  }

  lemma ValueTop(s: seq<Limb>)
    requires s != []
    ensures Value(s) == Value(s[..|s| - 1]) + s[|s| - 1] * Pow(BASE, |s| - 1)
    ensures s[|s| - 1] * Pow(BASE, |s| - 1) <= Value(s) < (s[|s| - 1] + 1) * Pow(BASE, |s| - 1)
  {
    var n, x := |s| - 1, s[|s| - 1];
    assert s[..n + 1] == s;
    ValuePrefix(s, n);
    ValueBound(s[..n]);
    hide Value, Pow;
    MulDist(x, 1, Pow(BASE, n));
  }

  lemma ValuePrefix(s: seq<Limb>, i: nat)
    requires i < |s|
    ensures Value(s[..i + 1]) == Value(s[..i]) + s[i] * Pow(BASE, i)
  {
    assert s[..i + 1] == s[..i] + [s[i]];
    ValueAppend(s[..i], [s[i]]);
    ValueOne(s[i]);
  }

  lemma ValueSuffix(s: seq<Limb>, i: nat)
    requires i < |s|
    ensures Value(s[i..]) == s[i] + BASE * Value(s[i + 1..])
  {
    assert s[i..][1..] == s[i + 1..];
  }

  // Euclidean division.

  lemma DivUnique(n: int, d: int, q: int, r: int)
    requires d > 0 && n == q * d + r && 0 <= r < d
    ensures q == n / d && r == n % d
  {
    var q1, r1 := n / d, n % d;
    MulDist(q, q1, d);
    if q > q1 {
      MulMono(1, q - q1, d);
    } else if q < q1 {
      MulMono(q - q1, -1, d);
    }
  }

  lemma DivIs(n: int, d: int, q: int, r: int)
    requires d > 0 && n == d * q + r && 0 <= r < d
    ensures n / d == q && n % d == r
  {
    assert d * q == q * d;
    DivUnique(n, d, q, r);
  }

  // Division of two limbs by a normalized limb, in wrapping arithmetic.

  /** udiv1norm_init. */
  function UDiv1NormInit(d: Limb): Limb
    requires d >= 0x8000_0000
  {
    var a1: int := (-(d as int) - 1) % BASE;
    ((a1 * BASE + (BASE - 1)) / d) % BASE
  }

  /** The inverse is floor((2^64 - 1) / d) - 2^32. */
  lemma InverseIs(d: Limb)
    requires d >= 0x8000_0000
    ensures var v := UDiv1NormInit(d) + BASE;
      BASE * BASE - d <= v * d < BASE * BASE
  {
    var a1: int := (-(d as int) - 1) % BASE;
    DivUnique(-(d as int) - 1, BASE, -1, BASE - d - 1);
    var n: int := a1 * BASE + (BASE - 1);
    var q: int := n / d;
    assert n == BASE * BASE - 1 - d * BASE;
    assert n == q * d + n % d;
    if q >= BASE { MulMono(BASE, q, d); }
    if q < 0 { MulMono(q, -1, d); }
    MulDist(q, BASE, d);
  }

  /** The first estimate of udiv1norm, before any wrap-around is undone. */
  function QuotientEstimate(a1: int, a0: int, d: int, dInv: int): int {
    var t := if a0 >= 0x8000_0000 then 1 else 0;
    (dInv * (a1 + t) + a0 + t * (d - BASE)) / BASE + a1
  }

  /** BASE times the remainder of the estimate, up to the part lost in its division. */
  lemma EstimateError(a1: int, a0: int, d: int, v: int, k: int, t: int)
    requires v * d == BASE * BASE - k && (t == 0 || t == 1)
    ensures BASE * (a1 * BASE + a0) - (v * (a1 + t) + a0 + t * (d - 2 * BASE)) * d
         == (if t == 0 then a0 * (BASE - d) else (BASE - d) * (a0 + d - BASE)) + k * (a1 + t)
  {
    var w := a1 + t;
    MulAssoc(v, w, d);
    MulAssoc(v, d, w);
    assert w * d == d * w;
    assert (v * w) * d == (BASE * BASE - k) * w;
    MulDist(BASE * BASE, k, w);
    MulDist(v * w, a0 + t * (d - 2 * BASE), d);
    MulDist(a0, t * (d - 2 * BASE), d);
    if t == 1 {
      MulDist(d, 2 * BASE, d);
      MulDist(BASE, d, a0 + d - BASE);
      MulDist(a0, d - BASE, d);
      MulDist(d, BASE, d);
    }
  }

  lemma ErrorBounds(a1: int, a0: int, d: int, k: int, t: int)
    requires 0x8000_0000 <= d < BASE && 0 <= a1 < d && 0 <= a0 < BASE && 1 <= k <= d
    requires t == if a0 >= 0x8000_0000 then 1 else 0
    ensures 0 <= (if t == 0 then a0 * (BASE - d) else (BASE - d) * (a0 + d - BASE)) + k * (a1 + t) < d * BASE + d
  {
    MulMono(0, k, a1 + t);
    MulMono(k, d, a1 + t);
    if t == 0 {
      MulMono(0, a0, BASE - d);
      MulMono(a0, d - 1, BASE - d);
      MulDist(d, 1, BASE - d);
      MulMono(a1, d - 1, d);
      MulDist(d, 1, d);
    } else {
      MulMono(0, BASE - d, a0 + d - BASE);
      MulMono(a0 + d - BASE, d - 1, BASE - d);
      MulDist(BASE, d, d - 1);
      MulMono(a1 + t, d, d);
      MulDist(d, 1, d);
    }
  }

  /** The estimate is the quotient or one less (Granlund and Montgomery, 1994). */
  lemma EstimateClose(a1: int, a0: int, d: Limb)
    requires d >= 0x8000_0000 && 0 <= a1 < d && 0 <= a0 < BASE
    ensures var q := QuotientEstimate(a1, a0, d, UDiv1NormInit(d));
      0 <= a1 * BASE + a0 - q * d < 2 * d
  {
    var t := if a0 >= 0x8000_0000 then 1 else 0;
    var dInv := UDiv1NormInit(d);
    var v: int := dInv + BASE;
    InverseIs(d);
    hide UDiv1NormInit;
    var k := BASE * BASE - v * d;
    var y := dInv * (a1 + t) + a0 + t * (d - BASE);
    var x := y + a1 * BASE;
    var q := QuotientEstimate(a1, a0, d, dInv);
    var e := y % BASE;
    assert x == q * BASE + e;
    MulDist(dInv, BASE, a1 + t);
    assert x == v * (a1 + t) + a0 + t * (d - 2 * BASE);
    EstimateError(a1, a0, d, v, k, t);
    ErrorBounds(a1, a0, d, k, t);
    MulDist(q * BASE, e, d);
    MulAssoc(BASE, q, d);
    assert q * BASE == BASE * q;
    MulMono(0, e, d);
    MulMono(e, BASE - 1, d);
  }

  /** mask & d, where mask has all bits equal. */
  function Masked(mask: int, d: Limb): Limb {
    if mask == BASE - 1 then d else 0
  }

  /** The first half of udiv1norm, with every operation modulo 2^32 or 2^64. */
  function WrappedEstimate(a1: Limb, a0: Limb, d: Limb, dInv: Limb): Limb {
    var n1m: int := if a0 >= 0x8000_0000 then BASE - 1 else 0;
    var nAdj: int := (a0 + Masked(n1m, d)) % BASE;
    (HighWord(dInv, (a1 - n1m) % BASE, nAdj) + a1) % BASE
  }

  /** The high word of x y + z in 64 bits. */
  function HighWord(x: int, y: int, z: int): int {
    (x * y + z) % (BASE * BASE) / BASE
  }

  /** The second half: the remainder is brought between 0 and d - 1. */
  function WrappedCorrection(n: int, d: Limb, q: Limb): (Limb, Limb) {
    var a: int := (n - q * d - d) % (BASE * BASE);
    var ah: int := a / BASE;
    ((q + 1 + ah) % BASE, (a % BASE + Masked(ah, d)) % BASE)
  }

  /** udiv1norm: quotient and remainder. */
  function UDiv1Norm(a1: Limb, a0: Limb, d: Limb, dInv: Limb): (Limb, Limb) {
    WrappedCorrection(a1 * BASE + a0, d, WrappedEstimate(a1, a0, d, dInv))
  }

  lemma ModIs(x: int, m: int, k: int)
    requires m > 0 && k * m <= x < k * m + m
    ensures x % m == x - k * m
  {
    DivUnique(x, m, k, x - k * m);
  }

  lemma HighWordIs(dInv: Limb, w: int, nAdj: int)
    requires 0 <= w < BASE && 0 <= nAdj < BASE
    ensures 0 <= dInv * w + nAdj && HighWord(dInv, w, nAdj) == (dInv * w + nAdj) / BASE
  {
    MulMono(0, dInv, w);
    MulMono(dInv, BASE - 1, w);
    ModIs(dInv * w + nAdj, BASE * BASE, 0);
  }

  /** The wrapped sums are those of the estimate. */
  lemma EstimateWraps(a1: Limb, a0: Limb, d: Limb, dInv: Limb)
    requires d >= 0x8000_0000 && a1 < d
    ensures QuotientEstimate(a1, a0, d, dInv) >= 0
    ensures WrappedEstimate(a1, a0, d, dInv) == QuotientEstimate(a1, a0, d, dInv) % BASE
  {
    hide HighWord;
    if a0 >= 0x8000_0000 {
      ModIs(a1 - (BASE - 1), BASE, -1);
      ModIs(a0 + d, BASE, 1);
      HighWordIs(dInv, a1 + 1, a0 + d - BASE);
    } else {
      ModIs(a1, BASE, 0);
      ModIs(a0, BASE, 0);
      HighWordIs(dInv, a1, a0);
    }
  }

  /** The correction step, from an estimate that is exact or one too small. */
  lemma Corrected(n: int, d: Limb, q: Limb)
    requires d > 0 && 0 <= n - q * d < 2 * d && 0 <= n / d < BASE
    ensures WrappedCorrection(n, d, q) == (n / d, n % d)
  {
    var x := n - q * d - d;
    MulDist(q, 1, d);
    if x >= 0 {
      DivUnique(n, d, q + 1, x);
    } else {
      DivUnique(n, d, q, x + d);
    }
    CorrectedBy(x, d, q);
  }

  /** The 64-bit remainder minus d, and what its high word says. */
  lemma CorrectedBy(x: int, d: Limb, q: Limb)
    requires -(d as int) <= x < d && q + (if x >= 0 then 1 else 0) < BASE
    ensures var a := x % (BASE * BASE);
      ((q + 1 + a / BASE) % BASE, (a % BASE + Masked(a / BASE, d)) % BASE)
      == if x >= 0 then (q + 1, x) else (q as int, x + d)
  {
    if x >= 0 {
      ModIs(x, BASE * BASE, 0);
      ModIs(q + 1, BASE, 0);
    } else {
      ModIs(x, BASE * BASE, -1);
      var b := x + BASE * BASE;
      assert b / BASE == BASE - 1 && b % BASE == x + BASE;
      ModIs(q + BASE, BASE, 1);
      ModIs(x + BASE + d, BASE, 1);
    }
  }

  /** udiv1norm is exact for every normalized divisor and every dividend below d * 2^32. */
  lemma UDivExact(a1: Limb, a0: Limb, d: Limb)
    requires d >= 0x8000_0000 && a1 < d
    ensures UDiv1Norm(a1, a0, d, UDiv1NormInit(d)) == ((a1 * BASE + a0) / d, (a1 * BASE + a0) % d)
  {
    hide UDiv1NormInit, QuotientEstimate, WrappedEstimate, WrappedCorrection;
    var dInv := UDiv1NormInit(d);
    var n: int := a1 * BASE + a0;
    var q := QuotientEstimate(a1, a0, d, dInv);
    EstimateClose(a1, a0, d);
    EstimateWraps(a1, a0, d, dInv);
    MulMono(a1, d - 1, BASE);
    QuotientBelow(n, d, q);
    ModIs(q, BASE, 0);
    Corrected(n, d, q);
  }

  lemma QuotientBelow(n: int, d: Limb, q: int)
    requires d > 0 && 0 <= n < d * BASE && 0 <= n - q * d < 2 * d && q >= 0
    ensures 0 <= n / d < BASE && q < BASE
  {
    var q1: int := n / d;
    assert n == q1 * d + n % d;
    if q1 >= BASE { MulMono(BASE, q1, d); }
    if q1 < 0 { MulMono(q1, -1, d); }
    if q >= BASE { MulMono(BASE, q, d); }
  }
}
