/** Multiplying a number by a power of the radix, and rounding the product once. */
module Scaling {
  import opened Limbs
  import opened Bignum
  import opened RealRounding

  // Powers of small integers.

  const POW5: seq<nat> := [
    0x00000005, 0x00000019, 0x0000007d, 0x00000271,
    0x00000c35, 0x00003d09, 0x0001312d, 0x0005f5e1,
    0x001dcd65, 0x009502f9, 0x02e90edd, 0x0e8d4a51,
    0x48c27395, 0x6bcc41e9, 0x1afd498d, 0x86f26fc1,
    0xa2bc2ec5
  ]

  const POW5_HIGH: seq<nat> := [0x00000001, 0x00000007, 0x00000023, 0x000000b1]

  const POW5_INV: seq<nat> := [
    0x99999999, 0x47ae147a, 0x0624dd2f, 0xa36e2eb1,
    0x4f8b588e, 0x0c6f7a0b, 0xad7f29ab, 0x5798ee23,
    0x12e0be82, 0xb7cdfd9d, 0x5fd7fe17, 0x19799812,
    0xc25c2684
  ]

  function Pow5Entry(b: nat): nat
    requires 1 <= b <= 17
  {
    POW5[b - 1] + if b >= 14 then POW5_HIGH[b - 14] * BASE else 0
  }

  lemma Pow5Table(b: nat)
    requires 1 <= b <= 17
    ensures Pow5Entry(b) == Pow(5, b)
  {
    assert Pow(5, 1) == 5 && Pow(5, 2) == 25 && Pow(5, 3) == 125 && Pow(5, 4) == 625 && Pow(5, 5) == 3125;
    assert Pow(5, 6) == 15625 && Pow(5, 7) == 78125 && Pow(5, 8) == 390625 && Pow(5, 9) == 1953125;
    assert Pow(5, 10) == 9765625 && Pow(5, 11) == 48828125 && Pow(5, 12) == 244140625 && Pow(5, 13) == 1220703125;
    assert Pow(5, 14) == 6103515625 && Pow(5, 15) == 30517578125 && Pow(5, 16) == 152587890625;
    assert Pow(5, 17) == 762939453125;
  }

  lemma Pow2Table()
    ensures Pow(2, 1) == 2 && Pow(2, 4) == 16 && Pow(2, 6) == 64 && Pow(2, 8) == 256 && Pow(2, 11) == 2048
      && Pow(2, 13) == 8192
    ensures Pow(2, 15) == 32768 && Pow(2, 18) == 262144 && Pow(2, 20) == 1048576 && Pow(2, 22) == 4194304
      && Pow(2, 25) == 33554432 && Pow(2, 27) == 134217728 && Pow(2, 29) == 536870912
  {
    assert Pow(2, 1) == 2 && Pow(2, 2) == 4 && Pow(2, 3) == 8 && Pow(2, 4) == 16;
    assert Pow(2, 5) == 32 && Pow(2, 6) == 64 && Pow(2, 7) == 128 && Pow(2, 8) == 256;
    assert Pow(2, 9) == 512 && Pow(2, 10) == 1024 && Pow(2, 11) == 2048 && Pow(2, 12) == 4096;
    assert Pow(2, 13) == 8192 && Pow(2, 14) == 16384 && Pow(2, 15) == 32768 && Pow(2, 16) == 65536;
    assert Pow(2, 17) == 131072 && Pow(2, 18) == 262144 && Pow(2, 19) == 524288 && Pow(2, 20) == 1048576;
    assert Pow(2, 21) == 2097152 && Pow(2, 22) == 4194304 && Pow(2, 23) == 8388608 && Pow(2, 24) == 16777216;
    assert Pow(2, 25) == 33554432 && Pow(2, 26) == 67108864 && Pow(2, 27) == 134217728 && Pow(2, 28) == 268435456;
    assert Pow(2, 29) == 536870912;
  }

  lemma InverseCase(x: nat, k: nat, p: nat, d: Limb, inv: nat)
    requires k <= 31 && Pow(2, k) == p && d == x * p && d >= 0x8000_0000 && inv == UDiv1NormInit(d)
    ensures Clz32(x) == k && x * Pow(2, Clz32(x)) == d && inv == UDiv1NormInit(d)
  {
    PowSplit(k);
    PowAdd(2, 31 - k, k);
    PowAdd(2, 31, 1);
    PowLimb();
    NormalizedTop(x, p, Pow(2, 31 - k), Pow(2, 32 - k));
    BitLenUnique(x, 31 - k);
  }

  lemma NormalizedTop(x: nat, p: nat, low: nat, high: nat)
    requires p > 0 && low * p == 0x8000_0000 && p * high == BASE && 0x8000_0000 <= x * p < BASE
    ensures low <= x < high
  {
    assert high * p == p * high;
    if x < low { MulLess(x, low, p); }
    if x >= high { MulMono(high, x, p); }
  }

  /** The normalized powers of five and the stored inverses. */
  lemma Pow5InvTable(b: nat)
    requires 1 <= b <= 13
    ensures POW5[b - 1] < BASE && 0 <= Clz32(POW5[b - 1]) < LIMB_BITS
    ensures 0x8000_0000 <= POW5[b - 1] * Pow(2, Clz32(POW5[b - 1])) < BASE
    ensures POW5_INV[b - 1] == UDiv1NormInit(POW5[b - 1] * Pow(2, Clz32(POW5[b - 1])))
  {
    Pow2Table();
    hide Pow, Clz32;
    if b == 1 { InverseCase(5, 29, 536870912, 2684354560, 0x99999999); }
    if b == 2 { InverseCase(25, 27, 134217728, 3355443200, 0x47ae147a); }
    if b == 3 { InverseCase(125, 25, 33554432, 4194304000, 0x0624dd2f); }
    if b == 4 { InverseCase(625, 22, 4194304, 2621440000, 0xa36e2eb1); }
    if b == 5 { InverseCase(3125, 20, 1048576, 3276800000, 0x4f8b588e); }
    if b == 6 { InverseCase(15625, 18, 262144, 4096000000, 0x0c6f7a0b); }
    if b == 7 { InverseCase(78125, 15, 32768, 2560000000, 0xad7f29ab); }
    if b == 8 { InverseCase(390625, 13, 8192, 3200000000, 0x5798ee23); }
    if b == 9 { InverseCase(1953125, 11, 2048, 4000000000, 0x12e0be82); }
    if b == 10 { InverseCase(9765625, 8, 256, 2500000000, 0xb7cdfd9d); }
    if b == 11 { InverseCase(48828125, 6, 64, 3125000000, 0x5fd7fe17); }
    if b == 12 { InverseCase(244140625, 4, 16, 3906250000, 0x19799812); }
    if b == 13 { InverseCase(1220703125, 1, 2, 2441406250, 0xc25c2684); }
  }

  /** pow_ui, in 64-bit arithmetic. */
  method PowUi(a: Limb, b: nat) returns (r: nat)
    requires a >= 1 && Pow(a, b) < BASE * BASE
    ensures r == Pow(a, b)
  {
    hide Pow, Pow5Entry, Times64, Bit, PowBits, BitLen;
    PowZero(a);
    if b == 0 { return 1; }
    PowSucc(a, 0);
    if b == 1 { return a; }
    if (a == 5 || a == 10) && b <= 17 {
      Pow5Table(b);
      PowProduct(5, 2, b);
      r := Pow5Entry(b);
      if a == 10 {
        Times64Is(r, Pow(2, b));
        r := Times64(r, Pow(2, b));
      }
      return;
    }
    PowStart(a, b);
    r := a;
    var i := BitLen(b) - 1;
    while i > 0
      invariant 0 <= i && PowBits(r, a, b, i)
      decreases i
    {
      i := i - 1;
      PowStep(a, b, i, r);
      r := Times64(r, r);
      if Bit(b, i) {
        r := Times64(r, a);
      }
    }
    PowEnd(r, a, b);
  }

  /** A product in 64-bit arithmetic. */
  function Times64(x: nat, y: nat): nat {
    x * y % (BASE * BASE)
  }

  predicate Bit(b: nat, i: nat) {
    b / Pow(2, i) % 2 == 1
  }

  /** r is the power with the high bits of the exponent, from bit i up. */
  ghost predicate PowBits(r: nat, a: nat, b: nat, i: nat) {
    r == Pow(a, b / Pow(2, i))
  }

  lemma Times64Is(x: nat, y: nat)
    requires x * y < BASE * BASE
    ensures Times64(x, y) == x * y
  {
    DivUnique(x * y, BASE * BASE, 0, x * y);
  }

  lemma PowStart(a: nat, b: nat)
    requires b > 0
    ensures BitLen(b) > 0 && PowBits(a, a, b, BitLen(b) - 1)
  {
    BitLenIs(b);
    PowTop(b, BitLen(b) - 1);
    PowSucc(a, 0);
  }

  lemma PowEnd(r: nat, a: nat, b: nat)
    requires PowBits(r, a, b, 0)
    ensures r == Pow(a, b)
  {
    PowZero(2);
    DivUnique(b, 1, b, 0);
    hide Pow;
  }

  lemma PowStep(a: Limb, b: nat, i: nat, r: nat)
    requires a >= 1 && Pow(a, b) < BASE * BASE && PowBits(r, a, b, i + 1)
    ensures PowBits(if Bit(b, i) then Times64(Times64(r, r), a) else Times64(r, r), a, b, i)
  {
    hide Pow, Times64;
    var n := b / Pow(2, i);
    PowHalves(b, i);
    var h := n / 2;
    PowAdd(a, h, h);
    PowMonoDiv(a, b, Pow(2, i));
    PowMono(a, h + h, n);
    Times64Is(r, r);
    if n % 2 == 1 {
      PowSucc(a, h + h);
      Times64Is(r * r, a);
    }
  }

  lemma PowTop(b: nat, i: nat)
    requires Pow(2, i) <= b < Pow(2, i + 1)
    ensures b / Pow(2, i) == 1
  {
    DivUnique(b, Pow(2, i), 1, b - Pow(2, i));
  }

  lemma PowHalves(b: nat, i: nat)
    ensures b / Pow(2, i) / 2 == b / Pow(2, i + 1) && b / Pow(2, i) >= 0
  {
    PowAdd(2, i, 1);
    PowSucc(2, 0);
    DivDiv(b, Pow(2, i), 2);
  }

  lemma PowMonoDiv(a: nat, b: nat, d: nat)
    requires a > 0 && d > 0
    ensures b / d >= 0 && Pow(a, b / d) <= Pow(a, b)
  {
    if b / d > b { MulMono(b + 1, b / d, d); MulMono(1, d, b + 1); }
    PowMono(a, b / d, b);
  }

  /** pow_ui_inv: the power, normalized by a shift, and its inverse. */
  method PowUiInv(a: Limb, b: nat) returns (r: Limb, inv: Limb, shift: nat)
    requires a >= 1 && b >= 1 && Pow(a, b) < BASE
    ensures shift < LIMB_BITS && r == Shifted(Pow(a, b), Pow(2, shift), 0)
    ensures r >= 0x8000_0000 && inv == UDiv1NormInit(r)
  {
    hide UDiv1NormInit, Pow, Pow5Entry;
    if a == 5 && b <= 13 {
      Pow5InvTable(b);
      Pow5Table(b);
      Pow5Low(b);
      shift := Clz32(POW5[b - 1]);
      r := POW5[b - 1] * Pow(2, shift);
      inv := POW5_INV[b - 1];
    } else {
      var x := PowUi(a, b);
      Normalizes(x);
      shift := Clz32(x);
      r := x * Pow(2, shift);
      inv := UDiv1NormInit(r);
    }
  }

  lemma Pow5Low(b: nat)
    requires 1 <= b <= 13
    ensures Pow5Entry(b) == POW5[b - 1]
  {
  }

  lemma Normalizes(x: Limb)
    requires x > 0
    ensures 0 <= Clz32(x) < LIMB_BITS && 0x8000_0000 <= x * Pow(2, Clz32(x)) < BASE
  {
    var k := BitLen(x);
    BitLenIs(x);
    PowLimb();
    if k > LIMB_BITS { PowMono(2, LIMB_BITS, k - 1); }
    var p := Pow(2, LIMB_BITS - k);
    PowAdd(2, k, LIMB_BITS - k);
    PowSucc(2, k - 1);
    MulMono(Pow(2, k - 1), x, p);
    MulLess(x, Pow(2, k), p);
    MulAssoc(2, Pow(2, k - 1), p);
  }

  // The number of digits that fit in a limb.

  const DIGITS_PER_LIMB: seq<nat> := [
    32, 20, 16, 13, 12, 11, 10, 10, 9, 9, 8, 8, 8, 8, 8, 7, 7, 7, 7, 7, 7, 7, 6, 6, 6, 6, 6, 6, 6, 6, 6, 6, 6, 6, 6
  ]

  predicate OddRadix(radix: nat) {
    1 <= radix <= 35 && radix % 2 == 1
  }

  lemma ThreeDigitsFit()
    ensures Pow(3, 20) == 3486784401
  {
    hide Pow;
    PowChain(3);
    PowAdd(3, 10, 10);
  }

  lemma SmallDigitsFit(radix: nat)
    requires OddRadix(radix) && 3 <= radix < 19
    ensures DIGITS_PER_LIMB[radix - 2] >= 1 && Pow(radix, DIGITS_PER_LIMB[radix - 2]) < BASE
  {
    hide Pow;
    if radix == 3 { ThreeDigitsFit(); }
    if radix == 5 { PowChain(5); }
    if radix == 7 { PowChain(7); }
    if radix == 9 { PowChain(9); }
    if radix == 11 { PowChain(11); }
    if radix == 13 { PowChain(13); }
    if radix == 15 { PowChain(15); }
    if radix == 17 { PowChain(17); }
  }

  lemma LargeDigitsFit(radix: nat)
    requires OddRadix(radix) && radix >= 19
    ensures DIGITS_PER_LIMB[radix - 2] >= 1 && Pow(radix, DIGITS_PER_LIMB[radix - 2]) < BASE
  {
    hide Pow;
    if radix == 19 { PowChain(19); }
    if radix == 21 { PowChain(21); }
    if radix == 23 { PowChain(23); }
    if radix == 25 { PowChain(25); }
    if radix == 27 { PowChain(27); }
    if radix == 29 { PowChain(29); }
    if radix == 31 { PowChain(31); }
    if radix == 33 { PowChain(33); }
    if radix == 35 { PowChain(35); }
  }
  lemma OddDigitsFit(radix: nat)
    requires OddRadix(radix) && radix != 1
    ensures DIGITS_PER_LIMB[radix - 2] >= 1 && Pow(radix, DIGITS_PER_LIMB[radix - 2]) < BASE
  {
    if radix < 19 { SmallDigitsFit(radix); } else { LargeDigitsFit(radix); }
  }

  // Division by a power, keeping a sticky bit.

  /** n / d with its lowest bit set when the division is not exact. */
  function Sticky(n: nat, d: nat): nat
    requires d > 0
  {
    if n % d != 0 && n / d % 2 == 0 then n / d + 1 else n / d
  }

  /** With two bits to spare the sticky bit is as good as the whole remainder. */
  lemma StickyRound(n: nat, d: nat, s: nat, mode: Rounding)
    requires d > 0 && s >= 2
    ensures Shl(d, s) > 0
    ensures RoundQ(Sticky(n, d), Pow(2, s), mode) == RoundQ(n, Shl(d, s), mode)
  {
    hide Pow, RoundQ;
    var p, h := Pow(2, s), Pow(2, s - 2);
    PowAdd(2, s - 2, 2);
    Pow2Small();
    assert p == 4 * h;
    StickyParts(n, d, p, h);
    SameRounding(Sticky(n, d), p, n, d * p, mode);
  }

  lemma Pow2Small()
    ensures Pow(2, 1) == 2 && Pow(2, 2) == 4
  {
  }

  lemma SameRounding(n1: nat, d1: nat, n2: nat, d2: nat, mode: Rounding)
    requires d1 > 0 && d2 > 0 && n1 / d1 == n2 / d2
    requires 2 * (n1 % d1) < d1 <==> 2 * (n2 % d2) < d2
    requires 2 * (n1 % d1) > d1 <==> 2 * (n2 % d2) > d2
    ensures RoundQ(n1, d1, mode) == RoundQ(n2, d2, mode)
  {
  }

  lemma StickyParts(n: nat, d: nat, p: nat, h: nat)
    requires d > 0 && p == 4 * h && h > 0
    ensures d * p > 0
    ensures Sticky(n, d) / p == n / (d * p)
    ensures 2 * (Sticky(n, d) % p) < p <==> 2 * (n % (d * p)) < d * p
    ensures 2 * (Sticky(n, d) % p) > p <==> 2 * (n % (d * p)) > d * p
  {
    DivParts(n, d);
    DivParts(n / d, p);
    StickyWith(n, d, p, h, n / d, n % d, n / d / p, n / d % p, Sticky(n, d));
  }

  lemma DivParts(n: nat, d: nat)
    requires d > 0
    ensures n / d >= 0 && 0 <= n % d < d && n == (n / d) * d + n % d
  {
    var q := n / d;
    if q < 0 { MulMono(q, -1, d); }
  }

  lemma StickyWith(n: nat, d: nat, p: nat, h: nat, q: nat, r: nat, a: nat, t: nat, v: nat)
    requires d > 0 && p == 4 * h && h > 0 && n == q * d + r && r < d && q == a * p + t && t < p
    requires v == if r != 0 && q % 2 == 0 then q + 1 else q
    ensures d * p > 0 && v / p == n / (d * p)
    ensures 2 * (v % p) < p <==> 2 * (n % (d * p)) < d * p
    ensures 2 * (v % p) > p <==> 2 * (n % (d * p)) > d * p
  {
    assert q == p * a + t;
    StickyDigits(q, r, p, h, a, t, v);
    NonZero(d, p);
    MulDist(a * p, t, d);
    MulAssoc(a, p, d);
    assert p * d == d * p && t * d == d * t;
    MulMono(t + 1, p, d);
    MulDist(t, 1, d);
    DivUnique(n, d * p, a, r + d * t);
    HalfCompare(r, d, t, h);
    assert d * p == d * (4 * h);
  }

  /** The sticky bit only changes the lowest digit in base p. */
  lemma StickyDigits(q: nat, r: nat, p: nat, h: nat, a: nat, t: nat, v: nat)
    requires p == 4 * h && h > 0 && v == if r != 0 && q % 2 == 0 then q + 1 else q
    requires q == p * a + t && t < p
    ensures v / p == a && v % p == if r != 0 && t % 2 == 0 then t + 1 else t
  {
    ParityOf(q, a, t, p, h);
    DivIs(v, p, a, if r != 0 && t % 2 == 0 then t + 1 else t);
  }

  lemma ParityOf(q: nat, a: nat, t: nat, p: nat, h: nat)
    requires q == p * a + t && p == 4 * h && t < p
    ensures q % 2 == t % 2 && (t % 2 == 0 ==> t + 1 < p)
  {
    MulAssoc(2, 2 * h, a);
    assert q == 2 * (2 * h * a) + t;
  }

  /** Comparing twice the remainder with the divisor, with and without the sticky bit. */
  lemma HalfCompare(r: nat, d: nat, t: nat, h: nat)
    requires r < d && t < 4 * h
    ensures var t1 := if r != 0 && t % 2 == 0 then t + 1 else t;
      && (2 * t1 < 4 * h <==> 2 * (r + d * t) < d * (4 * h))
      && (2 * t1 > 4 * h <==> 2 * (r + d * t) > d * (4 * h))
  {
    var c := d * (2 * h);
    assert d * (4 * h) == 2 * c;
    assert d * t == t * d && c == 2 * h * d;
    if t < 2 * h {
      MulMono(t + 1, 2 * h, d);
      MulDist(t, 1, d);
    } else {
      MulMono(2 * h, t, d);
      if t > 2 * h { MulMono(2 * h + 1, t, d); MulDist(2 * h, 1, d); }
    }
  }

  /** What the division loop of mul_pow has cached for n digits. */
  ghost predicate Cached(radix: Limb, n: nat, b: Limb, inv: Limb, shift: nat) {
    && shift < LIMB_BITS && b >= 0x8000_0000 && Pow(radix, n) < BASE
    && b == Shifted(Pow(radix, n), Pow(2, shift), 0) && inv == UDiv1NormInit(b)
  }

  /** The number has been divided by radix^k; rem tells whether something was lost. */
  ghost predicate DividedBy(v: nat, rem: bool, n: nat, radix: nat, k: nat)
    requires radix > 0
  {
    v == n / Pow(radix, k) && (rem <==> n % Pow(radix, k) != 0)
  }

  lemma DividedByNone(n: nat, radix: nat)
    requires radix > 0
    ensures DividedBy(n, false, n, radix, 0)
  {
    DivUnique(n, 1, n, 0);
  }

  lemma DividedByMore(v: nat, rem: bool, n: nat, radix: nat, k: nat, j: nat, v1: nat, r: nat)
    requires radix > 0 && DividedBy(v, rem, n, radix, k)
    requires v1 * Pow(radix, j) + r == v && r < Pow(radix, j)
    ensures DividedBy(v1, rem || r != 0, n, radix, k + j)
  {
    var p, d := Pow(radix, k), Pow(radix, j);
    PowAdd(radix, k, j);
    DivUnique(v, d, v1, r);
    DivDiv(n, p, d);
    hide Pow;
    NonZero(r, p);
  }

  /** One division of that loop, by radix^n. */
  method DivDigits(a: Mpb, ghost radix: Limb, ghost n: nat, b: Limb, inv: Limb, shift: nat) returns (r: Limb)
    requires a.Valid() && radix > 0 && Cached(radix, n, b, inv, shift)
    modifies a
    ensures a.Normal() && r < Pow(radix, n) && a.Val() * Pow(radix, n) + r == old(a.Val())
  {
    hide Pow, UDiv1NormInit, Shifted;
    r := a.MpDiv1Norm(PowOf(radix, n), b, 0, inv, shift);
    a.Renorm();
  }

  /** The division loop of mul_pow and the sticky bit after it. */
  method DivPow(a: Mpb, radix: Limb, k: nat)
    requires a.Valid() && OddRadix(radix) && radix != 1 && k > 0
    modifies a
    ensures a.Normal() && a.Val() == Sticky(old(a.Val()), Pow(radix, k))
  {
    var d := DIGITS_PER_LIMB[radix - 2];
    OddDigitsFit(radix);
    hide Cached, DividedBy, Pow, UDiv1NormInit, Sticky;
    var f, n0, rem := k, 0, false;
    var b: Limb, inv: Limb, shift: nat := 0, 0, 0;
    DividedByNone(a.Val(), radix);
    while f != 0
      invariant 0 <= f <= k && 0 <= n0 <= d && (f < k ==> a.Normal()) && a.Valid()
      invariant n0 != 0 ==> Cached(radix, n0, b, inv, shift)
      invariant DividedBy(a.Val(), rem, old(a.Val()), radix, k - f)
      decreases f
    {
      var n := if f < d then f else d;
      PowMono(radix, n, d);
      if n != n0 {
        b, inv, shift := PowUiInv(radix, n);
        IsCached(radix, n, b, inv, shift);
        n0 := n;
      }
      ghost var v := a.Val();
      var r := DivDigits(a, radix, n, b, inv, shift);
      DividedByMore(v, rem, old(a.Val()), radix, k - f, n, a.Val(), r);
      rem := rem || r != 0;
      f := f - n;
    }
    DividedIs(a.Val(), rem, old(a.Val()), radix, k);
    a.SetLowBit(rem);
  }

  ghost function PowOf(b: nat, e: nat): Limb
    requires Pow(b, e) < BASE
  {
    Pow(b, e)
  }

  lemma IsCached(radix: Limb, n: nat, b: Limb, inv: Limb, shift: nat)
    requires Pow(radix, n) < BASE && shift < LIMB_BITS && b >= 0x8000_0000
    requires b == Shifted(Pow(radix, n), Pow(2, shift), 0) && inv == UDiv1NormInit(b)
    ensures Cached(radix, n, b, inv, shift)
  {
  }

  lemma DividedIs(v: nat, rem: bool, n: nat, radix: nat, k: nat)
    requires radix > 0 && DividedBy(v, rem, n, radix, k)
    ensures Sticky(n, Pow(radix, k)) == if rem && v % 2 == 0 then v + 1 else v
  {
  }

  /** The multiplication loop of mul_pow. */
  method MulPower(a: Mpb, radix: Limb, k: nat)
    requires a.Normal() && OddRadix(radix) && radix != 1
    modifies a
    ensures a.Normal() && a.Val() == old(a.Val()) * Pow(radix, k)
  {
    var d := DIGITS_PER_LIMB[radix - 2];
    OddDigitsFit(radix);
    PowZero(radix);
    hide Pow, Value;
    var f, n0 := k, 0;
    var b: Limb := 0;
    while f != 0
      invariant 0 <= f <= k && 0 <= n0 <= d && a.Normal()
      invariant n0 != 0 ==> b == Pow(radix, n0)
      invariant a.Val() == old(a.Val()) * Pow(radix, k - f)
      decreases f
    {
      var n := if f < d then f else d;
      PowMono(radix, n, d);
      if n != n0 {
        var x := PowUi(radix, n);
        b := x;
        n0 := n;
      }
      ghost var v := a.Val();
      MulLimb(a, b);
      PowAdd(radix, k - f, n);
      MulAssoc(old(a.Val()), Pow(radix, k - f), Pow(radix, n));
      f := f - n;
    }
  }

  /** One multiplication, with its carry. */
  method MulLimb(a: Mpb, b: Limb)
    requires a.Normal() && b > 0
    modifies a
    ensures a.Normal() && a.Val() == old(a.Val()) * b
  {
    NormalIff(a.tab);
    hide Pow, Value;
    var h := a.MpMul1(b, 0);
    if h != 0 {
      AppendLimb(a.tab, h);
      a.tab := a.tab + [h];
    } else {
      MulMono(1, b, old(a.Val()));
      NormalIff(a.tab);
    }
  }

  /** What mul_pow promises: v0 * (radix1 * 2^radixShift)^f * 2^eOffset, exactly or with a sticky bit. */
  ghost predicate Multiplied(v0: nat, v: nat, radix1: nat, radixShift: nat, f: int, eOffset: int)
    requires radix1 > 0
  {
    var x := eOffset + f * radixShift;
    if radix1 == 1 || f >= 0 then x == 0 && v == v0 * Pow(radix1, if f >= 0 then f else 0)
    else x >= 0 && v == Sticky(Shl(v0, x), Pow(radix1, -f))
  }

  /** mul_pow. */
  method MulPow(a: Mpb, radix1: Limb, radixShift: nat, f: int, isInt: bool, e: int) returns (eOffset: int)
    requires a.Normal() && OddRadix(radix1) && (isInt || e >= 0)
    modifies a
    ensures a.Normal() && Multiplied(old(a.Val()), a.Val(), radix1, radixShift, f, eOffset)
    ensures radix1 != 1 && f < 0 && isInt ==> eOffset >= e + 2
    ensures radix1 != 1 && f < 0 && !isInt && old(a.Val()) > 0 ==> a.Val() >= Pow(2, e)
  {
    hide Pow, Value, Sticky;
    eOffset := -f * radixShift;
    if radix1 != 1 {
      if f >= 0 {
        MulPower(a, radix1, f);
      } else {
        var k, d := -f, DIGITS_PER_LIMB[radix1 - 2];
        OddDigitsFit(radix1);
        var l := (k + d - 1) / d;
        eOffset := eOffset + l * LIMB_BITS;
        var extra: int;
        if !isInt {
          var top := a.FloorLog2();
          extra := if e - top > 0 then e - top else 0;
          if a.Val() > 0 { EnoughBits(a.Val(), e, top, extra, l, radix1, k, d, l * LIMB_BITS + extra); }
        } else {
          extra := if 2 + e - eOffset > 0 then 2 + e - eOffset else 0;
        }
        eOffset := eOffset + extra;
        var x: int := l * LIMB_BITS + extra;
        a.ShrRound(-x, RNDZ);
        DivPow(a, radix1, k);
      }
    } else {
      PowZeroOne(if f >= 0 then f else 0);
    }
  }

  /** l limbs make up for the division by radix^k. */
  lemma EnoughBits(v: nat, e: nat, top: nat, extra: nat, l: nat, radix: nat, k: nat, d: nat, x: nat)
    requires radix > 0 && d > 0 && Pow(radix, d) < BASE && k <= l * d
    requires Pow(2, top) <= v && top + extra >= e && x == l * LIMB_BITS + extra
    ensures Sticky(Shl(v, x), Pow(radix, k)) >= Pow(2, e)
  {
    hide Pow, Sticky, Shl;
    ShlIs(v, x);
    DivisorBound(radix, k, d, l);
    LimbShift(l, extra, x);
    PowAdd(2, top, extra);
    PowMono(2, e, top + extra);
    EnoughProduct(v, Pow(2, top), Pow(2, extra), Pow(BASE, l), Pow(radix, k), Pow(2, x), Shl(v, x),
      Pow(2, top + extra));
    QuotientAtLeast(Shl(v, x), Pow(radix, k), Pow(2, top + extra));
  }

  lemma DivisorBound(radix: nat, k: nat, d: nat, l: nat)
    requires radix > 0 && Pow(radix, d) < BASE && k <= l * d
    ensures Pow(radix, k) <= Pow(BASE, l)
  {
    hide Pow;
    PowMono(radix, k, l * d);
    PowMul(radix, d, l);
    assert d * l == l * d;
    PowBaseMono(Pow(radix, d), BASE, l);
  }

  lemma LimbShift(l: nat, extra: nat, x: nat)
    requires x == l * LIMB_BITS + extra
    ensures Pow(2, x) == Pow(BASE, l) * Pow(2, extra)
  {
    hide Pow;
    PowLimbs(l);
    PowAdd(2, LIMB_BITS * l, extra);
    assert LIMB_BITS * l + extra == x;
  }

  lemma EnoughProduct(v: nat, t: nat, x: nat, w: nat, p: nat, wx: nat, n: nat, tx: nat)
    requires t <= v && p <= w && wx == w * x && n == v * wx && tx == t * x
    ensures n >= p * tx
  {
    MulMono(t, v, x);
    MulMono(p, w, t * x);
    MulMono(t * x, v * x, w);
    MulAssoc(v, x, w);
    assert x * w == w * x && t * x * w == w * (t * x);
  }

  lemma {:induction false} PowBaseMono(a: nat, b: nat, e: nat)
    requires a <= b
    ensures Pow(a, e) <= Pow(b, e)
  {
    if e > 0 {
      PowBaseMono(a, b, e - 1);
      MulMono(a, b, Pow(a, e - 1));
      MulMono(Pow(a, e - 1), Pow(b, e - 1), b);
    }
  }

  lemma QuotientAtLeast(n: nat, d: nat, q: nat)
    requires d > 0 && n >= d * q
    ensures n / d >= q && Sticky(n, d) >= q
  {
    assert d * q == q * d;
    if n / d < q { MulMono(n / d + 1, q, d); MulDist(n / d, 1, d); }
  }

  // The product as a real number.

  /** m * 2^e * radix^f for the radix radix1 * 2^radixShift. */
  ghost function Product(m: nat, e: int, radix1: nat, radixShift: nat, f: int): (y: real)
    requires radix1 > 0
    ensures y >= 0.0
  {
    RMulMono(0.0, m as real, Scale(2, e));
    NonZero(radix1, Pow(2, radixShift));
    RMulMono(0.0, m as real * Scale(2, e), Scale(radix1 * Pow(2, radixShift), f));
    m as real * Scale(2, e) * Scale(radix1 * Pow(2, radixShift), f)
  }

  /** m * 2^i * radix^j. */
  ghost function Power(m: nat, i: int, radix: nat, j: int): real
    requires radix > 0
  {
    m as real * Scale(2, i) * Scale(radix, j)
  }

  lemma ProductIs(m: nat, e: int, radix1: nat, radixShift: nat, f: int, i: int)
    requires radix1 > 0 && i == e + f * radixShift
    ensures Product(m, e, radix1, radixShift, f) == Power(m, i, radix1, f)
  {
    hide Scale, Pow;
    var g := radixShift * f;
    assert g == f * radixShift;
    ScaleProduct(radix1, Pow(2, radixShift), radix1 * Pow(2, radixShift), f);
    ScalePow(2, radixShift, f);
    ScaleAdd(2, e, g);
    var x, a, b, c := m as real, Scale(2, e), Scale(radix1, f), Scale(2, g);
    RMulAssoc(x * a, c, b);
    RMulAssoc(x, a, c);
    assert b * c == c * b;
  }

  lemma QuotientIs(a: real, c: real, y: real)
    requires c > 0.0 && y * c == a
    ensures a / c == y
  {
  }

  /** A product of powers as one fraction. */
  lemma PowRatio(m: nat, x: nat, r: nat, k: int, j: int, i: int, s: nat)
    requires r > 0 && k >= 0 && j == -k && i == x - s
    ensures Shl(Pow(r, k), s) > 0
    ensures Shl(m, x) as real / Shl(Pow(r, k), s) as real == Power(m, i, r, j)
  {
    hide Scale, Pow, Shl, Power;
    ShlPositive(Pow(r, k), s);
    ShlReal(m, x);
    ScaleNat(r, k);
    ShlReal(Pow(r, k), s);
    PowerTimes(m, x, r, k, j, i, s);
    QuotientIs(Shl(m, x) as real, Shl(Pow(r, k), s) as real, Power(m, i, r, j));
  }

  lemma ShlIs(n: nat, j: nat)
    ensures Shl(n, j) == n * Pow(2, j)
  {
  }

  lemma ShlPositive(n: nat, s: nat)
    ensures n > 0 <==> Shl(n, s) > 0
  {
    NonZero(n, Pow(2, s));
  }

  lemma PowerTimes(m: nat, x: nat, r: nat, k: int, j: int, i: int, s: nat)
    requires r > 0 && k >= 0 && j == -k && i == x - s
    ensures Power(m, i, r, j) * Shl(Pow(r, k), s) as real == Shl(m, x) as real
  {
    hide Scale, Pow, Shl;
    ShlReal(m, x);
    ShlReal(Pow(r, k), s);
    ScaleNat(r, k);
    ScaleAdd(2, i, s);
    ScaleInverse(r, k);
    Cancels(m as real, Scale(2, i), Scale(r, j), Scale(r, k), Scale(2, s));
  }

  lemma ShlReal(m: nat, x: nat)
    ensures Shl(m, x) as real == m as real * Scale(2, x)
  {
    hide Scale, Pow;
    RealProduct(m, Pow(2, x));
    ScaleNat(2, x);
  }

  lemma Cancels(n: real, a: real, b: real, c: real, d: real)
    requires c * b == 1.0
    ensures n * a * b * (c * d) == n * (a * d)
  {
    RMulAssoc(n * a, b, c * d);
    RMulAssoc(b, c, d);
    assert b * c == c * b;
    RMulAssoc(n, a, d);
  }

  lemma ShiftRatio(v: nat, s: int)
    requires s >= 0
    ensures v as real / Pow(2, s) as real == Shift2(v as real, -s)
  {
    hide Scale, Pow;
    ScaleNat(2, s);
    ShiftIs(v as real, -s);
    ShiftIs(Shift2(v as real, -s), s);
    ShiftBack(v as real, -s, s);
    QuotientIs(v as real, Pow(2, s) as real, Shift2(v as real, -s));
  }

  /** Rounding an exact product is one shift. */
  lemma ExactRound(v: nat, s: int, mode: Rounding)
    ensures RoundR(Shift2(v as real, -s), mode) == RoundShift(v, s, mode)
  {
    hide Scale, Pow, RoundR, RoundQ, Shift2;
    ShiftIs(v as real, -s);
    if s >= 0 {
      ShiftRatio(v, s);
      RoundRational(v, Pow(2, s), mode);
    } else {
      ShiftNat(v, -s, 0, -s);
      ShiftZero(Shl(v, -s) as real);
      WholeRound(Shl(v, -s), mode);
    }
  }

  lemma WholeRound(n: nat, mode: Rounding)
    ensures RoundR(n as real, mode) == n
  {
    FloorIs(n as real, n);
  }

  /** The value before the last shift of mul_pow_round, and its one rounding. */
  lemma MultipliedRound(v0: nat, v: nat, e: int, radix1: nat, radixShift: nat, f: int, eOffset: int, mode: Rounding)
    requires radix1 > 0 && Multiplied(v0, v, radix1, radixShift, f, eOffset)
    requires radix1 == 1 || f >= 0 || eOffset >= e + 2
    ensures RoundR(Product(v0, e, radix1, radixShift, f), mode) == RoundShift(v, -e + eOffset, mode)
  {
    hide Scale, Pow, RoundR, RoundQ, Product, Sticky, Shift2, Shl, Power;
    var s, g := -e + eOffset, f * radixShift;
    var y := Product(v0, e, radix1, radixShift, f);
    ProductIs(v0, e, radix1, radixShift, f, e + g);
    if radix1 == 1 || f >= 0 {
      MultipliedExact(y, v0, v, radix1, f, e + g);
      assert -s == e + g;
      ExactRound(v, s, mode);
    } else {
      MultipliedFraction(y, v0, eOffset + g, radix1, -f, e + g, s, mode);
    }
  }

  lemma MultipliedFraction(y: real, v0: nat, x: nat, radix: nat, k: int, i: int, s: nat, mode: Rounding)
    requires radix > 0 && k >= 0 && s >= 2 && i == x - s
    requires y >= 0.0 && y == Power(v0, i, radix, -k)
    ensures RoundR(y, mode) == RoundQ(Sticky(Shl(v0, x), Pow(radix, k)), Pow(2, s), mode)
  {
    hide Scale, Pow, RoundR, RoundQ, Sticky, Shl, Power;
    PowRatio(v0, x, radix, k, -k, i, s);
    RoundRational(Shl(v0, x), Shl(Pow(radix, k), s), mode);
    StickyRound(Shl(v0, x), Pow(radix, k), s, mode);
  }

  lemma MultipliedExact(y: real, v0: nat, v: nat, radix1: nat, f: int, i: int)
    requires radix1 > 0 && (radix1 == 1 || f >= 0) && v == v0 * Pow(radix1, if f >= 0 then f else 0)
    requires y == Power(v0, i, radix1, f)
    ensures y == Shift2(v as real, i)
  {
    hide Scale, Pow, Shift2;
    if radix1 == 1 {
      ScaleOne(f);
      PowZeroOne(if f >= 0 then f else 0);
    } else {
      ScaleNat(radix1, f);
      RealProduct(v0, Pow(radix1, f));
    }
    assert v as real == v0 as real * Scale(radix1, f);
    MiddleSwap(v0 as real, Scale(2, i), Scale(radix1, f));
    ShiftIs(v as real, i);
  }

  lemma MiddleSwap(a: real, b: real, c: real)
    ensures a * b * c == a * c * b
  {
    RMulAssoc(a, b, c);
    RMulAssoc(a, c, b);
    assert b * c == c * b;
  }

  lemma NotLost(v0: nat, v: nat, radix1: nat, radixShift: nat, f: int, eOffset: int)
    requires radix1 > 0 && Multiplied(v0, v, radix1, radixShift, f, eOffset)
    ensures v0 > 0 ==> v > 0
  {
    if v0 > 0 && (radix1 == 1 || f >= 0) {
      NonZero(v0, Pow(radix1, if f >= 0 then f else 0));
    } else if v0 > 0 {
      var x := eOffset + f * radixShift;
      NonZero(v0, Pow(2, x));
      var n, d := v0 * Pow(2, x), Pow(radix1, -f);
      assert n == d * (n / d) + n % d;
    }
  }

  /** mul_pow_round: one correct rounding of m * 2^e * radix^f, whatever the signs of e and f. */
  method MulPowRound(tmp: Mpb, m: nat, e: int, radix1: Limb, radixShift: nat, f: int, mode: Rounding)
    requires m < BASE * BASE && OddRadix(radix1)
    modifies tmp
    ensures tmp.Valid() && (m > 0 ==> tmp.Normal())
    ensures tmp.Val() == RoundR(Product(m, e, radix1, radixShift, f), mode)
  {
    hide Pow, Value, RoundR, RoundShift, Product, Multiplied;
    tmp.SetU64(m);
    var eOffset := MulPow(tmp, radix1, radixShift, f, true, e);
    MultipliedRound(m, tmp.Val(), e, radix1, radixShift, f, eOffset, mode);
    NotLost(m, tmp.Val(), radix1, radixShift, f, eOffset);
    tmp.ShrRound(-e + eOffset, mode);
  }
}
