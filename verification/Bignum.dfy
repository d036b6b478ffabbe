/** Multi-precision numbers: the limb loops and the rounding shift. */
module Bignum {
  import opened Limbs

  datatype Rounding = RNDN | RNDNA | RNDZ

  /** n / d rounded: to nearest with ties to even or away from zero, or truncated. */
  function RoundQ(n: nat, d: nat, mode: Rounding): nat
    requires d > 0
  {
    var q, r := n / d, n % d;
    if mode == RNDZ || 2 * r < d then q
    else if 2 * r > d || mode == RNDNA then q + 1
    else q + q % 2
  }

  /** round(n / 2^shift), where a negative shift multiplies. */
  function RoundShift(n: nat, shift: int, mode: Rounding): nat {
    if shift >= 0 then RoundQ(n, Pow(2, shift), mode) else Shl(n, -shift)
  }

  // Values and bits.

  lemma ValueSplit(s: seq<Limb>, l: nat)
    requires l <= |s|
    ensures Value(s) / Pow(BASE, l) == Value(s[l..])
    ensures Value(s) % Pow(BASE, l) == Value(s[..l])
  {
    assert s == s[..l] + s[l..];
    ValueAppend(s[..l], s[l..]);
    ValueBound(s[..l]);
    DivIs(Value(s), Pow(BASE, l), Value(s[l..]), Value(s[..l]));
  }

  lemma DivDiv(n: nat, a: nat, b: nat)
    requires a > 0 && b > 0
    ensures a * b > 0
    ensures n / (a * b) == n / a / b
    ensures n % (a * b) == n % a + a * (n / a % b)
  {
    var q, r := n / a, n % a;
    var q2, r2 := q / b, q % b;
    assert q == q2 * b + r2;
    MulAssoc(a, b, q2);
    assert n == a * q + r;
    MulDist(q2 * b, r2, a);
    MulAssoc(q2, b, a);
    assert b * a == a * b;
    MulMono(r2, b - 1, a);
    MulDist(b, 1, a);
    MulLess(0, a, b);
    DivUnique(n, a * b, q2, r + r2 * a);
    assert r2 * a == a * r2;
  }

  /** Bit j of limb l is bit 32 l + j of the number. */
  lemma BitOfLimb(s: seq<Limb>, l: nat, j: nat)
    requires j < LIMB_BITS
    ensures Value(s) / Pow(2, LIMB_BITS * l + j) % 2 == if l < |s| then s[l] / Pow(2, j) % 2 else 0
    ensures Value(s) % Pow(2, LIMB_BITS * l + j)
         == if l < |s| then Value(s[..l]) + Pow(BASE, l) * (s[l] % Pow(2, j)) else Value(s)
  {
    var n := Value(s);
    PowAdd(2, LIMB_BITS * l, j);
    PowLimbs(l);
    DivDiv(n, Pow(BASE, l), Pow(2, j));
    if l < |s| {
      ValueSplit(s, l);
      ValueSuffix(s, l);
      LowBits(s[l], Value(s[l + 1..]), j);
    } else {
      ValueBound(s);
      PowMono(BASE, |s|, l);
      DivUnique(n, Pow(BASE, l), 0, n);
      DivUnique(0, Pow(2, j), 0, 0);
    }
  }

  /** Higher limbs do not change the low bits. */
  lemma LowBits(x: Limb, high: nat, j: nat)
    requires j < LIMB_BITS
    ensures (x + BASE * high) / Pow(2, j) % 2 == x / Pow(2, j) % 2
    ensures (x + BASE * high) % Pow(2, j) == x % Pow(2, j)
  {
    var p, r := Pow(2, j), Pow(2, LIMB_BITS - j - 1);
    PowSplit(j);
    assert Pow(2, LIMB_BITS - j) == 2 * r;
    LowBitsOf(x, high, p, r);
  }

  lemma LowBitsOf(x: nat, high: nat, p: nat, r: nat)
    requires p > 0 && p * (2 * r) == BASE
    ensures (x + BASE * high) / p % 2 == x / p % 2 && (x + BASE * high) % p == x % p
  {
    MulAssoc(p, 2 * r, high);
    MulAssoc(2, r, high);
    LowBitsWith(x, BASE * high, p, r * high, x / p, x % p);
  }

  lemma LowBitsWith(x: nat, bh: nat, p: nat, k: nat, q: nat, m: nat)
    requires p > 0 && bh == p * (2 * k) && q == x / p && m == x % p
    ensures (x + bh) / p % 2 == q % 2 && (x + bh) % p == m
  {
    assert x == p * q + m;
    assert p * (q + 2 * k) == p * q + p * (2 * k);
    DivIs(x + bh, p, q + 2 * k, m);
    EvenMore(q, k);
  }

  lemma EvenMore(q: nat, k: nat)
    ensures (q + 2 * k) % 2 == q % 2
  {
  }

  /** The rounding decision from the half bit, the bits below it and the last kept bit. */
  lemma RoundByBits(n: nat, shift: nat, mode: Rounding)
    requires shift > 0
    ensures var half, low := n / Pow(2, shift - 1) % 2, n % Pow(2, shift - 1);
      RoundQ(n, Pow(2, shift), mode)
      == n / Pow(2, shift)
         + if mode != RNDZ && half == 1 && (mode == RNDNA || low != 0 || n / Pow(2, shift) % 2 == 1) then 1 else 0
  {
    DivDiv(n, Pow(2, shift - 1), 2);
  }

  /** A multi-precision number: mpb_t with its length. */
  class Mpb {
    var tab: seq<Limb>

    ghost predicate Valid()
      reads this
    {
      |tab| >= 1
    }

    /** No leading zero limb. */
    ghost predicate Normal()
      reads this
    {
      Valid() && (|tab| == 1 || tab[|tab| - 1] != 0)
    }

    ghost function Val(): nat
      reads this
    {
      Value(tab)
    }

    constructor (x: Limb)
      ensures Normal() && Val() == x && tab == [x]
    {
      tab := [x];
      ValueOne(x);
    }

    /** mpb_renorm. */
    method Renorm()
      requires Valid()
      modifies this
      ensures Normal() && Val() == old(Val())
    {
      while |tab| > 1 && tab[|tab| - 1] == 0
        invariant Valid() && Val() == old(Val())
        decreases |tab|
      {
        ValueTop(tab);
        tab := tab[..|tab| - 1];
      }
    }

    /** mpb_set_u64. */
    method SetU64(m: nat)
      requires m < BASE * BASE
      modifies this
      ensures Normal() && Val() == m
    {
      var lo: Limb, hi: Limb := m % BASE, m / BASE;
      ValueOne(hi);
      ValueOne(lo);
      ValueAppend([lo], [hi]);
      assert Pow(BASE, 1) == BASE * Pow(BASE, 0);
      tab := if hi == 0 then [lo] else [lo] + [hi];
    }

    /** mpb_get_u64. */
    method GetU64() returns (m: nat)
      requires Valid() && |tab| <= 2
      ensures m == Val()
    {
      ValueSuffix(tab, 0);
      assert tab[0..] == tab;
      if |tab| == 1 {
        ValueOne(tab[0]);
        m := tab[0];
      } else {
        ValueOne(tab[1]);
        assert tab[1..] == [tab[1]];
        m := tab[0] + tab[1] * BASE;
      }
    }

    /** mpb_get_bit. */
    method GetBit(k: nat) returns (bit: nat)
      requires Valid()
      ensures bit == Val() / Pow(2, k) % 2
    {
      var l, j := k / LIMB_BITS, k % LIMB_BITS;
      BitOfLimb(tab, l, j);
      bit := if l >= |tab| then 0 else tab[l] / Pow(2, j) % 2;
    }

    /** Whether any bit below position k is set, as mpb_shr_round collects them. */
    method AnyBelow(k: nat) returns (any: bool)
      requires Valid()
      ensures any == (Val() % Pow(2, k) != 0)
    {
      var l, j := k / LIMB_BITS, k % LIMB_BITS;
      BitOfLimb(tab, l, j);
      any := false;
      var n := if l < |tab| then l else |tab|;
      for i := 0 to n
        invariant any == (Value(tab[..i]) != 0)
      {
        ValuePrefix(tab, i);
        NonZero(tab[i], Pow(BASE, i));
        any := any || tab[i] != 0;
      }
      assert tab[..|tab|] == tab;
      if l < |tab| {
        NonZero(tab[l] % Pow(2, j), Pow(BASE, l));
        any := any || tab[l] % Pow(2, j) != 0;
      }
    }

    /** mp_add_ui: the carry is returned. */
    method MpAddUi(b: Limb) returns (k: Limb)
      requires Valid()
      modifies this
      ensures |tab| == |old(tab)| && Val() + k * Pow(BASE, |tab|) == old(Val()) + b && k <= (if b > 1 then b else 1)
    {
      k := b;
      var n := |tab|;
      PowZero(BASE);
      hide Pow;
      var i := 0;
      while i < n
        invariant i <= n == |tab| && (i > 0 ==> k <= 1) && (i == 0 ==> k == b)
        invariant tab[i..] == old(tab)[i..]
        invariant Value(tab[..i]) + k * Pow(BASE, i) == Value(old(tab)[..i]) + b
      {
        if k == 0 { break; }
        hide Value;
        assert tab[i] == old(tab)[i..][0];
        var a: Limb := (tab[i] + k) % BASE;
        var k1: Limb := if a < k then 1 else 0;
        SetUp(tab, i, a);
        ValuePrefix(old(tab), i);
        PowSucc(BASE, i);
        assert tab[i..][1..] == tab[i + 1..] && old(tab)[i..][1..] == old(tab)[i + 1..];
        AddStep(Value(tab[..i]), Value(old(tab)[..i]), tab[i], k, b, a, k1, Pow(BASE, i), Pow(BASE, i + 1));
        tab, k := tab[i := a], k1;
        i := i + 1;
      }
      AddRest(tab, old(tab), i, k);
    }

    /** mp_mul1, in place: the carry is returned. */
    method MpMul1(b: Limb, l: Limb) returns (k: Limb)
      requires Valid()
      modifies this
      ensures |tab| == |old(tab)| && Val() + k * Pow(BASE, |tab|) == old(Val()) * b + l
    {
      k := l;
      var n := |tab|;
      for i := 0 to n
        invariant |tab| == n && tab[i..] == old(tab)[i..]
        invariant Value(tab[..i]) + k * Pow(BASE, i) == Value(old(tab)[..i]) * b + l
      {
        assert tab[i] == old(tab)[i..][0];
        ProductFits(tab[i], b, k);
        var t := tab[i] * b + k;
        SetUp(tab, i, t % BASE);
        ValuePrefix(old(tab), i);
        assert tab[i..][1..] == tab[i + 1..] && old(tab)[i..][1..] == old(tab)[i + 1..];
        MulStep(Value(tab[..i]), Value(old(tab)[..i]), old(tab)[i], b, k, l, Pow(BASE, i));
        tab, k := tab[i := t % BASE], t / BASE;
      }
      assert tab[..n] == tab && old(tab)[..n] == old(tab);
    }

    /** mp_shl, in place: the bits shifted out are returned. */
    method MpShl(shift: nat, low: Limb) returns (l: Limb)
      requires Valid() && 1 <= shift < LIMB_BITS && low < Pow(2, shift)
      modifies this
      ensures |tab| == |old(tab)| && l < Pow(2, shift)
      ensures Val() + l * Pow(BASE, |tab|) == old(Val()) * Pow(2, shift) + low
    {
      l := low;
      var n, p, p1 := |tab|, Pow(2, shift), Pow(2, LIMB_BITS - shift);
      PowSplit(shift);
      for i := 0 to n
        invariant |tab| == n && tab[i..] == old(tab)[i..] && l < p
        invariant Value(tab[..i]) + l * Pow(BASE, i) == Value(old(tab)[..i]) * p + low
      {
        assert tab[i] == old(tab)[i..][0];
        var a := tab[i];
        ShlFits(a, p, p1, l);
        SetUp(tab, i, a * p % BASE + l);
        ValuePrefix(old(tab), i);
        assert tab[i..][1..] == tab[i + 1..] && old(tab)[i..][1..] == old(tab)[i + 1..];
        MulStep(Value(tab[..i]), Value(old(tab)[..i]), a, p, l, low, Pow(BASE, i));
        tab, l := tab[i := a * p % BASE + l], a / p1;
      }
      assert tab[..n] == tab && old(tab)[..n] == old(tab);
    }

    /** mp_div1, in place: the remainder is returned. */
    method MpDiv1(b: Limb, r: Limb) returns (rem: Limb)
      requires Valid() && r < b
      modifies this
      ensures |tab| == |old(tab)| && rem < b
      ensures Val() * b + rem == old(Val()) + r * Pow(BASE, |tab|)
    {
      rem := r;
      var n := |tab|;
      var i := n;
      while i > 0
        invariant 0 <= i <= n == |tab| && tab[..i] == old(tab)[..i] && rem < b
        invariant Value(tab[i..]) * b + rem == Value(old(tab)[i..]) + r * Pow(BASE, n - i)
      {
        i := i - 1;
        assert tab[i] == old(tab)[..i + 1][i];
        var a1 := rem * BASE + tab[i];
        QuotientFits(rem, tab[i], b);
        SetDown(tab, i, a1 / b);
        ValueSuffix(old(tab), i);
        assert tab[..i + 1][..i] == tab[..i] && old(tab)[..i + 1][..i] == old(tab)[..i];
        DivStep(Value(tab[i + 1..]), Value(old(tab)[i + 1..]), tab[i], b, rem, r, Pow(BASE, n - i - 1));
        tab, rem := tab[i := a1 / b], a1 % b;
      }
      assert tab[0..] == tab && old(tab)[0..] == old(tab);
    }

    /** The loop of mp_div1norm, by a normalized divisor and its inverse. */
    method DivNormLoop(b: Limb, r: Limb, bInv: Limb) returns (rem: Limb)
      requires Valid() && r < b && b >= 0x8000_0000 && bInv == UDiv1NormInit(b)
      modifies this
      ensures |tab| == |old(tab)| && rem < b
      ensures Val() * b + rem == old(Val()) + r * Pow(BASE, |tab|)
    {
      hide UDiv1NormInit, UDiv1Norm;
      rem := r;
      var n := |tab|;
      var i := n;
      while i > 0
        invariant 0 <= i <= n == |tab| && tab[..i] == old(tab)[..i] && rem < b
        invariant Value(tab[i..]) * b + rem == Value(old(tab)[i..]) + r * Pow(BASE, n - i)
      {
        i := i - 1;
        assert tab[i] == old(tab)[..i + 1][i];
        UDivExact(rem, tab[i], b);
        QuotientFits(rem, tab[i], b);
        var d := UDiv1Norm(rem, tab[i], b, bInv);
        SetDown(tab, i, d.0);
        ValueSuffix(old(tab), i);
        assert tab[..i + 1][..i] == tab[..i] && old(tab)[..i + 1][..i] == old(tab)[..i];
        DivStep(Value(tab[i + 1..]), Value(old(tab)[i + 1..]), tab[i], b, rem, r, Pow(BASE, n - i - 1));
        tab, rem := tab[i := d.0], d.1;
      }
      assert tab[0..] == tab && old(tab)[0..] == old(tab);
    }

    /** mp_div1norm, in place: division by d, where b is d shifted until its top bit is set. */
    method MpDiv1Norm(ghost d: Limb, b: Limb, r: Limb, bInv: Limb, shift: nat) returns (rem: Limb)
      requires Valid() && shift < LIMB_BITS && r < d && b == Shifted(d, Pow(2, shift), 0)
      requires b >= 0x8000_0000 && bInv == UDiv1NormInit(b)
      modifies this
      ensures |tab| == |old(tab)| && rem < d
      ensures Val() * d + rem == old(Val()) + r * Pow(BASE, |tab|)
    {
      hide UDiv1NormInit, Value, Pow, Shifted, Quo;
      var p := Pow(2, shift);
      ScaledBelow(r, d, p);
      var k: Limb := 0;
      if shift != 0 {
        k := MpShl(shift, 0);
      } else {
        PowZero(2);
      }
      label Loop:
      ghost var n1, w := Val(), Pow(BASE, |tab|);
      assert n1 + k * w == old(Val()) * p && k < p;
      var rem1 := DivNormLoop(b, Shifted(r, p, k), bInv);
      rem := Quo(rem1, p);
      ScaledDivision(old(Val()), n1, Val(), k, r, d, b, p, rem1, w);
    }

    /** mp_shr, in place: the bits shifted out are returned. */
    method MpShr(shift: nat, high: Limb) returns (rem: Limb)
      requires Valid() && 1 <= shift < LIMB_BITS && high < Pow(2, shift)
      modifies this
      ensures |tab| == |old(tab)| && rem < Pow(2, shift)
      ensures Val() * Pow(2, shift) + rem == old(Val()) + high * Pow(BASE, |tab|)
    {
      var l := high;
      var n, p, p1 := |tab|, Pow(2, shift), Pow(2, LIMB_BITS - shift);
      PowSplit(shift);
      hide Value, ShrLimb, Pow, Low;
      LowSmall(high, p);
      ShrStart(old(tab), p, high);
      var i := n;
      while i > 0
        invariant 0 <= i <= n == |tab| && tab[..i] == old(tab)[..i]
        invariant ShrSoFar(tab, old(tab), i, p, l, high)
      {
        i := i - 1;
        ShrStep(tab, old(tab), i, p, p1, l, high);
        tab, l := tab[i := ShrLimb(l, tab[i], p, p1)], tab[i];
      }
      ShrDone(tab, old(tab), p, l, high);
      rem := Low(l, p);
    }

    /** tab[0] |= bit. */
    method SetLowBit(bit: bool)
      requires Normal()
      modifies this
      ensures Normal() && Val() == if bit && old(Val()) % 2 == 0 then old(Val()) + 1 else old(Val())
    {
      ValueSuffix(tab, 0);
      assert tab[0..] == tab;
      var x: int := tab[0];
      assert Val() % 2 == x % 2;
      if bit && x % 2 == 0 {
        SetUp(tab, 0, x + 1);
        ghost var rest := tab[1..];
        tab := tab[0 := x + 1];
        ValueSuffix(tab, 0);
        assert tab[0..] == tab && tab[1..] == rest;
      }
    }

    /** mpb_floor_log2. */
    method FloorLog2() returns (k: int)
      requires Normal()
      ensures Val() == 0 ==> k == -1
      ensures Val() > 0 ==> k >= 0 && Pow(2, k) <= Val() < Pow(2, k + 1)
    {
      hide Value, Clz32;
      var v := tab[|tab| - 1];
      if v == 0 {
        assert tab == [v];
        ValueOne(v);
        k := -1;
      } else {
        k := |tab| * LIMB_BITS - 1 - Clz32(v);
        TopBit(tab);
      }
    }

    /** mpb_shr_round for a negative shift. */
    method ShlExact(shift: nat)
      requires Normal()
      modifies this
      ensures Valid() && (old(Val()) != 0 ==> Normal()) && Val() == old(Val()) * Pow(2, shift)
    {
      hide Value, Pow;
      var l, j := shift / LIMB_BITS, shift % LIMB_BITS;
      ghost var n0 := Val();
      if j != 0 {
        var k := MpShl(j, 0);
        AppendLimb(tab, k);
        tab := tab + [k];
        Renorm();
      } else {
        PowZero(2);
      }
      assert Val() == n0 * Pow(2, j);
      NonZero(n0, Pow(2, j));
      ValueOne(tab[0]);
      assert |tab| == 1 ==> tab == [tab[0]];
      ShiftLimbs(tab, l);
      PowAdd(2, j, LIMB_BITS * l);
      MulAssoc(n0, Pow(2, j), Pow(2, LIMB_BITS * l));
      tab := Zeros(l) + tab;
    }

    /** Whether mpb_shr_round rounds up. */
    method RoundsUp(shift: nat, mode: Rounding) returns (addOne: nat)
      requires Valid() && shift > 0
      ensures addOne <= 1 && RoundQ(Val(), Pow(2, shift), mode) == Val() / Pow(2, shift) + addOne
    {
      RoundByBits(Val(), shift, mode);
      addOne := 0;
      if mode != RNDZ {
        var bit1 := GetBit(shift - 1);
        if bit1 == 1 {
          var bit2 := true;
          if mode != RNDNA {
            bit2 := AnyBelow(shift - 1);
          }
          if bit2 {
            addOne := 1;
          } else {
            addOne := GetBit(shift);
          }
        }
      }
    }

    /** The shift itself, with the bits below dropped. */
    method ShrTruncate(shift: nat)
      requires Normal() && shift > 0
      modifies this
      ensures Normal() && Val() == old(Val()) / Pow(2, shift)
    {
      hide Value, Pow;
      var l, j := shift / LIMB_BITS, shift % LIMB_BITS;
      ghost var n0 := Val();
      TwoShifts(n0, shift, l, j);
      if l >= |tab| {
        ShiftedOut(tab, l, j);
        ValueOne(0);
        tab := [0];
      } else {
        ValueSplit(tab, l);
        tab := tab[l..];
        if j != 0 {
          ghost var n1 := Val();
          var rem := MpShr(j, 0);
          assert n1 == Val() * Pow(2, j) + rem;
          DivUnique(n1, Pow(2, j), Val(), rem);
          Renorm();
        } else {
          PowZero(2);
          DivUnique(Val(), 1, Val(), 0);
        }
      }
    }

    /** mpb_shr_round: divided by 2^shift and rounded, or multiplied when shift < 0. */
    method ShrRound(shift: int, mode: Rounding)
      requires Normal()
      modifies this
      ensures Valid() && (old(Val()) != 0 || shift >= 0 ==> Normal())
      ensures Val() == RoundShift(old(Val()), shift, mode)
    {
      if shift == 0 {
        RoundOne(Val(), mode);
      } else if shift < 0 {
        ShlExact(-shift);
      } else {
        var addOne := RoundsUp(shift, mode);
        ShrTruncate(shift);
        if addOne == 1 {
          NormalIff(tab);
          var a := MpAddUi(1);
          if a != 0 {
            AppendLimb(tab, a);
            tab := tab + [a];
          } else {
            NormalIff(tab);
          }
        }
      }
    }
  }

  lemma SetUp(s: seq<Limb>, i: nat, a: Limb)
    requires i < |s|
    ensures Value(s[i := a][..i + 1]) == Value(s[..i]) + a * Pow(BASE, i)
    ensures s[i := a][i + 1..] == s[i + 1..]
  {
    ValuePrefix(s[i := a], i);
    assert s[i := a][..i] == s[..i];
  }

  lemma SetDown(s: seq<Limb>, i: nat, a: Limb)
    requires i < |s|
    ensures Value(s[i := a][i..]) == a + BASE * Value(s[i + 1..])
    ensures s[i := a][..i] == s[..i]
  {
    ValueSuffix(s[i := a], i);
    assert s[i := a][i + 1..] == s[i + 1..];
  }

  /** One limb of a sum: v is the new low part, u the old one. */
  lemma AddStep(v: nat, u: nat, x: Limb, k: Limb, b: nat, a: Limb, k1: Limb, p: nat, p1: nat)
    requires v + k * p == u + b && a + k1 * BASE == x + k && p1 == BASE * p
    ensures v + a * p + k1 * p1 == u + x * p + b
  {
    MulAssoc(k1, BASE, p);
    MulDist(a, k1 * BASE, p);
    MulDist(x, k, p);
  }

  lemma ProductFits(x: Limb, b: Limb, k: Limb)
    ensures 0 <= (x * b + k) / BASE < BASE && 0 <= (x * b + k) % BASE < BASE
  {
    MulMono(0, x, b);
    MulMono(x, BASE - 1, b);
  }

  lemma QuotientFits(r: Limb, x: Limb, b: Limb)
    requires r < b
    ensures 0 <= (r * BASE + x) / b < BASE && 0 <= (r * BASE + x) % b < b
  {
    var n: int := r * BASE + x;
    var q := n / b;
    assert n == q * b + n % b;
    if q >= BASE { MulMono(BASE, q, b); }
    if q < 0 { MulMono(q, -1, b); }
  }

  /** One limb of a product: v is the new low part, u the old one. */
  lemma MulStep(v: nat, u: nat, x: Limb, b: nat, k: nat, l: nat, p: nat)
    requires v + k * p == u * b + l
    ensures v + (x * b + k) % BASE * p + (x * b + k) / BASE * (BASE * p) == (u + x * p) * b + l
  {
    var t := x * b + k;
    var th, tl := t / BASE, t % BASE;
    MulAssoc(th, BASE, p);
    MulDist(th * BASE, tl, p);
    MulDist(x * b, k, p);
    MulDist(u, x * p, b);
    MulAssoc(x, b, p);
    MulAssoc(x, p, b);
    assert b * p == p * b;
  }

  /** One limb of a quotient: v is the new high part, u the old one. */
  lemma DivStep(v: nat, u: nat, x: Limb, b: nat, r: nat, r0: nat, p: nat)
    requires b > 0 && v * b + r == u + r0 * p
    ensures ((r * BASE + x) / b + BASE * v) * b + (r * BASE + x) % b == x + BASE * u + r0 * (BASE * p)
  {
    var t := r * BASE + x;
    var q := t / b;
    assert t == q * b + t % b;
    MulDist(q, BASE * v, b);
    MulAssoc(BASE, v, b);
    MulAssoc(r0, p, BASE);
    assert p * BASE == BASE * p;
  }

  lemma ShlFits(a: Limb, p: nat, p1: nat, l: nat)
    requires p > 0 && p * p1 == BASE && l < p
    ensures 0 <= a * p % BASE + l < BASE && 0 <= a / p1 < p && a / p1 < BASE
    ensures (a * p + l) % BASE == a * p % BASE + l && (a * p + l) / BASE == a / p1
  {
    NonZero(p1, p);
    assert p1 > 0;
    var q, r := a / p1, a % p1;
    assert a == q * p1 + r;
    MulDist(q * p1, r, p);
    MulAssoc(q, p1, p);
    assert p1 * p == p * p1;
    MulMono(r, p1 - 1, p);
    MulDist(p1, 1, p);
    MulMono(0, r, p);
    assert a * p == q * BASE + r * p;
    DivUnique(a * p, BASE, q, r * p);
    DivUnique(a * p + l, BASE, q, r * p + l);
    if q >= p { MulMono(p, q, p1); }
    MulMono(1, p1, p);
  }

  /** (a >> shift) | (l << (32 - shift)) in 32 bits, where p is 2^shift. */
  function ShrLimb(l: Limb, a: Limb, p: nat, p1: nat): int
    requires p > 0
  {
    a / p + l * p1 % BASE
  }

  /** l & (2^shift - 1). */
  function Low(l: Limb, p: nat): Limb
    requires p > 0
  {
    l % p
  }

  lemma LowSmall(l: Limb, p: nat)
    requires p > 0
    ensures Low(l, p) < p && (l < p ==> Low(l, p) == l)
  {
    if l < p { DivUnique(l, p, 0, l); }
  }

  lemma ShrFits(l: Limb, a: Limb, p: nat, p1: nat)
    requires p > 0 && p * p1 == BASE
    ensures 0 <= ShrLimb(l, a, p, p1) < BASE
    ensures (Low(l, p) * BASE + a) / p == ShrLimb(l, a, p, p1) && (Low(l, p) * BASE + a) % p == Low(a, p)
  {
    NonZero(p1, p);
    var q, r := l / p, l % p;
    assert l == q * p + r;
    MulDist(q * p, r, p1);
    MulAssoc(q, p, p1);
    MulMono(r, p - 1, p1);
    MulDist(p, 1, p1);
    MulMono(0, r, p1);
    DivUnique(l * p1, BASE, q, r * p1);
    var x, y := a / p, a % p;
    assert a == x * p + y;
    assert p1 * p == p * p1;
    if x >= p1 { MulMono(p1, x, p); }
    MulDist(x, r * p1, p);
    MulAssoc(r, p1, p);
    DivUnique(r * BASE + a, p, x + r * p1, y);
  }

  /** The limbs from i on have been shifted; l is the last limb read. */
  ghost predicate ShrSoFar(now: seq<Limb>, was: seq<Limb>, i: nat, p: nat, l: Limb, high: Limb)
    requires i <= |now| == |was| && p > 0
  {
    Value(now[i..]) * p + Low(l, p) == Value(was[i..]) + high * Pow(BASE, |now| - i)
  }

  lemma ShrStart(s: seq<Limb>, p: nat, high: Limb)
    requires high < p
    ensures ShrSoFar(s, s, |s|, p, high, high)
  {
    LowSmall(high, p);
    assert s[|s|..] == [];
  }

  lemma ShrStep(now: seq<Limb>, was: seq<Limb>, i: nat, p: nat, p1: nat, l: Limb, high: Limb)
    requires i < |now| == |was| && now[..i + 1] == was[..i + 1] && p > 0 && p * p1 == BASE
    requires ShrSoFar(now, was, i + 1, p, l, high)
    ensures 0 <= ShrLimb(l, now[i], p, p1) < BASE
    ensures now[i := ShrLimb(l, now[i], p, p1)][..i] == was[..i]
    ensures ShrSoFar(now[i := ShrLimb(l, now[i], p, p1)], was, i, p, now[i], high)
  {
    var a := now[i];
    assert a == was[..i + 1][i];
    ShrFits(l, a, p, p1);
    var x := ShrLimb(l, a, p, p1);
    hide ShrLimb, Low;
    SetDown(now, i, x);
    ValueSuffix(was, i);
    assert now[..i + 1][..i] == now[..i] && was[..i + 1][..i] == was[..i];
    var w := Pow(BASE, |now| - i - 1);
    assert Pow(BASE, |now| - i) == BASE * w;
    DivStep(Value(now[i + 1..]), Value(was[i + 1..]), a, p, Low(l, p), high, w);
  }

  lemma ShrDone(now: seq<Limb>, was: seq<Limb>, p: nat, l: Limb, high: Limb)
    requires |now| == |was| && p > 0 && ShrSoFar(now, was, 0, p, l, high)
    ensures Value(now) * p + Low(l, p) == Value(was) + high * Pow(BASE, |now|)
    ensures Low(l, p) < p
  {
    LowSmall(l, p);
    assert now[0..] == now && was[0..] == was;
  }

  /** (r << shift) | k, where k < p and p is 2^shift. */
  function Shifted(r: Limb, p: nat, k: Limb): int {
    r * p + k
  }

  /** x >> shift, where p is 2^shift. */
  function Quo(x: Limb, p: nat): (r: Limb)
    requires p > 0
    ensures x < p ==> r == 0
  {
    DivFits(x, p);
    x / p
  }

  lemma DivFits(x: Limb, p: nat)
    requires p > 0
    ensures 0 <= x / p <= x && (x < p ==> x / p == 0)
  {
    if x / p > x { MulMono(x + 1, x / p, p); MulMono(1, p, x + 1); }
  }

  lemma ScaledBelow(r: Limb, d: Limb, p: nat)
    requires p > 0 && r < d && Shifted(d, p, 0) < BASE
    ensures forall k: Limb :: k < p ==> 0 <= Shifted(r, p, k) < Shifted(d, p, 0)
  {
    MulMono(0, r, p);
    MulMono(r + 1, d, p);
    MulDist(r, 1, p);
  }

  /** Dividing p n by p d leaves p times the remainder. */
  lemma ScaledDivision(n0: nat, n1: nat, q: nat, k: Limb, r: Limb, d: Limb, b: Limb, p: nat, rem: Limb, w: nat)
    requires p > 0 && n1 + k * w == n0 * p && b == Shifted(d, p, 0) && rem < b
    requires q * b + rem == n1 + Shifted(r, p, k) * w
    ensures Quo(rem, p) < d && q * d + Quo(rem, p) == n0 + r * w
  {
    MulDist(r * p, k, w);
    MulAssoc(r, p, w);
    MulAssoc(r, w, p);
    assert p * w == w * p;
    MulAssoc(q, d, p);
    MulDist(n0, r * w, p);
    var x := n0 + r * w - q * d;
    MulDist(n0 + r * w, q * d, p);
    assert rem == x * p;
    DivUnique(rem, p, x, 0);
    if x >= d { MulMono(d, x, p); }
  }

  function Zeros(l: nat): (r: seq<Limb>) {
    seq(l, _ => 0)
  }

  /** Moving the limbs up by l places. */
  lemma {:induction false} ShiftLimbs(s: seq<Limb>, l: nat)
    ensures Value(Zeros(l) + s) == Value(s) * Pow(2, LIMB_BITS * l)
    decreases l
  {
    PowLimbs(l);
    if l > 0 {
      ShiftLimbs(s, l - 1);
      PowLimbs(l - 1);
      assert (Zeros(l) + s)[1..] == Zeros(l - 1) + s;
      MulAssoc(Value(s), Pow(BASE, l - 1), BASE);
    } else {
      assert Zeros(0) + s == s;
    }
  }

  /** A shift by whole limbs, then by the rest. */
  lemma TwoShifts(n: nat, shift: nat, l: nat, j: nat)
    requires shift == LIMB_BITS * l + j
    ensures n / Pow(2, shift) == n / Pow(BASE, l) / Pow(2, j)
  {
    PowAdd(2, LIMB_BITS * l, j);
    PowLimbs(l);
    hide Pow;
    DivDiv(n, Pow(BASE, l), Pow(2, j));
  }

  lemma ShiftedOut(s: seq<Limb>, l: nat, j: nat)
    requires |s| <= l
    ensures Value(s) / Pow(BASE, l) / Pow(2, j) == 0
  {
    ValueBound(s);
    PowMono(BASE, |s|, l);
    hide Value, Pow;
    DivUnique(Value(s), Pow(BASE, l), 0, Value(s));
    DivUnique(0, Pow(2, j), 0, 0);
  }

  lemma AppendLimb(s: seq<Limb>, k: Limb)
    ensures Value(s + [k]) == Value(s) + k * Pow(BASE, |s|)
  {
    ValueAppend(s, [k]);
    ValueOne(k);
  }

  /** A table without leading zero limbs is one of a large enough number. */
  lemma NormalIff(s: seq<Limb>)
    requires |s| >= 1
    ensures |s| == 1 || s[|s| - 1] != 0 <==> |s| == 1 || Value(s) >= Pow(BASE, |s| - 1)
  {
    var n, x := |s| - 1, s[|s| - 1];
    ValueTop(s);
    ValueBound(s[..n]);
    if x != 0 { MulMono(1, x, Pow(BASE, n)); }
  }

  /** A small number has few limbs. */
  lemma LengthBound(s: seq<Limb>, k: nat)
    requires |s| >= 1 && (|s| == 1 || s[|s| - 1] != 0) && Value(s) < Pow(BASE, k) && k >= 1
    ensures |s| <= k
  {
    NormalIff(s);
    if |s| > k { PowMono(BASE, k, |s| - 1); }
  }

  lemma TwoLimbs()
    ensures Pow(BASE, 2) == BASE * BASE
  {
    PowSucc(BASE, 1);
    PowSucc(BASE, 0);
  }

  lemma ZeroIff(s: seq<Limb>)
    requires |s| >= 1 && (|s| == 1 || s[|s| - 1] != 0)
    ensures s[0] == 0 && |s| == 1 <==> Value(s) == 0
  {
    if |s| == 1 {
      ValueOne(s[0]);
      assert s == [s[0]];
    } else {
      NormalIff(s);
    }
  }

  lemma RoundOne(n: nat, mode: Rounding)
    ensures RoundQ(n, Pow(2, 0), mode) == n
  {
    PowZero(2);
  }

  // The position of the top bit.

  function BitLen(x: nat): nat {
    if x == 0 then 0 else 1 + BitLen(x / 2)
  }

  lemma {:induction false} BitLenIs(x: nat)
    requires x > 0
    ensures Pow(2, BitLen(x) - 1) <= x < Pow(2, BitLen(x))
  {
    if x > 1 {
      BitLenIs(x / 2);
    }
  }

  lemma {:induction false} BitLenUnique(x: nat, k: nat)
    requires Pow(2, k) <= x < Pow(2, k + 1)
    ensures BitLen(x) == k + 1
  {
    BitLenIs(x);
    if BitLen(x) <= k { PowMono(2, BitLen(x), k); }
    if BitLen(x) > k + 1 { PowMono(2, k + 1, BitLen(x) - 1); }
  }

  /** clz32 of a limb. */
  function Clz32(x: Limb): int {
    LIMB_BITS - BitLen(x)
  }

  lemma TopBit(s: seq<Limb>)
    requires s != [] && s[|s| - 1] != 0
    ensures Value(s) > 0 && TopBitPos(s) >= 0
    ensures Pow(2, TopBitPos(s)) <= Value(s) < Pow(2, TopBitPos(s) + 1)
  {
    var n: nat, v: nat := |s| - 1, s[|s| - 1];
    BitLenIs(v);
    ValueTop(s);
    PowLimbs(n);
    TopBitIs(s);
    hide *;
    var b: nat := BitLen(v);
    PowAdd(2, LIMB_BITS * n, b - 1);
    PowAdd(2, LIMB_BITS * n, b);
    TopWithin(Pow(2, b - 1), v, Pow(2, b), Pow(BASE, n), Value(s));
  }

  lemma TopBitIs(s: seq<Limb>)
    requires s != [] && s[|s| - 1] != 0
    ensures BitLen(s[|s| - 1]) >= 1 && TopBitPos(s) == LIMB_BITS * (|s| - 1) + (BitLen(s[|s| - 1]) - 1)
  {
  }

  lemma TopWithin(lo: nat, v: nat, hi: nat, w: nat, value: nat)
    requires 0 < lo <= v < hi && w > 0 && v * w <= value < (v + 1) * w
    ensures 0 < value && w * lo <= value < w * hi
  {
    MulMono(lo, v, w);
    MulMono(v + 1, hi, w);
    MulLess(0, lo, w);
    assert lo * w == w * lo && hi * w == w * hi;
  }

  /** The position of the top bit of a table whose top limb is not zero. */
  function TopBitPos(s: seq<Limb>): int
    requires s != []
  {
    |s| * LIMB_BITS - 1 - Clz32(s[|s| - 1])
  }

  lemma NonZero(x: nat, p: nat)
    requires p > 0
    ensures x * p >= 0 && p * x >= 0 && (x * p == 0 <==> x == 0) && (p * x == 0 <==> x == 0)
  {
    if x > 0 { MulMono(1, x, p); }
  }

  /** When the carry is gone the rest of the table is unchanged. */
  lemma AddRest(now: seq<Limb>, was: seq<Limb>, i: nat, k: Limb)
    requires i <= |now| == |was| && now[i..] == was[i..] && (i == |now| || k == 0)
    ensures Value(now) - Value(was) == Value(now[..i]) - Value(was[..i])
    ensures k * Pow(BASE, i) == k * Pow(BASE, |now|)
  {
    assert now == now[..i] + now[i..] && was == was[..i] + was[i..];
    ValueAppend(now[..i], now[i..]);
    ValueAppend(was[..i], was[i..]);
  }
}
