/** Digits in and out: writing a number in a radix and reading the digits back. */
module DigitText {
  import opened Limbs
  import opened Bignum
  import opened Scaling

  // Digit strings, most significant digit first.

  predicate AreDigits(ds: seq<nat>, b: nat) {
    forall i :: 0 <= i < |ds| ==> ds[i] < b
  }

  function NumberOf(ds: seq<nat>, b: nat): nat {
    if ds == [] then 0 else NumberOf(ds[..|ds| - 1], b) * b + ds[|ds| - 1]
  }

  function DigitsOf(v: nat, b: nat, n: nat): (ds: seq<nat>)
    requires b > 0
    ensures |ds| == n
    decreases n
  {
    if n == 0 then [] else DigitsOf(Upper(v, b), b, n - 1) + [Last(v, b)]
  }

  function Upper(v: nat, b: nat): nat
    requires b > 0
  {
    v / b
  }

  function Last(v: nat, b: nat): (r: nat)
    requires b > 0
    ensures r < b
  {
    v % b
  }

  lemma DigitsUnfold(v: nat, b: nat, n: nat)
    requires b > 0 && n > 0
    ensures DigitsOf(v, b, n) == DigitsOf(Upper(v, b), b, n - 1) + [Last(v, b)]
  {
  }

  lemma UpperIs(v: nat, b: nat, q: nat, r: nat)
    requires b > 0 && v == q * b + r && r < b
    ensures Upper(v, b) == q && Last(v, b) == r
  {
    DivUnique(v, b, q, r);
  }

  lemma UpperParts(v: nat, b: nat)
    requires b > 0
    ensures v == Upper(v, b) * b + Last(v, b)
  {
  }

  /** Dropping j digits and one more. */
  lemma UpperUpper(v: nat, b: nat, j: nat)
    requires b > 0
    ensures Upper(v, Pow(b, j + 1)) == Upper(Upper(v, b), Pow(b, j))
    ensures Last(v, Pow(b, j + 1)) == Last(Upper(v, b), Pow(b, j)) * b + Last(v, b)
  {
    PowSucc(b, j);
    hide Pow;
    DivDiv(v, b, Pow(b, j));
  }

  lemma UpperOne(v: nat)
    ensures Upper(v, 1) == v && Last(v, 1) == 0
  {
    DivUnique(v, 1, v, 0);
  }

  lemma NumberSnoc(ds: seq<nat>, c: nat, b: nat)
    ensures NumberOf(ds + [c], b) == NumberOf(ds, b) * b + c
  {
    assert (ds + [c])[..|ds|] == ds;
  }

  lemma {:induction false} NumberAppend(ds: seq<nat>, cs: seq<nat>, b: nat)
    ensures NumberOf(ds + cs, b) == NumberOf(ds, b) * Pow(b, |cs|) + NumberOf(cs, b)
    decreases |cs|
  {
    if cs == [] {
      assert ds + cs == ds;
    } else {
      var n := |cs| - 1;
      assert ds + cs == (ds + cs[..n]) + [cs[n]];
      NumberSnoc(ds + cs[..n], cs[n], b);
      NumberAppend(ds, cs[..n], b);
      PowSucc(b, n);
      hide Pow;
      MulDist(NumberOf(ds, b) * Pow(b, n), NumberOf(cs[..n], b), b);
      MulAssoc(NumberOf(ds, b), Pow(b, n), b);
    }
  }

  lemma {:induction false} NumberBound(ds: seq<nat>, b: nat)
    requires AreDigits(ds, b)
    ensures NumberOf(ds, b) < Pow(b, |ds|)
    decreases |ds|
  {
    if ds != [] {
      var n := |ds| - 1;
      NumberBound(ds[..n], b);
      PowSucc(b, n);
      hide Pow;
      MulMono(NumberOf(ds[..n], b) + 1, Pow(b, n), b);
      MulDist(NumberOf(ds[..n], b), 1, b);
    }
  }

  lemma NumberLeading(ds: seq<nat>, b: nat)
    requires b > 0 && ds != [] && ds[0] != 0
    ensures NumberOf(ds, b) >= Pow(b, |ds| - 1)
  {
    assert ds == [ds[0]] + ds[1..];
    NumberAppend([ds[0]], ds[1..], b);
    NumberSnoc([], ds[0], b);
    assert [] + [ds[0]] == [ds[0]];
    MulMono(1, ds[0], Pow(b, |ds| - 1));
  }

  /** Writing a number with n digits keeps it modulo b^n; for small enough numbers nothing is lost. */
  lemma {:induction false} NumberOfDigits(v: nat, b: nat, n: nat)
    requires b > 0
    ensures AreDigits(DigitsOf(v, b, n), b)
    ensures NumberOf(DigitsOf(v, b, n), b) == Last(v, Pow(b, n))
    decreases n
  {
    hide Upper, Last, Pow, NumberOf, DigitsOf;
    if n > 0 {
      NumberOfDigits(Upper(v, b), b, n - 1);
      NumberSnoc(DigitsOf(Upper(v, b), b, n - 1), Last(v, b), b);
      DigitsUnfold(v, b, n);
      UpperUpper(v, b, n - 1);
    } else {
      NoDigits(v, b);
    }
  }

  lemma NoDigits(v: nat, b: nat)
    requires b > 0
    ensures DigitsOf(v, b, 0) == [] && NumberOf([], b) == 0 && Pow(b, 0) == 1
    ensures Upper(v, 1) == v && Last(v, 1) == 0
  {
    UpperOne(v);
  }

  lemma SmallLast(v: nat, p: nat)
    requires v < p
    ensures Last(v, p) == v
  {
    DivUnique(v, p, 0, v);
  }

  /** Digits are unique: only one string of n digits stands for a number. */
  lemma {:induction false} DigitsOfNumber(ds: seq<nat>, b: nat)
    requires b > 0 && AreDigits(ds, b)
    ensures DigitsOf(NumberOf(ds, b), b, |ds|) == ds
    decreases |ds|
  {
    if ds != [] {
      var n := |ds| - 1;
      DigitsOfNumber(ds[..n], b);
      UpperIs(NumberOf(ds, b), b, NumberOf(ds[..n], b), ds[n]);
      assert ds == ds[..n] + [ds[n]];
    }
  }

  lemma {:induction false} DigitsSplit(v: nat, b: nat, i: nat, j: nat)
    requires b > 0
    ensures DigitsOf(v, b, i + j) == DigitsOf(Upper(v, Pow(b, j)), b, i) + DigitsOf(v, b, j)
    decreases j
  {
    hide Upper, Last, Pow, DigitsOf;
    if j > 0 {
      var u := Upper(v, b);
      DigitsSplit(u, b, i, j - 1);
      UpperUpper(v, b, j - 1);
      DigitsUnfold(v, b, i + j);
      DigitsUnfold(v, b, j);
      assert DigitsOf(Upper(v, Pow(b, j)), b, i) + DigitsOf(u, b, j - 1) + [Last(v, b)]
          == DigitsOf(Upper(v, Pow(b, j)), b, i) + (DigitsOf(u, b, j - 1) + [Last(v, b)]);
    } else {
      NoDigits(v, b);
      assert DigitsOf(v, b, i) + [] == DigitsOf(v, b, i);
    }
  }

  /** The low digits only depend on the number modulo a multiple of b^n. */
  lemma {:induction false} LowDigits(v: nat, w: nat, k: nat, b: nat, n: nat)
    requires b > 0 && v == w + k * Pow(b, n)
    ensures DigitsOf(v, b, n) == DigitsOf(w, b, n)
    decreases n
  {
    if n > 0 {
      UpperPlus(v, w, k, b, n);
      LowDigits(Upper(v, b), Upper(w, b), k, b, n - 1);
    }
  }

  lemma UpperPlus(v: nat, w: nat, k: nat, b: nat, n: nat)
    requires b > 0 && n > 0 && v == w + k * Pow(b, n)
    ensures Upper(v, b) == Upper(w, b) + k * Pow(b, n - 1) && Last(v, b) == Last(w, b)
  {
    PowSucc(b, n - 1);
    UpperParts(w, b);
    hide Pow, Upper, Last;
    MulAssoc(k, Pow(b, n - 1), b);
    MulDist(Upper(w, b), k * Pow(b, n - 1), b);
    UpperIs(v, b, Upper(w, b) + k * Pow(b, n - 1), Last(w, b));
  }

  // The limb tables.

  const RADIX_BASE: seq<nat> := [
    0x00000000, 0xcfd41b91, 0x00000000, 0x48c27395,
    0x81bf1000, 0x75db9c97, 0x40000000, 0xcfd41b91,
    0x3b9aca00, 0x8c8b6d2b, 0x19a10000, 0x309f1021,
    0x57f6c100, 0x98c29b81, 0x00000000, 0x18754571,
    0x247dbc80, 0x3547667b, 0x4c4b4000, 0x6b5a6e1d,
    0x94ace180, 0xcaf18367, 0x0b640000, 0x0e8d4a51,
    0x1269ae40, 0x17179149, 0x1cb91000, 0x23744899,
    0x2b73a840, 0x34e63b41, 0x40000000, 0x4cfa3cc1,
    0x5c13d840, 0x6d91b519, 0x81bf1000
  ]

  /** The table entry as a number: 0 stands for 2^32. */
  function BaseOf(radix: nat): nat
    requires 2 <= radix <= 36
  {
    if RADIX_BASE[radix - 2] == 0 then BASE else RADIX_BASE[radix - 2]
  }

  lemma Power20()
    ensures Pow(2, 32) == BASE && Pow(3, 20) == 0xcfd41b91 && Pow(4, 16) == BASE
    ensures Pow(5, 13) == 0x48c27395 && Pow(16, 8) == BASE
  {
    PowLimb();
    ThreeDigitsFit();
    hide Pow;
    PowChain(4);
    PowAdd(4, 8, 8);
    PowChain(5);
    PowChain(16);
  }

  lemma BaseSix(radix: nat)
    requires 6 <= radix <= 8
    ensures Pow(radix, DIGITS_PER_LIMB[radix - 2]) == BaseOf(radix)
  {
    hide Pow;
    if radix == 6 { PowChain(6); }
    if radix == 7 { PowChain(7); }
    if radix == 8 { PowChain(8); }
  }

  lemma BaseNine(radix: nat)
    requires 9 <= radix <= 11
    ensures Pow(radix, DIGITS_PER_LIMB[radix - 2]) == BaseOf(radix)
  {
    hide Pow;
    if radix == 9 { PowChain(9); }
    if radix == 10 { PowChain(10); }
    if radix == 11 { PowChain(11); }
  }

  lemma BaseTeens(radix: nat)
    requires 12 <= radix <= 15
    ensures Pow(radix, DIGITS_PER_LIMB[radix - 2]) == BaseOf(radix)
  {
    hide Pow;
    if radix == 12 { PowChain(12); }
    if radix == 13 { PowChain(13); }
    if radix == 14 { PowChain(14); }
    if radix == 15 { PowChain(15); }
  }

  lemma BaseMid(radix: nat)
    requires 17 <= radix <= 19
    ensures Pow(radix, DIGITS_PER_LIMB[radix - 2]) == BaseOf(radix)
  {
    hide Pow;
    if radix == 17 { PowChain(17); }
    if radix == 18 { PowChain(18); }
    if radix == 19 { PowChain(19); }
  }

  lemma BaseTwenty(radix: nat)
    requires 20 <= radix <= 21
    ensures Pow(radix, DIGITS_PER_LIMB[radix - 2]) == BaseOf(radix)
  {
    hide Pow;
    if radix == 20 { PowChain(20); }
    if radix == 21 { PowChain(21); }
  }

  lemma BaseTwenties(radix: nat)
    requires 22 <= radix <= 26
    ensures Pow(radix, DIGITS_PER_LIMB[radix - 2]) == BaseOf(radix)
  {
    hide Pow;
    if radix == 22 { PowChain(22); }
    if radix == 23 { PowChain(23); }
    if radix == 24 { PowChain(24); }
    if radix == 25 { PowChain(25); }
    if radix == 26 { PowChain(26); }
  }

  lemma BaseHigh(radix: nat)
    requires 27 <= radix <= 31
    ensures Pow(radix, DIGITS_PER_LIMB[radix - 2]) == BaseOf(radix)
  {
    hide Pow;
    if radix == 27 { PowChain(27); }
    if radix == 28 { PowChain(28); }
    if radix == 29 { PowChain(29); }
    if radix == 30 { PowChain(30); }
    if radix == 31 { PowChain(31); }
  }

  lemma BaseHighest(radix: nat)
    requires 32 <= radix <= 36
    ensures Pow(radix, DIGITS_PER_LIMB[radix - 2]) == BaseOf(radix)
  {
    hide Pow;
    if radix == 32 { PowChain(32); }
    if radix == 33 { PowChain(33); }
    if radix == 34 { PowChain(34); }
    if radix == 35 { PowChain(35); }
    if radix == 36 { PowChain(36); }
  }

  /** The two tables belong together, for every radix. */
  lemma BaseIs(radix: nat)
    requires 2 <= radix <= 36
    ensures DIGITS_PER_LIMB[radix - 2] >= 1
    ensures Pow(radix, DIGITS_PER_LIMB[radix - 2]) == BaseOf(radix) <= BASE
  {
    if radix <= 5 || radix == 16 {
      Power20();
      hide Pow;
    } else {
      hide Pow;
      if radix <= 8 { BaseSix(radix); }
      else if radix <= 11 { BaseNine(radix); }
      else if radix <= 15 { BaseTeens(radix); }
      else if radix <= 19 { BaseMid(radix); }
      else if radix <= 21 { BaseTwenty(radix); }
      else if radix <= 26 { BaseTwenties(radix); }
      else if radix <= 31 { BaseHigh(radix); }
      else { BaseHighest(radix); }
    }
  }

  // Reading digits.

  /** mpb_mul1_base: r * radixBase + a, where radixBase 0 stands for 2^32. */
  method MulBase(r: Mpb, radixBase: Limb, a: Limb)
    requires r.Normal()
    modifies r
    ensures r.Normal() && r.Val() == old(r.Val()) * (if radixBase == 0 then BASE else radixBase) + a
  {
    ghost var b: nat := if radixBase == 0 then BASE else radixBase;
    ZeroIff(r.tab);
    hide Value, Pow;
    if r.tab[0] == 0 && |r.tab| == 1 {
      ValueOne(a);
      r.tab := [a];
    } else {
      if radixBase == 0 {
        ShiftUp(r.tab, a);
        r.tab := [a] + r.tab;
      } else {
        var h := r.MpMul1(radixBase, a);
        AppendLimb(r.tab, h);
        r.tab := r.tab + [h];
      }
      r.Renorm();
    }
  }

  lemma ShiftUp(s: seq<Limb>, a: Limb)
    ensures Value([a] + s) == Value(s) * BASE + a
  {
    assert ([a] + s)[1..] == s;
  }

  /** The digits read so far: the number, then limbCount digits still in curLimb. */
  ghost predicate ReadSoFar(v: nat, cur: nat, limbCount: nat, ds: seq<nat>, radix: nat) {
    NumberOf(ds, radix) == v * Pow(radix, limbCount) + cur && cur < Pow(radix, limbCount)
  }

  lemma ReadDigit(v: nat, cur: nat, limbCount: nat, ds: seq<nat>, c: nat, radix: nat)
    requires ReadSoFar(v, cur, limbCount, ds, radix) && c < radix
    ensures ReadSoFar(v, NextLimb(cur, c, radix), limbCount + 1, ds + [c], radix)
  {
    NumberSnoc(ds, c, radix);
    PowSucc(radix, limbCount);
    hide Pow, NumberOf;
    var p := Pow(radix, limbCount);
    MulDist(v * p, cur, radix);
    MulAssoc(v, p, radix);
    MulMono(cur + 1, p, radix);
    MulDist(cur, 1, radix);
  }

  lemma ReadLimb(v: nat, cur: nat, limbCount: nat, ds: seq<nat>, radix: nat, v1: nat, b: nat)
    requires ReadSoFar(v, cur, limbCount, ds, radix) && b == Pow(radix, limbCount) && v1 == v * b + cur
    ensures ReadSoFar(v1, 0, 0, ds, radix)
  {
    PowZero(radix);
  }

  /** cur_limb * radix + c. */
  function NextLimb(cur: nat, c: nat, radix: nat): nat {
    cur * radix + c
  }

  /** One digit of that loop; a full limb goes to the number. */
  method TakeDigit(tmp: Mpb, cur0: Limb, limbCount0: nat, c: nat, radix: nat, ghost ds: seq<nat>)
    returns (cur: Limb, limbCount: nat)
    requires 2 <= radix <= 36 && c < radix && tmp.Normal() && limbCount0 < DIGITS_PER_LIMB[radix - 2]
    requires ReadSoFar(tmp.Val(), cur0, limbCount0, ds, radix)
    modifies tmp
    ensures tmp.Normal() && limbCount < DIGITS_PER_LIMB[radix - 2]
    ensures ReadSoFar(tmp.Val(), cur, limbCount, ds + [c], radix)
  {
    BaseIs(radix);
    ReadDigit(tmp.Val(), cur0, limbCount0, ds, c, radix);
    hide Pow, NumberOf, ReadSoFar, Value, NextLimb;
    LimbFits(tmp.Val(), NextLimb(cur0, c, radix), limbCount0 + 1, ds + [c], radix, DIGITS_PER_LIMB[radix - 2]);
    cur := NextLimb(cur0, c, radix);
    limbCount := limbCount0 + 1;
    if limbCount == DIGITS_PER_LIMB[radix - 2] {
      ghost var v := tmp.Val();
      MulBase(tmp, RADIX_BASE[radix - 2], cur);
      ReadLimb(v, cur, limbCount, ds + [c], radix, tmp.Val(), BaseOf(radix));
      cur := 0;
      limbCount := 0;
    }
  }

  /** Whether a digit from position i up to j is not zero. */
  ghost predicate SomeNonZero(ds: seq<nat>, i: nat, j: nat)
    requires j <= |ds|
  {
    exists k :: i <= k < j && ds[k] != 0
  }

  /** The digit loop of js_atod: the number of the first maxDigits digits, and whether others were not zero. */
  method AccumulateDigits(ds: seq<nat>, radix: nat, maxDigits: nat) returns (tmp: Mpb, digitCount: nat, extra: bool)
    requires 2 <= radix <= 36 && AreDigits(ds, radix)
    ensures fresh(tmp) && tmp.Normal() && digitCount == (if |ds| < maxDigits then |ds| else maxDigits)
    ensures tmp.Val() == NumberOf(ds[..digitCount], radix)
    ensures extra <==> SomeNonZero(ds, digitCount, |ds|)
  {
    tmp := new Mpb(0);
    digitCount := 0;
    extra := false;
    BaseIs(radix);
    var cur: Limb, limbCount := 0, 0;
    ReadNothing(radix);
    hide Pow, NumberOf, ReadSoFar, Value;
    for pos := 0 to |ds|
      invariant fresh(tmp) && tmp.Normal() && digitCount == (if pos < maxDigits then pos else maxDigits)
      invariant limbCount < DIGITS_PER_LIMB[radix - 2]
      invariant ReadSoFar(tmp.Val(), cur, limbCount, ds[..digitCount], radix)
      invariant extra <==> SomeNonZero(ds, digitCount, pos)
    {
      if digitCount < maxDigits {
        cur, limbCount := TakeDigit(tmp, cur, limbCount, ds[pos], radix, ds[..pos]);
        assert ds[..pos] + [ds[pos]] == ds[..pos + 1];
        digitCount := digitCount + 1;
      } else {
        assert SomeNonZero(ds, digitCount, pos + 1) <==> SomeNonZero(ds, digitCount, pos) || ds[pos] != 0;
        extra := extra || ds[pos] != 0;
      }
    }
    if limbCount != 0 {
      PowLess(radix, limbCount, DIGITS_PER_LIMB[radix - 2]);
      var base := PowUi(radix, limbCount);
      ghost var v := tmp.Val();
      MulBase(tmp, base, cur);
      ReadLimb(v, cur, limbCount, ds[..digitCount], radix, tmp.Val(), base);
      cur := 0;
    }
    ReadAll(tmp.Val(), ds[..digitCount], radix, limbCount, cur);
  }

  lemma ReadAll(v: nat, ds: seq<nat>, radix: nat, limbCount: nat, cur: nat)
    requires ReadSoFar(v, 0, 0, ds, radix) || (limbCount == 0 && ReadSoFar(v, cur, limbCount, ds, radix))
    ensures v == NumberOf(ds, radix)
  {
    PowZero(radix);
  }

  lemma LimbFits(v: nat, cur: nat, limbCount: nat, ds: seq<nat>, radix: nat, n: nat)
    requires radix > 0 && ReadSoFar(v, cur, limbCount, ds, radix) && limbCount <= n && Pow(radix, n) <= BASE
    ensures cur < BASE
  {
    PowMono(radix, limbCount, n);
  }

  lemma ReadNothing(radix: nat)
    ensures ReadSoFar(0, 0, 0, [], radix)
  {
  }

  // Writing digits.

  /** limb_to_a and u64toa_bin_len: the digits of n, with leading zeros, from position off of the buffer. */
  method LimbToA(buf: array<nat>, off: nat, n: nat, radix: nat, len: nat)
    requires radix > 0 && off + len <= buf.Length
    modifies buf
    ensures buf[off..off + len] == DigitsOf(n, radix, len)
    ensures buf[..off] == old(buf[..off]) && buf[off + len..] == old(buf[off + len..])
  {
    hide Upper, Last;
    var v, i := n, len;
    assert buf[off + len..off + len] == [];
    while i > 0
      invariant 0 <= i <= len
      invariant buf[..off] == old(buf[..off]) && buf[off + len..] == old(buf[off + len..])
      invariant DigitsOf(n, radix, len) == DigitsOf(v, radix, i) + buf[off + i..off + len]
      decreases i
    {
      i := i - 1;
      ghost var tail := buf[off + i + 1..off + len];
      buf[off + i] := Last(v, radix);
      assert buf[off + i..off + len] == [Last(v, radix)] + tail;
      DigitsUnfold(v, radix, i + 1);
      assert DigitsOf(Upper(v, radix), radix, i) + [Last(v, radix)] + tail
          == DigitsOf(Upper(v, radix), radix, i) + ([Last(v, radix)] + tail);
      v := Upper(v, radix);
    }
    assert DigitsOf(v, radix, 0) == [];
  }

  /** The bits of a digit in a radix that is a power of two, else 0. */
  function RadixBits(radix: nat): nat {
    if radix == 2 then 1 else if radix == 4 then 2 else if radix == 8 then 3
    else if radix == 16 then 4 else if radix == 32 then 5 else 0
  }

  lemma RadixBitsIs(radix: nat)
    requires 2 <= radix <= 36
    ensures RadixBits(radix) != 0 ==> Pow(2, RadixBits(radix)) == radix
    ensures RadixBits(radix) == 0 ==> RADIX_BASE[radix - 2] != 0
  {
    assert Pow(2, 1) == 2 && Pow(2, 2) == 4 && Pow(2, 3) == 8 && Pow(2, 4) == 16 && Pow(2, 5) == 32;
  }

  /** What is left of the number after a limb of digits has been written. */
  method DropDigits(a: Mpb, radix: nat) returns (r: Limb)
    requires 2 <= radix <= 36 && a.Normal()
    modifies a
    ensures a.Normal() && a.Val() == Upper(old(a.Val()), BaseOf(radix))
    ensures forall n: nat | n <= DIGITS_PER_LIMB[radix - 2] :: DigitsOf(old(a.Val()), radix, n) == DigitsOf(r, radix, n)
  {
    BaseIs(radix);
    RadixBitsIs(radix);
    var d, bits := DIGITS_PER_LIMB[radix - 2], RadixBits(radix);
    ghost var v := a.Val();
    hide Value, Pow, Upper, DigitsOf;
    if bits != 0 {
      r := a.tab[0];
      LowLimb(a.tab, radix, d, bits);
      PowMul(2, bits, d);
      a.ShrRound(d * bits, RNDZ);
      TruncatedShift(v, d * bits);
    } else {
      r := a.MpDiv1(RADIX_BASE[radix - 2], 0);
      a.Renorm();
      UpperIs(v, BaseOf(radix), a.Val(), r);
      LowerDigits(v, r, a.Val(), radix, d);
    }
  }

  lemma TruncatedShift(v: nat, s: nat)
    ensures RoundShift(v, s, RNDZ) == Upper(v, Pow(2, s))
  {
  }

  lemma LowerDigits(v: nat, r: nat, q: nat, radix: nat, d: nat)
    requires radix > 0 && v == q * Pow(radix, d) + r
    ensures forall n: nat | n <= d :: DigitsOf(v, radix, n) == DigitsOf(r, radix, n)
  {
    forall n: nat | n <= d ensures DigitsOf(v, radix, n) == DigitsOf(r, radix, n) {
      PowAdd(radix, d - n, n);
      MulAssoc(q, Pow(radix, d - n), Pow(radix, n));
      LowDigits(v, r, q * Pow(radix, d - n), radix, n);
    }
  }

  /** In a radix that is a power of two the low digits are in the low limb. */
  lemma LowLimb(s: seq<Limb>, radix: nat, d: nat, bits: nat)
    requires |s| >= 1 && radix > 0 && Pow(2, bits) == radix && Pow(radix, d) <= BASE
    ensures forall n: nat | n <= d :: DigitsOf(Value(s), radix, n) == DigitsOf(s[0], radix, n)
  {
    var w := WholeBase(radix, d, bits);
    ValueSuffix(s, 0);
    assert s[0..] == s;
    hide Value, Pow;
    MulAssoc(Value(s[1..]), w, Pow(radix, d));
    assert BASE * Value(s[1..]) == Value(s[1..]) * BASE;
    LowerDigits(Value(s), s[0], Value(s[1..]) * w, radix, d);
  }

  lemma WholeBase(radix: nat, d: nat, bits: nat) returns (w: nat)
    requires Pow(2, bits) == radix && Pow(radix, d) <= BASE
    ensures w * Pow(radix, d) == BASE
  {
    var j := bits * d;
    PowMul(2, bits, d);
    PowLimb();
    hide Pow;
    if j > LIMB_BITS { PowLess(2, LIMB_BITS, j); }
    PowAdd(2, LIMB_BITS - j, j);
    w := Pow(2, LIMB_BITS - j);
  }

  /** One limb of digits of output_digits, written before position left + n. */
  method WriteLimb(buf: array<nat>, a: Mpb, radix: nat, left: nat, n: nat, ghost nDigits: nat)
    requires 2 <= radix <= 36 && a.Normal() && left + n <= nDigits <= buf.Length
    requires n <= DIGITS_PER_LIMB[radix - 2] && (n < DIGITS_PER_LIMB[radix - 2] ==> left == 0)
    modifies buf, a
    ensures a.Normal() && buf[nDigits..] == old(buf[nDigits..])
    ensures DigitsOf(old(a.Val()), radix, left + n) + old(buf[left + n..nDigits])
         == DigitsOf(a.Val(), radix, left) + buf[left..nDigits]
  {
    hide Value, Pow, Upper, BaseOf, DigitsOf;
    ghost var v, tail, b := a.Val(), buf[left + n..nDigits], buf[..];
    var r := DropDigits(a, radix);
    LimbToA(buf, left, r, radix, n);
    WrittenLimb(v, radix, left, n, DIGITS_PER_LIMB[radix - 2], a.Val(), DigitsOf(r, radix, n), tail);
    SameEnd(b, buf[..], left + n, nDigits);
    assert buf[left..nDigits] == buf[left..left + n] + buf[left + n..nDigits];
  }

  /** What two texts share from k on, they share up to m and behind m. */
  lemma SameEnd(b: seq<nat>, c: seq<nat>, k: nat, m: nat)
    requires |b| == |c| && k <= m <= |b| && b[k..] == c[k..]
    ensures b[k..m] == c[k..m] && b[m..] == c[m..]
  {
    assert b[k..m] == b[k..][..m - k] && c[k..m] == c[k..][..m - k];
    assert b[m..] == b[k..][m - k..] && c[m..] == c[k..][m - k..];
  }

  /** output_digits, before the dot is put in: the last nDigits digits of the number, zero-padded. */
  method OutputDigits(buf: array<nat>, a: Mpb, radix: nat, nDigits: nat)
    requires 2 <= radix <= 36 && a.Normal() && nDigits <= buf.Length
    modifies buf, a
    ensures buf[..nDigits] == DigitsOf(old(a.Val()), radix, nDigits)
    ensures buf[nDigits..] == old(buf[nDigits..])
  {
    var d := DIGITS_PER_LIMB[radix - 2];
    BaseIs(radix);
    hide Value, Pow, Upper, BaseOf;
    var left := nDigits;
    assert buf[nDigits..nDigits] == [];
    while left > 0
      invariant 0 <= left <= nDigits && a.Normal()
      invariant buf[nDigits..] == old(buf[nDigits..])
      invariant DigitsOf(old(a.Val()), radix, nDigits) == DigitsOf(a.Val(), radix, left) + buf[left..nDigits]
      decreases left
    {
      var n := if left < d then left else d;
      left := left - n;
      WriteLimb(buf, a, radix, left, n, nDigits);
    }
    assert DigitsOf(a.Val(), radix, 0) == [];
  }

  lemma WrittenLimb(v: nat, radix: nat, left: nat, n: nat, d: nat, q: nat, low: seq<nat>, tail: seq<nat>)
    requires 2 <= radix <= 36 && n <= d && d == DIGITS_PER_LIMB[radix - 2] && (n < d ==> left == 0)
    requires q == Upper(v, BaseOf(radix)) && low == DigitsOf(v, radix, n)
    ensures DigitsOf(v, radix, left + n) + tail == DigitsOf(q, radix, left) + (low + tail)
  {
    BaseIs(radix);
    hide Pow, Upper, Last, BaseOf;
    if n < d {
      assert DigitsOf(q, radix, 0) == [];
      assert [] + (low + tail) == low + tail;
    } else {
      hide DigitsOf;
      DigitsSplit(v, radix, left, n);
      assert DigitsOf(q, radix, left) + low + tail == DigitsOf(q, radix, left) + (low + tail);
    }
  }
}
