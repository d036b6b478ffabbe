/** Unicode normalization: full decomposition, canonical ordering and composition. */
module Normalization {

  // Hangul.

  const S_BASE: int := 0xac00
  const L_BASE: int := 0x1100
  const V_BASE: int := 0x1161
  const T_BASE: int := 0x11a7

  predicate IsSyllable(c: int) { S_BASE <= c < S_BASE + 11172 }

  predicate IsLV(c: int) { IsSyllable(c) && (c - S_BASE) % 28 == 0 }

  predicate IsL(c: int) { L_BASE <= c < L_BASE + 19 }

  predicate IsV(c: int) { V_BASE <= c < V_BASE + 21 }

  predicate IsT(c: int) { T_BASE <= c < T_BASE + 28 }

  function HangulParts(c: int): seq<int>
    requires IsSyllable(c)
  {
    var n := c - S_BASE;
    [L_BASE + n / 588, V_BASE + n % 588 / 28] + if n % 28 != 0 then [T_BASE + n % 28] else []
  }

  /** The character data: combining classes, one-level decompositions, composition pairs. */
  datatype Tables = Tables(cc: int -> nat, decomp: int -> seq<int>, pair: (int, int) -> int, rank: int -> nat) {
    /** Decompositions end, jamo and syllables are starters without table entries, and a pair is the
        decomposition of its composite, which is a starter. */
    ghost predicate Valid() {
      && (forall c, k {:trigger decomp(c)[k]} :: 0 <= k < |decomp(c)| ==> rank(decomp(c)[k]) < rank(c))
      && (forall c {:trigger cc(c)} :: cc(c) < 256 && (IsSyllable(c) || IsL(c) || IsV(c) || IsT(c) ==> cc(c) == 0))
      && (forall c {:trigger decomp(c)} :: IsL(c) || IsV(c) || IsT(c) ==> decomp(c) == [])
      && (forall c, d {:trigger pair(c, d)} :: pair(c, d) != 0 ==>
            && decomp(pair(c, d)) == [c, d] && cc(pair(c, d)) == 0
            && !IsSyllable(pair(c, d)) && !IsL(pair(c, d)) && !IsL(d))
    }
  }

  // Full decomposition.

  function Full(t: Tables, c: int): (s: seq<int>)
    requires t.Valid()
    ensures |s| > 0
    decreases t.rank(c), 1, 0
  {
    if IsSyllable(c) then HangulParts(c)
    else if t.decomp(c) == [] then [c]
    else FullEach(t, c, t.decomp(c))
  }

  function FullEach(t: Tables, owner: int, s: seq<int>): (r: seq<int>)
    requires t.Valid() && forall k :: 0 <= k < |s| ==> t.rank(s[k]) < t.rank(owner)
    ensures s != [] ==> |r| > 0
    decreases t.rank(owner), 0, |s|
  {
    if s == [] then [] else FullEach(t, owner, s[..|s| - 1]) + Full(t, s[|s| - 1])
  }

  function FullSeq(t: Tables, s: seq<int>): seq<int>
    requires t.Valid()
  {
    if s == [] then [] else FullSeq(t, s[..|s| - 1]) + Full(t, s[|s| - 1])
  }

  lemma {:induction false} FullEachIs(t: Tables, owner: int, s: seq<int>)
    requires t.Valid() && forall k :: 0 <= k < |s| ==> t.rank(s[k]) < t.rank(owner)
    ensures FullEach(t, owner, s) == FullSeq(t, s)
    decreases |s|
  {
    if s != [] { FullEachIs(t, owner, s[..|s| - 1]); }
  }

  lemma FullIs(t: Tables, c: int)
    requires t.Valid()
    ensures Full(t, c) == if IsSyllable(c) then HangulParts(c) else if t.decomp(c)
      == [] then [c] else FullSeq(t, t.decomp(c))
  {
    if !IsSyllable(c) && t.decomp(c) != [] { FullEachIs(t, c, t.decomp(c)); }
  }

  lemma FullSnoc(t: Tables, s: seq<int>, c: int)
    requires t.Valid()
    ensures FullSeq(t, s + [c]) == FullSeq(t, s) + Full(t, c)
  {
    assert (s + [c])[..|s|] == s;
  }

  lemma {:induction false} FullAppend(t: Tables, s: seq<int>, u: seq<int>)
    requires t.Valid()
    ensures FullSeq(t, s + u) == FullSeq(t, s) + FullSeq(t, u)
    decreases |u|
  {
    if u == [] {
      assert s + u == s;
    } else {
      var n := |u| - 1;
      assert s + u == (s + u[..n]) + [u[n]];
      FullSnoc(t, s + u[..n], u[n]);
      FullAppend(t, s, u[..n]);
      assert FullSeq(t, s) + FullSeq(t, u[..n]) + Full(t, u[n]) == FullSeq(t, s) + (FullSeq(t, u[..n]) + Full(t, u[n]));
    }
  }

  /** A character that decomposes to itself. */
  ghost predicate Fixed(t: Tables, c: int)
    requires t.Valid()
  {
    Full(t, c) == [c]
  }

  ghost predicate AllFixed(t: Tables, s: seq<int>)
    requires t.Valid()
  {
    forall k :: 0 <= k < |s| ==> Fixed(t, s[k])
  }

  lemma JamoFixed(t: Tables, c: int)
    requires t.Valid() && (IsL(c) || IsV(c) || IsT(c))
    ensures Fixed(t, c)
  {
    assert t.decomp(c) == [];
  }

  lemma FixedAppend(t: Tables, s: seq<int>, u: seq<int>)
    requires t.Valid() && AllFixed(t, s) && AllFixed(t, u)
    ensures AllFixed(t, s + u)
  {
  }

  /** Full decompositions cannot be decomposed further. */
  lemma {:induction false} FullFixed(t: Tables, c: int)
    requires t.Valid()
    ensures AllFixed(t, Full(t, c))
    decreases t.rank(c), 1, 0
  {
    if IsSyllable(c) {
      var ps := HangulParts(c);
      forall k | 0 <= k < |ps| ensures Fixed(t, ps[k]) {
        SyllableParts(c);
        JamoFixed(t, ps[k]);
      }
    } else if t.decomp(c) != [] {
      FullEachFixed(t, c, t.decomp(c));
    }
  }

  lemma {:induction false} FullEachFixed(t: Tables, owner: int, s: seq<int>)
    requires t.Valid() && forall k :: 0 <= k < |s| ==> t.rank(s[k]) < t.rank(owner)
    ensures AllFixed(t, FullEach(t, owner, s))
    decreases t.rank(owner), 0, |s|
  {
    if s != [] {
      FullEachFixed(t, owner, s[..|s| - 1]);
      FullFixed(t, s[|s| - 1]);
      FixedAppend(t, FullEach(t, owner, s[..|s| - 1]), Full(t, s[|s| - 1]));
    }
  }

  lemma SyllableParts(c: int)
    requires IsSyllable(c)
    ensures var ps := HangulParts(c);
      IsL(ps[0]) && IsV(ps[1]) && |ps| <= 3 && (|ps| == 3 ==> IsT(ps[2]) && ps[2] != T_BASE)
  {
    var n := c - S_BASE;
    assert 0 <= n / 588 < 19 && 0 <= n % 588 / 28 < 21;
  }

  lemma {:induction false} FullSeqFixed(t: Tables, s: seq<int>)
    requires t.Valid()
    ensures AllFixed(t, FullSeq(t, s))
    decreases |s|
  {
    if s != [] {
      FullSeqFixed(t, s[..|s| - 1]);
      FullFixed(t, s[|s| - 1]);
      FixedAppend(t, FullSeq(t, s[..|s| - 1]), Full(t, s[|s| - 1]));
    }
  }

  lemma FullSeqEmpty(t: Tables)
    requires t.Valid()
    ensures FullSeq(t, []) == []
  {
  }

  lemma {:induction false} FixedFull(t: Tables, s: seq<int>)
    requires t.Valid() && AllFixed(t, s)
    ensures FullSeq(t, s) == s
    decreases |s|
  {
    hide Full, FullSeq;
    if s == [] {
      FullSeqEmpty(t);
    } else {
      var u, c := s[..|s| - 1], s[|s| - 1];
      assert s == u + [c] && Fixed(t, c);
      FixedFull(t, u);
      FullSnoc(t, u, c);
    }
  }

  // Canonical ordering.

  /** x put behind s, but before the marks of a higher class. */
  function Push(t: Tables, s: seq<int>, x: int): (r: seq<int>)
    ensures |r| == |s| + 1
  {
    if s == [] || t.cc(x) == 0 || t.cc(s[|s| - 1]) <= t.cc(x) then s + [x]
    else Push(t, s[..|s| - 1], x) + [s[|s| - 1]]
  }

  lemma PushBehind(t: Tables, s: seq<int>, x: int)
    requires s == [] || t.cc(x) == 0 || t.cc(s[|s| - 1]) <= t.cc(x)
    ensures Push(t, s, x) == s + [x]
  {
  }

  function Order(t: Tables, s: seq<int>): (r: seq<int>)
    ensures |r| == |s|
  {
    if s == [] then [] else Push(t, Order(t, s[..|s| - 1]), s[|s| - 1])
  }

  /** No mark stands behind one of a higher class. */
  predicate Ordered(t: Tables, s: seq<int>) {
    forall k :: 0 < k < |s| ==> t.cc(s[k]) == 0 || t.cc(s[k - 1]) <= t.cc(s[k])
  }

  lemma OrderSnoc(t: Tables, s: seq<int>, x: int)
    ensures Order(t, s + [x]) == Push(t, Order(t, s), x)
  {
    assert (s + [x])[..|s|] == s;
  }

  lemma {:induction false} PushOrdered(t: Tables, s: seq<int>, x: int)
    requires Ordered(t, s)
    ensures Ordered(t, Push(t, s, x))
    ensures var r := Push(t, s, x); r[|r| - 1] == x || (s != [] && r[|r| - 1] == s[|s| - 1])
    decreases |s|
  {
    if !(s == [] || t.cc(x) == 0 || t.cc(s[|s| - 1]) <= t.cc(x)) {
      PushOrdered(t, s[..|s| - 1], x);
    }
  }

  lemma {:induction false} OrderOrdered(t: Tables, s: seq<int>)
    ensures Ordered(t, Order(t, s))
    decreases |s|
  {
    if s != [] {
      OrderOrdered(t, s[..|s| - 1]);
      PushOrdered(t, Order(t, s[..|s| - 1]), s[|s| - 1]);
    }
  }

  lemma {:induction false} PushSame(t: Tables, s: seq<int>, x: int)
    ensures multiset(Push(t, s, x)) == multiset(s) + multiset{x}
    decreases |s|
  {
    if !(s == [] || t.cc(x) == 0 || t.cc(s[|s| - 1]) <= t.cc(x)) {
      PushSame(t, s[..|s| - 1], x);
      assert s == s[..|s| - 1] + [s[|s| - 1]];
    }
  }

  lemma {:induction false} OrderSame(t: Tables, s: seq<int>)
    ensures multiset(Order(t, s)) == multiset(s)
    decreases |s|
  {
    if s != [] {
      OrderSame(t, s[..|s| - 1]);
      PushSame(t, Order(t, s[..|s| - 1]), s[|s| - 1]);
      assert s == s[..|s| - 1] + [s[|s| - 1]];
    }
  }

  lemma {:induction false} OrderedIsFixed(t: Tables, s: seq<int>)
    requires Ordered(t, s)
    ensures Order(t, s) == s
    decreases |s|
  {
    hide Push;
    if s != [] {
      var n := |s| - 1;
      var u, x := s[..n], s[n];
      assert n > 0 ==> u[n - 1] == s[n - 1];
      assert s == u + [x];
      OrderedIsFixed(t, u);
      PushBehind(t, u, x);
    }
  }

  /** The characters of one class, in their order. */
  function OfClass(t: Tables, s: seq<int>, v: nat): seq<int> {
    if s == [] then []
    else OfClass(t, s[..|s| - 1], v) + if t.cc(s[|s| - 1]) == v then [s[|s| - 1]] else []
  }

  lemma {:induction false} PushStable(t: Tables, s: seq<int>, x: int, v: nat)
    ensures OfClass(t, Push(t, s, x), v) == OfClass(t, s, v) + if t.cc(x) == v then [x] else []
    decreases |s|
  {
    var r := Push(t, s, x);
    if s == [] || t.cc(x) == 0 || t.cc(s[|s| - 1]) <= t.cc(x) {
      assert r[..|s|] == s;
    } else {
      PushStable(t, s[..|s| - 1], x, v);
      assert r[..|r| - 1] == Push(t, s[..|s| - 1], x);
    }
  }

  /** Marks of the same class, and starters, keep their order. */
  lemma {:induction false} OrderStable(t: Tables, s: seq<int>, v: nat)
    ensures OfClass(t, Order(t, s), v) == OfClass(t, s, v)
    decreases |s|
  {
    if s != [] {
      OrderStable(t, s[..|s| - 1], v);
      PushStable(t, Order(t, s[..|s| - 1]), s[|s| - 1], v);
    }
  }

  lemma {:induction false} PushStarters(t: Tables, s: seq<int>, x: int, k: nat)
    requires k < |s| && t.cc(s[k]) == 0
    ensures Push(t, s, x)[k] == s[k]
    decreases |s|
  {
    if !(s == [] || t.cc(x) == 0 || t.cc(s[|s| - 1]) <= t.cc(x)) {
      PushStarters(t, s[..|s| - 1], x, k);
    }
  }

  /** Starters stay where they are. */
  lemma {:induction false} OrderStarters(t: Tables, s: seq<int>, k: nat)
    requires k < |s| && t.cc(s[k]) == 0
    ensures Order(t, s)[k] == s[k]
    decreases |s|
  {
    var n := |s| - 1;
    if k < n {
      OrderStarters(t, s[..n], k);
      PushStarters(t, Order(t, s[..n]), s[n], k);
    }
  }

  lemma PushPast(t: Tables, s: seq<int>, l: int, x: int)
    requires 0 < t.cc(x) < t.cc(l)
    ensures Push(t, s + [l], x) == Push(t, s, x) + [l]
  {
    assert (s + [l])[..|s|] == s;
  }

  lemma {:induction false} PushLast(t: Tables, s: seq<int>, x: int)
    ensures var r := Push(t, s, x); r[|r| - 1] == x || (s != [] && r[|r| - 1] == s[|s| - 1])
  {
  }

  /** Two marks of different classes can be pushed in either order. */
  lemma {:induction false} PushCommutes(t: Tables, s: seq<int>, a: int, b: int)
    requires 0 < t.cc(a) < t.cc(b)
    ensures Push(t, Push(t, s, a), b) == Push(t, Push(t, s, b), a)
    decreases |s|
  {
    hide Push;
    if s == [] || t.cc(s[|s| - 1]) <= t.cc(b) {
      PushBehind(t, s, b);
      PushPast(t, s, b, a);
      PushLast(t, s, a);
      PushBehind(t, Push(t, s, a), b);
    } else {
      var u, l := s[..|s| - 1], s[|s| - 1];
      assert s == u + [l];
      PushCommutes(t, u, a, b);
      PushPast(t, u, l, a);
      PushPast(t, u, l, b);
      PushPast(t, Push(t, u, a), l, b);
      PushPast(t, Push(t, u, b), l, a);
    }
  }

  function PushAll(t: Tables, o: seq<int>, s: seq<int>): seq<int> {
    if s == [] then o else Push(t, PushAll(t, o, s[..|s| - 1]), s[|s| - 1])
  }

  lemma {:induction false} OrderAppend(t: Tables, s: seq<int>, u: seq<int>)
    ensures Order(t, s + u) == PushAll(t, Order(t, s), u)
    decreases |u|
  {
    if u == [] {
      assert s + u == s;
    } else {
      var n := |u| - 1;
      assert s + u == (s + u[..n]) + [u[n]];
      OrderSnoc(t, s + u[..n], u[n]);
      OrderAppend(t, s, u[..n]);
    }
  }

  /** Adjacent marks of different classes can be exchanged. */
  lemma OrderSwap(t: Tables, s: seq<int>, a: int, b: int, u: seq<int>)
    requires 0 < t.cc(a) < t.cc(b)
    ensures Order(t, s + [a] + [b] + u) == Order(t, s + [b] + [a] + u)
  {
    OrderAppend(t, s + [a] + [b], u);
    OrderAppend(t, s + [b] + [a], u);
    OrderSnoc(t, s + [a], b);
    OrderSnoc(t, s, a);
    OrderSnoc(t, s + [b], a);
    OrderSnoc(t, s, b);
    PushCommutes(t, Order(t, s), a, b);
  }

  /** A mark can be moved in front of marks of lower classes. */
  lemma {:induction false} OrderMove(t: Tables, s: seq<int>, m: seq<int>, x: int, u: seq<int>)
    requires forall k :: 0 <= k < |m| ==> 0 < t.cc(m[k]) < t.cc(x)
    ensures Order(t, s + m + [x] + u) == Order(t, s + [x] + m + u)
    decreases |m|
  {
    if m == [] {
      assert s + m + [x] + u == s + [x] + m + u;
    } else {
      var n := |m| - 1;
      var m1, y := m[..n], m[n];
      assert s + m + [x] + u == (s + m1) + [y] + [x] + u;
      OrderSwap(t, s + m1, y, x, u);
      assert (s + m1) + [x] + [y] + u == s + m1 + [x] + ([y] + u);
      OrderMove(t, s, m1, x, [y] + u);
      assert s + [x] + m1 + ([y] + u) == s + [x] + m + u;
    }
  }

  // NFD.

  function Nfd(t: Tables, s: seq<int>): seq<int>
    requires t.Valid()
  {
    Order(t, FullSeq(t, s))
  }

  lemma OrderFixed(t: Tables, s: seq<int>)
    requires t.Valid() && AllFixed(t, s)
    ensures AllFixed(t, Order(t, s))
  {
    var o := Order(t, s);
    OrderSame(t, s);
    forall k | 0 <= k < |o| ensures Fixed(t, o[k]) {
      assert o[k] in multiset(o);
      assert o[k] in s;
    }
  }

  lemma NfdShape(t: Tables, s: seq<int>)
    requires t.Valid()
    ensures AllFixed(t, Nfd(t, s)) && Ordered(t, Nfd(t, s))
  {
    FullSeqFixed(t, s);
    OrderFixed(t, FullSeq(t, s));
    OrderOrdered(t, FullSeq(t, s));
  }

  /** Normalizing twice is normalizing once. */
  lemma NfdIdempotent(t: Tables, s: seq<int>)
    requires t.Valid()
    ensures Nfd(t, Nfd(t, s)) == Nfd(t, s)
  {
    NfdShape(t, s);
    FixedFull(t, Nfd(t, s));
    OrderedIsFixed(t, Nfd(t, s));
  }

  // Composition.

  /** The composite of two characters, or 0. */
  function ComposePair(t: Tables, c: int, d: int): int {
    if IsL(c) && IsV(d) then S_BASE + (c - L_BASE) * 588 + (d - V_BASE) * 28
    else if IsLV(c) && IsT(d) then c + d - T_BASE
    else t.pair(c, d)
  }

  /** The position of the last starter, or -1. */
  function LastStarter(t: Tables, s: seq<int>): (k: int)
    ensures -1 <= k < |s|
    ensures k >= 0 ==> t.cc(s[k]) == 0
    ensures forall j :: k < j < |s| ==> t.cc(s[j]) != 0
  {
    if s == [] then -1
    else if t.cc(s[|s| - 1]) == 0 then |s| - 1
    else LastStarter(t, s[..|s| - 1])
  }

  /** A character between the starter at k and x keeps x from it (definition D115 of the Unicode Standard). */
  ghost predicate Blocked(t: Tables, s: seq<int>, k: int, x: int)
    requires 0 <= k < |s|
  {
    exists j :: k < j < |s| && (t.cc(s[j]) == 0 || t.cc(s[j]) >= t.cc(x))
  }

  ghost predicate Composes(t: Tables, s: seq<int>, x: int) {
    var k := LastStarter(t, s);
    k >= 0 && !Blocked(t, s, k, x) && ComposePair(t, s[k], x) != 0
  }

  ghost function Composite(t: Tables, s: seq<int>, x: int): int
    requires Composes(t, s, x)
  {
    ComposePair(t, s[LastStarter(t, s)], x)
  }

  ghost function Step(t: Tables, s: seq<int>, x: int): (r: seq<int>)
    ensures |r| <= |s| + 1
  {
    if Composes(t, s, x) then s[LastStarter(t, s) := Composite(t, s, x)] else s + [x]
  }

  /** Canonical composition: every character joins the last starter when nothing blocks it. */
  ghost function Composed(t: Tables, d: seq<int>): (r: seq<int>)
    ensures |r| <= |d|
  {
    if d == [] then [] else Step(t, Composed(t, d[..|d| - 1]), d[|d| - 1])
  }

  /** The composite of an LV syllable and U+11A7 is the syllable itself. */
  predicate Loses(c: int, d: int) { IsLV(c) && d == T_BASE }

  lemma FullSyllable(t: Tables, c: int)
    requires t.Valid() && IsSyllable(c)
    ensures Full(t, c) == HangulParts(c)
  {
  }

  lemma LVParts(l: int, v: int, c: int)
    requires IsL(l) && IsV(v) && c == S_BASE + (l - L_BASE) * 588 + (v - V_BASE) * 28
    ensures IsLV(c) && HangulParts(c) == [l, v]
  {
    var n, a, b := c - S_BASE, l - L_BASE, v - V_BASE;
    assert n == a * 588 + b * 28 && 0 <= a < 19 && 0 <= b < 21;
    assert n / 588 == a && n % 588 == b * 28 && n % 28 == 0;
  }

  lemma LVTParts(c: int, d: int)
    requires IsLV(c) && IsT(d) && d != T_BASE
    ensures IsSyllable(c + d - T_BASE) && !IsLV(c + d - T_BASE)
    ensures HangulParts(c + d - T_BASE) == HangulParts(c) + [d]
  {
    var n, m, e := c - S_BASE, (c - S_BASE) / 28, d - T_BASE;
    assert n == m * 28 && 0 <= m < 399 && 0 < e < 28;
    assert (n + e) % 28 == e && n / 588 == m / 21 && (n + e) / 588 == m / 21;
    assert n % 588 / 28 == m % 21 && (n + e) % 588 / 28 == m % 21;
  }

  /** What a composite stands for: its two parts, save for a lost U+11A7. */
  lemma CompositeFull(t: Tables, c: int, d: int)
    requires t.Valid() && Fixed(t, d) && ComposePair(t, c, d) != 0
    ensures var p := ComposePair(t, c, d);
      t.cc(p) == 0 && Full(t, p) == if Loses(c, d) then Full(t, c) else Full(t, c) + [d]
  {
    hide Full, FullSeq, HangulParts;
    var p := ComposePair(t, c, d);
    if IsL(c) && IsV(d) {
      LVParts(c, d, p);
      FullSyllable(t, p);
      JamoFixed(t, c);
      assert [c] + [d] == [c, d];
    } else if IsLV(c) && IsT(d) {
      if d == T_BASE { assert p == c; } else { LVTParts(c, d); FullSyllable(t, c); FullSyllable(t, p); }
    } else {
      assert t.decomp(p) == [c, d];
      FullIs(t, p);
      FullSnoc(t, [c], d);
      FullSnoc(t, [], c);
      FullSeqEmpty(t);
      assert [] + [c] == [c] && [c] + [d] == [c, d] && [] + Full(t, c) == Full(t, c);
    }
  }

  // The characters behind the last starter.

  /** They decompose to themselves, stand in order, and do not exceed the last character read. */
  ghost predicate Tail(t: Tables, s: seq<int>, last: int)
    requires t.Valid()
  {
    var k := LastStarter(t, s);
    && (forall j :: k < j < |s| ==> Fixed(t, s[j]))
    && (forall j :: k + 1 < j < |s| ==> t.cc(s[j - 1]) <= t.cc(s[j]))
    && (k < |s| - 1 ==> t.cc(last) != 0 && t.cc(s[|s| - 1]) <= t.cc(last))
  }

  lemma LastStarterIs(t: Tables, s: seq<int>, k: int)
    requires -1 <= k < |s| && (k >= 0 ==> t.cc(s[k]) == 0)
    requires forall j :: k < j < |s| ==> t.cc(s[j]) != 0
    ensures LastStarter(t, s) == k
  {
    hide LastStarter;
  }

  lemma TailHighest(t: Tables, s: seq<int>, last: int, j: int)
    requires t.Valid() && Tail(t, s, last) && LastStarter(t, s) < j < |s|
    ensures t.cc(s[j]) <= t.cc(s[|s| - 1])
    decreases |s| - j
  {
    hide LastStarter, Fixed;
    if j + 1 < |s| {
      TailHighest(t, s, last, j + 1);
      assert t.cc(s[j + 1 - 1]) <= t.cc(s[j + 1]);
    }
  }

  /** Looking at the character in front is enough to see whether x is blocked. */
  lemma BlockedByLast(t: Tables, s: seq<int>, last: int, x: int)
    requires t.Valid() && Tail(t, s, last) && LastStarter(t, s) >= 0
    ensures Blocked(t, s, LastStarter(t, s), x) <==> LastStarter(t, s) < |s| - 1 && t.cc(s[|s| - 1]) >= t.cc(x)
  {
    hide LastStarter, Fixed;
    var k := LastStarter(t, s);
    if Blocked(t, s, k, x) {
      var j :| k < j < |s| && (t.cc(s[j]) == 0 || t.cc(s[j]) >= t.cc(x));
      TailHighest(t, s, last, j);
    }
  }

  lemma CompositeStarter(t: Tables, s: seq<int>, x: int)
    requires t.Valid() && Fixed(t, x) && Composes(t, s, x)
    ensures t.cc(Composite(t, s, x)) == 0
    ensures LastStarter(t, Step(t, s, x)) == LastStarter(t, s)
  {
    hide LastStarter, Fixed, ComposePair, Loses;
    var k := LastStarter(t, s);
    CompositeFull(t, s[k], x);
    LastStarterIs(t, Step(t, s, x), k);
  }

  lemma TailStep(t: Tables, s: seq<int>, last: int, x: int)
    requires t.Valid() && Tail(t, s, last) && Fixed(t, x) && (t.cc(x) == 0 || t.cc(last) <= t.cc(x))
    ensures Tail(t, Step(t, s, x), x)
  {
    hide LastStarter, Fixed, ComposePair;
    var k, r := LastStarter(t, s), Step(t, s, x);
    if Composes(t, s, x) {
      CompositeStarter(t, s, x);
      BlockedByLast(t, s, last, x);
    } else if t.cc(x) == 0 {
      LastStarterIs(t, r, |s|);
    } else {
      LastStarterIs(t, r, k);
    }
  }

  /** The state of the composition loop. */
  lemma {:induction false} TailKept(t: Tables, d: seq<int>)
    requires t.Valid() && AllFixed(t, d) && Ordered(t, d) && d != []
    ensures Tail(t, Composed(t, d), d[|d| - 1])
    decreases |d|
  {
    hide Step, LastStarter, Fixed;
    var n := |d| - 1;
    assert Fixed(t, d[n]);
    if n == 0 {
      assert d[..0] == [];
      FirstTail(t, d[0]);
    } else {
      TailKept(t, d[..n]);
      TailStep(t, Composed(t, d[..n]), d[n - 1], d[n]);
    }
  }

  lemma FirstTail(t: Tables, x: int)
    requires t.Valid() && Fixed(t, x)
    ensures Step(t, [], x) == [x] && Tail(t, [x], x)
  {
    assert [] + [x] == [x];
  }

  // Composition against decomposition.

  /** The step that reads d[i] loses a U+11A7. */
  ghost predicate Drops(t: Tables, d: seq<int>, i: nat)
    requires i < |d|
  {
    var s := Composed(t, d[..i]);
    Composes(t, s, d[i]) && Loses(s[LastStarter(t, s)], d[i])
  }

  lemma SplitAt(t: Tables, s: seq<int>, k: nat)
    requires t.Valid() && k < |s| && forall j :: k < j < |s| ==> Fixed(t, s[j])
    ensures FullSeq(t, s) == FullSeq(t, s[..k]) + Full(t, s[k]) + s[k + 1..]
  {
    hide FullSeq, Full;
    var m := s[k + 1..];
    assert s == (s[..k] + [s[k]]) + m;
    FullAppend(t, s[..k] + [s[k]], m);
    FullSnoc(t, s[..k], s[k]);
    FixedFull(t, m);
  }

  lemma StepParts(t: Tables, s: seq<int>, last: int, x: int, k: nat, a: seq<int>, m: seq<int>)
    requires t.Valid() && Tail(t, s, last) && Fixed(t, x) && Composes(t, s, x) && k == LastStarter(t, s)
    requires a == FullSeq(t, s[..k]) + Full(t, s[k]) && m == s[k + 1..]
    ensures FullSeq(t, s) == a + m
    ensures FullSeq(t, Step(t, s, x)) == (if Loses(s[k], x) then a else a + [x]) + m
    ensures forall j :: 0 <= j < |m| ==> 0 < t.cc(m[j]) < t.cc(x)
  {
    hide FullSeq, Full, LastStarter, ComposePair, Loses;
    var r, p := Step(t, s, x), Composite(t, s, x);
    SplitAt(t, s, k);
    CompositeFull(t, s[k], x);
    assert r[..k] == s[..k] && r[k] == p && r[k + 1..] == m;
    forall j | k < j < |r| ensures Fixed(t, r[j]) { assert r[j] == s[j]; }
    SplitAt(t, r, k);
    forall j | 0 <= j < |m| ensures 0 < t.cc(m[j]) < t.cc(x) {
      assert m[j] == s[k + 1 + j];
    }
    var f := FullSeq(t, s[..k]);
    assert f + (Full(t, s[k]) + [x]) == a + [x];
  }

  /** A step that loses nothing keeps the canonical order of what is still to be read. */
  lemma StepKeeps(t: Tables, s: seq<int>, last: int, x: int, u: seq<int>)
    requires t.Valid() && Tail(t, s, last) && Fixed(t, x)
    requires !(Composes(t, s, x) && Loses(s[LastStarter(t, s)], x))
    ensures Order(t, FullSeq(t, Step(t, s, x)) + u) == Order(t, FullSeq(t, s) + ([x] + u))
  {
    hide FullSeq, Full, Fixed, LastStarter, Order, Loses, ComposePair;
    if Composes(t, s, x) {
      var k := LastStarter(t, s);
      var a, m := FullSeq(t, s[..k]) + Full(t, s[k]), s[k + 1..];
      StepParts(t, s, last, x, k, a, m);
      OrderMove(t, a, m, x, u);
      assert a + m + [x] + u == FullSeq(t, s) + ([x] + u);
    } else {
      FullSnoc(t, s, x);
      assert Fixed(t, x) ==> Full(t, x) == [x] by { FixedIs(t, x); }
      assert FullSeq(t, s) + [x] + u == FullSeq(t, s) + ([x] + u);
    }
  }

  lemma FixedIs(t: Tables, x: int)
    requires t.Valid() && Fixed(t, x)
    ensures Full(t, x) == [x]
  {
  }

  lemma StepLength(t: Tables, s: seq<int>, last: int, x: int)
    requires t.Valid() && Tail(t, s, last) && Fixed(t, x)
    ensures |FullSeq(t, Step(t, s, x))| ==
      |FullSeq(t, s)| + if Composes(t, s, x) && Loses(s[LastStarter(t, s)], x) then 0 else 1
  {
    hide FullSeq, Full, Fixed, LastStarter, Loses, ComposePair;
    if Composes(t, s, x) {
      var k := LastStarter(t, s);
      StepParts(t, s, last, x, k, FullSeq(t, s[..k]) + Full(t, s[k]), s[k + 1..]);
    } else {
      FullSnoc(t, s, x);
      FixedIs(t, x);
    }
  }

  lemma ComposedSnoc(t: Tables, d: seq<int>, i: nat)
    requires i < |d|
    ensures Composed(t, d[..i + 1]) == Step(t, Composed(t, d[..i]), d[i])
  {
    assert d[..i + 1][..i] == d[..i];
  }

  lemma TailAt(t: Tables, d: seq<int>, i: nat)
    requires t.Valid() && AllFixed(t, d) && Ordered(t, d) && 0 < i < |d|
    ensures Tail(t, Composed(t, d[..i]), d[i - 1])
    ensures Fixed(t, d[i]) && (t.cc(d[i]) == 0 || t.cc(d[i - 1]) <= t.cc(d[i]))
  {
    hide Composed, Tail, Fixed;
    var e := d[..i];
    forall k | 0 <= k < |e| ensures Fixed(t, e[k]) { assert e[k] == d[k]; }
    TailKept(t, e);
  }

  /** As long as nothing is lost, what was composed and what is unread order to the whole. */
  lemma {:induction false} ComposedKeeps(t: Tables, d: seq<int>, i: nat)
    requires t.Valid() && AllFixed(t, d) && Ordered(t, d) && i <= |d|
    requires forall j: nat :: j < i ==> !Drops(t, d, j)
    ensures Order(t, FullSeq(t, Composed(t, d[..i])) + d[i..]) == d
  {
    hide Step, Tail, FullSeq, Full, Fixed, Order, Composes, Loses;
    if i == 0 {
      FullSeqEmpty(t);
      assert d[..0] == [] && [] + d[0..] == d;
      OrderedIsFixed(t, d);
    } else {
      var n := i - 1;
      ComposedKeeps(t, d, n);
      ComposedSnoc(t, d, n);
      assert d[n..] == [d[n]] + d[i..];
      assert !Drops(t, d, n) && Fixed(t, d[n]);
      TailBefore(t, d, n);
      StepKeeps(t, Composed(t, d[..n]), if n == 0 then 0 else d[n - 1], d[n], d[i..]);
    }
  }

  lemma TailBefore(t: Tables, d: seq<int>, n: nat)
    requires t.Valid() && AllFixed(t, d) && Ordered(t, d) && n < |d|
    ensures Tail(t, Composed(t, d[..n]), if n == 0 then 0 else d[n - 1])
  {
    hide Fixed, Step;
    if n == 0 { assert d[..0] == []; } else { TailAt(t, d, n); }
  }

  lemma {:induction false} ComposedLength(t: Tables, d: seq<int>, i: nat, lost: nat)
    requires t.Valid() && AllFixed(t, d) && Ordered(t, d) && i <= |d|
    requires lost < i && Drops(t, d, lost)
    ensures |FullSeq(t, Composed(t, d[..i]))| < i
    decreases i
  {
    hide Step, Tail, FullSeq, Full, Fixed, Composes, Loses, Composed, Drops;
    var n := i - 1;
    ComposedSnoc(t, d, n);
    assert Fixed(t, d[n]);
    TailBefore(t, d, n);
    StepLength(t, Composed(t, d[..n]), if n == 0 then 0 else d[n - 1], d[n]);
    if lost < n {
      ComposedLength(t, d, n, lost);
    } else {
      DropsIs(t, d, lost);
      LengthBound(t, d, n);
    }
  }

  lemma DropsIs(t: Tables, d: seq<int>, i: nat)
    requires i < |d| && Drops(t, d, i)
    ensures var s := Composed(t, d[..i]); Composes(t, s, d[i]) && Loses(s[LastStarter(t, s)], d[i])
  {
  }

  lemma {:induction false} LengthBound(t: Tables, d: seq<int>, i: nat)
    requires t.Valid() && AllFixed(t, d) && Ordered(t, d) && i <= |d|
    ensures |FullSeq(t, Composed(t, d[..i]))| <= i
  {
    hide Step, Tail, FullSeq, Full, Fixed, Composes, Loses;
    if i == 0 {
      FullSeqEmpty(t);
      assert d[..0] == [];
    } else {
      var n := i - 1;
      LengthBound(t, d, n);
      ComposedSnoc(t, d, n);
      assert Fixed(t, d[n]);
      TailBefore(t, d, n);
      StepLength(t, Composed(t, d[..n]), if n == 0 then 0 else d[n - 1], d[n]);
    }
  }

  // Where U+11A7 is lost.

  /** A leading consonant, a vowel and U+11A7 ending at i. */
  predicate LVT(d: seq<int>, i: nat)
    requires i < |d|
  {
    i >= 2 && IsL(d[i - 2]) && IsV(d[i - 1]) && d[i] == T_BASE
  }

  predicate Last(s: seq<int>, c: int) { s != [] && s[|s| - 1] == c }

  lemma SyllableNotFixed(t: Tables, x: int)
    requires t.Valid() && Fixed(t, x)
    ensures !IsSyllable(x)
  {
    if IsSyllable(x) { SyllableParts(x); }
  }

  lemma PairKind(t: Tables, c: int, x: int, p: int)
    requires t.Valid() && p == ComposePair(t, c, x) && p != 0 && !Loses(c, x)
    ensures !IsL(p) && (IsLV(p) ==> IsL(c) && IsV(x))
  {
    if IsL(c) && IsV(x) {
      LVParts(c, x, p);
    } else if IsLV(c) && IsT(x) {
      LVTParts(c, x);
    }
  }

  /** How a last leading consonant or LV syllable got there. */
  lemma LastStep(t: Tables, s: seq<int>, last: int, x: int, r: seq<int>, c: int)
    requires t.Valid() && Tail(t, s, last) && Fixed(t, x) && r == Step(t, s, x) && Last(r, c)
    requires !(Composes(t, s, x) && Loses(s[LastStarter(t, s)], x))
    ensures IsL(c) ==> c == x
    ensures IsLV(c) ==> s != [] && IsL(s[|s| - 1]) && IsV(x)
  {
    hide LastStarter, Fixed, Full, ComposePair, Tail, Blocked, Loses, IsV;
    var k := LastStarter(t, s);
    if Composes(t, s, x) {
      if k < |s| - 1 {
        assert c == s[|s| - 1] && t.cc(c) != 0;
      } else {
        PairKind(t, s[k], x, c);
      }
    } else {
      SyllableNotFixed(t, x);
    }
  }

  /** Before anything is lost, a last leading consonant was just read, and a last LV syllable was just composed. */
  lemma {:induction false} LastIs(t: Tables, d: seq<int>, i: nat, c: int)
    requires t.Valid() && AllFixed(t, d) && Ordered(t, d) && 0 < i <= |d|
    requires forall j: nat :: j < i ==> !Drops(t, d, j)
    requires Last(Composed(t, d[..i]), c)
    ensures IsL(c) ==> c == d[i - 1]
    ensures IsLV(c) ==> i >= 2 && IsL(d[i - 2]) && IsV(d[i - 1])
  {
    hide Step, Tail, Fixed, Composes, Loses;
    var n := i - 1;
    var s := Composed(t, d[..n]);
    ComposedSnoc(t, d, n);
    assert Fixed(t, d[n]) && !Drops(t, d, n);
    TailBefore(t, d, n);
    LastStep(t, s, if n == 0 then 0 else d[n - 1], d[n], Composed(t, d[..i]), c);
    if IsLV(c) { LastIs(t, d, n, s[|s| - 1]); }
  }

  /** The first loss is at such a triple. */
  lemma FirstDrop(t: Tables, d: seq<int>, i: nat)
    requires t.Valid() && AllFixed(t, d) && Ordered(t, d) && i < |d| && Drops(t, d, i)
    requires forall j: nat :: j < i ==> !Drops(t, d, j)
    ensures LVT(d, i)
  {
    hide Composed, Fixed, Tail, LastStarter;
    var s := Composed(t, d[..i]);
    var k := LastStarter(t, s);
    if i == 0 {
      assert false;
    } else {
      TailBefore(t, d, i);
      BlockedByLast(t, s, d[i - 1], d[i]);
      assert t.cc(T_BASE) == 0 by { assert IsT(T_BASE); }
      LastIs(t, d, i, s[k]);
    }
  }

  lemma StarterLast(t: Tables, s: seq<int>, x: int)
    requires s != [] && t.cc(s[|s| - 1]) == 0
    ensures LastStarter(t, s) == |s| - 1 && !Blocked(t, s, |s| - 1, x)
  {
  }

  /** A leading consonant is never composed, and its vowel always is. */
  lemma SyllableSteps(t: Tables, s: seq<int>, l: int, v: int)
    requires t.Valid() && IsL(l) && IsV(v)
    ensures var r := Step(t, Step(t, s, l), v); r != [] && IsLV(r[|r| - 1])
  {
    hide LastStarter;
    var k := LastStarter(t, s);
    assert !Composes(t, s, l);
    var q := s + [l];
    assert t.cc(l) == 0;
    StarterLast(t, q, v);
    var p := ComposePair(t, l, v);
    LVParts(l, v, p);
    assert Composes(t, q, v) && Composite(t, q, v) == p;
    assert Step(t, q, v)[|q| - 1] == p;
  }

  lemma LVTDrops(t: Tables, d: seq<int>, i: nat)
    requires t.Valid() && i < |d| && LVT(d, i)
    ensures Drops(t, d, i)
  {
    hide Step, Composed, LastStarter;
    ComposedSnoc(t, d, i - 2);
    ComposedSnoc(t, d, i - 1);
    assert d[..i - 2 + 1] == d[..i - 1] && d[..i - 1 + 1] == d[..i];
    SyllableSteps(t, Composed(t, d[..i - 2]), d[i - 2], d[i - 1]);
    var s := Composed(t, d[..i]);
    StarterLast(t, s, d[i]);
  }

  /** Something is lost exactly when d has a leading consonant, a vowel and U+11A7 in a row. */
  lemma DropsExactly(t: Tables, d: seq<int>)
    requires t.Valid() && AllFixed(t, d) && Ordered(t, d)
    ensures (exists i: nat :: i < |d| && Drops(t, d, i)) <==> (exists i: nat :: i < |d| && LVT(d, i))
  {
    hide Drops, LVT, Fixed;
    if i: nat :| i < |d| && LVT(d, i) {
      LVTDrops(t, d, i);
      assert Drops(t, d, i);
    }
    if i: nat :| i < |d| && Drops(t, d, i) {
      FirstLVT(t, d, i);
    }
  }

  lemma FirstLVT(t: Tables, d: seq<int>, i: nat)
    requires t.Valid() && AllFixed(t, d) && Ordered(t, d) && i < |d| && Drops(t, d, i)
    ensures exists j: nat :: j < |d| && LVT(d, j)
    decreases i
  {
    hide Drops, LVT, Fixed;
    if j: nat :| j < i && Drops(t, d, j) {
      FirstLVT(t, d, j);
    } else {
      FirstDrop(t, d, i);
    }
  }

  // NFC.

  ghost function Nfc(t: Tables, s: seq<int>): seq<int>
    requires t.Valid()
  {
    Composed(t, Nfd(t, s))
  }

  predicate HasLVT(d: seq<int>) { exists i: nat :: i < |d| && LVT(d, i) }

  /** Composition keeps canonical equivalence exactly when no U+11A7 follows a leading consonant and a vowel. */
  lemma NfcEquivalent(t: Tables, s: seq<int>)
    requires t.Valid()
    ensures Nfd(t, Nfc(t, s)) == Nfd(t, s) <==> !HasLVT(Nfd(t, s))
  {
    hide Drops, LVT, Fixed, Order, FullSeq, Composed;
    var d := Nfd(t, s);
    NfdShape(t, s);
    DropsExactly(t, d);
    assert d[..|d|] == d;
    if HasLVT(d) {
      var i: nat :| i < |d| && Drops(t, d, i);
      ComposedLength(t, d, |d|, i);
    } else {
      ComposedKeeps(t, d, |d|);
      assert FullSeq(t, Composed(t, d)) + d[|d|..] == FullSeq(t, Composed(t, d));
    }
  }

  /** Two texts have the same composed form exactly when they are canonically equivalent. */
  lemma NfcDecides(t: Tables, s: seq<int>, u: seq<int>)
    requires t.Valid() && !HasLVT(Nfd(t, s)) && !HasLVT(Nfd(t, u))
    ensures Nfc(t, s) == Nfc(t, u) <==> Nfd(t, s) == Nfd(t, u)
  {
    hide HasLVT;
    NfcEquivalent(t, s);
    NfcEquivalent(t, u);
  }

  // What is left when characters are lost.

  /** d without the characters that the composition loop loses. */
  ghost function Kept(t: Tables, d: seq<int>, i: nat): (r: seq<int>)
    requires i <= |d|
    ensures |r| <= i
  {
    if i == 0 then [] else if Drops(t, d, i - 1) then Kept(t, d, i - 1) else Kept(t, d, i - 1) + [d[i - 1]]
  }

  lemma DropStays(t: Tables, s: seq<int>, x: int)
    requires Composes(t, s, x) && Loses(s[LastStarter(t, s)], x)
    ensures Step(t, s, x) == s
  {
    var k := LastStarter(t, s);
    assert Composite(t, s, x) == s[k];
  }

  /** The kept text is canonically ordered, composes to the same, and loses nothing more. */
  lemma {:induction false} KeptComposes(t: Tables, d: seq<int>, i: nat)
    requires t.Valid() && AllFixed(t, d) && Ordered(t, d) && i <= |d|
    ensures var k := Kept(t, d, i); AllFixed(t, k) && Ordered(t, k) && Composed(t, k) == Composed(t, d[..i])
    ensures var k := Kept(t, d, i); forall j: nat :: j < |k| ==> !Drops(t, k, j)
    ensures var k := Kept(t, d, i); k != [] ==> i > 0 && t.cc(k[|k| - 1]) <= t.cc(d[i - 1])
  {
    hide Step, Fixed, Composes, Loses, Composed;
    if i == 0 {
      ComposedNone(t, d);
    } else {
      var n := i - 1;
      KeptComposes(t, d, n);
      ComposedSnoc(t, d, n);
      var k, s := Kept(t, d, n), Composed(t, d[..n]);
      if Drops(t, d, n) {
        DropsIs(t, d, n);
        DropStays(t, s, d[n]);
        DroppedBehind(t, d, n, k);
      } else {
        KeptMore(t, k, d[n], d, n);
      }
    }
  }

  lemma ComposedNone(t: Tables, d: seq<int>)
    ensures Composed(t, []) == Composed(t, d[..0])
  {
    assert d[..0] == [];
  }

  /** A character is only lost behind an LV syllable. */
  lemma DroppedAt(t: Tables, d: seq<int>, n: nat)
    requires t.Valid() && AllFixed(t, d) && Ordered(t, d) && n < |d| && Drops(t, d, n)
    ensures n > 0 && exists c :: Last(Composed(t, d[..n]), c) && IsLV(c)
  {
    var s := Composed(t, d[..n]);
    DropsIs(t, d, n);
    assert t.cc(T_BASE) == 0 by { assert IsT(T_BASE); }
    var k := LastStarter(t, s);
    hide Composed, Fixed, Tail, LastStarter, Drops, ComposePair, Step;
    TailBefore(t, d, n);
    BlockedByLast(t, s, if n == 0 then 0 else d[n - 1], d[n]);
    assert Last(s, s[k]) && IsLV(s[k]);
  }

  /** A lost character follows a vowel. */
  lemma DroppedBehind(t: Tables, d: seq<int>, n: nat, k: seq<int>)
    requires t.Valid() && AllFixed(t, d) && Ordered(t, d) && n < |d| && Drops(t, d, n)
    requires AllFixed(t, k) && Ordered(t, k) && Composed(t, k) == Composed(t, d[..n])
    requires forall j: nat :: j < |k| ==> !Drops(t, k, j)
    ensures n > 0 && k != [] && t.cc(k[|k| - 1]) == 0
  {
    hide Composed, Fixed, Drops, IsLV;
    DroppedAt(t, d, n);
    var c :| Last(Composed(t, d[..n]), c) && IsLV(c);
    assert k[..|k|] == k;
    LastIs(t, k, |k|, c);
    VowelStarter(t, k[|k| - 1]);
  }

  lemma VowelStarter(t: Tables, v: int)
    requires t.Valid() && IsV(v)
    ensures t.cc(v) == 0
  {
  }

  lemma KeptMore(t: Tables, k: seq<int>, x: int, d: seq<int>, n: nat)
    requires t.Valid() && n < |d| && x == d[n] && AllFixed(t, k) && Fixed(t, x) && Ordered(t, k) && Ordered(t, d)
    requires Composed(t, k) == Composed(t, d[..n]) && !Drops(t, d, n)
    requires k != [] ==> n > 0 && t.cc(k[|k| - 1]) <= t.cc(d[n - 1])
    requires forall j: nat :: j < |k| ==> !Drops(t, k, j)
    ensures AllFixed(t, k + [x]) && Ordered(t, k + [x]) && Composed(t, k + [x]) == Step(t, Composed(t, d[..n]), x)
    ensures forall j: nat :: j < |k + [x]| ==> !Drops(t, k + [x], j)
  {
    hide Fixed, Step, Composes, Loses, LastStarter, Composed;
    var r := k + [x];
    ComposedAppend(t, k, x);
    forall j: nat | j < |r| ensures !Drops(t, r, j) {
      if j < |k| {
        assert r[..j] == k[..j] && !Drops(t, k, j);
      } else {
        assert r[..j] == k;
      }
    }
  }

  /** NFC of NFC is NFC, whether or not characters are lost. */
  lemma NfcIdempotent(t: Tables, s: seq<int>)
    requires t.Valid()
    ensures Nfc(t, Nfc(t, s)) == Nfc(t, s)
  {
    var d := Nfd(t, s);
    NfdShape(t, s);
    KeptComposes(t, d, |d|);
    hide Drops, Fixed, Order, Ordered, FullSeq, Composed, Kept;
    var k := Kept(t, d, |d|);
    assert d[..|d|] == d && k[..|k|] == k && k[|k|..] == [];
    ComposedKeeps(t, k, |k|);
    assert FullSeq(t, Composed(t, k)) + [] == FullSeq(t, Composed(t, k));
  }

  /** On L, V, U+11A7 composition yields the syllable LV, which decomposes to L, V only. */
  lemma LostExample(t: Tables)
    requires t.Valid()
    ensures var s := [0x1100, 0x1161, 0x11a7]; Nfd(t, s) == s && HasLVT(s) && Nfd(t, Nfc(t, s)) != Nfd(t, s)
  {
    var s := [0x1100, 0x1161, 0x11a7];
    assert IsL(s[0]) && IsV(s[1]) && IsT(s[2]);
    JamoFixed(t, s[0]);
    JamoFixed(t, s[1]);
    JamoFixed(t, s[2]);
    assert t.cc(s[0]) == 0 && t.cc(s[1]) == 0 && t.cc(s[2]) == 0;
    hide Fixed, Full, FullSeq, Order, Composed;
    FixedFull(t, s);
    OrderedIsFixed(t, s);
    assert LVT(s, 2);
    NfcEquivalent(t, s);
  }

  // Latin-1.

  /** Latin-1 characters are starters, never the second part of a pair, and at most a letter and a mark. */
  ghost predicate LatinData(t: Tables) {
    && (forall c {:trigger t.cc(c)} :: 0 <= c < 0x100 ==> t.cc(c) == 0)
    && (forall c, d {:trigger t.pair(c, d)} :: 0 <= d < 0x100 ==> t.pair(c, d) == 0)
    && (forall c {:trigger t.decomp(c)} :: 0 <= c < 0x100 && t.decomp(c) != [] ==>
          |t.decomp(c)| == 2 && Accented(t, c, t.decomp(c)[0], t.decomp(c)[1]))
  }

  predicate Accented(t: Tables, c: int, a: int, b: int) {
    c != 0 && 0 <= a < 0x100 && t.decomp(a) == [] && t.cc(b) != 0 && t.decomp(b) == [] && t.pair(a, b) == c
  }

  predicate Latin1(s: seq<int>) { forall k :: 0 <= k < |s| ==> 0 <= s[k] < 0x100 }

  lemma MarkPlain(t: Tables, b: int)
    requires t.Valid() && t.cc(b) != 0
    ensures !IsSyllable(b) && !IsL(b) && !IsV(b) && !IsT(b)
  {
  }

  lemma LatinFull(t: Tables, c: int)
    requires t.Valid() && LatinData(t) && 0 <= c < 0x100
    ensures Full(t, c) == if t.decomp(c) == [] then [c] else [t.decomp(c)[0]] + [t.decomp(c)[1]]
  {
    FullIs(t, c);
    if t.decomp(c) != [] {
      var a, b := t.decomp(c)[0], t.decomp(c)[1];
      assert Accented(t, c, a, b) && t.decomp(c) == [] + [a] + [b];
      MarkPlain(t, b);
      FullSnoc(t, [] + [a], b);
      FullSnoc(t, [], a);
      FullSeqEmpty(t);
      assert Full(t, a) == [a] && Full(t, b) == [b];
    }
  }

  lemma AppendsLatin(t: Tables, s: seq<int>, a: int)
    requires LatinData(t) && 0 <= a < 0x100
    ensures Step(t, s, a) == s + [a]
  {
  }

  lemma AppendsAccent(t: Tables, s: seq<int>, c: int, a: int, b: int)
    requires t.Valid() && LatinData(t) && Accented(t, c, a, b)
    ensures Step(t, s + [a], b) == s + [c]
  {
    hide LastStarter;
    assert t.cc(a) == 0;
    StarterLast(t, s + [a], b);
    MarkPlain(t, b);
    assert ComposePair(t, a, b) == c;
    assert (s + [a])[|s| := c] == s + [c];
  }

  /** Composition reads back a decomposed Latin-1 text. */
  lemma {:induction false} LatinComposed(t: Tables, s: seq<int>)
    requires t.Valid() && LatinData(t) && Latin1(s)
    ensures Composed(t, FullSeq(t, s)) == s && Ordered(t, FullSeq(t, s))
    decreases |s|
  {
    hide Full, FullSeq, Step, Composed, LatinData;
    if s == [] {
      FullSeqEmpty(t);
      assert Composed(t, []) == [];
    } else {
      var u, c := s[..|s| - 1], s[|s| - 1];
      assert s == u + [c];
      LatinComposed(t, u);
      FullSnoc(t, u, c);
      LatinSnoc(t, FullSeq(t, u), u, c);
    }
  }

  lemma ComposedAppend(t: Tables, d: seq<int>, x: int)
    ensures Composed(t, d + [x]) == Step(t, Composed(t, d), x)
  {
    assert (d + [x])[..|d|] == d;
  }

  lemma LatinSnoc(t: Tables, f: seq<int>, u: seq<int>, c: int)
    requires t.Valid() && LatinData(t) && 0 <= c < 0x100 && Composed(t, f) == u && Ordered(t, f)
    ensures Composed(t, f + Full(t, c)) == u + [c] && Ordered(t, f + Full(t, c))
  {
    hide Full, Step, Composed;
    LatinFull(t, c);
    assert t.cc(c) == 0;
    if t.decomp(c) == [] {
      ComposedAppend(t, f, c);
      AppendsLatin(t, u, c);
    } else {
      var a, b := t.decomp(c)[0], t.decomp(c)[1];
      assert Accented(t, c, a, b) && t.cc(a) == 0;
      assert f + Full(t, c) == f + [a] + [b];
      ComposedAppend(t, f, a);
      AppendsLatin(t, u, a);
      ComposedAppend(t, f + [a], b);
      AppendsAccent(t, u, c, a, b);
    }
  }

  lemma {:induction false} ShortComposed(t: Tables, s: seq<int>)
    requires t.Valid() && |s| <= 1 && AllFixed(t, s)
    ensures Composed(t, s) == s
  {
    if s != [] {
      assert s[..0] == [] && [] + [s[0]] == s;
      FirstTail(t, s[0]);
    }
  }

  /** NFC leaves a Latin-1 text alone. */
  lemma LatinUnaffected(t: Tables, s: seq<int>)
    requires t.Valid() && LatinData(t) && Latin1(s)
    ensures Nfc(t, s) == s
  {
    LatinComposed(t, s);
    OrderedIsFixed(t, FullSeq(t, s));
  }

  // The code.

  datatype Form = NFC | NFD | NFKC | NFKD

  predicate Compat(f: Form) { f == NFKC || f == NFKD }

  predicate Decomposing(f: Form) { f == NFD || f == NFKD }

  ghost predicate RanksBelow(t: Tables, s: seq<int>, cap: nat) {
    forall k :: 0 <= k < |s| ==> t.rank(s[k]) < cap
  }

  ghost function RankCap(t: Tables, s: seq<int>): (cap: nat)
    ensures RanksBelow(t, s, cap)
  {
    if s == [] then 0
    else
      var r := RankCap(t, s[..|s| - 1]);
      var n := t.rank(s[|s| - 1]) + 1;
      if n <= r then r else n
  }

  /** s with g put in at k, and then rest. */
  ghost function Gapped(s: seq<int>, k: nat, g: int, rest: seq<int>): (r: seq<int>)
    requires k <= |s|
    ensures |r| == |s| + 1 + |rest|
  {
    s[..k] + [g] + s[k..] + rest
  }

  lemma GapStart(b: seq<int>, j: nat)
    requires j < |b|
    ensures b == Gapped(b[..j], j, b[j], b[j + 1..])
  {
  }

  lemma GapShift(s: seq<int>, k: nat, g: int, rest: seq<int>)
    requires 0 < k <= |s|
    ensures var r := Gapped(s, k, g, rest); r[k - 1] == s[k - 1] && r[k := s[k - 1]] == Gapped(s, k - 1, s[k - 1], rest)
  {
    var r := Gapped(s, k, g, rest);
    assert s[..k] == s[..k - 1] + [s[k - 1]] && s[k - 1..] == [s[k - 1]] + s[k..];
    assert r[k := s[k - 1]] == s[..k] + [s[k - 1]] + s[k..] + rest;
  }

  ghost function Pushed(t: Tables, s: seq<int>, k: nat, x: int): seq<int>
    requires k <= |s|
  {
    Push(t, s[..k], x) + s[k..]
  }

  lemma PushedStep(t: Tables, s: seq<int>, k: nat, x: int)
    requires 0 < k <= |s| && 0 < t.cc(x) < t.cc(s[k - 1])
    ensures Pushed(t, s, k, x) == Pushed(t, s, k - 1, x)
  {
    hide Push;
    PushPast(t, s[..k - 1], s[k - 1], x);
    assert s[..k] == s[..k - 1] + [s[k - 1]];
    assert s[k - 1..] == [s[k - 1]] + s[k..];
    assert Push(t, s[..k - 1], x) + [s[k - 1]] + s[k..] == Push(t, s[..k - 1], x) + s[k - 1..];
  }

  lemma PushedAll(t: Tables, s: seq<int>, x: int)
    ensures Pushed(t, s, |s|, x) == Push(t, s, x)
  {
    assert s[..|s|] == s && Push(t, s, x) + [] == Push(t, s, x);
  }

  lemma PushedEnd(t: Tables, s: seq<int>, k: nat, x: int, g: int, rest: seq<int>)
    requires k <= |s| && (k == 0 || t.cc(s[k - 1]) <= t.cc(x))
    ensures Gapped(s, k, g, rest)[k := x] == Pushed(t, s, k, x) + rest
  {
    PushBehind(t, s[..k], x);
  }

  class TextBuffer {
    var buf: seq<int>

    constructor ()
      ensures buf == []
    {
      buf := [];
    }

    /** Appends the full decomposition of src. */
    method ToNfdRec(t: Tables, src: seq<int>, ghost cap: nat)
      requires t.Valid() && RanksBelow(t, src, cap)
      modifies this
      ensures buf == old(buf) + FullSeq(t, src)
      decreases cap
    {
      hide Full, FullSeq;
      var i := 0;
      assert src[..0] == [] && buf + [] == buf;
      FullSeqEmpty(t);
      while i < |src|
        invariant 0 <= i <= |src|
        invariant buf == old(buf) + FullSeq(t, src[..i])
      {
        var c := src[i];
        ghost var was := buf;
        FullIs(t, c);
        if 0xac00 <= c < 0xd7a4 {
          c := c - 0xac00;
          buf := buf + [0x1100 + c / 588];
          buf := buf + [0x1161 + c % 588 / 28];
          var v := c % 28;
          if v != 0 { buf := buf + [0x11a7 + v]; }
          assert buf == was + HangulParts(src[i]);
        } else {
          var res := t.decomp(c);
          if res != [] {
            ToNfdRec(t, res, t.rank(c));
          } else {
            buf := buf + [c];
          }
        }
        assert buf == was + Full(t, src[i]);
        assert src[..i + 1] == src[..i] + [src[i]];
        FullSnoc(t, src[..i], src[i]);
        assert old(buf) + FullSeq(t, src[..i]) + Full(t, src[i]) == old(buf) + (FullSeq(t, src[..i]) + Full(t, src[i]));
        i := i + 1;
      }
      assert src[..i] == src;
    }

    /** Moves the mark at j back in front of the marks of higher classes in its run, which begins at start. */
    method Insert(t: Tables, start: nat, j: nat)
      requires start <= j < |buf| && t.cc(buf[j]) != 0
      requires start == 0 || t.cc(buf[start - 1]) == 0
      modifies this
      ensures buf == Push(t, old(buf[..j]), old(buf[j])) + old(buf[j + 1..])
    {
      hide Push, Pushed, Gapped;
      ghost var s, rest := buf[..j], buf[j + 1..];
      var ch1 := buf[j];
      var cc1 := t.cc(ch1);
      var k: int := j - 1;
      GapStart(buf, j);
      PushedAll(t, s, ch1);
      while k >= start
        invariant start - 1 <= k < j < |buf|
        invariant buf == Gapped(s, k + 1, buf[k + 1], rest)
        invariant Pushed(t, s, k + 1, ch1) == Push(t, s, ch1)
      {
        GapShift(s, k + 1, buf[k + 1], rest);
        if t.cc(buf[k]) <= cc1 { break; }
        PushedStep(t, s, k + 1, ch1);
        buf := buf[k + 1 := buf[k]];
        k := k - 1;
      }
      if k >= 0 { GapShift(s, k + 1, buf[k + 1], rest); }
      PushedEnd(t, s, k + 1, ch1, buf[k + 1], rest);
      buf := buf[k + 1 := ch1];
    }

    /** Puts every run of marks in canonical order. */
    method SortCc(t: Tables)
      modifies this
      ensures buf == Order(t, old(buf))
    {
      hide Push, Order;
      ghost var d := buf;
      var len := |buf|;
      var i := 0;
      assert buf[..0] == [] && d[..0] == [];
      while i < len
        invariant 0 <= i <= len + 1 && |buf| == len == |d|
        invariant i <= len ==> Sorted(t, d, buf, i) && (i > 0 ==> t.cc(buf[i - 1]) == 0)
        invariant i == len + 1 ==> Sorted(t, d, buf, len)
      {
        var cc := t.cc(buf[i]);
        if cc != 0 {
          var start := i;
          var j := i + 1;
          SortedNext(t, d, buf, i);
          while j < len
            invariant start < j <= len && |buf| == len
            invariant Sorted(t, d, buf, j)
            invariant start > 0 ==> t.cc(buf[start - 1]) == 0
          {
            var ch1 := buf[j];
            var cc1 := t.cc(ch1);
            if cc1 == 0 { break; }
            ghost var was := buf;
            Insert(t, start, j);
            SortedInsert(t, d, was, buf, j);
            if start > 0 { PushStarters(t, was[..j], ch1, start - 1); }
            j := j + 1;
          }
          i := j;
        }
        if i < len { SortedNext(t, d, buf, i); }
        i := i + 1;
      }
      SortedAll(t, d, buf);
    }

    /** The starter that buf[i] can join behind the first n characters, or blocked. */
    method FindStarter(t: Tables, ghost d: seq<int>, n: nat, i: nat) returns (starterPos: int, blocked: bool)
      requires t.Valid() && Reading(t, d, buf, n, i) && i < |d|
      ensures -1 <= starterPos < n
      ensures Composes(t, buf[..n], buf[i]) <==>
        !blocked && starterPos >= 0 && ComposePair(t, buf[starterPos], buf[i]) != 0
      ensures Composes(t, buf[..n], buf[i]) ==> starterPos == LastStarter(t, buf[..n])
    {
      hide LastStarter, Composed, Fixed, ComposePair, Tail;
      ghost var s := buf[..n];
      var x := buf[i];
      var lastCc := t.cc(x);
      starterPos, blocked := n - 1, false;
      ReadingTail(t, d, buf, n, i);
      while starterPos >= 0
        invariant LastStarter(t, s) <= starterPos < n
        invariant if starterPos == n - 1 then lastCc == t.cc(x) else lastCc == 256 && t.cc(s[n - 1]) < t.cc(x)
        invariant !blocked
      {
        var cc := t.cc(buf[starterPos]);
        assert buf[starterPos] == s[starterPos];
        if cc == 0 { break; }
        if cc >= lastCc {
          blocked := true;
          break;
        }
        lastCc := 256;
        starterPos := starterPos - 1;
      }
      if LastStarter(t, s) >= 0 { BlockedByLast(t, s, d[i - 1], x); }
    }

    /** Composes the canonically ordered text in place and returns the length of the result. */
    method Compose(t: Tables) returns (outLen: nat)
      requires t.Valid() && AllFixed(t, buf) && Ordered(t, buf) && |buf| > 1
      modifies this
      ensures outLen <= |buf| && buf[..outLen] == Composed(t, old(buf))
    {
      hide LastStarter, Composed, Fixed, ComposePair, Tail, Reading;
      ghost var d := buf;
      var bufLen := |buf|;
      var i := 1;
      outLen := 1;
      ReadingStart(t, d);
      while i < bufLen
        invariant 1 <= outLen <= i <= bufLen == |buf| == |d|
        invariant Reading(t, d, buf, outLen, i)
      {
        var starterPos, blocked := FindStarter(t, d, outLen, i);
        var p := if blocked || starterPos < 0 then 0 else ComposePair(t, buf[starterPos], buf[i]);
        ghost var b := buf;
        if p != 0 {
          ReadingJoin(t, d, b, outLen, i);
          buf := buf[starterPos := p];
          i := i + 1;
        } else {
          ReadingAppend(t, d, b, outLen, i);
          buf := buf[outLen := buf[i]];
          outLen := outLen + 1;
          i := i + 1;
        }
      }
      ReadingEnd(t, d, buf, outLen);
    }

    /** The normalization form of src; canon and compat are the character data without and with
        compatibility decompositions. */
    method Normalize(canon: Tables, compat: Tables, src: seq<int>, form: Form) returns (dst: seq<int>)
      requires canon.Valid() && compat.Valid() && LatinData(canon)
      requires buf == [] && forall k :: 0 <= k < |src| ==> 0 <= src[k]
      modifies this
      ensures dst == match form
        case NFC => Nfc(canon, src)
        case NFD => Nfd(canon, src)
        case NFKC => Nfc(compat, src)
        case NFKD => Nfd(compat, src)
    {
      hide Composed, Order, FullSeq, LatinData;
      if form == NFC {
        var i := 0;
        while i < |src| && src[i] < 0x100
          invariant 0 <= i <= |src| && Latin1(src[..i])
        {
          i := i + 1;
        }
        if i == |src| {
          assert src[..i] == src;
          LatinUnaffected(canon, src);
          buf := src;
          return src;
        }
      }
      var t := if Compat(form) then compat else canon;
      ToNfdRec(t, src, RankCap(t, src));
      assert buf == FullSeq(t, src);
      SortCc(t);
      NfdShape(t, src);
      if |buf| <= 1 || Decomposing(form) {
        if |buf| <= 1 { ShortComposed(t, buf); }
        return buf;
      }
      var outLen := Compose(t);
      return buf[..outLen];
    }
  }

  /** What lies ahead of the composition loop. */
  ghost predicate Reading(t: Tables, d: seq<int>, b: seq<int>, n: nat, i: nat)
    requires t.Valid()
  {
    && 1 <= n <= i <= |d| == |b| && b[..n] == Composed(t, d[..i]) && b[i..] == d[i..]
    && AllFixed(t, d) && Ordered(t, d)
  }

  lemma ReadingStart(t: Tables, d: seq<int>)
    requires t.Valid() && AllFixed(t, d) && Ordered(t, d) && |d| > 1
    ensures Reading(t, d, d, 1, 1)
  {
    hide Composed;
    assert d[..1] == [d[0]] && Fixed(t, d[0]);
    ShortComposed(t, d[..1]);
  }

  lemma ReadingTail(t: Tables, d: seq<int>, b: seq<int>, n: nat, i: nat)
    requires t.Valid() && Reading(t, d, b, n, i) && i < |d|
    ensures b[i] == d[i] && Tail(t, b[..n], d[i - 1])
  {
    hide Composed, Fixed, Tail;
    assert b[i..][0] == d[i..][0];
    TailAt(t, d, i);
  }

  lemma ReadingJoin(t: Tables, d: seq<int>, b: seq<int>, n: nat, i: nat)
    requires t.Valid() && Reading(t, d, b, n, i) && i < |d| && Composes(t, b[..n], b[i])
    ensures LastStarter(t, b[..n]) < n
    ensures Reading(t, d, b[LastStarter(t, b[..n]) := Composite(t, b[..n], b[i])], n, i + 1)
  {
    hide Composed, Fixed, LastStarter, Composes, Composite, Ordered;
    var k := LastStarter(t, b[..n]);
    assert Composes(t, b[..n], b[i]) ==> k >= 0 by { ComposesIs(t, b[..n], b[i]); }
    assert b[i] == b[i..][0] == d[i..][0] == d[i];
    ComposedSnoc(t, d, i);
    var c := b[k := Composite(t, b[..n], b[i])];
    assert c[..n] == b[..n][k := c[k]];
    assert c[i + 1..] == b[i..][1..] && d[i + 1..] == d[i..][1..];
  }

  lemma ComposesIs(t: Tables, s: seq<int>, x: int)
    requires Composes(t, s, x)
    ensures LastStarter(t, s) >= 0
  {
  }

  lemma ReadingAppend(t: Tables, d: seq<int>, b: seq<int>, n: nat, i: nat)
    requires t.Valid() && Reading(t, d, b, n, i) && i < |d| && !Composes(t, b[..n], b[i])
    ensures Reading(t, d, b[n := b[i]], n + 1, i + 1)
  {
    hide Composed, Fixed, LastStarter, Composes, Ordered;
    assert b[i] == b[i..][0] == d[i..][0] == d[i];
    ComposedSnoc(t, d, i);
    var c := b[n := b[i]];
    assert c[..n + 1] == b[..n] + [b[i]];
    assert c[i + 1..] == b[i..][1..] && d[i + 1..] == d[i..][1..];
  }

  lemma ReadingEnd(t: Tables, d: seq<int>, b: seq<int>, n: nat)
    requires t.Valid() && Reading(t, d, b, n, |d|)
    ensures b[..n] == Composed(t, d)
  {
    assert d[..|d|] == d;
  }

  /** The first i characters are in order, the others as they were. */
  ghost predicate Sorted(t: Tables, d: seq<int>, b: seq<int>, i: nat) {
    |b| == |d| && i <= |d| && b[..i] == Order(t, d[..i]) && b[i..] == d[i..]
  }

  lemma SortedAll(t: Tables, d: seq<int>, b: seq<int>)
    requires Sorted(t, d, b, |d|)
    ensures b == Order(t, d)
  {
    assert b[..|d|] == b && d[..|d|] == d;
  }

  lemma SortedInsert(t: Tables, d: seq<int>, b: seq<int>, c: seq<int>, i: nat)
    requires Sorted(t, d, b, i) && i < |d| && c == Push(t, b[..i], b[i]) + b[i + 1..]
    ensures Sorted(t, d, c, i + 1)
  {
    hide Push, Order;
    assert b[i] == b[i..][0] == d[i..][0];
    assert d[..i + 1] == d[..i] + [d[i]];
    OrderSnoc(t, d[..i], d[i]);
    assert c[..i + 1] == Push(t, b[..i], b[i]);
    assert b[i + 1..] == b[i..][1..] && d[i + 1..] == d[i..][1..];
  }

  /** A starter, and the first mark behind one, is in place. */
  lemma SortedNext(t: Tables, d: seq<int>, b: seq<int>, i: nat)
    requires Sorted(t, d, b, i) && i < |d|
    requires t.cc(b[i]) == 0 || i == 0 || t.cc(b[i - 1]) == 0
    ensures Sorted(t, d, b, i + 1)
  {
    hide Push, Order;
    PushBehind(t, b[..i], b[i]);
    assert b == b[..i] + [b[i]] + b[i + 1..];
    SortedInsert(t, d, b, b, i);
  }
}
