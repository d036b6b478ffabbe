/** The operations on sets of characters. */
module CharRanges {
  import opened CharSets

  /** How many of the points are at most c. */
  function Count(s: seq<nat>, c: nat): nat {
    if s == [] then 0 else Count(s[..|s| - 1], c) + if s[|s| - 1] <= c then 1 else 0
  }

  predicate Odd(n: int) {
    n % 2 == 1
  }

  /** Membership by the number of points passed. */
  predicate Contains(s: seq<nat>, c: nat) {
    Odd(Count(s, c))
  }

  predicate Sorted(s: seq<nat>) {
    forall i, j :: 0 <= i < j < |s| ==> s[i] <= s[j]
  }

  lemma CountSnoc(s: seq<nat>, v: nat, c: nat)
    ensures Count(s + [v], c) == Count(s, c) + if v <= c then 1 else 0
  {
    assert (s + [v])[..|s|] == s;
  }

  lemma {:induction false} CountAppend(s: seq<nat>, t: seq<nat>, c: nat)
    ensures Count(s + t, c) == Count(s, c) + Count(t, c)
    decreases |t|
  {
    if t == [] {
      assert s + t == s;
    } else {
      var n := |t| - 1;
      assert s + t == (s + t[..n]) + [t[n]];
      CountSnoc(s + t[..n], t[n], c);
      CountAppend(s, t[..n], c);
    }
  }

  lemma {:induction false} CountAll(s: seq<nat>, c: nat)
    requires forall i :: 0 <= i < |s| ==> s[i] <= c
    ensures Count(s, c) == |s|
    decreases |s|
  {
    if s != [] {
      CountAll(s[..|s| - 1], c);
    }
  }

  lemma {:induction false} CountNone(s: seq<nat>, c: nat)
    requires forall i :: 0 <= i < |s| ==> s[i] > c
    ensures Count(s, c) == 0
    decreases |s|
  {
    if s != [] {
      CountNone(s[..|s| - 1], c);
    }
  }

  /** The count of a sorted list is where its larger points begin. */
  lemma CountIs(s: seq<nat>, c: nat, k: nat)
    requires k <= |s| && (forall i :: 0 <= i < k ==> s[i] <= c) && (forall i :: k <= i < |s| ==> s[i] > c)
    ensures Count(s, c) == k
  {
    assert s == s[..k] + s[k..];
    CountAppend(s[..k], s[k..], c);
    CountAll(s[..k], c);
    CountNone(s[k..], c);
  }

  lemma {:induction false} CountSplit(s: seq<nat>, c: nat) returns (k: nat)
    requires Sorted(s)
    ensures k <= |s| && (forall i :: 0 <= i < k ==> s[i] <= c) && (forall i :: k <= i < |s| ==> s[i] > c)
    ensures Count(s, c) == k
    decreases |s|
  {
    if s == [] {
      k := 0;
    } else if s[|s| - 1] <= c {
      k := |s|;
      CountIs(s, c, k);
    } else {
      k := CountSplit(s[..|s| - 1], c);
      CountIs(s, c, k);
    }
  }

  /** For a canonical list the two views of membership agree. */
  lemma ContainsInSome(s: seq<nat>, c: nat)
    requires Canonical(s)
    ensures Contains(s, c) <==> InSome(s, c)
  {
    var k := CountSplit(s, c);
    if Odd(k) {
      var i := k / 2;
      assert 2 * i + 1 < |s| && s[2 * i] <= c < s[2 * i + 1];
    }
    if i: nat :| 2 * i + 1 < |s| && s[2 * i] <= c < s[2 * i + 1] {
      assert k == 2 * i + 1;
    }
  }

  // The operations.

  datatype SetOp = UNION | INTER | XOR | SUB

  /** Whether a character is in the result, given whether it is in each operand. */
  predicate Result(op: SetOp, inA: bool, inB: bool) {
    match op
    case UNION => inA || inB
    case INTER => inA && inB
    case XOR => inA != inB
    case SUB => inA && !inB
  }

  lemma ResultIs(op: SetOp, x: bool, y: bool)
    ensures Result(op, x, y) <==>
      match op case UNION => x || y case INTER => x && y case XOR => x != y case SUB => x && !y
  {
  }

  lemma ContainsSnoc(s: seq<nat>, v: nat, c: nat)
    ensures Contains(s + [v], c) <==> (Contains(s, c) != (v <= c))
  {
    CountSnoc(s, v, c);
  }

  lemma ContainsAll(s: seq<nat>, c: nat)
    requires forall i :: 0 <= i < |s| ==> s[i] <= c
    ensures Contains(s, c) <==> Odd(|s|)
  {
    CountAll(s, c);
  }

  lemma ContainsPrefix(s: seq<nat>, k: nat, c: nat)
    requires k < |s|
    ensures Contains(s[..k + 1], c) <==> (Contains(s[..k], c) != (s[k] <= c))
  {
    assert s[..k + 1] == s[..k] + [s[k]];
    ContainsSnoc(s[..k], s[k], c);
  }

  lemma ContainsAppend(s: seq<nat>, t: seq<nat>, c: nat)
    ensures Contains(s + t, c) <==> (Contains(s, c) != Contains(t, c))
  {
    CountAppend(s, t, c);
  }

  lemma ContainsPair(a: nat, b: nat, c: nat)
    ensures Contains([a, b], c) <==> ((a <= c) != (b <= c))
  {
    assert [a, b] == [] + [a] + [b];
    CountSnoc([] + [a], b, c);
    CountSnoc([], a, c);
  }

  lemma IntervalAdded(s: seq<nat>, c1: nat, c2: nat, c: nat)
    requires |s| % 2 == 0
    ensures InSome(s + [c1, c2], c) <==> InSome(s, c) || c1 <= c < c2
  {
    var t := s + [c1, c2];
    if InSome(s, c) {
      var i: nat :| 2 * i + 1 < |s| && s[2 * i] <= c < s[2 * i + 1];
      assert t[2 * i] == s[2 * i] && t[2 * i + 1] == s[2 * i + 1];
    }
    if c1 <= c < c2 {
      var i := |s| / 2;
      assert t[2 * i] == c1 && t[2 * i + 1] == c2;
    }
    if InSome(t, c) {
      var i: nat :| 2 * i + 1 < |t| && t[2 * i] <= c < t[2 * i + 1];
      if 2 * i + 1 < |s| { assert s[2 * i] == t[2 * i] && s[2 * i + 1] == t[2 * i + 1]; }
    }
  }

  class CharRange {
    var points: seq<nat>

    constructor ()
      ensures points == []
    {
      points := [];
    }

    /** cr_add_point. */
    method AddPoint(v: nat)
      modifies this
      ensures points == old(points) + [v]
    {
      points := points + [v];
    }

    /** cr_add_interval: the characters from c1 up to c2 join the listed ones. */
    method AddInterval(c1: nat, c2: nat)
      modifies this
      ensures points == old(points) + [c1, c2]
      ensures |old(points)| % 2 == 0 ==> forall c: nat :: InSome(points, c) <==> InSome(old(points), c) || c1 <= c < c2
    {
      ghost var s := points;
      points := points + [c1, c2];
      if |s| % 2 == 0 {
        forall c: nat ensures InSome(points, c) <==> InSome(s, c) || c1 <= c < c2 { IntervalAdded(s, c1, c2, c); }
      }
    }

    /** cr_compress: merge consecutive intervals and remove empty ones. */
    method Compress()
      requires Sorted(points) && |points| % 2 == 0
      modifies this
      ensures Canonical(points) && forall c: nat :: Contains(points, c) <==> Contains(old(points), c)
      ensures forall m :: 0 <= m < |points| ==> points[m] in old(points)
    {
      ghost var p := points;
      var len := |points|;
      var i, k := 0, 0;
      CompressStart(p);
      hide Compressed, MergedTo, Contains, Count, Sorted, Canonical;
      assert points[..0] == [];
      while i + 1 < len
        invariant 0 <= k <= i <= len == |points| == |p| && i % 2 == 0
        invariant forall x :: i <= x < len ==> points[x] == p[x]
        invariant Compressed(points[..k], p, i)
        decreases len - i
      {
        if points[i] == points[i + 1] {
          SkipEmpty(points[..k], p, i);
          i := i + 2;
        } else {
          var j := MergeRun(p, i);
          Emit(points[..k], p, i, j);
          ghost var out := points[..k];
          points := points[k := points[i]][k + 1 := points[j + 1]];
          assert points[..k + 2] == out + [p[i], p[j + 1]];
          k := k + 2;
          i := j + 2;
        }
      }
      CompressEnd(points[..k], p, i);
      points := points[..k];
    }

    /** The inner loop: how far intervals touch. */
    method MergeRun(ghost p: seq<nat>, i: nat) returns (j: nat)
      requires Sorted(p) && |p| % 2 == 0 && i % 2 == 0 && i + 1 < |points| == |p| && p[i] != p[i + 1]
      requires forall x :: i <= x < |points| ==> points[x] == p[x]
      ensures i <= j && j % 2 == 0 && j + 1 < |p| && MergedTo(p, i, j)
      ensures j + 3 < |p| ==> p[j + 1] != p[j + 2]
    {
      j := i;
      SamePair(p, i);
      hide MergedTo, Sorted;
      while j + 3 < |points| && points[j + 1] == points[j + 2]
        invariant i <= j && j % 2 == 0 && j + 1 < |p| && MergedTo(p, i, j)
        decreases |points| - j
      {
        MergeNext(p, i, j);
        j := j + 2;
      }
    }

    /** cr_op: the points of a and b merged in increasing order, kept where membership changes. */
    method Op(a: seq<nat>, b: seq<nat>, op: SetOp)
      requires points == [] && Sorted(a) && Sorted(b) && |a| % 2 == 0 && |b| % 2 == 0
      modifies this
      ensures Canonical(points)
      ensures forall c: nat :: Contains(points, c) <==>
        match op
        case UNION => Contains(a, c) || Contains(b, c)
        case INTER => Contains(a, c) && Contains(b, c)
        case XOR => Contains(a, c) != Contains(b, c)
        case SUB => Contains(a, c) && !Contains(b, c)
      ensures forall m :: 0 <= m < |points| ==> points[m] in a || points[m] in b
    {
      var i, j := 0, 0;
      OpStart(a, b, op);
      hide OpSoFar, Contains, Count, Sorted, Canonical, Result, Odd;
      while i < |a| || j < |b|
        invariant i <= |a| && j <= |b| && OpSoFar(points, a, b, i, j, op)
        decreases |a| - i + |b| - j
      {
        var v;
        ghost var i0, j0 := i, j;
        if i < |a| && j < |b| {
          if a[i] < b[j] {
            v, i := a[i], i + 1;
          } else if a[i] == b[j] {
            v, i, j := a[i], i + 1, j + 1;
          } else {
            v, j := b[j], j + 1;
          }
        } else if i < |a| {
          v, i := a[i], i + 1;
        } else {
          v, j := b[j], j + 1;
        }
        OpStep(points, a, b, i0, j0, v, i, j, op);
        if Result(op, Odd(i), Odd(j)) != Odd(|points|) {
          AddPoint(v);
        }
      }
      OpEnd(points, a, b, op);
      ghost var p := points;
      Compress();
      Composed(points, p, a, b);
      forall x, y { ResultIs(op, x, y); }
    }

    /** cr_op1. */
    method Op1(b: seq<nat>, op: SetOp)
      requires Sorted(points) && Sorted(b) && |points| % 2 == 0 && |b| % 2 == 0
      modifies this
      ensures Canonical(points)
      ensures forall c: nat :: Contains(points, c) <==>
        match op
        case UNION => Contains(old(points), c) || Contains(b, c)
        case INTER => Contains(old(points), c) && Contains(b, c)
        case XOR => Contains(old(points), c) != Contains(b, c)
        case SUB => Contains(old(points), c) && !Contains(b, c)
      ensures forall m :: 0 <= m < |points| ==> points[m] in old(points) || points[m] in b
    {
      var a := points;
      points := [];
      Op(a, b, op);
    }

    /** cr_union_interval. The end c2 + 1 is a 32-bit number: for UINT32_MAX it wraps to 0, which makes an
        interval from 0 empty, and any other one no longer a list of points that cr_op could read. */
    method UnionInterval(c1: nat, c2: nat)
      requires Sorted(points) && |points| % 2 == 0 && c1 <= c2 + 1 && c2 <= UINT32_MAX && (c2 == UINT32_MAX ==> c1 == 0)
      modifies this
      ensures Canonical(points)
      ensures forall c: nat :: Contains(points, c) <==> Contains(old(points), c) || (c1 <= c <= c2 && c2 < UINT32_MAX)
    {
      var end := (c2 + 1) % (UINT32_MAX + 1);
      var b := [c1, end];
      forall c: nat ensures Contains(b, c) <==> c1 <= c < end {
        ContainsPair(c1, end, c);
      }
      hide Contains;
      Op1(b, UNION);
    }

    /** cr_invert: the complement below UINT32_MAX. */
    method Invert()
      requires Sorted(points) && |points| % 2 == 0
      requires forall m :: 0 <= m < |points| ==> points[m] <= UINT32_MAX
      modifies this
      ensures Canonical(points) && forall m :: 0 <= m < |points| ==> points[m] <= UINT32_MAX
      ensures forall c: nat :: Contains(points, c) <==> c < UINT32_MAX && !Contains(old(points), c)
    {
      ghost var p := points;
      points := [0] + points + [UINT32_MAX];
      forall c: nat ensures Contains(points, c) <==> c < UINT32_MAX && !Contains(p, c) {
        Inverted(p, c);
      }
      assert |points| == |p| + 2;
      hide Contains;
      Compress();
    }
  }

  lemma Inverted(p: seq<nat>, c: nat)
    requires |p| % 2 == 0 && forall m :: 0 <= m < |p| ==> p[m] <= UINT32_MAX
    ensures Contains([0] + p + [UINT32_MAX], c) <==> c < UINT32_MAX && !Contains(p, c)
  {
    ContainsSnoc([0] + p, UINT32_MAX, c);
    ContainsAppend([0], p, c);
    ContainsSnoc([], 0, c);
    assert [] + [0] == [0];
    if c >= UINT32_MAX { ContainsAll(p, c); }
  }

  predicate AllAtMost(s: seq<nat>, v: nat) {
    forall i :: 0 <= i < |s| ==> s[i] <= v
  }

  /** The merge of cr_op after i points of a and j points of b. */
  ghost predicate OpSoFar(out: seq<nat>, a: seq<nat>, b: seq<nat>, i: nat, j: nat, op: SetOp)
    requires i <= |a| && j <= |b|
  {
    && Sorted(out) && (Odd(|out|) <==> Result(op, Odd(i), Odd(j)))
    && (forall c: nat :: Contains(out, c) <==> Result(op, Contains(a[..i], c), Contains(b[..j], c)))
    && (i < |a| ==> AllAtMost(out, a[i]) && AllAtMost(b[..j], a[i]))
    && (j < |b| ==> AllAtMost(out, b[j]) && AllAtMost(a[..i], b[j]))
    && (forall m :: 0 <= m < |out| ==> out[m] in a || out[m] in b)
  }

  lemma OpStart(a: seq<nat>, b: seq<nat>, op: SetOp)
    ensures OpSoFar([], a, b, 0, 0, op)
  {
    assert a[..0] == [] && b[..0] == [];
  }

  lemma OpEnd(out: seq<nat>, a: seq<nat>, b: seq<nat>, op: SetOp)
    requires OpSoFar(out, a, b, |a|, |b|, op) && |a| % 2 == 0 && |b| % 2 == 0
    ensures Sorted(out) && |out| % 2 == 0
    ensures forall c: nat :: Contains(out, c) <==> Result(op, Contains(a, c), Contains(b, c))
    ensures forall m :: 0 <= m < |out| ==> out[m] in a || out[m] in b
  {
    assert a[..|a|] == a && b[..|b|] == b;
  }

  lemma Composed(q: seq<nat>, p: seq<nat>, a: seq<nat>, b: seq<nat>)
    requires forall m :: 0 <= m < |q| ==> q[m] in p
    requires forall m :: 0 <= m < |p| ==> p[m] in a || p[m] in b
    ensures forall m :: 0 <= m < |q| ==> q[m] in a || q[m] in b
  {
  }

  /** v is the next point of a, of b or of both. */
  ghost predicate NextPoint(a: seq<nat>, b: seq<nat>, i: nat, j: nat, v: nat, i1: nat, j1: nat)
    requires i <= i1 <= |a| && j <= j1 <= |b|
  {
    && i1 <= i + 1 && j1 <= j + 1 && i1 + j1 > i + j
    && (i1 > i ==> a[i] == v) && (j1 > j ==> b[j] == v)
    && (i1 == i && i < |a| ==> v < a[i]) && (j1 == j && j < |b| ==> v < b[j])
  }

  lemma OpStep(out: seq<nat>, a: seq<nat>, b: seq<nat>, i: nat, j: nat, v: nat, i1: nat, j1: nat, op: SetOp)
    requires Sorted(a) && Sorted(b) && i <= i1 <= |a| && j <= j1 <= |b|
    requires OpSoFar(out, a, b, i, j, op) && NextPoint(a, b, i, j, v, i1, j1)
    ensures OpSoFar(if Result(op, Odd(i1), Odd(j1)) != Odd(|out|) then out + [v] else out, a, b, i1, j1, op)
  {
    var out1 := if Result(op, Odd(i1), Odd(j1)) != Odd(|out|) then out + [v] else out;
    forall c: nat ensures Contains(out1, c) <==> Result(op, Contains(a[..i1], c), Contains(b[..j1], c)) {
      StepAt(out, a, b, i, j, v, i1, j1, op, c);
    }
    hide Contains, Result;
    assert i1 < |a| ==> v <= a[i1];
    assert j1 < |b| ==> v <= b[j1];
    StepOrder(out, a, b, i, j, v, i1, j1, op);
  }

  lemma StepOrder(out: seq<nat>, a: seq<nat>, b: seq<nat>, i: nat, j: nat, v: nat, i1: nat, j1: nat, op: SetOp)
    requires Sorted(a) && Sorted(b) && i <= i1 <= |a| && j <= j1 <= |b|
    requires OpSoFar(out, a, b, i, j, op) && NextPoint(a, b, i, j, v, i1, j1)
    ensures AllAtMost(out, v) && AllAtMost(a[..i1], v) && AllAtMost(b[..j1], v)
    ensures (i1 < |a| ==> v <= a[i1]) && (j1 < |b| ==> v <= b[j1])
  {
  }

  lemma StepAt(out: seq<nat>, a: seq<nat>, b: seq<nat>, i: nat, j: nat, v: nat, i1: nat, j1: nat, op: SetOp, c: nat)
    requires Sorted(a) && Sorted(b) && i <= i1 <= |a| && j <= j1 <= |b|
    requires OpSoFar(out, a, b, i, j, op) && NextPoint(a, b, i, j, v, i1, j1)
    ensures var out1 := if Result(op, Odd(i1), Odd(j1)) != Odd(|out|) then out + [v] else out;
      Contains(out1, c) <==> Result(op, Contains(a[..i1], c), Contains(b[..j1], c))
  {
    StepOrder(out, a, b, i, j, v, i1, j1, op);
    ContainsSnoc(out, v, c);
    if c >= v {
      ContainsAll(out, c);
      ContainsAll(a[..i1], c);
      ContainsAll(b[..j1], c);
    } else {
      if i1 > i { ContainsPrefix(a, i, c); }
      if j1 > j { ContainsPrefix(b, j, c); }
    }
  }

  lemma CompressStart(p: seq<nat>)
    ensures Compressed([], p, 0)
  {
    assert p[..0] == [];
  }

  lemma CompressEnd(out: seq<nat>, p: seq<nat>, i: nat)
    requires i <= |p| <= i + 1 && i % 2 == 0 && |p| % 2 == 0 && Compressed(out, p, i)
    ensures Canonical(out) && forall c: nat :: Contains(out, c) <==> Contains(p, c)
    ensures forall m :: 0 <= m < |out| ==> out[m] in p
  {
    assert p[..i] == p;
  }

  /** out is the compressed form of the first i points. */
  ghost predicate Compressed(out: seq<nat>, p: seq<nat>, i: nat)
    requires i <= |p|
  {
    && Canonical(out) && (out != [] && i < |p| ==> out[|out| - 1] < p[i])
    && (forall c: nat :: Contains(out, c) <==> Contains(p[..i], c))
    && (forall m :: 0 <= m < |out| ==> out[m] in p)
  }

  /** The intervals from i to j are all one. */
  ghost predicate MergedTo(p: seq<nat>, i: nat, j: nat)
    requires i <= j && j + 1 < |p|
  {
    && p[i] < p[j + 1]
    && forall c: nat :: Contains(p[..j + 2], c) <==> (Contains(p[..i], c) != Contains([p[i], p[j + 1]], c))
  }

  lemma TwoMore(p: seq<nat>, i: nat, c: nat)
    requires i + 1 < |p|
    ensures Contains(p[..i + 2], c) <==> (Contains(p[..i], c) != Contains([p[i], p[i + 1]], c))
  {
    assert p[..i + 2] == p[..i] + [p[i], p[i + 1]];
    ContainsAppend(p[..i], [p[i], p[i + 1]], c);
  }

  lemma SkipEmpty(out: seq<nat>, p: seq<nat>, i: nat)
    requires Sorted(p) && i + 1 < |p| && p[i] == p[i + 1] && Compressed(out, p, i)
    ensures Compressed(out, p, i + 2)
  {
    forall c: nat ensures Contains(out, c) <==> Contains(p[..i + 2], c) {
      TwoMore(p, i, c);
      ContainsPair(p[i], p[i + 1], c);
    }
  }

  lemma SamePair(p: seq<nat>, i: nat)
    requires Sorted(p) && i + 1 < |p| && p[i] != p[i + 1]
    ensures MergedTo(p, i, i)
  {
    forall c: nat ensures Contains(p[..i + 2], c) <==> (Contains(p[..i], c) != Contains([p[i], p[i + 1]], c)) {
      TwoMore(p, i, c);
    }
  }

  lemma MergeNext(p: seq<nat>, i: nat, j: nat)
    requires Sorted(p) && i <= j && j + 3 < |p| && p[j + 1] == p[j + 2] && MergedTo(p, i, j)
    ensures MergedTo(p, i, j + 2)
  {
    forall c: nat
      ensures Contains(p[..j + 4], c) <==> (Contains(p[..i], c) != Contains([p[i], p[j + 3]], c))
    {
      TwoMore(p, j + 2, c);
      ContainsPair(p[i], p[j + 1], c);
      ContainsPair(p[j + 2], p[j + 3], c);
      ContainsPair(p[i], p[j + 3], c);
    }
  }

  lemma Emit(out: seq<nat>, p: seq<nat>, i: nat, j: nat)
    requires Sorted(p) && |p| % 2 == 0 && i <= j && j % 2 == 0 && j + 1 < |p| && MergedTo(p, i, j)
    requires j + 3 < |p| ==> p[j + 1] != p[j + 2]
    requires Compressed(out, p, i)
    ensures Compressed(out + [p[i], p[j + 1]], p, j + 2)
  {
    var o := out + [p[i], p[j + 1]];
    forall c: nat ensures Contains(o, c) <==> Contains(p[..j + 2], c) {
      ContainsAppend(out, [p[i], p[j + 1]], c);
    }
    assert forall m :: 0 <= m < |o| ==> o[m] in p;
  }
}
