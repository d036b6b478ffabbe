/** Case folding of character sets. */
module CaseRanges {
  import opened CharSets
  import opened CharRanges
  import opened Rqsort

  // Intervals as pairs.

  ghost predicate InPairs(ps: seq<(nat, nat)>, c: nat) {
    exists k :: 0 <= k < |ps| && ps[k].0 <= c < ps[k].1
  }

  function PairsOf(s: seq<nat>): (ps: seq<(nat, nat)>)
    requires |s| % 2 == 0
    ensures |ps| == |s| / 2 && forall k :: 0 <= k < |ps| ==> ps[k] == (s[2 * k], s[2 * k + 1])
  {
    seq(|s| / 2, k requires 0 <= k < |s| / 2 => (s[2 * k], s[2 * k + 1]))
  }

  function PointsOf(ps: seq<(nat, nat)>): (s: seq<nat>)
    ensures |s| == 2 * |ps| && forall k :: 0 <= k < |ps| ==> s[2 * k] == ps[k].0 && s[2 * k + 1] == ps[k].1
  {
    seq(2 * |ps|, i requires 0 <= i < 2 * |ps| => if i % 2 == 0 then ps[i / 2].0 else ps[i / 2].1)
  }

  lemma SomePair(s: seq<nat>, c: nat)
    requires |s| % 2 == 0
    ensures InSome(s, c) <==> InPairs(PairsOf(s), c)
  {
    var ps := PairsOf(s);
    if i: nat :| 2 * i + 1 < |s| && s[2 * i] <= c < s[2 * i + 1] {
      assert ps[i].0 <= c < ps[i].1;
    }
    if k :| 0 <= k < |ps| && ps[k].0 <= c < ps[k].1 {
      assert 2 * k + 1 < |s| && s[2 * k] <= c < s[2 * k + 1];
    }
  }

  lemma SamePairs(ps: seq<(nat, nat)>, qs: seq<(nat, nat)>, c: nat)
    requires multiset(ps) == multiset(qs) && InPairs(ps, c)
    ensures InPairs(qs, c)
  {
    var k :| 0 <= k < |ps| && ps[k].0 <= c < ps[k].1;
    assert ps[k] in multiset(ps);
    assert ps[k] in qs;
    var m :| 0 <= m < |qs| && qs[m] == ps[k];
    assert qs[m].0 <= c < qs[m].1;
  }

  /** Every interval has a character. */
  predicate NonEmpty(s: seq<nat>) {
    |s| % 2 == 0 && forall k :: 0 <= k < |s| / 2 ==> s[2 * k] < s[2 * k + 1]
  }

  lemma NonEmptyPairs(s: seq<nat>, qs: seq<(nat, nat)>)
    requires NonEmpty(s) && multiset(qs) == multiset(PairsOf(s))
    ensures forall k :: 0 <= k < |qs| ==> qs[k].0 < qs[k].1
  {
    forall k | 0 <= k < |qs| ensures qs[k].0 < qs[k].1 {
      assert qs[k] in multiset(qs);
      assert qs[k] in PairsOf(s);
    }
  }

  /** point_cmp: by the start of the interval. */
  function PointCmp(p: (nat, nat), q: (nat, nat)): int {
    (if p.0 > q.0 then 1 else 0) - (if p.0 < q.0 then 1 else 0)
  }

  lemma PointCmpOrder()
    ensures TotalPreorder(PointCmp)
  {
  }

  /** Intervals in order of their start. */
  predicate ByStart(ps: seq<(nat, nat)>) {
    && (forall x, y :: 0 <= x < y < |ps| ==> ps[x].0 <= ps[y].0)
    && (forall k :: 0 <= k < |ps| ==> ps[k].0 < ps[k].1)
  }

  /** The merged intervals after i of the sorted ones. */
  ghost predicate MergedFrom(out: seq<nat>, ps: seq<(nat, nat)>, i: nat)
    requires i <= |ps|
  {
    && Canonical(out) && (out != [] && i < |ps| ==> out[|out| - 1] < ps[i].0)
    && (forall c: nat :: InSome(out, c) <==> InPairs(ps[..i], c))
  }

  /** [start, end) covers the sorted intervals from i0 to i. */
  ghost predicate Joined(ps: seq<(nat, nat)>, i0: nat, i: nat, start: nat, end: nat)
    requires i0 < i <= |ps|
  {
    && start == ps[i0].0 && start < end
    && forall c: nat {:trigger InPairs(ps[i0..i], c)} :: start <= c < end <==> InPairs(ps[i0..i], c)
  }

  lemma PairsSnoc(ps: seq<(nat, nat)>, i0: nat, i: nat, c: nat)
    requires i0 <= i < |ps|
    ensures InPairs(ps[i0..i + 1], c) <==> InPairs(ps[i0..i], c) || ps[i].0 <= c < ps[i].1
  {
    var a, b := ps[i0..i], ps[i0..i + 1];
    assert b == a + [ps[i]];
    if k :| 0 <= k < |a| && a[k].0 <= c < a[k].1 { assert b[k] == a[k]; }
    if ps[i].0 <= c < ps[i].1 { assert b[i - i0] == ps[i]; }
  }

  lemma PairsJoin(ps: seq<(nat, nat)>, i0: nat, i: nat, c: nat)
    requires i0 <= i <= |ps|
    ensures InPairs(ps[..i], c) <==> InPairs(ps[..i0], c) || InPairs(ps[i0..i], c)
  {
    var a, b, d := ps[..i0], ps[i0..i], ps[..i];
    assert d == a + b;
    if k :| 0 <= k < |a| && a[k].0 <= c < a[k].1 { assert d[k] == a[k]; }
    if k :| 0 <= k < |b| && b[k].0 <= c < b[k].1 { assert d[i0 + k] == b[k]; }
  }

  lemma JoinStart(ps: seq<(nat, nat)>, i: nat)
    requires ByStart(ps) && i < |ps|
    ensures Joined(ps, i, i + 1, ps[i].0, ps[i].1)
  {
    var t := ps[i..i + 1];
    forall c: nat ensures ps[i].0 <= c < ps[i].1 <==> InPairs(t, c) {
      PairsSnoc(ps, i, i, c);
    }
  }

  lemma JoinNext(ps: seq<(nat, nat)>, i0: nat, i: nat, start: nat, end: nat)
    requires ByStart(ps) && i0 < i < |ps| && Joined(ps, i0, i, start, end) && ps[i].0 <= end
    ensures Joined(ps, i0, i + 1, start, if ps[i].1 <= end then end else ps[i].1)
  {
    var end1 := if ps[i].1 <= end then end else ps[i].1;
    var t := ps[i0..i + 1];
    forall c: nat ensures start <= c < end1 <==> InPairs(t, c) {
      PairsSnoc(ps, i0, i, c);
    }
  }

  lemma SomeSnoc(s: seq<nat>, a: nat, b: nat, c: nat)
    requires |s| % 2 == 0
    ensures InSome(s + [a, b], c) <==> InSome(s, c) || a <= c < b
  {
    var t := s + [a, b];
    if i: nat :| 2 * i + 1 < |s| && s[2 * i] <= c < s[2 * i + 1] {
      assert t[2 * i] <= c < t[2 * i + 1];
    }
    if a <= c < b {
      assert t[2 * (|s| / 2)] <= c < t[2 * (|s| / 2) + 1];
    }
    if i: nat :| 2 * i + 1 < |t| && t[2 * i] <= c < t[2 * i + 1] {
      if 2 * i + 1 < |s| { assert s[2 * i] <= c < s[2 * i + 1]; }
    }
  }

  lemma MergeEmit(out: seq<nat>, ps: seq<(nat, nat)>, i0: nat, i: nat, start: nat, end: nat)
    requires i0 < i <= |ps| && MergedFrom(out, ps, i0) && Joined(ps, i0, i, start, end)
    requires i < |ps| ==> ps[i].0 > end
    ensures MergedFrom(out + [start, end], ps, i)
  {
    forall c: nat ensures InSome(out + [start, end], c) <==> InPairs(ps[..i], c) {
      SomeSnoc(out, start, end, c);
      PairsJoin(ps, i0, i, c);
    }
  }

  /** cr_sort_and_remove_overlap: the same characters, as a canonical list. */
  method SortAndRemoveOverlap(cr: CharRange)
    requires NonEmpty(cr.points)
    modifies cr
    ensures Canonical(cr.points) && forall c: nat :: InSome(cr.points, c) <==> InSome(old(cr.points), c)
  {
    ghost var s0 := cr.points;
    var n := |cr.points| / 2;
    var sorted := new (nat, nat)[n](_ => (0, 0));
    forall k | 0 <= k < n { sorted[k] := (cr.points[2 * k], cr.points[2 * k + 1]); }
    assert sorted[..] == PairsOf(s0);
    PointCmpOrder();
    RqSort(sorted, PointCmp);
    ghost var ps := sorted[..];
    NonEmptyPairs(s0, ps);
    SortedIsByStart(ps);
    cr.points := PointsOf(sorted[..]);
    hide ByStart, MergedFrom, Joined, Canonical, InSome, InPairs;
    MergeSorted(cr, ps);
    forall c: nat ensures InSome(cr.points, c) <==> InSome(s0, c) {
      SomePair(s0, c);
      if InPairs(ps, c) { SamePairs(ps, PairsOf(s0), c); }
      if InPairs(PairsOf(s0), c) { SamePairs(PairsOf(s0), ps, c); }
    }
  }

  lemma SortedIsByStart(ps: seq<(nat, nat)>)
    requires SortedPart(ps, 0, |ps|, PointCmp) && forall k :: 0 <= k < |ps| ==> ps[k].0 < ps[k].1
    ensures ByStart(ps)
  {
    forall x, y | 0 <= x < y < |ps| ensures ps[x].0 <= ps[y].0 {
      assert PointCmp(ps[x], ps[y]) <= 0;
    }
  }

  lemma MergeStart(ps: seq<(nat, nat)>)
    ensures MergedFrom([], ps, 0)
  {
    assert ps[..0] == [];
  }

  lemma MergeEnd(out: seq<nat>, ps: seq<(nat, nat)>)
    requires MergedFrom(out, ps, |ps|)
    ensures Canonical(out) && forall c: nat :: InSome(out, c) <==> InPairs(ps, c)
  {
    assert ps[..|ps|] == ps;
  }

  /** From the i-th interval on the points are still those of ps. */
  predicate Rest(s: seq<nat>, ps: seq<(nat, nat)>, i: nat) {
    |s| == 2 * |ps| && forall x :: i <= x < |ps| ==> (s[2 * x], s[2 * x + 1]) == ps[x]
  }

  lemma RestStart(ps: seq<(nat, nat)>)
    ensures Rest(PointsOf(ps), ps, 0) && PointsOf(ps)[..0] == []
  {
  }

  lemma RestUpdate(s: seq<nat>, ps: seq<(nat, nat)>, j: nat, i: nat, start: nat, end: nat)
    requires j < i <= |ps| && Rest(s, ps, i)
    ensures Rest(s[2 * j := start][2 * j + 1 := end], ps, i)
    ensures s[2 * j := start][2 * j + 1 := end][..2 * (j + 1)] == s[..2 * j] + [start, end]
  {
  }

  lemma RestLater(s: seq<nat>, ps: seq<(nat, nat)>, i0: nat, i: nat)
    requires Rest(s, ps, i0) && i0 < i <= |ps|
    ensures Rest(s, ps, i) && (s[2 * i0], s[2 * i0 + 1]) == ps[i0]
  {
  }

  /** The inner loop: the end of the intervals that overlap or touch. */
  method JoinRun(cr: CharRange, i0: nat, ghost ps: seq<(nat, nat)>) returns (i: nat, end: nat)
    requires ByStart(ps) && i0 < |ps| && |cr.points| == 2 * |ps|
    requires Rest(cr.points, ps, i0)
    ensures i0 < i <= |ps| && Joined(ps, i0, i, ps[i0].0, end) && (i < |ps| ==> ps[i].0 > end)
  {
    end := cr.points[2 * i0 + 1];
    i := i0 + 1;
    JoinStart(ps, i0);
    hide ByStart, Joined;
    while 2 * i < |cr.points| && cr.points[2 * i] <= end
      invariant i0 < i <= |ps| && Joined(ps, i0, i, ps[i0].0, end)
    {
      JoinNext(ps, i0, i, ps[i0].0, end);
      var end1 := cr.points[2 * i + 1];
      if end1 > end {
        end := end1;
      }
      i := i + 1;
    }
  }

  /** The first j intervals are the merged form of the first i of ps; the others are still to come. */
  ghost predicate Merging(s: seq<nat>, ps: seq<(nat, nat)>, i: nat, j: nat) {
    j <= i <= |ps| && |s| == 2 * |ps| && Rest(s, ps, i) && MergedFrom(s[..2 * j], ps, i)
  }

  /** One round of the merge loop: the joined intervals become one. */
  method MergeOne(cr: CharRange, i0: nat, j: nat, ghost ps: seq<(nat, nat)>) returns (i: nat)
    requires i0 < |ps| && ByStart(ps) && Merging(cr.points, ps, i0, j)
    modifies cr
    ensures i0 < i <= |ps| && Merging(cr.points, ps, i, j + 1)
  {
    hide ByStart, MergedFrom, Joined;
    var start := cr.points[2 * i0];
    var end;
    i, end := JoinRun(cr, i0, ps);
    RestLater(cr.points, ps, i0, i);
    hide Rest;
    MergeEmit(cr.points[..2 * j], ps, i0, i, start, end);
    RestUpdate(cr.points, ps, j, i, start, end);
    cr.points := cr.points[2 * j := start][2 * j + 1 := end];
  }

  lemma MergingStart(ps: seq<(nat, nat)>)
    ensures Merging(PointsOf(ps), ps, 0, 0)
  {
    MergeStart(ps);
    RestStart(ps);
  }

  lemma MergingEnd(s: seq<nat>, ps: seq<(nat, nat)>, j: nat)
    requires Merging(s, ps, |ps|, j)
    ensures 2 * j <= |s| && Canonical(s[..2 * j]) && forall c: nat :: InSome(s[..2 * j], c) <==> InPairs(ps, c)
  {
    MergeEnd(s[..2 * j], ps);
  }

  /** The merge loop, in place. */
  method MergeSorted(cr: CharRange, ghost ps: seq<(nat, nat)>)
    requires ByStart(ps) && cr.points == PointsOf(ps)
    modifies cr
    ensures Canonical(cr.points) && forall c: nat :: InSome(cr.points, c) <==> InPairs(ps, c)
  {
    hide *;
    var n := |cr.points| / 2;
    var i, j := 0, 0;
    MergingStart(ps);
    while i < n
      invariant 0 <= i <= n == |ps| && 0 <= j && Merging(cr.points, ps, i, j)
      decreases n - i
    {
      i := MergeOne(cr, i, j, ps);
      j := j + 1;
    }
    MergingEnd(cr.points, ps, j);
    cr.points := cr.points[..2 * j];
  }

  // Case folding.

  /** An entry of case_conv_table1: a run of characters. */
  datatype CaseRun = CaseRun(code: nat, len: nat)

  predicate InRun(e: CaseRun, c: nat) {
    e.code <= c < e.code + e.len
  }

  /** The case conversion data: the runs, what an entry makes of a character, and the characters that change. */
  datatype CaseTable = CaseTable(isUnicode: bool, runs: seq<CaseRun>, fold: (nat, nat) -> nat, mask: seq<nat>) {
    /** lre_canonicalize, by the table alone. */
    function Canonicalize(c: nat): nat {
      CanonicalizeFrom(c, 0)
    }

    function CanonicalizeFrom(c: nat, idx: nat): nat
      decreases |runs| - idx
    {
      if idx >= |runs| then c else if InRun(runs[idx], c) then fold(c, idx) else CanonicalizeFrom(c, idx + 1)
    }

    /** The fast path: lower case with the Unicode flag, upper case without. */
    function AsciiFold(c: nat): nat {
      if isUnicode then (if 'A' as nat <= c <= 'Z' as nat then c + 32 else c)
      else if 'a' as nat <= c <= 'z' as nat then c - 32 else c
    }

    /** Runs in order, a canonical mask inside the runs, nothing changed outside the mask, and the ASCII
        entries as in the fast path. */
    ghost predicate Valid() {
      && (forall i, j :: 0 <= i < j < |runs| ==> runs[i].code + runs[i].len <= runs[j].code)
      && Canonical(mask) && (forall k :: 0 <= k < |mask| ==> mask[k] <= UINT32_MAX)
      && (forall c: nat :: Contains(mask, c) ==> exists i :: 0 <= i < |runs| && InRun(runs[i], c))
      && (forall c: nat :: !Contains(mask, c) ==> Canonicalize(c) == c)
      && (forall c: nat, i: nat {:trigger fold(c, i)} :: fold(c, i) < UINT32_MAX)
      && (forall c: nat :: c < 128 ==> Canonicalize(c) == AsciiFold(c))
    }

    lemma {:induction false} CanonicalizeIn(c: nat, from: nat, idx: nat)
      requires from <= idx < |runs| && InRun(runs[idx], c)
      requires forall i, j :: 0 <= i < j < |runs| ==> runs[i].code + runs[i].len <= runs[j].code
      ensures CanonicalizeFrom(c, from) == fold(c, idx)
      decreases idx - from
    {
      if from < idx {
        CanonicalizeIn(c, from + 1, idx);
      }
    }

    lemma {:induction false} CanonicalizeBelow(c: nat, from: nat)
      requires Valid() && c < UINT32_MAX
      ensures CanonicalizeFrom(c, from) < UINT32_MAX
      decreases |runs| - from
    {
      hide Valid, Contains;
      if from < |runs| {
        FoldIsBelow(c, from);
        CanonicalizeBelow(c, from + 1);
      }
    }

    lemma FoldIsBelow(c: nat, idx: nat)
      requires Valid()
      ensures fold(c, idx) < UINT32_MAX
    {
    }

    /** lre_canonicalize: its fast path and its binary search find the same as the table read in order. */
    method LreCanonicalize(c: nat) returns (d: nat)
      requires Valid()
      ensures d == Canonicalize(c)
    {
      if c < 128 {
        if isUnicode {
          if 'A' as nat <= c <= 'Z' as nat { return c - 'A' as nat + 'a' as nat; }
        } else {
          if 'a' as nat <= c <= 'z' as nat { return c - 'a' as nat + 'A' as nat; }
        }
        return c;
      }
      var idxMin, idxMax: int := 0, |runs| - 1;
      while idxMin <= idxMax
        invariant 0 <= idxMin && idxMax < |runs|
        invariant forall i :: 0 <= i < |runs| && InRun(runs[i], c) ==> idxMin <= i <= idxMax
        decreases idxMax - idxMin
      {
        var idx := (idxMax + idxMin) / 2;
        if c < runs[idx].code {
          idxMax := idx - 1;
        } else if c >= runs[idx].code + runs[idx].len {
          idxMin := idx + 1;
        } else {
          CanonicalizeIn(c, 0, idx);
          return fold(c, idx);
        }
      }
      CanonicalizeOut(c, 0);
      d := c;
    }

    lemma {:induction false} CanonicalizeOut(c: nat, from: nat)
      requires forall i :: 0 <= i < |runs| ==> !InRun(runs[i], c)
      ensures CanonicalizeFrom(c, from) == c
      decreases |runs| - from
    {
      if from < |runs| {
        CanonicalizeOut(c, from + 1);
      }
    }
  }

  /** d is what some character of s below upto is folded to. */
  ghost predicate FoldedTo(t: CaseTable, s: seq<nat>, upto: nat, d: nat) {
    exists c: nat :: c < upto && Contains(s, c) && t.Canonicalize(c) == d
  }

  /** The intervals written and the open one hold exactly what the characters below upto fold to. */
  ghost predicate FoldSoFar(t: CaseTable, s: seq<nat>, upto: nat, out: seq<nat>, dStart: int, dEnd: int) {
    && NonEmpty(out) && (dStart == -1 || 0 <= dStart < dEnd)
    && forall d: nat {:trigger FoldedTo(t, s, upto, d)} ::
         FoldedTo(t, s, upto, d) <==> InSome(out, d) || (dStart != -1 && dStart <= d < dEnd)
  }

  lemma FoldedMore(t: CaseTable, s: seq<nat>, c: nat, d: nat)
    ensures FoldedTo(t, s, c + 1, d) <==> FoldedTo(t, s, c, d) || (Contains(s, c) && t.Canonicalize(c) == d)
  {
    if x: nat :| x < c && Contains(s, x) && t.Canonicalize(x) == d { assert x < c + 1; }
  }

  lemma NonEmptySnoc(s: seq<nat>, a: nat, b: nat)
    requires NonEmpty(s) && a < b
    ensures NonEmpty(s + [a, b])
  {
    var t := s + [a, b];
    forall k | 0 <= k < |t| / 2 ensures t[2 * k] < t[2 * k + 1] {
      if 2 * k < |s| { assert s[2 * k] < s[2 * k + 1]; }
    }
  }

  /** One character of the fold loop, with d its image: the first one opens an interval. */
  lemma FoldOpen(t: CaseTable, s: seq<nat>, c: nat, out: seq<nat>, dEnd: int, d: nat)
    requires FoldSoFar(t, s, c, out, -1, dEnd) && Contains(s, c) && d == t.Canonicalize(c)
    ensures FoldSoFar(t, s, c + 1, out, d, d + 1)
  {
    hide InSome, FoldedTo, NonEmpty;
    var c1 := c + 1;
    forall x: nat {:trigger FoldedTo(t, s, c1, x)} ensures FoldedTo(t, s, c1, x) <==> InSome(out, x) || d <= x < d + 1 {
      FoldedMore(t, s, c, x);
    }
    assert FoldSoFar(t, s, c1, out, d, d + 1);
  }

  /** An image next to the open interval extends it. */
  lemma FoldExtend(t: CaseTable, s: seq<nat>, c: nat, out: seq<nat>, dStart: nat, d: nat)
    requires FoldSoFar(t, s, c, out, dStart, d) && Contains(s, c) && d == t.Canonicalize(c)
    ensures FoldSoFar(t, s, c + 1, out, dStart, d + 1)
  {
    hide InSome, FoldedTo, NonEmpty;
    var c1 := c + 1;
    forall x: nat {:trigger FoldedTo(t, s, c1, x)}
      ensures FoldedTo(t, s, c1, x) <==> InSome(out, x) || dStart <= x < d + 1
    {
      FoldedMore(t, s, c, x);
    }
    assert FoldSoFar(t, s, c1, out, dStart, d + 1);
  }

  /** Any other image closes the open interval and opens another. */
  lemma FoldClose(t: CaseTable, s: seq<nat>, c: nat, out: seq<nat>, dStart: nat, dEnd: nat, d: nat)
    requires FoldSoFar(t, s, c, out, dStart, dEnd) && |out| % 2 == 0 && Contains(s, c) && d == t.Canonicalize(c)
    ensures FoldSoFar(t, s, c + 1, out + [dStart, dEnd], d, d + 1)
  {
    hide InSome, FoldedTo, NonEmpty;
    NonEmptySnoc(out, dStart, dEnd);
    var c1 := c + 1;
    forall x: nat {:trigger FoldedTo(t, s, c1, x)}
      ensures FoldedTo(t, s, c1, x) <==> InSome(out + [dStart, dEnd], x) || d <= x < d + 1
    {
      FoldedMore(t, s, c, x);
      SomeSnoc(out, dStart, dEnd, x);
      assert FoldedTo(t, s, c, x) <==> InSome(out, x) || dStart <= x < dEnd;
    }
  }

  /** Characters that are not in the set do not matter. */
  lemma FoldSkip(t: CaseTable, s: seq<nat>, from: nat, to: nat, out: seq<nat>, dStart: int, dEnd: int)
    requires from <= to && FoldSoFar(t, s, from, out, dStart, dEnd)
    requires forall c: nat :: from <= c < to ==> !Contains(s, c)
    ensures FoldSoFar(t, s, to, out, dStart, dEnd)
  {
    forall d: nat ensures FoldedTo(t, s, to, d) <==> FoldedTo(t, s, from, d) {
      if c: nat :| c < to && Contains(s, c) && t.Canonicalize(c) == d { assert c < from; }
      if c: nat :| c < from && Contains(s, c) && t.Canonicalize(c) == d { assert c < to; }
    }
    hide InSome, FoldedTo, NonEmpty;
  }

  /** The closed list is the image of the whole set. */
  lemma FoldEnd(t: CaseTable, s: seq<nat>, upto: nat, out: seq<nat>, dStart: int, dEnd: int)
    requires FoldSoFar(t, s, upto, out, dStart, dEnd) && forall c: nat :: Contains(s, c) ==> c < upto
    ensures var out1 := if dStart != -1 then out + [dStart as nat, dEnd as nat] else out;
      NonEmpty(out1) && forall d: nat :: InSome(out1, d) <==> exists c: nat :: Contains(s, c) && t.Canonicalize(c) == d
  {
    var out1 := if dStart != -1 then out + [dStart as nat, dEnd as nat] else out;
    if dStart != -1 { NonEmptySnoc(out, dStart, dEnd); }
    forall d: nat ensures InSome(out1, d) <==> exists c: nat :: Contains(s, c) && t.Canonicalize(c) == d {
      if dStart != -1 { SomeSnoc(out, dStart, dEnd, d); }
      if FoldedTo(t, s, upto, d) {
      }
    }
  }

  /** The runs before idx end at or before c. */
  ghost predicate Behind(t: CaseTable, idx: nat, c: nat) {
    idx <= |t.runs| && forall j :: 0 <= j < idx ==> t.runs[j].code + t.runs[j].len <= c
  }

  /** The search loop inside the fold loop: forward to the run of c. */
  method AdvanceRun(t: CaseTable, idx0: nat, c: nat) returns (idx: nat)
    requires t.Valid() && Behind(t, idx0, c) && Contains(t.mask, c)
    ensures Behind(t, idx, c) && idx < |t.runs| && t.fold(c, idx) == t.Canonicalize(c)
  {
    ghost var m :| 0 <= m < |t.runs| && InRun(t.runs[m], c);
    idx := idx0;
    while !InRun(t.runs[idx], c)
      invariant idx <= m && Behind(t, idx, c)
      decreases m - idx
    {
      idx := idx + 1;
    }
    t.CanonicalizeIn(c, 0, idx);
  }

  lemma BehindLater(t: CaseTable, idx: nat, c: nat, c1: nat)
    requires Behind(t, idx, c) && c <= c1
    ensures Behind(t, idx, c1)
  {
  }

  /** What lies in and before the k-th interval of a canonical list. */
  lemma IntervalIs(s: seq<nat>, k: nat, c: nat)
    requires Canonical(s) && 2 * k <= |s|
    ensures 2 * k + 1 < |s| && s[2 * k] <= c < s[2 * k + 1] ==> Contains(s, c)
    ensures (k == 0 || s[2 * k - 1] <= c) && (2 * k < |s| ==> c < s[2 * k]) ==> !Contains(s, c)
  {
    if 2 * k + 1 < |s| && s[2 * k] <= c < s[2 * k + 1] { CountIs(s, c, 2 * k + 1); }
    if (k == 0 || s[2 * k - 1] <= c) && (2 * k < |s| ==> c < s[2 * k]) { CountIs(s, c, 2 * k); }
  }

  /** The fold loop over one interval. */
  method FoldInterval(t: CaseTable, s: seq<nat>, start: nat, end: nat, result: CharRange, idx0: nat, dStart0: int,
      dEnd0: int)
    returns (idx: nat, dStart: int, dEnd: int)
    requires t.Valid() && start < end && Behind(t, idx0, start)
    requires forall c: nat :: start <= c < end ==> Contains(s, c) && Contains(t.mask, c)
    requires FoldSoFar(t, s, start, result.points, dStart0, dEnd0)
    modifies result
    ensures Behind(t, idx, end) && FoldSoFar(t, s, end, result.points, dStart, dEnd)
  {
    idx, dStart, dEnd := idx0, dStart0, dEnd0;
    hide Behind, FoldSoFar;
    for c := start to end
      invariant Behind(t, idx, c) && FoldSoFar(t, s, c, result.points, dStart, dEnd)
    {
      assert Contains(s, c) && Contains(t.mask, c);
      hide Contains;
      idx := AdvanceRun(t, idx, c);
      var d := t.fold(c, idx);
      OpenInterval(t, s, c, result.points, dStart, dEnd);
      if dStart == -1 {
        FoldOpen(t, s, c, result.points, dEnd, d);
        dStart, dEnd := d, d + 1;
      } else if dEnd == d {
        FoldExtend(t, s, c, result.points, dStart, d);
        dEnd := dEnd + 1;
      } else {
        FoldClose(t, s, c, result.points, dStart, dEnd, d);
        result.AddInterval(dStart, dEnd);
        dStart, dEnd := d, d + 1;
      }
      BehindLater(t, idx, c, c + 1);
    }
  }

  lemma OpenInterval(t: CaseTable, s: seq<nat>, upto: nat, out: seq<nat>, dStart: int, dEnd: int)
    requires FoldSoFar(t, s, upto, out, dStart, dEnd)
    ensures dStart == -1 || 0 <= dStart < dEnd
    ensures |out| % 2 == 0
  {
  }

  /** The fold loops: the intervals of what the characters of s fold to, in no order. */
  method FoldRanges(t: CaseTable, s: seq<nat>) returns (result: CharRange)
    requires t.Valid() && Canonical(s) && forall c: nat :: Contains(s, c) ==> Contains(t.mask, c)
    ensures fresh(result) && NonEmpty(result.points)
    ensures forall d: nat :: InSome(result.points, d) <==> exists c: nat :: Contains(s, c) && t.Canonicalize(c) == d
  {
    result := new CharRange();
    var idx, dStart, dEnd := 0, -1, -1;
    var k := 0;
    FoldStart(t, s);
    assert Behind(t, 0, 0);
    hide Behind, FoldSoFar, Contains, InSome, NonEmpty;
    while 2 * k < |s|
      invariant 2 * k <= |s| && fresh(result)
      invariant Behind(t, idx, if k == 0 then 0 else s[2 * k - 1])
      invariant FoldSoFar(t, s, if k == 0 then 0 else s[2 * k - 1], result.points, dStart, dEnd)
    {
      var upto := if k == 0 then 0 else s[2 * k - 1];
      forall c: nat
        ensures upto <= c < s[2 * k] ==> !Contains(s, c)
        ensures s[2 * k] <= c < s[2 * k + 1] ==> Contains(s, c)
      {
        IntervalIs(s, k, c);
      }
      FoldSkip(t, s, upto, s[2 * k], result.points, dStart, dEnd);
      BehindLater(t, idx, upto, s[2 * k]);
      idx, dStart, dEnd := FoldInterval(t, s, s[2 * k], s[2 * k + 1], result, idx, dStart, dEnd);
      k := k + 1;
    }
    ghost var upto := if k == 0 then 0 else s[2 * k - 1];
    forall c: nat ensures Contains(s, c) ==> c < upto {
      IntervalIs(s, k, c);
    }
    FoldEnd(t, s, upto, result.points, dStart, dEnd);
    OpenInterval(t, s, upto, result.points, dStart, dEnd);
    if dStart != -1 {
      result.AddInterval(dStart, dEnd);
    }
  }

  lemma FoldStart(t: CaseTable, s: seq<nat>)
    ensures FoldSoFar(t, s, 0, [], -1, -1)
  {
  }

  /** cr_regexp_canonicalize: the set becomes exactly its image under case folding. */
  method RegexpCanonicalize(cr: CharRange, t: CaseTable)
    requires t.Valid() && Canonical(cr.points) && forall k :: 0 <= k < |cr.points| ==> cr.points[k] <= UINT32_MAX
    modifies cr
    ensures Canonical(cr.points)
    ensures forall d: nat ::
      Contains(cr.points, d) <==> exists c: nat :: Contains(old(cr.points), c) && t.Canonicalize(c) == d
  {
    ghost var s0 := cr.points;
    var mask := new CharRange();
    var inter := new CharRange();
    var sub := new CharRange();
    mask.points := t.mask;
    hide Contains, InSome, NonEmpty;
    inter.Op(mask.points, cr.points, INTER);
    mask.Invert();
    sub.Op(mask.points, cr.points, INTER);
    ghost var inside, outside := inter.points, sub.points;
    var result := FoldRanges(t, inter.points);
    ghost var image := result.points;
    SortAndRemoveOverlap(result);
    cr.points := [];
    cr.Op(result.points, sub.points, UNION);
    forall d: nat
      ensures Contains(cr.points, d) <==> exists c: nat :: Contains(s0, c) && t.Canonicalize(c) == d
    {
      ContainsInSome(result.points, d);
      ImageOf(t, s0, inside, outside, d);
    }
  }

  lemma BelowMax(s: seq<nat>, c: nat)
    requires Canonical(s) && (forall k :: 0 <= k < |s| ==> s[k] <= UINT32_MAX) && Contains(s, c)
    ensures c < UINT32_MAX
  {
    if c >= UINT32_MAX { ContainsAll(s, c); }
  }

  /** Folding what changes and keeping the rest is folding everything. */
  lemma ImageOf(t: CaseTable, s: seq<nat>, inside: seq<nat>, outside: seq<nat>, d: nat)
    requires t.Valid() && Canonical(s) && forall k :: 0 <= k < |s| ==> s[k] <= UINT32_MAX
    requires forall c: nat :: Contains(inside, c) <==> Contains(t.mask, c) && Contains(s, c)
    requires forall c: nat :: Contains(outside, c) <==> c < UINT32_MAX && !Contains(t.mask, c) && Contains(s, c)
    ensures (exists c: nat :: Contains(s, c) && t.Canonicalize(c) == d)
      <==> (exists c: nat :: Contains(inside, c) && t.Canonicalize(c) == d) || Contains(outside, d)
  {
    if c: nat :| Contains(s, c) && t.Canonicalize(c) == d {
      BelowMax(s, c);
      if Contains(t.mask, c) { assert Contains(inside, c); } else { assert Contains(outside, c); }
    }
    if Contains(outside, d) { assert t.Canonicalize(d) == d; }
    if c: nat :| Contains(inside, c) && t.Canonicalize(c) == d { assert Contains(s, c); }
  }
}
