/** rqsort: an introsort with an explicit stack of fifty entries. */
module Rqsort {

  // The order.

  /** What every caller promises of its comparison function: a total preorder. */
  ghost predicate TotalPreorder<T(!new)>(cmp: (T, T) -> int) {
    && (forall x, y {:trigger cmp(x, y)} :: cmp(x, y) < 0 <==> cmp(y, x) > 0)
    && (forall x, y, z {:trigger cmp(x, y), cmp(y, z)} :: cmp(x, y) <= 0 && cmp(y, z) <= 0 ==> cmp(x, z) <= 0)
  }

  lemma Flip<T(!new)>(cmp: (T, T) -> int, x: T, y: T)
    requires TotalPreorder(cmp)
    ensures cmp(x, y) < 0 <==> cmp(y, x) > 0
    ensures cmp(x, y) > 0 <==> cmp(y, x) < 0
    ensures cmp(x, y) <= 0 <==> cmp(y, x) >= 0
    ensures cmp(x, y) == 0 <==> cmp(y, x) == 0
  {
  }

  lemma Trans<T(!new)>(cmp: (T, T) -> int, x: T, y: T, z: T)
    requires TotalPreorder(cmp) && cmp(x, y) <= 0 && cmp(y, z) <= 0
    ensures cmp(x, z) <= 0
  {
  }

  predicate SortedPart<T>(s: seq<T>, lo: nat, hi: nat, cmp: (T, T) -> int)
    requires hi <= |s|
  {
    forall x, y :: lo <= x < y < hi ==> cmp(s[x], s[y]) <= 0
  }

  // Rearranging a part of a sequence.

  function Swapped<T>(s: seq<T>, i: nat, j: nat): (t: seq<T>)
    requires i < |s| && j < |s|
    ensures |t| == |s|
  {
    s[i := s[j]][j := s[i]]
  }

  /** t is s with the part from lo to hi rearranged. */
  ghost predicate Shuffled<T>(s: seq<T>, t: seq<T>, lo: nat, hi: nat) {
    && lo <= hi <= |s| == |t|
    && (forall k :: 0 <= k < |s| && !(lo <= k < hi) ==> t[k] == s[k])
    && multiset(t[lo..hi]) == multiset(s[lo..hi])
  }

  lemma ShuffledSelf<T>(s: seq<T>, lo: nat, hi: nat)
    requires lo <= hi <= |s|
    ensures Shuffled(s, s, lo, hi)
  {
  }

  lemma ShuffledTrans<T>(s: seq<T>, t: seq<T>, u: seq<T>, lo: nat, hi: nat)
    requires Shuffled(s, t, lo, hi) && Shuffled(t, u, lo, hi)
    ensures Shuffled(s, u, lo, hi)
  {
  }

  /** Rearranging a smaller part. */
  lemma ShuffledWiden<T>(s: seq<T>, t: seq<T>, lo: nat, hi: nat, lo1: nat, hi1: nat)
    requires Shuffled(s, t, lo, hi) && lo1 <= lo && hi <= hi1 <= |s|
    ensures Shuffled(s, t, lo1, hi1)
  {
    assert s[lo1..hi1] == s[lo1..lo] + s[lo..hi] + s[hi..hi1];
    assert t[lo1..hi1] == t[lo1..lo] + t[lo..hi] + t[hi..hi1];
    assert s[lo1..lo] == t[lo1..lo] && s[hi..hi1] == t[hi..hi1];
  }

  lemma ShuffledSwap<T>(s: seq<T>, lo: nat, hi: nat, i: nat, j: nat)
    requires lo <= i < hi <= |s| && lo <= j < hi
    ensures Shuffled(s, Swapped(s, i, j), lo, hi)
  {
    var u, t := s[lo..hi], Swapped(s, i, j);
    assert t[lo..hi] == u[i - lo := u[j - lo]][j - lo := u[i - lo]];
  }

  /** Every element of the rearranged part comes from that part. */
  lemma ShuffledFrom<T>(s: seq<T>, t: seq<T>, lo: nat, hi: nat, k: nat) returns (k1: nat)
    requires Shuffled(s, t, lo, hi) && lo <= k < hi
    ensures lo <= k1 < hi && t[k] == s[k1]
  {
    var x := t[k];
    assert x == t[lo..hi][k - lo];
    assert x in multiset(t[lo..hi]);
    assert x in s[lo..hi];
    var m :| 0 <= m < |s[lo..hi]| && s[lo..hi][m] == x;
    k1 := lo + m;
  }

  lemma ShuffledAll<T>(s: seq<T>, t: seq<T>)
    requires Shuffled(s, t, 0, |s|)
    ensures multiset(t) == multiset(s)
  {
    assert s[0..|s|] == s && t[0..|t|] == t;
  }

  // What is still to be sorted.

  predicate InSeg(g: (nat, nat), x: int) {
    g.0 <= x < g.1
  }

  ghost predicate Together(segs: seq<(nat, nat)>, x: int, y: int) {
    exists k :: 0 <= k < |segs| && InSeg(segs[k], x) && InSeg(segs[k], y)
  }

  predicate Apart2(g: (nat, nat), h: (nat, nat)) {
    g.1 <= h.0 || h.1 <= g.0
  }

  predicate Disjoint(segs: seq<(nat, nat)>, n: nat) {
    && (forall k :: 0 <= k < |segs| ==> segs[k].0 <= segs[k].1 <= n)
    && (forall j, k :: 0 <= j < k < |segs| ==> Apart2(segs[j], segs[k]))
  }

  /** Everything is in order except inside the pending segments. */
  ghost predicate SortedBut<T>(s: seq<T>, segs: seq<(nat, nat)>, cmp: (T, T) -> int) {
    forall x, y :: 0 <= x < y < |s| && !Together(segs, x, y) ==> cmp(s[x], s[y]) <= 0
  }

  /** Positions in and out of a pending segment are in order. */
  lemma InAndOut<T>(s: seq<T>, segs: seq<(nat, nat)>, g: (nat, nat), cmp: (T, T) -> int, x: nat, y: nat)
    requires Disjoint(segs + [g], |s|) && SortedBut(s, segs + [g], cmp) && x < y < |s|
    requires InSeg(g, x) != InSeg(g, y)
    ensures cmp(s[x], s[y]) <= 0
  {
    var all := segs + [g];
    forall k | 0 <= k < |all| ensures !(InSeg(all[k], x) && InSeg(all[k], y)) {
      assert k < |segs| ==> Apart2(all[k], all[|segs|]);
    }
    assert !Together(all, x, y);
  }

  lemma TogetherMore(segs: seq<(nat, nat)>, more: seq<(nat, nat)>, x: int, y: int)
    ensures Together(segs + more, x, y) <==> Together(segs, x, y) || Together(more, x, y)
  {
    if Together(segs, x, y) {
      var k :| 0 <= k < |segs| && InSeg(segs[k], x) && InSeg(segs[k], y);
      assert (segs + more)[k] == segs[k];
    }
    if Together(more, x, y) {
      var k :| 0 <= k < |more| && InSeg(more[k], x) && InSeg(more[k], y);
      assert (segs + more)[|segs| + k] == more[k];
    }
  }

  /** After rearranging a pending segment, what crosses its ends is still in order. */
  lemma CrossOrder<T>(s: seq<T>, t: seq<T>, segs: seq<(nat, nat)>, g: (nat, nat), cmp: (T, T) -> int, x: nat, y: nat)
    requires Disjoint(segs + [g], |s|) && SortedBut(s, segs + [g], cmp) && Shuffled(s, t, g.0, g.1) && x < y < |t|
    requires !(InSeg(g, x) && InSeg(g, y)) && !Together(segs, x, y)
    ensures cmp(t[x], t[y]) <= 0
  {
    if InSeg(g, x) {
      var k := ShuffledFrom(s, t, g.0, g.1, x);
      InAndOut(s, segs, g, cmp, k, y);
    } else if InSeg(g, y) {
      var k := ShuffledFrom(s, t, g.0, g.1, y);
      InAndOut(s, segs, g, cmp, x, k);
    } else {
      TogetherMore(segs, [g], x, y);
    }
  }

  /** A pending segment that has been sorted is done. */
  lemma SegmentDone<T>(s: seq<T>, t: seq<T>, segs: seq<(nat, nat)>, g: (nat, nat), cmp: (T, T) -> int)
    requires Disjoint(segs + [g], |s|) && SortedBut(s, segs + [g], cmp) && Shuffled(s, t, g.0, g.1)
    requires SortedPart(t, g.0, g.1, cmp)
    ensures Disjoint(segs, |t|) && SortedBut(t, segs, cmp)
  {
    assert forall k :: 0 <= k < |segs| ==> (segs + [g])[k] == segs[k];
    hide Shuffled;
    forall x, y | 0 <= x < y < |t| && !Together(segs, x, y) ensures cmp(t[x], t[y]) <= 0 {
      if !(InSeg(g, x) && InSeg(g, y)) {
        CrossOrder(s, t, segs, g, cmp, x, y);
      }
    }
  }

  /** Smaller, equal and greater elements, one after the other. */
  ghost predicate ThreeParts<T>(s: seq<T>, lo: nat, m1: nat, m2: nat, hi: nat, p: T, cmp: (T, T) -> int) {
    && lo <= m1 <= m2 <= hi <= |s|
    && (forall k :: lo <= k < m1 ==> cmp(s[k], p) < 0)
    && (forall k :: m1 <= k < m2 ==> cmp(s[k], p) == 0)
    && (forall k :: m2 <= k < hi ==> cmp(s[k], p) > 0)
  }

  lemma PartOrder<T(!new)>(s: seq<T>, lo: nat, m1: nat, m2: nat, hi: nat, p: T, cmp: (T, T) -> int, x: nat, y: nat)
    requires TotalPreorder(cmp) && ThreeParts(s, lo, m1, m2, hi, p, cmp) && lo <= x < y < hi
    requires !(x >= lo && y < m1) && !(x >= m2 && y < hi)
    ensures cmp(s[x], s[y]) <= 0
  {
    hide TotalPreorder;
    Flip(cmp, s[y], p);
    Trans(cmp, s[x], p, s[y]);
  }

  /** A partitioned segment leaves its two outer parts pending. */
  lemma SegmentSplit<T(!new)>(s: seq<T>, t: seq<T>, segs: seq<(nat, nat)>, g: (nat, nat), p: T, m1: nat, m2: nat,
                              more: seq<(nat, nat)>, cmp: (T, T) -> int)
    requires TotalPreorder(cmp)
    requires Disjoint(segs + [g], |s|) && SortedBut(s, segs + [g], cmp) && Shuffled(s, t, g.0, g.1)
    requires ThreeParts(t, g.0, m1, m2, g.1, p, cmp)
    requires more == [(g.0, m1), (m2, g.1)] || more == [(m2, g.1), (g.0, m1)]
    ensures Disjoint(segs + more, |t|) && SortedBut(t, segs + more, cmp)
  {
    SplitDisjoint(segs, g, m1, m2, more, |s|);
    hide Shuffled, TotalPreorder, ThreeParts;
    forall x, y | 0 <= x < y < |t| && !Together(segs + more, x, y) ensures cmp(t[x], t[y]) <= 0 {
      TogetherMore(segs, more, x, y);
      if InSeg(g, x) && InSeg(g, y) {
        assert !(InSeg(more[0], x) && InSeg(more[0], y)) && !(InSeg(more[1], x) && InSeg(more[1], y));
        PartOrder(t, g.0, m1, m2, g.1, p, cmp, x, y);
      } else {
        CrossOrder(s, t, segs, g, cmp, x, y);
      }
    }
  }

  lemma SplitDisjoint(segs: seq<(nat, nat)>, g: (nat, nat), m1: nat, m2: nat, more: seq<(nat, nat)>, n: nat)
    requires Disjoint(segs + [g], n) && g.0 <= m1 <= m2 <= g.1
    requires more == [(g.0, m1), (m2, g.1)] || more == [(m2, g.1), (g.0, m1)]
    ensures Disjoint(segs + more, n)
  {
    var all := segs + more;
    assert (segs + [g])[|segs|] == g;
    forall k | 0 <= k < |segs| ensures (segs + [g])[k] == segs[k] == all[k] && Apart2(segs[k], g) {
      assert Apart2((segs + [g])[k], (segs + [g])[|segs|]);
    }
    forall j, k | 0 <= j < k < |all| ensures Apart2(all[j], all[k]) {
      if k < |segs| {
        assert Apart2((segs + [g])[j], (segs + [g])[k]);
      }
    }
  }

  lemma NothingPending<T>(s: seq<T>, cmp: (T, T) -> int)
    requires SortedBut(s, [], cmp)
    ensures SortedPart(s, 0, |s|, cmp)
  {
    forall x, y | 0 <= x < y < |s| ensures cmp(s[x], s[y]) <= 0 {
      assert !Together([], x, y);
    }
  }

  // Array steps.

  method Swap<T>(a: array<T>, i: nat, j: nat)
    requires i < a.Length && j < a.Length
    modifies a
    ensures a[..] == Swapped(old(a[..]), i, j)
  {
    a[i], a[j] := a[j], a[i];
  }

  /** Swap, inside a part that is being rearranged. */
  method SwapIn<T>(a: array<T>, i: nat, j: nat, ghost s0: seq<T>, ghost lo: nat, ghost hi: nat)
    requires lo <= i < hi <= a.Length && lo <= j < hi && Shuffled(s0, a[..], lo, hi)
    modifies a
    ensures a[..] == Swapped(old(a[..]), i, j) && Shuffled(s0, a[..], lo, hi)
  {
    ShuffledSwap(a[..], lo, hi, i, j);
    ShuffledTrans(s0, a[..], Swapped(a[..], i, j), lo, hi);
    hide Shuffled;
    Swap(a, i, j);
  }

  predicate Between<T>(cmp: (T, T) -> int, u: T, m: T, v: T) {
    (cmp(u, m) <= 0 && cmp(m, v) <= 0) || (cmp(v, m) <= 0 && cmp(m, u) <= 0)
  }

  /** med3: the position of a median of three. */
  method Med3<T(!new)>(a: array<T>, x: nat, y: nat, z: nat, cmp: (T, T) -> int) returns (m: nat)
    requires x < a.Length && y < a.Length && z < a.Length && TotalPreorder(cmp)
    ensures
      || (m == x && Between(cmp, a[y], a[x], a[z]))
      || (m == y && Between(cmp, a[x], a[y], a[z]))
      || (m == z && Between(cmp, a[x], a[z], a[y]))
  {
    if cmp(a[x], a[y]) < 0 {
      m := if cmp(a[y], a[z]) < 0 then y else if cmp(a[x], a[z]) < 0 then z else x;
    } else {
      m := if cmp(a[y], a[z]) > 0 then y else if cmp(a[x], a[z]) < 0 then x else z;
    }
  }

  /** t is s with the blocks of length span at x and y exchanged. */
  ghost predicate BlocksSwapped<T>(s: seq<T>, t: seq<T>, x: nat, y: nat, span: nat) {
    && x + span <= y && y + span <= |s| == |t|
    && (forall k :: x <= k < x + span ==> t[k] == s[k + (y - x)])
    && (forall k :: y <= k < y + span ==> t[k] == s[k - (y - x)])
    && (forall k :: 0 <= k < |s| && !(x <= k < x + span) && !(y <= k < y + span) ==> t[k] == s[k])
  }

  lemma BlockStep<T>(s: seq<T>, t: seq<T>, x: nat, y: nat, i: nat, span: nat)
    requires BlocksSwapped(s, t, x, y, i) && i < span && x + span <= y && y + span <= |s|
    ensures BlocksSwapped(s, Swapped(t, x + i, y + i), x, y, i + 1)
  {
  }

  /** Exchange of two blocks that do not overlap. */
  method SwapBlock<T>(a: array<T>, x: nat, y: nat, span: nat, ghost s0: seq<T>, ghost lo: nat, ghost hi: nat)
    requires lo <= x && x + span <= y && y + span <= hi <= a.Length && Shuffled(s0, a[..], lo, hi)
    modifies a
    ensures Shuffled(s0, a[..], lo, hi) && BlocksSwapped(old(a[..]), a[..], x, y, span)
  {
    ghost var s := a[..];
    assert BlocksSwapped(s, s, x, y, 0);
    hide Shuffled, BlocksSwapped, Swapped;
    for i := 0 to span
      invariant Shuffled(s0, a[..], lo, hi) && BlocksSwapped(s, a[..], x, y, i)
    {
      BlockStep(s, a[..], x, y, i, span);
      SwapIn(a, x + i, y + i, s0, lo, hi);
    }
  }

  /** The inner loop of the insertion sort. */
  method InsertOne<T(!new)>(a: array<T>, lo: nat, i: nat, cmp: (T, T) -> int, ghost s0: seq<T>, ghost hi: nat)
    requires lo < i < hi <= a.Length && TotalPreorder(cmp) && Shuffled(s0, a[..], lo, hi)
    requires SortedPart(a[..], lo, i, cmp)
    modifies a
    ensures Shuffled(s0, a[..], lo, hi) && SortedPart(a[..], lo, i + 1, cmp)
  {
    var j := i;
    InsertStart(a[..], lo, i, cmp);
    hide Shuffled, TotalPreorder, Swapped, SortedPart, SortedExcept;
    while j > lo && cmp(a[j - 1], a[j]) > 0
      invariant lo <= j <= i && Shuffled(s0, a[..], lo, hi)
      invariant SortedExcept(a[..], lo, i, j, cmp)
      decreases j
    {
      InsertStep(a[..], lo, i, j, cmp);
      SwapIn(a, j, j - 1, s0, lo, hi);
      j := j - 1;
    }
    Inserted(a[..], lo, i, j, cmp);
  }

  /** Insertion sort of a small segment. */
  method InsertionSort<T(!new)>(a: array<T>, lo: nat, n: nat, cmp: (T, T) -> int, ghost s0: seq<T>)
    requires lo + n <= a.Length && TotalPreorder(cmp) && Shuffled(s0, a[..], lo, lo + n)
    modifies a
    ensures Shuffled(s0, a[..], lo, lo + n) && SortedPart(a[..], lo, lo + n, cmp)
  {
    var i := lo + 1;
    ShortSorted(a[..], lo, if n == 0 then lo else lo + 1, cmp);
    hide Shuffled, TotalPreorder, SortedPart;
    while i < lo + n
      invariant lo + 1 <= i && (n > 0 ==> i <= lo + n) && Shuffled(s0, a[..], lo, lo + n)
      invariant SortedPart(a[..], lo, if n == 0 then lo else i, cmp)
      decreases lo + n - i
    {
      InsertOne(a, lo, i, cmp, s0, lo + n);
      i := i + 1;
    }
  }

  lemma ShortSorted<T>(s: seq<T>, lo: nat, hi: nat, cmp: (T, T) -> int)
    requires hi <= |s| && hi <= lo + 1
    ensures SortedPart(s, lo, hi, cmp)
  {
  }

  lemma InsertStart<T>(s: seq<T>, lo: nat, i: nat, cmp: (T, T) -> int)
    requires i < |s| && SortedPart(s, lo, i, cmp)
    ensures SortedExcept(s, lo, i, i, cmp)
  {
  }

  /** In order up to i, but for the element at j, which is below everything after it. */
  ghost predicate SortedExcept<T>(s: seq<T>, lo: nat, i: nat, j: nat, cmp: (T, T) -> int)
    requires i < |s|
  {
    && (forall x, y :: lo <= x < y <= i && x != j && y != j ==> cmp(s[x], s[y]) <= 0)
    && (forall y :: j < y <= i ==> cmp(s[j], s[y]) <= 0)
  }

  lemma InsertStep<T(!new)>(s: seq<T>, lo: nat, i: nat, j: nat, cmp: (T, T) -> int)
    requires TotalPreorder(cmp) && lo < j <= i < |s| && SortedExcept(s, lo, i, j, cmp) && cmp(s[j - 1], s[j]) > 0
    ensures SortedExcept(Swapped(s, j, j - 1), lo, i, j - 1, cmp)
  {
    Flip(cmp, s[j - 1], s[j]);
  }

  lemma Inserted<T(!new)>(s: seq<T>, lo: nat, i: nat, j: nat, cmp: (T, T) -> int)
    requires TotalPreorder(cmp) && lo <= j <= i < |s| && SortedExcept(s, lo, i, j, cmp)
    requires j > lo ==> cmp(s[j - 1], s[j]) <= 0
    ensures SortedPart(s, lo, i + 1, cmp)
  {
    hide TotalPreorder;
    forall x, y | lo <= x < y < i + 1 ensures cmp(s[x], s[y]) <= 0 {
      if y == j && x < j - 1 {
        Trans(cmp, s[x], s[j - 1], s[j]);
      }
    }
  }

  // The heapsort fallback, on the segment u = s[lo..lo + n].

  /** Node r is not below its children. */
  predicate Dominates<T>(u: seq<T>, r: nat, end: nat, cmp: (T, T) -> int)
    requires r < end <= |u|
  {
    && (2 * r + 1 < end ==> cmp(u[r], u[2 * r + 1]) >= 0)
    && (2 * r + 2 < end ==> cmp(u[r], u[2 * r + 2]) >= 0)
  }

  ghost predicate Heap<T>(u: seq<T>, from: nat, end: nat, cmp: (T, T) -> int) {
    end <= |u| && forall r: nat :: from <= r < end ==> Dominates(u, r, end, cmp)
  }

  /** A heap but for node r, whose children are not above r's parent. */
  ghost predicate Sifting<T>(u: seq<T>, from: nat, end: nat, r: nat, cmp: (T, T) -> int) {
    && from <= r < end <= |u|
    && (forall q: nat :: from <= q < end && q != r ==> Dominates(u, q, end, cmp))
    && (forall q: nat {:trigger u[q]} :: from <= q && (2 * q + 1 == r || 2 * q + 2 == r) ==>
          && (2 * r + 1 < end ==> cmp(u[q], u[2 * r + 1]) >= 0)
          && (2 * r + 2 < end ==> cmp(u[q], u[2 * r + 2]) >= 0))
  }

  /** What has been taken off the heap is sorted and above it. */
  ghost predicate Taken<T>(u: seq<T>, end: nat, cmp: (T, T) -> int) {
    end <= |u| && SortedPart(u, end, |u|, cmp) && forall x, y :: 0 <= x < end <= y < |u| ==> cmp(u[x], u[y]) <= 0
  }

  lemma TakenSwap<T>(u: seq<T>, end: nat, i: nat, j: nat, cmp: (T, T) -> int)
    requires Taken(u, end, cmp) && i < end && j < end
    ensures Taken(Swapped(u, i, j), end, cmp)
  {
  }

  lemma SliceSwap<T>(s: seq<T>, lo: nat, n: nat, i: nat, j: nat)
    requires lo + n <= |s| && i < n && j < n
    ensures Swapped(s, lo + i, lo + j)[lo..lo + n] == Swapped(s[lo..lo + n], i, j)
  {
  }

  /** The larger child. */
  predicate LargerChild<T>(u: seq<T>, r: nat, c: nat, end: nat, cmp: (T, T) -> int)
    requires end <= |u|
  {
    && (c == 2 * r + 1 || c == 2 * r + 2) && c < end
    && (c == 2 * r + 1 && 2 * r + 2 < end ==> cmp(u[c], u[2 * r + 2]) >= 0)
    && (c == 2 * r + 2 ==> cmp(u[c], u[2 * r + 1]) >= 0)
  }

  lemma SiftSwap<T(!new)>(u: seq<T>, from: nat, end: nat, r: nat, c: nat, cmp: (T, T) -> int)
    requires TotalPreorder(cmp) && Sifting(u, from, end, r, cmp) && LargerChild(u, r, c, end, cmp)
      && cmp(u[r], u[c]) <= 0
    ensures Sifting(Swapped(u, r, c), from, end, c, cmp)
  {
    Flip(cmp, u[r], u[c]);
    hide TotalPreorder;
    assert Dominates(u, c, end, cmp);
    forall q: nat | from <= q < end && q != c ensures Dominates(Swapped(u, r, c), q, end, cmp) {
      SiftSwapAt(u, from, end, r, c, cmp, q);
    }
  }

  lemma SiftSwapAt<T>(u: seq<T>, from: nat, end: nat, r: nat, c: nat, cmp: (T, T) -> int, q: nat)
    requires Sifting(u, from, end, r, cmp) && LargerChild(u, r, c, end, cmp) && cmp(u[c], u[r]) >= 0
    requires from <= q < end && q != c
    ensures Dominates(Swapped(u, r, c), q, end, cmp)
  {
    if q != r {
      assert Dominates(u, q, end, cmp);
      ChildrenOf(q, r, c);
      if 2 * q + 1 == r || 2 * q + 2 == r { assert u[q] == u[q]; }
    }
  }

  /** A node has one parent. */
  lemma ChildrenOf(q: nat, r: nat, c: nat)
    requires q != r && (c == 2 * r + 1 || c == 2 * r + 2)
    ensures 2 * q + 1 != c && 2 * q + 2 != c
  {
  }

  /** Node r is above its larger child. */
  ghost predicate Settled<T>(u: seq<T>, r: nat, end: nat, cmp: (T, T) -> int)
    requires r < end <= |u|
  {
    exists c: nat :: LargerChild(u, r, c, end, cmp) && cmp(u[r], u[c]) > 0
  }

  lemma SiftEnd<T(!new)>(u: seq<T>, from: nat, end: nat, r: nat, cmp: (T, T) -> int)
    requires TotalPreorder(cmp) && Sifting(u, from, end, r, cmp)
    requires 2 * r + 1 < end ==> Settled(u, r, end, cmp)
    ensures Heap(u, from, end, cmp)
  {
    hide TotalPreorder;
    if 2 * r + 1 < end {
      var c: nat :| LargerChild(u, r, c, end, cmp) && cmp(u[r], u[c]) > 0;
      Flip(cmp, u[r], u[c]);
      var d := if c == 2 * r + 1 then 2 * r + 2 else 2 * r + 1;
      if d < end {
        Flip(cmp, u[c], u[d]);
        Trans(cmp, u[d], u[c], u[r]);
        Flip(cmp, u[d], u[r]);
      }
    }
    assert Dominates(u, r, end, cmp);
  }

  /** SwapIn, seen on the segment. */
  method SwapSegment<T>(a: array<T>, lo: nat, n: nat, i: nat, j: nat, ghost s0: seq<T>)
    requires lo + n <= a.Length && i < n && j < n && Shuffled(s0, a[..], lo, lo + n)
    modifies a
    ensures a[lo..lo + n] == Swapped(old(a[lo..lo + n]), i, j) && Shuffled(s0, a[..], lo, lo + n)
  {
    hide Shuffled, Swapped;
    SliceSwap(a[..], lo, n, i, j);
    assert a[..][lo..lo + n] == a[lo..lo + n];
    SwapIn(a, lo + i, lo + j, s0, lo, lo + n);
    assert a[..][lo..lo + n] == a[lo..lo + n];
  }

  method SiftDown<T(!new)>(a: array<T>, lo: nat, n: nat, r0: nat, end: nat, cmp: (T, T) -> int, ghost s0: seq<T>)
    requires lo + n <= a.Length && TotalPreorder(cmp) && Shuffled(s0, a[..], lo, lo + n)
    requires r0 < end <= n && Sifting(a[lo..lo + n], r0, end, r0, cmp) && Taken(a[lo..lo + n], end, cmp)
    modifies a
    ensures Shuffled(s0, a[..], lo, lo + n)
    ensures Heap(a[lo..lo + n], r0, end, cmp) && Taken(a[lo..lo + n], end, cmp)
  {
    hide TotalPreorder, Shuffled, Swapped, Sifting, Taken, Heap, LargerChild;
    var r := r0;
    var done := false;
    while !done && r * 2 + 1 < end
      invariant r < end && Shuffled(s0, a[..], lo, lo + n)
      invariant Sifting(a[lo..lo + n], r0, end, r, cmp) && Taken(a[lo..lo + n], end, cmp)
      invariant done ==> Settled(a[lo..lo + n], r, end, cmp)
      decreases end - r, !done
    {
      ghost var u := a[lo..lo + n];
      var c := r * 2 + 1;
      if c < end - 1 && cmp(a[lo + c], a[lo + c + 1]) <= 0 {
        c := c + 1;
      }
      ChildIs(u, r, c, end, cmp);
      if cmp(a[lo + r], a[lo + c]) > 0 {
        done := true;
      } else {
        SiftSwap(u, r0, end, r, c, cmp);
        TakenSwap(u, end, r, c, cmp);
        SwapSegment(a, lo, n, r, c, s0);
        r := c;
      }
    }
    SiftEnd(a[lo..lo + n], r0, end, r, cmp);
  }

  lemma ChildIs<T(!new)>(u: seq<T>, r: nat, c: nat, end: nat, cmp: (T, T) -> int)
    requires TotalPreorder(cmp) && 2 * r + 1 < end <= |u|
    requires c == if 2 * r + 1 < end - 1 && cmp(u[2 * r + 1], u[2 * r + 2]) <= 0 then 2 * r + 2 else 2 * r + 1
    ensures LargerChild(u, r, c, end, cmp)
  {
    if 2 * r + 2 < end { Flip(cmp, u[2 * r + 1], u[2 * r + 2]); }
  }

  /** The root is the greatest. */
  lemma {:induction false} HeapTop<T(!new)>(u: seq<T>, end: nat, k: nat, cmp: (T, T) -> int)
    requires TotalPreorder(cmp) && Heap(u, 0, end, cmp) && k < end
    ensures cmp(u[k], u[0]) <= 0
    decreases k
  {
    if k == 0 {
      Reflexive(cmp, u[0]);
    } else {
      var p := (k - 1) / 2;
      HeapTop(u, end, p, cmp);
      assert Dominates(u, p, end, cmp);
      assert k == 2 * p + 1 || k == 2 * p + 2;
      Flip(cmp, u[p], u[k]);
      Trans(cmp, u[k], u[p], u[0]);
    }
  }

  lemma Reflexive<T(!new)>(cmp: (T, T) -> int, x: T)
    requires TotalPreorder(cmp)
    ensures cmp(x, x) == 0
  {
    Flip(cmp, x, x);
  }

  /** Taking the root off the heap. */
  lemma TakeTop<T(!new)>(u: seq<T>, i: nat, cmp: (T, T) -> int)
    requires TotalPreorder(cmp) && 0 < i < |u| && Heap(u, 0, i + 1, cmp) && Taken(u, i + 1, cmp)
    ensures Sifting(Swapped(u, 0, i), 0, i, 0, cmp) && Taken(Swapped(u, 0, i), i, cmp)
  {
    var t := Swapped(u, 0, i);
    forall q: nat | 0 < q < i ensures Dominates(t, q, i, cmp) {
      assert Dominates(u, q, i + 1, cmp);
    }
    forall k: nat | k <= i ensures cmp(u[k], u[0]) <= 0 {
      HeapTop(u, i + 1, k, cmp);
    }
    hide TotalPreorder;
  }

  /** The first loop of heapsortx. */
  method Heapify<T(!new)>(a: array<T>, lo: nat, n: nat, cmp: (T, T) -> int, ghost s0: seq<T>)
    requires lo + n <= a.Length && TotalPreorder(cmp) && Shuffled(s0, a[..], lo, lo + n)
    modifies a
    ensures Shuffled(s0, a[..], lo, lo + n)
    ensures Heap(a[lo..lo + n], 0, n, cmp) && Taken(a[lo..lo + n], n, cmp)
  {
    var i := n / 2;
    HeapStart(a[lo..lo + n], i, cmp);
    hide TotalPreorder, Shuffled, Swapped, Sifting, Taken, Heap;
    while i > 0
      invariant 0 <= i <= n / 2 && Shuffled(s0, a[..], lo, lo + n)
      invariant Heap(a[lo..lo + n], i, n, cmp) && Taken(a[lo..lo + n], n, cmp)
    {
      i := i - 1;
      HeapMore(a[lo..lo + n], i, n, cmp);
      SiftDown(a, lo, n, i, n, cmp, s0);
    }
  }

  /** One round of the second loop: the root moves behind the heap. */
  method TakeRoot<T(!new)>(a: array<T>, lo: nat, n: nat, i: nat, cmp: (T, T) -> int, ghost s0: seq<T>)
    requires lo + n <= a.Length && TotalPreorder(cmp) && Shuffled(s0, a[..], lo, lo + n) && 0 < i < n
    requires Heap(a[lo..lo + n], 0, i + 1, cmp) && Taken(a[lo..lo + n], i + 1, cmp)
    modifies a
    ensures Shuffled(s0, a[..], lo, lo + n)
    ensures Heap(a[lo..lo + n], 0, i, cmp) && Taken(a[lo..lo + n], i, cmp)
  {
    TakeTop(a[lo..lo + n], i, cmp);
    hide TotalPreorder, Shuffled, Swapped, Sifting, Taken, Heap;
    SwapSegment(a, lo, n, 0, i, s0);
    SiftDown(a, lo, n, 0, i, cmp, s0);
  }

  /** heapsortx. */
  method HeapSort<T(!new)>(a: array<T>, lo: nat, n: nat, cmp: (T, T) -> int, ghost s0: seq<T>)
    requires lo + n <= a.Length && TotalPreorder(cmp) && Shuffled(s0, a[..], lo, lo + n)
    modifies a
    ensures Shuffled(s0, a[..], lo, lo + n) && SortedPart(a[..], lo, lo + n, cmp)
  {
    hide TotalPreorder, Shuffled, Sifting, Taken, Heap;
    if n > 1 {
      Heapify(a, lo, n, cmp, s0);
      var i := n - 1;
      while i > 0
        invariant 0 <= i < n && Shuffled(s0, a[..], lo, lo + n)
        invariant Heap(a[lo..lo + n], 0, i + 1, cmp) && Taken(a[lo..lo + n], i + 1, cmp)
      {
        TakeRoot(a, lo, n, i, cmp, s0);
        i := i - 1;
      }
      AllTaken(a[lo..lo + n], cmp);
      SortedSlice(a[..], lo, n, cmp);
      assert a[..][lo..lo + n] == a[lo..lo + n];
    }
  }

  lemma SortedSlice<T>(s: seq<T>, lo: nat, n: nat, cmp: (T, T) -> int)
    requires lo + n <= |s|
    ensures SortedPart(s[lo..lo + n], 0, n, cmp) ==> SortedPart(s, lo, lo + n, cmp)
  {
    if SortedPart(s[lo..lo + n], 0, n, cmp) {
      forall x, y | lo <= x < y < lo + n ensures cmp(s[x], s[y]) <= 0 {
        assert s[lo..lo + n][x - lo] == s[x] && s[lo..lo + n][y - lo] == s[y];
      }
    }
  }

  lemma HeapStart<T>(u: seq<T>, i: nat, cmp: (T, T) -> int)
    requires i == |u| / 2
    ensures Heap(u, i, |u|, cmp) && Taken(u, |u|, cmp)
  {
  }

  lemma HeapMore<T>(u: seq<T>, i: nat, end: nat, cmp: (T, T) -> int)
    requires Heap(u, i + 1, end, cmp) && i < end
    ensures Sifting(u, i, end, i, cmp)
  {
  }

  lemma AllTaken<T>(u: seq<T>, cmp: (T, T) -> int)
    requires |u| > 0 && Taken(u, 1, cmp)
    ensures SortedPart(u, 0, |u|, cmp)
  {
  }

  // The partition.

  /** Four zones around the pivot at lo: equal, smaller, not yet looked at, greater, equal. */
  ghost predicate Zones<T>(s: seq<T>, lo: nat, plt: nat, pi: nat, pj: nat, pgt: nat, hi: nat, cmp: (T, T) -> int) {
    && lo < plt <= pi <= pj <= pgt <= hi <= |s|
    && (forall k :: lo <= k < plt ==> cmp(s[lo], s[k]) == 0)
    && (forall k :: plt <= k < pi ==> cmp(s[lo], s[k]) > 0)
    && (forall k :: pj <= k < pgt ==> cmp(s[lo], s[k]) < 0)
    && (forall k :: pgt <= k < hi ==> cmp(s[lo], s[k]) == 0)
  }

  lemma ZonesStart<T(!new)>(s: seq<T>, lo: nat, hi: nat, cmp: (T, T) -> int)
    requires TotalPreorder(cmp) && lo < hi <= |s|
    ensures Zones(s, lo, lo + 1, lo + 1, hi, hi, hi, cmp)
  {
    Reflexive(cmp, s[lo]);
  }

  lemma LeftSmaller<T>(s: seq<T>, lo: nat, plt: nat, pi: nat, pj: nat, pgt: nat, hi: nat, cmp: (T, T) -> int)
    requires Zones(s, lo, plt, pi, pj, pgt, hi, cmp) && pi < pj && cmp(s[lo], s[pi]) > 0
    ensures Zones(s, lo, plt, pi + 1, pj, pgt, hi, cmp)
  {
  }

  lemma LeftEqual<T>(s: seq<T>, lo: nat, plt: nat, pi: nat, pj: nat, pgt: nat, hi: nat, cmp: (T, T) -> int)
    requires Zones(s, lo, plt, pi, pj, pgt, hi, cmp) && pi < pj && cmp(s[lo], s[pi]) == 0
    ensures Zones(Swapped(s, plt, pi), lo, plt + 1, pi + 1, pj, pgt, hi, cmp)
  {
  }

  lemma RightGreater<T>(s: seq<T>, lo: nat, plt: nat, pi: nat, pj: nat, pgt: nat, hi: nat, cmp: (T, T) -> int)
    requires Zones(s, lo, plt, pi, pj + 1, pgt, hi, cmp) && pi <= pj && cmp(s[lo], s[pj]) < 0
    ensures Zones(s, lo, plt, pi, pj, pgt, hi, cmp)
  {
  }

  lemma RightEqual<T>(s: seq<T>, lo: nat, plt: nat, pi: nat, pj: nat, pgt: nat, hi: nat, cmp: (T, T) -> int)
    requires Zones(s, lo, plt, pi, pj + 1, pgt, hi, cmp) && pi < pj && cmp(s[lo], s[pj]) == 0
    ensures Zones(Swapped(s, pgt - 1, pj), lo, plt, pi, pj, pgt - 1, hi, cmp)
    ensures Swapped(s, pgt - 1, pj)[pi] == s[pi] && Swapped(s, pgt - 1, pj)[lo] == s[lo]
  {
  }

  lemma Exchange<T>(s: seq<T>, lo: nat, plt: nat, pi: nat, pj: nat, pgt: nat, hi: nat, cmp: (T, T) -> int)
    requires Zones(s, lo, plt, pi, pj + 1, pgt, hi, cmp) && pi < pj
    requires cmp(s[lo], s[pi]) < 0 && cmp(s[lo], s[pj]) > 0
    ensures Zones(Swapped(s, pi, pj), lo, plt, pi + 1, pj, pgt, hi, cmp)
  {
  }

  /** The first inner loop: up to an element greater than the pivot. */
  method ScanUp<T(!new)>(a: array<T>, lo: nat, plt0: nat, pi0: nat, pj: nat, ghost pgt: nat, ghost hi: nat,
                         cmp: (T, T) -> int, ghost s0: seq<T>)
    returns (plt: nat, pi: nat)
    requires hi <= a.Length && Shuffled(s0, a[..], lo, hi) && Zones(a[..], lo, plt0, pi0, pj, pgt, hi, cmp)
    modifies a
    ensures Shuffled(s0, a[..], lo, hi) && Zones(a[..], lo, plt, pi, pj, pgt, hi, cmp)
    ensures pi0 <= pi <= pj <= hi && lo < hi && (pi < pj ==> cmp(a[lo], a[pi]) < 0)
  {
    plt, pi := plt0, pi0;
    ZonesRange(a[..], lo, plt, pi, pj, pgt, hi, cmp);
    hide Zones, Shuffled, Swapped;
    while pi < pj && cmp(a[lo], a[pi]) >= 0
      invariant lo < plt <= pi <= pj <= hi && pi0 <= pi
      invariant Shuffled(s0, a[..], lo, hi) && Zones(a[..], lo, plt, pi, pj, pgt, hi, cmp)
      decreases pj - pi
    {
      if cmp(a[lo], a[pi]) == 0 {
        LeftEqual(a[..], lo, plt, pi, pj, pgt, hi, cmp);
        SwapIn(a, plt, pi, s0, lo, hi);
        plt := plt + 1;
      } else {
        LeftSmaller(a[..], lo, plt, pi, pj, pgt, hi, cmp);
      }
      pi := pi + 1;
    }
  }

  lemma ZonesRange<T>(s: seq<T>, lo: nat, plt: nat, pi: nat, pj: nat, pgt: nat, hi: nat, cmp: (T, T) -> int)
    requires Zones(s, lo, plt, pi, pj, pgt, hi, cmp)
    ensures lo < plt <= pi <= pj <= pgt <= hi <= |s|
  {
  }

  /** An element equal to the pivot goes to the zone at the right end. */
  method EqualRight<T(!new)>(a: array<T>, lo: nat, ghost plt: nat, ghost pi: nat, pj: nat, pgt: nat, ghost hi: nat,
                             cmp: (T, T) -> int, ghost s0: seq<T>)
    returns (pgt1: nat)
    requires hi <= a.Length && Shuffled(s0, a[..], lo, hi) && Zones(a[..], lo, plt, pi, pj + 1, pgt, hi, cmp)
    requires lo < pi < pj < pgt <= hi && cmp(a[lo], a[pj]) == 0
    modifies a
    ensures pgt1 == pgt - 1 && Shuffled(s0, a[..], lo, hi) && Zones(a[..], lo, plt, pi, pj, pgt1, hi, cmp)
    ensures a[lo] == old(a[lo]) && a[pi] == old(a[pi])
  {
    hide Zones, Shuffled, Swapped;
    RightEqual(a[..], lo, plt, pi, pj, pgt, hi, cmp);
    pgt1 := pgt - 1;
    SwapIn(a, pgt1, pj, s0, lo, hi);
    assert a[lo] == a[..][lo] && a[pi] == a[..][pi];
  }

  /** The second inner loop: down to an element smaller than the pivot. */
  method ScanDown<T(!new)>(a: array<T>, lo: nat, ghost plt: nat, pi: nat, pj0: nat, pgt0: nat, ghost hi: nat,
                           cmp: (T, T) -> int, ghost s0: seq<T>)
    returns (pj: int, pgt: nat)
    requires hi <= a.Length && Shuffled(s0, a[..], lo, hi) && Zones(a[..], lo, plt, pi, pj0, pgt0, hi, cmp)
    requires lo < pi <= pj0 <= hi && (pi < pj0 ==> cmp(a[lo], a[pi]) < 0)
    modifies a
    ensures Shuffled(s0, a[..], lo, hi) && pj < pj0
    ensures pi >= pj ==> Zones(a[..], lo, plt, pi, pi, pgt, hi, cmp)
    ensures pi < pj ==>
      Zones(a[..], lo, plt, pi, pj + 1, pgt, hi, cmp) && cmp(a[lo], a[pi]) < 0 && cmp(a[lo], a[pj]) > 0
  {
    ZonesRange(a[..], lo, plt, pi, pj0, pgt0, hi, cmp);
    hide Zones, Shuffled, Swapped;
    pj, pgt := pj0 - 1, pgt0;
    while pi < pj && cmp(a[lo], a[pj]) <= 0
      invariant pi - 1 <= pj < pj0 && pj < pgt <= hi && Shuffled(s0, a[..], lo, hi)
      invariant Zones(a[..], lo, plt, pi, pj + 1, pgt, hi, cmp) && (pi < pj0 ==> pi <= pj && cmp(a[lo], a[pi]) < 0)
      decreases pj
    {
      if cmp(a[lo], a[pj]) == 0 {
        pgt := EqualRight(a, lo, plt, pi, pj, pgt, hi, cmp, s0);
      } else {
        RightGreater(a[..], lo, plt, pi, pj, pgt, hi, cmp);
      }
      ZonesRange(a[..], lo, plt, pi, pj, pgt, hi, cmp);
      pj := pj - 1;
    }
    if pi == pj {
      RightGreater(a[..], lo, plt, pi, pj, pgt, hi, cmp);
    }
  }

  /** The left block swap brings the smaller elements in front of the equal ones. */
  lemma LeftBlocks<T(!new)>(s: seq<T>, t: seq<T>, lo: nat, plt: nat, pi: nat, pgt: nat, hi: nat, span: nat, p: T,
                            cmp: (T, T) -> int)
    requires Zones(s, lo, plt, pi, pi, pgt, hi, cmp) && p == s[lo] && TotalPreorder(cmp)
    requires span == (if plt - lo > pi - plt then pi - plt else plt - lo)
    requires BlocksSwapped(s, t, lo, pi - span, span)
    ensures forall k :: lo <= k < lo + (pi - plt) ==> cmp(t[k], p) < 0
    ensures forall k :: lo + (pi - plt) <= k < pi ==> cmp(t[k], p) == 0
    ensures forall k :: pi <= k < pgt ==> cmp(t[k], p) > 0
    ensures forall k :: pgt <= k < hi ==> cmp(t[k], p) == 0
  {
    forall k | 0 <= k < |s|
      ensures cmp(p, s[k]) > 0 <==> cmp(s[k], p) < 0
      ensures cmp(p, s[k]) < 0 <==> cmp(s[k], p) > 0
      ensures cmp(p, s[k]) == 0 <==> cmp(s[k], p) == 0
    {
      Flip(cmp, p, s[k]);
    }
  }

  /** The right block swap brings the greater elements behind the equal ones. */
  lemma RightBlocks<T>(s: seq<T>, t: seq<T>, lo: nat, m1: nat, pi: nat, pgt: nat, hi: nat, span: nat, p: T,
      cmp: (T, T) -> int)
    requires lo <= m1 <= pi <= pgt <= hi <= |s|
    requires forall k :: lo <= k < m1 ==> cmp(s[k], p) < 0
    requires forall k :: m1 <= k < pi ==> cmp(s[k], p) == 0
    requires forall k :: pi <= k < pgt ==> cmp(s[k], p) > 0
    requires forall k :: pgt <= k < hi ==> cmp(s[k], p) == 0
    requires span == (if hi - pgt > pgt - pi then pgt - pi else hi - pgt)
    requires BlocksSwapped(s, t, pi, hi - span, span)
    ensures ThreeParts(t, lo, m1, hi - (pgt - pi), hi, p, cmp)
  {
  }

  /** One round of the scans from both ends; met tells whether they have met. */
  method ScanBoth<T(!new)>(a: array<T>, lo: nat, hi: nat, plt0: nat, pi0: nat, pj0: nat, pgt0: nat, cmp: (T, T) -> int,
                           ghost s0: seq<T>)
    returns (met: bool, plt: nat, pi: nat, pj: nat, pgt: nat)
    requires hi <= a.Length && Shuffled(s0, a[..], lo, hi) && Zones(a[..], lo, plt0, pi0, pj0, pgt0, hi, cmp)
    modifies a
    ensures Shuffled(s0, a[..], lo, hi) && Zones(a[..], lo, plt, pi, pj, pgt, hi, cmp)
    ensures if met then pi == pj else pj < pj0
  {
    ZonesRange(a[..], lo, plt0, pi0, pj0, pgt0, hi, cmp);
    hide Zones, Shuffled, Swapped;
    plt, pi := ScanUp(a, lo, plt0, pi0, pj0, pgt0, hi, cmp, s0);
    ZonesRange(a[..], lo, plt, pi, pj0, pgt0, hi, cmp);
    var j: int;
    j, pgt := ScanDown(a, lo, plt, pi, pj0, pgt0, hi, cmp, s0);
    met := pi >= j;
    if met {
      pj := pi;
    } else {
      pj := j;
      Exchange(a[..], lo, plt, pi, pj, pgt, hi, cmp);
      SwapIn(a, pi, pj, s0, lo, hi);
      pi := pi + 1;
    }
  }

  /** The scans from both ends, until they meet: all elements are in one of the four zones. */
  method ScanZones<T(!new)>(a: array<T>, lo: nat, n: nat, cmp: (T, T) -> int, ghost s0: seq<T>)
    returns (plt: nat, pi: nat, pgt: nat)
    requires lo + n <= a.Length && n > 0 && TotalPreorder(cmp) && Shuffled(s0, a[..], lo, lo + n)
    modifies a
    ensures Shuffled(s0, a[..], lo, lo + n) && Zones(a[..], lo, plt, pi, pi, pgt, lo + n, cmp)
  {
    ZonesStart(a[..], lo, lo + n, cmp);
    hide *;
    plt, pi, pgt := lo + 1, lo + 1, lo + n;
    var pj: nat, met := lo + n, false;
    while !met
      invariant Shuffled(s0, a[..], lo, lo + n) && Zones(a[..], lo, plt, pi, pj, pgt, lo + n, cmp)
      invariant met ==> pi == pj
      decreases !met, pj
    {
      met, plt, pi, pj, pgt := ScanBoth(a, lo, lo + n, plt, pi, pj, pgt, cmp, s0);
    }
  }

  /** The block swaps: the elements equal to the pivot move to the middle. */
  method MoveEqual<T(!new)>(a: array<T>, lo: nat, n: nat, plt: nat, pi: nat, pgt: nat, cmp: (T, T) -> int,
      ghost s0: seq<T>)
    returns (lt: nat, gt: nat, ghost p: T)
    requires lo + n <= a.Length && TotalPreorder(cmp) && Shuffled(s0, a[..], lo, lo + n)
    requires Zones(a[..], lo, plt, pi, pi, pgt, lo + n, cmp)
    modifies a
    ensures Shuffled(s0, a[..], lo, lo + n)
    ensures lt <= gt <= n && lt + (n - gt) < n && ThreeParts(a[..], lo, lo + lt, lo + gt, lo + n, p, cmp)
  {
    hide Zones, Shuffled, TotalPreorder, BlocksSwapped, ThreeParts;
    ghost var hi, s := lo + n, a[..];
    ZonesRange(s, lo, plt, pi, pi, pgt, hi, cmp);
    p := a[lo];
    var span := if plt - lo > pi - plt then pi - plt else plt - lo;
    SwapBlock(a, lo, pi - span, span, s0, lo, hi);
    LeftBlocks(s, a[..], lo, plt, pi, pgt, hi, span, p, cmp);
    s := a[..];
    lt := pi - plt;
    span := if lo + n - pgt > pgt - pi then pgt - pi else lo + n - pgt;
    SwapBlock(a, pi, lo + n - span, span, s0, lo, hi);
    RightBlocks(s, a[..], lo, lo + lt, pi, pgt, hi, span, p, cmp);
    gt := n - (pgt - pi);
  }

  /** The median of three is moved to the start of the segment. */
  method MovePivot<T(!new)>(a: array<T>, lo: nat, n: nat, cmp: (T, T) -> int, ghost s0: seq<T>)
    requires lo + n <= a.Length && n > 6 && TotalPreorder(cmp) && Shuffled(s0, a[..], lo, lo + n)
    modifies a
    ensures Shuffled(s0, a[..], lo, lo + n)
  {
    hide Shuffled, Swapped, TotalPreorder, Between;
    var m4 := n / 4;
    var m := Med3(a, lo + m4, lo + 2 * m4, lo + 3 * m4, cmp);
    SwapIn(a, lo, m, s0, lo, lo + n);
  }

  /** The body of the main loop: a segment is split around the median of three. */
  method Partition<T(!new)>(a: array<T>, lo: nat, n: nat, cmp: (T, T) -> int, ghost s0: seq<T>)
    returns (lt: nat, gt: nat, ghost p: T)
    requires lo + n <= a.Length && n > 6 && TotalPreorder(cmp) && Shuffled(s0, a[..], lo, lo + n)
    modifies a
    ensures Shuffled(s0, a[..], lo, lo + n)
    ensures lt <= gt <= n && lt + (n - gt) < n && ThreeParts(a[..], lo, lo + lt, lo + gt, lo + n, p, cmp)
  {
    hide *;
    MovePivot(a, lo, n, cmp, s0);
    var plt, pi, pgt := ScanZones(a, lo, n, cmp, s0);
    lt, gt, p := MoveEqual(a, lo, n, plt, pi, pgt, cmp, s0);
  }

  // The main loop.

  datatype Entry = Entry(base: nat, count: nat, depth: nat)

  const STACK_SIZE: nat := 50

  function SegOf(e: Entry): (nat, nat) {
    (e.base, e.base + e.count)
  }

  ghost function SegsOf(stack: seq<Entry>): (g: seq<(nat, nat)>)
    ensures |g| == |stack|
  {
    if stack == [] then [] else SegsOf(stack[..|stack| - 1]) + [SegOf(stack[|stack| - 1])]
  }

  lemma SegsSnoc(stack: seq<Entry>, e: Entry)
    ensures SegsOf(stack + [e]) == SegsOf(stack) + [SegOf(e)]
  {
    assert (stack + [e])[..|stack|] == stack;
  }

  /** The stacked segments are all that is left to sort. */
  ghost predicate Pending<T>(s: seq<T>, stack: seq<Entry>, cmp: (T, T) -> int) {
    Disjoint(SegsOf(stack), |s|) && SortedBut(s, SegsOf(stack), cmp)
  }

  /** Depths grow along the stack, so that there are never more entries than the largest depth. */
  ghost predicate DepthsGrow(stack: seq<Entry>, depth: nat) {
    && (forall k :: 0 <= k < |stack| ==> k < stack[k].depth <= depth)
    && (forall j, k :: 0 <= j < k < |stack| ==> stack[j].depth < stack[k].depth)
  }

  lemma DepthsPush(stack: seq<Entry>, depth: nat, e: Entry)
    requires DepthsGrow(stack, depth) && e.depth == depth + 1
    ensures DepthsGrow(stack + [e], depth + 1) && |stack| <= depth
  {
    if stack != [] { assert |stack| - 1 < stack[|stack| - 1].depth; }
  }

  ghost function Weight(stack: seq<Entry>): nat {
    if stack == [] then 0 else Weight(stack[..|stack| - 1]) + 2 * stack[|stack| - 1].count + 1
  }

  lemma WeightSnoc(stack: seq<Entry>, e: Entry)
    ensures Weight(stack + [e]) == Weight(stack) + 2 * e.count + 1
  {
    assert (stack + [e])[..|stack|] == stack;
  }

  lemma PendingStart<T>(s: seq<T>, cmp: (T, T) -> int)
    ensures Pending(s, [Entry(0, |s|, 0)], cmp)
  {
    var e := Entry(0, |s|, 0);
    SegsSnoc([], e);
    assert [] + [e] == [e] && SegsOf([e]) == [(0, |s|)];
    forall x, y | 0 <= x < y < |s| ensures Together(SegsOf([e]), x, y) {
      assert InSeg(SegsOf([e])[0], x) && InSeg(SegsOf([e])[0], y);
    }
  }

  lemma PendingBounds<T>(s: seq<T>, stack: seq<Entry>, e: Entry, cmp: (T, T) -> int)
    requires Pending(s, stack + [e], cmp)
    ensures e.base + e.count <= |s|
  {
    SegsSnoc(stack, e);
    assert SegsOf(stack + [e])[|stack|] == SegOf(e);
  }

  lemma PendingDone<T>(s: seq<T>, t: seq<T>, stack: seq<Entry>, e: Entry, cmp: (T, T) -> int)
    requires Pending(s, stack + [e], cmp) && Shuffled(s, t, e.base, e.base + e.count)
    requires SortedPart(t, e.base, e.base + e.count, cmp)
    ensures Pending(t, stack, cmp)
  {
    SegsSnoc(stack, e);
    SegmentDone(s, t, SegsOf(stack), SegOf(e), cmp);
  }

  /** A sorted segment is as good as an empty one. */
  lemma PendingEmpty<T>(s: seq<T>, t: seq<T>, stack: seq<Entry>, e: Entry, d: nat, cmp: (T, T) -> int)
    requires Pending(s, stack + [e], cmp) && Shuffled(s, t, e.base, e.base + e.count)
    requires SortedPart(t, e.base, e.base + e.count, cmp)
    ensures Pending(t, stack + [Entry(e.base, 0, d)], cmp)
  {
    PendingDone(s, t, stack, e, cmp);
    var segs, h, g := SegsOf(stack), (e.base, e.base), SegOf(e);
    SegsSnoc(stack, e);
    SegsSnoc(stack, Entry(e.base, 0, d));
    hide Shuffled, SortedPart;
    forall j, k | 0 <= j < k < |segs + [h]| ensures Apart2((segs + [h])[j], (segs + [h])[k]) {
      assert Apart2((segs + [g])[j], (segs + [g])[k]);
    }
    assert (segs + [g])[|segs|] == g;
    forall x, y | 0 <= x < y < |t| && !Together(segs + [h], x, y) ensures cmp(t[x], t[y]) <= 0 {
      TogetherMore(segs, [h], x, y);
    }
  }

  lemma PendingSplit<T(!new)>(s: seq<T>, t: seq<T>, stack: seq<Entry>, e: Entry, p: T, m1: nat, m2: nat, e1: Entry,
      e2: Entry,
                              cmp: (T, T) -> int)
    requires TotalPreorder(cmp) && Pending(s, stack + [e], cmp) && Shuffled(s, t, e.base, e.base + e.count)
    requires ThreeParts(t, e.base, m1, m2, e.base + e.count, p, cmp)
    requires || (SegOf(e1) == (e.base, m1) && SegOf(e2) == (m2, e.base + e.count))
             || (SegOf(e2) == (e.base, m1) && SegOf(e1) == (m2, e.base + e.count))
    ensures Pending(t, stack + [e1] + [e2], cmp)
  {
    SegsSnoc(stack, e);
    SegsSnoc(stack, e1);
    SegsSnoc(stack + [e1], e2);
    hide SegsOf, Shuffled, TotalPreorder, ThreeParts, Disjoint, SortedBut;
    assert SegsOf(stack) + [SegOf(e1)] + [SegOf(e2)] == SegsOf(stack) + [SegOf(e1), SegOf(e2)];
    SegmentSplit(s, t, SegsOf(stack), SegOf(e), p, m1, m2, [SegOf(e1), SegOf(e2)], cmp);
  }

  /** One segment: it is split until a small one is left, which is sorted; the others are stacked. */
  method SortSegment<T(!new)>(a: array<T>, cmp: (T, T) -> int, stack: array<Entry>, sp0: nat, e: Entry,
      ghost s0: seq<T>)
    returns (sp: nat)
    requires TotalPreorder(cmp) && stack.Length == STACK_SIZE && sp0 < STACK_SIZE && a as object != stack as object
    requires Shuffled(s0, a[..], 0, a.Length) && Pending(a[..], stack[..sp0] + [e], cmp)
    requires DepthsGrow(stack[..sp0], e.depth) && e.depth <= 50
    modifies a, stack
    ensures sp <= STACK_SIZE && Shuffled(s0, a[..], 0, a.Length) && Pending(a[..], stack[..sp], cmp)
    ensures exists d: nat :: d <= 50 && DepthsGrow(stack[..sp], d)
    ensures Weight(stack[..sp]) < old(Weight(stack[..sp0])) + 2 * e.count + 1
  {
    hide Shuffled, TotalPreorder, Pending, DepthsGrow, Weight, SortedPart, ThreeParts;
    var ptr, nmemb, depth := e.base, e.count, e.depth;
    sp := sp0;
    while nmemb > 6
      invariant sp <= STACK_SIZE && depth <= 50
      invariant Shuffled(s0, a[..], 0, a.Length) && Pending(a[..], stack[..sp] + [Entry(ptr, nmemb, e.depth)], cmp)
      invariant DepthsGrow(stack[..sp], depth)
      invariant Weight(stack[..sp]) + 2 * nmemb <= old(Weight(stack[..sp0])) + 2 * e.count
      decreases nmemb
    {
      ghost var s, cur, entries := a[..], Entry(ptr, nmemb, e.depth), stack[..sp];
      PendingBounds(s, entries, cur, cmp);
      if depth + 1 > 50 {
        ShuffledSelf(s, ptr, ptr + nmemb);
        HeapSort(a, ptr, nmemb, cmp, s);
        PendingEmpty(s, a[..], entries, cur, e.depth, cmp);
        ShuffledInside(s0, s, a[..], ptr, ptr + nmemb);
        nmemb := 0;
        break;
      }
      var lt, gt;
      ghost var p;
      ShuffledSelf(s, ptr, ptr + nmemb);
      lt, gt, p := Partition(a, ptr, nmemb, cmp, s);
      ShuffledInside(s0, s, a[..], ptr, ptr + nmemb);
      var larger, smaller := Entry(ptr, lt, depth + 1), Entry(ptr + gt, nmemb - gt, e.depth);
      if !(lt > nmemb - gt) {
        larger, smaller := Entry(ptr + gt, nmemb - gt, depth + 1), Entry(ptr, lt, e.depth);
      }
      PendingSplit(s, a[..], entries, cur, p, ptr + lt, ptr + gt, larger, smaller, cmp);
      DepthsPush(entries, depth, larger);
      WeightSnoc(entries, larger);
      stack[sp] := larger;
      assert stack[..sp + 1] == entries + [larger];
      sp := sp + 1;
      depth := depth + 1;
      ptr, nmemb := smaller.base, smaller.count;
    }
    ghost var s, cur := a[..], Entry(ptr, nmemb, e.depth);
    PendingBounds(s, stack[..sp], cur, cmp);
    ShuffledSelf(s, ptr, ptr + nmemb);
    InsertionSort(a, ptr, nmemb, cmp, s);
    PendingDone(s, a[..], stack[..sp], cur, cmp);
    ShuffledInside(s0, s, a[..], ptr, ptr + nmemb);
  }

  lemma ShuffledInside<T>(s0: seq<T>, s: seq<T>, t: seq<T>, lo: nat, hi: nat)
    requires Shuffled(s0, s, 0, |s|) && Shuffled(s, t, lo, hi)
    ensures Shuffled(s0, t, 0, |t|)
  {
    ShuffledWiden(s, t, lo, hi, 0, |s|);
    ShuffledTrans(s0, s, t, 0, |s|);
  }

  /** rqsort: the array ends up sorted, with the same elements, and the stack of fifty entries is enough. */
  method RqSort<T(!new)>(a: array<T>, cmp: (T, T) -> int)
    requires TotalPreorder(cmp)
    modifies a
    ensures SortedPart(a[..], 0, a.Length, cmp) && multiset(a[..]) == multiset(old(a[..]))
  {
    if a.Length < 2 { return; }
    ghost var s0 := a[..];
    ShuffledSelf(s0, 0, a.Length);
    PendingStart(s0, cmp);
    hide Shuffled, TotalPreorder, Pending, DepthsGrow, Weight, SortedPart;
    var stack := new Entry[STACK_SIZE](_ => Entry(0, 0, 0));
    stack[0] := Entry(0, a.Length, 0);
    var sp := 1;
    assert stack[..sp] == [Entry(0, a.Length, 0)];
    NoDepths(stack[..0]);
    while sp > 0
      invariant 0 <= sp <= STACK_SIZE && stack.Length == STACK_SIZE && fresh(stack)
      invariant Shuffled(s0, a[..], 0, a.Length) && Pending(a[..], stack[..sp], cmp)
      invariant sp > 0 ==> DepthsGrow(stack[..sp - 1], stack[sp - 1].depth) && stack[sp - 1].depth <= 50
      decreases Weight(stack[..sp])
    {
      sp := sp - 1;
      var e := stack[sp];
      assert stack[..sp + 1] == stack[..sp] + [e];
      WeightSnoc(stack[..sp], e);
      sp := SortSegment(a, cmp, stack, sp, e, s0);
      if sp > 0 { TopDepth(stack[..sp]); }
      assert sp > 0 ==> stack[..sp][..sp - 1] == stack[..sp - 1];
    }
    AllSorted(s0, a[..], stack[..sp], cmp);
  }

  lemma NoDepths(stack: seq<Entry>)
    requires stack == []
    ensures DepthsGrow(stack, 0)
  {
  }

  lemma TopDepth(stack: seq<Entry>)
    requires stack != [] && exists d: nat :: d <= 50 && DepthsGrow(stack, d)
    ensures DepthsGrow(stack[..|stack| - 1], stack[|stack| - 1].depth) && stack[|stack| - 1].depth <= 50
  {
  }

  lemma AllSorted<T>(s0: seq<T>, s: seq<T>, stack: seq<Entry>, cmp: (T, T) -> int)
    requires Shuffled(s0, s, 0, |s|) && Pending(s, stack, cmp) && stack == []
    ensures SortedPart(s, 0, |s|, cmp) && multiset(s) == multiset(s0)
  {
    ShuffledAll(s0, s);
    assert SegsOf(stack) == [];
    NothingPending(s, cmp);
  }
}
