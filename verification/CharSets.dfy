/** Sets of characters as lists of points: a set contains what lies between an even point and the odd
    point after it. */
module CharSets {
  const UINT32_MAX: nat := 0xffff_ffff

  /** Strictly increasing points, in pairs. */
  predicate Canonical(points: seq<nat>) {
    |points| % 2 == 0 && forall i, j :: 0 <= i < j < |points| ==> points[i] < points[j]
  }

  /** A canonical list of 32-bit points. */
  predicate CharacterSet(points: seq<nat>) {
    Canonical(points) && forall i :: 0 <= i < |points| ==> points[i] <= UINT32_MAX
  }

  /** Membership in one of a list of intervals, in any order. */
  predicate InSome(points: seq<nat>, c: nat) {
    exists k: nat :: k < |points| / 2 && points[2 * k] <= c < points[2 * k + 1]
  }
}
