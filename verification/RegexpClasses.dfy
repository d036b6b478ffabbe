/** Character classes without regard to case: the sets are folded, combined and perhaps complemented, and the
    emitted table is searched for the folded character. */
module RegexpClasses {
  import opened CharSets
  import opened CharRanges
  import opened CaseRanges
  import opened RegexpInput
  import opened RegexpBytecode
  import opened RegexpCompiler
  import opened RegexpMachine
  import opened RegexpTests

  /** Some character of the set folds to d. */
  ghost predicate FoldsTo(t: CaseTable, s: seq<nat>, d: nat) {
    exists x: nat :: Contains(s, x) && t.Canonicalize(x) == d
  }

  lemma FoldBelow(t: CaseTable, c: nat)
    requires t.Valid() && c < UINT32_MAX
    ensures t.Canonicalize(c) < UINT32_MAX
  {
    t.CanonicalizeBelow(c, 0);
  }

  /** A canonical list whose characters are all below UINT32_MAX has no greater points. */
  lemma PointsBelow(s: seq<nat>)
    requires Canonical(s) && forall c: nat :: Contains(s, c) ==> c < UINT32_MAX
    ensures CharacterSet(s)
  {
    if s != [] {
      var last := |s| - 1;
      assert s[last - 1] < s[last];
      ContainsInSome(s, s[last] - 1);
      assert s[2 * (|s| / 2 - 1)] <= s[last] - 1 < s[2 * (|s| / 2 - 1) + 1];
    }
  }

  /** cr_regexp_canonicalize keeps a character set one. */
  method FoldSet(cr: CharRange, t: CaseTable)
    requires t.Valid() && CharacterSet(cr.points)
    modifies cr
    ensures CharacterSet(cr.points) && forall d: nat :: Contains(cr.points, d) <==> FoldsTo(t, old(cr.points), d)
  {
    ghost var s := cr.points;
    RegexpCanonicalize(cr, t);
    hide Canonical, Contains;
    forall d: nat | Contains(cr.points, d) ensures d < UINT32_MAX {
      var x: nat :| Contains(s, x) && t.Canonicalize(x) == d;
      BelowMax(s, x);
      FoldBelow(t, x);
    }
    PointsBelow(cr.points);
  }

  /** A class of two operands under the ignore-case flag accepts exactly the characters whose folding is the
      folding of some member of the operands, combined as the operation says, or the others if inverted. */
  method ClassInstr(a: CharRange, b: CharRange, op: SetOp, invert: bool, t: CaseTable, ghost inp: Input)
      returns (i: Instr)
    requires a != b && t.Valid() && CharacterSet(a.points) && CharacterSet(b.points)
    requires forall x :: inp.canon(x) == t.Canonicalize(x)
    modifies a, b
    ensures i.IsSimpleChar()
    ensures forall c: nat :: c < UINT32_MAX ==>
      var d := t.Canonicalize(c);
      CharMatches(inp, i, c) <==> Result(op, FoldsTo(t, old(a.points), d), FoldsTo(t, old(b.points), d)) != invert
  {
    ghost var s1, s2 := a.points, b.points;
    FoldSet(a, t);
    FoldSet(b, t);
    a.Op1(b.points, op);
    if invert { a.Invert(); }
    hide Contains, Canonical, FoldsTo, CharMatches, RangeInstr;
    i := RangeInstr(a.points, true);
    forall c: nat | c < UINT32_MAX
      ensures i.IsSimpleChar()
      ensures var d := t.Canonicalize(c);
        CharMatches(inp, i, c) <==> Result(op, FoldsTo(t, s1, d), FoldsTo(t, s2, d)) != invert
    {
      FoldBelow(t, c);
      RangeCorrect(inp, a.points, true, c);
      ContainsInSome(a.points, t.Canonicalize(c));
    }
    RangeCorrect(inp, a.points, true, 0);
  }
}
