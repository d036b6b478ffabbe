/** The numbers that byte code is made of, against the headers that fix them. */
module RegexpConstants {
  import opened RegexpBytecode
  import opened RegexpEncoding
  import opened RegexpImage

  predicate Is(i: Instr, opcode: nat, size: nat) { Opcode(i) == opcode && i.Size() == size }

  /** The numbers and sizes of the instructions in the order of libregexp-opcode.h, behind the invalid one. */
  lemma OpcodesTo19(v: nat, w: nat, o: int)
    ensures Is(Char(v, false, false), 1, 3) && Is(Char(v, false, true), 2, 3) && Is(Char(v, true, false), 3, 5)
    ensures Is(Char(v, true, true), 4, 5) && Is(Dot, 5, 1) && Is(Any, 6, 1) && Is(Check(LineStart(false)), 7, 1)
    ensures Is(Check(LineStart(true)), 8, 1) && Is(Check(LineEnd(false)), 9, 1) && Is(Check(LineEnd(true)), 10, 1)
    ensures Is(Goto(o), 11, 5) && Is(Split(false, o), 12, 5) && Is(Split(true, o), 13, 5) && Is(Match, 14, 1)
    ensures Is(Save(v, false), 15, 2) && Is(Save(v, true), 16, 2) && Is(SaveReset(v, w), 17, 3) && Is(Loop(o), 18, 5)
    ensures Is(PushI32(v), 19, 5)
  {
  }

  lemma OpcodesFrom20(v: nat, w: nat, o: int, ps: seq<(nat, nat)>)
    ensures Is(Drop, 20, 1) && Is(Check(WordBoundary(false, false)), 21, 1)
    ensures Is(Check(WordBoundary(false, true)), 22, 1) && Is(Check(WordBoundary(true, false)), 23, 1)
    ensures Is(Check(WordBoundary(true, true)), 24, 1) && Is(BackReference(v, false, false), 25, 2)
    ensures Is(BackReference(v, true, false), 26, 2) && Is(BackReference(v, false, true), 27, 2)
    ensures Is(BackReference(v, true, true), 28, 2) && Is(Range(ps, false, false), 29, 3 + 4 * |ps|)
    ensures Is(Range(ps, false, true), 30, 3 + 4 * |ps|) && Is(Range(ps, true, false), 31, 3 + 8 * |ps|)
    ensures Is(Range(ps, true, true), 32, 3 + 8 * |ps|) && Is(Lookahead(false, o), 33, 5)
    ensures Is(Lookahead(true, o), 34, 5) && Is(PushCharPos, 35, 1) && Is(CheckAdvance, 36, 1) && Is(PrevChar, 37, 1)
    ensures Is(SimpleGreedyQuant(o, v, w, v), 38, 17)
  {
  }

  /** Words have their lowest byte first. */
  lemma WordOrder()
    ensures U16(0x0201) == [1, 2] && U32(0x04030201) == [1, 2, 3, 4] && U32(-2) == [0xfe, 0xff, 0xff, 0xff]
  {
    assert U16(0x0403) == [3, 4] && U16(0xfffe) == [0xfe, 0xff] && U16(0xffff) == [0xff, 0xff];
  }

  /** The tests of the flags find what was set: g, i, m and s are the four lowest bits, d and the mark for named
      groups stand between y and v. */
  lemma FlagsRead(gims: nat, u: bool, y: bool, dn: nat, v: bool)
    requires gims < 16 && dn < 4
    ensures var flags := gims + (if u then 0x10 else 0) + (if y then 0x20 else 0) + 0x40 * dn + if v then 0x100 else 0;
      (StickyFlag(flags) <==> y) && (UnicodeFlag(flags) <==> u || v)
  {
  }
}
