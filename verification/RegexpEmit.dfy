/** The one-pass compiler: it emits bytes, inserts code in front of code it has already
    emitted, copies atoms and patches jumps, all in one buffer. */
module RegexpEmit {
  import opened CharSets
  import opened RegexpBytecode
  import opened RegexpSyntax
  import opened RegexpCompiler
  import opened RegexpTests
  import opened RegexpEncoding
  import opened RegexpCorrectness
  import opened RegexpStack

  const STACK_SIZE_MAX: nat := 255
  const HEADER_LEN: nat := 8

  // Scanning emitted code.

  /** The sizes of libregexp-opcode.h; a range table has its length behind the opcode. */
  function OpcodeSize(op: Byte): nat {
    if op <= 0 then 1
    else if op <= 2 then 3
    else if op <= 4 then 5
    else if op <= 10 then 1
    else if op <= 13 then 5
    else if op == 14 then 1
    else if op <= 16 then 2
    else if op == 17 then 3
    else if op <= 19 then 5
    else if op <= 24 then 1
    else if op <= 28 then 2
    else if op <= 32 then 3
    else if op <= 34 then 5
    else if op <= 37 then 1
    else if op == 38 then 17
    else 1
  }

  predicate IsRangeOp(op: Byte) { 29 <= op <= 32 }

  predicate IsSimpleCharOp(op: Byte) { 1 <= op <= 6 || IsRangeOp(op) }

  predicate IsSimpleOp(op: Byte) { IsSimpleCharOp(op) || 7 <= op <= 10 || 21 <= op <= 24 }

  predicate IsPredictableOp(op: Byte) {
    IsSimpleOp(op) || op == 19 || op == 35 || op == 20 || op == 37 || 15 <= op <= 17 || 25 <= op <= 28
  }

  /** The length of a table must fit its 16-bit count for a scan to find the next opcode. */
  predicate Scannable(code: seq<Instr>) {
    forall k :: 0 <= k < |code| ==> code[k].Range? ==> |code[k].pairs| < 0x10000
  }

  lemma OpcodeKinds(i: Instr)
    ensures IsSimpleCharOp(Opcode(i)) == i.IsSimpleChar()
    ensures IsSimpleOp(Opcode(i)) == i.IsSimple()
    ensures IsPredictableOp(Opcode(i)) == i.IsPredictable()
    ensures IsRangeOp(Opcode(i)) == i.Range?
    ensures !i.Range? ==> OpcodeSize(Opcode(i)) == i.Size()
    ensures i.Range? ==> OpcodeSize(Opcode(i)) == 3 && (Opcode(i) >= 31) == i.wide
    ensures i.Delta() == if Opcode(i) == 19 || Opcode(i) == 35 then 1 else if Opcode(i) == 20
      || Opcode(i) == 36 then -1 else 0
  {
  }

  lemma NextShape(bc: seq<Byte>, pos: nat, code: seq<Instr>)
    requires pos < |bc| && bc[pos..] == EncodeAll(code) && Scannable(code)
    ensures code != [] && bc[pos] == Opcode(code[0]) && Scannable(code[1..])
    ensures pos + code[0].Size() <= |bc| && bc[pos + code[0].Size()..] == EncodeAll(code[1..])
    ensures code[0].Range? ==> pos + 3 <= |bc| && GetU16(bc[pos + 1..]) == |code[0].pairs|
  {
    hide Opcode, Operands, GetU16;
    assert code != [];
    assert EncodeAll(code) + [] == EncodeAll(code) && EncodeAll(code[1..]) + [] == EncodeAll(code[1..]);
    DropFirst(bc, pos, code, []);
    assert bc[pos] == bc[pos..][0];
    if code[0].Range? {
      CountBehind(bc, pos, code[0], EncodeAll(code[1..]));
    }
  }

  lemma CountBehind(bc: seq<Byte>, pos: nat, i: Instr, more: seq<Byte>)
    requires pos < |bc| && bc[pos..] == Encode(i) + more && i.Range? && |i.pairs| < 0x10000
    ensures pos + 3 <= |bc| && GetU16(bc[pos + 1..]) == |i.pairs|
  {
    hide Opcode, U16, GetU16, EncodePairs;
    assert bc[pos + 1..] == bc[pos..][1..] == U16(|i.pairs|) + (EncodePairs(i.pairs, i.wide) + more);
    U16Back(|i.pairs|, EncodePairs(i.pairs, i.wide) + more);
  }

  /** The opcode at a position of scanned code and the position of the next one. */
  method NextOpcode(bc: seq<Byte>, pos: nat, ghost code: seq<Instr>) returns (op: Byte, next: nat)
    requires pos < |bc| && bc[pos..] == EncodeAll(code) && Scannable(code)
    ensures code != [] && op == Opcode(code[0])
    ensures pos < next <= |bc| && bc[next..] == EncodeAll(code[1..]) && Scannable(code[1..])
  {
    NextShape(bc, pos, code);
    OpcodeKinds(code[0]);
    hide Opcode, OpcodeSize, EncodeAll, GetU16, Scannable;
    op := bc[pos];
    next := pos + OpcodeSize(op);
    if IsRangeOp(op) {
      var val := GetU16(bc[pos + 1..]);
      next := next + (if op >= 31 then 8 else 4) * val;
    }
    assert next == pos + code[0].Size();
  }

  ghost predicate NeedFrom(rest: seq<Instr>, ret: bool) {
    !Predictable(rest) || (ret && !HasChar(rest))
  }

  lemma NeedFromStep(rest: seq<Instr>, ret: bool)
    requires rest != []
    ensures NeedFrom(rest, ret) == (!rest[0].IsPredictable() || NeedFrom(rest[1..], ret && !rest[0].IsSimpleChar()))
  {
    assert rest == [rest[0]] + rest[1..];
    PredictableAppend([rest[0]], rest[1..]);
    assert Predictable([rest[0]]) == rest[0].IsPredictable();
    assert HasChar([rest[0]]) == rest[0].IsSimpleChar() by {
      if rest[0].IsSimpleChar() { assert [rest[0]][0].IsSimpleChar(); }
    }
  }

  /** re_need_check_advance. */
  method ReNeedCheckAdvance(bc: seq<Byte>, ghost code: seq<Instr>) returns (need: bool)
    requires bc == EncodeAll(code) && Scannable(code)
    ensures need == NeedCheckAdvance(code)
  {
    var ret, pos := true, 0;
    ghost var rest := code;
    assert NeedFrom(code, true) == NeedCheckAdvance(code);
    while pos < |bc|
      invariant pos <= |bc| && bc[pos..] == EncodeAll(rest) && Scannable(rest)
      invariant NeedFrom(rest, ret) == NeedCheckAdvance(code)
      decreases |bc| - pos
    {
      var op, next := NextOpcode(bc, pos, rest);
      OpcodeKinds(rest[0]);
      NeedFromStep(rest, ret);
      if IsSimpleCharOp(op) {
        ret := false;
      } else if !IsPredictableOp(op) {
        return true;
      }
      pos, rest := next, rest[1..];
    }
    assert rest == [];
    return ret;
  }

  /** re_is_simple_quantifier: the number of characters of the atom, or -1. */
  method ReIsSimpleQuantifier(bc: seq<Byte>, ghost code: seq<Instr>) returns (r: int)
    requires bc == EncodeAll(code) && Scannable(code)
    ensures r == SimpleQuantifier(code)
  {
    var count, pos := 0, 0;
    ghost var rest := code;
    while pos < |bc|
      invariant pos <= |bc| && bc[pos..] == EncodeAll(rest) && Scannable(rest)
      invariant AllSimple(code) == AllSimple(rest) && CharCount(code) == count + CharCount(rest)
      decreases |bc| - pos
    {
      var op, next := NextOpcode(bc, pos, rest);
      OpcodeKinds(rest[0]);
      SimpleStepCount(rest);
      if IsSimpleCharOp(op) {
        count := count + 1;
      } else if !IsSimpleOp(op) {
        return -1;
      }
      pos, rest := next, rest[1..];
    }
    assert rest == [];
    return count;
  }

  lemma SimpleStepCount(rest: seq<Instr>)
    requires rest != []
    ensures AllSimple(rest) == (rest[0].IsSimple() && AllSimple(rest[1..]))
    ensures CharCount(rest) == (if rest[0].IsSimpleChar() then 1 else 0) + CharCount(rest[1..])
  {
    assert rest == [rest[0]] + rest[1..];
  }

  lemma DepthNext(code: seq<Instr>, k: nat)
    requires k < |code|
    ensures Depth(code, k + 1) == Depth(code, k) + code[k..][0].Delta()
    ensures code[k..][1..] == code[k + 1..]
  {
    AddrStep(code, k);
  }

  lemma EmptyCode(bc: seq<Byte>, rest: seq<Instr>)
    requires bc[|bc|..] == EncodeAll(rest)
    ensures rest == []
  {
  }

  /** compute_stack_size: the depth of the stack, or -1 when it is too large. */
  method ComputeStackSize(bc: seq<Byte>, ghost code: seq<Instr>) returns (r: int)
    requires bc == EncodeAll(code) && Scannable(code)
    requires forall k :: 0 <= k <= |code| ==> Depth(code, k) >= 0
    ensures r == if MaxDepth(code, 0) > STACK_SIZE_MAX then -1 else MaxDepth(code, 0)
  {
    hide EncodeAll, Opcode, Scannable, OpcodeSize;
    var size, max, pos := 0, 0, 0;
    ghost var rest, k := code, 0;
    while pos < |bc|
      invariant pos <= |bc| && bc[pos..] == EncodeAll(rest) && Scannable(rest)
      invariant k <= |code| && rest == code[k..]
      invariant size == Depth(code, k) >= 0 && size <= max <= STACK_SIZE_MAX
      invariant MaxDepth(code, 0) == (if max > MaxDepth(rest, size) then max else MaxDepth(rest, size))
      decreases |bc| - pos
    {
      var op, next := NextOpcode(bc, pos, rest);
      OpcodeKinds(rest[0]);
      DepthNext(code, k);
      if op == 19 || op == 35 {
        size := size + 1;
        if size > max {
          if size > STACK_SIZE_MAX {
            return -1;
          }
          max := size;
        }
      } else if op == 20 || op == 36 {
        assert Depth(code, k + 1) >= 0;
        size := size - 1;
      }
      pos, rest, k := next, rest[1..], k + 1;
    }
    EmptyCode(bc, rest);
    return max;
  }

  // What the compiler refuses, and why its code can always be scanned.

  /** False for too many captures or for a table with too many ranges. */
  predicate Accepted(r: Regex, c: nat) {
    match r
    case Empty | Assert(_) | BackRef(_, _) => true
    case Atom(t) => t.Class? ==> |t.points| / 2 < 65535
    case Group(r1) => c < CAPTURE_COUNT_MAX && Accepted(r1, c + 1)
    case Sequence(r1, r2) => Accepted(r1, c) && Accepted(r2, c + Groups(r1))
    case Either(r1, r2) => Accepted(r1, c) && Accepted(r2, c + Groups(r1))
    case Quantified(r1, _, _, _) => Accepted(r1, c)
    case Look(r1, _, _) => Accepted(r1, c)
  }

  lemma ScanAppend(a: seq<Instr>, b: seq<Instr>)
    requires Scannable(a) && Scannable(b)
    ensures Scannable(a + b)
  {
  }

  lemma ScanQuant(body: seq<Instr>, groups: nat, c: nat, min: nat, max: nat, greedy: bool)
    requires Scannable(body)
    ensures Scannable(QuantCode(body, groups, c, min, max, greedy))
  {
    var round := RoundCode(body);
    assert Scannable(round);
    assert Scannable(LoopCode(body, true, greedy)) && Scannable(LoopCode(body, false, greedy));
    assert Scannable(RepeatCode(body, min)) && Scannable(MoreCode(body, min, max, greedy));
    assert Scannable(SimpleQuantCode(body, min, max)) && Scannable(PlusCode(body, greedy));
    assert Scannable(ZeroCode(body, max, greedy));
    hide RoundCode, LoopCode, RepeatCode, MoreCode, SimpleQuantCode, PlusCode, ZeroCode, NeedCheckAdvance,
      UsesSimpleQuant;
    assert Scannable(QuantCode(body, groups, c, min, max, greedy));
  }

  lemma ScanOne(i: Instr)
    requires i.Range? ==> |i.pairs| < 0x10000
    ensures Scannable([i])
  {
  }

  lemma {:induction false} CodeScannable(canon: nat -> nat, r: Regex, back: bool, c: nat)
    requires Accepted(r, c)
    ensures Scannable(Code(canon, r, back, c))
  {
    hide QuantCode, Scannable, TestInstr, Size;
    match r
    case Empty => ScanNone();
    case Assert(a) => ScanOne(Check(a));
    case BackRef(i, icase) => ScanOne(BackReference(i, icase, back));
    case Atom(t) =>
      ScanTest(canon, t);
      if back {
        ScanOne(PrevChar);
        ScanAppend([PrevChar], [TestInstr(canon, t)]);
        ScanAppend([PrevChar] + [TestInstr(canon, t)], [PrevChar]);
        assert Code(canon, r, back, c) == [PrevChar] + [TestInstr(canon, t)] + [PrevChar];
      }
    case Group(r1) =>
      CodeScannable(canon, r1, back, c + 1);
      ScanBetween(Save(c, back), Code(canon, r1, back, c + 1), Save(c, !back));
    case Sequence(r1, r2) =>
      CodeScannable(canon, r1, back, c);
      CodeScannable(canon, r2, back, c + Groups(r1));
      if back { ScanAppend(Code(canon, r2, back, c + Groups(r1)), Code(canon, r1, back, c)); }
      else { ScanAppend(Code(canon, r1, back, c), Code(canon, r2, back, c + Groups(r1))); }
    case Either(r1, r2) =>
      CodeScannable(canon, r1, back, c);
      CodeScannable(canon, r2, back, c + Groups(r1));
      var c1, c2 := Code(canon, r1, back, c), Code(canon, r2, back, c + Groups(r1));
      ScanBetween(Split(true, Size(c1) + 5), c1, Goto(Size(c2)));
      ScanAppend([Split(true, Size(c1) + 5)] + c1 + [Goto(Size(c2))], c2);
    case Quantified(r1, min, max, greedy) =>
      CodeScannable(canon, r1, back, c);
      ScanQuant(Code(canon, r1, back, c), Groups(r1), c, min, max, greedy);
    case Look(r1, negative, behind) =>
      CodeScannable(canon, r1, behind, c);
      ScanBetween(Lookahead(negative, Size(Code(canon, r1, behind, c)) + 1), Code(canon, r1, behind, c), Match);
  }

  lemma ScanNone()
    ensures Scannable([])
  {
  }

  lemma ScanTest(canon: nat -> nat, t: CharTest)
    requires t.Class? ==> |t.points| / 2 < 65535
    ensures Scannable([TestInstr(canon, t)])
  {
  }

  lemma ScanBetween(i: Instr, body: seq<Instr>, j: Instr)
    requires Scannable(body) && !i.Range? && !j.Range?
    ensures Scannable([i] + body + [j])
  {
  }

  // The bytes of the pieces of a quantifier.

  lemma EncodeBetween(i: Instr, body: seq<Instr>, post: seq<Instr>)
    ensures EncodeAll([i] + body + post) == Encode(i) + EncodeAll(body) + EncodeAll(post)
  {
    EncodeAppend([i] + body, post);
    EncodeAppend([i], body);
    EncodeOne(i);
  }

  function RoundFront(body: seq<Instr>): seq<Byte> { if NeedCheckAdvance(body) then Encode(PushCharPos) else [] }

  function RoundBack(body: seq<Instr>): seq<Byte> { if NeedCheckAdvance(body) then Encode(CheckAdvance) else [] }

  lemma EncodeRound(body: seq<Instr>)
    ensures EncodeAll(RoundCode(body)) == RoundFront(body) + EncodeAll(body) + RoundBack(body)
    ensures Size(RoundCode(body)) == Size(body) + (if NeedCheckAdvance(body) then 2 else 0)
  {
    hide Encode, EncodeAll, NeedCheckAdvance;
    if NeedCheckAdvance(body) {
      EncodeBetween(PushCharPos, body, [CheckAdvance]);
      EncodeOne(CheckAdvance);
    }
  }

  lemma EncodeLoop(body: seq<Instr>, counted: bool, greedy: bool)
    ensures var n: int := Size(RoundCode(body));
      EncodeAll(LoopCode(body, counted, greedy))
      == Encode(Split(greedy, n + 5)) + (RoundFront(body) + EncodeAll(body) + RoundBack(body))
         + if counted then Encode(Loop(-(n + 10))) + Encode(Drop) else Encode(Goto(-(n + 10)))
  {
    hide Encode, EncodeAll, NeedCheckAdvance, RoundCode, Size;
    EncodeRound(body);
    var n: int := Size(RoundCode(body));
    if counted {
      assert [Loop(-(n + 10)), Drop] == [Loop(-(n + 10))] + [Drop];
      EncodeAppend([Loop(-(n + 10))], [Drop]);
      EncodeOne(Loop(-(n + 10)));
      EncodeOne(Drop);
      EncodeBetween(Split(greedy, n + 5), RoundCode(body), [Loop(-(n + 10)), Drop]);
    } else {
      EncodeOne(Goto(-(n + 10)));
      EncodeBetween(Split(greedy, n + 5), RoundCode(body), [Goto(-(n + 10))]);
    }
  }

  // The bytes of a range table.

  lemma MinusOne()
    ensures U32(-1) == U32(UINT32_MAX)
  {
  }

  lemma NarrowBytes(end: nat, high: int)
    requires var h := (end as int - 1) % TWO32; high == if h == UINT32_MAX - 1 then 0xffff else h
    ensures U16(high) == U16(NarrowHigh(end))
  {
    var e: int := end;
    hide U16;
    LowBytes(e - 1);
    if end % TWO32 == 0 {
      LastWord(e);
      LowBytes(UINT32_MAX);
      SixteenOnes();
    }
  }

  lemma LowBytes(v: int)
    ensures U16(v % TWO32) == U16(v)
  {
    var k, r := v / TWO32, v % TWO32;
    LowByte(k * 0x100_0000, r);
    LowByte(k * 0x1_0000, r / 256);
  }

  /** Multiples of 256 do not change the lowest byte. */
  lemma LowByte(k: int, r: int)
    ensures (256 * k + r) % 256 == r % 256 && (256 * k + r) / 256 == k + r / 256
  {
  }

  lemma LastWord(e: int)
    requires e % TWO32 == 0
    ensures (e - 1) % TWO32 == UINT32_MAX
  {
  }

  lemma SixteenOnes()
    ensures U16(UINT32_MAX) == U16(0xffff)
  {
  }

  lemma WideBytes(end: nat)
    ensures U32(end - 1) == U32(WideHigh(end))
  {
    if end == 0 { MinusOne(); }
  }

  lemma NoPairs(b: seq<Byte>, ps: seq<(nat, nat)>, wide: bool)
    ensures b == b + EncodePairs(ps[..0], wide)
  {
    assert ps[..0] == [];
  }

  lemma {:induction false} PairsSnoc(ps: seq<(nat, nat)>, p: (nat, nat), wide: bool)
    ensures EncodePairs(ps + [p], wide) == EncodePairs(ps, wide) + PairBytes(p, wide)
  {
    hide *;
    FirstPair(ps + [p], wide);
    if ps == [] {
      assert (ps + [p])[1..] == [];
      NothingPaired(wide);
    } else {
      PairsSnoc(ps[1..], p, wide);
      FirstPair(ps, wide);
      assert (ps + [p])[1..] == ps[1..] + [p];
      JoinThree(PairBytes(ps[0], wide), EncodePairs(ps[1..], wide), PairBytes(p, wide));
    }
  }

  lemma FirstPair(ps: seq<(nat, nat)>, wide: bool)
    requires ps != []
    ensures EncodePairs(ps, wide) == PairBytes(ps[0], wide) + EncodePairs(ps[1..], wide)
  {
  }

  lemma NothingPaired(wide: bool)
    ensures EncodePairs([], wide) == []
  {
  }

  function PairBytes(p: (nat, nat), wide: bool): seq<Byte> {
    if wide then U32(p.0) + U32(p.1) else U16(p.0) + U16(p.1)
  }

  lemma NextPair(start: seq<Byte>, before: seq<Byte>, ps: seq<(nat, nat)>, k: nat, wide: bool, low: seq<Byte>,
      high: seq<Byte>)
    requires k < |ps| && before == start + EncodePairs(ps[..k], wide) && low + high == PairBytes(ps[k], wide)
    ensures before + low + high == start + EncodePairs(ps[..k + 1], wide)
  {
    hide EncodePairs, PairBytes;
    assert ps[..k + 1] == ps[..k] + [ps[k]];
    PairsSnoc(ps[..k], ps[k], wide);
    assert before + low + high == start + (EncodePairs(ps[..k], wide) + (low + high));
  }

  lemma RangeBytes(start: seq<Byte>, points: seq<nat>, icase: bool)
    requires |points| / 2 > 0
    ensures var wide := HighestBound(points) > 0xffff;
      start + ([(if wide then 31 else 29) + (if icase then 1
        else 0)] + U16(|points| / 2)) + EncodePairs(RangePairs(points, wide), wide)
      == start + Encode(RangeInstr(points, icase))
  {
    hide EncodePairs, U16;
  }

  class REParseState {
    const canon: nat -> nat
    var byteCode: seq<Byte>
    var captureCount: nat

    constructor (canon: nat -> nat)
      ensures this.canon == canon && byteCode == [] && captureCount == 1
    {
      this.canon := canon;
      byteCode, captureCount := [], 1;
    }

    // The buffer operations of cutils.c.

    method Put(xs: seq<Byte>)
      modifies this`byteCode
      ensures byteCode == old(byteCode) + xs
    {
      byteCode := byteCode + xs;
    }

    /** dbuf_insert: the new bytes are not initialized. */
    method DbufInsert(pos: nat, len: nat, ghost before: seq<Byte>, ghost after: seq<Byte>)
        returns (ghost gap: seq<Byte>)
      requires byteCode == before + after && pos == |before|
      modifies this`byteCode
      ensures |gap| == len && byteCode == before + gap + after
    {
      var filler: seq<Byte> := seq(len, _ => 0);
      assert byteCode[..pos] == before && byteCode[pos..] == after;
      byteCode := byteCode[..pos] + filler + byteCode[pos..];
      gap := filler;
    }

    /** Writes over bytes that are already in the buffer. */
    method PutAt(pos: nat, xs: seq<Byte>, ghost before: seq<Byte>, ghost gap: seq<Byte>, ghost after: seq<Byte>)
      requires byteCode == before + gap + after && pos == |before| && |xs| <= |gap|
      modifies this`byteCode
      ensures byteCode == before + xs + (gap[|xs|..] + after)
    {
      assert byteCode[..pos] == before;
      assert byteCode[pos + |xs|..] == gap[|xs|..] + after;
      byteCode := byteCode[..pos] + xs + byteCode[pos + |xs|..];
    }

    /** dbuf_put_self: copies emitted bytes to the end. */
    method DbufPutSelf(offset: nat, len: nat)
      requires offset + len <= |byteCode|
      modifies this`byteCode
      ensures byteCode == old(byteCode) + old(byteCode)[offset..offset + len]
    {
      byteCode := byteCode + byteCode[offset..offset + len];
    }

    method EmitOp(i: Instr)
      requires i.Size() == 1
      modifies this`byteCode
      ensures byteCode == old(byteCode) + Encode(i)
    {
      Put([Opcode(i)]);
    }

    /** re_emit_op_u32; pos is the offset of the operand. */
    method EmitOpU32(op: Byte, val: int) returns (pos: nat)
      modifies this`byteCode
      ensures byteCode == old(byteCode) + ([op] + U32(val)) && pos == |old(byteCode)| + 1
    {
      Put([op]);
      pos := |byteCode|;
      Put(U32(val));
      JoinThree(old(byteCode), [op], U32(val));
    }

    /** re_emit_goto: the operand is relative to the end of the instruction. */
    method EmitGoto(op: Byte, target: int)
      modifies this`byteCode
      ensures byteCode == old(byteCode) + ([op] + U32(target - (|old(byteCode)| + 5)))
    {
      Put([op]);
      var pos := |byteCode|;
      Put(U32(target - (pos + 4)));
      JoinThree(old(byteCode), [op], U32(target - (pos + 4)));
    }

    /** Appends an instruction without a jump, operand by operand. */
    method Emit(i: Instr)
      modifies this`byteCode
      ensures byteCode == old(byteCode) + EncodeAll([i])
    {
      hide *;
      Put([Opcode(i)]);
      Put(Operands(i));
      EncodeOne(i);
      EncodeIs(i);
      JoinThree(old(byteCode), [Opcode(i)], Operands(i));
    }

    /** re_emit_op_u16. */
    method EmitOpU16(op: Byte, val: int)
      modifies this`byteCode
      ensures byteCode == old(byteCode) + ([op] + U16(val))
    {
      Put([op]);
      Put(U16(val));
      JoinThree(old(byteCode), [op], U16(val));
    }

    /** The table loop of re_emit_range with 16-bit entries. */
    method PutNarrowPairs(points: seq<nat>)
      modifies this`byteCode
      ensures byteCode == old(byteCode) + EncodePairs(RangePairs(points, false), false)
    {
      hide EncodePairs, U16;
      var i := 0;
      ghost var ps := RangePairs(points, false);
      NoPairs(byteCode, ps, false);
      while i + 1 < |points|
        invariant 0 <= i <= 2 * |ps| && i % 2 == 0
        invariant byteCode == old(byteCode) + EncodePairs(ps[..i / 2], false)
      {
        ghost var before := byteCode;
        Put(U16(points[i]));
        var end: int := points[i + 1];
        var high := (end - 1) % TWO32;
        if high == UINT32_MAX - 1 { high := 0xffff; }
        Put(U16(high));
        NarrowBytes(points[i + 1], high);
        NextPair(old(byteCode), before, ps, i / 2, false, U16(points[i]), U16(high));
        i := i + 2;
      }
      assert ps[..i / 2] == ps;
    }

    /** The table loop of re_emit_range with 32-bit entries. */
    method PutWidePairs(points: seq<nat>)
      modifies this`byteCode
      ensures byteCode == old(byteCode) + EncodePairs(RangePairs(points, true), true)
    {
      hide EncodePairs, U32;
      var i := 0;
      ghost var ps := RangePairs(points, true);
      NoPairs(byteCode, ps, true);
      while i + 1 < |points|
        invariant 0 <= i <= 2 * |ps| && i % 2 == 0
        invariant byteCode == old(byteCode) + EncodePairs(ps[..i / 2], true)
      {
        ghost var before := byteCode;
        var end: int := points[i + 1];
        Put(U32(points[i]));
        Put(U32(end - 1));
        WideBytes(points[i + 1]);
        NextPair(old(byteCode), before, ps, i / 2, true, U32(points[i]), U32(end - 1));
        i := i + 2;
      }
      assert ps[..i / 2] == ps;
    }

    /** re_emit_range. */
    method EmitRange(points: seq<nat>, icase: bool) returns (ok: bool)
      modifies this`byteCode
      ensures ok == (|points| / 2 < 65535)
      ensures ok ==> byteCode == old(byteCode) + EncodeAll([RangeInstr(points, icase)])
    {
      hide EncodePairs, U16, U32, RangePairs, EncodeAll;
      ghost var instr := RangeInstr(points, icase);
      EncodeOne(instr);
      EncodeIs(instr);
      var len := |points| / 2;
      if len >= 65535 {
        return false;
      }
      if len == 0 {
        var _ := EmitOpU32(3, -1);
        MinusOne();
      } else {
        var high := points[|points| - 1];
        if high == UINT32_MAX { high := points[|points| - 2]; }
        if high <= 0xffff {
          EmitOpU16(if icase then 30 else 29, len);
          PutNarrowPairs(points);
        } else {
          EmitOpU16(if icase then 32 else 31, len);
          PutWidePairs(points);
        }
        RangeBytes(old(byteCode), points, icase);
      }
      ok := true;
    }

    method EmitTest(t: CharTest) returns (ok: bool)
      modifies this`byteCode
      ensures ok == Accepted(Atom(t), 0)
      ensures ok ==> byteCode == old(byteCode) + EncodeAll([TestInstr(canon, t)])
    {
      if t.Class? {
        ok := EmitRange(t.points, t.icase);
      } else {
        ok := true;
        Emit(TestInstr(canon, t));
      }
    }

    /** Inserts bytes in front of code that is already there. */
    method InsertFront(start: nat, front: seq<Byte>, ghost pre: seq<Byte>, ghost rest: seq<Byte>)
      requires byteCode == pre + rest && start == |pre|
      modifies this`byteCode
      ensures byteCode == pre + front + rest
    {
      var gap := DbufInsert(start, |front|, pre, rest);
      PutAt(start, front, pre, gap, rest);
      assert gap[|front|..] + rest == rest;
    }

    /** The split, the check and the way back around an atom that stands at the end of
        the buffer from address `start` on: used when nothing is mandatory. */
    method WrapOnce(start: nat, len: nat, max: nat, greedy: bool, check: bool, ghost pre: seq<Byte>,
        ghost body: seq<Instr>)
      requires byteCode == pre + EncodeAll(body) && start == |pre| && len == Size(body)
      requires check == NeedCheckAdvance(body) && (max == 1 || max == INT32_MAX)
      modifies this`byteCode
      ensures byteCode == pre + EncodeAll(ZeroCode(body, max, greedy))
    {
      hide *;
      var hasGoto := max == INT32_MAX;
      ghost var atom, back := EncodeAll(body), RoundBack(body);
      var split := [12 + B(greedy)] + U32(len + (if hasGoto then 5 else 0) + (if check then 2 else 0));
      var push := if check then [35 as Byte] else [];
      RoundBytes(body);
      OnceBytes(body, max, greedy);
      ZeroIsLoop(body, max, greedy);
      InsertFront(start, split + push, pre, atom);
      if check { EmitOp(CheckAdvance); }
      assert byteCode == pre + (split + (push + atom + back));
      if hasGoto {
        EmitGoto(11, start);
        assert byteCode == pre + (split + (push + atom + back) + ([11] + U32(-(len + 10 + (if check then 2 else 0)))));
      }
    }

    method WrapCounted(start: nat, len: nat, max: nat, greedy: bool, check: bool, ghost pre: seq<Byte>,
        ghost body: seq<Instr>)
      requires byteCode == pre + EncodeAll(body) && start == |pre| && len == Size(body)
      requires check == NeedCheckAdvance(body) && max > 1 && max != INT32_MAX
      modifies this`byteCode
      ensures byteCode == pre + EncodeAll(ZeroCode(body, max, greedy))
    {
      hide *;
      ghost var atom, back := EncodeAll(body), RoundBack(body);
      var counter := [19] + U32(max);
      var split := [12 + B(greedy)] + U32(len + 5 + (if check then 2 else 0));
      var push := if check then [35 as Byte] else [];
      RoundBytes(body);
      CountedBytes(body, max, greedy);
      ZeroIsLoop(body, max, greedy);
      InsertFront(start, counter + split + push, pre, atom);
      if check { EmitOp(CheckAdvance); }
      assert byteCode == pre + (counter + (split + (push + atom + back)));
      EmitGoto(18, start + 5);
      EmitOp(Drop);
      assert byteCode == pre + (counter + (split + (push + atom + back) + ([18] + U32(-(len + 10 + (if check then 2
        else 0))) + [20])));
    }

    /** The fast form: the opcode goes in front of the atom and a match behind it. */
    method WrapSimple(start: nat, len: nat, min: nat, max: nat, ghost pre: seq<Byte>, ghost body: seq<Instr>)
      requires byteCode == pre + EncodeAll(body) && start == |pre| && len == CharCount(body)
      modifies this`byteCode
      ensures byteCode == pre + EncodeAll(SimpleQuantCode(body, min, max))
    {
      hide *;
      ghost var atom := EncodeAll(body);
      SimpleBytes(body, min, max);
      EmitOp(Match);
      assert byteCode == pre + (atom + [14]);
      var gap := DbufInsert(start, 17, pre, atom + [14]);
      var size := |byteCode|;
      var front := [38] + U32(size - start - 17) + U32(min) + U32(max) + U32(len);
      PutAt(start, front, pre, gap, atom + [14]);
      assert gap[|front|..] + (atom + [14]) == atom + [14];
      assert byteCode == pre + (front + (atom + [14]));
    }

    /** One or more rounds of an atom that always advances: a split behind it. */
    method WrapPlus(start: nat, greedy: bool, ghost pre: seq<Byte>, ghost body: seq<Instr>)
      requires byteCode == pre + EncodeAll(body) && start == |pre|
      modifies this`byteCode
      ensures byteCode == pre + EncodeAll(PlusCode(body, greedy))
    {
      hide *;
      PlusBytes(body, greedy);
      EmitGoto(13 - B(greedy), start);
      assert byteCode == pre + (EncodeAll(body) + ([13 - B(greedy)] + U32(-(Size(body) + 5))));
    }

    /** The mandatory rounds; the result is where the atom now starts. */
    method WrapRepeat(start: nat, min: nat, ghost pre: seq<Byte>, ghost body: seq<Instr>) returns (atomStart: nat)
      requires byteCode == pre + EncodeAll(body) && start == |pre|
      modifies this`byteCode
      ensures byteCode == pre + EncodeAll(RepeatCode(body, min))
      ensures atomStart + Size(body) <= |byteCode| && byteCode[atomStart..atomStart + Size(body)] == EncodeAll(body)
    {
      hide *;
      ghost var atom := EncodeAll(body);
      RepeatBytes(body, min);
      atomStart := start;
      if min != 1 {
        var front := [19] + U32(min);
        InsertFront(start, front, pre, atom);
        atomStart := start + 5;
        EmitGoto(18, atomStart);
        EmitOp(Drop);
        ghost var back := [18] + U32(-(Size(body) + 5)) + [20];
        SliceMiddle(pre + front, atom, back);
        JoinFour(pre, front, atom, back);
        JoinThree(pre + front + atom, [18] + U32(-(Size(body) + 5)), [20]);
      } else {
        SliceMiddle(pre, atom, []);
        assert byteCode == pre + atom + [];
      }
    }

    /** A split and a copy of the atom with its check. */
    method AppendRound(atomStart: nat, len: nat, greedy: bool, check: bool, ghost pre: seq<Byte>,
        ghost body: seq<Instr>)
      requires byteCode == pre && atomStart + len <= |pre| && pre[atomStart..atomStart + len] == EncodeAll(body)
      requires len == Size(body) && check == NeedCheckAdvance(body)
      modifies this`byteCode
      ensures var round := RoundFront(body) + EncodeAll(body) + RoundBack(body);
        byteCode == pre + ([12 + B(greedy)] + U32(len + 5 + (if check then 2 else 0)) + round)
      ensures |byteCode| == |pre| + 5 + len + (if check then 2 else 0)
    {
      hide *;
      RoundBytes(body);
      var _ := EmitOpU32(12 + B(greedy), len + 5 + (if check then 2 else 0));
      ghost var split := [12 + B(greedy)] + U32(len + 5 + (if check then 2 else 0));
      if check { Put([35]); }
      ghost var front := byteCode;
      assert front == pre + (split + RoundFront(body));
      DbufPutSelf(atomStart, len);
      SlicePrefix(pre, split + RoundFront(body), atomStart, len);
      if check { EmitOp(CheckAdvance); }
      assert byteCode == pre + (split + (RoundFront(body) + EncodeAll(body) + RoundBack(body)));
    }

    /** The further rounds, with a copy of the atom. */
    method AppendMore(atomStart: nat, len: nat, min: nat, max: nat, greedy: bool, check: bool, ghost pre: seq<Byte>,
        ghost body: seq<Instr>)
      requires byteCode == pre && atomStart + len <= |pre| && pre[atomStart..atomStart + len] == EncodeAll(body)
      requires len == Size(body) && check == NeedCheckAdvance(body)
      modifies this`byteCode
      ensures byteCode == pre + EncodeAll(MoreCode(body, min, max, greedy))
    {
      hide *;
      MoreBytes(body, min, max, greedy);
      RoundBytes(body);
      if max == INT32_MAX {
        var pos := |byteCode|;
        AppendRound(atomStart, len, greedy, check, pre, body);
        ghost var part := byteCode[|pre|..];
        EmitGoto(11, pos);
        assert byteCode == pre + (part + ([11] + U32(-(len + 10 + (if check then 2 else 0)))));
      } else if max > min {
        AppendCounted(atomStart, len, max - min, greedy, check, pre, body);
      } else {
        assert byteCode == pre + [];
      }
    }

    /** The further rounds under a counter. */
    method AppendCounted(atomStart: nat, len: nat, count: nat, greedy: bool, check: bool, ghost pre: seq<Byte>,
        ghost body: seq<Instr>)
      requires byteCode == pre && atomStart + len <= |pre| && pre[atomStart..atomStart + len] == EncodeAll(body)
      requires len == Size(body) && check == NeedCheckAdvance(body)
      modifies this`byteCode
      ensures var round := RoundFront(body) + EncodeAll(body) + RoundBack(body);
        var part := [12 + B(greedy)] + U32(len + 5 + (if check then 2 else 0)) + round;
        byteCode == pre + ([19] + U32(count) + (part + ([18] + U32(-(len + 10 + (if check then 2 else 0))) + [20])))
    {
      hide *;
      RoundBytes(body);
      var _ := EmitOpU32(19, count);
      ghost var counter := [19] + U32(count);
      var pos := |byteCode|;
      SlicePrefix(pre, counter, atomStart, len);
      AppendRound(atomStart, len, greedy, check, pre + counter, body);
      ghost var part := byteCode[pos..];
      EmitGoto(18, pos);
      EmitOp(Drop);
      JoinFour(pre, counter, part, [18] + U32(-(len + 10 + (if check then 2 else 0))));
      assert byteCode == pre + (counter + (part + ([18] + U32(-(len + 10 + (if check then 2 else 0))) + [20])));
    }

    /** The quantifier part of re_parse_term when nothing is mandatory. */
    method EmitOptional(start: nat, lastCaptureCount: nat, max: nat, greedy: bool, check: bool, ghost pre: seq<Byte>,
        ghost body: seq<Instr>)
      requires byteCode == pre + EncodeAll(body) && start == |pre| && lastCaptureCount <= captureCount
      requires check == NeedCheckAdvance(body)
      modifies this`byteCode
      ensures byteCode == pre + (EncodeAll(ResetCode(captureCount - lastCaptureCount,
        lastCaptureCount)) + EncodeAll(ZeroCode(body, max, greedy)))
    {
      hide *;
      ghost var groups := captureCount - lastCaptureCount;
      ResetZero(body, groups, lastCaptureCount, max, greedy);
      var len := |byteCode| - start;
      ghost var pre1 := pre + EncodeAll(ResetCode(groups, lastCaptureCount));
      var start1 := start;
      if lastCaptureCount != captureCount {
        InsertFront(start, [17] + U8(lastCaptureCount) + U8(captureCount - 1), pre, EncodeAll(body));
        start1 := start + 3;
      }
      assert byteCode == pre1 + EncodeAll(body);
      if max == 0 {
        byteCode := byteCode[..start1];
        assert byteCode == pre1 + [];
      } else if max == 1 || max == INT32_MAX {
        WrapOnce(start1, len, max, greedy, check, pre1, body);
      } else {
        WrapCounted(start1, len, max, greedy, check, pre1, body);
      }
      JoinThree(pre, EncodeAll(ResetCode(groups, lastCaptureCount)), EncodeAll(ZeroCode(body, max, greedy)));
    }

    /** The quantifier part of re_parse_term: the atom is the code from `start` on. */
    method EmitQuantifier(start: nat, lastCaptureCount: nat, min: nat, max: nat, greedy: bool, ghost pre: seq<Byte>,
        ghost body: seq<Instr>)
      requires byteCode == pre + EncodeAll(body) && start == |pre| && Scannable(body)
        && lastCaptureCount <= captureCount
      modifies this`byteCode
      ensures byteCode == pre + EncodeAll(QuantCode(body, captureCount - lastCaptureCount, lastCaptureCount, min, max,
        greedy))
    {
      hide *;
      var groups := captureCount - lastCaptureCount;
      QuantCases(body, groups, lastCaptureCount, min, max, greedy);
      assert byteCode[start..] == EncodeAll(body);
      if greedy && max > 0 {
        var chars := ReIsSimpleQuantifier(byteCode[start..], body);
        if chars > 0 {
          WrapSimple(start, chars, min, max, pre, body);
          return;
        }
      }
      var check := ReNeedCheckAdvance(byteCode[start..], body);
      var len := |byteCode| - start;
      if min == 0 {
        EmitOptional(start, lastCaptureCount, max, greedy, check, pre, body);
      } else if min == 1 && max == INT32_MAX && !check {
        WrapPlus(start, greedy, pre, body);
      } else {
        var atomStart := WrapRepeat(start, min, pre, body);
        AppendMore(atomStart, len, min, max, greedy, check, pre + EncodeAll(RepeatCode(body, min)), body);
        JoinThree(pre, EncodeAll(RepeatCode(body, min)), EncodeAll(MoreCode(body, min, max, greedy)));
      }
    }

    /** re_parse_term, re_parse_alternative and re_parse_disjunction, driven by the tree of
        the pattern.  The result is false for too many captures or ranges. */
    method EmitRegex(r: Regex, back: bool) returns (ok: bool)
      modifies this`byteCode, this`captureCount
      ensures ok == Accepted(r, old(captureCount))
      ensures ok ==> captureCount == old(captureCount) + Groups(r)
      ensures ok ==> byteCode == old(byteCode) + EncodeAll(Code(canon, r, back, old(captureCount)))
      decreases r, 1
    {
      match r
      case Empty => ok := EmitLeaf(r, back);
      case Atom(t) => ok := EmitAtom(t, back);
      case Assert(a) => ok := EmitLeaf(r, back);
      case BackRef(i, icase) => ok := EmitLeaf(r, back);
      case Group(r1) => ok := EmitGroup(r1, back);
      case Sequence(r1, r2) => ok := EmitAlternative(r1, r2, back);
      case Either(r1, r2) => ok := EmitDisjunction(r1, r2, back);
      case Quantified(r1, min, max, greedy) => ok := EmitQuantified(r1, min, max, greedy, back);
      case Look(r1, negative, behind) => ok := EmitLook(r1, negative, behind, back);
    }

    /** Terms that are one instruction or none. */
    method EmitLeaf(r: Regex, back: bool) returns (ok: bool)
      requires r.Empty? || r.Assert? || r.BackRef?
      modifies this`byteCode, this`captureCount
      ensures ok == Accepted(r, old(captureCount))
      ensures ok ==> captureCount == old(captureCount) + Groups(r)
      ensures ok ==> byteCode == old(byteCode) + EncodeAll(Code(canon, r, back, old(captureCount)))
    {
      hide Encode;
      ok := true;
      match r
      case Empty => assert byteCode == old(byteCode) + [];
      case Assert(a) => Emit(Check(a));
      case BackRef(i, icase) => Emit(BackReference(i, icase, back));
    }

    method EmitQuantified(r1: Regex, min: nat, max: nat, greedy: bool, back: bool) returns (ok: bool)
      modifies this`byteCode, this`captureCount
      ensures ok == Accepted(Quantified(r1, min, max, greedy), old(captureCount))
      ensures ok ==> captureCount == old(captureCount) + Groups(Quantified(r1, min, max, greedy))
      ensures ok ==>
        byteCode == old(byteCode) + EncodeAll(Code(canon, Quantified(r1, min, max, greedy), back, old(captureCount)))
      decreases r1, 2
    {
      hide *;
      var start, lastCaptureCount := |byteCode|, captureCount;
      QuantifiedIs(canon, r1, min, max, greedy, back, lastCaptureCount);
      ok := EmitRegex(r1, back);
      if ok {
        CodeScannable(canon, r1, back, lastCaptureCount);
        EmitQuantifier(start, lastCaptureCount, min, max, greedy, old(byteCode),
          Code(canon, r1, back, lastCaptureCount));
      }
    }

    method EmitAtom(t: CharTest, back: bool) returns (ok: bool)
      modifies this`byteCode
      ensures ok == Accepted(Atom(t), captureCount)
      ensures ok ==> byteCode == old(byteCode) + EncodeAll(Code(canon, Atom(t), back, captureCount))
    {
      hide TestInstr, Encode;
      if back { Emit(PrevChar); }
      ok := EmitTest(t);
      if ok && back {
        Emit(PrevChar);
        var i := TestInstr(canon, t);
        assert [PrevChar, i, PrevChar] == [PrevChar] + [i] + [PrevChar];
        EncodeAppend([PrevChar] + [i], [PrevChar]);
        EncodeAppend([PrevChar], [i]);
        assert byteCode == old(byteCode) + (EncodeAll([PrevChar]) + EncodeAll([i]) + EncodeAll([PrevChar]));
      }
    }

    method EmitGroup(r1: Regex, back: bool) returns (ok: bool)
      modifies this`byteCode, this`captureCount
      ensures ok == Accepted(Group(r1), old(captureCount))
      ensures ok ==> captureCount == old(captureCount) + Groups(Group(r1))
      ensures ok ==> byteCode == old(byteCode) + EncodeAll(Code(canon, Group(r1), back, old(captureCount)))
      decreases r1, 2
    {
      hide *;
      var index := captureCount;
      GroupIs(canon, r1, back, index);
      if captureCount >= CAPTURE_COUNT_MAX {
        return false;
      }
      captureCount := captureCount + 1;
      Emit(Save(index, back));
      ok := EmitRegex(r1, back);
      if ok {
        Emit(Save(index, !back));
        ghost var body := Code(canon, r1, back, index + 1);
        EncodeAppend([Save(index, back)] + body, [Save(index, !back)]);
        EncodeAppend([Save(index, back)], body);
        JoinFour(old(byteCode), EncodeAll([Save(index, back)]), EncodeAll(body), EncodeAll([Save(index, !back)]));
      }
    }

    /** Terms in a row.  In a lookbehind the code of the later term is moved to the front. */
    method EmitAlternative(r1: Regex, r2: Regex, back: bool) returns (ok: bool)
      modifies this`byteCode, this`captureCount
      ensures ok == Accepted(Sequence(r1, r2), old(captureCount))
      ensures ok ==> captureCount == old(captureCount) + Groups(Sequence(r1, r2))
      ensures ok ==> byteCode == old(byteCode) + EncodeAll(Code(canon, Sequence(r1, r2), back, old(captureCount)))
      decreases Sequence(r1, r2), 0
    {
      hide *;
      var start, c := |byteCode|, captureCount;
      SequenceIs(canon, r1, r2, back, c);
      ok := EmitRegex(r1, back);
      if !ok { return; }
      var termStart := |byteCode|;
      ok := EmitRegex(r2, back);
      if !ok { return; }
      ghost var a, b := Code(canon, r1, back, c), Code(canon, r2, back, c + Groups(r1));
      ghost var pre := old(byteCode);
      EncodeAppend(a, b);
      EncodeAppend(b, a);
      if back {
        SwapParts(pre, EncodeAll(a), EncodeAll(b));
        byteCode := byteCode[..start] + byteCode[termStart..] + byteCode[start..termStart];
        JoinThree(pre, EncodeAll(b), EncodeAll(a));
      } else {
        JoinThree(pre, EncodeAll(a), EncodeAll(b));
      }
    }

    method EmitDisjunction(r1: Regex, r2: Regex, back: bool) returns (ok: bool)
      modifies this`byteCode, this`captureCount
      ensures ok == Accepted(Either(r1, r2), old(captureCount))
      ensures ok ==> captureCount == old(captureCount) + Groups(Either(r1, r2))
      ensures ok ==> byteCode == old(byteCode) + EncodeAll(Code(canon, Either(r1, r2), back, old(captureCount)))
      decreases Either(r1, r2), 0
    {
      hide *;
      var start, c := |byteCode|, captureCount;
      EitherIs(canon, r1, r2, back, c);
      ok := EmitRegex(r1, back);
      if !ok { return; }
      ghost var pre, a := old(byteCode), Code(canon, r1, back, c);
      ghost var b := Code(canon, r2, back, c + Groups(r1));
      EitherBytes(a, b);
      var len := |byteCode| - start;
      var split := [13] + U32(len + 5);
      InsertFront(start, split, pre, EncodeAll(a));
      var pos := EmitOpU32(11, 0);
      ghost var front := byteCode;
      assert front == (pre + split + EncodeAll(a) + [11]) + U32(0);
      ok := EmitRegex(r2, back);
      if !ok { return; }
      // patch the goto
      len := |byteCode| - (pos + 4);
      assert byteCode == (pre + split + EncodeAll(a) + [11]) + U32(0) + EncodeAll(b);
      PutAt(pos, U32(len), pre + split + EncodeAll(a) + [11], U32(0), EncodeAll(b));
      assert U32(0)[|U32(len)|..] + EncodeAll(b) == EncodeAll(b);
      assert byteCode == pre + (split + EncodeAll(a) + ([11] + U32(len)) + EncodeAll(b));
    }

    method EmitLook(r1: Regex, negative: bool, behind: bool, ghost back: bool) returns (ok: bool)
      modifies this`byteCode, this`captureCount
      ensures ok == Accepted(Look(r1, negative, behind), old(captureCount))
      ensures ok ==> captureCount == old(captureCount) + Groups(Look(r1, negative, behind))
      ensures ok ==> byteCode == old(byteCode) + EncodeAll(Code(canon, Look(r1, negative, behind), back,
        old(captureCount)))
      decreases r1, 2
    {
      hide *;
      ghost var c, pre := captureCount, byteCode;
      LookIs(canon, r1, negative, behind, back, c);
      var pos := EmitOpU32(33 + B(negative), 0);
      ghost var op: seq<Byte> := [33 + B(negative)];
      assert byteCode == (pre + op) + U32(0);
      ok := EmitRegex(r1, behind);
      if !ok { return; }
      ghost var body := Code(canon, r1, behind, c);
      LookBytes(negative, body);
      EmitOp(Match);
      assert byteCode == (pre + op) + U32(0) + (EncodeAll(body) + [14]);
      // jump after the match when the lookahead is successful
      var len := |byteCode| - (pos + 4);
      PutAt(pos, U32(len), pre + op, U32(0), EncodeAll(body) + [14]);
      assert U32(0)[|U32(len)|..] + (EncodeAll(body) + [14]) == EncodeAll(body) + [14];
      assert byteCode == pre + (op + U32(len) + (EncodeAll(body) + [14]));
    }
  }

  lemma SwapParts(pre: seq<Byte>, a: seq<Byte>, b: seq<Byte>)
    ensures var s := pre + a + b;
      s[..|pre|] == pre && s[|pre|..|pre| + |a|] == a && s[|pre| + |a|..] == b
  {
  }

  lemma EitherBytes(a: seq<Instr>, b: seq<Instr>)
    ensures EncodeAll([Split(true, Size(a) + 5)] + a + [Goto(Size(b))] + b)
         == [13] + U32(Size(a) + 5) + EncodeAll(a) + ([11] + U32(Size(b))) + EncodeAll(b)
    ensures |EncodeAll(a)| == Size(a) && |EncodeAll(b)| == Size(b) && forall v: int :: |U32(v)| == 4
  {
    hide EncodeAll, Size, U32;
    var split, goto := Split(true, Size(a) + 5), Goto(Size(b));
    EncodeAppend([split] + a + [goto], b);
    EncodeBetween(split, a, [goto]);
    EncodeOne(goto);
  }

  lemma {:induction false} GroupIs(canon: nat -> nat, r1: Regex, back: bool, c: nat)
    ensures Groups(Group(r1)) == 1 + Groups(r1)
    ensures Accepted(Group(r1), c) == (c < CAPTURE_COUNT_MAX && Accepted(r1, c + 1))
    ensures Code(canon, Group(r1), back, c) == [Save(c, back)] + Code(canon, r1, back, c + 1) + [Save(c, !back)]
  {
    hide QuantCode, Size, TestInstr;
  }

  lemma {:induction false} SequenceIs(canon: nat -> nat, r1: Regex, r2: Regex, back: bool, c: nat)
    ensures Groups(Sequence(r1, r2)) == Groups(r1) + Groups(r2)
    ensures Accepted(Sequence(r1, r2), c) == (Accepted(r1, c) && Accepted(r2, c + Groups(r1)))
    ensures var a, b := Code(canon, r1, back, c), Code(canon, r2, back, c + Groups(r1));
      Code(canon, Sequence(r1, r2), back, c) == if back then b + a else a + b
  {
    hide QuantCode, Size, TestInstr;
  }

  lemma {:induction false} QuantifiedIs(canon: nat -> nat, r1: Regex, min: nat, max: nat, greedy: bool, back: bool,
      c: nat)
    ensures Groups(Quantified(r1, min, max, greedy)) == Groups(r1)
    ensures Accepted(Quantified(r1, min, max, greedy), c) == Accepted(r1, c)
    ensures Code(canon, Quantified(r1, min, max, greedy), back, c)
         == QuantCode(Code(canon, r1, back, c), Groups(r1), c, min, max, greedy)
  {
    hide QuantCode, Size, TestInstr;
  }

  lemma {:induction false} EitherIs(canon: nat -> nat, r1: Regex, r2: Regex, back: bool, c: nat)
    ensures Groups(Either(r1, r2)) == Groups(r1) + Groups(r2)
    ensures Accepted(Either(r1, r2), c) == (Accepted(r1, c) && Accepted(r2, c + Groups(r1)))
    ensures var a, b := Code(canon, r1, back, c), Code(canon, r2, back, c + Groups(r1));
      Code(canon, Either(r1, r2), back, c) == [Split(true, Size(a) + 5)] + a + [Goto(Size(b))] + b
  {
    hide QuantCode, Size, TestInstr;
  }

  lemma {:induction false} LookIs(canon: nat -> nat, r1: Regex, negative: bool, behind: bool, back: bool, c: nat)
    ensures Groups(Look(r1, negative, behind)) == Groups(r1)
    ensures Accepted(Look(r1, negative, behind), c) == Accepted(r1, c)
    ensures var body := Code(canon, r1, behind, c);
      Code(canon, Look(r1, negative, behind), back, c) == [Lookahead(negative, Size(body) + 1)] + body + [Match]
  {
    hide QuantCode, Size, TestInstr;
  }

  lemma LookBytes(negative: bool, body: seq<Instr>)
    ensures EncodeAll([Lookahead(negative, Size(body) + 1)] + body + [Match])
         == [33 + B(negative)] + U32(Size(body) + 1) + (EncodeAll(body) + [14])
    ensures Encode(Match) == [14] && Match.Size() == 1 && |EncodeAll(body)| == Size(body) && forall v: int ::
      |U32(v)| == 4
  {
    hide EncodeAll, Size, U32;
    EncodeBetween(Lookahead(negative, Size(body) + 1), body, [Match]);
    EncodeOne(Match);
  }

  lemma SlicePrefix(pre: seq<Byte>, more: seq<Byte>, start: nat, len: nat)
    requires start + len <= |pre|
    ensures (pre + more)[start..start + len] == pre[start..start + len]
  {
  }

  lemma SliceMiddle(pre: seq<Byte>, a: seq<Byte>, post: seq<Byte>)
    ensures (pre + a + post)[|pre|..|pre| + |a|] == a
  {
  }

  lemma SimpleBytes(body: seq<Instr>, min: nat, max: nat)
    ensures EncodeAll(SimpleQuantCode(body, min, max))
         == [38] + U32(Size(body) + 1) + U32(min) + U32(max) + U32(CharCount(body)) + (EncodeAll(body) + [14])
    ensures Encode(Match) == [14] && Match.Size() == 1 && |EncodeAll(body)| == Size(body)
    ensures forall v: int :: |U32(v)| == 4
  {
    var i := SimpleGreedyQuant(Size(body) + 1, min, max, CharCount(body));
    EncodeBetween(i, body, [Match]);
    EncodeOne(Match);
    hide EncodeAll, Size, U32;
  }

  lemma PlusBytes(body: seq<Instr>, greedy: bool)
    ensures EncodeAll(PlusCode(body, greedy)) == EncodeAll(body) + ([13 - B(greedy)] + U32(-(Size(body) + 5)))
    ensures |EncodeAll(body)| == Size(body)
  {
    var i := Split(!greedy, -(Size(body) as int + 5));
    EncodeAppend(body, [i]);
    EncodeOne(i);
    hide EncodeAll, Size, U32;
  }

  lemma RepeatBytes(body: seq<Instr>, min: nat)
    ensures EncodeAll(RepeatCode(body, min)) == if min == 1 then EncodeAll(body) else
      [19] + U32(min) + EncodeAll(body) + ([18] + U32(-(Size(body) + 5)) + [20])
    ensures |EncodeAll(body)| == Size(body) && Encode(Drop) == [20] && Drop.Size() == 1
    ensures forall v: int :: |U32(v)| == 4
  {
    hide *;
    RoundBytes(body);
    if min == 1 {
      RepeatIs(body, min);
    } else {
      var s: int := Size(body);
      RepeatIs(body, min);
      LoopOps(min, -(s + 5));
      EncodeBetween(PushI32(min), body, [Loop(-(s + 5))] + [Drop]);
      EncodeAppend([Loop(-(s + 5))], [Drop]);
      EncodeOne(Loop(-(s + 5)));
      EncodeOne(Drop);
    }
  }

  lemma RepeatIs(body: seq<Instr>, min: nat)
    ensures RepeatCode(body, min) == if min == 1 then body
      else [PushI32(min)] + body + ([Loop(-(Size(body) as int + 5))] + [Drop])
  {
    hide Size;
  }

  lemma LoopOps(v: nat, offset: int)
    ensures Encode(PushI32(v)) == [19] + U32(v) && Encode(Loop(offset)) == [18] + U32(offset)
  {
    hide U32;
  }

  lemma MoreBytes(body: seq<Instr>, min: nat, max: nat, greedy: bool)
    ensures var extra := if NeedCheckAdvance(body) then 2 else 0;
      var round := RoundFront(body) + EncodeAll(body) + RoundBack(body);
      var split := [12 + B(greedy)] + U32(Size(body) + 5 + extra);
      EncodeAll(MoreCode(body, min, max, greedy)) ==
        if max == INT32_MAX then split + round + ([11] + U32(-(Size(body) + 10 + extra)))
        else if max > min then [19] + U32(max - min) + (split + round + ([18] + U32(-(Size(body) + 10 + extra)) + [20]))
        else []
  {
    hide *;
    MoreIsLoop(body, min, max, greedy);
    if max == INT32_MAX { OnceBytes(body, INT32_MAX, greedy); }
    else if max > min { CountedBytes(body, max - min, greedy); }
  }

  lemma MoreIsLoop(body: seq<Instr>, min: nat, max: nat, greedy: bool)
    ensures EncodeAll(MoreCode(body, min, max, greedy)) ==
      if max == INT32_MAX then EncodeAll(LoopCode(body, false, greedy))
      else if max > min then EncodeAll([PushI32(max - min)] + LoopCode(body, true, greedy))
      else []
    ensures INT32_MAX != 1
  {
    hide LoopCode;
  }

  lemma QuantCases(body: seq<Instr>, groups: nat, c: nat, min: nat, max: nat, greedy: bool)
    ensures var code := EncodeAll(QuantCode(body, groups, c, min, max, greedy));
      code == if greedy && max > 0 && SimpleQuantifier(body) > 0 then EncodeAll(SimpleQuantCode(body, min, max))
        else if min == 0 then EncodeAll(ResetCode(groups, c)) + EncodeAll(ZeroCode(body, max, greedy))
        else if min == 1 && max == INT32_MAX && !NeedCheckAdvance(body) then EncodeAll(PlusCode(body, greedy))
        else EncodeAll(RepeatCode(body, min)) + EncodeAll(MoreCode(body, min, max, greedy))
    ensures SimpleQuantifier(body) > 0 ==> SimpleQuantifier(body) == CharCount(body)
    ensures |EncodeAll(body)| == Size(body)
  {
    hide Size, SimpleQuantCode, PlusCode, RepeatCode, MoreCode, OptionCode, NeedCheckAdvance, U8, AllSimple, CharCount;
    EncodeAppend(ResetCode(groups, c), ZeroCode(body, max, greedy));
    EncodeAppend(RepeatCode(body, min), MoreCode(body, min, max, greedy));
  }

  lemma ResetZero(body: seq<Instr>, groups: nat, c: nat, max: nat, greedy: bool)
    ensures EncodeAll(ResetCode(groups, c)) == if groups > 0 then [17] + U8(c) + U8(c + groups - 1) else []
    ensures |EncodeAll(body)| == Size(body) && |U8(c)| == 1 && |U8(c + groups - 1)| == 1
    ensures max == 0 ==> EncodeAll(ZeroCode(body, max, greedy)) == []
  {
    hide Size, OptionCode, LoopCode, NeedCheckAdvance, U8;
    if groups > 0 { EncodeOne(SaveReset(c, c + groups - 1)); }
  }

  lemma RoundBytes(body: seq<Instr>)
    ensures RoundFront(body) == if NeedCheckAdvance(body) then [35] else []
    ensures RoundBack(body) == if NeedCheckAdvance(body) then Encode(CheckAdvance) else []
    ensures Encode(CheckAdvance) == [36] && Encode(Drop) == [20] && CheckAdvance.Size() == 1 && Drop.Size() == 1
    ensures |EncodeAll(body)| == Size(body)
    ensures forall v: int :: |U32(v)| == 4
  {
  }

  lemma OnceBytes(body: seq<Instr>, max: nat, greedy: bool)
    requires max == 1 || max == INT32_MAX
    ensures var extra := if NeedCheckAdvance(body) then 2 else 0;
      var round := RoundFront(body) + EncodeAll(body) + RoundBack(body);
      EncodeAll(if max == 1 then OptionCode(body, greedy) else LoopCode(body, false, greedy))
      == [12 + B(greedy)] + U32(Size(body) + (if max == INT32_MAX then 5 else 0) + extra) + round
         + if max == INT32_MAX then [11] + U32(-(Size(body) + 10 + extra)) else []
  {
    EncodeRound(body);
    EncodeOption(body, greedy);
    EncodeLoop(body, false, greedy);
    hide EncodeAll, LoopCode, OptionCode, RoundCode, Size, U32, NeedCheckAdvance;
  }

  lemma CountedBytes(body: seq<Instr>, rounds: nat, greedy: bool)
    ensures var extra := if NeedCheckAdvance(body) then 2 else 0;
      var round := RoundFront(body) + EncodeAll(body) + RoundBack(body);
      EncodeAll([PushI32(rounds)] + LoopCode(body, true, greedy))
      == [19] + U32(rounds) + ([12 + B(greedy)] + U32(Size(body) + 5 + extra) + round
         + ([18] + U32(-(Size(body) + 10 + extra)) + [20]))
  {
    EncodeRound(body);
    EncodeLoop(body, true, greedy);
    EncodeCounted(body, rounds, greedy);
    hide EncodeAll, LoopCode, OptionCode, RoundCode, Size, U32, NeedCheckAdvance;
  }

  lemma ZeroIsLoop(body: seq<Instr>, max: nat, greedy: bool)
    ensures max == 1 ==> ZeroCode(body, max, greedy) == OptionCode(body, greedy)
    ensures max == INT32_MAX ==> ZeroCode(body, max, greedy) == LoopCode(body, false, greedy)
    ensures max > 1 && max != INT32_MAX ==> ZeroCode(body, max, greedy) == [PushI32(max)] + LoopCode(body, true, greedy)
  {
  }

  lemma EncodeOption(body: seq<Instr>, greedy: bool)
    ensures EncodeAll(OptionCode(body, greedy))
         == Encode(Split(greedy, Size(RoundCode(body)))) + (RoundFront(body) + EncodeAll(body) + RoundBack(body))
  {
    hide Encode, EncodeAll, NeedCheckAdvance, RoundCode, Size;
    EncodeRound(body);
    EncodeAppend([Split(greedy, Size(RoundCode(body)))], RoundCode(body));
    EncodeOne(Split(greedy, Size(RoundCode(body))));
  }

  lemma EncodeCounted(body: seq<Instr>, rounds: nat, greedy: bool)
    ensures EncodeAll([PushI32(rounds)] + LoopCode(body, true, greedy))
      == Encode(PushI32(rounds)) + EncodeAll(LoopCode(body, true, greedy))
  {
    hide Encode, EncodeAll, LoopCode;
    EncodeAppend([PushI32(rounds)], LoopCode(body, true, greedy));
    EncodeOne(PushI32(rounds));
  }
}
