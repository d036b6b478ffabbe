/** Compiled byte code as a program of the machine: the operands survive encoding. */
module RegexpImage {
  import opened RegexpInput
  import opened RegexpBytecode
  import opened RegexpSyntax
  import opened RegexpCompiler
  import opened RegexpMachine
  import opened RegexpTests
  import opened RegexpEncoding
  import opened RegexpCorrectness
  import opened RegexpProgram
  import opened RegexpStack
  import opened RegexpEmit

  ghost predicate AllEncodable(code: seq<Instr>) {
    forall k :: 0 <= k < |code| ==> Encodable(code[k])
  }

  lemma EncodableAppend(a: seq<Instr>, b: seq<Instr>)
    ensures AllEncodable(a + b) <==> AllEncodable(a) && AllEncodable(b)
  {
    var ab := a + b;
    forall k | 0 <= k < |a| ensures ab[k] == a[k] {}
    forall k | 0 <= k < |b| ensures ab[|a| + k] == b[k] {}
  }

  lemma EncodableOne(i: Instr)
    requires Encodable(i)
    ensures AllEncodable([i])
  {
  }

  lemma EncodableBetween(i: Instr, body: seq<Instr>, post: seq<Instr>)
    requires Encodable(i) && AllEncodable(body) && AllEncodable(post)
    ensures AllEncodable([i] + body + post)
  {
    EncodableOne(i);
    EncodableAppend([i] + body, post);
    EncodableAppend([i], body);
  }

  lemma RoundEncodable(body: seq<Instr>)
    requires AllEncodable(body)
    ensures AllEncodable(RoundCode(body))
  {
    EncodableOne(CheckAdvance);
    EncodableBetween(PushCharPos, body, [CheckAdvance]);
  }

  lemma LoopEncodable(body: seq<Instr>, counted: bool, greedy: bool)
    requires AllEncodable(body) && Size(LoopCode(body, counted, greedy)) <= INT32_MAX
    ensures AllEncodable(LoopCode(body, counted, greedy))
  {
    hide *;
    RoundEncodable(body);
    var n: int := Size(RoundCode(body));
    LoopOperands(n, counted, greedy);
    LoopIs(body, counted, greedy);
    LoopSize(body, counted, greedy);
    if counted {
      EncodableOne(Drop);
      EncodableOne(Loop(-(n + 10)));
      EncodableAppend([Loop(-(n + 10))], [Drop]);
      EncodableBetween(Split(greedy, n + 5), RoundCode(body), [Loop(-(n + 10))] + [Drop]);
    } else {
      EncodableOne(Goto(-(n + 10)));
      EncodableBetween(Split(greedy, n + 5), RoundCode(body), [Goto(-(n + 10))]);
    }
  }

  lemma LoopOperands(n: int, counted: bool, greedy: bool)
    ensures 0 <= n && n + 10 <= INT32_MAX ==>
      Encodable(Split(greedy, n + 5)) && Encodable(Loop(-(n + 10))) && Encodable(Goto(-(n + 10)))
    ensures Encodable(Drop)
  {
  }

  lemma LoopIs(body: seq<Instr>, counted: bool, greedy: bool)
    ensures var n: int := Size(RoundCode(body));
      LoopCode(body, counted, greedy) == [Split(greedy, n + 5)] + RoundCode(body)
        + if counted then [Loop(-(n + 10))] + [Drop] else [Goto(-(n + 10))]
  {
    hide RoundCode, Size;
  }

  lemma LoopSize(body: seq<Instr>, counted: bool, greedy: bool)
    ensures Size(LoopCode(body, counted, greedy)) == Size(RoundCode(body)) + 10 + (if counted then 1 else 0)
    ensures Size(RoundCode(body)) >= Size(body)
  {
    hide *;
    LoopIs(body, counted, greedy);
    EncodeRound(body);
    var n: int := Size(RoundCode(body));
    var post := if counted then [Loop(-(n + 10))] + [Drop] else [Goto(-(n + 10))];
    SizeAppend([Split(greedy, n + 5)] + RoundCode(body), post);
    SizeAppend([Split(greedy, n + 5)], RoundCode(body));
    SizeAppend([Loop(-(n + 10))], [Drop]);
    SizeSingle(Split(greedy, n + 5));
    SizeSingle(Loop(-(n + 10)));
    SizeSingle(Goto(-(n + 10)));
    SizeSingle(Drop);
    FixedSizes(greedy, n);
  }

  lemma SizeSingle(i: Instr)
    ensures Size([i]) == i.Size()
  {
    assert [i][1..] == [];
  }

  lemma FixedSizes(greedy: bool, n: int)
    ensures Split(greedy, n + 5).Size() == 5 && Loop(-(n + 10)).Size() == 5 && Goto(-(n + 10)).Size() == 5
      && Drop.Size() == 1
  {
  }

  lemma MoreEncodable(body: seq<Instr>, min: nat, max: nat, greedy: bool)
    requires AllEncodable(body) && max <= INT32_MAX && Size(MoreCode(body, min, max, greedy)) <= INT32_MAX
    ensures AllEncodable(MoreCode(body, min, max, greedy))
  {
    hide AllEncodable, LoopCode;
    if max == INT32_MAX {
      LoopEncodable(body, false, greedy);
    } else if max > min {
      SizeAppend([PushI32(max - min)], LoopCode(body, true, greedy));
      LoopEncodable(body, true, greedy);
      EncodableOne(PushI32(max - min));
      EncodableAppend([PushI32(max - min)], LoopCode(body, true, greedy));
    } else {
      EncodableNone();
    }
  }

  lemma EncodableNone()
    ensures AllEncodable([])
  {
  }

  lemma RepeatEncodable(body: seq<Instr>, n: nat)
    requires AllEncodable(body) && n <= INT32_MAX && Size(RepeatCode(body, n)) <= INT32_MAX
    ensures AllEncodable(RepeatCode(body, n))
  {
    hide AllEncodable, RepeatCode;
    RepeatIs(body, n);
    if n != 1 {
      var s: int := Size(body);
      SizeAppend([PushI32(n)] + body, [Loop(-(s + 5))] + [Drop]);
      SizeAppend([PushI32(n)], body);
      SizeAppend([Loop(-(s + 5))], [Drop]);
      SizeSingle(Loop(-(s + 5)));
      EncodableOne(Drop);
      EncodableOne(Loop(-(s + 5)));
      EncodableAppend([Loop(-(s + 5))], [Drop]);
      EncodableBetween(PushI32(n), body, [Loop(-(s + 5))] + [Drop]);
    }
  }

  lemma {:induction false} CountAtMostSize(code: seq<Instr>)
    ensures CharCount(code) <= Size(code)
  {
    if code != [] {
      CountAtMostSize(code[1..]);
    }
  }

  lemma ZeroEncodable(body: seq<Instr>, max: nat, greedy: bool)
    requires AllEncodable(body) && max <= INT32_MAX && Size(ZeroCode(body, max, greedy)) <= INT32_MAX
    ensures AllEncodable(ZeroCode(body, max, greedy))
  {
    hide AllEncodable, MoreCode, RoundCode;
    if max == 0 {
      EncodableNone();
    } else if max == 1 {
      var split := Split(greedy, Size(RoundCode(body)));
      SizeAppend([split], RoundCode(body));
      RoundEncodable(body);
      EncodableOne(split);
      EncodableAppend([split], RoundCode(body));
    } else {
      MoreEncodable(body, 0, max, greedy);
    }
  }

  lemma QuantEncodable(body: seq<Instr>, groups: nat, c: nat, min: nat, max: nat, greedy: bool)
    requires AllEncodable(body) && min <= max <= INT32_MAX && c + groups <= 256
    requires Size(QuantCode(body, groups, c, min, max, greedy)) <= INT32_MAX
    ensures AllEncodable(QuantCode(body, groups, c, min, max, greedy))
  {
    hide AllEncodable, MoreCode, RoundCode, RepeatCode, ZeroCode, UsesSimpleQuant, NeedCheckAdvance;
    if UsesSimpleQuant(body, max, greedy) {
      var i := SimpleGreedyQuant(Size(body) + 1, min, max, CharCount(body));
      SizeAppend([i] + body, [Match]);
      SizeAppend([i], body);
      CountAtMostSize(body);
      EncodableOne(Match);
      EncodableBetween(i, body, [Match]);
    } else if min == 0 {
      SizeAppend(ResetCode(groups, c), ZeroCode(body, max, greedy));
      if groups > 0 { EncodableOne(SaveReset(c, c + groups - 1)); } else { EncodableNone(); }
      ZeroEncodable(body, max, greedy);
      EncodableAppend(ResetCode(groups, c), ZeroCode(body, max, greedy));
    } else if min == 1 && max == INT32_MAX && !NeedCheckAdvance(body) {
      var i := Split(!greedy, -(Size(body) as int + 5));
      SizeAppend(body, [i]);
      SizeSingle(i);
      EncodableOne(i);
      EncodableAppend(body, [i]);
    } else {
      SizeAppend(RepeatCode(body, min), MoreCode(body, min, max, greedy));
      RepeatEncodable(body, min);
      MoreEncodable(body, min, max, greedy);
      EncodableAppend(RepeatCode(body, min), MoreCode(body, min, max, greedy));
    }
  }

  ghost predicate CanonFits(canon: nat -> nat) {
    forall c :: canon(c) < CHAR_LIMIT
  }

  lemma TestEncodable(canon: nat -> nat, t: CharTest)
    requires CanonFits(canon) && ValidRegex(Atom(t), 0)
    ensures Encodable(TestInstr(canon, t))
  {
    if t.Class? && |t.points| > 0 {
      var i := RangeInstr(t.points, t.icase);
      PairAt(t.points, t.icase, 0);
      forall k | 0 <= k < |i.pairs|
        ensures i.pairs[k].0 <= i.pairs[k].1 < (if i.wide then TWO32 else 0x10000)
      {
        PairAt(t.points, t.icase, k);
      }
    }
  }

  lemma LeafEncodable(canon: nat -> nat, r: Regex, back: bool, c: nat, captures: nat)
    requires r.Empty? || r.Assert? || r.BackRef? || r.Atom?
    requires CanonFits(canon) && ValidRegex(r, captures) && captures <= CAPTURE_COUNT_MAX
    ensures AllEncodable(Code(canon, r, back, c))
  {
    hide AllEncodable, TestInstr;
    match r
    case Empty => EncodableNone();
    case Assert(a) => EncodableOne(Check(a));
    case BackRef(i, icase) => EncodableOne(BackReference(i, icase, back));
    case Atom(t) =>
      TestEncodable(canon, t);
      EncodableOne(TestInstr(canon, t));
      if back {
        EncodableOne(PrevChar);
        EncodableBetween(PrevChar, [TestInstr(canon, t)], [PrevChar]);
        assert Code(canon, r, back, c) == [PrevChar] + [TestInstr(canon, t)] + [PrevChar];
      }
  }

  /** Every operand of compiled code fits, if the code is not larger than a buffer can be. */
  lemma {:induction false} CodeEncodable(canon: nat -> nat, r: Regex, back: bool, c: nat, captures: nat)
    requires CanonFits(canon) && ValidRegex(r, captures) && c + Groups(r) <= captures <= CAPTURE_COUNT_MAX
    requires Size(Code(canon, r, back, c)) <= INT32_MAX
    ensures AllEncodable(Code(canon, r, back, c))
  {
    hide AllEncodable, QuantCode, TestInstr, Size, Code;
    match r
    case Empty | Assert(_) | BackRef(_, _) | Atom(_) => LeafEncodable(canon, r, back, c, captures);
    case Group(r1) =>
      GroupIs(canon, r1, back, c);
      var body := Code(canon, r1, back, c + 1);
      BetweenSize(Save(c, back), body, Save(c, !back));
      CodeEncodable(canon, r1, back, c + 1, captures);
      EncodableOne(Save(c, !back));
      EncodableBetween(Save(c, back), body, [Save(c, !back)]);
    case Sequence(r1, r2) =>
      var a, b := Code(canon, r1, back, c), Code(canon, r2, back, c + Groups(r1));
      SequenceIs(canon, r1, r2, back, c);
      SizeAppend(a, b);
      SizeAppend(b, a);
      CodeEncodable(canon, r1, back, c, captures);
      CodeEncodable(canon, r2, back, c + Groups(r1), captures);
      EncodableAppend(a, b);
      EncodableAppend(b, a);
    case Either(r1, r2) =>
      var a, b := Code(canon, r1, back, c), Code(canon, r2, back, c + Groups(r1));
      EitherIs(canon, r1, r2, back, c);
      EitherSize(a, b);
      CodeEncodable(canon, r1, back, c, captures);
      CodeEncodable(canon, r2, back, c + Groups(r1), captures);
      EitherEncodable(a, b);
    case Quantified(r1, min, max, greedy) =>
      QuantifiedIs(canon, r1, min, max, greedy, back, c);
      QuantSizes(Code(canon, r1, back, c), Groups(r1), c, min, max, greedy);
      if max > 0 {
        CodeEncodable(canon, r1, back, c, captures);
        QuantEncodable(Code(canon, r1, back, c), Groups(r1), c, min, max, greedy);
      } else {
        NoRounds(Code(canon, r1, back, c), Groups(r1), c, min, greedy);
      }
    case Look(r1, negative, behind) =>
      LookIs(canon, r1, negative, behind, back, c);
      var body := Code(canon, r1, behind, c);
      BetweenSize(Lookahead(negative, Size(body) + 1), body, Match);
      CodeEncodable(canon, r1, behind, c, captures);
      LookEncodable(negative, body);
  }

  lemma EitherSize(a: seq<Instr>, b: seq<Instr>)
    ensures Size([Split(true, Size(a) + 5)] + a + [Goto(Size(b))] + b) == Size(a) + Size(b) + 10
  {
    hide *;
    JumpSizes(Size(a) + 5, Size(b));
    SizeAppend([Split(true, Size(a) + 5)] + a + [Goto(Size(b))], b);
    BetweenSize(Split(true, Size(a) + 5), a, Goto(Size(b)));
  }

  lemma JumpSizes(i: int, j: int)
    ensures Split(true, i).Size() == 5 && Goto(j).Size() == 5
  {
  }

  lemma EitherEncodable(a: seq<Instr>, b: seq<Instr>)
    requires AllEncodable(a) && AllEncodable(b) && Size(a) + Size(b) + 10 <= INT32_MAX
    ensures AllEncodable([Split(true, Size(a) + 5)] + a + [Goto(Size(b))] + b)
  {
    hide AllEncodable, Size;
    EncodableOne(Goto(Size(b)));
    EncodableBetween(Split(true, Size(a) + 5), a, [Goto(Size(b))]);
    EncodableAppend([Split(true, Size(a) + 5)] + a + [Goto(Size(b))], b);
  }

  lemma LookEncodable(negative: bool, body: seq<Instr>)
    requires AllEncodable(body) && Size(body) + 1 <= INT32_MAX
    ensures AllEncodable([Lookahead(negative, Size(body) + 1)] + body + [Match])
  {
    hide AllEncodable, Size;
    EncodableOne(Match);
    EncodableBetween(Lookahead(negative, Size(body) + 1), body, [Match]);
  }

  lemma BetweenSize(i: Instr, body: seq<Instr>, j: Instr)
    ensures Size([i] + body + [j]) == i.Size() + Size(body) + j.Size()
  {
    SizeAppend([i] + body, [j]);
    SizeAppend([i], body);
    SizeSingle(i);
    SizeSingle(j);
  }

  /** A quantifier that may run its atom contains it. */
  lemma QuantSizes(body: seq<Instr>, groups: nat, c: nat, min: nat, max: nat, greedy: bool)
    requires min <= max
    ensures max > 0 ==> Size(body) <= Size(QuantCode(body, groups, c, min, max, greedy))
  {
    hide MoreCode, RoundCode, NeedCheckAdvance, Size;
    var i := SimpleGreedyQuant(Size(body) + 1, min, max, CharCount(body));
    BetweenSize(i, body, Match);
    SizeAppend(ResetCode(groups, c), ZeroCode(body, max, greedy));
    SizeAppend(RepeatCode(body, min), MoreCode(body, min, max, greedy));
    SizeAppend(body, [Split(!greedy, -(Size(body) as int + 5))]);
    RepeatContains(body, min);
    ZeroContains(body, max, greedy);
  }

  lemma RepeatContains(body: seq<Instr>, n: nat)
    ensures Size(body) <= Size(RepeatCode(body, n))
  {
    hide Size;
    var s: int := Size(body);
    SizeAppend([PushI32(n)] + body, [Loop(-(s + 5)), Drop]);
    SizeAppend([PushI32(n)], body);
  }

  lemma ZeroContains(body: seq<Instr>, max: nat, greedy: bool)
    ensures max > 0 ==> Size(body) <= Size(ZeroCode(body, max, greedy))
  {
    hide LoopCode, RoundCode, Size;
    LoopSize(body, true, greedy);
    LoopSize(body, false, greedy);
    SizeAppend([Split(greedy, Size(RoundCode(body)))], RoundCode(body));
    SizeAppend([PushI32(max)], LoopCode(body, true, greedy));
  }

  lemma NoRounds(body: seq<Instr>, groups: nat, c: nat, min: nat, greedy: bool)
    requires min == 0 && c + groups <= 256
    ensures AllEncodable(QuantCode(body, groups, c, min, 0, greedy))
  {
  }

  // The whole byte code.

  const BYTECODE_MAX: nat := INT32_MAX / 2

  predicate StickyFlag(flags: nat) { flags / 32 % 2 == 1 }

  /** LRE_FLAG_UNICODE or LRE_FLAG_UNICODE_SETS. */
  predicate UnicodeFlag(flags: nat) { flags / 16 % 2 == 1 || flags / 256 % 2 == 1 }

  /** What lre_compile refuses: too many captures or ranges, too deep a stack. */
  predicate Compiles(canon: nat -> nat, r: Regex, sticky: bool) {
    Accepted(r, 1) && StackSize(canon, r, sticky) <= STACK_SIZE_MAX
  }

  /** bc is a header and the program of r. */
  ghost predicate ImageOf(canon: nat -> nat, r: Regex, flags: nat, bc: seq<Byte>) {
    var sticky := StickyFlag(flags);
    && |bc| >= HEADER_LEN
    && GetU16(bc) == flags
    && bc[2] == 1 + Groups(r)
    && bc[3] == StackSize(canon, r, sticky)
    && bc[HEADER_LEN..] == EncodeAll(ProgramCode(canon, r, sticky))
    && GetU32(bc[4..]) == (|bc| - HEADER_LEN) % TWO32
  }

  lemma AcceptedGroups(r: Regex, c: nat)
    requires Accepted(r, c) && c <= CAPTURE_COUNT_MAX
    ensures c + Groups(r) <= CAPTURE_COUNT_MAX
  {
  }

  /** The search prefix, the pattern as group 0, and the end, behind what s holds. */
  method EmitProgram(s: REParseState, r: Regex, isSticky: bool) returns (ok: bool)
    requires s.captureCount == 1
    modifies s`byteCode, s`captureCount
    ensures ok == Accepted(r, 1)
    ensures ok ==> s.captureCount == 1 + Groups(r)
    ensures ok ==> s.byteCode == old(s.byteCode) + EncodeAll(ProgramCode(s.canon, r, isSticky))
  {
    hide *;
    ghost var header := s.byteCode;
    EmitPrefix(s, isSticky);
    s.Emit(Save(0, false));
    ok := s.EmitRegex(r, false);
    if !ok { return; }
    s.Emit(Save(0, true));
    s.Emit(Match);
    ProgramBytes(s.canon, r, isSticky);
    JoinSix(header, EncodeAll(SearchPrefix(isSticky)), EncodeAll([Save(0, false)]),
            EncodeAll(Code(s.canon, r, false, 1)), EncodeAll([Save(0, true)]), EncodeAll([Match]));
  }

  method EmitPrefix(s: REParseState, isSticky: bool)
    modifies s`byteCode
    ensures s.byteCode == old(s.byteCode) + EncodeAll(SearchPrefix(isSticky))
  {
    hide EncodeAll, Encode, U32;
    PrefixBytes();
    if !isSticky {
      var _ := s.EmitOpU32(12, 1 + 5);
      s.EmitOp(Any);
      var _ := s.EmitOpU32(11, -(5 + 1 + 5));
    }
  }

  lemma JoinSix(a: seq<Byte>, b: seq<Byte>, c: seq<Byte>, d: seq<Byte>, e: seq<Byte>, f: seq<Byte>)
    ensures a + b + c + d + e + f == a + (b + c + d + e + f)
  {
  }

  /** lre_compile, from the tree of a pattern.  The header is patched at the end. */
  method LreCompile(canon: nat -> nat, r: Regex, flags: nat) returns (bc: seq<Byte>, ok: bool)
    requires flags < 0x10000
    ensures ok == Compiles(canon, r, StickyFlag(flags))
    ensures ok ==> ImageOf(canon, r, flags, bc)
  {
    hide EncodeAll, Accepted, U32, U16, MaxDepth, Scannable, GetU32, GetU16, ProgramCode, StickyFlag;
    var s := new REParseState(canon);
    var isSticky := StickyFlag(flags);
    s.Put(U16(flags) + [0, 0] + U32(0));
    bc := [];
    ok := EmitProgram(s, r, isSticky);
    if !ok { return; }
    ghost var code := ProgramCode(canon, r, isSticky);
    assert s.byteCode[HEADER_LEN..] == EncodeAll(code);
    AcceptedGroups(r, 1);
    ProgramScannable(canon, r, isSticky);
    ProgramCodeFlow(canon, r, isSticky);
    FlowDepths(code);
    var body := s.byteCode[HEADER_LEN..];
    var stackSize := ComputeStackSize(body, code);
    if stackSize < 0 {
      return [], false;
    }
    bc := U16(flags) + [s.captureCount, stackSize] + U32(|s.byteCode| - HEADER_LEN) + body;
    HeaderBack(flags, s.captureCount, stackSize, |body|, body);
  }

  lemma FlowDepths(code: seq<Instr>)
    requires ProgramFlow(code)
    ensures forall k :: 0 <= k <= |code| ==> Depth(code, k) >= 0
    ensures 0 <= MaxDepth(code, 0)
  {
  }

  lemma HeaderBack(flags: nat, captures: Byte, stack: Byte, len: nat, body: seq<Byte>)
    requires flags < 0x10000
    ensures var bc := U16(flags) + [captures, stack] + U32(len) + body;
      && |bc| == HEADER_LEN + |body| && GetU16(bc) == flags && bc[2] == captures && bc[3] == stack
      && GetU32(bc[4..]) == len % TWO32 && bc[HEADER_LEN..] == body
  {
    hide U16, U32, GetU16, GetU32;
    var bc := U16(flags) + [captures, stack] + U32(len) + body;
    assert bc == U16(flags) + ([captures, stack] + U32(len) + body);
    U16Back(flags, [captures, stack] + U32(len) + body);
    assert bc[4..] == U32(len) + body;
    U32Back(len, body);
  }

  function SearchPrefix(sticky: bool): seq<Instr> {
    if sticky then [] else [Split(false, 6), Any, Goto(-11)]
  }

  lemma PrefixBytes()
    ensures EncodeAll([Split(false, 6), Any, Goto(-11)]) == [12] + U32(6) + Encode(Any) + ([11] + U32(-11))
    ensures EncodeAll([]) == [] && Any.Size() == 1
  {
    hide U32, EncodeAll;
    assert [Split(false, 6), Any, Goto(-11)] == [Split(false, 6)] + [Any] + [Goto(-11)];
    EncodeBetween(Split(false, 6), [Any], [Goto(-11)]);
    EncodeOne(Any);
    EncodeOne(Goto(-11));
    NoBytes();
  }

  lemma NoBytes()
    ensures EncodeAll([]) == []
  {
  }

  lemma ProgramBytes(canon: nat -> nat, r: Regex, sticky: bool)
    ensures EncodeAll(ProgramCode(canon, r, sticky))
         == EncodeAll(SearchPrefix(sticky)) + EncodeAll([Save(0, false)]) + EncodeAll(Code(canon, r, false, 1))
            + EncodeAll([Save(0, true)]) + EncodeAll([Match])
  {
    hide EncodeAll, Code;
    var prefix, code := SearchPrefix(sticky), Code(canon, r, false, 1);
    assert ProgramCode(canon, r, sticky) == prefix + [Save(0, false)] + code + [Save(0, true)] + [Match];
    EncodeAppend(prefix + [Save(0, false)] + code + [Save(0, true)], [Match]);
    EncodeAppend(prefix + [Save(0, false)] + code, [Save(0, true)]);
    EncodeAppend(prefix + [Save(0, false)], code);
    EncodeAppend(prefix, [Save(0, false)]);
  }

  lemma ProgramScannable(canon: nat -> nat, r: Regex, sticky: bool)
    requires Accepted(r, 1)
    ensures Scannable(ProgramCode(canon, r, sticky))
  {
    CodeScannable(canon, r, false, 1);
    hide Code;
  }

  /** The image of a pattern, disassembled, is the program the machine is proved about. */
  lemma ImageLoaded(inp: Input, r: Regex, flags: nat, bc: seq<Byte>)
    requires ValidInput(inp) && ImageOf(inp.canon, r, flags, bc) && |bc| <= BYTECODE_MAX
    requires ValidRegex(r, 1 + Groups(r)) && Compiles(inp.canon, r, StickyFlag(flags))
    ensures Loaded(Machine(inp, Disassemble(bc[HEADER_LEN..]), bc[2]), r, StickyFlag(flags))
  {
    hide Disassemble, Code, EncodeAll, ValidRegex, Accepted, MaxDepth, GetU32, GetU16;
    var sticky := StickyFlag(flags);
    var code := ProgramCode(inp.canon, r, sticky);
    AcceptedGroups(r, 1);
    ProgramEncodable(inp, r, sticky);
    var bytes := bc[HEADER_LEN..];
    assert bytes[0..] == EncodeAll(code) + [];
    DisassembleHolds(bytes, 0, code, []);
  }

  lemma ProgramEncodable(inp: Input, r: Regex, sticky: bool)
    requires ValidInput(inp) && ValidRegex(r, 1 + Groups(r)) && 1 + Groups(r) <= CAPTURE_COUNT_MAX
    requires Size(ProgramCode(inp.canon, r, sticky)) <= INT32_MAX
    ensures AllEncodable(ProgramCode(inp.canon, r, sticky))
  {
    hide Code, AllEncodable, ValidRegex, Size;
    var prefix, group := SearchPrefix(sticky), Code(inp.canon, Group(r), false, 0);
    GroupCode(inp.canon, r);
    assert ProgramCode(inp.canon, r, sticky) == prefix + group + [Match];
    SizeAppend(prefix + group, [Match]);
    SizeAppend(prefix, group);
    GroupValid(r);
    CodeEncodable(inp.canon, Group(r), false, 0, 1 + Groups(r));
    PrefixEncodable(sticky);
    EncodableAppend(prefix, group);
    EncodableOne(Match);
    EncodableAppend(prefix + group, [Match]);
  }

  lemma GroupCode(canon: nat -> nat, r: Regex)
    ensures Code(canon, Group(r), false, 0) == [Save(0, false)] + Code(canon, r, false, 1) + [Save(0, true)]
  {
  }

  lemma GroupValid(r: Regex)
    requires ValidRegex(r, 1 + Groups(r))
    ensures ValidRegex(Group(r), 1 + Groups(r)) && Groups(Group(r)) == 1 + Groups(r)
  {
  }

  lemma PrefixEncodable(sticky: bool)
    ensures AllEncodable(SearchPrefix(sticky))
  {
  }
}
