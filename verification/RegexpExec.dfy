/** The matcher itself: the loop of lre_exec_backtrack over byte code, registers, a stack
    buffer of the computed size, a capture buffer and the growing list of choice points. */
module RegexpExec {
  import opened Options
  import opened RegexpInput
  import opened RegexpBytecode
  import opened RegexpSyntax
  import opened RegexpCompiler
  import opened RegexpMachine
  import opened RegexpTests
  import opened RegexpEncoding
  import opened RegexpProgram
  import opened RegexpStack
  import opened RegexpEmit
  import opened RegexpImage

  // Range tables are sorted, so that they can be searched by halving.

  ghost predicate TableOk(i: Instr) {
    i.Range? ==> |i.pairs| > 0 && SortedPairs(i.pairs)
  }

  ghost predicate TablesOk(code: seq<Instr>) {
    forall k :: 0 <= k < |code| ==> TableOk(code[k])
  }

  lemma TablesAppend(a: seq<Instr>, b: seq<Instr>)
    requires TablesOk(a) && TablesOk(b)
    ensures TablesOk(a + b)
  {
    var ab := a + b;
    forall k | 0 <= k < |ab| ensures TableOk(ab[k]) {
      if k < |a| { assert TableOk(a[k]); } else { assert TableOk(b[k - |a|]); }
    }
  }

  lemma TablesOne(i: Instr)
    requires TableOk(i)
    ensures TablesOk([i])
  {
  }

  lemma TablesBetween(i: Instr, body: seq<Instr>, post: seq<Instr>)
    requires TableOk(i) && TablesOk(body) && TablesOk(post)
    ensures TablesOk([i] + body + post)
  {
    hide TablesOk;
    TablesOne(i);
    TablesAppend([i], body);
    TablesAppend([i] + body, post);
  }

  lemma NoTables(code: seq<Instr>)
    requires forall k :: 0 <= k < |code| ==> !code[k].Range?
    ensures TablesOk(code)
  {
  }

  lemma QuantTables(body: seq<Instr>, groups: nat, c: nat, min: nat, max: nat, greedy: bool)
    requires TablesOk(body)
    ensures TablesOk(QuantCode(body, groups, c, min, max, greedy))
  {
    hide TablesOk, Size, NeedCheckAdvance, UsesSimpleQuant, SimpleQuantifier, CharCount;
    var round := RoundCode(body);
    NoTables([CheckAdvance]);
    TablesBetween(PushCharPos, body, [CheckAdvance]);
    assert TablesOk(round);
    hide RoundCode;
    var n: int := Size(round);
    NoTables([Goto(-(n + 10))]);
    NoTables([Loop(-(n + 10)), Drop]);
    TablesBetween(Split(greedy, n + 5), round, [Goto(-(n + 10))]);
    TablesBetween(Split(greedy, n + 5), round, [Loop(-(n + 10)), Drop]);
    NoTables([]);
    assert TablesOk(LoopCode(body, false, greedy)) && TablesOk(LoopCode(body, true, greedy));
    hide LoopCode;
    if max > min {
      NoTables([PushI32(max - min)]);
      TablesAppend([PushI32(max - min)], LoopCode(body, true, greedy));
    }
    NoTables([PushI32(max)]);
    TablesAppend([PushI32(max)], LoopCode(body, true, greedy));
    NoTables([Split(greedy, n)]);
    TablesAppend([Split(greedy, n)], round);
    assert TablesOk(MoreCode(body, min, max, greedy)) && TablesOk(ZeroCode(body, max, greedy));
    hide MoreCode, ZeroCode;
    NoTables(ResetCode(groups, c));
    TablesAppend(ResetCode(groups, c), ZeroCode(body, max, greedy));
    var s: int := Size(body);
    NoTables([Loop(-(s + 5)), Drop]);
    TablesBetween(PushI32(min), body, [Loop(-(s + 5)), Drop]);
    assert TablesOk(RepeatCode(body, min));
    hide RepeatCode;
    TablesAppend(RepeatCode(body, min), MoreCode(body, min, max, greedy));
    NoTables([Split(!greedy, -(s + 5))]);
    TablesAppend(body, [Split(!greedy, -(s + 5))]);
    NoTables([Match]);
    TablesBetween(SimpleGreedyQuant(Size(body) + 1, min, max, CharCount(body)), body, [Match]);
  }

  lemma {:induction false} CodeTables(canon: nat -> nat, r: Regex, back: bool, c: nat, captures: nat)
    requires ValidRegex(r, captures)
    ensures TablesOk(Code(canon, r, back, c))
  {
    hide TablesOk, QuantCode, TestInstr, Size;
    match r
    case Empty => NoTables([]);
    case Assert(a) => NoTables([Check(a)]);
    case BackRef(i, icase) => NoTables([BackReference(i, icase, back)]);
    case Atom(t) =>
      TestTable(canon, t);
      TablesOne(TestInstr(canon, t));
      if back {
        NoTables([PrevChar]);
        TablesBetween(PrevChar, [TestInstr(canon, t)], [PrevChar]);
        assert Code(canon, r, back, c) == [PrevChar] + [TestInstr(canon, t)] + [PrevChar];
      }
    case Group(r1) =>
      CodeTables(canon, r1, back, c + 1, captures);
      NoTables([Save(c, !back)]);
      TablesBetween(Save(c, back), Code(canon, r1, back, c + 1), [Save(c, !back)]);
    case Sequence(r1, r2) =>
      CodeTables(canon, r1, back, c, captures);
      CodeTables(canon, r2, back, c + Groups(r1), captures);
      TablesAppend(Code(canon, r1, back, c), Code(canon, r2, back, c + Groups(r1)));
      TablesAppend(Code(canon, r2, back, c + Groups(r1)), Code(canon, r1, back, c));
    case Either(r1, r2) =>
      CodeTables(canon, r1, back, c, captures);
      CodeTables(canon, r2, back, c + Groups(r1), captures);
      var c1, c2 := Code(canon, r1, back, c), Code(canon, r2, back, c + Groups(r1));
      NoTables([Goto(Size(c2))]);
      TablesBetween(Split(true, Size(c1) + 5), c1, [Goto(Size(c2))]);
      TablesAppend([Split(true, Size(c1) + 5)] + c1 + [Goto(Size(c2))], c2);
    case Quantified(r1, min, max, greedy) =>
      CodeTables(canon, r1, back, c, captures);
      QuantTables(Code(canon, r1, back, c), Groups(r1), c, min, max, greedy);
    case Look(r1, negative, behind) =>
      CodeTables(canon, r1, behind, c, captures);
      NoTables([Match]);
      TablesBetween(Lookahead(negative, Size(Code(canon, r1, behind, c)) + 1), Code(canon, r1, behind, c), [Match]);
  }

  lemma TestTable(canon: nat -> nat, t: CharTest)
    requires ValidRegex(Atom(t), 0)
    ensures TableOk(TestInstr(canon, t))
  {
    if t.Class? && |t.points| > 0 {
      RangeSorted(t.points, t.icase);
      PairAt(t.points, t.icase, 0);
    }
  }

  lemma ProgramTables(canon: nat -> nat, r: Regex, sticky: bool, captures: nat)
    requires ValidRegex(r, captures)
    ensures TablesOk(ProgramCode(canon, r, sticky))
  {
    hide TablesOk, Code;
    var prefix, code := SearchPrefix(sticky), Code(canon, r, false, 1);
    assert ProgramCode(canon, r, sticky) == prefix + [Save(0, false)] + code + [Save(0, true), Match];
    CodeTables(canon, r, false, 1, captures);
    NoTables(prefix + [Save(0, false)]);
    NoTables([Save(0, true), Match]);
    TablesAppend(prefix + [Save(0, false)], code);
    TablesAppend(prefix + [Save(0, false)] + code, [Save(0, true), Match]);
  }

  /** The search in a range table: the first and the last interval decide most cases, the
      rest is halving.  The index idx - 1 is never taken below 0. */
  method RangeSearch(pairs: seq<(nat, nat)>, wide: bool, c: nat) returns (hit: bool)
    requires |pairs| > 0 && SortedPairs(pairs)
    ensures hit == RangeHit(pairs, wide, c)
  {
    var n := |pairs|;
    var idxMin: nat := 0;
    if c < pairs[0].0 {
      assert forall k :: 0 < k < n ==> pairs[0].1 < pairs[k].0;
      return false;
    }
    var idxMax: nat := n - 1;
    var high := pairs[idxMax].1;
    if !wide && c >= 0xffff && high == 0xffff {
      return true;
    }
    if c > high {
      assert forall k :: 0 <= k < n - 1 ==> pairs[k].1 < pairs[n - 1].0;
      return false;
    }
    while idxMin <= idxMax
      invariant 0 <= idxMin <= idxMax + 1 && idxMax < n
      invariant pairs[0].0 <= c
      invariant forall k :: 0 <= k < idxMin ==> pairs[k].1 < c
      invariant forall k :: idxMax < k < n ==> c < pairs[k].0
      decreases idxMax + 1 - idxMin
    {
      var idx := (idxMin + idxMax) / 2;
      if c < pairs[idx].0 {
        assert idx > 0;
        idxMax := idx - 1;
      } else if c > pairs[idx].1 {
        idxMin := idx + 1;
      } else {
        return true;
      }
    }
    return false;
  }

  // The buffers and what they stand for.

  /** The captures that are set in a capture buffer. */
  function Caps(buf: seq<Option<nat>>): map<nat, nat> {
    map k: nat | k < |buf| && buf[k].Some? :: buf[k].value
  }

  lemma CapsSet(buf: seq<Option<nat>>, k: nat, v: nat)
    requires k < |buf|
    ensures Caps(buf[k := Some(v)]) == Caps(buf)[k := v]
  {
  }

  lemma CapsReset(buf: seq<Option<nat>>, buf1: seq<Option<nat>>, first: nat, last: nat)
    requires |buf| == |buf1|
    requires forall k :: 0 <= k < |buf| ==> buf1[k] == if 2 * first <= k <= 2 * last + 1 then None else buf[k]
    ensures Caps(buf1) == ResetCaps(Caps(buf), first, last)
  {
  }

  /** A choice point as it is stored: copies of both buffers. */
  datatype ExecState = ExecState(kind: FrameKind, count: nat, cptr: nat, pc: int, capture: seq<Option<nat>>,
    stack: seq<nat>)

  function FrameOf(e: ExecState): Frame {
    Frame(e.kind, e.count, State(e.cptr, Caps(e.capture)), e.pc, e.stack)
  }

  function FramesOf(es: seq<ExecState>): (fs: seq<Frame>)
    ensures |fs| == |es| && forall k :: 0 <= k < |es| ==> fs[k] == FrameOf(es[k])
  {
    seq(|es|, k requires 0 <= k < |es| => FrameOf(es[k]))
  }

  lemma FramesPush(es: seq<ExecState>, e: ExecState)
    ensures FramesOf(es + [e]) == FramesOf(es) + [FrameOf(e)]
  {
  }

  lemma FramesPop(es: seq<ExecState>)
    requires es != []
    ensures FramesOf(es[..|es| - 1]) == FramesOf(es)[..|es| - 1]
    ensures FramesOf(es)[|es| - 1] == FrameOf(es[|es| - 1])
  {
  }

  datatype Outcome = Continue | Failed | Matched

  class REExecContext {
    const inp: Input
    const bc: seq<Byte>
    const captureCount: nat
    const capture: array<Option<nat>>
    const stack: array<nat>
    var stateStack: seq<ExecState>
    var pc: int
    var cptr: nat
    var stackLen: nat

    constructor (inp: Input, bc: seq<Byte>, captureCount: nat, stackSizeMax: nat, cptr: nat)
      ensures this.inp == inp && this.bc == bc && this.captureCount == captureCount && stack.Length == stackSizeMax
      ensures fresh(capture) && fresh(stack) && Valid()
      ensures Abs() == Run(0, State(cptr, map[]), [], [])
    {
      this.inp, this.bc, this.captureCount := inp, bc, captureCount;
      capture := new Option<nat>[2 * captureCount](_ => None);
      stack := new nat[stackSizeMax];
      stateStack, pc, this.cptr, stackLen := [], 0, cptr, 0;
      new;
      assert Caps(capture[..]) == map[];
    }

    ghost predicate Valid()
      reads this
    {
      && capture.Length == 2 * captureCount
      && stackLen <= stack.Length
      && (forall k :: 0 <= k < |stateStack| ==>
        |stateStack[k].capture| == capture.Length && |stateStack[k].stack| <= stack.Length)
    }

    ghost function M(): Machine {
      Machine(inp, Disassemble(bc), captureCount)
    }

    ghost function Here(): State
      reads this, capture
    {
      State(cptr, Caps(capture[..]))
    }

    ghost function Abs(): Config
      reads this, capture, stack
      requires stackLen <= stack.Length
    {
      Run(pc, Here(), stack[..stackLen], FramesOf(stateStack))
    }

    /** The registers and buffers after an instruction agree with the machine. */
    ghost predicate After(out: Outcome, cfg: Config)
      reads this, capture, stack
    {
      Valid() && match cfg
        case Run(_, _, _, _) => out == Continue && Abs() == cfg
        case Fail(frames) => out == Failed && FramesOf(stateStack) == frames
        case Succeed(caps, frames) => out == Matched && Caps(capture[..]) == caps && FramesOf(stateStack) == frames
        case Done(_) | Stuck => false
    }

    /** push_state: a copy of the buffers with the given address. */
    method PushState(kind: FrameKind, count: nat, pc1: int)
      requires Valid()
      modifies this`stateStack
      ensures Valid() && FramesOf(stateStack) == FramesOf(old(stateStack)) + [Frame(kind, count, Here(), pc1,
        stack[..stackLen])]
    {
      var e := ExecState(kind, count, cptr, pc1, capture[..], stack[..stackLen]);
      FramesPush(stateStack, e);
      stateStack := stateStack + [e];
    }

    /** Restores the stack buffer of a choice point. */
    method RestoreStack(xs: seq<nat>)
      requires |xs| <= stack.Length
      modifies stack, this`stackLen
      ensures stackLen == |xs| && stack[..stackLen] == xs
    {
      stackLen := |xs|;
      for k := 0 to |xs|
        invariant stackLen == |xs| && stack[..k] == xs[..k]
      {
        stack[k] := xs[k];
      }
    }

    /** Restores the capture buffer of a choice point. */
    method RestoreCapture(xs: seq<Option<nat>>)
      requires |xs| == capture.Length
      modifies capture
      ensures capture[..] == xs
    {
      for k := 0 to |xs|
        invariant capture[..k] == xs[..k]
      {
        capture[k] := xs[k];
      }
    }

    // Characters and assertions.

    method TestChar(i: Instr, c: nat) returns (ok: bool)
      requires i.IsSimpleChar() && TableOk(i)
      ensures ok == CharMatches(inp, i, c)
    {
      match i
      case Char(val, _, icase) => ok := Fold(inp, icase, c) == val;
      case Range(pairs, wide, icase) => ok := RangeSearch(pairs, wide, Fold(inp, icase, c));
      case Dot => ok := !IsLineTerminator(c);
      case Any => ok := true;
    }

    /** A character test or an assertion at a position. */
    method RunSimple(i: Instr, pos: nat) returns (r: Option<nat>)
      requires i.IsSimple() && TableOk(i) && pos <= |inp.units|
      ensures r == SimpleStep(inp, i, pos)
    {
      if i.Check? {
        r := if Satisfied(inp, i.a, pos) then Some(pos) else None;
      } else if pos >= |inp.units| {
        r := None;
      } else {
        var ok := TestChar(i, CharAt(inp, pos));
        r := if ok then Some(Next(inp, pos)) else None;
      }
    }

    // Instructions.  Each method does to the registers what the machine does to its state.

    ghost function Stepped(i: Instr): Config
      reads this, capture, stack
      requires Valid() && cptr <= |inp.units|
    {
      StepInstr(M(), i, pc, Here(), stack[..stackLen], FramesOf(stateStack))
    }

    ghost predicate CanStep(i: Instr)
      reads this, capture, stack
    {
      && Valid() && cptr <= |inp.units| && TableOk(i)
      && Stepped(i) != Stuck
      && (Stepped(i).Run? ==> |Stepped(i).stack| <= stack.Length)
    }

    method ExecSimple(i: Instr) returns (out: Outcome)
      requires CanStep(i) && i.IsSimple()
      modifies this`pc, this`cptr
      ensures After(out, old(Stepped(i)))
    {
      var p := RunSimple(i, cptr);
      if p.None? { return Failed; }
      pc, cptr := pc + i.Size(), p.value;
      return Continue;
    }

    method ExecSplit(nextFirst: bool, offset: int) returns (out: Outcome)
      requires CanStep(Split(nextFirst, offset))
      modifies this`pc, this`stateStack
      ensures After(out, old(Stepped(Split(nextFirst, offset))))
    {
      var next := pc + 5;
      if nextFirst {
        PushState(SplitFrame, 0, next + offset);
        pc := next;
      } else {
        PushState(SplitFrame, 0, next);
        pc := next + offset;
      }
      return Continue;
    }

    method ExecGoto(offset: int) returns (out: Outcome)
      requires CanStep(Goto(offset))
      modifies this`pc
      ensures After(out, old(Stepped(Goto(offset))))
    {
      pc := pc + 5 + offset;
      return Continue;
    }

    method ExecMatch() returns (out: Outcome)
      requires CanStep(Match)
      ensures After(out, Stepped(Match))
    {
      return Matched;
    }

    method ExecLookahead(negative: bool, offset: int) returns (out: Outcome)
      requires CanStep(Lookahead(negative, offset))
      modifies this`pc, this`stateStack
      ensures After(out, old(Stepped(Lookahead(negative, offset))))
    {
      PushState(if negative then NegativeLookFrame else LookFrame, 0, pc + 5 + offset);
      pc := pc + 5;
      return Continue;
    }

    method ExecSave(index: nat, isEnd: bool) returns (out: Outcome)
      requires CanStep(Save(index, isEnd))
      modifies this`pc, capture
      ensures After(out, old(Stepped(Save(index, isEnd))))
    {
      var k := 2 * index + (if isEnd then 1 else 0);
      CapsSet(capture[..], k, cptr);
      assert capture[..][k := Some(cptr)] == capture[..k] + [Some(cptr)] + capture[k + 1..];
      capture[k] := Some(cptr);
      assert capture[..] == old(capture[..])[k := Some(cptr)];
      pc := pc + 2;
      return Continue;
    }

    method ExecSaveReset(first: nat, last: nat) returns (out: Outcome)
      requires CanStep(SaveReset(first, last))
      modifies this`pc, capture
      ensures After(out, old(Stepped(SaveReset(first, last))))
    {
      var val := first;
      while val <= last
        invariant first <= val && pc == old(pc)
        invariant forall k :: 0 <= k < capture.Length ==>
          capture[k] == if 2 * first <= k < 2 * val then None else old(capture[k])
        invariant val <= last + 1 || val == first
        decreases last + 1 - val
      {
        capture[2 * val] := None;
        capture[2 * val + 1] := None;
        val := val + 1;
      }
      CapsReset(old(capture[..]), capture[..], first, last);
      assert stack[..stackLen] == old(stack[..stackLen]);
      pc := pc + 3;
      return Continue;
    }

    method ExecLoop(offset: int) returns (out: Outcome)
      requires CanStep(Loop(offset))
      modifies this`pc, stack
      ensures After(out, old(Stepped(Loop(offset))))
    {
      stack[stackLen - 1] := stack[stackLen - 1] - 1;
      assert stack[..stackLen] == old(stack[..stackLen])[..stackLen - 1] + [stack[stackLen - 1]];
      pc := pc + 5;
      if stack[stackLen - 1] != 0 {
        pc := pc + offset;
      }
      return Continue;
    }

    method Push(i: Instr, v: nat) returns (out: Outcome)
      requires CanStep(i) && (i == PushI32(v) || (i == PushCharPos && v == cptr))
      modifies this`pc, this`stackLen, stack
      ensures After(out, old(Stepped(i)))
    {
      assert |Stepped(i).stack| == stackLen + 1;
      stack[stackLen] := v;
      stackLen := stackLen + 1;
      assert stack[..stackLen] == old(stack[..stackLen]) + [v];
      pc := pc + i.Size();
      return Continue;
    }

    method Pop(i: Instr) returns (out: Outcome)
      requires CanStep(i) && (i == Drop || i == CheckAdvance)
      modifies this`pc, this`stackLen
      ensures After(out, old(Stepped(i)))
    {
      stackLen := stackLen - 1;
      assert stack[..stackLen] == old(stack[..stackLen])[..stackLen];
      if i == CheckAdvance && stack[stackLen] == cptr { return Failed; }
      pc := pc + 1;
      return Continue;
    }

    method ExecBackReference(i: Instr) returns (out: Outcome)
      requires CanStep(i) && i.BackReference?
      modifies this`pc, this`cptr
      ensures After(out, old(Stepped(i)))
    {
      if i.index >= captureCount { return Failed; }
      var e := RefEnd(inp, i.index, i.icase, i.backward, State(cptr, Caps(capture[..])));
      if e.None? { return Failed; }
      pc, cptr := pc + 2, e.value;
      return Continue;
    }

    method ExecPrev() returns (out: Outcome)
      requires CanStep(PrevChar)
      modifies this`pc, this`cptr
      ensures After(out, old(Stepped(PrevChar)))
    {
      if cptr == 0 { return Failed; }
      pc, cptr := pc + 1, Prev(inp, cptr);
      return Continue;
    }

    // The simple quantifier.

    ghost predicate ProgramOk(code: seq<Instr>)
      reads this
    {
      && ProgramFlow(code) && Holds(M().prog, 0, code) && TablesOk(code)
      && MaxDepth(code, 0) <= stack.Length
    }

    /** Reads the instruction at an address of the code. */
    method Fetched(p: int, ghost code: seq<Instr>, ghost depth: int) returns (i: Instr)
      requires ProgramOk(code) && AtDepth(code, p, depth)
      ensures Fetch(M().prog, p) == Some(i) && TableOk(i) && 0 <= p < |bc|
      ensures !i.Match? ==> AtDepth(code, p + i.Size(), depth + i.Delta())
    {
      hide Decode, ProgramFlow, AtDepth, TablesOk, MaxDepth;
      ghost var j := AtInstr(M(), code, p, depth);
      TableAt(M(), code, p, depth);
      DisassembleAt(bc, p);
      i := Decode(bc[p..]).value;
    }

    /** lre_exec_backtrack with no_recurse: the body of a simple quantifier. */
    method ExecBody(pc1: int, pos: nat, ghost code: seq<Instr>, ghost depth: int) returns (r: BodyResult)
      requires ProgramOk(code) && AtDepth(code, pc1, depth) && pos <= |inp.units|
      requires RunBody(M(), pc1, pos) != BadBody
      ensures r == RunBody(M(), pc1, pos)
    {
      hide ProgramOk, AtDepth, SimpleStep, TableOk;
      var p: int, q: nat := pc1, pos;
      ghost var d := depth;
      while true
        invariant ProgramOk(code) && AtDepth(code, p, d) && q <= |inp.units|
        invariant RunBody(M(), p, q) == RunBody(M(), pc1, pos)
        decreases |bc| - p
      {
        var i := Fetched(p, code, d);
        if i.Match? {
          return Reached(q);
        }
        var next := RunSimple(i, q);
        if next.None? {
          return BodyResult.NoMatch;
        }
        p, q, d := p + i.Size(), next.value, d + i.Delta();
      }
    }

    method CountRounds(pc1: int, max: nat, ghost code: seq<Instr>, ghost depth: int) returns (q: nat, pos: nat)
      requires ProgramOk(code) && AtDepth(code, pc1, depth) && cptr <= |inp.units|
      requires CountBody(M(), pc1, cptr, 0, max) != BadCount
      ensures CountBody(M(), pc1, cptr, 0, max) == Counted(q, pos)
    {
      hide ProgramOk, AtDepth, RunBody;
      q, pos := 0, cptr;
      while true
        invariant pos <= |inp.units|
        invariant CountBody(M(), pc1, pos, q, max) == CountBody(M(), pc1, cptr, 0, max)
        decreases |inp.units| - pos
      {
        var r := ExecBody(pc1, pos, code, depth);
        if !r.Reached? { return; }
        pos, q := r.pos, q + 1;
        if q >= max && max != INT32_MAX { return; }
      }
    }

    method ExecQuant(i: Instr, ghost code: seq<Instr>) returns (out: Outcome)
      requires CanStep(i) && i.SimpleGreedyQuant? && ProgramOk(code)
      requires AtDepth(code, pc + 17, stackLen)
      modifies this`pc, this`cptr, this`stateStack
      ensures After(out, old(Stepped(i)))
    {
      hide ProgramOk, AtDepth, CountBody, Decode;
      var q, pos := CountRounds(pc + 17, i.max, code, stackLen);
      if q < i.min { return Failed; }
      cptr := pos;
      if q > i.min {
        PushState(QuantFrame, q - i.min, pc);
      }
      pc := pc + 17 + i.offset;
      return Continue;
    }

    /** One instruction. */
    method ExecInstr(i: Instr, ghost code: seq<Instr>) returns (out: Outcome)
      requires CanStep(i) && ProgramOk(code)
      requires i.SimpleGreedyQuant? ==> AtDepth(code, pc + 17, stackLen)
      modifies this`pc, this`cptr, this`stackLen, this`stateStack, stack, capture
      ensures After(out, old(Stepped(i)))
    {
      hide CanStep, ProgramOk, AtDepth, After, Stepped;
      if i.IsSimple() {
        out := ExecSimple(i);
      } else {
        match i
        case Goto(offset) => out := ExecGoto(offset);
        case Split(nextFirst, offset) => out := ExecSplit(nextFirst, offset);
        case Match => out := ExecMatch();
        case Save(index, isEnd) => out := ExecSave(index, isEnd);
        case SaveReset(first, last) => out := ExecSaveReset(first, last);
        case Loop(offset) => out := ExecLoop(offset);
        case PushI32(v) => out := Push(i, v);
        case Drop => out := Pop(i);
        case BackReference(_, _, _) => out := ExecBackReference(i);
        case Lookahead(negative, offset) => out := ExecLookahead(negative, offset);
        case PushCharPos => out := Push(i, cptr);
        case CheckAdvance => out := Pop(i);
        case PrevChar => out := ExecPrev();
        case SimpleGreedyQuant(_, _, _, _) => out := ExecQuant(i, code);
      }
    }

    // Choice points.

    method RestoreFrame(rs: ExecState, withCapture: bool)
      requires |rs.stack| <= stack.Length && |rs.capture| == capture.Length
      modifies this`pc, this`cptr, this`stackLen, stack, capture
      ensures pc == rs.pc && cptr == rs.cptr && stackLen == |rs.stack| && stack[..stackLen] == rs.stack
      ensures capture[..] == if withCapture then rs.capture else old(capture[..])
    {
      if withCapture {
        RestoreCapture(rs.capture);
      }
      pc, cptr := rs.pc, rs.cptr;
      RestoreStack(rs.stack);
    }

    /** Goes back over the characters of one round of a simple quantifier. */
    method GoBack(n: nat)
      requires cptr <= |inp.units| && PrevN(inp, cptr, n).Some?
      modifies this`cptr
      ensures PrevN(inp, old(cptr), n) == Some(cptr)
    {
      var i := 0;
      while i < n
        invariant i <= n && cptr <= |inp.units|
        invariant PrevN(inp, cptr, n - i) == PrevN(inp, old(cptr), n)
      {
        cptr := Prev(inp, cptr);
        i := i + 1;
      }
    }

    /** What the loop is in while it pops: a match that goes out or a failure. */
    ghost function Popping(ret: bool): Config
      reads this, capture
    {
      if ret then Succeed(Caps(capture[..]), FramesOf(stateStack)) else Fail(FramesOf(stateStack))
    }

    /** Takes back one round of a simple quantifier. */
    method PopQuant()
      requires Valid() && stateStack != [] && stateStack[|stateStack| - 1].kind == QuantFrame
      requires Step(M(), Popping(false)) != Stuck
      modifies this`pc, this`cptr, this`stackLen, this`stateStack, stack, capture
      ensures Valid() && Abs() == old(Step(M(), Popping(false)))
    {
      hide Decode, PrevN, FramesOf;
      var rs, rest := stateStack[|stateStack| - 1], stateStack[..|stateStack| - 1];
      FramesPop(stateStack);
      FetchedQuant(bc, rs.pc);
      RestoreFrame(rs, true);
      var i := Decode(bc[rs.pc..]).value;
      GoBack(i.charCount);
      pc := pc + 17 + i.offset;
      if rs.count == 1 {
        stateStack := rest;
      } else {
        var e := rs.(cptr := cptr, count := rs.count - 1);
        FramesPush(rest, e);
        stateStack := rest + [e];
      }
    }

    /** Handles the last choice point. */
    method PopState(ret: bool) returns (running: bool, ret1: bool)
      requires Valid() && stateStack != [] && Step(M(), Popping(ret)) != Stuck
      modifies this`pc, this`cptr, this`stackLen, this`stateStack, stack, capture
      ensures Valid()
      ensures old(Step(M(), Popping(ret))) == if running then Abs() else Popping(ret1)
    {
      var rs := stateStack[|stateStack| - 1];
      if rs.kind == QuantFrame && !ret {
        PopQuant();
        return true, ret;
      }
      FramesPop(stateStack);
      hide FramesOf, PrevN;
      stateStack := stateStack[..|stateStack| - 1];
      if !ret && (rs.kind == SplitFrame || rs.kind == NegativeLookFrame) {
        RestoreFrame(rs, true);
        return true, ret;
      }
      if rs.kind == LookFrame && ret {
        RestoreFrame(rs, false);
        return true, ret;
      }
      return false, ret && rs.kind != NegativeLookFrame;
    }

    // The loop.

    /** Choice points are popped until one of them goes on; not running when none is left. */
    method PopStates(matched: bool, ghost left: nat, ghost answer: Option<map<nat, nat>>, ghost code: seq<Instr>)
      returns (running: bool, ret: bool, ghost left1: nat)
      requires Valid() && ProgramOk(code)
      requires Steps(M(), Popping(matched), left) == Done(answer) && StackOk(M(), code, Popping(matched))
      modifies this`pc, this`cptr, this`stackLen, this`stateStack, stack, capture
      ensures Valid()
      ensures running ==> left1 < left && Steps(M(), Abs(), left1) == Done(answer) && StackOk(M(), code, Abs())
      ensures !running ==> ret == answer.Some? && (ret ==> Caps(capture[..]) == answer.value)
    {
      hide StepInstr, StackOk, ProgramFlow, Holds, TablesOk, Valid, FramesOf, StepFail, StepSucceed, Caps;
      ret, left1 := matched, left;
      while true
        invariant Valid() && left1 <= left
        invariant Steps(M(), Popping(ret), left1) == Done(answer) && StackOk(M(), code, Popping(ret))
        decreases left1
      {
        StepLeft(M(), Popping(ret), left1, answer);
        StepOk(M(), code, Popping(ret));
        if stateStack == [] {
          NoFrames(M(), Popping(ret), left1 - 1, answer);
          return false, ret, left1;
        }
        running, ret := PopState(ret);
        left1 := left1 - 1;
        if running { return; }
      }
    }

    /** The instruction at pc. */
    method ReadInstr(ghost code: seq<Instr>) returns (i: Instr)
      requires Valid() && ProgramOk(code) && StackOk(M(), code, Abs())
      requires Step(M(), Abs()) != Stuck && StackOk(M(), code, Step(M(), Abs()))
      ensures CanStep(i) && Stepped(i) == Step(M(), Abs())
      ensures i.SimpleGreedyQuant? ==> AtDepth(code, pc + 17, stackLen)
    {
      hide StepInstr, Decode, FramesOk;
      i := Fetched(pc, code, stackLen);
      if Step(M(), Abs()).Run? {
        StackBound(M(), code, Step(M(), Abs()));
      }
    }

    /** lre_exec_backtrack: it ends, and its answer is the machine's. */
    method LreExecBacktrack(ghost left0: nat, ghost answer: Option<map<nat, nat>>, ghost code: seq<Instr>)
        returns (ret: bool)
      requires Valid() && ProgramOk(code)
      requires Steps(M(), Abs(), left0) == Done(answer) && StackOk(M(), code, Abs())
      modifies this`pc, this`cptr, this`stackLen, this`stateStack, stack, capture
      ensures ret == answer.Some? && (ret ==> Caps(capture[..]) == answer.value)
    {
      hide StepInstr, StackOk, ProgramFlow, Holds, TablesOk, Decode;
      ghost var left := left0;
      while true
        invariant Valid() && ProgramOk(code)
        invariant Steps(M(), Abs(), left) == Done(answer) && StackOk(M(), code, Abs())
        decreases left
      {
        StepLeft(M(), Abs(), left, answer);
        StepOk(M(), code, Abs());
        var i := ReadInstr(code);
        ghost var next := Step(M(), Abs());
        var out := ExecInstr(i, code);
        left := left - 1;
        if out != Continue {
          var running, r;
          running, r, left := PopStates(out == Matched, left, answer, code);
          if !running { return r; }
        }
      }
    }
  }

  lemma StepLeft(m: Machine, cfg: Config, left: nat, answer: Option<map<nat, nat>>)
    requires Steps(m, cfg, left) == Done(answer) && !cfg.Done?
    ensures left > 0 && Steps(m, Step(m, cfg), left - 1) == Done(answer) && Step(m, cfg) != Stuck
  {
    if left > 0 && Step(m, cfg) == Stuck {
      FinalStays(m, Stuck, left - 1);
    }
  }

  lemma StackBound(m: Machine, code: seq<Instr>, cfg: Config)
    requires StackOk(m, code, cfg) && cfg.Run?
    ensures |cfg.stack| <= MaxDepth(code, 0)
  {
    var k: nat :| k < |code| && Addr(code, k) == cfg.pc && Depth(code, k) == |cfg.stack|;
  }

  lemma NoFrames(m: Machine, cfg: Config, left: nat, answer: Option<map<nat, nat>>)
    requires cfg.Fail? || cfg.Succeed?
    requires cfg.frames == [] && Steps(m, Step(m, cfg), left) == Done(answer)
    ensures answer == if cfg.Succeed? then Some(cfg.caps) else None
  {
    FinalStays(m, Step(m, cfg), left);
  }

  lemma FetchedQuant(bc: seq<Byte>, p: int)
    requires Fetch(Disassemble(bc), p).Some?
    ensures 0 <= p < |bc| && Fetch(Disassemble(bc), p) == Decode(bc[p..])
  {
    hide Decode;
  }

  lemma TableAt(m: Machine, code: seq<Instr>, p: int, depth: int)
    requires Holds(m.prog, 0, code) && TablesOk(code) && AtDepth(code, p, depth)
    ensures 0 <= p < |m.prog| && Fetch(m.prog, p).Some? && TableOk(Fetch(m.prog, p).value)
  {
    var k: nat :| k < |code| && Addr(code, k) == p && Depth(code, k) == depth;
    HoldsAt(m.prog, 0, code, k);
  }

  /** The subject as lre_exec reads it: 8-bit or 16-bit units, and UTF-16 for 16-bit units with a Unicode flag. */
  function Subject(units: seq<nat>, cbufType: nat, canon: nat -> nat, flags: nat): Input {
    Input(units, cbufType == 1 && UnicodeFlag(flags), canon)
  }

  /** lre_exec on a compiled pattern: the run ends, stays inside its buffers, and the
      captures are those of the first way to match, or there is no way to match. */
  method LreExec(bc: seq<Byte>, units: seq<nat>, cbufType: nat, canon: nat -> nat, cindex: nat, ghost r: Regex,
      ghost flags: nat)
    returns (ret: bool, captures: seq<Option<nat>>)
    requires ValidInput(Subject(units, cbufType, canon, flags)) && cindex <= |units| && |bc| <= BYTECODE_MAX
    requires ValidRegex(r, 1 + Groups(r)) && Compiles(canon, r, StickyFlag(flags))
    requires ImageOf(canon, r, flags, bc)
    ensures |captures| == 2 * (1 + Groups(r))
    ensures match Answer(Subject(units, cbufType, canon, flags), r, StickyFlag(flags), cindex)
      case None => !ret
      case Some(caps) => ret && Caps(captures) == caps
  {
    var inp := Subject(units, cbufType, canon, GetU16(bc));
    ghost var sticky, code := StickyFlag(flags), ProgramCode(inp.canon, r, StickyFlag(flags));
    ghost var m := Machine(inp, Disassemble(bc[HEADER_LEN..]), bc[2]);
    ImageLoaded(inp, r, flags, bc);
    hide Decode, ProgramCode, Disassemble, SearchResults, MaxDepth, Accepted, GetU32, GetU16, Code, EncodeAll;
    ExecCorrect(m, r, sticky, cindex);
    ghost var answer := Answer(inp, r, sticky, cindex);
    ghost var n: nat :| Steps(m, StartConfig(inp, cindex), n) == Done(answer);
    ProgramCodeFlow(inp.canon, r, sticky);
    ProgramTables(inp.canon, r, sticky, 1 + Groups(r));
    StartOk(m, code, inp, cindex);
    var s := new REExecContext(inp, bc[HEADER_LEN..], bc[2], bc[3], StartPos(inp, cindex));
    assert s.M() == m;
    ret := s.LreExecBacktrack(n, answer, code);
    captures := s.capture[..];
  }

  lemma StartOk(m: Machine, code: seq<Instr>, inp: Input, cindex: nat)
    requires cindex <= |inp.units| && ProgramFlow(code)
    ensures StackOk(m, code, StartConfig(inp, cindex))
  {
    assert Addr(code, 0) == 0 && Depth(code, 0) == 0;
    assert AtDepth(code, 0, 0);
  }
}
