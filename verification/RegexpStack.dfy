/** The linear stack analysis is sound: at every reachable address the stack has the
    depth that one scan of the code from front to back computes for that address. */
module RegexpStack {
  import opened Options
  import opened RegexpBytecode
  import opened RegexpSyntax
  import opened RegexpCompiler
  import opened RegexpMachine
  import opened RegexpProgram

  /** The address of instruction k. */
  function Addr(code: seq<Instr>, k: nat): nat
    requires k <= |code|
  {
    if k == 0 then 0 else code[0].Size() + Addr(code[1..], k - 1)
  }

  /** The depth the scan has computed when it reaches instruction k. */
  function Depth(code: seq<Instr>, k: nat): int
    requires k <= |code|
  {
    if k == 0 then 0 else code[0].Delta() + Depth(code[1..], k - 1)
  }

  /** compute_stack_size from depth d on: the largest depth seen. */
  function MaxDepth(code: seq<Instr>, d: int): (max: int)
    ensures d <= max && forall k :: 0 <= k <= |code| ==> d + Depth(code, k) <= max
  {
    if code == [] then d
    else
      var rest := MaxDepth(code[1..], d + code[0].Delta());
      assert forall k :: 0 < k <= |code| ==> Depth(code, k) == code[0].Delta() + Depth(code[1..], k - 1);
      if rest < d then d else rest
  }

  lemma {:induction false} AddrInside(pre: seq<Instr>, body: seq<Instr>, post: seq<Instr>, k: nat)
    requires k <= |body|
    ensures Addr(pre + body + post, |pre| + k) == Size(pre) + Addr(body, k)
    ensures Depth(pre + body + post, |pre| + k) == Depth(pre, |pre|) + Depth(body, k)
    decreases |pre|, k
  {
    var code := pre + body + post;
    if pre != [] {
      assert code[1..] == pre[1..] + body + post;
      AddrInside(pre[1..], body, post, k);
    } else if k > 0 {
      assert code[1..] == [] + body[1..] + post;
      AddrInside([], body[1..], post, k - 1);
    }
  }

  lemma {:induction false} AddrEnd(code: seq<Instr>)
    ensures Addr(code, |code|) == Size(code)
    decreases |code|
  {
    if code != [] {
      AddrEnd(code[1..]);
    }
  }

  /** The byte offset of a jump, relative to the next instruction. */
  function JumpOffset(i: Instr): Option<int> {
    match i
    case Goto(offset) => Some(offset)
    case Split(_, offset) => Some(offset)
    case Loop(offset) => Some(offset)
    case Lookahead(_, offset) => Some(offset)
    case SimpleGreedyQuant(offset, _, _, _) => Some(offset)
    case _ => None
  }

  ghost predicate Lands(code: seq<Instr>, k: nat, offset: int, j: nat)
    requires k < |code|
  {
    && j <= |code|
    && Addr(code, j) == Addr(code, k + 1) + offset
    && Depth(code, j) == Depth(code, k + 1)
  }

  /** A jump goes to an instruction, or to the end, with the depth it has itself. */
  ghost predicate JumpOk(code: seq<Instr>, k: nat)
    requires k < |code|
  {
    JumpOffset(code[k]).Some? ==> exists j: nat :: Lands(code, k, JumpOffset(code[k]).value, j)
  }

  /** Code whose jumps agree with the scan and which leaves the stack as it found it. */
  ghost predicate Flow(code: seq<Instr>) {
    && (forall k: nat :: k < |code| ==> JumpOk(code, k))
    && (forall k: nat :: k <= |code| ==> Depth(code, k) >= 0)
    && Depth(code, |code|) == 0
  }

  lemma JumpInside(pre: seq<Instr>, body: seq<Instr>, post: seq<Instr>, k: nat)
    requires k < |body| && JumpOk(body, k)
    ensures JumpOk(pre + body + post, |pre| + k)
  {
    var code := pre + body + post;
    if JumpOffset(body[k]).Some? {
      var j: nat :| Lands(body, k, JumpOffset(body[k]).value, j);
      AddrInside(pre, body, post, j);
      AddrInside(pre, body, post, k + 1);
      assert Lands(code, |pre| + k, JumpOffset(code[|pre| + k]).value, |pre| + j);
    }
  }

  /** Balanced code may stand inside other code, where the depth is not negative. */
  lemma FlowInside(pre: seq<Instr>, body: seq<Instr>, post: seq<Instr>)
    requires Flow(body) && Depth(pre, |pre|) >= 0
    ensures forall k: nat :: |pre| <= k < |pre| + |body| ==> JumpOk(pre + body + post, k)
    ensures forall k: nat :: |pre| <= k <= |pre| + |body| ==> Depth(pre + body + post, k) >= 0
    ensures Depth(pre + body + post, |pre| + |body|) == Depth(pre, |pre|)
    ensures Addr(pre + body + post, |pre| + |body|) == Size(pre) + Size(body)
  {
    var code := pre + body + post;
    forall k: nat | |pre| <= k < |pre| + |body| ensures JumpOk(code, k) {
      assert JumpOk(body, k - |pre|);
      JumpInside(pre, body, post, k - |pre|);
    }
    forall k: nat | |pre| <= k <= |pre| + |body| ensures Depth(code, k) >= 0 {
      AddrInside(pre, body, post, k - |pre|);
    }
    AddrInside(pre, body, post, |body|);
    AddrEnd(body);
  }

  lemma FlowAppend(a: seq<Instr>, b: seq<Instr>)
    requires Flow(a) && Flow(b)
    ensures Flow(a + b)
  {
    assert [] + a + b == a + b && a + b + [] == a + b;
    FlowInside([], a, b);
    FlowInside(a, b, []);
    var code := a + b;
    forall k: nat | k < |code| ensures JumpOk(code, k) {}
  }

  lemma {:induction false} AddrStep(code: seq<Instr>, k: nat)
    requires k < |code|
    ensures Addr(code, k + 1) == Addr(code, k) + code[k].Size()
    ensures Depth(code, k + 1) == Depth(code, k) + code[k].Delta()
  {
    if k > 0 {
      AddrStep(code[1..], k - 1);
    } else {
      assert Addr(code[1..], 0) == 0 && Depth(code[1..], 0) == 0;
    }
  }

  lemma FlowOne(i: Instr)
    requires JumpOffset(i).None? && i.Delta() == 0
    ensures Flow([i])
  {
    AddrStep([i], 0);
    assert Depth([i], 0) == 0;
  }

  lemma FlowEmpty()
    ensures Flow([])
  {
  }

  /** i body j, where i raises the depth and j lowers it again, and neither jumps. */
  lemma FlowBetween(i: Instr, body: seq<Instr>, j: Instr)
    requires Flow(body) && JumpOffset(i).None? && JumpOffset(j).None?
    requires i.Delta() >= 0 && i.Delta() + j.Delta() == 0
    ensures Flow([i] + body + [j])
  {
    var code := [i] + body + [j];
    AddrStep([i], 0);
    FlowInside([i], body, [j]);
    AddrStep(code, 1 + |body|);
    forall k: nat | k < |code| ensures JumpOk(code, k) {
      if 1 <= k < 1 + |body| {} else { assert JumpOffset(code[k]).None?; }
    }
  }

  lemma FlowRound(body: seq<Instr>)
    requires Flow(body)
    ensures Flow(RoundCode(body))
  {
    if NeedCheckAdvance(body) {
      FlowBetween(PushCharPos, body, CheckAdvance);
    }
  }

  /** Addresses and depths around a balanced body between one jump and another. */
  lemma Around(pre: seq<Instr>, body: seq<Instr>, post: seq<Instr>)
    requires Flow(body) && pre != [] && post != [] && Depth(pre, |pre|) >= 0
    ensures var code, n := pre + body + post, |pre| + |body|;
      && Addr(code, |pre|) == Size(pre) && Depth(code, |pre|) == Depth(pre, |pre|)
      && Addr(code, n) == Size(pre) + Size(body) && Depth(code, n) == Depth(pre, |pre|)
      && Addr(code, n + 1) == Addr(code, n) + post[0].Size()
      && Depth(code, n + 1) == Depth(code, n) + post[0].Delta()
      && Addr(code, |pre|) == Addr(code, |pre| - 1) + pre[|pre| - 1].Size()
      && Depth(code, |pre|) == Depth(code, |pre| - 1) + pre[|pre| - 1].Delta()
  {
    var code := pre + body + post;
    FlowInside(pre, body, post);
    AddrInside(pre, body, post, 0);
    AddrStep(code, |pre| + |body|);
    AddrStep(code, |pre| - 1);
  }

  lemma SizeTwo(i: Instr, j: Instr)
    ensures Size([i]) == i.Size() && Size([i, j]) == i.Size() + j.Size()
    ensures Depth([i], 1) == i.Delta() && Depth([i, j], 2) == i.Delta() + j.Delta()
    ensures Depth([i], 0) == 0
  {
    assert [i, j][1..] == [j] && [i][1..] == [] && [j][1..] == [];
    assert Size([j]) == j.Size();
    AddrStep([i], 0);
    AddrStep([i, j], 1);
    AddrStep([i, j], 0);
  }

  lemma FlowStar(body: seq<Instr>, greedy: bool)
    requires Flow(body)
    ensures Flow(LoopCode(body, false, greedy))
  {
    var round := RoundCode(body);
    FlowRound(body);
    hide RoundCode;
    var n: int := Size(round);
    var split, goto := Split(greedy, n + 5), Goto(-(n + 10));
    var code := [split] + round + [goto];
    assert code == LoopCode(body, false, greedy);
    SizeTwo(split, goto);
    FlowInside([split], round, [goto]);
    Around([split], round, [goto]);
    assert Lands(code, 0, n + 5, |code|);
    assert Lands(code, |round| + 1, -(n + 10), 0);
    forall k: nat | k < |code| ensures JumpOk(code, k) {}
  }

  lemma FlowCounted(body: seq<Instr>, rounds: nat, greedy: bool)
    requires Flow(body)
    ensures Flow([PushI32(rounds)] + LoopCode(body, true, greedy))
  {
    var round := RoundCode(body);
    FlowRound(body);
    hide RoundCode;
    var n: int := Size(round);
    var push, split, loop := PushI32(rounds), Split(greedy, n + 5), Loop(-(n + 10));
    var code := [push, split] + round + [loop, Drop];
    assert code == [push] + LoopCode(body, true, greedy);
    SizeTwo(push, split);
    FlowInside([push, split], round, [loop, Drop]);
    Around([push, split], round, [loop, Drop]);
    AddrStep(code, |round| + 3);
    assert Addr(code, 0) == 0 && Depth(code, 0) == 0;
    assert Lands(code, 1, n + 5, |round| + 3);
    assert Lands(code, |round| + 2, -(n + 10), 1);
    forall k: nat | k < |code| ensures JumpOk(code, k) {}
  }

  lemma FlowOption(body: seq<Instr>, greedy: bool)
    requires Flow(body)
    ensures Flow(OptionCode(body, greedy))
  {
    var round := RoundCode(body);
    FlowRound(body);
    hide RoundCode;
    var split := Split(greedy, Size(round));
    var code := [split] + round;
    assert code == [split] + round + [];
    SizeTwo(split, split);
    FlowInside([split], round, []);
    AddrStep(code, 0);
    assert Addr(code, 0) == 0 && Depth(code, 0) == 0;
    assert Lands(code, 0, Size(round), |code|);
    forall k: nat | k < |code| ensures JumpOk(code, k) {}
  }

  lemma FlowMore(body: seq<Instr>, min: nat, max: nat, greedy: bool)
    requires Flow(body)
    ensures Flow(MoreCode(body, min, max, greedy))
  {
    hide LoopCode, Flow;
    if max == INT32_MAX { FlowStar(body, greedy); }
    else if max > min { FlowCounted(body, max - min, greedy); }
    else { FlowEmpty(); }
  }

  lemma FlowRepeat(body: seq<Instr>, n: nat)
    requires Flow(body)
    ensures Flow(RepeatCode(body, n))
  {
    if n != 1 {
      var s: int := Size(body);
      var push, loop := PushI32(n), Loop(-(s + 5));
      var code := [push] + body + [loop, Drop];
      assert code == RepeatCode(body, n);
      SizeTwo(push, push);
      FlowInside([push], body, [loop, Drop]);
      Around([push], body, [loop, Drop]);
      AddrStep(code, |body| + 2);
      assert Addr(code, 0) == 0 && Depth(code, 0) == 0;
      assert Lands(code, |body| + 1, -(s + 5), 1);
      forall k: nat | k < |code| ensures JumpOk(code, k) {}
    }
  }

  lemma FlowPlus(body: seq<Instr>, greedy: bool)
    requires Flow(body)
    ensures Flow(PlusCode(body, greedy))
  {
    var s: int := Size(body);
    var split := Split(!greedy, -(s + 5));
    var code := body + [split];
    assert code == [] + body + [split];
    FlowInside([], body, [split]);
    AddrStep(code, |body|);
    assert Addr(code, 0) == 0 && Depth(code, 0) == 0;
    assert Lands(code, |body|, -(s + 5), 0);
    forall k: nat | k < |code| ensures JumpOk(code, k) {}
  }

  /** A jump over a body that ends in match: simple quantifiers and lookarounds. */
  lemma FlowOver(i: Instr, body: seq<Instr>)
    requires Flow(body) && JumpOffset(i) == Some(Size(body) + 1) && i.Delta() == 0
    ensures Flow([i] + body + [Match])
  {
    var code := [i] + body + [Match];
    SizeTwo(i, i);
    FlowInside([i], body, [Match]);
    Around([i], body, [Match]);
    assert Lands(code, 0, Size(body) + 1, |code|);
    forall k: nat | k < |code| ensures JumpOk(code, k) {}
  }

  lemma FlowEither(a: seq<Instr>, b: seq<Instr>)
    requires Flow(a) && Flow(b)
    ensures Flow([Split(true, Size(a) + 5)] + a + [Goto(Size(b))] + b)
  {
    var split, goto := Split(true, Size(a) + 5), Goto(Size(b));
    var pre := [split] + a + [goto];
    var code := pre + b;
    assert code == [split] + a + ([goto] + b) && code == pre + b + [];
    SizeTwo(split, goto);
    FlowInside([split], a, [goto] + b);
    Around([split], a, [goto] + b);
    FlowInside([split], a, [goto]);
    Around([split], a, [goto]);
    AddrEnd(pre);
    FlowInside(pre, b, []);
    AddrInside(pre, b, [], 0);
    assert Lands(code, 0, Size(a) + 5, |a| + 2);
    assert Lands(code, |a| + 1, Size(b), |code|);
    forall k: nat | k < |code| ensures JumpOk(code, k) {}
  }

  lemma FlowQuant(body: seq<Instr>, groups: nat, c: nat, min: nat, max: nat, greedy: bool)
    requires Flow(body)
    ensures Flow(QuantCode(body, groups, c, min, max, greedy))
  {
    hide Flow, UsesSimpleQuant, RepeatCode, MoreCode, PlusCode, OptionCode, NeedCheckAdvance;
    if UsesSimpleQuant(body, max, greedy) {
      FlowOver(SimpleGreedyQuant(Size(body) + 1, min, max, CharCount(body)), body);
    } else if min == 0 {
      if groups > 0 { FlowOne(SaveReset(c, c + groups - 1)); } else { FlowEmpty(); }
      if max == 0 { FlowEmpty(); }
      else if max == 1 { FlowOption(body, greedy); }
      else { FlowMore(body, 0, max, greedy); }
      FlowAppend(ResetCode(groups, c), ZeroCode(body, max, greedy));
    } else if min == 1 && max == INT32_MAX && !NeedCheckAdvance(body) {
      FlowPlus(body, greedy);
    } else {
      FlowRepeat(body, min);
      FlowMore(body, min, max, greedy);
      FlowAppend(RepeatCode(body, min), MoreCode(body, min, max, greedy));
    }
  }

  /** The code of every pattern agrees with the scan. */
  lemma {:induction false} CodeFlow(canon: nat -> nat, r: Regex, back: bool, c: nat)
    ensures Flow(Code(canon, r, back, c))
  {
    hide Flow, QuantCode, Size;
    match r
    case Empty => FlowEmpty();
    case Atom(t) => AtomFlow(canon, t, back, c);
    case Assert(a) => FlowOne(Check(a));
    case BackRef(i, icase) => FlowOne(BackReference(i, icase, back));
    case Group(r1) =>
      CodeFlow(canon, r1, back, c + 1);
      FlowBetween(Save(c, back), Code(canon, r1, back, c + 1), Save(c, !back));
    case Sequence(r1, r2) =>
      CodeFlow(canon, r1, back, c);
      CodeFlow(canon, r2, back, c + Groups(r1));
      if back { FlowAppend(Code(canon, r2, back, c + Groups(r1)), Code(canon, r1, back, c)); }
      else { FlowAppend(Code(canon, r1, back, c), Code(canon, r2, back, c + Groups(r1))); }
    case Either(r1, r2) =>
      CodeFlow(canon, r1, back, c);
      CodeFlow(canon, r2, back, c + Groups(r1));
      FlowEither(Code(canon, r1, back, c), Code(canon, r2, back, c + Groups(r1)));
    case Quantified(r1, min, max, greedy) =>
      CodeFlow(canon, r1, back, c);
      FlowQuant(Code(canon, r1, back, c), Groups(r1), c, min, max, greedy);
    case Look(r1, negative, behind) =>
      CodeFlow(canon, r1, behind, c);
      FlowOver(Lookahead(negative, Size(Code(canon, r1, behind, c)) + 1), Code(canon, r1, behind, c));
  }

  lemma AtomFlow(canon: nat -> nat, t: CharTest, back: bool, c: nat)
    ensures Flow(Code(canon, Atom(t), back, c))
  {
    TestNoJump(canon, t);
    hide Flow, TestInstr;
    var i := TestInstr(canon, t);
    FlowOne(i);
    if back {
      FlowBetween(PrevChar, [i], PrevChar);
      assert [PrevChar] + [i] + [PrevChar] == Code(canon, Atom(t), back, c);
    }
  }

  lemma TestNoJump(canon: nat -> nat, t: CharTest)
    ensures TestInstr(canon, t).IsSimpleChar() && JumpOffset(TestInstr(canon, t)).None?
      && TestInstr(canon, t).Delta() == 0
  {
  }

  // The run of a whole program.

  /** Every jump goes to an instruction of the program; the last one is match. */
  ghost predicate ProgramFlow(code: seq<Instr>) {
    && code != [] && code[|code| - 1] == Match
    && (forall k: nat :: k < |code| && JumpOffset(code[k]).Some? ==>
          exists j: nat :: j < |code| && Lands(code, k, JumpOffset(code[k]).value, j))
    && (forall k: nat :: k <= |code| ==> Depth(code, k) >= 0)
  }

  lemma WithMatch(most: seq<Instr>)
    requires Flow(most)
    ensures ProgramFlow(most + [Match])
  {
    var code := most + [Match];
    assert code == [] + most + [Match];
    FlowInside([], most, [Match]);
    AddrStep(code, |most|);
    forall k: nat | k < |code| && JumpOffset(code[k]).Some?
      ensures exists j: nat :: j < |code| && Lands(code, k, JumpOffset(code[k]).value, j)
    {
      assert code[k] == most[k] && JumpOk(most, k);
      var j: nat :| Lands(most, k, JumpOffset(most[k]).value, j);
      AddrInside([], most, [Match], j);
      AddrInside([], most, [Match], k + 1);
      assert Lands(code, k, JumpOffset(code[k]).value, j);
    }
  }

  lemma ProgramCodeFlow(canon: nat -> nat, r: Regex, sticky: bool)
    ensures ProgramFlow(ProgramCode(canon, r, sticky))
  {
    hide Flow, ProgramFlow;
    var prefix: seq<Instr> := if sticky then [] else [Split(false, 6), Any, Goto(-11)];
    var group := Code(canon, Group(r), false, 0);
    assert ProgramCode(canon, r, sticky) == prefix + group + [Match];
    hide Code, ProgramCode;
    CodeFlow(canon, Group(r), false, 0);
    PrefixFlow(sticky);
    FlowAppend(prefix, group);
    WithMatch(prefix + group);
  }

  lemma PrefixFlow(sticky: bool)
    ensures Flow(if sticky then [] else [Split(false, 6), Any, Goto(-11)])
  {
    FlowEmpty();
    if !sticky {
      var code := [Split(false, 6), Any, Goto(-11)];
      AddrStep(code, 0);
      AddrStep(code, 1);
      AddrStep(code, 2);
      assert Addr(code, 0) == 0 && Depth(code, 0) == 0;
      assert Lands(code, 0, 6, 3);
      assert Lands(code, 2, -11, 0);
    }
  }

  lemma {:induction false} HoldsAt(prog: Listing, pc: nat, code: seq<Instr>, k: nat)
    requires Holds(prog, pc, code) && k < |code|
    ensures Fetch(prog, pc + Addr(code, k)) == Some(code[k])
    decreases k
  {
    if k > 0 {
      HoldsAt(prog, pc + code[0].Size(), code[1..], k - 1);
    }
  }

  /** Address pc is an instruction of the code and `depth` is its depth. */
  ghost predicate AtDepth(code: seq<Instr>, pc: int, depth: int) {
    exists k: nat :: k < |code| && Addr(code, k) == pc && Depth(code, k) == depth
  }

  ghost predicate FrameOk(m: Machine, code: seq<Instr>, f: Frame) {
    && AtDepth(code, f.pc, |f.stack|)
    && (f.kind == QuantFrame ==>
          var i := Fetch(m.prog, f.pc);
          i.Some? && (i.value.SimpleGreedyQuant? ==> AtDepth(code, f.pc + 17 + i.value.offset, |f.stack|)))
  }

  ghost predicate FramesOk(m: Machine, code: seq<Instr>, frames: seq<Frame>) {
    forall k :: 0 <= k < |frames| ==> FrameOk(m, code, frames[k])
  }

  /** The stack has the depth of the scan, now and in every choice point. */
  ghost predicate StackOk(m: Machine, code: seq<Instr>, cfg: Config) {
    match cfg
    case Run(pc, _, stack, frames) => AtDepth(code, pc, |stack|) && FramesOk(m, code, frames)
    case Fail(frames) => FramesOk(m, code, frames)
    case Succeed(_, frames) => FramesOk(m, code, frames)
    case Done(_) | Stuck => true
  }

  /** The instruction at an address with a depth, and what follows from the scan there. */
  lemma AtInstr(m: Machine, code: seq<Instr>, pc: int, depth: int) returns (i: Instr)
    requires ProgramFlow(code) && Holds(m.prog, 0, code) && AtDepth(code, pc, depth)
    ensures Fetch(m.prog, pc) == Some(i)
    ensures !i.Match? ==> AtDepth(code, pc + i.Size(), depth + i.Delta())
    ensures JumpOffset(i).Some? ==> AtDepth(code, pc + i.Size() + JumpOffset(i).value, depth + i.Delta())
  {
    var k: nat :| k < |code| && Addr(code, k) == pc && Depth(code, k) == depth;
    HoldsAt(m.prog, 0, code, k);
    i := code[k];
    AddrStep(code, k);
    if JumpOffset(i).Some? {
      var j: nat :| j < |code| && Lands(code, k, JumpOffset(i).value, j);
      assert AtDepth(code, pc + i.Size() + JumpOffset(i).value, depth + i.Delta());
    }
    if !i.Match? {
      assert k + 1 < |code|;
      assert AtDepth(code, pc + i.Size(), depth + i.Delta());
    }
  }

  lemma FramesAdd(m: Machine, code: seq<Instr>, frames: seq<Frame>, f: Frame)
    requires FramesOk(m, code, frames) && FrameOk(m, code, f)
    ensures FramesOk(m, code, frames + [f])
  {
  }

  lemma FramesDrop(m: Machine, code: seq<Instr>, frames: seq<Frame>)
    requires FramesOk(m, code, frames) && frames != []
    ensures FramesOk(m, code, frames[..|frames| - 1]) && FrameOk(m, code, frames[|frames| - 1])
  {
  }

  lemma StepFailOk(m: Machine, code: seq<Instr>, frames: seq<Frame>)
    requires FramesOk(m, code, frames)
    ensures StackOk(m, code, StepFail(m, frames))
  {
    hide FramesOk, AtDepth;
    if frames == [] { return; }
    FramesDrop(m, code, frames);
    var rest, f := frames[..|frames| - 1], frames[|frames| - 1];
    if f.kind == QuantFrame && StepFail(m, frames).Run? && f.count > 1 {
      var st := StepFail(m, frames).st;
      FramesAdd(m, code, rest, f.(st := st, count := f.count - 1));
    }
  }

  lemma StepRunOk(m: Machine, code: seq<Instr>, pc: int, st: State, stack: seq<nat>, frames: seq<Frame>)
    requires ProgramFlow(code) && Holds(m.prog, 0, code) && StackOk(m, code, Run(pc, st, stack, frames))
    requires st.pos <= |m.inp.units|
    ensures StackOk(m, code, Step(m, Run(pc, st, stack, frames)))
  {
    var i := AtInstr(m, code, pc, |stack|);
    hide FramesOk, AtDepth, ProgramFlow, Holds, CountBody, SimpleStep, RefEnd;
    var next := Step(m, Run(pc, st, stack, frames));
    if next.Run? && |next.frames| > |frames| {
      var f := next.frames[|frames|];
      FramesAdd(m, code, frames, f);
    }
  }

  /** Every step of a program keeps the depths of the scan. */
  lemma StepOk(m: Machine, code: seq<Instr>, cfg: Config)
    requires ProgramFlow(code) && Holds(m.prog, 0, code) && StackOk(m, code, cfg)
    ensures StackOk(m, code, Step(m, cfg))
  {
    hide FramesOk, AtDepth, FrameOk;
    match cfg
    case Done(_) | Stuck =>
    case Fail(frames) => StepFailOk(m, code, frames);
    case Succeed(caps, frames) =>
      if frames != [] {
        FramesDrop(m, code, frames);
        FrameDepth(m, code, frames[|frames| - 1]);
      }
    case Run(pc, st, stack, frames) =>
      if st.pos <= |m.inp.units| {
        StepRunOk(m, code, pc, st, stack, frames);
      }
  }

  lemma FrameDepth(m: Machine, code: seq<Instr>, f: Frame)
    requires FrameOk(m, code, f)
    ensures AtDepth(code, f.pc, |f.stack|)
  {
  }

  lemma {:induction false} StepsOk(m: Machine, code: seq<Instr>, cfg: Config, n: nat)
    requires ProgramFlow(code) && Holds(m.prog, 0, code) && StackOk(m, code, cfg)
    ensures StackOk(m, code, Steps(m, cfg, n))
    decreases n
  {
    if n > 0 {
      StepOk(m, code, cfg);
      StepsOk(m, code, Step(m, cfg), n - 1);
    }
  }

  /** The result of compute_stack_size for a pattern. */
  function StackSize(canon: nat -> nat, r: Regex, sticky: bool): int {
    MaxDepth(ProgramCode(canon, r, sticky), 0)
  }

  /** At every reachable configuration the stack is exactly as deep as the scan found it
      for that address, and so never deeper than the size that was reserved. */
  lemma StackSound(m: Machine, r: Regex, sticky: bool, cindex: nat, n: nat)
    requires Loaded(m, r, sticky) && cindex <= |m.inp.units|
    ensures var cfg := Steps(m, StartConfig(m.inp, cindex), n);
      var code := ProgramCode(m.inp.canon, r, sticky);
      cfg.Run? ==>
        && AtDepth(code, cfg.pc, |cfg.stack|)
        && |cfg.stack| <= StackSize(m.inp.canon, r, sticky)
  {
    var code := ProgramCode(m.inp.canon, r, sticky);
    ProgramCodeFlow(m.inp.canon, r, sticky);
    var start := StartConfig(m.inp, cindex);
    assert AtDepth(code, 0, 0) by {
      assert Addr(code, 0) == 0 && Depth(code, 0) == 0;
    }
    StepsOk(m, code, start, n);
    var cfg := Steps(m, start, n);
    if cfg.Run? {
      var k: nat :| k < |code| && Addr(code, k) == cfg.pc && Depth(code, k) == |cfg.stack|;
    }
  }
}
