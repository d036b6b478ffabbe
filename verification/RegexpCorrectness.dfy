/** The machine runs compiled code like the pattern means: compiler correctness. */
module RegexpCorrectness {
  import opened Options
  import opened RegexpInput
  import opened RegexpBytecode
  import opened RegexpSyntax
  import opened RegexpCompiler
  import opened RegexpMachine
  import opened RegexpTests
  import opened RegexpSimpleQuant

  const CAPTURE_COUNT_MAX: nat := 255

  /** The pattern is valid and its groups, from index c, exist in the machine. */
  ghost predicate Fits(m: Machine, r: Regex, c: nat) {
    && ValidInput(m.inp)
    && m.captures <= CAPTURE_COUNT_MAX
    && ValidRegex(r, m.captures)
    && c + Groups(r) <= m.captures
  }

  /** The code of r is at address pc. */
  ghost predicate At(m: Machine, pc: nat, r: Regex, back: bool, c: nat) {
    Holds(m.prog, pc, Code(m.inp.canon, r, back, c))
  }

  ghost function End(m: Machine, pc: nat, r: Regex, back: bool, c: nat): nat {
    pc + Size(Code(m.inp.canon, r, back, c))
  }

  lemma StepsToOne(m: Machine, a: Config, s: State, pc: int, stack: seq<nat>, base: seq<Frame>)
    requires Step(m, a) == Run(pc, s, stack, base)
    ensures Offers(m, a, [s], pc, stack, base)
  {
    hide *;
    OffersOne(m, s, pc, stack, base);
    OffersStep(m, a, [s], pc, stack, base);
  }

  lemma StepsToNone(m: Machine, a: Config, pc: int, stack: seq<nat>, base: seq<Frame>)
    requires Step(m, a) == Fail(base)
    ensures Offers(m, a, [], pc, stack, base)
  {
    hide *;
    OffersNone(m, pc, stack, base);
    OffersStep(m, a, [], pc, stack, base);
  }

  lemma OffersNothing(m: Machine, a: Config, pc: int, stack: seq<nat>, pc1: int, stack1: seq<nat>, base: seq<Frame>)
    requires Offers(m, a, [], pc, stack, base)
    ensures Offers(m, a, [], pc1, stack1, base)
  {
  }

  lemma {:induction false} Sim(m: Machine, r: Regex, back: bool, c: nat, pc: nat, s: State, stack: seq<nat>,
      base: seq<Frame>)
    requires Fits(m, r, c) && At(m, pc, r, back, c) && Boundary(m.inp, s.pos)
    ensures Offers(m, Run(pc, s, stack, base), Results(m.inp, r, back, c, s), End(m, pc, r, back, c), stack, base)
    decreases r, 10
  {
    match r
    case Empty => OffersOne(m, s, pc, stack, base);
    case Atom(t) =>
      if back { SimAtomBack(m, t, c, pc, s, stack, base); }
      else { SimAtom(m, t, c, pc, s, stack, base); }
    case Assert(a) => SimAssert(m, a, back, c, pc, s, stack, base);
    case BackRef(i, icase) => SimBackRef(m, i, icase, back, c, pc, s, stack, base);
    case Group(r1) => SimGroup(m, r1, back, c, pc, s, stack, base);
    case Sequence(r1, r2) => SimSequence(m, r1, r2, back, c, pc, s, stack, base);
    case Either(r1, r2) => SimEither(m, r1, r2, back, c, pc, s, stack, base);
    case Quantified(r1, min, max, greedy) => SimQuantified(m, r1, min, max, greedy, back, c, pc, s, stack, base);
    case Look(r1, negative, behind) => SimLook(m, r1, negative, behind, back, c, pc, s, stack, base);
  }

  lemma SimAtom(m: Machine, t: CharTest, c: nat, pc: nat, s: State, stack: seq<nat>, base: seq<Frame>)
    requires Fits(m, Atom(t), c) && At(m, pc, Atom(t), false, c) && Boundary(m.inp, s.pos)
    ensures Offers(m, Run(pc, s, stack, base), AtomResults(m.inp, t, false, s), End(m, pc, Atom(t), false, c), stack,
      base)
  {
    hide Offers;
    var i := TestInstr(m.inp.canon, t);
    HoldsOne(m.prog, pc, i);
    var next := pc + i.Size();
    if s.pos < |m.inp.units| {
      CharInRange(m.inp, s.pos);
      TestCorrect(m.inp, t, CharAt(m.inp, s.pos));
    } else {
      TestCorrect(m.inp, t, 0);
    }
    if s.pos < |m.inp.units| && Accepts(m.inp, t, CharAt(m.inp, s.pos)) {
      StepsToOne(m, Run(pc, s, stack, base), s.(pos := Next(m.inp, s.pos)), next, stack, base);
    } else {
      StepsToNone(m, Run(pc, s, stack, base), next, stack, base);
    }
  }

  /** The three instructions of a character in a lookbehind. */
  lemma AtomBackShape(m: Machine, t: CharTest, c: nat, pc: nat) returns (i: Instr)
    requires Fits(m, Atom(t), c) && At(m, pc, Atom(t), true, c)
    ensures i == TestInstr(m.inp.canon, t) && i.IsSimpleChar()
    ensures Fetch(m.prog, pc) == Some(PrevChar) && Fetch(m.prog, pc + 1) == Some(i)
    ensures Fetch(m.prog, pc + 1 + i.Size()) == Some(PrevChar)
    ensures End(m, pc, Atom(t), true, c) == pc + 2 + i.Size()
  {
    i := TestInstr(m.inp.canon, t);
    TestCorrect(m.inp, t, 0);
    assert Code(m.inp.canon, Atom(t), true, c) == [PrevChar] + [i] + [PrevChar];
    hide TestInstr;
    HoldsBetween(m.prog, pc, PrevChar, [i], PrevChar);
    HoldsOne(m.prog, pc + 1, i);
  }

  lemma SimAtomBack(m: Machine, t: CharTest, c: nat, pc: nat, s: State, stack: seq<nat>, base: seq<Frame>)
    requires Fits(m, Atom(t), c) && At(m, pc, Atom(t), true, c) && Boundary(m.inp, s.pos)
    ensures Offers(m, Run(pc, s, stack, base), AtomResults(m.inp, t, true, s), End(m, pc, Atom(t), true, c), stack,
      base)
  {
    hide Offers, At, End, CharMatches, TestInstr;
    var i := AtomBackShape(m, t, c, pc);
    var end := pc + 2 + i.Size();
    var start := Run(pc, s, stack, base);
    if s.pos == 0 {
      StepsToNone(m, start, end, stack, base);
    } else {
      var s1 := s.(pos := Prev(m.inp, s.pos));
      NextPrev(m.inp, s.pos);
      CharInRange(m.inp, s1.pos);
      TestCorrect(m.inp, t, CharAt(m.inp, s1.pos));
      hide Boundary, Accepts, CharAt, Next, Prev, PrevCharAt;
      var mid := Run(pc + 1, s1, stack, base);
      if Accepts(m.inp, t, CharAt(m.inp, s1.pos)) {
        StepsToOne(m, Run(pc + 1 + i.Size(), s, stack, base), s1, end, stack, base);
        OffersStep(m, mid, [s1], end, stack, base);
        OffersStep(m, start, [s1], end, stack, base);
      } else {
        StepsToNone(m, mid, end, stack, base);
        OffersStep(m, start, [], end, stack, base);
      }
    }
  }

  lemma SimAssert(m: Machine, a: Assertion, back: bool, c: nat, pc: nat, s: State, stack: seq<nat>, base: seq<Frame>)
    requires Fits(m, Assert(a), c) && At(m, pc, Assert(a), back, c) && Boundary(m.inp, s.pos)
    ensures Offers(m, Run(pc, s, stack, base), Results(m.inp, Assert(a), back, c, s), End(m, pc, Assert(a), back, c),
      stack, base)
  {
    hide Offers;
    HoldsOne(m.prog, pc, Check(a));
    if Satisfied(m.inp, a, s.pos) {
      assert s == s.(pos := s.pos);
      StepsToOne(m, Run(pc, s, stack, base), s, pc + 1, stack, base);
    } else {
      StepsToNone(m, Run(pc, s, stack, base), pc + 1, stack, base);
    }
  }

  lemma SimBackRef(m: Machine, i: nat, icase: bool, back: bool, c: nat, pc: nat, s: State, stack: seq<nat>,
      base: seq<Frame>)
    requires Fits(m, BackRef(i, icase), c) && At(m, pc, BackRef(i, icase), back, c) && Boundary(m.inp, s.pos)
    ensures Offers(m, Run(pc, s, stack, base), Results(m.inp, BackRef(i, icase), back, c, s),
      End(m, pc, BackRef(i, icase), back, c), stack, base)
  {
    hide Offers, RefEnd;
    HoldsOne(m.prog, pc, BackReference(i, icase, back));
    var e := RefEnd(m.inp, i, icase, back, s);
    if e.Some? {
      StepsToOne(m, Run(pc, s, stack, base), s.(pos := e.value), pc + 2, stack, base);
    } else {
      StepsToNone(m, Run(pc, s, stack, base), pc + 2, stack, base);
    }
  }

  lemma GroupShape(m: Machine, r1: Regex, back: bool, c: nat, pc: nat, s: State, stack: seq<nat>, base: seq<Frame>)
    requires Fits(m, Group(r1), c) && At(m, pc, Group(r1), back, c) && Boundary(m.inp, s.pos)
    ensures Fits(m, r1, c + 1) && At(m, pc + 2, r1, back, c + 1)
    ensures Step(m, Run(pc, s, stack, base)) == Run(pc + 2, SetCap(s, c, back), stack, base)
    ensures c < m.captures && Fetch(m.prog, End(m, pc + 2, r1, back, c + 1)) == Some(Save(c, !back))
    ensures End(m, pc, Group(r1), back, c) == End(m, pc + 2, r1, back, c + 1) + 2
  {
    var body := Code(m.inp.canon, r1, back, c + 1);
    GroupCode(m.inp.canon, r1, back, c, body);
    hide *;
    BoundaryInside(m.inp, s.pos);
    GroupFits(m, r1, c);
    AtIs(m, pc, Group(r1), back, c);
    AtIs(m, pc + 2, r1, back, c + 1);
    HoldsBetween(m.prog, pc, Save(c, back), body, Save(c, !back));
    SaveSize(c, back);
    SaveSize(c, !back);
    SaveStep(m, c, back, pc, s, stack, base);
  }

  lemma GroupFits(m: Machine, r1: Regex, c: nat)
    requires Fits(m, Group(r1), c)
    ensures Fits(m, r1, c + 1) && c < m.captures
  {
  }

  lemma AtIs(m: Machine, pc: nat, r: Regex, back: bool, c: nat)
    ensures At(m, pc, r, back, c) == Holds(m.prog, pc, Code(m.inp.canon, r, back, c))
    ensures End(m, pc, r, back, c) == pc + Size(Code(m.inp.canon, r, back, c))
  {
  }

  lemma SaveSize(c: nat, isEnd: bool)
    ensures Save(c, isEnd).Size() == 2
  {
  }

  lemma SaveStep(m: Machine, c: nat, isEnd: bool, pc: nat, s: State, stack: seq<nat>, base: seq<Frame>)
    requires Fetch(m.prog, pc) == Some(Save(c, isEnd)) && c < m.captures && s.pos <= |m.inp.units|
    ensures Step(m, Run(pc, s, stack, base)) == Run(pc + 2, SetCap(s, c, isEnd), stack, base)
  {
  }

  lemma GroupCode(canon: nat -> nat, r1: Regex, back: bool, c: nat, body: seq<Instr>)
    requires body == Code(canon, r1, back, c + 1)
    ensures Code(canon, Group(r1), back, c) == [Save(c, back)] + body + [Save(c, !back)]
  {
    hide QuantCode, Size, TestInstr;
  }

  lemma {:induction false} SimGroup(m: Machine, r1: Regex, back: bool, c: nat, pc: nat, s: State, stack: seq<nat>,
      base: seq<Frame>)
    requires Fits(m, Group(r1), c) && At(m, pc, Group(r1), back, c) && Boundary(m.inp, s.pos)
    ensures Offers(m, Run(pc, s, stack, base), Results(m.inp, Group(r1), back, c, s), End(m, pc, Group(r1), back, c),
      stack, base)
    decreases r1, 20
  {
    hide Offers, Fits, At, End, Step;
    GroupShape(m, r1, back, c, pc, s, stack, base);
    var s1 := SetCap(s, c, back);
    var xs := Results(m.inp, r1, back, c + 1, s1);
    Sim(m, r1, back, c + 1, pc + 2, s1, stack, base);
    ResultsBoundary(m.inp, r1, back, c + 1, s1);
    var close := End(m, pc + 2, r1, back, c + 1);
    SaveEach(m, c, back, Run(pc + 2, s1, stack, base), xs, close, stack, base);
    OffersStep(m, Run(pc, s, stack, base), CloseGroup(c, back, xs), close + 2, stack, base);
  }

  lemma {:induction false} SaveEach(m: Machine, c: nat, back: bool, a: Config, xs: seq<State>, pc: nat,
      stack: seq<nat>, base: seq<Frame>)
    requires Fetch(m.prog, pc) == Some(Save(c, !back)) && c < m.captures && AllBoundary(m.inp, xs)
    requires Offers(m, a, xs, pc, stack, base)
    ensures Offers(m, a, CloseGroup(c, back, xs), pc + 2, stack, base)
    decreases |xs|
  {
    hide Offers;
    if xs == [] {
      OffersNothing(m, a, pc, stack, pc + 2, stack, base);
    } else {
      var x := OffersFirst(m, a, xs, pc, stack, base);
      SaveEach(m, c, back, Fail(base + x), xs[1..], pc, stack, base);
      var y := SetCap(xs[0], c, !back);
      ReachStep(m, Run(pc, xs[0], stack, base + x));
      ReachTrans(m, a, Run(pc, xs[0], stack, base + x), Run(pc + 2, y, stack, base + x));
      assert CloseGroup(c, back, xs)[1..] == CloseGroup(c, back, xs[1..]);
      OffersCons(m, a, CloseGroup(c, back, xs), pc + 2, stack, base, x);
    }
  }

  lemma {:induction false} SimSequence(m: Machine, r1: Regex, r2: Regex, back: bool, c: nat, pc: nat, s: State,
      stack: seq<nat>, base: seq<Frame>)
    requires Fits(m, Sequence(r1, r2), c) && At(m, pc, Sequence(r1, r2), back, c) && Boundary(m.inp, s.pos)
    ensures Offers(m, Run(pc, s, stack, base), Results(m.inp, Sequence(r1, r2), back, c, s),
      End(m, pc, Sequence(r1, r2), back, c), stack, base)
    decreases Sequence(r1, r2), 5
  {
    hide *;
    var r := Sequence(r1, r2);
    var c2 := c + Groups(r1);
    BoundaryInside(m.inp, s.pos);
    SequenceShape(m, r1, r2, back, c, pc);
    SequenceResults(m.inp, r1, r2, back, c, s);
    if back { SimInOrder(m, r, r2, c2, r1, c, back, pc, s, stack, base); }
    else { SimInOrder(m, r, r1, c, r2, c2, back, pc, s, stack, base); }
  }

  lemma SequenceShape(m: Machine, r1: Regex, r2: Regex, back: bool, c: nat, pc: nat)
    requires Fits(m, Sequence(r1, r2), c) && At(m, pc, Sequence(r1, r2), back, c)
    ensures Fits(m, r1, c) && Fits(m, r2, c + Groups(r1))
    ensures var r, c2 := Sequence(r1, r2), c + Groups(r1);
      var a, b := Code(m.inp.canon, r1, back, c), Code(m.inp.canon, r2, back, c2);
      && Holds(m.prog, pc, if back then b + a else a + b)
      && End(m, pc, r, back, c) == pc + Size(if back then b + a else a + b)
  {
    hide Size, Holds;
  }

  /** Two pieces of code in a row, in the order in which they run. */
  lemma {:induction false} SimInOrder(m: Machine, r: Regex, f: Regex, cf: nat, g: Regex, cg: nat, back: bool, pc: nat,
      s: State, stack: seq<nat>, base: seq<Frame>)
    requires f < r && g < r && Fits(m, f, cf) && Fits(m, g, cg) && Boundary(m.inp, s.pos)
    requires Holds(m.prog, pc, Code(m.inp.canon, f, back, cf) + Code(m.inp.canon, g, back, cg))
    ensures Offers(m, Run(pc, s, stack, base), ThenResults(m.inp, g, back, cg, s, Results(m.inp, f, back, cf, s)),
                   pc + Size(Code(m.inp.canon, f, back, cf) + Code(m.inp.canon, g, back, cg)), stack, base)
    decreases r, 4
  {
    hide Offers, Code, Holds, Size, Results, ThenResults, Fits;
    var codeF, codeG := Code(m.inp.canon, f, back, cf), Code(m.inp.canon, g, back, cg);
    HoldsAppend(m.prog, pc, codeF, codeG);
    SizeAppend(codeF, codeG);
    Sim(m, f, back, cf, pc, s, stack, base);
    ResultsBoundary(m.inp, f, back, cf, s);
    SimThen(m, g, back, cg, pc + Size(codeF), s, Run(pc, s, stack, base), Results(m.inp, f, back, cf, s), stack, base);
  }

  lemma {:induction false} SimThen(m: Machine, r: Regex, back: bool, c: nat, pc: nat, s0: State, a: Config,
      xs: seq<State>, stack: seq<nat>, base: seq<Frame>)
    requires Fits(m, r, c) && At(m, pc, r, back, c)
    requires AllAhead(m.inp, back, s0, xs) && AllBoundary(m.inp, xs)
    requires Offers(m, a, xs, pc, stack, base)
    ensures Offers(m, a, ThenResults(m.inp, r, back, c, s0, xs), End(m, pc, r, back, c), stack, base)
    decreases r, 11, |xs|
  {
    hide Offers;
    var end := End(m, pc, r, back, c);
    if xs == [] {
      OffersNothing(m, a, pc, stack, end, stack, base);
    } else {
      var x := OffersFirst(m, a, xs, pc, stack, base);
      Sim(m, r, back, c, pc, xs[0], stack, base + x);
      SimThen(m, r, back, c, pc, s0, Fail(base + x), xs[1..], stack, base);
      OffersThen(m, a, Run(pc, xs[0], stack, base + x), Results(m.inp, r, back, c, xs[0]),
        ThenResults(m.inp, r, back, c, s0, xs[1..]), end, stack, base, x);
    }
  }

  lemma EitherShape(m: Machine, r1: Regex, r2: Regex, back: bool, c: nat, pc: nat, s: State, stack: seq<nat>,
      base: seq<Frame>)
    returns (goto: nat, size2: nat, f: Frame)
    requires Fits(m, Either(r1, r2), c) && At(m, pc, Either(r1, r2), back, c) && Boundary(m.inp, s.pos)
    ensures Fits(m, r1, c) && At(m, pc + 5, r1, back, c) && goto == End(m, pc + 5, r1, back, c)
    ensures Fetch(m.prog, goto) == Some(Goto(size2))
    ensures Fits(m, r2, c + Groups(r1)) && At(m, goto + 5, r2, back, c + Groups(r1))
    ensures goto + 5 + size2 == End(m, goto + 5, r2, back, c + Groups(r1)) == End(m, pc, Either(r1, r2), back, c)
    ensures f == Frame(SplitFrame, 0, s, goto + 5, stack)
    ensures Step(m, Run(pc, s, stack, base)) == Run(pc + 5, s, stack, base + [f])
  {
    hide Holds, Size;
    var code1, code2 := Code(m.inp.canon, r1, back, c), Code(m.inp.canon, r2, back, c + Groups(r1));
    var split := Split(true, Size(code1) + 5);
    HoldsAppend(m.prog, pc, [split] + code1 + [Goto(Size(code2))], code2);
    SizeAppend([split] + code1 + [Goto(Size(code2))], code2);
    HoldsBetween(m.prog, pc, split, code1, Goto(Size(code2)));
    goto, size2 := pc + 5 + Size(code1), Size(code2);
    f := Frame(SplitFrame, 0, s, goto + 5, stack);
  }

  lemma {:induction false} EitherResults(inp: Input, r1: Regex, r2: Regex, back: bool, c: nat, s: State,
      xs: seq<State>, ys: seq<State>)
    requires s.pos <= |inp.units|
    requires xs == Results(inp, r1, back, c, s) && ys == Results(inp, r2, back, c + Groups(r1), s)
    ensures Results(inp, Either(r1, r2), back, c, s) == xs + ys
  {
    hide ThenResults, RepeatResults, AtomResults, RefEnd, Satisfied, ResetCaps, AllAhead, Ahead, Groups, CloseGroup,
      SetCap, ResetState, OptionalRounds;
  }

  lemma {:induction false} SimEither(m: Machine, r1: Regex, r2: Regex, back: bool, c: nat, pc: nat, s: State,
      stack: seq<nat>, base: seq<Frame>)
    requires Fits(m, Either(r1, r2), c) && At(m, pc, Either(r1, r2), back, c) && Boundary(m.inp, s.pos)
    ensures Offers(m, Run(pc, s, stack, base), Results(m.inp, Either(r1, r2), back, c, s),
      End(m, pc, Either(r1, r2), back, c), stack, base)
    decreases Either(r1, r2), 5
  {
    hide *;
    var c2 := c + Groups(r1);
    BoundaryInside(m.inp, s.pos);
    var xs, ys := Results(m.inp, r1, back, c, s), Results(m.inp, r2, back, c2, s);
    EitherResults(m.inp, r1, r2, back, c, s, xs, ys);
    var goto, size2, f := EitherShape(m, r1, r2, back, c, pc, s, stack, base);
    var end := goto + 5 + size2;

    assert Offers(m, Run(pc, s, stack, base), xs, end, stack, base + [f]) by {
      Sim(m, r1, back, c, pc + 5, s, stack, base + [f]);
      ResultsBoundary(m.inp, r1, back, c, s);
      GotoEach(m, Run(pc + 5, s, stack, base + [f]), xs, goto, size2, stack, base + [f]);
      OffersStep(m, Run(pc, s, stack, base), xs, end, stack, base + [f]);
    }
    FailIntoSplit(m, base, f);
    assert Offers(m, Fail(base + [f]), ys, end, stack, base) by {
      Sim(m, r2, back, c2, goto + 5, s, stack, base);
      OffersStep(m, Fail(base + [f]), ys, end, stack, base);
    }
    OffersAppend(m, Run(pc, s, stack, base), xs, ys, end, stack, base, [f]);
  }

  lemma FailIntoSplit(m: Machine, base: seq<Frame>, f: Frame)
    requires f.kind == SplitFrame
    ensures Step(m, Fail(base + [f])) == Run(f.pc, f.st, f.stack, base)
    ensures NoLook([f])
  {
    assert (base + [f])[..|base + [f]| - 1] == base;
  }

  /** A split offers what the first way offers and then what the second one does. */
  lemma OffersBoth(m: Machine, start: Config, xs: seq<State>, ys: seq<State>, end: int, stack: seq<nat>,
      base: seq<Frame>, f: Frame)
    requires f.kind == SplitFrame && Offers(m, Step(m, start), xs, end, stack, base + [f])
    requires Offers(m, Run(f.pc, f.st, f.stack, base), ys, end, stack, base)
    ensures Offers(m, start, xs + ys, end, stack, base)
  {
    hide *;
    FailIntoSplit(m, base, f);
    OffersStep(m, start, xs, end, stack, base + [f]);
    OffersStep(m, Fail(base + [f]), ys, end, stack, base);
    OffersAppend(m, start, xs, ys, end, stack, base, [f]);
  }

  lemma {:induction false} GotoEach(m: Machine, a: Config, xs: seq<State>, pc: nat, offset: int, stack: seq<nat>,
      base: seq<Frame>)
    requires Fetch(m.prog, pc) == Some(Goto(offset)) && AllBoundary(m.inp, xs)
    requires Offers(m, a, xs, pc, stack, base)
    ensures Offers(m, a, xs, pc + 5 + offset, stack, base)
    decreases |xs|
  {
    hide Offers;
    if xs == [] {
      OffersNothing(m, a, pc, stack, pc + 5 + offset, stack, base);
    } else {
      var x := OffersFirst(m, a, xs, pc, stack, base);
      GotoEach(m, Fail(base + x), xs[1..], pc, offset, stack, base);
      ReachStep(m, Run(pc, xs[0], stack, base + x));
      ReachTrans(m, a, Run(pc, xs[0], stack, base + x), Run(pc + 5 + offset, xs[0], stack, base + x));
      OffersCons(m, a, xs, pc + 5 + offset, stack, base, x);
    }
  }

  lemma LookShape(m: Machine, r1: Regex, negative: bool, behind: bool, back: bool, c: nat, pc: nat, s: State,
      stack: seq<nat>, base: seq<Frame>)
    returns (mt: nat, f: Frame)
    requires Fits(m, Look(r1, negative, behind), c) && At(m, pc, Look(r1, negative, behind), back, c)
      && Boundary(m.inp, s.pos)
    ensures Fits(m, r1, c) && At(m, pc + 5, r1, behind, c) && mt == End(m, pc + 5, r1, behind, c)
    ensures Fetch(m.prog, mt) == Some(Match) && End(m, pc, Look(r1, negative, behind), back, c) == mt + 1
    ensures f == Frame(if negative then NegativeLookFrame else LookFrame, 0, s, mt + 1, stack)
    ensures Step(m, Run(pc, s, stack, base)) == Run(pc + 5, s, stack, base + [f])
  {
    hide Holds, Size;
    var code := Code(m.inp.canon, r1, behind, c);
    HoldsBetween(m.prog, pc, Lookahead(negative, Size(code) + 1), code, Match);
    mt := pc + 5 + Size(code);
    f := Frame(if negative then NegativeLookFrame else LookFrame, 0, s, mt + 1, stack);
  }

  /** What a lookaround frame does when its body fails and when it succeeds. */
  lemma LookFrameSteps(m: Machine, base: seq<Frame>, f: Frame, caps: map<nat, nat>)
    requires f.kind == LookFrame || f.kind == NegativeLookFrame
    ensures Step(m, Fail(base + [f])) == if f.kind == LookFrame then Fail(base) else Run(f.pc, f.st, f.stack, base)
    ensures Step(m, Succeed(caps, base + [f]))
         == if f.kind == LookFrame then Run(f.pc, State(f.st.pos, caps), f.stack, base) else Fail(base)
  {
    assert (base + [f])[..|base + [f]| - 1] == base;
  }

  lemma {:induction false} SimLook(m: Machine, r1: Regex, negative: bool, behind: bool, back: bool, c: nat, pc: nat,
      s: State, stack: seq<nat>, base: seq<Frame>)
    requires Fits(m, Look(r1, negative, behind), c) && At(m, pc, Look(r1, negative, behind), back, c)
      && Boundary(m.inp, s.pos)
    ensures Offers(m, Run(pc, s, stack, base), Results(m.inp, Look(r1, negative, behind), back, c, s),
      End(m, pc, Look(r1, negative, behind), back, c), stack, base)
    decreases r1, 20
  {
    hide Offers, Fits, At, End, Step, Reach;
    var mt, f := LookShape(m, r1, negative, behind, back, c, pc, s, stack, base);
    var xs := Results(m.inp, r1, behind, c, s);
    var inner := Run(pc + 5, s, stack, base + [f]);
    Sim(m, r1, behind, c, pc + 5, s, stack, base + [f]);
    ResultsBoundary(m.inp, r1, behind, c, s);
    var out := Results(m.inp, Look(r1, negative, behind), back, c, s);
    var exit;
    if xs == [] {
      OffersEmpty(m, inner, mt, stack, base + [f]);
      exit := Fail(base + [f]);
    } else {
      MatchPops(m, inner, xs, mt, stack, base + [f]);
      exit := Succeed(xs[0].caps, base + [f]);
    }
    LookFrameSteps(m, base, f, if xs == [] then map[] else xs[0].caps);
    if out == [] { StepsToNone(m, exit, mt + 1, stack, base); }
    else { StepsToOne(m, exit, out[0], mt + 1, stack, base); }
    OffersAfter(m, inner, exit, out, mt + 1, stack, base);
    OffersStep(m, Run(pc, s, stack, base), out, mt + 1, stack, base);
  }

  /** At a match instruction the first result is taken and its choice points are dropped. */
  lemma MatchPops(m: Machine, a: Config, xs: seq<State>, pc: nat, stack: seq<nat>, base: seq<Frame>)
    requires xs != [] && Boundary(m.inp, xs[0].pos) && Fetch(m.prog, pc) == Some(Match)
    requires Offers(m, a, xs, pc, stack, base)
    ensures Reach(m, a, Succeed(xs[0].caps, base))
  {
    hide Offers, Reach;
    var x := OffersFirst(m, a, xs, pc, stack, base);
    var at := Run(pc, xs[0], stack, base + x);
    SucceedPops(m, xs[0].caps, base, x);
    StepThen(m, at, Succeed(xs[0].caps, base));
    ReachTrans(m, a, at, Succeed(xs[0].caps, base));
  }

  // Quantifiers.  `body` is always the code of the atom.

  ghost function Body(m: Machine, r1: Regex, back: bool, c: nat): seq<Instr> {
    Code(m.inp.canon, r1, back, c)
  }

  ghost function RoundSize(m: Machine, r1: Regex, back: bool, c: nat): nat {
    Size(RoundCode(Body(m, r1, back, c)))
  }

  ghost predicate RoundAt(m: Machine, pc: nat, r1: Regex, back: bool, c: nat) {
    Holds(m.prog, pc, RoundCode(Body(m, r1, back, c)))
  }

  lemma RoundShape(m: Machine, r1: Regex, back: bool, c: nat, pc: nat, s: State, stack: seq<nat>, base: seq<Frame>)
    requires Fits(m, r1, c) && RoundAt(m, pc, r1, back, c) && Boundary(m.inp, s.pos)
    ensures if NeedCheckAdvance(Body(m, r1, back, c)) then
        && Step(m, Run(pc, s, stack, base)) == Run(pc + 1, s, stack + [s.pos], base)
        && At(m, pc + 1, r1, back, c)
        && Fetch(m.prog, End(m, pc + 1, r1, back, c)) == Some(CheckAdvance)
        && pc + RoundSize(m, r1, back, c) == End(m, pc + 1, r1, back, c) + 1
      else
        At(m, pc, r1, back, c) && pc + RoundSize(m, r1, back, c) == End(m, pc, r1, back, c)
  {
    hide Code, Holds, Size, NeedCheckAdvance, Fits;
    var body := Body(m, r1, back, c);
    if NeedCheckAdvance(body) {
      HoldsBetween(m.prog, pc, PushCharPos, body, CheckAdvance);
    }
  }

  /** A round offers the results that moved, whether or not the check is there. */
  lemma {:induction false} SimRound(m: Machine, r1: Regex, back: bool, c: nat, pc: nat, s: State, stack: seq<nat>,
      base: seq<Frame>)
    requires Fits(m, r1, c) && RoundAt(m, pc, r1, back, c) && Boundary(m.inp, s.pos)
    ensures Offers(m, Run(pc, s, stack, base), Moved(s, Results(m.inp, r1, back, c, s)),
      pc + RoundSize(m, r1, back, c), stack, base)
    decreases r1, 12
  {
    hide Offers, At, End, Step, Body, RoundSize, RoundAt, NeedCheckAdvance, Fits, Results, Reach, Boundary, AlwaysMoves;
    BoundaryInside(m.inp, s.pos);
    RoundShape(m, r1, back, c, pc, s, stack, base);
    NoCheckMoves(m, r1, back, c);
    var checked := NeedCheckAdvance(Body(m, r1, back, c));
    var xs := Results(m.inp, r1, back, c, s);
    if checked {
      ResultsBoundary(m.inp, r1, back, c, s);
      var stack1 := stack + [s.pos];
      Sim(m, r1, back, c, pc + 1, s, stack1, base);
      CheckEach(m, Run(pc + 1, s, stack1, base), s, xs, End(m, pc + 1, r1, back, c), stack, base);
      OffersStep(m, Run(pc, s, stack, base), Moved(s, xs), pc + RoundSize(m, r1, back, c), stack, base);
    } else {
      Sim(m, r1, back, c, pc, s, stack, base);
      ResultsMove(m.inp, r1, back, c, s);
      MovedAll(s, xs);
    }
  }

  lemma NoCheckMoves(m: Machine, r1: Regex, back: bool, c: nat)
    requires Fits(m, r1, c)
    ensures ValidRegex(r1, INT32_MAX)
    ensures !NeedCheckAdvance(Body(m, r1, back, c)) ==> AlwaysMoves(m.inp, r1, back, c)
  {
    ValidMore(r1, m.captures, INT32_MAX);
  }

  lemma CheckStep(m: Machine, pc: nat, s: State, p: nat, stack: seq<nat>, frames: seq<Frame>)
    requires Fetch(m.prog, pc) == Some(CheckAdvance) && s.pos <= |m.inp.units|
    ensures Step(m, Run(pc, s, stack + [p], frames)) == if s.pos
      == p then Fail(frames) else Run(pc + 1, s, stack, frames)
  {
    assert (stack + [p])[..|stack + [p]| - 1] == stack;
  }

  lemma {:induction false} CheckEach(m: Machine, a: Config, s: State, xs: seq<State>, pc: nat, stack: seq<nat>,
      base: seq<Frame>)
    requires Fetch(m.prog, pc) == Some(CheckAdvance) && AllBoundary(m.inp, xs)
    requires Offers(m, a, xs, pc, stack + [s.pos], base)
    ensures Offers(m, a, Moved(s, xs), pc + 1, stack, base)
    decreases |xs|
  {
    hide Offers, Step, Reach, NoLook;
    if xs == [] {
      OffersNothing(m, a, pc, stack + [s.pos], pc + 1, stack, base);
    } else {
      var x := OffersFirst(m, a, xs, pc, stack + [s.pos], base);
      CheckEach(m, Fail(base + x), s, xs[1..], pc, stack, base);
      var at := Run(pc, xs[0], stack + [s.pos], base + x);
      CheckStep(m, pc, xs[0], s.pos, stack, base + x);
      ReachStep(m, at);
      ReachTrans(m, a, at, Step(m, at));
      if xs[0].pos == s.pos {
        OffersAfter(m, a, Fail(base + x), Moved(s, xs[1..]), pc + 1, stack, base);
        assert Moved(s, xs) == Moved(s, xs[1..]);
      } else {
        assert Moved(s, xs)[1..] == Moved(s, xs[1..]);
        OffersCons(m, a, Moved(s, xs), pc + 1, stack, base, x);
      }
    }
  }

  // The loop of optional rounds.  A counted loop keeps the number of rounds on the stack.

  function StackFor(stack: seq<nat>, more: Option<nat>): seq<nat> {
    if more.Some? then stack + [more.value] else stack
  }

  ghost predicate LoopAt(m: Machine, pc: nat, r1: Regex, counted: bool, greedy: bool, back: bool, c: nat) {
    var n := RoundSize(m, r1, back, c);
    && Fetch(m.prog, pc) == Some(Split(greedy, n + 5))
    && RoundAt(m, pc + 5, r1, back, c)
    && Fetch(m.prog, pc + 5 + n) == Some(if counted then Loop(-(n + 10)) else Goto(-(n + 10)))
    && (counted ==> Fetch(m.prog, pc + n + 10) == Some(Drop))
  }

  /** The address a loop is left for. */
  ghost function LoopExit(m: Machine, pc: nat, r1: Regex, back: bool, c: nat): nat {
    pc + RoundSize(m, r1, back, c) + 10
  }

  lemma LoopShape(m: Machine, pc: nat, r1: Regex, counted: bool, greedy: bool, back: bool, c: nat)
    requires Holds(m.prog, pc, LoopCode(Body(m, r1, back, c), counted, greedy))
    ensures LoopAt(m, pc, r1, counted, greedy, back, c)
    ensures pc + Size(LoopCode(Body(m, r1, back, c), counted, greedy))
         == LoopExit(m, pc, r1, back, c) + (if counted then 1 else 0)
  {
    hide Code, RoundCode, Holds, Size, Fetch;
    var round := RoundCode(Body(m, r1, back, c));
    var n: int := Size(round);
    var split := Split(greedy, n + 5);
    if counted {
      assert LoopCode(Body(m, r1, back, c), counted, greedy) == ([split] + round + [Loop(-(n + 10))]) + [Drop];
      HoldsAppend(m.prog, pc, [split] + round + [Loop(-(n + 10))], [Drop]);
      SizeAppend([split] + round + [Loop(-(n + 10))], [Drop]);
      HoldsBetween(m.prog, pc, split, round, Loop(-(n + 10)));
      HoldsOne(m.prog, pc + n + 10, Drop);
    } else {
      HoldsBetween(m.prog, pc, split, round, Goto(-(n + 10)));
    }
  }

  lemma LoopRound(m: Machine, pc: nat, r1: Regex, counted: bool, greedy: bool, back: bool, c: nat)
    requires LoopAt(m, pc, r1, counted, greedy, back, c)
    ensures RoundAt(m, pc + 5, r1, back, c)
  {
  }

  /** Leaving a loop removes its counter. */
  lemma LeaveLoop(m: Machine, pc: nat, r1: Regex, greedy: bool, more: Option<nat>, back: bool, c: nat, s: State,
      stack: seq<nat>, base: seq<Frame>)
    requires LoopAt(m, pc, r1, more.Some?, greedy, back, c) && Boundary(m.inp, s.pos)
    ensures var exit := LoopExit(m, pc, r1, back, c);
      Offers(m, Run(exit, s, StackFor(stack, more), base), [s], exit + (if more.Some? then 1 else 0), stack, base)
  {
    hide Offers, RoundAt, RoundSize, Holds;
    var exit := LoopExit(m, pc, r1, back, c);
    if more.Some? {
      assert StackFor(stack, more)[..|StackFor(stack, more)| - 1] == stack;
      StepsToOne(m, Run(exit, s, StackFor(stack, more), base), s, exit + 1, stack, base);
    } else {
      OffersOne(m, s, exit, stack, base);
    }
  }

  /** The two machine steps of a loop: at its head and behind a round. */
  lemma LoopSteps(m: Machine, pc: nat, r1: Regex, greedy: bool, more: Option<nat>, back: bool, c: nat, s: State,
      stack: seq<nat>, base: seq<Frame>)
    returns (f: Frame)
    requires LoopAt(m, pc, r1, more.Some?, greedy, back, c) && Boundary(m.inp, s.pos)
    requires more.Some? ==> more.value > 0
    ensures var exit := LoopExit(m, pc, r1, back, c);
      && f == Frame(SplitFrame, 0, s, if greedy then exit else pc + 5, StackFor(stack, more))
      && Step(m, Run(pc, s, StackFor(stack, more), base))
         == Run(if greedy then pc + 5 else exit, s, StackFor(stack, more), base + [f])
    ensures Step(m, Run(pc + 5 + RoundSize(m, r1, back, c), s, StackFor(stack, more), base))
         == Run(if OneLess(more) == Some(0) then LoopExit(m, pc, r1, back, c) else pc, s,
           StackFor(stack, OneLess(more)), base)
  {
    hide RoundSize, RoundAt, Boundary, Step, Fetch, OneLess, StackFor;
    SplitStep(m, greedy, RoundSize(m, r1, back, c) + 5, pc, s, StackFor(stack, more), base);
    f := Frame(SplitFrame, 0, s, if greedy then LoopExit(m, pc, r1, back, c) else pc + 5, StackFor(stack, more));
    LoopBack(m, pc, r1, greedy, more, back, c, s, stack, base);
  }

  lemma LoopBack(m: Machine, pc: nat, r1: Regex, greedy: bool, more: Option<nat>, back: bool, c: nat, s: State,
      stack: seq<nat>, base: seq<Frame>)
    requires LoopAt(m, pc, r1, more.Some?, greedy, back, c) && Boundary(m.inp, s.pos)
    requires more.Some? ==> more.value > 0
    ensures Step(m, Run(pc + 5 + RoundSize(m, r1, back, c), s, StackFor(stack, more), base))
         == Run(if OneLess(more) == Some(0) then LoopExit(m, pc, r1, back, c) else pc, s,
           StackFor(stack, OneLess(more)), base)
  {
    var n: int := RoundSize(m, r1, back, c);
    var g := pc + 5 + n;
    BoundaryInside(m.inp, s.pos);
    LoopFetch(m, pc, r1, more.Some?, greedy, back, c);
    hide *;
    OneLessIs(more);
    StackIs(stack, more);
    StackIs(stack, OneLess(more));
    if more.Some? {
      LoopStep(m, g, -(n + 10), s, stack, more.value, base);
    } else {
      GotoStep(m, g, -(n + 10), s, stack, base);
    }
  }

  lemma LoopFetch(m: Machine, pc: nat, r1: Regex, counted: bool, greedy: bool, back: bool, c: nat)
    requires LoopAt(m, pc, r1, counted, greedy, back, c)
    ensures var n := RoundSize(m, r1, back, c);
      && LoopExit(m, pc, r1, back, c) == pc + n + 10
      && Fetch(m.prog, pc + 5 + n) == Some(if counted then Loop(-(n + 10)) else Goto(-(n + 10)))
  {
  }

  lemma StackIs(stack: seq<nat>, more: Option<nat>)
    ensures StackFor(stack, more) == if more.Some? then stack + [more.value] else stack
  {
  }

  lemma LoopStep(m: Machine, pc: nat, offset: int, s: State, stack: seq<nat>, count: nat, base: seq<Frame>)
    requires Fetch(m.prog, pc) == Some(Loop(offset)) && count > 0 && s.pos <= |m.inp.units| && pc + 5 + offset >= 0
    ensures Step(m, Run(pc, s, stack + [count], base))
         == if count > 1 then Run(pc + 5 + offset, s, stack + [count - 1], base) else Run(pc + 5, s, stack + [0], base)
  {
    assert (stack + [count])[..|stack|] == stack;
  }

  lemma GotoStep(m: Machine, pc: nat, offset: int, s: State, stack: seq<nat>, base: seq<Frame>)
    requires Fetch(m.prog, pc) == Some(Goto(offset)) && s.pos <= |m.inp.units| && pc + 5 + offset >= 0
    ensures Step(m, Run(pc, s, stack, base)) == Run(pc + 5 + offset, s, stack, base)
  {
  }

  lemma {:induction false} SimLoop(m: Machine, r1: Regex, greedy: bool, more: Option<nat>, back: bool, c: nat,
      pc: nat, s: State, stack: seq<nat>, base: seq<Frame>)
    requires Fits(m, r1, c) && LoopAt(m, pc, r1, more.Some?, greedy, back, c) && Boundary(m.inp, s.pos)
    requires more.Some? ==> more.value > 0
    ensures Offers(m, Run(pc, s, StackFor(stack, more), base), LoopResults(m.inp, r1, more, greedy, back, c, s),
                   LoopExit(m, pc, r1, back, c) + (if more.Some? then 1 else 0), stack, base)
    decreases r1, 13, Room(m.inp, back, s), 1, 0
  {
    hide Offers, Fits, LoopAt, LoopExit, Step, StackFor, RoundSize, RoundAt, Results, NoLook, Reach, ThenLoop;
    LoopRound(m, pc, r1, more.Some?, greedy, back, c);
    var exit := LoopExit(m, pc, r1, back, c);
    var end := exit + (if more.Some? then 1 else 0);
    var stack1 := StackFor(stack, more);
    var f := LoopSteps(m, pc, r1, greedy, more, back, c, s, stack, base);
    var xs := Results(m.inp, r1, back, c, s);
    var start := Run(pc, s, stack1, base);
    ResultsBoundary(m.inp, r1, back, c, s);
    MovedAhead(m.inp, back, s, xs);
    var again := ThenLoop(m.inp, r1, OneLess(more), greedy, back, c, s, Moved(s, xs));
    var base1 := if greedy then base + [f] else base;
    SimRound(m, r1, back, c, pc + 5, s, stack1, base1);
    SimThenLoop(m, r1, greedy, more, back, c, pc, s, Run(pc + 5, s, stack1, base1), Moved(s, xs), stack, base1);
    LeaveLoop(m, pc, r1, greedy, more, back, c, s, stack, if greedy then base else base + [f]);
    if greedy {
      OffersBoth(m, start, again, [s], end, stack, base, f);
    } else {
      OffersBoth(m, start, [s], again, end, stack, base, f);
    }
  }

  lemma {:induction false} SimThenLoop(m: Machine, r1: Regex, greedy: bool, more: Option<nat>, back: bool, c: nat,
      pc: nat, s0: State, a: Config, xs: seq<State>, stack: seq<nat>, base: seq<Frame>)
    requires Fits(m, r1, c) && LoopAt(m, pc, r1, more.Some?, greedy, back, c) && s0.pos <= |m.inp.units|
    requires more.Some? ==> more.value > 0
    requires AllAhead(m.inp, back, s0, xs) && AllBoundary(m.inp, xs) && AllMoved(s0, xs)
    requires Offers(m, a, xs, pc + 5 + RoundSize(m, r1, back, c), StackFor(stack, more), base)
    ensures Offers(m, a, ThenLoop(m.inp, r1, OneLess(more), greedy, back, c, s0, xs),
                   LoopExit(m, pc, r1, back, c) + (if more.Some? then 1 else 0), stack, base)
    decreases r1, 13, Room(m.inp, back, s0), 0, |xs|
  {
    hide *;
    var g := pc + 5 + RoundSize(m, r1, back, c);
    var end := LoopExit(m, pc, r1, back, c) + (if more.Some? then 1 else 0);
    var next := OneLess(more);
    ThenLoopUnfold(m.inp, r1, next, greedy, back, c, s0, xs);
    if xs == [] {
      OffersNothing(m, a, g, StackFor(stack, more), end, stack, base);
    } else {
      var x := OffersFirst(m, a, xs, g, StackFor(stack, more), base);
      SimThenLoop(m, r1, greedy, more, back, c, pc, s0, Fail(base + x), xs[1..], stack, base);
      var at := Run(g, xs[0], StackFor(stack, more), base + x);
      var _ := LoopSteps(m, pc, r1, greedy, more, back, c, xs[0], stack, base + x);
      var ys := LoopResults(m.inp, r1, next, greedy, back, c, xs[0]);
      OneLessIs(more);
      if next == Some(0) {
        LeaveLoop(m, pc, r1, greedy, next, back, c, xs[0], stack, base + x);
      } else {
        SimLoop(m, r1, greedy, next, back, c, pc, xs[0], stack, base + x);
      }
      OffersStep(m, at, ys, end, stack, base + x);
      OffersThen(m, a, at, ys, ThenLoop(m.inp, r1, next, greedy, back, c, s0, xs[1..]), end, stack, base, x);
    }
  }

  lemma ThenLoopUnfold(inp: Input, r: Regex, more: Option<nat>, greedy: bool, back: bool, c: nat, s0: State,
      xs: seq<State>)
    requires s0.pos <= |inp.units| && AllAhead(inp, back, s0, xs) && AllBoundary(inp, xs) && AllMoved(s0, xs)
    ensures forall k :: 0 <= k < |xs| ==> xs[k].pos != s0.pos
    ensures if xs == [] then ThenLoop(inp, r, more, greedy, back, c, s0, xs) == [] else
      && Boundary(inp, xs[0].pos) && xs[0].pos <= |inp.units| && Room(inp, back, xs[0]) < Room(inp, back, s0)
      && AllAhead(inp, back, s0, xs[1..]) && AllBoundary(inp, xs[1..]) && AllMoved(s0, xs[1..])
      && (forall k :: 0 <= k < |xs[1..]| ==> xs[1..][k].pos != s0.pos)
      && ThenLoop(inp, r, more, greedy, back, c, s0, xs)
         == LoopResults(inp, r, more, greedy, back, c, xs[0]) + ThenLoop(inp, r, more, greedy, back, c, s0, xs[1..])
      && (more == Some(0) ==> LoopResults(inp, r, more, greedy, back, c, xs[0]) == [xs[0]])
  {
  }

  lemma OneLessIs(more: Option<nat>)
    requires more.Some? ==> more.value > 0
    ensures OneLess(more) == if more.Some? then Some(more.value - 1) else None
  {
  }

  /** The further rounds after the mandatory ones. */
  lemma {:induction false} SimMore(m: Machine, r1: Regex, min: nat, max: nat, greedy: bool, back: bool, c: nat,
      pc: nat, s: State, stack: seq<nat>, base: seq<Frame>)
    requires Fits(m, r1, c) && Boundary(m.inp, s.pos)
    requires Holds(m.prog, pc, MoreCode(Body(m, r1, back, c), min, max, greedy))
    ensures Offers(m, Run(pc, s, stack, base), LoopResults(m.inp, r1, OptionalRounds(min, max), greedy, back, c, s),
                   pc + Size(MoreCode(Body(m, r1, back, c), min, max, greedy)), stack, base)
    decreases r1, 14
  {
    hide Offers, Fits, LoopAt, LoopCode, Body, LoopResults, RoundSize, LoopExit;
    var body := Body(m, r1, back, c);
    if max == INT32_MAX {
      LoopShape(m, pc, r1, false, greedy, back, c);
      SimLoop(m, r1, greedy, None, back, c, pc, s, stack, base);
    } else if max > min {
      HoldsCons(m.prog, pc, PushI32(max - min), LoopCode(body, true, greedy));
      LoopShape(m, pc + 5, r1, true, greedy, back, c);
      SimLoop(m, r1, greedy, Some(max - min), back, c, pc + 5, s, stack, base);
      OffersStep(m, Run(pc, s, stack, base), LoopResults(m.inp, r1, Some(max - min), greedy, back, c, s),
                 pc + Size(MoreCode(body, min, max, greedy)), stack, base);
    } else {
      LoopDone(m.inp, r1, greedy, back, c, s);
      OffersOne(m, s, pc, stack, base);
    }
  }

  lemma LoopDone(inp: Input, r: Regex, greedy: bool, back: bool, c: nat, s: State)
    requires s.pos <= |inp.units|
    ensures LoopResults(inp, r, Some(0), greedy, back, c, s) == [s]
  {
  }

  /** Behind the last mandatory round each result goes on with the further rounds. */
  lemma {:induction false} SimThenMore(m: Machine, r1: Regex, min: nat, max: nat, greedy: bool, back: bool, c: nat,
      pc: nat, s0: State, a: Config, xs: seq<State>, stack: seq<nat>, base: seq<Frame>)
    requires Fits(m, r1, c) && Holds(m.prog, pc, MoreCode(Body(m, r1, back, c), min, max, greedy))
    requires AllAhead(m.inp, back, s0, xs) && AllBoundary(m.inp, xs)
    requires Offers(m, a, xs, pc, stack, base)
    ensures Offers(m, a, ThenRepeat(m.inp, r1, 0, OptionalRounds(min, max), greedy, back, c, s0, xs),
                   pc + Size(MoreCode(Body(m, r1, back, c), min, max, greedy)), stack, base)
    decreases r1, 15, |xs|
  {
    hide Offers, Fits, LoopResults, MoreCode, Holds, Body, Reach, NoLook;
    var end := pc + Size(MoreCode(Body(m, r1, back, c), min, max, greedy));
    if xs == [] {
      OffersNothing(m, a, pc, stack, end, stack, base);
    } else {
      var x := OffersFirst(m, a, xs, pc, stack, base);
      var more := OptionalRounds(min, max);
      var ys := LoopResults(m.inp, r1, more, greedy, back, c, xs[0]);
      SimMore(m, r1, min, max, greedy, back, c, pc, xs[0], stack, base + x);
      SimThenMore(m, r1, min, max, greedy, back, c, pc, s0, Fail(base + x), xs[1..], stack, base);
      OffersThen(m, a, Run(pc, xs[0], stack, base + x), ys,
        ThenRepeat(m.inp, r1, 0, more, greedy, back, c, s0, xs[1..]), end, stack, base, x);
    }
  }

  // n >= 2 mandatory rounds, counted down on the stack.

  ghost predicate RepeatAt(m: Machine, pc: nat, r1: Regex, min: nat, max: nat, greedy: bool, back: bool, c: nat) {
    var g := End(m, pc, r1, back, c);
    && At(m, pc, r1, back, c)
    && Fetch(m.prog, g) == Some(Loop(pc - (g + 5)))
    && Fetch(m.prog, g + 5) == Some(Drop)
    && Holds(m.prog, g + 6, MoreCode(Body(m, r1, back, c), min, max, greedy))
  }

  ghost function RepeatEnd(m: Machine, pc: nat, r1: Regex, min: nat, max: nat, greedy: bool, back: bool, c: nat): nat {
    End(m, pc, r1, back, c) + 6 + Size(MoreCode(Body(m, r1, back, c), min, max, greedy))
  }

  lemma RepeatShape(m: Machine, pc: nat, r1: Regex, min: nat, max: nat, greedy: bool, back: bool, c: nat)
    requires min > 1
    requires Holds(m.prog, pc, RepeatCode(Body(m, r1, back, c), min) + MoreCode(Body(m, r1, back, c), min, max, greedy))
    ensures Fetch(m.prog, pc) == Some(PushI32(min)) && RepeatAt(m, pc + 5, r1, min, max, greedy, back, c)
    ensures pc + Size(RepeatCode(Body(m, r1, back, c), min) + MoreCode(Body(m, r1, back, c), min, max, greedy))
         == RepeatEnd(m, pc + 5, r1, min, max, greedy, back, c)
  {
    hide Holds, Size, MoreCode, Fetch, Code;
    var body := Body(m, r1, back, c);
    var more := MoreCode(body, min, max, greedy);
    HoldsAppend(m.prog, pc, RepeatCode(body, min), more);
    SizeAppend(RepeatCode(body, min), more);
    var jump: int := -(Size(body) + 5);
    assert RepeatCode(body, min) == ([PushI32(min)] + body + [Loop(jump)]) + [Drop];
    HoldsAppend(m.prog, pc, [PushI32(min)] + body + [Loop(jump)], [Drop]);
    SizeAppend([PushI32(min)] + body + [Loop(jump)], [Drop]);
    HoldsBetween(m.prog, pc, PushI32(min), body, Loop(jump));
    HoldsOne(m.prog, pc + 10 + Size(body), Drop);
  }

  lemma RepeatSteps(m: Machine, pc: nat, r1: Regex, k: nat, min: nat, max: nat, greedy: bool, back: bool, c: nat,
      s: State, stack: seq<nat>, base: seq<Frame>)
    requires RepeatAt(m, pc, r1, min, max, greedy, back, c) && Boundary(m.inp, s.pos)
    ensures var g := End(m, pc, r1, back, c);
      && Step(m, Run(g, s, stack + [k + 1], base)) == Run(if k == 0 then g + 5 else pc, s, stack + [k], base)
      && Step(m, Run(g + 5, s, stack + [k], base)) == Run(g + 6, s, stack, base)
  {
    hide Holds, Size, At, MoreCode;
    assert (stack + [k + 1])[..|stack + [k + 1]| - 1] == stack;
    assert (stack + [k])[..|stack + [k]| - 1] == stack;
  }

  lemma {:induction false} SimRepeat(m: Machine, r1: Regex, k: nat, min: nat, max: nat, greedy: bool, back: bool,
      c: nat, pc: nat, s: State, stack: seq<nat>, base: seq<Frame>)
    requires Fits(m, r1, c) && RepeatAt(m, pc, r1, min, max, greedy, back, c) && Boundary(m.inp, s.pos) && k > 0
    ensures Offers(m, Run(pc, s, stack + [k], base), RepeatResults(m.inp, r1, k, OptionalRounds(min, max), greedy,
      back, c, s),
                   RepeatEnd(m, pc, r1, min, max, greedy, back, c), stack, base)
    decreases r1, 16, k, 0, 0
  {
    hide *;
    RepeatBody(m, pc, r1, min, max, greedy, back, c);
    BoundaryInside(m.inp, s.pos);
    RepeatUnfold(m.inp, r1, k, OptionalRounds(min, max), greedy, back, c, s);
    Sim(m, r1, back, c, pc, s, stack + [k], base);
    ResultsBoundary(m.inp, r1, back, c, s);
    SimThenRepeat(m, r1, k - 1, min, max, greedy, back, c, pc, s, Run(pc, s, stack + [k], base),
      Results(m.inp, r1, back, c, s), stack, base);
  }

  lemma RepeatBody(m: Machine, pc: nat, r1: Regex, min: nat, max: nat, greedy: bool, back: bool, c: nat)
    requires RepeatAt(m, pc, r1, min, max, greedy, back, c)
    ensures At(m, pc, r1, back, c)
    ensures Holds(m.prog, End(m, pc, r1, back, c) + 6, MoreCode(Body(m, r1, back, c), min, max, greedy))
    ensures RepeatEnd(m, pc, r1, min, max, greedy, back, c)
         == End(m, pc, r1, back, c) + 6 + Size(MoreCode(Body(m, r1, back, c), min, max, greedy))
  {
  }

  lemma {:induction false} SimThenRepeat(m: Machine, r1: Regex, k: nat, min: nat, max: nat, greedy: bool, back: bool,
      c: nat, pc: nat, s0: State, a: Config, xs: seq<State>, stack: seq<nat>, base: seq<Frame>)
    requires Fits(m, r1, c) && RepeatAt(m, pc, r1, min, max, greedy, back, c)
    requires AllAhead(m.inp, back, s0, xs) && AllBoundary(m.inp, xs)
    requires Offers(m, a, xs, End(m, pc, r1, back, c), stack + [k + 1], base)
    ensures Offers(m, a, ThenRepeat(m.inp, r1, k, OptionalRounds(min, max), greedy, back, c, s0, xs),
                   RepeatEnd(m, pc, r1, min, max, greedy, back, c), stack, base)
    decreases r1, 16, k, 1, |xs|
  {
    hide *;
    RepeatBody(m, pc, r1, min, max, greedy, back, c);
    ThenRepeatUnfold(m.inp, r1, k, OptionalRounds(min, max), greedy, back, c, s0, xs);
    var g := End(m, pc, r1, back, c);
    var end := RepeatEnd(m, pc, r1, min, max, greedy, back, c);
    if xs == [] {
      OffersNothing(m, a, g, stack + [k + 1], end, stack, base);
    } else {
      var x := OffersFirst(m, a, xs, g, stack + [k + 1], base);
      var more := OptionalRounds(min, max);
      var ys := RepeatResults(m.inp, r1, k, more, greedy, back, c, xs[0]);
      var at := Run(g, xs[0], stack + [k + 1], base + x);
      SimAfterRound(m, r1, k, min, max, greedy, back, c, pc, xs[0], stack, base + x);
      SimThenRepeat(m, r1, k, min, max, greedy, back, c, pc, s0, Fail(base + x), xs[1..], stack, base);
      OffersThen(m, a, at, ys, ThenRepeat(m.inp, r1, k, more, greedy, back, c, s0, xs[1..]), end, stack, base, x);
    }
  }

  /** Behind a mandatory round: the next one, or the optional rounds. */
  lemma {:induction false} SimAfterRound(m: Machine, r1: Regex, k: nat, min: nat, max: nat, greedy: bool, back: bool,
      c: nat, pc: nat, s: State, stack: seq<nat>, base: seq<Frame>)
    requires Fits(m, r1, c) && RepeatAt(m, pc, r1, min, max, greedy, back, c) && Boundary(m.inp, s.pos)
    ensures Offers(m, Run(End(m, pc, r1, back, c), s, stack + [k + 1], base),
      RepeatResults(m.inp, r1, k, OptionalRounds(min, max), greedy, back, c, s),
        RepeatEnd(m, pc, r1, min, max, greedy, back, c), stack, base)
    decreases r1, 16, k, 1, 0
  {
    hide *;
    RepeatBody(m, pc, r1, min, max, greedy, back, c);
    RepeatSteps(m, pc, r1, k, min, max, greedy, back, c, s, stack, base);
    BoundaryInside(m.inp, s.pos);
    var g := End(m, pc, r1, back, c);
    var end := RepeatEnd(m, pc, r1, min, max, greedy, back, c);
    var ys := RepeatResults(m.inp, r1, k, OptionalRounds(min, max), greedy, back, c, s);
    if k == 0 {
      SimMore(m, r1, min, max, greedy, back, c, g + 6, s, stack, base);
      NoRounds(m.inp, r1, OptionalRounds(min, max), greedy, back, c, s);
      OffersStep(m, Run(g + 5, s, stack + [k], base), ys, end, stack, base);
    } else {
      SimRepeat(m, r1, k, min, max, greedy, back, c, pc, s, stack, base);
    }
    OffersStep(m, Run(g, s, stack + [k + 1], base), ys, end, stack, base);
  }

  lemma NoRounds(inp: Input, r: Regex, more: Option<nat>, greedy: bool, back: bool, c: nat, s: State)
    requires s.pos <= |inp.units|
    ensures RepeatResults(inp, r, 0, more, greedy, back, c, s) == LoopResults(inp, r, more, greedy, back, c, s)
  {
    hide LoopResults;
  }

  lemma RepeatUnfold(inp: Input, r: Regex, n: nat, more: Option<nat>, greedy: bool, back: bool, c: nat, s: State)
    requires s.pos <= |inp.units| && n > 0
    ensures RepeatResults(inp, r, n, more, greedy, back, c, s)
         == ThenRepeat(inp, r, n - 1, more, greedy, back, c, s, Results(inp, r, back, c, s))
  {
  }

  lemma ThenRepeatUnfold(inp: Input, r: Regex, n: nat, more: Option<nat>, greedy: bool, back: bool, c: nat, s0: State,
      xs: seq<State>)
    requires AllAhead(inp, back, s0, xs) && AllBoundary(inp, xs)
    ensures if xs == [] then ThenRepeat(inp, r, n, more, greedy, back, c, s0, xs) == [] else
      && Boundary(inp, xs[0].pos) && xs[0].pos <= |inp.units|
      && AllAhead(inp, back, s0, xs[1..]) && AllBoundary(inp, xs[1..])
      && ThenRepeat(inp, r, n, more, greedy, back, c, s0, xs)
         == RepeatResults(inp, r, n, more, greedy, back, c, xs[0]) + ThenRepeat(inp, r, n, more, greedy, back, c, s0,
           xs[1..])
      && (n == 0 ==>
        RepeatResults(inp, r, n, more, greedy, back, c, xs[0]) == LoopResults(inp, r, more, greedy, back, c, xs[0]))
  {
    hide LoopResults;
  }

  /** The general case of a quantifier with min > 0. */
  lemma {:induction false} SimMandatory(m: Machine, r1: Regex, min: nat, max: nat, greedy: bool, back: bool, c: nat,
      pc: nat, s: State, stack: seq<nat>, base: seq<Frame>)
    requires Fits(m, r1, c) && Boundary(m.inp, s.pos) && min > 0
    requires Holds(m.prog, pc, RepeatCode(Body(m, r1, back, c), min) + MoreCode(Body(m, r1, back, c), min, max, greedy))
    ensures Offers(m, Run(pc, s, stack, base), RepeatResults(m.inp, r1, min, OptionalRounds(min, max), greedy, back,
      c, s),
                   pc + Size(RepeatCode(Body(m, r1, back, c), min) + MoreCode(Body(m, r1, back, c), min, max,
                     greedy)), stack, base)
    decreases r1, 17
  {
    hide Offers, Fits, Results, ThenRepeat, RepeatAt, RepeatEnd, MoreCode, Reach, LoopResults, AllAhead;
    var body := Body(m, r1, back, c);
    if min == 1 {
      hide Code, Holds, Size, Step;
      HoldsAppend(m.prog, pc, body, MoreCode(body, min, max, greedy));
      SizeAppend(body, MoreCode(body, min, max, greedy));
      Sim(m, r1, back, c, pc, s, stack, base);
      ResultsBoundary(m.inp, r1, back, c, s);
      SimThenMore(m, r1, min, max, greedy, back, c, pc + Size(body), s, Run(pc, s, stack, base),
        Results(m.inp, r1, back, c, s), stack, base);
    } else {
      RepeatShape(m, pc, r1, min, max, greedy, back, c);
      var xs := RepeatResults(m.inp, r1, min, OptionalRounds(min, max), greedy, back, c, s);
      SimRepeat(m, r1, min, min, max, greedy, back, c, pc + 5, s, stack, base);
      OffersStep(m, Run(pc, s, stack, base), xs, RepeatEnd(m, pc + 5, r1, min, max, greedy, back, c), stack, base);
    }
  }

  // One or more rounds of an atom that always moves: the split stands behind the atom.

  ghost predicate PlusAt(m: Machine, pc: nat, r1: Regex, greedy: bool, back: bool, c: nat) {
    var g := End(m, pc, r1, back, c);
    && At(m, pc, r1, back, c) && !NeedCheckAdvance(Body(m, r1, back, c))
    && Fetch(m.prog, g) == Some(Split(!greedy, pc - (g + 5)))
  }

  lemma PlusStep(m: Machine, pc: nat, r1: Regex, greedy: bool, back: bool, c: nat, s: State, stack: seq<nat>,
      base: seq<Frame>)
    returns (f: Frame)
    requires PlusAt(m, pc, r1, greedy, back, c) && Boundary(m.inp, s.pos)
    ensures var g := End(m, pc, r1, back, c);
      && f == Frame(SplitFrame, 0, s, if greedy then g + 5 else pc, stack)
      && Step(m, Run(g, s, stack, base)) == Run(if greedy then pc else g + 5, s, stack, base + [f])
    ensures At(m, pc, r1, back, c) && !NeedCheckAdvance(Body(m, r1, back, c))
  {
    hide End, At, NeedCheckAdvance, Step, Fetch, Boundary;
    var g: int := End(m, pc, r1, back, c);
    f := Frame(SplitFrame, 0, s, if greedy then g + 5 else pc, stack);
    SplitStep(m, !greedy, pc - (g + 5), g, s, stack, base);
  }

  lemma {:induction false} SimPlusTail(m: Machine, r1: Regex, greedy: bool, back: bool, c: nat, pc: nat, s: State,
      stack: seq<nat>, base: seq<Frame>)
    requires Fits(m, r1, c) && PlusAt(m, pc, r1, greedy, back, c) && Boundary(m.inp, s.pos)
    ensures Offers(m, Run(End(m, pc, r1, back, c), s, stack, base), LoopResults(m.inp, r1, None, greedy, back, c, s),
                   End(m, pc, r1, back, c) + 5, stack, base)
    decreases r1, 13, Room(m.inp, back, s), 1, 0
  {
    hide Offers, Fits, PlusAt, At, End, Step, Results, Reach, NoLook, ThenLoop, NeedCheckAdvance, AlwaysMoves;
    var g := End(m, pc, r1, back, c);
    var f := PlusStep(m, pc, r1, greedy, back, c, s, stack, base);
    NoCheckMoves(m, r1, back, c);
    BoundaryInside(m.inp, s.pos);
    var xs := Results(m.inp, r1, back, c, s);
    ResultsMove(m.inp, r1, back, c, s);
    MovedAll(s, xs);
    ResultsBoundary(m.inp, r1, back, c, s);
    var start := Run(g, s, stack, base);
    var again := ThenLoop(m.inp, r1, None, greedy, back, c, s, xs);
    var base1 := if greedy then base + [f] else base;
    Sim(m, r1, back, c, pc, s, stack, base1);
    SimThenPlus(m, r1, greedy, back, c, pc, s, Run(pc, s, stack, base1), xs, stack, base1);
    OffersOne(m, s, g + 5, stack, if greedy then base else base + [f]);
    if greedy {
      OffersBoth(m, start, again, [s], g + 5, stack, base, f);
    } else {
      OffersBoth(m, start, [s], again, g + 5, stack, base, f);
    }
  }

  lemma {:induction false} SimThenPlus(m: Machine, r1: Regex, greedy: bool, back: bool, c: nat, pc: nat, s0: State,
      a: Config, xs: seq<State>, stack: seq<nat>, base: seq<Frame>)
    requires Fits(m, r1, c) && PlusAt(m, pc, r1, greedy, back, c) && s0.pos <= |m.inp.units|
    requires AllAhead(m.inp, back, s0, xs) && AllBoundary(m.inp, xs) && AllMoved(s0, xs)
    requires Offers(m, a, xs, End(m, pc, r1, back, c), stack, base)
    ensures Offers(m, a, ThenLoop(m.inp, r1, None, greedy, back, c, s0, xs), End(m, pc, r1, back, c) + 5, stack, base)
    decreases r1, 13, Room(m.inp, back, s0), 0, |xs|
  {
    hide Offers, Fits, PlusAt, End, Step, Reach, NoLook, LoopResults;
    var g := End(m, pc, r1, back, c);
    if xs == [] {
      OffersNothing(m, a, g, stack, g + 5, stack, base);
    } else {
      var x := OffersFirst(m, a, xs, g, stack, base);
      var ys := LoopResults(m.inp, r1, None, greedy, back, c, xs[0]);
      SimPlusTail(m, r1, greedy, back, c, pc, xs[0], stack, base + x);
      SimThenPlus(m, r1, greedy, back, c, pc, s0, Fail(base + x), xs[1..], stack, base);
      OffersThen(m, a, Run(g, xs[0], stack, base + x), ys, ThenLoop(m.inp, r1, None, greedy, back, c, s0, xs[1..]),
        g + 5, stack, base, x);
    }
  }

  lemma {:induction false} SimPlus(m: Machine, r1: Regex, greedy: bool, back: bool, c: nat, pc: nat, s: State,
      stack: seq<nat>, base: seq<Frame>)
    requires Fits(m, r1, c) && PlusAt(m, pc, r1, greedy, back, c) && Boundary(m.inp, s.pos)
    ensures Offers(m, Run(pc, s, stack, base), RepeatResults(m.inp, r1, 1, None, greedy, back, c, s),
      End(m, pc, r1, back, c) + 5, stack, base)
    decreases r1, 18
  {
    hide *;
    var f := PlusStep(m, pc, r1, greedy, back, c, s, stack, base);
    BoundaryInside(m.inp, s.pos);
    Sim(m, r1, back, c, pc, s, stack, base);
    ResultsBoundary(m.inp, r1, back, c, s);
    RepeatUnfold(m.inp, r1, 1, None, greedy, back, c, s);
    SimThenTail(m, r1, greedy, back, c, pc, s, Run(pc, s, stack, base), Results(m.inp, r1, back, c, s), stack, base);
  }

  lemma {:induction false} SimThenTail(m: Machine, r1: Regex, greedy: bool, back: bool, c: nat, pc: nat, s0: State,
      a: Config, xs: seq<State>, stack: seq<nat>, base: seq<Frame>)
    requires Fits(m, r1, c) && PlusAt(m, pc, r1, greedy, back, c)
    requires AllAhead(m.inp, back, s0, xs) && AllBoundary(m.inp, xs)
    requires Offers(m, a, xs, End(m, pc, r1, back, c), stack, base)
    ensures Offers(m, a, ThenRepeat(m.inp, r1, 0, None, greedy, back, c, s0, xs), End(m, pc, r1, back, c) + 5, stack,
      base)
    decreases r1, 17, |xs|
  {
    hide *;
    var g := End(m, pc, r1, back, c);
    ThenRepeatUnfold(m.inp, r1, 0, None, greedy, back, c, s0, xs);
    if xs == [] {
      OffersNothing(m, a, g, stack, g + 5, stack, base);
    } else {
      var x := OffersFirst(m, a, xs, g, stack, base);
      var ys := LoopResults(m.inp, r1, None, greedy, back, c, xs[0]);
      SimPlusTail(m, r1, greedy, back, c, pc, xs[0], stack, base + x);
      SimThenTail(m, r1, greedy, back, c, pc, s0, Fail(base + x), xs[1..], stack, base);
      OffersThen(m, a, Run(g, xs[0], stack, base + x), ys,
        ThenRepeat(m.inp, r1, 0, None, greedy, back, c, s0, xs[1..]), g + 5, stack, base, x);
    }
  }

  // At most one round.

  lemma SplitStep(m: Machine, nextFirst: bool, offset: int, pc: nat, s: State, stack: seq<nat>, base: seq<Frame>)
    requires Fetch(m.prog, pc) == Some(Split(nextFirst, offset)) && Boundary(m.inp, s.pos)
    ensures Step(m, Run(pc, s, stack, base))
         == Run(if nextFirst then pc + 5 else pc + 5 + offset, s, stack,
                base + [Frame(SplitFrame, 0, s, if nextFirst then pc + 5 + offset else pc + 5, stack)])
  {
  }

  lemma {:induction false} SimOption(m: Machine, r1: Regex, greedy: bool, back: bool, c: nat, pc: nat, s: State,
      stack: seq<nat>, base: seq<Frame>)
    requires Fits(m, r1, c) && Boundary(m.inp, s.pos)
    requires Fetch(m.prog, pc) == Some(Split(greedy, RoundSize(m, r1, back, c))) && RoundAt(m, pc + 5, r1, back, c)
    ensures Offers(m, Run(pc, s, stack, base), LoopResults(m.inp, r1, Some(1), greedy, back, c, s),
                   pc + 5 + RoundSize(m, r1, back, c), stack, base)
    decreases r1, 14
  {
    hide *;
    var end := pc + 5 + RoundSize(m, r1, back, c);
    var f := Frame(SplitFrame, 0, s, if greedy then end else pc + 5, stack);
    var start := Run(pc, s, stack, base);
    SplitStep(m, greedy, RoundSize(m, r1, back, c), pc, s, stack, base);
    BoundaryInside(m.inp, s.pos);
    var xs := Moved(s, Results(m.inp, r1, back, c, s));
    OptionResults(m.inp, r1, greedy, back, c, s);
    var base1 := if greedy then base + [f] else base;
    SimRound(m, r1, back, c, pc + 5, s, stack, base1);
    OffersOne(m, s, end, stack, if greedy then base else base + [f]);
    if greedy {
      OffersBoth(m, start, xs, [s], end, stack, base, f);
    } else {
      OffersBoth(m, start, [s], xs, end, stack, base, f);
    }
  }

  lemma OptionResults(inp: Input, r: Regex, greedy: bool, back: bool, c: nat, s: State)
    requires Boundary(inp, s.pos)
    ensures var xs := Moved(s, Results(inp, r, back, c, s));
      LoopResults(inp, r, Some(1), greedy, back, c, s) == if greedy then xs + [s] else [s] + xs
  {
    hide Results;
    var rs := Results(inp, r, back, c, s);
    ResultsBoundary(inp, r, back, c, s);
    MovedAhead(inp, back, s, rs);
    ThenLoopDone(inp, r, greedy, back, c, s, Moved(s, rs));
  }

  lemma {:induction false} ThenLoopDone(inp: Input, r: Regex, greedy: bool, back: bool, c: nat, s0: State,
      xs: seq<State>)
    requires s0.pos <= |inp.units| && AllAhead(inp, back, s0, xs) && AllMoved(s0, xs)
    ensures ThenLoop(inp, r, Some(0), greedy, back, c, s0, xs) == xs
    decreases |xs|
  {
    if xs != [] {
      LoopDone(inp, r, greedy, back, c, xs[0]);
      ThenLoopDone(inp, r, greedy, back, c, s0, xs[1..]);
    }
  }

  // The fast opcode: it refines the general greedy loop.

  lemma {:induction false} OffersDown(m: Machine, i: Instr, pc: nat, st: State, n: nat, stack: seq<nat>,
      base: seq<Frame>)
    requires i.SimpleGreedyQuant? && Fetch(m.prog, pc) == Some(i)
    requires st.pos <= |m.inp.units| && n > 0 && CanGoBack(m.inp, st, n, i.charCount)
    ensures var p := PrevN(m.inp, st.pos, i.charCount);
      p.Some? && Offers(m, Fail(base + [Frame(QuantFrame, n, st, pc, stack)]),
                        Down(m.inp, st.(pos := p.value), n - 1, i.charCount), pc + 17 + i.offset, stack, base)
    decreases n
  {
    hide Offers, Reach, NoLook, PrevN;
    var f := Frame(QuantFrame, n, st, pc, stack);
    var start := Fail(base + [f]);
    assert (base + [f])[..|base + [f]| - 1] == base;
    var st1 := st.(pos := PrevN(m.inp, st.pos, i.charCount).value);
    var end := pc + 17 + i.offset;
    if n == 1 {
      StepsToOne(m, start, st1, end, stack, base);
    } else {
      OffersDown(m, i, pc, st1, n - 1, stack, base);
      DownOffers(m, i, pc, st1, n - 1, stack, base);
      OffersStep(m, start, Down(m.inp, st1, n - 1, i.charCount), end, stack, base);
    }
  }

  /** At the furthest position, with a choice point for the n positions before it. */
  lemma DownOffers(m: Machine, i: Instr, pc: nat, st: State, n: nat, stack: seq<nat>, base: seq<Frame>)
    requires i.SimpleGreedyQuant? && st.pos <= |m.inp.units| && CanGoBack(m.inp, st, n, i.charCount) && n > 0
    requires Offers(m, Fail(base + [Frame(QuantFrame, n, st, pc, stack)]),
                    Down(m.inp, st.(pos := PrevN(m.inp, st.pos, i.charCount).value), n - 1, i.charCount),
                      pc + 17 + i.offset, stack, base)
    ensures Offers(m, Run(pc + 17 + i.offset, st, stack, base + [Frame(QuantFrame, n, st, pc, stack)]),
                   Down(m.inp, st, n, i.charCount), pc + 17 + i.offset, stack, base)
  {
    hide Offers, Reach, PrevN;
    var f := Frame(QuantFrame, n, st, pc, stack);
    var xs := Down(m.inp, st, n, i.charCount);
    var at := Run(pc + 17 + i.offset, st, stack, base + [f]);
    assert xs[0] == st && xs[1..] == Down(m.inp, st.(pos := PrevN(m.inp, st.pos, i.charCount).value), n - 1,
      i.charCount);
    ReachSelf(m, at);
    OffersCons(m, at, xs, pc + 17 + i.offset, stack, base, [f]);
  }

  lemma SimpleShape(m: Machine, r1: Regex, min: nat, max: nat, greedy: bool, back: bool, c: nat, pc: nat)
      returns (i: Instr)
    requires Fits(m, r1, c) && UsesSimpleQuant(Body(m, r1, back, c), max, greedy)
    requires Holds(m.prog, pc, SimpleQuantCode(Body(m, r1, back, c), min, max))
    ensures i == SimpleGreedyQuant(Size(Body(m, r1, back, c)) + 1, min, max, Chars(m, r1, back, c))
    ensures Fetch(m.prog, pc) == Some(i) && BodyAt(m, r1, back, c, pc + 17) && Groups(r1) == 0
    ensures pc + Size(SimpleQuantCode(Body(m, r1, back, c), min, max)) == pc + 17 + i.offset
  {
    SimpleBody(m, r1, max, greedy, back, c);
    hide *;
    var body := Body(m, r1, back, c);
    i := SimpleGreedyQuant(Size(body) + 1, min, max, Chars(m, r1, back, c));
    SimpleCodeIs(m, r1, min, max, back, c);
    HoldsCons(m.prog, pc, i, body + [Match]);
    SizeAppend(body, [Match]);
    HoldsOne(m.prog, pc, Match);
    BodyAtIs(m, r1, back, c, pc + 17);
  }

  lemma SimpleBody(m: Machine, r1: Regex, max: nat, greedy: bool, back: bool, c: nat)
    requires Fits(m, r1, c) && UsesSimpleQuant(Body(m, r1, back, c), max, greedy)
    ensures ValidInput(m.inp) && ValidRegex(r1, INT32_MAX) && Groups(r1) == 0
    ensures AllSimple(Body(m, r1, back, c)) && CharCount(Body(m, r1, back, c)) > 0
  {
    ValidMore(r1, m.captures, INT32_MAX);
    SimpleResults(m.inp, r1, back, c, State(0, map[]));
  }

  lemma SimpleCodeIs(m: Machine, r1: Regex, min: nat, max: nat, back: bool, c: nat)
    ensures var body := Body(m, r1, back, c);
      var i := SimpleGreedyQuant(Size(body) + 1, min, max, Chars(m, r1, back, c));
      SimpleQuantCode(body, min, max) == [i] + (body + [Match]) && i.Size() == 17 && Match.Size() == 1
  {
    hide Code, Size;
  }

  lemma BodyAtIs(m: Machine, r1: Regex, back: bool, c: nat, pc: nat)
    requires ValidInput(m.inp) && ValidRegex(r1, INT32_MAX)
    requires AllSimple(Body(m, r1, back, c)) && CharCount(Body(m, r1, back, c)) > 0
    requires Holds(m.prog, pc, Body(m, r1, back, c) + [Match])
    ensures BodyAt(m, r1, back, c, pc)
  {
  }

  lemma FitsQuantified(m: Machine, r1: Regex, min: nat, max: nat, greedy: bool, back: bool, c: nat)
    requires Fits(m, Quantified(r1, min, max, greedy), c)
    ensures Fits(m, r1, c) && min <= max
    ensures UsesSimpleQuant(Body(m, r1, back, c), max, greedy) ==> greedy && max > 0
  {
  }

  lemma QuantStep(m: Machine, i: Instr, pc: nat, s: State, stack: seq<nat>, base: seq<Frame>)
    requires i.SimpleGreedyQuant? && Fetch(m.prog, pc) == Some(i) && s.pos <= |m.inp.units|
    requires CountBody(m, pc + 17, s.pos, 0, i.max).Counted?
    ensures var e := CountBody(m, pc + 17, s.pos, 0, i.max);
      var st := s.(pos := e.pos);
      && e.pos <= |m.inp.units|
      && Step(m, Run(pc, s, stack, base)) ==
         if e.q < i.min then Fail(base)
         else Run(pc + 17 + i.offset, st, stack, if e.q
           == i.min then base else base + [Frame(QuantFrame, e.q - i.min, st, pc, stack)])
  {
    hide CountBody;
  }

  /** After the count the machine offers the counted positions down to the minimum. */
  lemma OffersCounted(m: Machine, i: Instr, pc: nat, s: State, stack: seq<nat>, base: seq<Frame>)
    requires i.SimpleGreedyQuant? && Fetch(m.prog, pc) == Some(i) && s.pos <= |m.inp.units|
    requires CountBody(m, pc + 17, s.pos, 0, i.max).Counted?
    requires var e := CountBody(m, pc + 17, s.pos, 0, i.max);
      e.q >= i.min ==> CanGoBack(m.inp, s.(pos := e.pos), e.q - i.min, i.charCount)
    ensures var e := CountBody(m, pc + 17, s.pos, 0, i.max);
      Offers(m, Run(pc, s, stack, base), if e.q < i.min then []
        else Down(m.inp, s.(pos := e.pos), e.q - i.min, i.charCount),
             pc + 17 + i.offset, stack, base)
  {
    hide *;
    QuantStep(m, i, pc, s, stack, base);
    var e := CountBody(m, pc + 17, s.pos, 0, i.max);
    var start, end, st := Run(pc, s, stack, base), pc + 17 + i.offset, s.(pos := e.pos);
    if e.q < i.min {
      StepsToNone(m, start, end, stack, base);
    } else if e.q == i.min {
      DownZero(m.inp, st, i.charCount);
      StepsToOne(m, start, st, end, stack, base);
    } else {
      var n := e.q - i.min;
      OffersDown(m, i, pc, st, n, stack, base);
      DownOffers(m, i, pc, st, n, stack, base);
      OffersStep(m, start, Down(m.inp, st, n, i.charCount), end, stack, base);
    }
  }

  /** simple_greedy_quant offers exactly what the general loop means: all counts from
      the largest down to the minimum, at the same positions. */
  lemma SimSimple(m: Machine, r1: Regex, min: nat, max: nat, greedy: bool, back: bool, c: nat, pc: nat, s: State,
      stack: seq<nat>, base: seq<Frame>)
    requires Fits(m, Quantified(r1, min, max, greedy), c) && Boundary(m.inp, s.pos)
    requires UsesSimpleQuant(Body(m, r1, back, c), max, greedy)
    requires Holds(m.prog, pc, SimpleQuantCode(Body(m, r1, back, c), min, max))
    ensures Offers(m, Run(pc, s, stack, base), RepeatResults(m.inp, r1, min, OptionalRounds(min, max), greedy, back,
      c, s),
                   pc + Size(SimpleQuantCode(Body(m, r1, back, c), min, max)), stack, base)
  {
    hide *;
    FitsQuantified(m, r1, min, max, greedy, back, c);
    BoundaryInside(m.inp, s.pos);
    var i := SimpleShape(m, r1, min, max, greedy, back, c, pc);
    CountFromZero(m, r1, back, c, pc + 17, s, min, max);
    OffersCounted(m, i, pc, s, stack, base);
  }

  lemma DownZero(inp: Input, st: State, k: nat)
    requires st.pos <= |inp.units|
    ensures Down(inp, st, 0, k) == [st]
  {
  }

  // A quantifier as a whole.

  /** The rounds of a quantifier with minimum 0, after the captures have been reset. */
  lemma {:induction false} SimZero(m: Machine, r1: Regex, max: nat, greedy: bool, back: bool, c: nat, pc: nat,
      s: State, stack: seq<nat>, base: seq<Frame>)
    requires Fits(m, r1, c) && Boundary(m.inp, s.pos)
    requires Holds(m.prog, pc, ZeroCode(Body(m, r1, back, c), max, greedy))
    ensures Offers(m, Run(pc, s, stack, base), LoopResults(m.inp, r1, OptionalRounds(0, max), greedy, back, c, s),
                   pc + Size(ZeroCode(Body(m, r1, back, c), max, greedy)), stack, base)
    decreases r1, 18
  {
    var body := Body(m, r1, back, c);
    hide Offers, LoopResults, MoreCode, Code, RoundCode, Fits;
    if max == 0 {
      LoopDone(m.inp, r1, greedy, back, c, s);
      OffersOne(m, s, pc, stack, base);
    } else if max == 1 {
      HoldsCons(m.prog, pc, Split(greedy, Size(RoundCode(body))), RoundCode(body));
      SimOption(m, r1, greedy, back, c, pc, s, stack, base);
    } else {
      SimMore(m, r1, 0, max, greedy, back, c, pc, s, stack, base);
    }
  }

  lemma {:induction false} SimReset(m: Machine, r1: Regex, max: nat, greedy: bool, back: bool, c: nat, pc: nat,
      s: State, stack: seq<nat>, base: seq<Frame>)
    requires Fits(m, r1, c) && Boundary(m.inp, s.pos)
    requires Holds(m.prog, pc, ResetCode(Groups(r1), c) + ZeroCode(Body(m, r1, back, c), max, greedy))
    ensures Offers(m, Run(pc, s, stack, base), LoopResults(m.inp, r1, OptionalRounds(0, max), greedy, back, c,
      ResetState(s, Groups(r1), c)),
                   pc + Size(ResetCode(Groups(r1), c) + ZeroCode(Body(m, r1, back, c), max, greedy)), stack, base)
    decreases r1, 19
  {
    hide Offers, LoopResults, ZeroCode, Code;
    var zero := ZeroCode(Body(m, r1, back, c), max, greedy);
    if Groups(r1) > 0 {
      var i := SaveReset(c, c + Groups(r1) - 1);
      HoldsCons(m.prog, pc, i, zero);
      var s1 := ResetState(s, Groups(r1), c);
      var xs := LoopResults(m.inp, r1, OptionalRounds(0, max), greedy, back, c, s1);
      SimZero(m, r1, max, greedy, back, c, pc + 3, s1, stack, base);
      OffersStep(m, Run(pc, s, stack, base), xs, pc + Size([i] + zero), stack, base);
    } else {
      assert ResetCode(Groups(r1), c) + zero == zero;
      SimZero(m, r1, max, greedy, back, c, pc, s, stack, base);
    }
  }

  lemma PlusShape(m: Machine, r1: Regex, greedy: bool, back: bool, c: nat, pc: nat)
    requires !NeedCheckAdvance(Body(m, r1, back, c))
    requires Holds(m.prog, pc, PlusCode(Body(m, r1, back, c), greedy))
    ensures PlusAt(m, pc, r1, greedy, back, c)
    ensures pc + Size(PlusCode(Body(m, r1, back, c), greedy)) == End(m, pc, r1, back, c) + 5
  {
    hide Holds, Size, Code;
    var body := Body(m, r1, back, c);
    var i := Split(!greedy, -(Size(body) as int + 5));
    HoldsAppend(m.prog, pc, body, [i]);
    SizeAppend(body, [i]);
    HoldsOne(m.prog, pc + Size(body), i);
  }

  ghost predicate CodeIs(m: Machine, r1: Regex, min: nat, max: nat, greedy: bool, back: bool, c: nat, pc: nat,
      code: seq<Instr>) {
    Holds(m.prog, pc, code) && End(m, pc, Quantified(r1, min, max, greedy), back, c) == pc + Size(code)
  }

  lemma CodeIsElim(m: Machine, r1: Regex, min: nat, max: nat, greedy: bool, back: bool, c: nat, pc: nat,
      code: seq<Instr>)
    requires CodeIs(m, r1, min, max, greedy, back, c, pc, code)
    ensures Holds(m.prog, pc, code) && End(m, pc, Quantified(r1, min, max, greedy), back, c) == pc + Size(code)
  {
  }

  /** Which of the forms of code a quantifier has. */
  lemma QuantShape(m: Machine, r1: Regex, min: nat, max: nat, greedy: bool, back: bool, c: nat, pc: nat)
    requires At(m, pc, Quantified(r1, min, max, greedy), back, c)
    ensures UsesSimpleQuant(Body(m, r1, back, c), max, greedy) ==>
      CodeIs(m, r1, min, max, greedy, back, c, pc, SimpleQuantCode(Body(m, r1, back, c), min, max))
    ensures !UsesSimpleQuant(Body(m, r1, back, c), max, greedy) ==>
      var body, plus := Body(m, r1, back, c), min == 1 && max == INT32_MAX && !NeedCheckAdvance(Body(m, r1, back, c));
      && (min == 0 ==>
        CodeIs(m, r1, min, max, greedy, back, c, pc, ResetCode(Groups(r1), c) + ZeroCode(body, max, greedy)))
      && (plus ==>
        OptionalRounds(min, max) == None && CodeIs(m, r1, min, max, greedy, back, c, pc, PlusCode(body, greedy)))
      && (min > 0 && !plus ==>
        CodeIs(m, r1, min, max, greedy, back, c, pc, RepeatCode(body, min) + MoreCode(body, min, max, greedy)))
  {
    hide Holds, Size, UsesSimpleQuant, SimpleQuantCode, ResetCode, ZeroCode, NeedCheckAdvance, PlusCode, RepeatCode,
      MoreCode, Groups;
  }

  lemma SimpleNoGroups(m: Machine, r1: Regex, min: nat, max: nat, greedy: bool, back: bool, c: nat, s: State)
    requires Fits(m, r1, c) && UsesSimpleQuant(Body(m, r1, back, c), max, greedy)
    ensures ResetState(s, Groups(r1), c) == s
  {
    ValidMore(r1, m.captures, INT32_MAX);
    SimpleResults(m.inp, r1, back, c, State(0, map[]));
  }

  lemma QuantifiedResults(inp: Input, r1: Regex, min: nat, max: nat, greedy: bool, back: bool, c: nat, s: State)
    requires s.pos <= |inp.units|
    ensures Results(inp, Quantified(r1, min, max, greedy), back, c, s)
         == RepeatResults(inp, r1, min, OptionalRounds(min, max), greedy, back, c,
           if min == 0 then ResetState(s, Groups(r1), c) else s)
    ensures var s0 := ResetState(s, Groups(r1), c);
      s0.pos == s.pos && RepeatResults(inp, r1, 0, OptionalRounds(min, max), greedy, back, c, s0)
                         == LoopResults(inp, r1, OptionalRounds(min, max), greedy, back, c, s0)
  {
    hide LoopResults;
  }

  lemma {:induction false} SimQuantified(m: Machine, r1: Regex, min: nat, max: nat, greedy: bool, back: bool, c: nat,
      pc: nat, s: State, stack: seq<nat>, base: seq<Frame>)
    requires Fits(m, Quantified(r1, min, max, greedy), c) && At(m, pc, Quantified(r1, min, max, greedy), back, c)
      && Boundary(m.inp, s.pos)
    ensures Offers(m, Run(pc, s, stack, base), Results(m.inp, Quantified(r1, min, max, greedy), back, c, s),
      End(m, pc, Quantified(r1, min, max, greedy), back, c), stack, base)
    decreases r1, 20
  {
    hide *;
    var body := Body(m, r1, back, c);
    FitsQuantified(m, r1, min, max, greedy, back, c);
    QuantShape(m, r1, min, max, greedy, back, c, pc);
    BoundaryInside(m.inp, s.pos);
    QuantifiedResults(m.inp, r1, min, max, greedy, back, c, s);
    if UsesSimpleQuant(body, max, greedy) {
      SimpleNoGroups(m, r1, min, max, greedy, back, c, s);
      CodeIsElim(m, r1, min, max, greedy, back, c, pc, SimpleQuantCode(body, min, max));
      SimSimple(m, r1, min, max, greedy, back, c, pc, s, stack, base);
    } else if min == 0 {
      CodeIsElim(m, r1, min, max, greedy, back, c, pc, ResetCode(Groups(r1), c) + ZeroCode(body, max, greedy));
      SimReset(m, r1, max, greedy, back, c, pc, s, stack, base);
    } else if min == 1 && max == INT32_MAX && !NeedCheckAdvance(body) {
      CodeIsElim(m, r1, min, max, greedy, back, c, pc, PlusCode(body, greedy));
      PlusShape(m, r1, greedy, back, c, pc);
      SimPlus(m, r1, greedy, back, c, pc, s, stack, base);
    } else {
      CodeIsElim(m, r1, min, max, greedy, back, c, pc, RepeatCode(body, min) + MoreCode(body, min, max, greedy));
      SimMandatory(m, r1, min, max, greedy, back, c, pc, s, stack, base);
    }
  }
}
