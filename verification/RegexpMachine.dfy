/** The backtracking machine as a transition system over its whole state. */
module RegexpMachine {
  import opened Options
  import opened RegexpInput
  import opened RegexpBytecode
  import opened RegexpSyntax

  datatype Machine = Machine(inp: Input, prog: Listing, captures: nat)

  datatype FrameKind = SplitFrame | LookFrame | NegativeLookFrame | QuantFrame

  /** A choice point; `count` is used by QuantFrame only. */
  datatype Frame = Frame(kind: FrameKind, count: nat, st: State, pc: int, stack: seq<nat>)

  /** Fail and Succeed are the two ways into the loop that pops choice points. */
  datatype Config =
    | Run(pc: int, st: State, stack: seq<nat>, frames: seq<Frame>)
    | Fail(frames: seq<Frame>)
    | Succeed(caps: map<nat, nat>, frames: seq<Frame>)
    | Done(result: Option<map<nat, nat>>)
    | Stuck

  /** Whether a range table accepts c; 0xffff at the end of a 16-bit table is infinity. */
  predicate RangeHit(pairs: seq<(nat, nat)>, wide: bool, c: nat) {
    || (exists k :: 0 <= k < |pairs| && pairs[k].0 <= c <= pairs[k].1)
    || (!wide && |pairs| > 0 && pairs[|pairs| - 1].1 == 0xffff && 0xffff <= c)
  }

  predicate CharMatches(inp: Input, i: Instr, c: nat)
    requires i.IsSimpleChar()
  {
    match i
    case Char(val, _, icase) => Fold(inp, icase, c) == val
    case Range(pairs, wide, icase) => RangeHit(pairs, wide, Fold(inp, icase, c))
    case Dot => !IsLineTerminator(c)
    case Any => true
  }

  /** Runs a character test or an assertion: the next position, or None for no match. */
  function SimpleStep(inp: Input, i: Instr, pos: nat): (r: Option<nat>)
    requires i.IsSimple() && pos <= |inp.units|
    ensures r.Some? ==> pos <= r.value <= |inp.units|
  {
    if i.Check? then (if Satisfied(inp, i.a, pos) then Some(pos) else None)
    else if pos < |inp.units| && CharMatches(inp, i, CharAt(inp, pos)) then Some(Next(inp, pos))
    else None
  }

  datatype BodyResult = Reached(pos: nat) | NoMatch | BadBody

  /** The nested run of a simple quantifier body, without choice points. */
  function RunBody(m: Machine, pc: int, pos: nat): (r: BodyResult)
    requires pos <= |m.inp.units|
    ensures r.Reached? ==> pos <= r.pos <= |m.inp.units|
    decreases |m.prog| - pc
  {
    match Fetch(m.prog, pc)
    case None => BadBody
    case Some(i) =>
      if i.Match? then Reached(pos)
      else if !i.IsSimple() then BadBody
      else match SimpleStep(m.inp, i, pos)
        case None => NoMatch
        case Some(next) => RunBody(m, pc + i.Size(), next)
  }

  datatype CountResult = Counted(q: nat, pos: nat) | BadCount

  /** Repeats a simple quantifier body as often as it matches, at most max times. */
  function CountBody(m: Machine, pc: int, pos: nat, q: nat, max: nat): (r: CountResult)
    requires pos <= |m.inp.units|
    ensures r.Counted? ==> pos <= r.pos <= |m.inp.units| && q <= r.q
    decreases |m.inp.units| - pos
  {
    match RunBody(m, pc, pos)
    case NoMatch => Counted(q, pos)
    case BadBody => BadCount
    case Reached(next) =>
      if next == pos then BadCount
      else if q + 1 >= max && max != INT32_MAX then Counted(q + 1, next)
      else CountBody(m, pc, next, q + 1, max)
  }

  /** Goes back n characters. */
  function PrevN(inp: Input, pos: nat, n: nat): (r: Option<nat>)
    requires pos <= |inp.units|
    ensures r.Some? ==> r.value <= pos
  {
    if n == 0 then Some(pos)
    else if pos == 0 then None
    else PrevN(inp, Prev(inp, pos), n - 1)
  }

  function StepFail(m: Machine, frames: seq<Frame>): Config {
    if frames == [] then Done(None)
    else
      var rest, f := frames[..|frames| - 1], frames[|frames| - 1];
      match f.kind
      case SplitFrame => Run(f.pc, f.st, f.stack, rest)
      case LookFrame => Fail(rest)
      case NegativeLookFrame => Run(f.pc, f.st, f.stack, rest)
      case QuantFrame =>
        var i := Fetch(m.prog, f.pc);
        if i.None? || !i.value.SimpleGreedyQuant? || f.st.pos > |m.inp.units| || f.count == 0 then Stuck
        else
          var back := PrevN(m.inp, f.st.pos, i.value.charCount);
          if back.None? then Stuck
          else
            var st := f.st.(pos := back.value);
            Run(f.pc + 17 + i.value.offset, st, f.stack,
                if f.count == 1 then rest else rest + [f.(st := st, count := f.count - 1)])
  }

  function StepSucceed(caps: map<nat, nat>, frames: seq<Frame>): Config {
    if frames == [] then Done(Some(caps))
    else
      var rest, f := frames[..|frames| - 1], frames[|frames| - 1];
      match f.kind
      case SplitFrame | QuantFrame => Succeed(caps, rest)
      case LookFrame => Run(f.pc, State(f.st.pos, caps), f.stack, rest)
      case NegativeLookFrame => Fail(rest)
  }

  function StepQuant(m: Machine, i: Instr, pc: int, st: State, stack: seq<nat>, frames: seq<Frame>): Config
    requires i.SimpleGreedyQuant? && st.pos <= |m.inp.units|
  {
    match CountBody(m, pc + 17, st.pos, 0, i.max)
    case BadCount => Stuck
    case Counted(q, pos) =>
      var next := pc + 17 + i.offset;
      var st1 := st.(pos := pos);
      if q < i.min then Fail(frames)
      else if q == i.min then Run(next, st1, stack, frames)
      else Run(next, st1, stack, frames + [Frame(QuantFrame, q - i.min, st1, pc, stack)])
  }

  function StepInstr(m: Machine, i: Instr, pc: int, st: State, stack: seq<nat>, frames: seq<Frame>): Config
    requires st.pos <= |m.inp.units|
  {
    var next := pc + i.Size();
    if i.IsSimple() then
      var p := SimpleStep(m.inp, i, st.pos);
      if p.None? then Fail(frames) else Run(next, st.(pos := p.value), stack, frames)
    else match i
      case Goto(offset) => Run(next + offset, st, stack, frames)
      case Split(nextFirst, offset) =>
        if nextFirst then Run(next, st, stack, frames + [Frame(SplitFrame, 0, st, next + offset, stack)])
        else Run(next + offset, st, stack, frames + [Frame(SplitFrame, 0, st, next, stack)])
      case Match => Succeed(st.caps, frames)
      case Save(index, isEnd) =>
        if index < m.captures then Run(next, SetCap(st, index, isEnd), stack, frames) else Stuck
      case SaveReset(first, last) =>
        if last < m.captures then Run(next, st.(caps := ResetCaps(st.caps, first, last)), stack, frames) else Stuck
      case Loop(offset) =>
        if stack == [] || stack[|stack| - 1] == 0 then Stuck
        else
          var top := stack[|stack| - 1] - 1;
          Run(if top != 0 then next + offset else next, st, stack[..|stack| - 1] + [top], frames)
      case PushI32(v) => Run(next, st, stack + [v], frames)
      case Drop => if stack == [] then Stuck else Run(next, st, stack[..|stack| - 1], frames)
      case BackReference(index, icase, backward) =>
        if index >= m.captures then Fail(frames)
        else
          var e := RefEnd(m.inp, index, icase, backward, st);
          if e.None? then Fail(frames) else Run(next, st.(pos := e.value), stack, frames)
      case Lookahead(negative, offset) =>
        Run(next, st, stack,
            frames + [Frame(if negative then NegativeLookFrame else LookFrame, 0, st, next + offset, stack)])
      case PushCharPos => Run(next, st, stack + [st.pos], frames)
      case CheckAdvance =>
        if stack == [] then Stuck
        else if stack[|stack| - 1] == st.pos then Fail(frames)
        else Run(next, st, stack[..|stack| - 1], frames)
      case PrevChar =>
        if st.pos == 0 then Fail(frames) else Run(next, st.(pos := Prev(m.inp, st.pos)), stack, frames)
      case SimpleGreedyQuant(_, _, _, _) => StepQuant(m, i, pc, st, stack, frames)
  }

  /** One step.  Stuck stands for every access outside a buffer and for abort(). */
  function Step(m: Machine, cfg: Config): Config {
    match cfg
    case Done(_) | Stuck => cfg
    case Fail(frames) => StepFail(m, frames)
    case Succeed(caps, frames) => StepSucceed(caps, frames)
    case Run(pc, st, stack, frames) =>
      var i := Fetch(m.prog, pc);
      if i.None? || st.pos > |m.inp.units| then Stuck
      else StepInstr(m, i.value, pc, st, stack, frames)
  }

  function Steps(m: Machine, cfg: Config, n: nat): Config
    decreases n
  {
    if n == 0 then cfg else Steps(m, Step(m, cfg), n - 1)
  }

  ghost predicate Reach(m: Machine, a: Config, b: Config) {
    exists n: nat :: Steps(m, a, n) == b
  }

  lemma {:induction false} StepsAdd(m: Machine, a: Config, i: nat, j: nat)
    ensures Steps(m, a, i + j) == Steps(m, Steps(m, a, i), j)
    decreases i
  {
    if i > 0 {
      StepsAdd(m, Step(m, a), i - 1, j);
    }
  }

  lemma ReachTrans(m: Machine, a: Config, b: Config, c: Config)
    requires Reach(m, a, b) && Reach(m, b, c)
    ensures Reach(m, a, c)
  {
    var i: nat :| Steps(m, a, i) == b;
    var j: nat :| Steps(m, b, j) == c;
    StepsAdd(m, a, i, j);
  }

  lemma ReachStep(m: Machine, a: Config)
    ensures Reach(m, a, Step(m, a))
  {
    assert Steps(m, a, 1) == Step(m, a) by { assert Steps(m, Step(m, a), 0) == Step(m, a); }
  }

  lemma ReachSelf(m: Machine, a: Config)
    ensures Reach(m, a, a)
  {
    assert Steps(m, a, 0) == a;
  }

  lemma StepThen(m: Machine, a: Config, b: Config)
    requires Reach(m, Step(m, a), b)
    ensures Reach(m, a, b)
  {
    ReachStep(m, a);
    ReachTrans(m, a, Step(m, a), b);
  }

  // Choice points that a successful match discards.

  ghost predicate NoLook(frames: seq<Frame>) {
    forall k :: 0 <= k < |frames| ==> frames[k].kind == SplitFrame || frames[k].kind == QuantFrame
  }

  lemma {:induction false} SucceedPops(m: Machine, caps: map<nat, nat>, base: seq<Frame>, x: seq<Frame>)
    requires NoLook(x)
    ensures Reach(m, Succeed(caps, base + x), Succeed(caps, base))
    decreases |x|
  {
    if x == [] {
      assert base + x == base;
      ReachSelf(m, Succeed(caps, base));
    } else {
      var y := x[..|x| - 1];
      assert (base + x)[..|base + x| - 1] == base + y;
      assert (base + x)[|base + x| - 1] == x[|x| - 1];
      SucceedPops(m, caps, base, y);
      StepThen(m, Succeed(caps, base + x), Succeed(caps, base));
    }
  }

  /** From cfg the machine offers the states of `xs` one after the other at address pc
      with the stack as it was: the first one directly, each further one when it is
      made to fail, and after the last one it fails into the choice points `base`. */
  ghost predicate Offers(m: Machine, cfg: Config, xs: seq<State>, pc: int, stack: seq<nat>, base: seq<Frame>)
    decreases |xs|
  {
    if xs == [] then Reach(m, cfg, Fail(base))
    else exists x ::
      && NoLook(x)
      && Reach(m, cfg, Run(pc, xs[0], stack, base + x))
      && Offers(m, Fail(base + x), xs[1..], pc, stack, base)
  }

  lemma OffersFirst(m: Machine, a: Config, xs: seq<State>, pc: int, stack: seq<nat>, base: seq<Frame>)
    returns (x: seq<Frame>)
    requires xs != [] && Offers(m, a, xs, pc, stack, base)
    ensures NoLook(x)
    ensures Reach(m, a, Run(pc, xs[0], stack, base + x))
    ensures Offers(m, Fail(base + x), xs[1..], pc, stack, base)
  {
    x :| NoLook(x) && Reach(m, a, Run(pc, xs[0], stack, base + x))
      && Offers(m, Fail(base + x), xs[1..], pc, stack, base);
  }

  lemma OffersCons(m: Machine, a: Config, xs: seq<State>, pc: int, stack: seq<nat>, base: seq<Frame>, x: seq<Frame>)
    requires xs != [] && NoLook(x)
    requires Reach(m, a, Run(pc, xs[0], stack, base + x))
    requires Offers(m, Fail(base + x), xs[1..], pc, stack, base)
    ensures Offers(m, a, xs, pc, stack, base)
  {
  }

  lemma OffersAfter(m: Machine, a: Config, b: Config, xs: seq<State>, pc: int, stack: seq<nat>, base: seq<Frame>)
    requires Reach(m, a, b) && Offers(m, b, xs, pc, stack, base)
    ensures Offers(m, a, xs, pc, stack, base)
  {
    if xs == [] {
      ReachTrans(m, a, b, Fail(base));
    } else {
      var x := OffersFirst(m, b, xs, pc, stack, base);
      ReachTrans(m, a, b, Run(pc, xs[0], stack, base + x));
      OffersCons(m, a, xs, pc, stack, base, x);
    }
  }

  lemma OffersStep(m: Machine, a: Config, xs: seq<State>, pc: int, stack: seq<nat>, base: seq<Frame>)
    requires Offers(m, Step(m, a), xs, pc, stack, base)
    ensures Offers(m, a, xs, pc, stack, base)
  {
    ReachStep(m, a);
    OffersAfter(m, a, Step(m, a), xs, pc, stack, base);
  }

  lemma OffersEmpty(m: Machine, a: Config, pc: int, stack: seq<nat>, base: seq<Frame>)
    requires Offers(m, a, [], pc, stack, base)
    ensures Reach(m, a, Fail(base))
  {
  }

  lemma OffersNone(m: Machine, pc: int, stack: seq<nat>, base: seq<Frame>)
    ensures Offers(m, Fail(base), [], pc, stack, base)
  {
    ReachSelf(m, Fail(base));
  }

  lemma OffersOne(m: Machine, s: State, pc: int, stack: seq<nat>, base: seq<Frame>)
    ensures Offers(m, Run(pc, s, stack, base), [s], pc, stack, base)
  {
    var none: seq<Frame> := [];
    assert base + none == base;
    ReachSelf(m, Run(pc, s, stack, base));
    OffersNone(m, pc, stack, base);
    OffersCons(m, Run(pc, s, stack, base), [s], pc, stack, base, none);
  }

  lemma NoLookAppend(x: seq<Frame>, y: seq<Frame>)
    requires NoLook(x) && NoLook(y)
    ensures NoLook(x + y)
  {
  }

  /** Offers xs above the choice points x and then, when those fail, ys. */
  lemma {:induction false} OffersAppend(m: Machine, a: Config, xs: seq<State>, ys: seq<State>, pc: int,
      stack: seq<nat>, base: seq<Frame>, x: seq<Frame>)
    requires NoLook(x)
    requires Offers(m, a, xs, pc, stack, base + x)
    requires Offers(m, Fail(base + x), ys, pc, stack, base)
    ensures Offers(m, a, xs + ys, pc, stack, base)
    decreases |xs|
  {
    hide *;
    if xs == [] {
      assert xs + ys == ys;
      OffersEmpty(m, a, pc, stack, base + x);
      OffersAfter(m, a, Fail(base + x), ys, pc, stack, base);
    } else {
      var y := OffersFirst(m, a, xs, pc, stack, base + x);
      assert (base + x) + y == base + (x + y);
      OffersAppend(m, Fail(base + x + y), xs[1..], ys, pc, stack, base, x);
      assert (xs + ys)[1..] == xs[1..] + ys;
      NoLookAppend(x, y);
      OffersCons(m, a, xs + ys, pc, stack, base, x + y);
    }
  }

  /** Once `at` is reached it offers xs above x, and ys come when those fail. */
  lemma OffersThen(m: Machine, a: Config, at: Config, xs: seq<State>, ys: seq<State>, pc: int, stack: seq<nat>,
      base: seq<Frame>, x: seq<Frame>)
    requires NoLook(x) && Reach(m, a, at)
    requires Offers(m, at, xs, pc, stack, base + x)
    requires Offers(m, Fail(base + x), ys, pc, stack, base)
    ensures Offers(m, a, xs + ys, pc, stack, base)
  {
    hide *;
    OffersAfter(m, a, at, xs, pc, stack, base + x);
    OffersAppend(m, a, xs, ys, pc, stack, base, x);
  }
}
