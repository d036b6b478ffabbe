/** Character tests, and why a round may go without the check that it advances. */
module RegexpTests {
  import opened CharSets
  import opened Options
  import opened RegexpInput
  import opened RegexpBytecode
  import opened RegexpSyntax
  import opened RegexpCompiler
  import opened RegexpMachine

  /** The k-th entry of an emitted table, with 0xffff for an interval without end. */
  lemma PairAt(points: seq<nat>, icase: bool, k: nat)
    requires CharacterSet(points) && k < |points| / 2
    ensures RangeInstr(points, icase).Range?
    ensures var i := RangeInstr(points, icase);
      && |i.pairs| == |points| / 2
      && i.pairs[k].0 == points[2 * k]
      && points[2 * k] < points[2 * k + 1] <= UINT32_MAX
      && (if i.wide || points[2 * k + 1] != UINT32_MAX then
            i.pairs[k].1 == points[2 * k + 1] - 1 && (!i.wide ==> i.pairs[k].1 < 0xffff)
          else
            k == |points| / 2 - 1 && i.pairs[k].1 == 0xffff && points[2 * k] <= 0xffff)
  {
    var last := |points| - 1;
    assert points[2 * k] < points[2 * k + 1];
    if 2 * k + 1 < last {
      assert points[2 * k + 1] < points[last - 1] < points[last];
    }
  }

  lemma PairHit(points: seq<nat>, icase: bool, k: nat, x: nat)
    requires CharacterSet(points) && k < |points| / 2 && x < UINT32_MAX
    ensures RangeInstr(points, icase).Range? && |RangeInstr(points, icase).pairs| == |points| / 2
    ensures var i := RangeInstr(points, icase);
      points[2 * k] <= x < points[2 * k + 1] <==>
        || i.pairs[k].0 <= x <= i.pairs[k].1
        || (!i.wide && k == |points| / 2 - 1 && i.pairs[k].1 == 0xffff && 0xffff <= x)
  {
    PairAt(points, icase, k);
  }

  /** The emitted table accepts exactly the characters of the set, in both widths. */
  lemma RangeCorrect(inp: Input, points: seq<nat>, icase: bool, c: nat)
    requires CharacterSet(points) && c < UINT32_MAX && Fold(inp, icase, c) < UINT32_MAX
    ensures RangeInstr(points, icase).IsSimpleChar()
    ensures CharMatches(inp, RangeInstr(points, icase), c) <==> InSome(points, Fold(inp, icase, c))
  {
    hide CharacterSet;
    var n := |points| / 2;
    var x := Fold(inp, icase, c);
    if n > 0 {
      hide RangeInstr;
      var i := RangeInstr(points, icase);
      PairHit(points, icase, n - 1, x);
      if InSome(points, x) {
        var k: nat :| k < n && points[2 * k] <= x < points[2 * k + 1];
        PairHit(points, icase, k, x);
      }
      if k: nat :| k < n && i.pairs[k].0 <= x <= i.pairs[k].1 {
        PairHit(points, icase, k, x);
      }
    }
  }

  /** The 16-bit and 32-bit operands are in range and a table is sorted. */
  ghost predicate SortedPairs(pairs: seq<(nat, nat)>) {
    && (forall k :: 0 <= k < |pairs| ==> pairs[k].0 <= pairs[k].1)
    && (forall j, k :: 0 <= j < k < |pairs| ==> pairs[j].1 < pairs[k].0)
  }

  lemma RangeSorted(points: seq<nat>, icase: bool)
    requires CharacterSet(points) && |points| > 0
    ensures RangeInstr(points, icase).Range? && SortedPairs(RangeInstr(points, icase).pairs)
  {
    var i := RangeInstr(points, icase);
    PairAt(points, icase, 0);
    forall k | 0 <= k < |i.pairs| ensures i.pairs[k].0 <= i.pairs[k].1 {
      PairAt(points, icase, k);
    }
    forall j, k | 0 <= j < k < |i.pairs| ensures i.pairs[j].1 < i.pairs[k].0 {
      PairAt(points, icase, j);
      PairAt(points, icase, k);
      assert points[2 * j + 1] < points[2 * k];
    }
  }

  lemma TestCorrect(inp: Input, t: CharTest, c: nat)
    requires ValidInput(inp) && ValidRegex(Atom(t), 0) && c < CHAR_LIMIT
    ensures TestInstr(inp.canon, t).IsSimpleChar()
    ensures CharMatches(inp, TestInstr(inp.canon, t), c) <==> Accepts(inp, t, c)
  {
    if t.Class? {
      RangeCorrect(inp, t.points, t.icase, c);
    }
  }

  // Every result is at a boundary.

  ghost predicate AllBoundary(inp: Input, xs: seq<State>) {
    forall k :: 0 <= k < |xs| ==> Boundary(inp, xs[k].pos)
  }

  lemma {:induction false} RefBoundary(inp: Input, icase: bool, from: nat, end: nat, pos: nat)
    requires Boundary(inp, pos) && end <= |inp.units|
    ensures var e := ForwardRef(inp, icase, from, end, pos); e.Some? ==> Boundary(inp, e.value)
    decreases if from < end then end - from else 0
  {
    if from < end && pos < |inp.units| {
      NextBoundary(inp, pos);
      RefBoundary(inp, icase, GetCharTo(inp, from, end).1, end, Next(inp, pos));
    }
  }

  lemma {:induction false} BackRefBoundary(inp: Input, icase: bool, from: nat, start: nat, pos: nat)
    requires Boundary(inp, pos) && from <= |inp.units|
    ensures var e := BackwardRef(inp, icase, from, start, pos); e.Some? ==> Boundary(inp, e.value)
    decreases from
  {
    if from > start && pos > 0 {
      PrevBoundary(inp, pos);
      BackRefBoundary(inp, icase, GetPrevCharFrom(inp, from, start).1, start, Prev(inp, pos));
    }
  }

  lemma {:induction false} ResultsBoundary(inp: Input, r: Regex, back: bool, c: nat, s: State)
    requires Boundary(inp, s.pos)
    ensures AllBoundary(inp, Results(inp, r, back, c, s))
    decreases r, 0, 0, 0, 0
  {
    hide ThenResults, RepeatResults, Satisfied, Accepts;
    match r
    case Empty =>
    case Atom(t) =>
      if back {
        if s.pos > 0 { PrevBoundary(inp, s.pos); }
      } else if s.pos < |inp.units| {
        NextBoundary(inp, s.pos);
      }
    case Assert(a) =>
    case BackRef(i, icase) =>
      if 2 * i in s.caps && 2 * i + 1 in s.caps {
        var start, end := s.caps[2 * i], s.caps[2 * i + 1];
        if start <= |inp.units| && end <= |inp.units| {
          if back { BackRefBoundary(inp, icase, end, start, s.pos); }
          else { RefBoundary(inp, icase, start, end, s.pos); }
        }
      }
    case Group(r1) => ResultsBoundary(inp, r1, back, c + 1, SetCap(s, c, back));
    case Sequence(r1, r2) =>
      if back {
        ResultsBoundary(inp, r2, back, c + Groups(r1), s);
        ThenBoundary(inp, r1, back, c, s, Results(inp, r2, back, c + Groups(r1), s));
      } else {
        ResultsBoundary(inp, r1, back, c, s);
        ThenBoundary(inp, r2, back, c + Groups(r1), s, Results(inp, r1, back, c, s));
      }
    case Either(r1, r2) =>
      ResultsBoundary(inp, r1, back, c, s);
      ResultsBoundary(inp, r2, back, c + Groups(r1), s);
    case Quantified(r1, min, max, greedy) =>
      var s0 := if min == 0 then ResetState(s, Groups(r1), c) else s;
      RepeatBoundary(inp, r1, min, OptionalRounds(min, max), greedy, back, c, s0);
    case Look(r1, negative, behind) =>
  }

  lemma {:induction false} ThenBoundary(inp: Input, r: Regex, back: bool, c: nat, s0: State, xs: seq<State>)
    requires AllAhead(inp, back, s0, xs) && AllBoundary(inp, xs)
    ensures AllBoundary(inp, ThenResults(inp, r, back, c, s0, xs))
    decreases r, 1, 0, 0, |xs|
  {
    if xs != [] {
      ResultsBoundary(inp, r, back, c, xs[0]);
      ThenBoundary(inp, r, back, c, s0, xs[1..]);
    }
  }

  lemma {:induction false} RepeatBoundary(inp: Input, r: Regex, n: nat, more: Option<nat>, greedy: bool, back: bool,
      c: nat, s: State)
    requires Boundary(inp, s.pos)
    ensures AllBoundary(inp, RepeatResults(inp, r, n, more, greedy, back, c, s))
    decreases r, 3, n, 0, 0
  {
    if n == 0 {
      LoopBoundary(inp, r, more, greedy, back, c, s);
    } else {
      ResultsBoundary(inp, r, back, c, s);
      ThenRepeatBoundary(inp, r, n - 1, more, greedy, back, c, s, Results(inp, r, back, c, s));
    }
  }

  lemma {:induction false} ThenRepeatBoundary(inp: Input, r: Regex, n: nat, more: Option<nat>, greedy: bool,
      back: bool, c: nat, s0: State, xs: seq<State>)
    requires AllAhead(inp, back, s0, xs) && AllBoundary(inp, xs)
    ensures AllBoundary(inp, ThenRepeat(inp, r, n, more, greedy, back, c, s0, xs))
    decreases r, 3, n, 1, |xs|
  {
    if xs != [] {
      RepeatBoundary(inp, r, n, more, greedy, back, c, xs[0]);
      ThenRepeatBoundary(inp, r, n, more, greedy, back, c, s0, xs[1..]);
    }
  }

  lemma {:induction false} LoopBoundary(inp: Input, r: Regex, more: Option<nat>, greedy: bool, back: bool, c: nat,
      s: State)
    requires Boundary(inp, s.pos)
    ensures AllBoundary(inp, LoopResults(inp, r, more, greedy, back, c, s))
    decreases r, 2, Room(inp, back, s), 1, 0
  {
    if more != Some(0) {
      var xs := Results(inp, r, back, c, s);
      ResultsBoundary(inp, r, back, c, s);
      MovedAhead(inp, back, s, xs);
      ThenLoopBoundary(inp, r, OneLess(more), greedy, back, c, s, Moved(s, xs));
    }
  }

  lemma {:induction false} ThenLoopBoundary(inp: Input, r: Regex, more: Option<nat>, greedy: bool, back: bool, c: nat,
      s0: State, xs: seq<State>)
    requires s0.pos <= |inp.units|
    requires AllAhead(inp, back, s0, xs) && AllBoundary(inp, xs) && forall k :: 0 <= k < |xs| ==> xs[k].pos != s0.pos
    ensures AllBoundary(inp, ThenLoop(inp, r, more, greedy, back, c, s0, xs))
    decreases r, 2, Room(inp, back, s0), 0, |xs|
  {
    if xs != [] {
      LoopBoundary(inp, r, more, greedy, back, c, xs[0]);
      ThenLoopBoundary(inp, r, more, greedy, back, c, s0, xs[1..]);
    }
  }

  lemma MovedAhead(inp: Input, back: bool, s: State, xs: seq<State>)
    requires AllAhead(inp, back, s, xs) && AllBoundary(inp, xs)
    ensures AllAhead(inp, back, s, Moved(s, xs)) && AllBoundary(inp, Moved(s, xs))
  {
    var ys := Moved(s, xs);
    forall k | 0 <= k < |ys|
      ensures Ahead(inp, back, s, ys[k]) && Boundary(inp, ys[k].pos)
    {
      var j :| 0 <= j < |xs| && xs[j] == ys[k];
    }
  }

  // Code that needs no check always moves.

  predicate AllMoved(s: State, xs: seq<State>) {
    forall k :: 0 <= k < |xs| ==> xs[k].pos != s.pos
  }

  predicate HasChar(code: seq<Instr>) {
    exists k :: 0 <= k < |code| && code[k].IsSimpleChar()
  }

  predicate Predictable(code: seq<Instr>) {
    forall k :: 0 <= k < |code| ==> code[k].IsPredictable()
  }

  lemma PredictableAppend(a: seq<Instr>, b: seq<Instr>)
    ensures Predictable(a + b) <==> Predictable(a) && Predictable(b)
    ensures HasChar(a + b) <==> HasChar(a) || HasChar(b)
  {
    var ab := a + b;
    forall k | 0 <= k < |a| ensures ab[k] == a[k] {}
    forall k | 0 <= k < |b| ensures ab[|a| + k] == b[k] {}
  }

  lemma MovedAll(s: State, xs: seq<State>)
    requires AllMoved(s, xs)
    ensures Moved(s, xs) == xs
  {
    if xs != [] {
      MovedAll(s, xs[1..]);
    }
  }

  predicate HasJump(code: seq<Instr>) {
    exists k :: 0 <= k < |code| && (code[k].Split? || code[k].Loop? || code[k].SimpleGreedyQuant?)
  }

  /** A quantifier without a jump is {0} or {1}: no code for the atom, or just the atom. */
  lemma QuantJump(body: seq<Instr>, groups: nat, c: nat, min: nat, max: nat, greedy: bool)
    requires min <= max
    ensures var code := QuantCode(body, groups, c, min, max, greedy);
      if UsesSimpleQuant(body, max, greedy) || max > 1 || max > min then HasJump(code)
      else code == (if min == 1 then body else if groups > 0 then [SaveReset(c, c + groups - 1)] else [])
  {
    hide LoopCode, OptionCode, MoreCode, RepeatCode, HasJump, NeedCheckAdvance, SimpleQuantifier, Size, CharCount;
    if UsesSimpleQuant(body, max, greedy) {
      JumpAt(SimpleQuantCode(body, min, max), 0);
    } else if min == 0 {
      ZeroJumps(body, max, greedy);
      if max > 0 { JumpAppend(ResetCode(groups, c), ZeroCode(body, max, greedy)); }
    } else {
      RepeatJumps(body, min);
      MoreJumps(body, min, max, greedy);
      if min > 1 || max > min { JumpAppend(RepeatCode(body, min), MoreCode(body, min, max, greedy)); }
      if min == 1 && max == INT32_MAX { JumpAt(PlusCode(body, greedy), |body|); }
    }
  }

  lemma JumpAt(code: seq<Instr>, k: nat)
    requires k < |code| && (code[k].Split? || code[k].Loop? || code[k].SimpleGreedyQuant?)
    ensures HasJump(code)
  {
  }

  lemma JumpAppend(a: seq<Instr>, b: seq<Instr>)
    requires HasJump(a) || HasJump(b)
    ensures HasJump(a + b)
  {
    if HasJump(a) {
      var k :| 0 <= k < |a| && (a[k].Split? || a[k].Loop? || a[k].SimpleGreedyQuant?);
      JumpAt(a + b, k);
    } else {
      var k :| 0 <= k < |b| && (b[k].Split? || b[k].Loop? || b[k].SimpleGreedyQuant?);
      JumpAt(a + b, |a| + k);
    }
  }

  lemma MoreJumps(body: seq<Instr>, min: nat, max: nat, greedy: bool)
    ensures max == INT32_MAX || max > min ==> HasJump(MoreCode(body, min, max, greedy))
    ensures max <= min && max != INT32_MAX ==> MoreCode(body, min, max, greedy) == []
  {
    hide RoundCode, Size, HasJump;
    if max == INT32_MAX {
      JumpAt(LoopCode(body, false, greedy), 0);
    } else if max > min {
      JumpAt([PushI32(max - min)] + LoopCode(body, true, greedy), 1);
    }
  }

  lemma ZeroJumps(body: seq<Instr>, max: nat, greedy: bool)
    ensures if max == 0 then ZeroCode(body, max, greedy) == [] else HasJump(ZeroCode(body, max, greedy))
  {
    hide RoundCode, Size, HasJump, MoreCode;
    if max == 1 {
      JumpAt(OptionCode(body, greedy), 0);
    } else {
      MoreJumps(body, 0, max, greedy);
    }
  }

  lemma RepeatJumps(body: seq<Instr>, n: nat)
    ensures if n == 1 then RepeatCode(body, n) == body else HasJump(RepeatCode(body, n))
  {
    hide Size, HasJump;
    if n != 1 { JumpAt(RepeatCode(body, n), 1 + |body|); }
  }

  lemma JumpUnpredictable(code: seq<Instr>)
    requires HasJump(code)
    ensures !Predictable(code) && !AllSimple(code)
  {
    var k :| 0 <= k < |code| && (code[k].Split? || code[k].Loop? || code[k].SimpleGreedyQuant?);
  }

  lemma FirstUnpredictable(code: seq<Instr>)
    requires code != [] && !code[0].IsPredictable()
    ensures !Predictable(code)
  {
  }

  ghost predicate AlwaysMoves(inp: Input, r: Regex, back: bool, c: nat) {
    var code := Code(inp.canon, r, back, c);
    Predictable(code) && HasChar(code)
  }

  /** When the compiler leaves out the check, every result has moved. */
  lemma {:induction false} ResultsMove(inp: Input, r: Regex, back: bool, c: nat, s: State)
    requires s.pos <= |inp.units| && ValidRegex(r, INT32_MAX)
    requires AlwaysMoves(inp, r, back, c)
    ensures AllMoved(s, Results(inp, r, back, c, s))
    decreases r, 2, 0
  {
    hide *;
    match r
    case Empty => NoCharMoves(inp, r, back, c);
    case Atom(t) => AtomMoves(inp, t, back, c, s);
    case Assert(_) => NoCharMoves(inp, r, back, c);
    case BackRef(_, _) => NoCharMoves(inp, r, back, c);
    case Group(r1) => GroupMove(inp, r1, back, c, s);
    case Sequence(r1, r2) => BothMove(inp, r1, r2, back, c, s);
    case Either(_, _) => NoCharMoves(inp, r, back, c);
    case Quantified(r1, min, max, greedy) => QuantMove(inp, r1, min, max, greedy, back, c, s);
    case Look(_, _, _) => NoCharMoves(inp, r, back, c);
  }

  lemma NoCharMoves(inp: Input, r: Regex, back: bool, c: nat)
    requires r.Empty? || r.Assert? || r.BackRef? || r.Either? || r.Look?
    ensures !AlwaysMoves(inp, r, back, c)
  {
    hide Size;
    var code := Code(inp.canon, r, back, c);
    if r.Either? || r.Look? { FirstUnpredictable(code); }
  }

  lemma AtomMoves(inp: Input, t: CharTest, back: bool, c: nat, s: State)
    requires s.pos <= |inp.units|
    ensures AllMoved(s, Results(inp, Atom(t), back, c, s))
  {
  }

  lemma {:induction false} GroupMove(inp: Input, r1: Regex, back: bool, c: nat, s: State)
    requires s.pos <= |inp.units| && ValidRegex(Group(r1), INT32_MAX)
    requires AlwaysMoves(inp, Group(r1), back, c)
    ensures AllMoved(s, Results(inp, Group(r1), back, c, s))
    decreases r1, 4, 0
  {
    var c1 := Code(inp.canon, r1, back, c + 1);
    hide HasChar, Predictable;
    CodeHasChar([Save(c, back)], c1, [Save(c, !back)]);
    ResultsMove(inp, r1, back, c + 1, SetCap(s, c, back));
  }

  lemma CodeHasChar(a: seq<Instr>, code: seq<Instr>, b: seq<Instr>)
    requires |a| == 1 && |b| == 1 && a[0].Save? && b[0].Save?
    ensures HasChar(a + code + b) == HasChar(code) && Predictable(a + code + b) == Predictable(code)
  {
    PredictableAppend(a + code, b);
    PredictableAppend(a, code);
  }

  lemma SequenceValid(r1: Regex, r2: Regex)
    requires ValidRegex(Sequence(r1, r2), INT32_MAX)
    ensures ValidRegex(r1, INT32_MAX) && ValidRegex(r2, INT32_MAX)
  {
  }

  lemma SequenceCode(canon: nat -> nat, r1: Regex, r2: Regex, back: bool, c: nat)
    ensures Code(canon, Sequence(r1, r2), back, c) ==
      if back then Code(canon, r2, back, c + Groups(r1)) + Code(canon, r1, back, c)
      else Code(canon, r1, back, c) + Code(canon, r2, back, c + Groups(r1))
  {
    hide Groups;
  }

  lemma SequenceResults(inp: Input, r1: Regex, r2: Regex, back: bool, c: nat, s: State)
    requires s.pos <= |inp.units|
    ensures Results(inp, Sequence(r1, r2), back, c, s) ==
      if back then ThenResults(inp, r1, back, c, s, Results(inp, r2, back, c + Groups(r1), s))
      else ThenResults(inp, r2, back, c + Groups(r1), s, Results(inp, r1, back, c, s))
  {
    hide ThenResults, AllAhead, Groups, RepeatResults;
  }

  lemma {:induction false} BothMove(inp: Input, r1: Regex, r2: Regex, back: bool, c: nat, s: State)
    requires s.pos <= |inp.units| && ValidRegex(Sequence(r1, r2), INT32_MAX)
    requires AlwaysMoves(inp, Sequence(r1, r2), back, c)
    ensures AllMoved(s, Results(inp, Sequence(r1, r2), back, c, s))
    decreases Sequence(r1, r2), 1, 0
  {
    hide Code, Results, ThenResults, AllMoved, ValidRegex, HasChar, Predictable, Groups;
    SequenceValid(r1, r2);
    SequenceCode(inp.canon, r1, r2, back, c);
    SequenceResults(inp, r1, r2, back, c, s);
    var c2 := c + Groups(r1);
    var f, cf, g, cg := if back then r2 else r1, if back then c2 else c, if back then r1 else r2,
      if back then c else c2;
    PredictableAppend(Code(inp.canon, f, back, cf), Code(inp.canon, g, back, cg));
    if HasChar(Code(inp.canon, f, back, cf)) {
      ResultsMove(inp, f, back, cf, s);
    }
    ThenMove(inp, g, back, cg, s, Results(inp, f, back, cf, s));
  }

  lemma {:induction false} QuantMove(inp: Input, r1: Regex, min: nat, max: nat, greedy: bool, back: bool, c: nat,
      s: State)
    requires s.pos <= |inp.units| && ValidRegex(Quantified(r1, min, max, greedy), INT32_MAX)
    requires AlwaysMoves(inp, Quantified(r1, min, max, greedy), back, c)
    ensures AllMoved(s, Results(inp, Quantified(r1, min, max, greedy), back, c, s))
    decreases r1, 4, 0
  {
    hide *;
    OnlyOnce(inp, r1, min, max, greedy, back, c);
    ResultsMove(inp, r1, back, c, s);
    RepeatOnce(inp, r1, greedy, back, c, s);
    QuantResults(inp, r1, greedy, back, c, s);
  }

  /** A quantifier without a jump and with a character is {1}. */
  lemma OnlyOnce(inp: Input, r1: Regex, min: nat, max: nat, greedy: bool, back: bool, c: nat)
    requires ValidRegex(Quantified(r1, min, max, greedy), INT32_MAX)
      && AlwaysMoves(inp, Quantified(r1, min, max, greedy), back, c)
    ensures min == max == 1 && ValidRegex(r1, INT32_MAX) && AlwaysMoves(inp, r1, back, c)
  {
    var body := Code(inp.canon, r1, back, c);
    var code := QuantCode(body, Groups(r1), c, min, max, greedy);
    QuantJump(body, Groups(r1), c, min, max, greedy);
    assert Code(inp.canon, Quantified(r1, min, max, greedy), back, c) == code;
    hide QuantCode, HasJump;
    if HasJump(code) { JumpUnpredictable(code); }
  }

  lemma QuantResults(inp: Input, r1: Regex, greedy: bool, back: bool, c: nat, s: State)
    requires s.pos <= |inp.units|
    ensures Results(inp, Quantified(r1, 1, 1, greedy), back, c, s)
      == RepeatResults(inp, r1, 1, Some(0), greedy, back, c, s)
  {
    hide RepeatResults;
  }

  lemma {:induction false} ThenMove(inp: Input, r: Regex, back: bool, c: nat, s0: State, xs: seq<State>)
    requires AllAhead(inp, back, s0, xs) && ValidRegex(r, INT32_MAX)
    requires Predictable(Code(inp.canon, r, back, c))
    requires AllMoved(s0, xs) || HasChar(Code(inp.canon, r, back, c))
    ensures AllMoved(s0, ThenResults(inp, r, back, c, s0, xs))
    decreases r, 3, |xs|
  {
    if xs != [] {
      if HasChar(Code(inp.canon, r, back, c)) {
        ResultsMove(inp, r, back, c, xs[0]);
      }
      ThenMove(inp, r, back, c, s0, xs[1..]);
    }
  }

  /** One mandatory round and no optional one is the atom itself. */
  lemma RepeatOnce(inp: Input, r: Regex, greedy: bool, back: bool, c: nat, s: State)
    requires s.pos <= |inp.units|
    ensures RepeatResults(inp, r, 1, Some(0), greedy, back, c, s) == Results(inp, r, back, c, s)
  {
    ThenNothing(inp, r, greedy, back, c, s, Results(inp, r, back, c, s));
  }

  lemma {:induction false} ThenNothing(inp: Input, r: Regex, greedy: bool, back: bool, c: nat, s0: State,
      xs: seq<State>)
    requires AllAhead(inp, back, s0, xs)
    ensures ThenRepeat(inp, r, 0, Some(0), greedy, back, c, s0, xs) == xs
    decreases |xs|
  {
    if xs != [] {
      ThenNothing(inp, r, greedy, back, c, s0, xs[1..]);
      assert RepeatResults(inp, r, 0, Some(0), greedy, back, c, xs[0]) == [xs[0]];
    }
  }

  lemma ValidMore(r: Regex, j: nat, k: nat)
    requires j <= k && ValidRegex(r, j)
    ensures ValidRegex(r, k)
  {
  }
}
