/** Code that re_is_simple_quantifier accepts, and the fast loop over it. */
module RegexpSimpleQuant {
  import opened Options
  import opened RegexpInput
  import opened RegexpBytecode
  import opened RegexpSyntax
  import opened RegexpCompiler
  import opened RegexpMachine
  import opened RegexpTests

  /** The position after a straight piece of code, if it matches. */
  function RunCode(inp: Input, code: seq<Instr>, pos: nat): (r: Option<nat>)
    requires AllSimple(code) && pos <= |inp.units|
    ensures r.Some? ==> pos <= r.value <= |inp.units|
    decreases |code|
  {
    if code == [] then Some(pos)
    else
      var p := SimpleStep(inp, code[0], pos);
      if p.None? then None else RunCode(inp, code[1..], p.value)
  }

  function StraightResults(inp: Input, code: seq<Instr>, s: State): seq<State>
    requires AllSimple(code) && s.pos <= |inp.units|
  {
    var p := RunCode(inp, code, s.pos);
    if p.None? then [] else [s.(pos := p.value)]
  }

  lemma {:induction false} RunCodeAppend(inp: Input, a: seq<Instr>, b: seq<Instr>, pos: nat)
    requires AllSimple(a + b) && pos <= |inp.units|
    ensures AllSimple(a) && AllSimple(b)
    ensures RunCode(inp, a + b, pos)
         == var p := RunCode(inp, a, pos); if p.None? then None else RunCode(inp, b, p.value)
    decreases |a|
  {
    SimpleAppend(a, b);
    if a == [] {
      assert a + b == b;
    } else {
      assert (a + b)[1..] == a[1..] + b;
      var p := SimpleStep(inp, a[0], pos);
      if p.Some? {
        RunCodeAppend(inp, a[1..], b, p.value);
      }
    }
  }

  lemma SimpleAppend(a: seq<Instr>, b: seq<Instr>)
    ensures AllSimple(a + b) <==> AllSimple(a) && AllSimple(b)
  {
    var ab := a + b;
    forall k | 0 <= k < |a| ensures ab[k] == a[k] {}
    forall k | 0 <= k < |b| ensures ab[|a| + k] == b[k] {}
  }

  lemma FirstNotSimple(code: seq<Instr>)
    requires code != [] && !code[0].IsSimple()
    ensures !AllSimple(code)
  {
  }

  lemma RunOne(inp: Input, i: Instr, pos: nat)
    requires i.IsSimple() && pos <= |inp.units|
    ensures RunCode(inp, [i], pos) == SimpleStep(inp, i, pos)
  {
    assert [i][1..] == [];
  }

  /** A pattern with straight code has no groups and at most one result. */
  lemma {:induction false} SimpleResults(inp: Input, r: Regex, back: bool, c: nat, s: State)
    requires ValidInput(inp) && ValidRegex(r, INT32_MAX) && s.pos <= |inp.units|
    requires AllSimple(Code(inp.canon, r, back, c))
    ensures Groups(r) == 0
    ensures Results(inp, r, back, c, s) == StraightResults(inp, Code(inp.canon, r, back, c), s)
    decreases r, 1
  {
    hide QuantCode, TestInstr, ThenResults, RepeatResults, RefEnd, AtomResults, AllSimple, RunCode, SimpleStep;
    var code := Code(inp.canon, r, back, c);
    match r
    case Empty => SimpleEmpty(inp, s);
    case Atom(t) =>
      if back {
        FirstNotSimple(code);
      } else {
        SimpleAtom(inp, t, s);
      }
    case Assert(a) => SimpleAssert(inp, a, s);
    case BackRef(i, icase) => FirstNotSimple(code);
    case Group(r1) => FirstNotSimple(code);
    case Sequence(r1, r2) =>
      if back { SimpleSequence(inp, r, r2, c + Groups(r1), r1, c, back, s); }
      else { SimpleSequence(inp, r, r1, c, r2, c + Groups(r1), back, s); }
    case Either(r1, r2) => FirstNotSimple(code);
    case Quantified(r1, min, max, greedy) => SimpleQuantified(inp, r1, min, max, greedy, back, c, s);
    case Look(r1, negative, behind) => FirstNotSimple(code);
  }

  lemma SimpleEmpty(inp: Input, s: State)
    requires s.pos <= |inp.units|
    ensures StraightResults(inp, [], s) == [s]
  {
  }

  lemma SimpleAssert(inp: Input, a: Assertion, s: State)
    requires s.pos <= |inp.units|
    ensures StraightResults(inp, [Check(a)], s) == if Satisfied(inp, a, s.pos) then [s] else []
  {
    hide Satisfied;
    RunOne(inp, Check(a), s.pos);
    assert s == s.(pos := s.pos);
  }

  lemma SimpleAtom(inp: Input, t: CharTest, s: State)
    requires ValidInput(inp) && ValidRegex(Atom(t), INT32_MAX) && s.pos <= |inp.units|
    requires AllSimple([TestInstr(inp.canon, t)])
    ensures AtomResults(inp, t, false, s) == StraightResults(inp, [TestInstr(inp.canon, t)], s)
  {
    var i := TestInstr(inp.canon, t);
    RunOne(inp, i, s.pos);
    if s.pos < |inp.units| {
      CharInRange(inp, s.pos);
      TestCorrect(inp, t, CharAt(inp, s.pos));
    } else {
      TestCorrect(inp, t, 0);
    }
  }

  lemma {:induction false} SimpleSequence(inp: Input, r: Regex, f: Regex, cf: nat, g: Regex, cg: nat, back: bool,
      s: State)
    requires f < r && g < r && ValidInput(inp) && s.pos <= |inp.units|
    requires ValidRegex(f, INT32_MAX) && ValidRegex(g, INT32_MAX)
    requires AllSimple(Code(inp.canon, f, back, cf) + Code(inp.canon, g, back, cg))
    ensures Groups(f) == 0 && Groups(g) == 0
    ensures ThenResults(inp, g, back, cg, s, Results(inp, f, back, cf, s))
         == StraightResults(inp, Code(inp.canon, f, back, cf) + Code(inp.canon, g, back, cg), s)
    decreases r, 0
  {
    hide Code, Groups, Results;
    var codeF, codeG := Code(inp.canon, f, back, cf), Code(inp.canon, g, back, cg);
    RunCodeAppend(inp, codeF, codeG, s.pos);
    SimpleResults(inp, f, back, cf, s);
    SimpleResults(inp, g, back, cg, s);
    var p := RunCode(inp, codeF, s.pos);
    if p.Some? {
      var s1 := s.(pos := p.value);
      SimpleResults(inp, g, back, cg, s1);
      assert Results(inp, f, back, cf, s)[0] == s1;
      ThenSingle(inp, g, back, cg, s, s1);
    }
  }

  lemma ThenSingle(inp: Input, r: Regex, back: bool, c: nat, s0: State, x: State)
    requires Ahead(inp, back, s0, x)
    ensures ThenResults(inp, r, back, c, s0, [x]) == Results(inp, r, back, c, x)
  {
    assert [x][1..] == [];
    assert ThenResults(inp, r, back, c, s0, [x][1..]) == [];
    hide Results;
  }

  lemma {:induction false} SimpleQuantified(inp: Input, r1: Regex, min: nat, max: nat, greedy: bool, back: bool,
      c: nat, s: State)
    requires ValidInput(inp) && ValidRegex(Quantified(r1, min, max, greedy), INT32_MAX) && s.pos <= |inp.units|
    requires AllSimple(Code(inp.canon, Quantified(r1, min, max, greedy), back, c))
    ensures Groups(r1) == 0
    ensures Results(inp, Quantified(r1, min, max, greedy), back, c, s)
         == StraightResults(inp, Code(inp.canon, Quantified(r1, min, max, greedy), back, c), s)
    decreases r1, 2
  {
    hide *;
    SimpleForms(inp, r1, min, max, greedy, back, c);
    if min == 1 {
      SimpleResults(inp, r1, back, c, s);
      RepeatOnce(inp, r1, greedy, back, c, s);
      QuantResults(inp, r1, greedy, back, c, s);
    } else {
      NoRoundResults(inp, r1, greedy, back, c, s);
      SimpleEmpty(inp, s);
    }
  }

  /** A quantifier with straight code is {1}, or {0} without groups. */
  lemma SimpleForms(inp: Input, r1: Regex, min: nat, max: nat, greedy: bool, back: bool, c: nat)
    requires ValidRegex(Quantified(r1, min, max, greedy), INT32_MAX)
    requires AllSimple(Code(inp.canon, Quantified(r1, min, max, greedy), back, c))
    ensures min == max <= 1 && ValidRegex(r1, INT32_MAX)
    ensures min == 1 ==> Code(inp.canon, Quantified(r1, min, max, greedy), back, c) == Code(inp.canon, r1, back, c)
    ensures min == 0 ==> Code(inp.canon, Quantified(r1, min, max, greedy), back, c) == [] && Groups(r1) == 0
  {
    var body := Code(inp.canon, r1, back, c);
    var code := QuantCode(body, Groups(r1), c, min, max, greedy);
    QuantJump(body, Groups(r1), c, min, max, greedy);
    assert Code(inp.canon, Quantified(r1, min, max, greedy), back, c) == code;
    hide QuantCode, HasJump, AllSimple, Code;
    if HasJump(code) { JumpUnpredictable(code); }
    if min == 0 && Groups(r1) > 0 { FirstNotSimple(code); }
  }

  lemma NoRoundResults(inp: Input, r1: Regex, greedy: bool, back: bool, c: nat, s: State)
    requires s.pos <= |inp.units| && Groups(r1) == 0
    ensures Results(inp, Quantified(r1, 0, 0, greedy), back, c, s) == [s]
  {
    assert RepeatResults(inp, r1, 0, Some(0), greedy, back, c, s) == [s];
  }

  /** The nested run of the machine is the straight run of the code before its match. */
  lemma {:induction false} RunBodyCode(m: Machine, code: seq<Instr>, pc: nat, pos: nat)
    requires AllSimple(code) && pos <= |m.inp.units| && Holds(m.prog, pc, code + [Match])
    ensures RunBody(m, pc, pos) == var p := RunCode(m.inp, code, pos); if p.None? then NoMatch else Reached(p.value)
    decreases |code|
  {
    hide Holds, SimpleStep;
    if code == [] {
      HoldsOne(m.prog, pc, Match);
      assert code + [Match] == [Match];
    } else {
      assert code + [Match] == [code[0]] + (code[1..] + [Match]);
      HoldsCons(m.prog, pc, code[0], code[1..] + [Match]);
      var p := SimpleStep(m.inp, code[0], pos);
      if p.Some? {
        RunBodyCode(m, code[1..], pc + code[0].Size(), p.value);
      }
    }
  }

  lemma {:induction false} PrevAdd(inp: Input, pos: nat, i: nat, j: nat)
    requires pos <= |inp.units|
    ensures PrevN(inp, pos, i + j) == var p := PrevN(inp, pos, i); if p.None? then None else PrevN(inp, p.value, j)
    decreases i
  {
    if i > 0 && pos > 0 {
      PrevAdd(inp, Prev(inp, pos), i - 1, j);
    }
  }

  /** Going back as many characters as the code has tests undoes it: PREV_CHAR undoes
      GET_CHAR because every position on the way is a boundary. */
  lemma {:induction false} StraightBack(inp: Input, code: seq<Instr>, pos: nat)
    requires AllSimple(code) && Boundary(inp, pos)
    ensures var p := RunCode(inp, code, pos); p.Some? ==>
      && Boundary(inp, p.value)
      && PrevN(inp, p.value, CharCount(code)) == Some(pos)
      && (CharCount(code) > 0 ==> pos < p.value)
    decreases |code|
  {
    if code != [] {
      var p := SimpleStep(inp, code[0], pos);
      if p.Some? {
        if code[0].IsSimpleChar() {
          NextBoundary(inp, pos);
          PrevNext(inp, pos);
        }
        StraightBack(inp, code[1..], p.value);
        var q := RunCode(inp, code[1..], p.value);
        if q.Some? && code[0].IsSimpleChar() {
          PrevAdd(inp, q.value, CharCount(code[1..]), 1);
          assert PrevN(inp, p.value, 1) == PrevN(inp, pos, 0);
        }
      }
    }
  }

  // The greedy loop over a straight body, as the pattern means it and as the machine runs it.

  /** The states at st and, going back n times k characters, before it. */
  function Down(inp: Input, st: State, n: nat, k: nat): seq<State>
    requires st.pos <= |inp.units|
    decreases n
  {
    if n == 0 then [st]
    else
      var p := PrevN(inp, st.pos, k);
      if p.None? then [st] else [st] + Down(inp, st.(pos := p.value), n - 1, k)
  }

  /** n times k characters before st is s. */
  ghost predicate BackTo(inp: Input, st: State, n: nat, k: nat, s: State)
    requires st.pos <= |inp.units|
    decreases n
  {
    if n == 0 then st == s
    else
      var p := PrevN(inp, st.pos, k);
      p.Some? && BackTo(inp, st.(pos := p.value), n - 1, k, s)
  }

  ghost predicate CanGoBack(inp: Input, st: State, n: nat, k: nat)
    requires st.pos <= |inp.units|
    decreases n
  {
    n == 0 || (PrevN(inp, st.pos, k).Some? && CanGoBack(inp, st.(pos := PrevN(inp, st.pos, k).value), n - 1, k))
  }

  lemma {:induction false} BackToCan(inp: Input, st: State, n: nat, k: nat, s: State)
    requires st.pos <= |inp.units| && BackTo(inp, st, n, k, s)
    ensures CanGoBack(inp, st, n, k)
    decreases n
  {
    if n > 0 {
      BackToCan(inp, st.(pos := PrevN(inp, st.pos, k).value), n - 1, k, s);
    }
  }

  lemma {:induction false} DownExtend(inp: Input, st: State, n: nat, k: nat, s1: State, s: State)
    requires st.pos <= |inp.units| && s1.pos <= |inp.units| && s.pos <= |inp.units|
    requires BackTo(inp, st, n, k, s1) && PrevN(inp, s1.pos, k) == Some(s.pos) && s == s1.(pos := s.pos)
    ensures BackTo(inp, st, n + 1, k, s)
    ensures Down(inp, st, n + 1, k) == Down(inp, st, n, k) + [s]
    decreases n
  {
    if n > 0 {
      DownExtend(inp, st.(pos := PrevN(inp, st.pos, k).value), n - 1, k, s1, s);
    } else {
      assert Down(inp, s, 0, k) == [s];
      assert BackTo(inp, s, 0, k, s);
    }
  }

  /** The straight code of r stands at pc as the body of a quantifier. */
  ghost predicate BodyAt(m: Machine, r: Regex, back: bool, c: nat, pc: nat) {
    var code := Code(m.inp.canon, r, back, c);
    && ValidInput(m.inp) && ValidRegex(r, INT32_MAX)
    && AllSimple(code) && CharCount(code) > 0
    && Holds(m.prog, pc, code + [Match])
  }

  ghost function Chars(m: Machine, r: Regex, back: bool, c: nat): nat {
    CharCount(Code(m.inp.canon, r, back, c))
  }

  /** One round, in the machine and in the pattern. */
  lemma OneRound(m: Machine, r: Regex, back: bool, c: nat, pc: nat, s: State) returns (p: Option<nat>)
    requires BodyAt(m, r, back, c, pc) && Boundary(m.inp, s.pos)
    ensures RunBody(m, pc, s.pos) == if p.None? then NoMatch else Reached(p.value)
    ensures Results(m.inp, r, back, c, s) == if p.None? then [] else [s.(pos := p.value)]
    ensures p.Some? ==> s.pos < p.value && Boundary(m.inp, p.value)
    ensures p.Some? ==> PrevN(m.inp, p.value, Chars(m, r, back, c)) == Some(s.pos)
    ensures p.Some? && back ==> false
  {
    var code := Code(m.inp.canon, r, back, c);
    SimpleResults(m.inp, r, back, c, s);
    RunBodyCode(m, code, pc, s.pos);
    StraightBack(m.inp, code, s.pos);
    p := RunCode(m.inp, code, s.pos);
    if p.Some? {
      assert Results(m.inp, r, back, c, s)[0] == s.(pos := p.value);
    }
  }

  /** A loop over a body with the single result s1. */
  lemma LoopSingle(inp: Input, r: Regex, more: Option<nat>, back: bool, c: nat, s: State, s1: State)
    requires s.pos <= |inp.units| && more != Some(0)
    requires Results(inp, r, back, c, s) == [s1] && s1.pos != s.pos && Ahead(inp, back, s, s1)
    ensures LoopResults(inp, r, more, true, back, c, s) == LoopResults(inp, r, OneLess(more), true, back, c, s1) + [s]
  {
    hide Results;
    assert [s1][1..] == [] && Moved(s, []) == [];
    assert Moved(s, [s1]) == [s1];
    var next := LoopResults(inp, r, OneLess(more), true, back, c, s1);
    assert ThenLoop(inp, r, OneLess(more), true, back, c, s, []) == [];
    assert ThenLoop(inp, r, OneLess(more), true, back, c, s, [s1]) == next + [];
  }

  lemma RepeatSingle(inp: Input, r: Regex, n: nat, more: Option<nat>, back: bool, c: nat, s: State, s1: State)
    requires s.pos <= |inp.units| && n > 0
    requires Results(inp, r, back, c, s) == [s1] && Ahead(inp, back, s, s1)
    ensures RepeatResults(inp, r, n, more, true, back, c, s) == RepeatResults(inp, r, n - 1, more, true, back, c, s1)
  {
    hide Results, LoopResults;
    assert [s1][1..] == [];
    assert ThenRepeat(inp, r, n - 1, more, true, back, c, s, []) == [];
  }

  /** The optional rounds: the machine counts as many as match and the pattern offers
      the same positions, the last one first. */
  lemma {:induction false} CountOptional(m: Machine, r: Regex, back: bool, c: nat, pc: nat, s: State, q: nat, max: nat)
    requires BodyAt(m, r, back, c, pc) && Boundary(m.inp, s.pos) && (q < max || max == INT32_MAX)
    ensures var e := CountBody(m, pc, s.pos, q, max);
      && e.Counted?
      && BackTo(m.inp, s.(pos := e.pos), e.q - q, Chars(m, r, back, c), s)
      && LoopResults(m.inp, r, OptionalRounds(q, max), true, back, c, s)
         == Down(m.inp, s.(pos := e.pos), e.q - q, Chars(m, r, back, c))
    decreases |m.inp.units| - s.pos
  {
    hide BodyAt, Results, LoopResults, RunBody, Boundary, Chars, PrevN;
    BoundaryInside(m.inp, s.pos);
    var p := OneRound(m, r, back, c, pc, s);
    var more := OptionalRounds(q, max);
    if p.None? {
      LoopNone(m.inp, r, more, back, c, s);
    } else {
      var s1 := s.(pos := p.value);
      LoopSingle(m.inp, r, more, back, c, s, s1);
      if q + 1 >= max && max != INT32_MAX {
        LoopZero(m.inp, r, back, c, s1);
        DownExtend(m.inp, s1, 0, Chars(m, r, back, c), s1, s);
      } else {
        CountOptional(m, r, back, c, pc, s1, q + 1, max);
        var e := CountBody(m, pc, s1.pos, q + 1, max);
        DownExtend(m.inp, s.(pos := e.pos), e.q - (q + 1), Chars(m, r, back, c), s1, s);
      }
    }
  }

  lemma LoopNone(inp: Input, r: Regex, more: Option<nat>, back: bool, c: nat, s: State)
    requires s.pos <= |inp.units| && Results(inp, r, back, c, s) == []
    ensures LoopResults(inp, r, more, true, back, c, s) == [s]
  {
  }

  lemma LoopZero(inp: Input, r: Regex, back: bool, c: nat, s: State)
    requires s.pos <= |inp.units|
    ensures LoopResults(inp, r, Some(0), true, back, c, s) == [s]
  {
  }

  /** All rounds: with n mandatory ones left the machine fails exactly when the pattern does. */
  lemma {:induction false} CountAll(m: Machine, r: Regex, back: bool, c: nat, pc: nat, s: State, q: nat, n: nat,
      max: nat)
    requires BodyAt(m, r, back, c, pc) && Boundary(m.inp, s.pos)
    requires q + n <= max && (q < max || max == INT32_MAX)
    ensures var e := CountBody(m, pc, s.pos, q, max);
      && e.Counted?
      && RepeatResults(m.inp, r, n, OptionalRounds(q + n, max), true, back, c, s)
         == (if e.q < q + n then [] else Down(m.inp, s.(pos := e.pos), e.q - (q + n), Chars(m, r, back, c)))
      && (e.q >= q + n ==> CanGoBack(m.inp, s.(pos := e.pos), e.q - (q + n), Chars(m, r, back, c)))
    decreases n
  {
    hide BodyAt, Results, LoopResults, RunBody, Boundary, Chars, PrevN;
    BoundaryInside(m.inp, s.pos);
    if n == 0 {
      CountOptional(m, r, back, c, pc, s, q, max);
      var e := CountBody(m, pc, s.pos, q, max);
      BackToCan(m.inp, s.(pos := e.pos), e.q - q, Chars(m, r, back, c), s);
    } else {
      var p := OneRound(m, r, back, c, pc, s);
      var more := OptionalRounds(q + n, max);
      if p.None? {
        RepeatNone(m.inp, r, n, more, back, c, s);
      } else {
        var s1 := s.(pos := p.value);
        RepeatSingle(m.inp, r, n, more, back, c, s, s1);
        if q + 1 >= max && max != INT32_MAX {
          LoopZero(m.inp, r, back, c, s1);
        } else {
          CountAll(m, r, back, c, pc, s1, q + 1, n - 1, max);
        }
      }
    }
  }

  lemma CountFromZero(m: Machine, r: Regex, back: bool, c: nat, pc: nat, s: State, min: nat, max: nat)
    requires BodyAt(m, r, back, c, pc) && Boundary(m.inp, s.pos) && min <= max && 0 < max
    ensures s.pos <= |m.inp.units| && CountBody(m, pc, s.pos, 0, max).Counted?
    ensures var e := CountBody(m, pc, s.pos, 0, max);
      && RepeatResults(m.inp, r, min, OptionalRounds(min, max), true, back, c, s)
         == (if e.q < min then [] else Down(m.inp, s.(pos := e.pos), e.q - min, Chars(m, r, back, c)))
      && (e.q >= min ==> CanGoBack(m.inp, s.(pos := e.pos), e.q - min, Chars(m, r, back, c)))
  {
    hide *;
    BoundaryInside(m.inp, s.pos);
    CountAll(m, r, back, c, pc, s, 0, min, max);
  }

  lemma BoundaryInside(inp: Input, pos: nat)
    requires Boundary(inp, pos)
    ensures pos <= |inp.units|
  {
  }

  lemma RepeatNone(inp: Input, r: Regex, n: nat, more: Option<nat>, back: bool, c: nat, s: State)
    requires s.pos <= |inp.units| && n > 0 && Results(inp, r, back, c, s) == []
    ensures RepeatResults(inp, r, n, more, true, back, c, s) == []
  {
  }
}
