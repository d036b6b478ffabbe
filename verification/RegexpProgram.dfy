/** Whole programs: the search over start positions, the answer of lre_exec, termination. */
module RegexpProgram {
  import opened Options
  import opened RegexpInput
  import opened RegexpBytecode
  import opened RegexpSyntax
  import opened RegexpCompiler
  import opened RegexpMachine
  import opened RegexpTests
  import opened RegexpSimpleQuant
  import opened RegexpCorrectness

  /** The machine runs the program of the pattern r. */
  ghost predicate Loaded(m: Machine, r: Regex, sticky: bool) {
    && ValidInput(m.inp)
    && m.captures == 1 + Groups(r) <= CAPTURE_COUNT_MAX
    && ValidRegex(r, m.captures)
    && Holds(m.prog, 0, ProgramCode(m.inp.canon, r, sticky))
  }

  /** Where the pattern proper starts. */
  function PatternStart(sticky: bool): nat { if sticky then 0 else 11 }

  ghost function MatchAddress(m: Machine, r: Regex, sticky: bool): nat {
    End(m, PatternStart(sticky), Group(r), false, 0)
  }

  lemma ProgramShape(m: Machine, r: Regex, sticky: bool)
    requires Loaded(m, r, sticky)
    ensures Fits(m, Group(r), 0) && At(m, PatternStart(sticky), Group(r), false, 0)
    ensures Fetch(m.prog, MatchAddress(m, r, sticky)) == Some(Match)
    ensures !sticky ==>
      && Fetch(m.prog, 0) == Some(Split(false, 6))
      && Fetch(m.prog, 5) == Some(Any)
      && Fetch(m.prog, 6) == Some(Goto(-11))
  {
    hide Holds, Size, Fetch;
    var prefix: seq<Instr> := if sticky then [] else [Split(false, 6), Any, Goto(-11)];
    var group := Code(m.inp.canon, Group(r), false, 0);
    assert ProgramCode(m.inp.canon, r, sticky) == prefix + (group + [Match]);
    hide Code, ProgramCode;
    HoldsAppend(m.prog, 0, prefix, group + [Match]);
    if !sticky {
      assert prefix == [Split(false, 6)] + [Any] + [Goto(-11)];
      HoldsBetween(m.prog, 0, Split(false, 6), [Any], Goto(-11));
      HoldsOne(m.prog, 5, Any);
    } else {
      EmptySize();
    }
    HoldsAppend(m.prog, PatternStart(sticky), group, [Match]);
    HoldsOne(m.prog, PatternStart(sticky) + Size(group), Match);
  }

  lemma EmptySize()
    ensures Size([]) == 0
  {
  }

  /** The three instructions in front of a pattern that is not sticky. */
  lemma PrefixSteps(m: Machine, r: Regex, s: State, base: seq<Frame>) returns (f: Frame)
    requires Loaded(m, r, false) && Boundary(m.inp, s.pos)
    ensures f == Frame(SplitFrame, 0, s, 5, [])
    ensures Step(m, Run(0, s, [], base)) == Run(11, s, [], base + [f])
    ensures Step(m, Run(5, s, [], base))
         == if s.pos == |m.inp.units| then Fail(base) else Run(6, s.(pos := Next(m.inp, s.pos)), [], base)
    ensures s.pos < |m.inp.units| ==>
      Step(m, Run(6, s.(pos := Next(m.inp, s.pos)), [], base)) == Run(0, s.(pos := Next(m.inp, s.pos)), [], base)
  {
    hide Loaded;
    ProgramShape(m, r, false);
    f := Frame(SplitFrame, 0, s, 5, []);
  }

  lemma SearchUnfold(inp: Input, r: Regex, sticky: bool, s: State)
    requires s.pos <= |inp.units|
    ensures SearchResults(inp, r, sticky, s) == Results(inp, Group(r), false, 0, s)
      + if sticky || s.pos == |inp.units| then [] else SearchResults(inp, r, sticky, s.(pos := Next(inp, s.pos)))
  {
    hide AllAhead;
  }

  /** The program offers the matches at s, then those at the later characters. */
  lemma {:induction false} SimSearch(m: Machine, r: Regex, sticky: bool, s: State, base: seq<Frame>)
    requires Loaded(m, r, sticky) && Boundary(m.inp, s.pos)
    ensures s.pos <= |m.inp.units|
    ensures Offers(m, Run(0, s, [], base), SearchResults(m.inp, r, sticky, s), MatchAddress(m, r, sticky), [], base)
    decreases |m.inp.units| - s.pos
  {
    hide *;
    BoundaryInside(m.inp, s.pos);
    ProgramShape(m, r, sticky);
    SearchUnfold(m.inp, r, sticky, s);
    var mt := MatchAddress(m, r, sticky);
    MatchAddressIs(m, r, sticky);
    var xs := Results(m.inp, Group(r), false, 0, s);
    if sticky {
      Sim(m, Group(r), false, 0, 0, s, [], base);
      assert xs + [] == xs;
    } else {
      var f := PrefixSteps(m, r, s, base);
      var start := Run(0, s, [], base);
      Sim(m, Group(r), false, 0, 11, s, [], base + [f]);
      OffersStep(m, start, xs, mt, [], base + [f]);
      FailIntoSplit(m, base, f);
      var ys := if s.pos == |m.inp.units| then [] else SearchResults(m.inp, r, sticky, s.(pos := Next(m.inp, s.pos)));
      SimLater(m, r, s, ys, base);
      OffersStep(m, Fail(base + [f]), ys, mt, [], base);
      OffersAppend(m, start, xs, ys, mt, [], base, [f]);
    }
  }

  lemma MatchAddressIs(m: Machine, r: Regex, sticky: bool)
    ensures MatchAddress(m, r, sticky) == End(m, if sticky then 0 else 11, Group(r), false, 0)
    ensures PatternStart(sticky) == if sticky then 0 else 11
  {
  }

  /** Skipping a character and starting again. */
  lemma {:induction false} SimLater(m: Machine, r: Regex, s: State, ys: seq<State>, base: seq<Frame>)
    requires Loaded(m, r, false) && Boundary(m.inp, s.pos) && s.pos <= |m.inp.units|
    requires ys == if s.pos == |m.inp.units| then [] else SearchResults(m.inp, r, false, s.(pos := Next(m.inp, s.pos)))
    ensures Offers(m, Run(5, s, [], base), ys, MatchAddress(m, r, false), [], base)
    decreases |m.inp.units| - s.pos, 0
  {
    hide *;
    var mt := MatchAddress(m, r, false);
    var f := PrefixSteps(m, r, s, base);
    if s.pos == |m.inp.units| {
      StepsToNone(m, Run(5, s, [], base), mt, [], base);
    } else {
      var s1 := s.(pos := Next(m.inp, s.pos));
      NextBoundary(m.inp, s.pos);
      SimSearch(m, r, false, s1, base);
      OffersStep(m, Run(6, s1, [], base), ys, mt, [], base);
      OffersStep(m, Run(5, s, [], base), ys, mt, [], base);
    }
  }

  // The answer of lre_exec.

  function StartConfig(inp: Input, cindex: nat): Config
    requires cindex <= |inp.units|
  {
    Run(0, State(StartPos(inp, cindex), map[]), [], [])
  }

  /** What a match means: the captures of the first result, or no match. */
  function Answer(inp: Input, r: Regex, sticky: bool, cindex: nat): Option<map<nat, nat>>
    requires cindex <= |inp.units|
  {
    var xs := SearchResults(inp, r, sticky, State(StartPos(inp, cindex), map[]));
    if xs == [] then None else Some(xs[0].caps)
  }

  /** Compiler correctness and termination: the run of the compiled program ends, never
      leaves a buffer, and its answer is the first result of the pattern. */
  lemma ExecCorrect(m: Machine, r: Regex, sticky: bool, cindex: nat)
    requires Loaded(m, r, sticky) && cindex <= |m.inp.units|
    ensures Reach(m, StartConfig(m.inp, cindex), Done(Answer(m.inp, r, sticky, cindex)))
  {
    var s := State(StartPos(m.inp, cindex), map[]);
    var a := StartConfig(m.inp, cindex);
    var xs := SearchResults(m.inp, r, sticky, s);
    var done := Done(Answer(m.inp, r, sticky, cindex));
    var mt := MatchAddress(m, r, sticky);
    ProgramShape(m, r, sticky);
    SimSearch(m, r, sticky, s, []);
    SearchBoundary(m.inp, r, sticky, s);
    hide Loaded, Offers, Reach, MatchAddress, SearchResults, StepInstr, Fits, At;
    var exit;
    if xs == [] {
      OffersEmpty(m, a, mt, [], []);
      exit := Fail([]);
    } else {
      MatchPops(m, a, xs, mt, [], []);
      exit := Succeed(xs[0].caps, []);
    }
    ReachStep(m, exit);
    ReachTrans(m, a, exit, done);
  }

  lemma {:induction false} SearchBoundary(inp: Input, r: Regex, sticky: bool, s: State)
    requires Boundary(inp, s.pos)
    ensures AllBoundary(inp, SearchResults(inp, r, sticky, s))
    decreases |inp.units| - s.pos
  {
    SearchUnfold(inp, r, sticky, s);
    ResultsBoundary(inp, Group(r), false, 0, s);
    if !sticky && s.pos < |inp.units| {
      NextBoundary(inp, s.pos);
      SearchBoundary(inp, r, sticky, s.(pos := Next(inp, s.pos)));
    }
    hide Results, SearchResults;
  }

  /** No configuration of the run is stuck: every fetch is in the program, every pop finds
      an element, every capture exists and every PREV_CHAR has a character to go back to. */
  lemma NeverStuck(m: Machine, r: Regex, sticky: bool, cindex: nat, n: nat)
    requires Loaded(m, r, sticky) && cindex <= |m.inp.units|
    ensures Steps(m, StartConfig(m.inp, cindex), n) != Stuck
  {
    ExecCorrect(m, r, sticky, cindex);
    var a := StartConfig(m.inp, cindex);
    var k: nat :| Steps(m, a, k) == Done(Answer(m.inp, r, sticky, cindex));
    if Steps(m, a, n) == Stuck {
      FinalStays(m, Stuck, k);
      FinalStays(m, Done(Answer(m.inp, r, sticky, cindex)), n);
      assert n + k == k + n;
      StepsAdd(m, a, n, k);
      StepsAdd(m, a, k, n);
    }
  }

  lemma {:induction false} FinalStays(m: Machine, a: Config, n: nat)
    requires a.Done? || a.Stuck?
    ensures Steps(m, a, n) == a
    decreases n
  {
    if n > 0 {
      FinalStays(m, a, n - 1);
    }
  }
}
