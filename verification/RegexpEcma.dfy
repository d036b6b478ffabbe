/** How far the meaning of patterns in the program agrees with section 22.2.2.3.1 of ECMA-262, where
    every round of a quantifier starts by clearing the captures of its body. */
module RegexpEcma {
  import opened Options
  import opened RegexpInput
  import opened RegexpSyntax

  /** The results of a pattern when RepeatMatcher clears the captures in every round. */
  function EcmaResults(inp: Input, r: Regex, back: bool, c: nat, s: State): (xs: seq<State>)
    requires s.pos <= |inp.units|
    ensures AllAhead(inp, back, s, xs)
    decreases r, 0, 0, 0, 0
  {
    match r
    case Empty => [s]
    case Atom(t) => AtomResults(inp, t, back, s)
    case Assert(a) => if Satisfied(inp, a, s.pos) then [s] else []
    case BackRef(i, icase) =>
      var e := RefEnd(inp, i, icase, back, s);
      if e.Some? then [s.(pos := e.value)] else []
    case Group(r1) => CloseGroup(c, back, EcmaResults(inp, r1, back, c + 1, SetCap(s, c, back)))
    case Sequence(r1, r2) =>
      if back then EcmaThen(inp, r1, back, c, s, EcmaResults(inp, r2, back, c + Groups(r1), s))
      else EcmaThen(inp, r2, back, c + Groups(r1), s, EcmaResults(inp, r1, back, c, s))
    case Either(r1, r2) => EcmaResults(inp, r1, back, c, s) + EcmaResults(inp, r2, back, c + Groups(r1), s)
    case Quantified(r1, min, max, greedy) => EcmaRepeat(inp, r1, min, OptionalRounds(min, max), greedy, back, c, s)
    case Look(r1, negative, behind) =>
      var xs := EcmaResults(inp, r1, behind, c, s);
      if negative then (if xs == [] then [s] else [])
      else if xs == [] then [] else [State(s.pos, xs[0].caps)]
  }

  function EcmaThen(inp: Input, r: Regex, back: bool, c: nat, s0: State, xs: seq<State>): (ys: seq<State>)
    requires AllAhead(inp, back, s0, xs)
    ensures AllAhead(inp, back, s0, ys)
    decreases r, 1, 0, 0, |xs|
  {
    if xs == [] then [] else EcmaResults(inp, r, back, c, xs[0]) + EcmaThen(inp, r, back, c, s0, xs[1..])
  }

  function EcmaRepeat(inp: Input, r: Regex, n: nat, more: Option<nat>, greedy: bool, back: bool, c: nat, s: State)
    : (xs: seq<State>)
    requires s.pos <= |inp.units|
    ensures AllAhead(inp, back, s, xs)
    decreases r, 3, n, 0, 0
  {
    if n == 0 then EcmaLoop(inp, r, more, greedy, back, c, s)
    else EcmaThenRepeat(inp, r, n - 1, more, greedy, back, c, s,
      EcmaResults(inp, r, back, c, ResetState(s, Groups(r), c)))
  }

  function EcmaThenRepeat(inp: Input, r: Regex, n: nat, more: Option<nat>, greedy: bool, back: bool, c: nat,
      s0: State, xs: seq<State>)
    : (ys: seq<State>)
    requires AllAhead(inp, back, s0, xs)
    ensures AllAhead(inp, back, s0, ys)
    decreases r, 3, n, 1, |xs|
  {
    if xs == [] then [] else
      EcmaRepeat(inp, r, n, more, greedy, back, c, xs[0]) + EcmaThenRepeat(inp, r, n, more, greedy, back, c, s0,
        xs[1..])
  }

  function EcmaLoop(inp: Input, r: Regex, more: Option<nat>, greedy: bool, back: bool, c: nat, s: State)
    : (xs: seq<State>)
    requires s.pos <= |inp.units|
    ensures AllAhead(inp, back, s, xs)
    decreases r, 2, Room(inp, back, s), 1, 0
  {
    if more == Some(0) then [s]
    else
      var round := EcmaResults(inp, r, back, c, ResetState(s, Groups(r), c));
      var again := EcmaThenLoop(inp, r, OneLess(more), greedy, back, c, s, Moved(s, round));
      if greedy then again + [s] else [s] + again
  }

  function EcmaThenLoop(inp: Input, r: Regex, more: Option<nat>, greedy: bool, back: bool, c: nat, s0: State,
      xs: seq<State>)
    : (ys: seq<State>)
    requires s0.pos <= |inp.units|
    requires AllAhead(inp, back, s0, xs) && forall k :: 0 <= k < |xs| ==> xs[k].pos != s0.pos
    ensures AllAhead(inp, back, s0, ys)
    decreases r, 2, Room(inp, back, s0), 0, |xs|
  {
    if xs == [] then [] else
      EcmaLoop(inp, r, more, greedy, back, c, xs[0]) + EcmaThenLoop(inp, r, more, greedy, back, c, s0, xs[1..])
  }

  // The cases of the two meanings.

  lemma GroupsAre(r1: Regex, r2: Regex)
    ensures Groups(Either(r1, r2)) == Groups(r1) + Groups(r2) == Groups(Sequence(r1, r2))
  {
  }

  lemma EitherAre(inp: Input, r1: Regex, r2: Regex, back: bool, c: nat, s: State)
    requires s.pos <= |inp.units|
    ensures Results(inp, Either(r1, r2), back, c, s) == Results(inp, r1, back, c, s) + Results(inp, r2, back,
      c + Groups(r1), s)
  {
    hide Groups, AllAhead, ThenResults, RepeatResults, AtomResults, RefEnd, Satisfied, CloseGroup, ResetState;
  }

  lemma EcmaEitherAre(inp: Input, r1: Regex, r2: Regex, back: bool, c: nat, t: State)
    requires t.pos <= |inp.units|
    ensures EcmaResults(inp, Either(r1, r2), back, c, t)
      == EcmaResults(inp, r1, back, c, t) + EcmaResults(inp, r2, back, c + Groups(r1), t)
  {
    hide Groups, AllAhead, EcmaThen, EcmaRepeat, AtomResults, RefEnd, Satisfied, CloseGroup, ResetState, Results;
  }

  lemma SequenceAre(inp: Input, r1: Regex, r2: Regex, back: bool, c: nat, s: State, t: State)
    requires s.pos <= |inp.units| && t.pos <= |inp.units|
    ensures Results(inp, Sequence(r1, r2), back, c, s) ==
      if back then ThenResults(inp, r1, back, c, s, Results(inp, r2, back, c + Groups(r1), s))
      else ThenResults(inp, r2, back, c + Groups(r1), s, Results(inp, r1, back, c, s))
    ensures EcmaResults(inp, Sequence(r1, r2), back, c, t) ==
      if back then EcmaThen(inp, r1, back, c, t, EcmaResults(inp, r2, back, c + Groups(r1), t))
      else EcmaThen(inp, r2, back, c + Groups(r1), t, EcmaResults(inp, r1, back, c, t))
  {
    hide Groups, AllAhead, ThenResults, EcmaThen, RepeatResults, EcmaRepeat, AtomResults, RefEnd, Satisfied,
      CloseGroup, ResetState;
  }

  lemma QuantifiedAre(inp: Input, r1: Regex, min: nat, max: nat, greedy: bool, back: bool, c: nat, s: State, t: State)
    requires s.pos <= |inp.units| && t.pos <= |inp.units|
    ensures Results(inp, Quantified(r1, min, max, greedy), back, c, s)
      == RepeatResults(inp, r1, min, OptionalRounds(min, max), greedy, back, c,
        if min == 0 then ResetState(s, Groups(r1), c) else s)
    ensures EcmaResults(inp, Quantified(r1, min, max, greedy), back, c, t)
      == EcmaRepeat(inp, r1, min, OptionalRounds(min, max), greedy, back, c, t)
    ensures Groups(Quantified(r1, min, max, greedy)) == Groups(r1)
  {
    hide RepeatResults, EcmaRepeat;
  }

  // Agreement.

  /** States at the same position. */
  predicate Same(x: State, y: State) { x.pos == y.pos }

  predicate Alike(xs: seq<State>, ys: seq<State>) {
    |xs| == |ys| && forall k :: 0 <= k < |xs| ==> Same(xs[k], ys[k])
  }

  predicate NoBackRefs(r: Regex) {
    match r
    case Empty | Atom(_) | Assert(_) => true
    case BackRef(_, _) => false
    case Group(r1) => NoBackRefs(r1)
    case Sequence(r1, r2) => NoBackRefs(r1) && NoBackRefs(r2)
    case Either(r1, r2) => NoBackRefs(r1) && NoBackRefs(r2)
    case Quantified(r1, _, _, _) => NoBackRefs(r1)
    case Look(r1, _, _) => NoBackRefs(r1)
  }

  lemma AlikeAppend(a: seq<State>, b: seq<State>, c: seq<State>, d: seq<State>)
    requires Alike(a, b) && Alike(c, d)
    ensures Alike(a + c, b + d)
  {
  }

  lemma {:induction false} MovedAlike(s: State, t: State, xs: seq<State>, ys: seq<State>)
    requires s.pos == t.pos && Alike(xs, ys)
    ensures Alike(Moved(s, xs), Moved(t, ys))
    decreases |xs|
  {
    if xs != [] {
      MovedAlike(s, t, xs[1..], ys[1..]);
      assert Same(xs[0], ys[0]);
    }
  }

  lemma ResetSame(s: State, t: State, groups: nat, c: nat)
    requires Same(s, t)
    ensures Same(s, ResetState(t, groups, c)) && Same(ResetState(s, groups, c), t)
  {
  }

  lemma {:induction false} ResultsAlike(inp: Input, r: Regex, back: bool, c: nat, s: State, t: State)
    requires s.pos <= |inp.units| && Same(s, t) && NoBackRefs(r)
    ensures Alike(Results(inp, r, back, c, s), EcmaResults(inp, r, back, c, t))
    decreases r, 0, 0, 0, 0
  {
    hide Results, EcmaResults, RepeatResults, EcmaRepeat, ThenResults, EcmaThen, ResetState, Groups;
    match r
    case Group(r1) =>
      ResultsAlike(inp, r1, back, c + 1, SetCap(s, c, back), SetCap(t, c, back));
      GroupAlike(inp, r1, back, c, s, t);
    case Sequence(r1, r2) =>
      SequenceAre(inp, r1, r2, back, c, s, t);
      if back {
        ResultsAlike(inp, r2, back, c + Groups(r1), s, t);
        ThenAlike(inp, r1, back, c, s, t, Results(inp, r2, back, c + Groups(r1), s),
          EcmaResults(inp, r2, back, c + Groups(r1), t));
      } else {
        ResultsAlike(inp, r1, back, c, s, t);
        ThenAlike(inp, r2, back, c + Groups(r1), s, t, Results(inp, r1, back, c, s), EcmaResults(inp, r1, back, c, t));
      }
    case Either(r1, r2) =>
      EitherAre(inp, r1, r2, back, c, s);
      EcmaEitherAre(inp, r1, r2, back, c, t);
      ResultsAlike(inp, r1, back, c, s, t);
      ResultsAlike(inp, r2, back, c + Groups(r1), s, t);
    case Quantified(r1, min, max, greedy) =>
      ResetSame(s, t, Groups(r1), c);
      QuantifiedAre(inp, r1, min, max, greedy, back, c, s, t);
      RepeatAlike(inp, r1, min, OptionalRounds(min, max), greedy, back, c,
        if min == 0 then ResetState(s, Groups(r1), c) else s, t);
    case Look(r1, negative, behind) =>
      ResultsAlike(inp, r1, behind, c, s, t);
      LookAlike(inp, r1, negative, behind, back, c, s, t);
    case _ =>
      LeafAlike(inp, r, back, c, s, t);
  }

  lemma LeafAlike(inp: Input, r: Regex, back: bool, c: nat, s: State, t: State)
    requires s.pos <= |inp.units| && Same(s, t) && (r.Empty? || r.Atom? || r.Assert?)
    ensures Alike(Results(inp, r, back, c, s), EcmaResults(inp, r, back, c, t))
  {
    hide Accepts, Satisfied;
  }

  lemma GroupAlike(inp: Input, r1: Regex, back: bool, c: nat, s: State, t: State)
    requires s.pos <= |inp.units| && Same(s, t)
    requires Alike(Results(inp, r1, back, c + 1, SetCap(s, c, back)),
      EcmaResults(inp, r1, back, c + 1, SetCap(t, c, back)))
    ensures Alike(Results(inp, Group(r1), back, c, s), EcmaResults(inp, Group(r1), back, c, t))
  {
    var xs, ys := Results(inp, r1, back, c + 1, SetCap(s, c, back)),
      EcmaResults(inp, r1, back, c + 1, SetCap(t, c, back));
    assert Results(inp, Group(r1), back, c, s) == CloseGroup(c, back, xs);
    assert EcmaResults(inp, Group(r1), back, c, t) == CloseGroup(c, back, ys);
    hide Results, EcmaResults;
  }

  lemma LookAlike(inp: Input, r1: Regex, negative: bool, behind: bool, back: bool, c: nat, s: State, t: State)
    requires s.pos <= |inp.units| && Same(s, t) && Alike(Results(inp, r1, behind, c, s),
      EcmaResults(inp, r1, behind, c, t))
    ensures Alike(Results(inp, Look(r1, negative, behind), back, c, s),
      EcmaResults(inp, Look(r1, negative, behind), back, c, t))
  {
  }

  lemma {:induction false} ThenAlike(inp: Input, r: Regex, back: bool, c: nat, s: State, t: State, xs: seq<State>,
      ys: seq<State>)
    requires AllAhead(inp, back, s, xs) && AllAhead(inp, back, t, ys) && Alike(xs, ys) && NoBackRefs(r)
    ensures Alike(ThenResults(inp, r, back, c, s, xs), EcmaThen(inp, r, back, c, t, ys))
    decreases r, 1, 0, 0, |xs|
  {
    hide Results, EcmaResults, NoBackRefs;
    if xs != [] {
      assert Same(xs[0], ys[0]);
      ResultsAlike(inp, r, back, c, xs[0], ys[0]);
      ThenAlike(inp, r, back, c, s, t, xs[1..], ys[1..]);
      AlikeAppend(Results(inp, r, back, c, xs[0]), EcmaResults(inp, r, back, c, ys[0]),
        ThenResults(inp, r, back, c, s, xs[1..]), EcmaThen(inp, r, back, c, t, ys[1..]));
    }
  }

  lemma {:induction false} RepeatAlike(inp: Input, r: Regex, n: nat, more: Option<nat>, greedy: bool, back: bool,
      c: nat, s: State, t: State)
    requires s.pos <= |inp.units| && Same(s, t) && NoBackRefs(r)
    ensures Alike(RepeatResults(inp, r, n, more, greedy, back, c, s), EcmaRepeat(inp, r, n, more, greedy, back, c, t))
    decreases r, 3, n, 0, 0
  {
    hide Results, EcmaResults, NoBackRefs, LoopResults, EcmaLoop;
    if n == 0 {
      LoopAlike(inp, r, more, greedy, back, c, s, t);
    } else {
      var u := ResetState(t, Groups(r), c);
      ResetSame(s, t, Groups(r), c);
      ResultsAlike(inp, r, back, c, s, u);
      ThenRepeatAlike(inp, r, n - 1, more, greedy, back, c, s, t, Results(inp, r, back, c, s),
        EcmaResults(inp, r, back, c, u));
    }
  }

  lemma {:induction false} ThenRepeatAlike(inp: Input, r: Regex, n: nat, more: Option<nat>, greedy: bool, back: bool,
      c: nat,
      s: State, t: State, xs: seq<State>, ys: seq<State>)
    requires AllAhead(inp, back, s, xs) && AllAhead(inp, back, t, ys) && Alike(xs, ys)
    requires NoBackRefs(r)
    ensures Alike(ThenRepeat(inp, r, n, more, greedy, back, c, s, xs),
      EcmaThenRepeat(inp, r, n, more, greedy, back, c, t, ys))
    decreases r, 3, n, 1, |xs|
  {
    hide Results, EcmaResults, NoBackRefs, RepeatResults, EcmaRepeat;
    if xs != [] {
      assert Same(xs[0], ys[0]);
      RepeatAlike(inp, r, n, more, greedy, back, c, xs[0], ys[0]);
      ThenRepeatAlike(inp, r, n, more, greedy, back, c, s, t, xs[1..], ys[1..]);
      AlikeAppend(RepeatResults(inp, r, n, more, greedy, back, c, xs[0]),
        EcmaRepeat(inp, r, n, more, greedy, back, c, ys[0]),
        ThenRepeat(inp, r, n, more, greedy, back, c, s, xs[1..]),
          EcmaThenRepeat(inp, r, n, more, greedy, back, c, t, ys[1..]));
    }
  }

  lemma {:induction false} LoopAlike(inp: Input, r: Regex, more: Option<nat>, greedy: bool, back: bool, c: nat,
      s: State, t: State)
    requires s.pos <= |inp.units| && Same(s, t) && NoBackRefs(r)
    ensures Alike(LoopResults(inp, r, more, greedy, back, c, s), EcmaLoop(inp, r, more, greedy, back, c, t))
    decreases r, 2, Room(inp, back, s), 1, 0
  {
    hide Results, EcmaResults, NoBackRefs, ThenLoop, EcmaThenLoop, Moved;
    if more != Some(0) {
      var u := ResetState(t, Groups(r), c);
      ResetSame(s, t, Groups(r), c);
      ResultsAlike(inp, r, back, c, s, u);
      var xs, ys := Moved(s, Results(inp, r, back, c, s)), Moved(t, EcmaResults(inp, r, back, c, u));
      MovedAlike(s, t, Results(inp, r, back, c, s), EcmaResults(inp, r, back, c, u));
      ThenLoopAlike(inp, r, OneLess(more), greedy, back, c, s, t, xs, ys);
      var a, b := ThenLoop(inp, r, OneLess(more), greedy, back, c, s, xs),
        EcmaThenLoop(inp, r, OneLess(more), greedy, back, c, t, ys);
      AlikeAppend(a, b, [s], [t]);
      AlikeAppend([s], [t], a, b);
    }
  }

  lemma {:induction false} ThenLoopAlike(inp: Input, r: Regex, more: Option<nat>, greedy: bool, back: bool, c: nat,
      s: State, t: State, xs: seq<State>, ys: seq<State>)
    requires s.pos <= |inp.units| && Same(s, t) && Alike(xs, ys)
    requires AllAhead(inp, back, s, xs) && forall k :: 0 <= k < |xs| ==> xs[k].pos != s.pos
    requires AllAhead(inp, back, t, ys) && forall k :: 0 <= k < |ys| ==> ys[k].pos != t.pos
    requires NoBackRefs(r)
    ensures Alike(ThenLoop(inp, r, more, greedy, back, c, s, xs), EcmaThenLoop(inp, r, more, greedy, back, c, t, ys))
    decreases r, 2, Room(inp, back, s), 0, |xs|
  {
    hide Results, EcmaResults, NoBackRefs, LoopResults, EcmaLoop;
    if xs != [] {
      assert Same(xs[0], ys[0]);
      LoopAlike(inp, r, more, greedy, back, c, xs[0], ys[0]);
      ThenLoopAlike(inp, r, more, greedy, back, c, s, t, xs[1..], ys[1..]);
      AlikeAppend(LoopResults(inp, r, more, greedy, back, c, xs[0]), EcmaLoop(inp, r, more, greedy, back, c, ys[0]),
        ThenLoop(inp, r, more, greedy, back, c, s, xs[1..]), EcmaThenLoop(inp, r, more, greedy, back, c, t, ys[1..]));
    }
  }

  // What follows.

  /** Without back references the program finds the same matches as the standard, in the same order. */
  lemma SameExtents(inp: Input, r: Regex, back: bool, c: nat, s: State, k: nat)
    requires s.pos <= |inp.units| && NoBackRefs(r)
    ensures |Results(inp, r, back, c, s)| == |EcmaResults(inp, r, back, c, s)|
    ensures k < |Results(inp, r, back, c, s)| ==>
      Results(inp, r, back, c, s)[k].pos == EcmaResults(inp, r, back, c, s)[k].pos
  {
    ResultsAlike(inp, r, back, c, s, s);
  }

  // Where they differ.

  function TwoLetters(canon: nat -> nat): Input { Input([0x61, 0x62], false, canon) }

  /** (a)|b */
  function Letter(): Regex { Either(Group(Atom(Literal(0x61, false))), Atom(Literal(0x62, false))) }

  lemma LetterResults(inp: Input, s: State)
    requires inp == TwoLetters(inp.canon) && s.pos < 2
    ensures Results(inp, Letter(), false, 1, s) == EcmaResults(inp, Letter(), false, 1, s)
    ensures Results(inp, Letter(), false, 1, s) ==
      if s.pos == 0 then [State(1, s.caps[2 := 0][3 := 1])] else [State(2, s.caps)]
  {
    var a, b := Atom(Literal(0x61, false)), Atom(Literal(0x62, false));
    var u := SetCap(s, 1, false);
    assert Results(inp, a, false, 2, u) == AtomResults(inp, a.test, false, u);
    assert Results(inp, b, false, 2, s) == AtomResults(inp, b.test, false, s);
    assert Groups(Group(a)) == 1;
  }

  lemma OneRepeat(inp: Input, r: Regex, s: State, x: State)
    requires s.pos <= |inp.units| && Ahead(inp, false, s, x) && Results(inp, r, false, 1, s) == [x]
    ensures RepeatResults(inp, r, 1, Some(0), true, false, 1, s) == [x]
  {
    hide Results;
    Rest(inp, r, 0, s, x);
    assert LoopResults(inp, r, Some(0), true, false, 1, x) == [x];
  }

  lemma Rest(inp: Input, r: Regex, n: nat, s: State, x: State)
    requires s.pos <= |inp.units| && Ahead(inp, false, s, x)
    ensures ThenRepeat(inp, r, n, Some(0), true, false, 1, s, [x])
      == RepeatResults(inp, r, n, Some(0), true, false, 1, x)
    ensures EcmaThenRepeat(inp, r, n, Some(0), true, false, 1, s, [x])
      == EcmaRepeat(inp, r, n, Some(0), true, false, 1, x)
  {
    hide RepeatResults, EcmaRepeat;
    var none: seq<State> := [x][1..];
    assert none == [];
    assert ThenRepeat(inp, r, n, Some(0), true, false, 1, s, none) == [];
    assert EcmaThenRepeat(inp, r, n, Some(0), true, false, 1, s, none) == [];
  }

  lemma OneEcmaRepeat(inp: Input, r: Regex, s: State, u: State, x: State)
    requires s.pos <= |inp.units| && Ahead(inp, false, s, x) && u == ResetState(s, Groups(r), 1)
      && EcmaResults(inp, r, false, 1, u) == [x]
    ensures EcmaRepeat(inp, r, 1, Some(0), true, false, 1, s) == [x]
  {
    hide EcmaResults, Groups;
    Rest(inp, r, 0, s, x);
    assert EcmaLoop(inp, r, Some(0), true, false, 1, x) == [x];
  }

  /** On "ab" the pattern ((a)|b){2} keeps in the program the capture that its first round made; the
      standard clears it before the second round. */
  lemma CaptureKept(canon: nat -> nat)
    ensures var r, s := Quantified(Letter(), 2, 2, true), State(0, map[]);
      && Results(TwoLetters(canon), r, false, 1, s) == [State(2, map[2 := 0, 3 := 1])]
      && EcmaResults(TwoLetters(canon), r, false, 1, s) == [State(2, map[])]
  {
    var inp, r, s, t := TwoLetters(canon), Letter(), State(0, map[]), State(1, map[2 := 0, 3 := 1]);
    var u := ResetState(t, Groups(r), 1);
    assert Groups(r) == 1 && u == State(1, map[]);
    LetterResults(inp, s);
    LetterResults(inp, t);
    LetterResults(inp, u);
    assert ResetState(s, Groups(r), 1) == s;
    assert s.caps[2 := 0][3 := 1] == t.caps;
    OneRepeat(inp, r, t, State(2, t.caps));
    OneEcmaRepeat(inp, r, t, u, State(2, u.caps));
    hide Results, EcmaResults;
    TwoRounds(inp, r, s, t);
  }

  lemma TwoOnly(inp: Input, r: Regex, s: State)
    requires s.pos <= |inp.units|
    ensures Results(inp, Quantified(r, 2, 2, true), false, 1, s) == RepeatResults(inp, r, 2, Some(0), true, false, 1, s)
    ensures EcmaResults(inp, Quantified(r, 2, 2, true), false, 1, s)
      == EcmaRepeat(inp, r, 2, Some(0), true, false, 1, s)
  {
    hide RepeatResults, EcmaRepeat;
  }

  lemma TwoRounds(inp: Input, r: Regex, s: State, t: State)
    requires s.pos <= |inp.units| && Ahead(inp, false, s, t) && Results(inp, r, false, 1, s) == [t]
    requires ResetState(s, Groups(r), 1) == s && EcmaResults(inp, r, false, 1, s) == [t]
    ensures Results(inp, Quantified(r, 2, 2, true), false, 1, s) == RepeatResults(inp, r, 1, Some(0), true, false, 1, t)
    ensures EcmaResults(inp, Quantified(r, 2, 2, true), false, 1, s)
      == EcmaRepeat(inp, r, 1, Some(0), true, false, 1, t)
  {
    Rest(inp, r, 1, s, t);
    TwoOnly(inp, r, s);
    hide Results, EcmaResults, ThenRepeat, EcmaThenRepeat, LoopResults, EcmaLoop;
    assert RepeatResults(inp, r, 2, Some(0), true, false, 1, s)
      == ThenRepeat(inp, r, 1, Some(0), true, false, 1, s, [t]);
    assert EcmaRepeat(inp, r, 2, Some(0), true, false, 1, s)
      == EcmaThenRepeat(inp, r, 1, Some(0), true, false, 1, s, [t]);
  }
}
