/** What the captures of a match say: where each group matched. */
module RegexpGroups {
  import opened Options
  import opened RegexpInput
  import opened RegexpSyntax
  import opened RegexpEcma
  import opened RegexpCaptures
  import opened RegexpRounds

  // A pattern leaves the captures of other groups alone.

  lemma {:induction false} ResultsAlone(inp: Input, r: Regex, back: bool, c: nat, s: State)
    requires s.pos <= |inp.units|
    ensures AllWithin(s, Results(inp, r, back, c, s), c, Groups(r))
    decreases r, 0, 1, 0, 0
  {
    hide *;
    match r
    case Empty => LeafAlone(inp, r, back, c, s);
    case Atom(_) => LeafAlone(inp, r, back, c, s);
    case Assert(_) => LeafAlone(inp, r, back, c, s);
    case BackRef(_, _) => LeafAlone(inp, r, back, c, s);
    case Group(r1) => GroupAlone(inp, r1, back, c, s);
    case Sequence(r1, r2) => SequenceAlone(inp, r1, r2, back, c, s);
    case Either(r1, r2) => EitherAlone(inp, r1, r2, back, c, s);
    case Quantified(r1, min, max, greedy) => QuantifiedAlone(inp, r1, min, max, greedy, back, c, s);
    case Look(r1, negative, behind) => LookAlone(inp, r1, negative, behind, back, c, s);
  }

  lemma LeafAlone(inp: Input, r: Regex, back: bool, c: nat, s: State)
    requires s.pos <= |inp.units| && (r.Empty? || r.Atom? || r.Assert? || r.BackRef?)
    ensures AllWithin(s, Results(inp, r, back, c, s), c, Groups(r))
  {
    hide RefEnd, Satisfied, Accepts, AllWithin;
    MovedWithin(s, Results(inp, r, back, c, s), c);
  }

  lemma {:induction false} GroupAlone(inp: Input, r1: Regex, back: bool, c: nat, s: State)
    requires s.pos <= |inp.units|
    ensures AllWithin(s, Results(inp, Group(r1), back, c, s), c, Groups(Group(r1)))
    decreases Group(r1), 0, 0, 0, 0
  {
    var u := SetCap(s, c, back);
    ResultsAlone(inp, r1, back, c + 1, u);
    CloseWithin(s, c, Groups(r1), back, Results(inp, r1, back, c + 1, u));
    hide AllWithin, CloseGroup;
  }

  lemma {:induction false} EitherAlone(inp: Input, r1: Regex, r2: Regex, back: bool, c: nat, s: State)
    requires s.pos <= |inp.units|
    ensures AllWithin(s, Results(inp, Either(r1, r2), back, c, s), c, Groups(Either(r1, r2)))
    decreases Either(r1, r2), 0, 0, 0, 0
  {
    hide *;
    GroupsAre(r1, r2);
    EitherAre(inp, r1, r2, back, c, s);
    var xs, ys, n := Results(inp, r1, back, c, s), Results(inp, r2, back, c + Groups(r1), s), Groups(Either(r1, r2));
    ResultsAlone(inp, r1, back, c, s);
    ResultsAlone(inp, r2, back, c + Groups(r1), s);
    WithinWide(s, xs, c, Groups(r1), c, n);
    WithinWide(s, ys, c + Groups(r1), Groups(r2), c, n);
    WithinBoth(s, xs, ys, c, n);
  }

  lemma {:induction false} LookAlone(inp: Input, r1: Regex, negative: bool, behind: bool, back: bool, c: nat,
      s: State)
    requires s.pos <= |inp.units|
    ensures AllWithin(s, Results(inp, Look(r1, negative, behind), back, c, s), c, Groups(Look(r1, negative, behind)))
    decreases Look(r1, negative, behind), 0, 0, 0, 0
  {
    hide AllWithin;
    ResultsAlone(inp, r1, behind, c, s);
    LookWithin(s, Results(inp, r1, behind, c, s), c, Groups(r1));
  }

  lemma {:induction false} SequenceAlone(inp: Input, r1: Regex, r2: Regex, back: bool, c: nat, s: State)
    requires s.pos <= |inp.units|
    ensures AllWithin(s, Results(inp, Sequence(r1, r2), back, c, s), c, Groups(Sequence(r1, r2)))
    decreases Sequence(r1, r2), 0, 0, 0, 0
  {
    hide *;
    SequenceAre(inp, r1, r2, back, c, s, s);
    GroupsAre(r1, r2);
    var n := Groups(Sequence(r1, r2));
    if back {
      var xs := Results(inp, r2, back, c + Groups(r1), s);
      ResultsAlone(inp, r2, back, c + Groups(r1), s);
      WithinWide(s, xs, c + Groups(r1), Groups(r2), c, n);
      ThenAlone(inp, r1, back, c, s, xs, c, n);
    } else {
      var xs := Results(inp, r1, back, c, s);
      ResultsAlone(inp, r1, back, c, s);
      WithinWide(s, xs, c, Groups(r1), c, n);
      ThenAlone(inp, r2, back, c + Groups(r1), s, xs, c, n);
    }
  }

  lemma {:induction false} QuantifiedAlone(inp: Input, r1: Regex, min: nat, max: nat, greedy: bool, back: bool,
      c: nat, s: State)
    requires s.pos <= |inp.units|
    ensures AllWithin(s, Results(inp, Quantified(r1, min, max, greedy), back, c, s), c,
      Groups(Quantified(r1, min, max, greedy)))
    decreases Quantified(r1, min, max, greedy), 0, 0, 0, 0
  {
    hide *;
    QuantifiedAre(inp, r1, min, max, greedy, back, c, s, s);
    var u := if min == 0 then ResetState(s, Groups(r1), c) else s;
    ResetThere(inp, s, c, Groups(r1));
    WithinSelf(s, c, Groups(r1));
    RepeatAlone(inp, r1, min, OptionalRounds(min, max), greedy, back, c, u);
    WithinThen(s, u, RepeatResults(inp, r1, min, OptionalRounds(min, max), greedy, back, c, u), c, Groups(r1));
  }

  lemma ResetThere(inp: Input, s: State, c: nat, n: nat)
    ensures ResetState(s, n, c).pos == s.pos && Within(s, ResetState(s, n, c), c, n)
    ensures Clear(ResetState(s, n, c), c, n)
  {
    ResetWithin(s, c, n);
  }

  lemma {:induction false} ThenAlone(inp: Input, r: Regex, back: bool, c: nat, s: State, xs: seq<State>, c2: nat,
      n2: nat)
    requires AllAhead(inp, back, s, xs) && AllWithin(s, xs, c2, n2) && c2 <= c && c + Groups(r) <= c2 + n2
    ensures AllWithin(s, ThenResults(inp, r, back, c, s, xs), c2, n2)
    decreases r, 1, 0, 0, |xs|
  {
    hide Results, Within, Groups;
    if xs != [] {
      ResultsAlone(inp, r, back, c, xs[0]);
      var ys := Results(inp, r, back, c, xs[0]);
      WithinWide(xs[0], ys, c, Groups(r), c2, n2);
      WithinThen(s, xs[0], ys, c2, n2);
      ThenAlone(inp, r, back, c, s, xs[1..], c2, n2);
    }
  }

  lemma {:induction false} RepeatAlone(inp: Input, r: Regex, n: nat, more: Option<nat>, greedy: bool, back: bool,
      c: nat, s: State)
    requires s.pos <= |inp.units|
    ensures AllWithin(s, RepeatResults(inp, r, n, more, greedy, back, c, s), c, Groups(r))
    decreases r, 3, n, 0, 0
  {
    hide Results, Within, Groups, LoopResults;
    if n == 0 {
      LoopAlone(inp, r, more, greedy, back, c, s);
    } else {
      ResultsAlone(inp, r, back, c, s);
      ThenRepeatAlone(inp, r, n - 1, more, greedy, back, c, s, Results(inp, r, back, c, s));
    }
  }

  lemma {:induction false} ThenRepeatAlone(inp: Input, r: Regex, n: nat, more: Option<nat>, greedy: bool, back: bool,
      c: nat, s: State, xs: seq<State>)
    requires AllAhead(inp, back, s, xs) && AllWithin(s, xs, c, Groups(r))
    ensures AllWithin(s, ThenRepeat(inp, r, n, more, greedy, back, c, s, xs), c, Groups(r))
    decreases r, 3, n, 1, |xs|
  {
    hide Results, Within, Groups, RepeatResults;
    if xs != [] {
      RepeatAlone(inp, r, n, more, greedy, back, c, xs[0]);
      WithinThen(s, xs[0], RepeatResults(inp, r, n, more, greedy, back, c, xs[0]), c, Groups(r));
      ThenRepeatAlone(inp, r, n, more, greedy, back, c, s, xs[1..]);
    }
  }

  lemma {:induction false} LoopAlone(inp: Input, r: Regex, more: Option<nat>, greedy: bool, back: bool, c: nat,
      s: State)
    requires s.pos <= |inp.units|
    ensures AllWithin(s, LoopResults(inp, r, more, greedy, back, c, s), c, Groups(r))
    decreases r, 2, Room(inp, back, s), 1, 0
  {
    hide Results, Within, Groups, ThenLoop, Moved;
    WithinSelf(s, c, Groups(r));
    if more != Some(0) {
      ResultsAlone(inp, r, back, c, s);
      ThenLoopAlone(inp, r, OneLess(more), greedy, back, c, s, Moved(s, Results(inp, r, back, c, s)));
    }
  }

  lemma {:induction false} ThenLoopAlone(inp: Input, r: Regex, more: Option<nat>, greedy: bool, back: bool, c: nat,
      s: State, xs: seq<State>)
    requires s.pos <= |inp.units| && AllWithin(s, xs, c, Groups(r))
    requires AllAhead(inp, back, s, xs) && forall k :: 0 <= k < |xs| ==> xs[k].pos != s.pos
    ensures AllWithin(s, ThenLoop(inp, r, more, greedy, back, c, s, xs), c, Groups(r))
    decreases r, 2, Room(inp, back, s), 0, |xs|
  {
    hide Results, Within, Groups, LoopResults;
    if xs != [] {
      LoopAlone(inp, r, more, greedy, back, c, xs[0]);
      WithinThen(s, xs[0], LoopResults(inp, r, more, greedy, back, c, xs[0]), c, Groups(r));
      ThenLoopAlone(inp, r, more, greedy, back, c, s, xs[1..]);
    }
  }

  // What the captures are.

  /** The captures of a group are the ends of the stretch it matched, the smaller first, in either direction;
      those of groups outside it stay. */
  lemma GroupCaptures(inp: Input, r1: Regex, back: bool, c: nat, s: State, x: State)
    requires s.pos <= |inp.units| && x in Results(inp, Group(r1), back, c, s)
    ensures 2 * c in x.caps && x.caps[2 * c] == if back then x.pos else s.pos
    ensures 2 * c + 1 in x.caps && x.caps[2 * c + 1] == if back then s.pos else x.pos
    ensures x.caps[2 * c] <= x.caps[2 * c + 1] <= |inp.units|
    ensures forall k: nat :: k / 2 < c || k / 2 > c + Groups(r1) ==>
      (k in x.caps <==> k in s.caps) && (k in s.caps ==> x.caps[k] == s.caps[k])
  {
    hide *;
    GroupResults(inp, r1, back, c, s);
    var u := SetCap(s, c, back);
    var xs := Results(inp, r1, back, c + 1, u);
    ResultsAlone(inp, r1, back, c + 1, u);
    var y := Closed(c, back, xs, x);
    EndsSet(inp, back, c, Groups(r1), s, xs, y, x);
  }

  lemma Closed(c: nat, back: bool, xs: seq<State>, x: State) returns (y: State)
    requires x in CloseGroup(c, back, xs)
    ensures y in xs && x == SetCap(y, c, !back)
  {
    var k :| 0 <= k < |xs| && x == SetCap(xs[k], c, !back);
    y := xs[k];
  }

  lemma EndsSet(inp: Input, back: bool, c: nat, n: nat, s: State, xs: seq<State>, y: State, x: State)
    requires s.pos <= |inp.units| && AllWithin(SetCap(s, c, back), xs, c + 1, n)
    requires AllAhead(inp, back, SetCap(s, c, back), xs) && y in xs && x == SetCap(y, c, !back)
    ensures 2 * c in x.caps && x.caps[2 * c] == if back then x.pos else s.pos
    ensures 2 * c + 1 in x.caps && x.caps[2 * c + 1] == if back then s.pos else x.pos
    ensures x.caps[2 * c] <= x.caps[2 * c + 1] <= |inp.units|
    ensures forall k: nat :: k / 2 < c || k / 2 > c + n ==>
      (k in x.caps <==> k in s.caps) && (k in s.caps ==> x.caps[k] == s.caps[k])
  {
    assert Ahead(inp, back, SetCap(s, c, back), y);
    assert Within(SetCap(s, c, back), y, c + 1, n);
  }

  /** A quantifier that takes no round leaves the groups in it unset. */
  lemma SkippedUnset(inp: Input, r1: Regex, max: nat, greedy: bool, back: bool, c: nat, s: State)
    requires s.pos <= |inp.units|
    ensures exists x ::
      && x in Results(inp, Quantified(r1, 0, max, greedy), back, c, s)
      && x.pos == s.pos && Clear(x, c, Groups(r1)) && Within(s, x, c, Groups(r1))
  {
    hide *;
    QuantifiedAre(inp, r1, 0, max, greedy, back, c, s, s);
    var x := ResetState(s, Groups(r1), c);
    ResetThere(inp, s, c, Groups(r1));
    StaysThere(inp, r1, OptionalRounds(0, max), greedy, back, c, x);
  }

  lemma StaysThere(inp: Input, r: Regex, more: Option<nat>, greedy: bool, back: bool, c: nat, s: State)
    requires s.pos <= |inp.units|
    ensures s in RepeatResults(inp, r, 0, more, greedy, back, c, s)
  {
    hide Results, ThenLoop;
  }
}
