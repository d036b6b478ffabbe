/** The captures of several mandatory rounds: the program lays those of each round over the others. */
module RegexpRounds {
  import opened Options
  import opened RegexpInput
  import opened RegexpBytecode
  import opened RegexpSyntax
  import opened RegexpEcma
  import opened RegexpCaptures

  /** No inner quantifier clears captures. */
  predicate NeverClears(r: Regex) {
    match r
    case Empty | Atom(_) | Assert(_) | BackRef(_, _) => true
    case Group(r1) => NeverClears(r1)
    case Sequence(r1, r2) => NeverClears(r1) && NeverClears(r2)
    case Either(r1, r2) => NeverClears(r1) && NeverClears(r2)
    case Quantified(r1, min, _, _) => NeverClears(r1) && (min > 0 || Groups(r1) == 0)
    case Look(r1, _, _) => NeverClears(r1)
  }

  /** The state with the captures m below its own. */
  function Over(m: map<nat, nat>, t: State): State { State(t.pos, m + t.caps) }

  ghost predicate AllOver(m: map<nat, nat>, xs: seq<State>, ys: seq<State>) {
    |xs| == |ys| && forall k :: 0 <= k < |xs| ==> xs[k] == Over(m, ys[k])
  }

  lemma AppendOver(m: map<nat, nat>, a: seq<State>, b: seq<State>, x: seq<State>, y: seq<State>)
    requires AllOver(m, a, b) && AllOver(m, x, y)
    ensures AllOver(m, a + x, b + y)
  {
    hide Over;
  }

  lemma SetOver(m: map<nat, nat>, t: State, c: nat, isEnd: bool)
    ensures SetCap(Over(m, t), c, isEnd) == Over(m, SetCap(t, c, isEnd))
  {
  }

  lemma CloseOver(m: map<nat, nat>, c: nat, back: bool, xs: seq<State>, ys: seq<State>)
    requires AllOver(m, xs, ys)
    ensures AllOver(m, CloseGroup(c, back, xs), CloseGroup(c, back, ys))
  {
    hide Over, SetCap;
    forall k | 0 <= k < |xs| ensures SetCap(xs[k], c, !back)
      == Over(m, SetCap(ys[k], c, !back)) { SetOver(m, ys[k], c, !back); }
  }

  lemma {:induction false} MovedOver(m: map<nat, nat>, s: State, t: State, xs: seq<State>, ys: seq<State>)
    requires AllOver(m, xs, ys) && s.pos == t.pos
    ensures AllOver(m, Moved(s, xs), Moved(t, ys))
    decreases |xs|
  {
    hide Over;
    if xs != [] {
      OverPos(m, ys[0]);
      MovedOver(m, s, t, xs[1..], ys[1..]);
      if xs[0].pos != s.pos { AppendOver(m, [xs[0]], [ys[0]], Moved(s, xs[1..]), Moved(t, ys[1..])); }
    }
  }

  /** Without back references what a pattern does does not depend on the captures it starts with, and
      without clearing it keeps them below its own. */
  lemma {:induction false} ResultsOver(inp: Input, r: Regex, back: bool, c: nat, m: map<nat, nat>, s: State, t: State)
    requires t.pos <= |inp.units| && s == Over(m, t) && NoBackRefs(r) && NeverClears(r)
    ensures AllOver(m, Results(inp, r, back, c, s), Results(inp, r, back, c, t))
    decreases r, 0, 1, 0, 0
  {
    hide *;
    OverPos(m, t);
    match r
    case Empty => LeafOver(inp, r, back, c, m, s, t);
    case Atom(_) => LeafOver(inp, r, back, c, m, s, t);
    case Assert(_) => LeafOver(inp, r, back, c, m, s, t);
    case BackRef(_, _) => LeafOver(inp, r, back, c, m, s, t);
    case Group(r1) =>
      PartsPlain(r, r1, r1);
      GroupResults(inp, r1, back, c, s);
      GroupResults(inp, r1, back, c, t);
      SetOver(m, t, c, back);
      ResultsOver(inp, r1, back, c + 1, m, SetCap(s, c, back), SetCap(t, c, back));
      CloseOver(m, c, back, Results(inp, r1, back, c + 1, SetCap(s, c, back)),
        Results(inp, r1, back, c + 1, SetCap(t, c, back)));
    case Sequence(r1, r2) => SequenceOver(inp, r1, r2, back, c, m, s, t);
    case Either(r1, r2) =>
      PartsPlain(r, r1, r2);
      EitherAre(inp, r1, r2, back, c, s);
      EitherAre(inp, r1, r2, back, c, t);
      ResultsOver(inp, r1, back, c, m, s, t);
      ResultsOver(inp, r2, back, c + Groups(r1), m, s, t);
      AppendOver(m, Results(inp, r1, back, c, s), Results(inp, r1, back, c, t),
        Results(inp, r2, back, c + Groups(r1), s), Results(inp, r2, back, c + Groups(r1), t));
    case Quantified(r1, min, max, greedy) =>
      PartsPlain(r, r1, r1);
      QuantifiedAre(inp, r1, min, max, greedy, back, c, s, s);
      QuantifiedAre(inp, r1, min, max, greedy, back, c, t, t);
      NothingCleared(r1, min, max, greedy, c, s);
      NothingCleared(r1, min, max, greedy, c, t);
      RepeatOver(inp, r1, min, OptionalRounds(min, max), greedy, back, c, m, s, t);
    case Look(r1, negative, behind) =>
      PartsPlain(r, r1, r1);
      ResultsOver(inp, r1, behind, c, m, s, t);
      LookOver(inp, r1, negative, behind, back, c, m, s, t);
  }

  lemma OverPos(m: map<nat, nat>, t: State)
    ensures Over(m, t).pos == t.pos
  {
  }

  lemma PartsPlain(r: Regex, r1: Regex, r2: Regex)
    requires NoBackRefs(r) && NeverClears(r)
    requires match r
      case Group(p) => r1 == r2 == p
      case Sequence(p, q) => r1 == p && r2 == q
      case Either(p, q) => r1 == p && r2 == q
      case Quantified(p, _, _, _) => r1 == r2 == p
      case Look(p, _, _) => r1 == r2 == p
      case _ => false
    ensures NoBackRefs(r1) && NeverClears(r1) && NoBackRefs(r2) && NeverClears(r2)
  {
  }

  lemma LeafOver(inp: Input, r: Regex, back: bool, c: nat, m: map<nat, nat>, s: State, t: State)
    requires t.pos <= |inp.units| && s == Over(m, t) && (r.Empty? || r.Atom? || r.Assert? || r.BackRef?)
      && NoBackRefs(r)
    ensures s.pos == t.pos && AllOver(m, Results(inp, r, back, c, s), Results(inp, r, back, c, t))
  {
    hide Satisfied, Accepts, RefEnd;
  }

  lemma GroupResults(inp: Input, r1: Regex, back: bool, c: nat, s: State)
    requires s.pos <= |inp.units|
    ensures SetCap(s, c, back).pos == s.pos
    ensures Results(inp, Group(r1), back, c, s) == CloseGroup(c, back,
      Results(inp, r1, back, c + 1, SetCap(s, c, back)))
  {
    hide CloseGroup;
  }

  lemma NothingCleared(r1: Regex, min: nat, max: nat, greedy: bool, c: nat, s: State)
    requires NeverClears(Quantified(r1, min, max, greedy))
    ensures min == 0 ==> ResetState(s, Groups(r1), c) == s
  {
  }

  lemma LookOver(inp: Input, r1: Regex, negative: bool, behind: bool, back: bool, c: nat, m: map<nat, nat>, s: State,
      t: State)
    requires t.pos <= |inp.units| && s == Over(m, t)
    requires s.pos == t.pos && AllOver(m, Results(inp, r1, behind, c, s), Results(inp, r1, behind, c, t))
    ensures AllOver(m, Results(inp, Look(r1, negative, behind), back, c, s),
      Results(inp, Look(r1, negative, behind), back, c, t))
  {
    LookResults(inp, r1, negative, behind, back, c, s);
    LookResults(inp, r1, negative, behind, back, c, t);
    hide Results;
  }

  lemma LookResults(inp: Input, r1: Regex, negative: bool, behind: bool, back: bool, c: nat, s: State)
    requires s.pos <= |inp.units|
    ensures Results(inp, Look(r1, negative, behind), back, c, s) == Around(s, negative, Results(inp, r1, behind, c, s))
  {
  }

  lemma {:induction false} SequenceOver(inp: Input, r1: Regex, r2: Regex, back: bool, c: nat, m: map<nat, nat>,
      s: State, t: State)
    requires t.pos <= |inp.units| && s == Over(m, t) && NoBackRefs(Sequence(r1, r2)) && NeverClears(Sequence(r1, r2))
    ensures s.pos == t.pos && AllOver(m, Results(inp, Sequence(r1, r2), back, c, s),
      Results(inp, Sequence(r1, r2), back, c, t))
    decreases Sequence(r1, r2), 0, 0, 0, 0
  {
    hide *;
    OverPos(m, t);
    PartsPlain(Sequence(r1, r2), r1, r2);
    SequenceAre(inp, r1, r2, back, c, s, s);
    SequenceAre(inp, r1, r2, back, c, t, t);
    var c2 := c + Groups(r1);
    if back {
      ResultsOver(inp, r2, back, c2, m, s, t);
      ThenOver(inp, r1, back, c, m, s, t, Results(inp, r2, back, c2, s), Results(inp, r2, back, c2, t));
    } else {
      ResultsOver(inp, r1, back, c, m, s, t);
      ThenOver(inp, r2, back, c2, m, s, t, Results(inp, r1, back, c, s), Results(inp, r1, back, c, t));
    }
  }

  lemma {:induction false} ThenOver(inp: Input, r: Regex, back: bool, c: nat, m: map<nat, nat>, s: State, t: State,
      xs: seq<State>, ys: seq<State>)
    requires AllAhead(inp, back, s, xs) && AllAhead(inp, back, t, ys) && AllOver(m, xs, ys) && NoBackRefs(r)
      && NeverClears(r)
    ensures AllOver(m, ThenResults(inp, r, back, c, s, xs), ThenResults(inp, r, back, c, t, ys))
    decreases r, 1, 0, 0, |xs|
  {
    hide Results, Over, NoBackRefs, NeverClears;
    if xs != [] {
      OverPos(m, ys[0]);
      ResultsOver(inp, r, back, c, m, xs[0], ys[0]);
      ThenOver(inp, r, back, c, m, s, t, xs[1..], ys[1..]);
      AppendOver(m, Results(inp, r, back, c, xs[0]), Results(inp, r, back, c, ys[0]),
        ThenResults(inp, r, back, c, s, xs[1..]), ThenResults(inp, r, back, c, t, ys[1..]));
    }
  }

  lemma {:induction false} RepeatOver(inp: Input, r: Regex, n: nat, more: Option<nat>, greedy: bool, back: bool, c: nat,
      m: map<nat, nat>, s: State, t: State)
    requires s.pos == t.pos <= |inp.units| && s == Over(m, t) && NoBackRefs(r) && NeverClears(r)
    ensures AllOver(m, RepeatResults(inp, r, n, more, greedy, back, c, s),
      RepeatResults(inp, r, n, more, greedy, back, c, t))
    decreases r, 3, n, 0, 0
  {
    hide Results, LoopResults, ThenRepeat, Over, NoBackRefs, NeverClears;
    if n == 0 {
      LoopOver(inp, r, more, greedy, back, c, m, s, t);
    } else {
      ResultsOver(inp, r, back, c, m, s, t);
      ThenRepeatOver(inp, r, n - 1, more, greedy, back, c, m, s, t, Results(inp, r, back, c, s),
        Results(inp, r, back, c, t));
    }
  }

  lemma {:induction false} ThenRepeatOver(inp: Input, r: Regex, n: nat, more: Option<nat>, greedy: bool, back: bool,
      c: nat,
      m: map<nat, nat>, s: State, t: State, xs: seq<State>, ys: seq<State>)
    requires AllAhead(inp, back, s, xs) && AllAhead(inp, back, t, ys) && AllOver(m, xs, ys) && NoBackRefs(r)
      && NeverClears(r)
    ensures AllOver(m, ThenRepeat(inp, r, n, more, greedy, back, c, s, xs),
      ThenRepeat(inp, r, n, more, greedy, back, c, t, ys))
    decreases r, 3, n, 1, |xs|
  {
    hide Results, RepeatResults, Over, NoBackRefs, NeverClears;
    if xs != [] {
      OverPos(m, ys[0]);
      RepeatOver(inp, r, n, more, greedy, back, c, m, xs[0], ys[0]);
      ThenRepeatOver(inp, r, n, more, greedy, back, c, m, s, t, xs[1..], ys[1..]);
      AppendOver(m, RepeatResults(inp, r, n, more, greedy, back, c, xs[0]),
        RepeatResults(inp, r, n, more, greedy, back, c, ys[0]),
        ThenRepeat(inp, r, n, more, greedy, back, c, s, xs[1..]),
          ThenRepeat(inp, r, n, more, greedy, back, c, t, ys[1..]));
    }
  }

  lemma {:induction false} LoopOver(inp: Input, r: Regex, more: Option<nat>, greedy: bool, back: bool, c: nat,
      m: map<nat, nat>, s: State, t: State)
    requires s.pos == t.pos <= |inp.units| && s == Over(m, t) && NoBackRefs(r) && NeverClears(r)
    ensures AllOver(m, LoopResults(inp, r, more, greedy, back, c, s), LoopResults(inp, r, more, greedy, back, c, t))
    decreases r, 2, Room(inp, back, s), 1, 0
  {
    hide Results, ThenLoop, Moved, Over, NoBackRefs, NeverClears;
    if more != Some(0) {
      ResultsOver(inp, r, back, c, m, s, t);
      var xs, ys := Moved(s, Results(inp, r, back, c, s)), Moved(t, Results(inp, r, back, c, t));
      MovedOver(m, s, t, Results(inp, r, back, c, s), Results(inp, r, back, c, t));
      ThenLoopOver(inp, r, OneLess(more), greedy, back, c, m, s, t, xs, ys);
      var a, b := ThenLoop(inp, r, OneLess(more), greedy, back, c, s, xs),
        ThenLoop(inp, r, OneLess(more), greedy, back, c, t, ys);
      AppendOver(m, a, b, [s], [t]);
      AppendOver(m, [s], [t], a, b);
    }
  }

  lemma {:induction false} ThenLoopOver(inp: Input, r: Regex, more: Option<nat>, greedy: bool, back: bool, c: nat,
      m: map<nat, nat>, s: State, t: State, xs: seq<State>, ys: seq<State>)
    requires s.pos == t.pos <= |inp.units| && AllOver(m, xs, ys) && NoBackRefs(r) && NeverClears(r)
    requires AllAhead(inp, back, s, xs) && forall i :: 0 <= i < |xs| ==> xs[i].pos != s.pos
    requires AllAhead(inp, back, t, ys) && forall i :: 0 <= i < |ys| ==> ys[i].pos != t.pos
    ensures AllOver(m, ThenLoop(inp, r, more, greedy, back, c, s, xs), ThenLoop(inp, r, more, greedy, back, c, t, ys))
    decreases r, 2, Room(inp, back, s), 0, |xs|
  {
    hide Results, LoopResults, Over, NoBackRefs, NeverClears;
    if xs != [] {
      OverPos(m, ys[0]);
      LoopOver(inp, r, more, greedy, back, c, m, xs[0], ys[0]);
      ThenLoopOver(inp, r, more, greedy, back, c, m, s, t, xs[1..], ys[1..]);
      AppendOver(m, LoopResults(inp, r, more, greedy, back, c, xs[0]),
        LoopResults(inp, r, more, greedy, back, c, ys[0]),
        ThenLoop(inp, r, more, greedy, back, c, s, xs[1..]), ThenLoop(inp, r, more, greedy, back, c, t, ys[1..]));
    }
  }

  // Several mandatory rounds.

  ghost predicate First(xs: seq<State>, x: State) { xs != [] && xs[0] == x }

  lemma FirstRepeat(inp: Input, r: Regex, n: nat, greedy: bool, back: bool, c: nat, s: State, x: State)
    requires s.pos <= |inp.units| && x.pos <= |inp.units| && First(Results(inp, r, back, c, s), x)
    ensures n == 0 ==> First(RepeatResults(inp, r, 1, Some(0), greedy, back, c, s), x)
    ensures n > 0 && RepeatResults(inp, r, n, Some(0), greedy, back, c, x) != [] ==>
      First(RepeatResults(inp, r, n + 1, Some(0), greedy, back, c, s),
        RepeatResults(inp, r, n, Some(0), greedy, back, c, x)[0])
  {
    var xs := Results(inp, r, back, c, s);
    hide Results;
    assert RepeatResults(inp, r, n + 1, Some(0), greedy, back, c, s)
      == ThenRepeat(inp, r, n, Some(0), greedy, back, c, s, xs);
    assert n == 0 ==>
      RepeatResults(inp, r, n, Some(0), greedy, back, c, x) == LoopResults(inp, r, Some(0), greedy, back, c, x) == [x];
    hide RepeatResults;
    assert ThenRepeat(inp, r, n, Some(0), greedy, back, c, s, xs)
      == RepeatResults(inp, r, n, Some(0), greedy, back, c, xs[0]) + ThenRepeat(inp, r, n, Some(0), greedy, back, c,
        s, xs[1..]);
  }

  lemma FirstEcmaRepeat(inp: Input, r: Regex, n: nat, greedy: bool, back: bool, c: nat, s: State, x: State)
    requires s.pos <= |inp.units| && x.pos <= |inp.units|
      && First(EcmaResults(inp, r, back, c, ResetState(s, Groups(r), c)), x)
    ensures n == 0 ==> First(EcmaRepeat(inp, r, 1, Some(0), greedy, back, c, s), x)
    ensures n > 0 && EcmaRepeat(inp, r, n, Some(0), greedy, back, c, x) != [] ==>
      First(EcmaRepeat(inp, r, n + 1, Some(0), greedy, back, c, s),
        EcmaRepeat(inp, r, n, Some(0), greedy, back, c, x)[0])
  {
    var xs := EcmaResults(inp, r, back, c, ResetState(s, Groups(r), c));
    hide EcmaResults;
    assert EcmaRepeat(inp, r, n + 1, Some(0), greedy, back, c, s)
      == EcmaThenRepeat(inp, r, n, Some(0), greedy, back, c, s, xs);
    assert n == 0 ==>
      EcmaRepeat(inp, r, n, Some(0), greedy, back, c, x) == EcmaLoop(inp, r, Some(0), greedy, back, c, x) == [x];
    hide EcmaRepeat;
    assert EcmaThenRepeat(inp, r, n, Some(0), greedy, back, c, s, xs)
      == EcmaRepeat(inp, r, n, Some(0), greedy, back, c, xs[0]) + EcmaThenRepeat(inp, r, n, Some(0), greedy, back, c,
        s, xs[1..]);
  }

  lemma FirstIs(xs: seq<State>, x: State)
    ensures First(xs, x) <==> xs != [] && xs[0] == x
  {
  }

  lemma AlreadyClear(s: State, c: nat, n: nat)
    requires Clear(s, c, n)
    ensures ResetState(s, n, c) == s
  {
    if n > 0 { assert ResetCaps(s.caps, c, c + n - 1) == s.caps; }
  }

  /** rs and ts are the first results of the rounds in the program and in the standard, each round entered
      where the one before has left off and with its groups unset. */
  ghost predicate FirstRounds(inp: Input, r: Regex, back: bool, c: nat, s: State, rs: seq<State>, ts: seq<State>)
    requires s.pos <= |inp.units|
    decreases |ts|
  {
    && |rs| == |ts|
    && (ts != [] ==>
      var u := ResetState(s, Groups(r), c);
      && First(Results(inp, r, back, c, u), rs[0]) && First(EcmaResults(inp, r, back, c, u), ts[0])
      && ts[0].pos <= |inp.units| && FirstRounds(inp, r, back, c, ts[0], rs[1..], ts[1..]))
  }

  /** The captures of all rounds, later ones above earlier ones. */
  function Merged(m: map<nat, nat>, rs: seq<State>): map<nat, nat>
    decreases |rs|
  {
    if rs == [] then m else Merged(m + rs[0].caps, rs[1..])
  }

  lemma OneRound(inp: Input, r: Regex, back: bool, c: nat, p: State, s: State, x: State, y: State)
    requires s.pos == p.pos <= |inp.units| && NoBackRefs(r) && NeverClears(r) && Bounded(r)
    requires var u := ResetState(s, Groups(r), c);
      p.caps + u.caps == p.caps && First(Results(inp, r, back, c, u), x) && First(EcmaResults(inp, r, back, c, u), y)
    ensures First(Results(inp, r, back, c, p), State(x.pos, p.caps + x.caps)) && Extends(x, y)
    ensures var base := ResetState(s, Groups(r), c).caps;
      ResetState(y, Groups(r), c).caps == base && p.caps + x.caps + base == p.caps + x.caps && base.Keys <= y.caps.Keys
  {
    var u := ResetState(s, Groups(r), c);
    ResetWithin(s, c, Groups(r));
    OnlyMoreCaptures(inp, r, back, c, u, 0);
    ResultsOver(inp, r, back, c, p.caps, p, u);
    EcmaWithin(inp, r, back, c, u);
    BaseStays(u, x, y, c, Groups(r));
    assert Within(u, y, c, Groups(r));
    hide Results, EcmaResults;
  }

  lemma BaseStays(u: State, x: State, y: State, c: nat, n: nat)
    requires Clear(u, c, n) && Within(u, y, c, n) && Extends(x, y)
    ensures ResetState(y, n, c).caps == u.caps
    ensures u.caps.Keys <= y.caps.Keys
    ensures forall m: map<nat, nat> :: m + x.caps + u.caps == m + x.caps
  {
  }

  lemma {:induction false} RoundsMerge(inp: Input, r: Regex, greedy: bool, back: bool, c: nat, p: State, s: State,
      rs: seq<State>, ts: seq<State>)
    requires s.pos == p.pos <= |inp.units| && NoBackRefs(r) && NeverClears(r) && Bounded(r)
    requires p.caps + ResetState(s, Groups(r), c).caps == p.caps && FirstRounds(inp, r, back, c, s, rs, ts) && ts != []
    ensures First(RepeatResults(inp, r, |ts|, Some(0), greedy, back, c, p), State(ts[|ts| - 1].pos, Merged(p.caps, rs)))
    ensures First(EcmaRepeat(inp, r, |ts|, Some(0), greedy, back, c, s), ts[|ts| - 1])
    ensures Extends(rs[|ts| - 1], ts[|ts| - 1])
    ensures ResetState(s, Groups(r), c).caps.Keys <= ts[|ts| - 1].caps.Keys
    decreases |ts|
  {
    hide Results, EcmaResults, RepeatResults, EcmaRepeat, ResetState, First, NoBackRefs, NeverClears, Bounded, Extends;
    var n := |ts|;
    OneRound(inp, r, back, c, p, s, rs[0], ts[0]);
    ExtendsPos(rs[0], ts[0]);
    var p1 := State(rs[0].pos, p.caps + rs[0].caps);
    FirstRepeat(inp, r, n - 1, greedy, back, c, p, p1);
    FirstEcmaRepeat(inp, r, n - 1, greedy, back, c, s, ts[0]);
    if n > 1 {
      RoundsMerge(inp, r, greedy, back, c, p1, ts[0], rs[1..], ts[1..]);
      FirstIs(RepeatResults(inp, r, n - 1, Some(0), greedy, back, c, p1),
        State(ts[n - 1].pos, Merged(p1.caps, rs[1..])));
      FirstIs(EcmaRepeat(inp, r, n - 1, Some(0), greedy, back, c, ts[0]), ts[n - 1]);
    }
  }

  lemma ExtendsPos(x: State, y: State)
    requires Extends(x, y)
    ensures x.pos == y.pos
  {
  }

  lemma {:induction false} MergedKeys(m: map<nat, nat>, rs: seq<State>, k: nat)
    ensures k in Merged(m, rs) <==> k in m || exists i :: 0 <= i < |rs| && k in rs[i].caps
    ensures rs != [] && k in rs[|rs| - 1].caps ==> Merged(m, rs)[k] == rs[|rs| - 1].caps[k]
    decreases |rs|
  {
    if rs != [] {
      MergedKeys(m + rs[0].caps, rs[1..], k);
      if i :| 0 <= i < |rs| && k in rs[i].caps {
        if i > 0 { assert rs[1..][i - 1] == rs[i]; }
      }
      if j :| 0 <= j < |rs[1..]| && k in rs[1..][j].caps { assert rs[j + 1] == rs[1..][j]; }
    }
  }

  /** Of n mandatory rounds the program's first match has the captures of all of them laid over each other,
      the standard's those of the last; so they agree exactly when the last round sets every capture that a
      round has set in the program. */
  lemma MandatoryRounds(inp: Input, r: Regex, greedy: bool, back: bool, c: nat, s: State, rs: seq<State>,
      ts: seq<State>)
    requires s.pos <= |inp.units| && Clear(s, c, Groups(r)) && NoBackRefs(r) && NeverClears(r) && Bounded(r)
    requires FirstRounds(inp, r, back, c, s, rs, ts) && 1 <= |ts| < INT32_MAX
    ensures var r2, last := Quantified(r, |ts|, |ts|, greedy), ts[|ts| - 1];
      && First(Results(inp, r2, back, c, s), State(last.pos, Merged(s.caps, rs)))
      && First(EcmaResults(inp, r2, back, c, s), last)
      && (Results(inp, r2, back, c, s)[0] == last <==> forall i :: 0 <= i < |rs| ==> rs[i].caps.Keys <= last.caps.Keys)
  {
    hide *;
    var n := |ts|;
    AlreadyClear(s, c, Groups(r));
    QuantifiedAre(inp, r, n, n, greedy, back, c, s, s);
    Exactly(n);
    OverItself(s.caps);
    RoundsMerge(inp, r, greedy, back, c, s, s, rs, ts);
    RoundsLength(inp, r, back, c, s, rs, ts);
    FirstIs(Results(inp, Quantified(r, n, n, greedy), back, c, s), State(ts[n - 1].pos, Merged(s.caps, rs)));
    LastHasAll(s.caps, rs, ts[n - 1]);
  }

  lemma Exactly(n: nat)
    requires n < INT32_MAX
    ensures OptionalRounds(n, n) == Some(0)
  {
  }

  lemma OverItself(m: map<nat, nat>)
    ensures m + m == m
  {
  }

  lemma RoundsLength(inp: Input, r: Regex, back: bool, c: nat, s: State, rs: seq<State>, ts: seq<State>)
    requires s.pos <= |inp.units| && FirstRounds(inp, r, back, c, s, rs, ts)
    ensures |rs| == |ts|
  {
  }

  lemma LastHasAll(m: map<nat, nat>, rs: seq<State>, last: State)
    requires rs != [] && m.Keys <= last.caps.Keys && Extends(rs[|rs| - 1], last)
    ensures Merged(m, rs) == last.caps <==> forall i :: 0 <= i < |rs| ==> rs[i].caps.Keys <= last.caps.Keys
  {
    if forall i :: 0 <= i < |rs| ==> rs[i].caps.Keys <= last.caps.Keys {
      MergedLast(m, rs, last);
    } else {
      var i :| 0 <= i < |rs| && !(rs[i].caps.Keys <= last.caps.Keys);
      var k :| k in rs[i].caps && k !in last.caps;
      MergedKeys(m, rs, k);
      hide Merged;
      assert k in Merged(m, rs);
    }
  }

  lemma MergedLast(m: map<nat, nat>, rs: seq<State>, last: State)
    requires rs != [] && m.Keys <= last.caps.Keys && Extends(rs[|rs| - 1], last)
    requires forall i :: 0 <= i < |rs| ==> rs[i].caps.Keys <= last.caps.Keys
    ensures Merged(m, rs) == last.caps
  {
    hide Merged;
    forall k ensures k in Merged(m, rs) <==> k in last.caps { MergedKeys(m, rs, k); }
    forall k | k in last.caps ensures Merged(m, rs)[k] == last.caps[k] { MergedKeys(m, rs, k); }
  }

  /** The first results of the rounds in the standard. */
  ghost predicate StandardRounds(inp: Input, r: Regex, back: bool, c: nat, s: State, ts: seq<State>)
    requires s.pos <= |inp.units|
    decreases |ts|
  {
    ts != [] ==>
      && First(EcmaResults(inp, r, back, c, ResetState(s, Groups(r), c)), ts[0])
      && ts[0].pos <= |inp.units| && StandardRounds(inp, r, back, c, ts[0], ts[1..])
  }

  /** Where the standard can go on, so can the program, and each of its rounds has the standard's captures. */
  lemma {:induction false} RoundsExist(inp: Input, r: Regex, back: bool, c: nat, s: State, ts: seq<State>)
      returns (rs: seq<State>)
    requires s.pos <= |inp.units| && NoBackRefs(r) && Bounded(r) && StandardRounds(inp, r, back, c, s, ts)
    ensures FirstRounds(inp, r, back, c, s, rs, ts)
    ensures |rs| == |ts| && forall i :: 0 <= i < |ts| ==> Extends(rs[i], ts[i])
    decreases |ts|
  {
    hide Results, EcmaResults, NoBackRefs, Bounded, Extends, Groups;
    if ts == [] {
      rs := [];
    } else {
      var u := ResetState(s, Groups(r), c);
      ResetWithin(s, c, Groups(r));
      OnlyMoreCaptures(inp, r, back, c, u, 0);
      var more := RoundsExist(inp, r, back, c, ts[0], ts[1..]);
      rs := [Results(inp, r, back, c, u)[0]] + more;
      assert rs[1..] == more;
    }
  }

  /** A capture that some mandatory round sets and the last one does not stays in the program's match, and
      is not in the standard's. */
  lemma KeptWhenSkipped(inp: Input, r: Regex, greedy: bool, back: bool, c: nat, s: State, ts: seq<State>, i: nat,
      k: nat)
    requires s.pos <= |inp.units| && Clear(s, c, Groups(r)) && NoBackRefs(r) && NeverClears(r) && Bounded(r)
    requires StandardRounds(inp, r, back, c, s, ts) && i < |ts| < INT32_MAX && k in ts[i].caps
      && k !in ts[|ts| - 1].caps
    ensures var r2 := Quantified(r, |ts|, |ts|, greedy);
      var p, q := Results(inp, r2, back, c, s), EcmaResults(inp, r2, back, c, s);
      p != [] && First(q, ts[|ts| - 1]) && p[0].pos == q[0].pos && k in p[0].caps
  {
    hide *;
    var rs := RoundsExist(inp, r, back, c, s, ts);
    MandatoryRounds(inp, r, greedy, back, c, s, rs, ts);
    ExtendsHas(rs[i], ts[i], k);
    MergedKeys(s.caps, rs, k);
    var r2, last := Quantified(r, |ts|, |ts|, greedy), ts[|ts| - 1];
    FirstIs(Results(inp, r2, back, c, s), State(last.pos, Merged(s.caps, rs)));
    FirstIs(EcmaResults(inp, r2, back, c, s), last);
  }

  lemma ExtendsHas(x: State, y: State, k: nat)
    requires Extends(x, y) && k in y.caps
    ensures k in x.caps
  {
  }
}
