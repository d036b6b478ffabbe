/** Which captures the program can have that section 22.2.2.3.1 of ECMA-262 does not: an analysis of
    the groups that may still hold the capture of an earlier round, and what follows from it. */
module RegexpCaptures {
  import opened Options
  import opened RegexpInput
  import opened RegexpSyntax
  import opened RegexpEcma

  function GroupRange(c: nat, n: nat): (s: set<nat>)
    ensures forall i: nat :: i in s <==> c <= i < c + n
  {
    if n == 0 then {} else GroupRange(c, n - 1) + {c + n - 1}
  }

  /** The groups that may be stale behind r when those of `stale` may be stale in front of it. */
  function Stale(r: Regex, back: bool, c: nat, stale: set<nat>): set<nat> {
    match r
    case Empty | Atom(_) | Assert(_) | BackRef(_, _) => stale
    case Group(r1) => Stale(r1, back, c + 1, stale) - {c}
    case Sequence(r1, r2) =>
      if back then Stale(r1, back, c, Stale(r2, back, c + Groups(r1), stale))
      else Stale(r2, back, c + Groups(r1), Stale(r1, back, c, stale))
    case Either(r1, r2) => Stale(r1, back, c, stale) + Stale(r2, back, c + Groups(r1), stale)
    case Quantified(r1, min, max, _) =>
      if min == 0 then AtHead(r1, min, c, stale) + Stale(r1, back, c, AtRound(r1, min, max, c, stale))
      else Stale(r1, back, c, AtRound(r1, min, max, c, stale))
    case Look(r1, negative, behind) => if negative then stale else Stale(r1, behind, c, stale)
  }

  /** Entering a quantifier with minimum 0 clears its groups. */
  function AtHead(r1: Regex, min: nat, c: nat, stale: set<nat>): set<nat> {
    if min == 0 then stale - GroupRange(c, Groups(r1)) else stale
  }

  /** Only a second round can find captures of the first. */
  function AtRound(r1: Regex, min: nat, max: nat, c: nat, stale: set<nat>): set<nat> {
    AtHead(r1, min, c, stale) + if max > 1 then GroupRange(c, Groups(r1)) else {}
  }

  /** No back reference is to a group that may be stale. */
  predicate Safe(r: Regex, back: bool, c: nat, stale: set<nat>) {
    match r
    case Empty | Atom(_) | Assert(_) => true
    case BackRef(i, _) => i !in stale
    case Group(r1) => Safe(r1, back, c + 1, stale)
    case Sequence(r1, r2) =>
      if back then Safe(r2, back, c + Groups(r1), stale) && Safe(r1, back, c, Stale(r2, back, c + Groups(r1), stale))
      else Safe(r1, back, c, stale) && Safe(r2, back, c + Groups(r1), Stale(r1, back, c, stale))
    case Either(r1, r2) => Safe(r1, back, c, stale) && Safe(r2, back, c + Groups(r1), stale)
    case Quantified(r1, min, max, _) => min <= max && Safe(r1, back, c, AtRound(r1, min, max, c, stale))
    case Look(r1, _, behind) => Safe(r1, behind, c, stale)
  }

  lemma {:induction false} StaleBound(r: Regex, back: bool, c: nat, stale: set<nat>)
    ensures Stale(r, back, c, stale) <= stale + GroupRange(c, Groups(r))
    decreases r
  {
    hide GroupRange;
    match r
    case Group(r1) => StaleBound(r1, back, c + 1, stale);
    case Sequence(r1, r2) =>
      if back {
        StaleBound(r2, back, c + Groups(r1), stale);
        StaleBound(r1, back, c, Stale(r2, back, c + Groups(r1), stale));
      } else {
        StaleBound(r1, back, c, stale);
        StaleBound(r2, back, c + Groups(r1), Stale(r1, back, c, stale));
      }
    case Either(r1, r2) =>
      StaleBound(r1, back, c, stale);
      StaleBound(r2, back, c + Groups(r1), stale);
    case Quantified(r1, min, max, _) => StaleBound(r1, back, c, AtRound(r1, min, max, c, stale));
    case Look(r1, _, behind) => StaleBound(r1, behind, c, stale);
    case _ =>
  }

  // What a pattern does to the captures under the standard.

  predicate Clear(t: State, c: nat, n: nat) { forall k :: 2 * c <= k < 2 * (c + n) ==> k !in t.caps }

  /** Only captures of the groups from c on, n of them, differ. */
  ghost predicate Within(t: State, y: State, c: nat, n: nat) {
    forall k :: !(2 * c <= k < 2 * (c + n)) ==>
      (k in t.caps <==> k in y.caps) && (k in t.caps ==> t.caps[k] == y.caps[k])
  }

  ghost predicate AllWithin(t: State, ys: seq<State>, c: nat, n: nat) {
    forall i :: 0 <= i < |ys| ==> Within(t, ys[i], c, n)
  }

  lemma WithinWide(t: State, ys: seq<State>, c: nat, n: nat, c2: nat, n2: nat)
    requires AllWithin(t, ys, c, n) && c2 <= c && c + n <= c2 + n2
    ensures AllWithin(t, ys, c2, n2)
  {
    hide Within;
    forall i | 0 <= i < |ys| ensures Within(t, ys[i], c2, n2) { WithinOne(t, ys[i], c, n, c2, n2); }
  }

  lemma WithinOne(t: State, y: State, c: nat, n: nat, c2: nat, n2: nat)
    requires Within(t, y, c, n) && c2 <= c && c + n <= c2 + n2
    ensures Within(t, y, c2, n2)
  {
  }

  lemma WithinThen(t: State, x: State, ys: seq<State>, c: nat, n: nat)
    requires Within(t, x, c, n) && AllWithin(x, ys, c, n)
    ensures AllWithin(t, ys, c, n)
  {
    hide Within;
    forall i | 0 <= i < |ys| ensures Within(t, ys[i], c, n) { WithinTwice(t, x, ys[i], c, n); }
  }

  lemma WithinTwice(t: State, x: State, y: State, c: nat, n: nat)
    requires Within(t, x, c, n) && Within(x, y, c, n)
    ensures Within(t, y, c, n)
  {
  }

  lemma ResetWithin(t: State, c: nat, n: nat)
    ensures Within(t, ResetState(t, n, c), c, n) && Clear(ResetState(t, n, c), c, n)
  {
  }

  lemma {:induction false} EcmaWithin(inp: Input, r: Regex, back: bool, c: nat, t: State)
    requires t.pos <= |inp.units|
    ensures AllWithin(t, EcmaResults(inp, r, back, c, t), c, Groups(r))
    decreases r, 0, 1, 0, 0
  {
    hide *;
    match r
    case Empty => LeafWithin(inp, r, back, c, t);
    case Atom(_) => LeafWithin(inp, r, back, c, t);
    case Assert(_) => LeafWithin(inp, r, back, c, t);
    case BackRef(_, _) => LeafWithin(inp, r, back, c, t);
    case Group(r1) => GroupWithin(inp, r1, back, c, t);
    case Sequence(r1, r2) => SequenceWithin(inp, r1, r2, back, c, t);
    case Either(r1, r2) => EitherWithin(inp, r1, r2, back, c, t);
    case Quantified(r1, min, max, greedy) =>
      RepeatWithin(inp, r1, min, OptionalRounds(min, max), greedy, back, c, t);
      QuantifiedAre(inp, r1, min, max, greedy, back, c, t, t);
    case Look(r1, negative, behind) => AroundWithin(inp, r1, negative, behind, back, c, t);
  }

  lemma LeafWithin(inp: Input, r: Regex, back: bool, c: nat, t: State)
    requires t.pos <= |inp.units| && (r.Empty? || r.Atom? || r.Assert? || r.BackRef?)
    ensures AllWithin(t, EcmaResults(inp, r, back, c, t), c, Groups(r))
  {
    hide RefEnd, Satisfied, Accepts, AllWithin;
    MovedWithin(t, EcmaResults(inp, r, back, c, t), c);
  }

  lemma {:induction false} GroupWithin(inp: Input, r1: Regex, back: bool, c: nat, t: State)
    requires t.pos <= |inp.units|
    ensures AllWithin(t, EcmaResults(inp, Group(r1), back, c, t), c, Groups(Group(r1)))
    decreases Group(r1), 0, 0, 0, 0
  {
    var u := SetCap(t, c, back);
    EcmaWithin(inp, r1, back, c + 1, u);
    CloseWithin(t, c, Groups(r1), back, EcmaResults(inp, r1, back, c + 1, u));
    hide AllWithin, CloseGroup;
  }

  lemma {:induction false} EitherWithin(inp: Input, r1: Regex, r2: Regex, back: bool, c: nat, t: State)
    requires t.pos <= |inp.units|
    ensures AllWithin(t, EcmaResults(inp, Either(r1, r2), back, c, t), c, Groups(Either(r1, r2)))
    decreases Either(r1, r2), 0, 0, 0, 0
  {
    hide *;
    GroupsAre(r1, r2);
    EcmaEitherAre(inp, r1, r2, back, c, t);
    var xs, ys, n := EcmaResults(inp, r1, back, c, t), EcmaResults(inp, r2, back, c + Groups(r1), t),
      Groups(Either(r1, r2));
    EcmaWithin(inp, r1, back, c, t);
    EcmaWithin(inp, r2, back, c + Groups(r1), t);
    WithinWide(t, xs, c, Groups(r1), c, n);
    WithinWide(t, ys, c + Groups(r1), Groups(r2), c, n);
    WithinBoth(t, xs, ys, c, n);
  }

  lemma {:induction false} AroundWithin(inp: Input, r1: Regex, negative: bool, behind: bool, back: bool, c: nat,
      t: State)
    requires t.pos <= |inp.units|
    ensures AllWithin(t, EcmaResults(inp, Look(r1, negative, behind), back, c, t), c,
      Groups(Look(r1, negative, behind)))
    decreases Look(r1, negative, behind), 0, 0, 0, 0
  {
    hide AllWithin;
    EcmaWithin(inp, r1, behind, c, t);
    LookWithin(t, EcmaResults(inp, r1, behind, c, t), c, Groups(r1));
  }

  lemma {:induction false} SequenceWithin(inp: Input, r1: Regex, r2: Regex, back: bool, c: nat, t: State)
    requires t.pos <= |inp.units|
    ensures AllWithin(t, EcmaResults(inp, Sequence(r1, r2), back, c, t), c, Groups(Sequence(r1, r2)))
    decreases Sequence(r1, r2), 0, 0, 0, 0
  {
    hide *;
    SequenceAre(inp, r1, r2, back, c, t, t);
    GroupsAre(r1, r2);
    var n := Groups(Sequence(r1, r2));
    if back {
      var xs := EcmaResults(inp, r2, back, c + Groups(r1), t);
      EcmaWithin(inp, r2, back, c + Groups(r1), t);
      WithinWide(t, xs, c + Groups(r1), Groups(r2), c, n);
      ThenWithin(inp, r1, back, c, t, xs, c, n);
    } else {
      var xs := EcmaResults(inp, r1, back, c, t);
      EcmaWithin(inp, r1, back, c, t);
      WithinWide(t, xs, c, Groups(r1), c, n);
      ThenWithin(inp, r2, back, c + Groups(r1), t, xs, c, n);
    }
  }

  lemma LookWithin(t: State, xs: seq<State>, c: nat, n: nat)
    requires AllWithin(t, xs, c, n)
    ensures AllWithin(t, [], c, n) && AllWithin(t, [t], c, n)
      && (xs != [] ==> AllWithin(t, [State(t.pos, xs[0].caps)], c, n))
  {
  }

  lemma WithinBoth(t: State, xs: seq<State>, ys: seq<State>, c: nat, n: nat)
    requires AllWithin(t, xs, c, n) && AllWithin(t, ys, c, n)
    ensures AllWithin(t, xs + ys, c, n)
  {
  }

  lemma WithinSelf(t: State, c: nat, n: nat)
    ensures Within(t, t, c, n)
  {
  }

  lemma MovedWithin(t: State, xs: seq<State>, c: nat)
    requires forall k :: 0 <= k < |xs| ==> xs[k].caps == t.caps
    ensures AllWithin(t, xs, c, 0)
  {
  }

  lemma CloseWithin(t: State, c: nat, n: nat, back: bool, xs: seq<State>)
    requires AllWithin(SetCap(t, c, back), xs, c + 1, n)
    ensures AllWithin(t, CloseGroup(c, back, xs), c, n + 1)
  {
    var ys := CloseGroup(c, back, xs);
    forall i | 0 <= i < |ys| ensures Within(t, ys[i], c, n + 1) { assert Within(SetCap(t, c, back), xs[i], c + 1, n); }
  }

  lemma {:induction false} ThenWithin(inp: Input, r: Regex, back: bool, c: nat, t: State, xs: seq<State>, c2: nat,
      n2: nat)
    requires AllAhead(inp, back, t, xs) && AllWithin(t, xs, c2, n2) && c2 <= c && c + Groups(r) <= c2 + n2
    ensures AllWithin(t, EcmaThen(inp, r, back, c, t, xs), c2, n2)
    decreases r, 1, 0, 0, |xs|
  {
    hide EcmaResults, Within, Groups;
    if xs != [] {
      EcmaWithin(inp, r, back, c, xs[0]);
      var ys := EcmaResults(inp, r, back, c, xs[0]);
      WithinWide(xs[0], ys, c, Groups(r), c2, n2);
      WithinThen(t, xs[0], ys, c2, n2);
      ThenWithin(inp, r, back, c, t, xs[1..], c2, n2);
    }
  }

  lemma {:induction false} RepeatWithin(inp: Input, r: Regex, n: nat, more: Option<nat>, greedy: bool, back: bool,
      c: nat, t: State)
    requires t.pos <= |inp.units|
    ensures AllWithin(t, EcmaRepeat(inp, r, n, more, greedy, back, c, t), c, Groups(r))
    decreases r, 3, n, 0, 0
  {
    hide EcmaResults, Within, Groups, ResetState, EcmaLoop;
    if n == 0 {
      LoopWithin(inp, r, more, greedy, back, c, t);
    } else {
      var u := ResetState(t, Groups(r), c);
      var xs := RoundResults(inp, r, back, c, t, u);
      ThenRepeatWithin(inp, r, n - 1, more, greedy, back, c, t, xs);
    }
  }

  /** One round from a state with cleared captures. */
  lemma {:induction false} RoundResults(inp: Input, r: Regex, back: bool, c: nat, t: State, u: State)
      returns (xs: seq<State>)
    requires t.pos <= |inp.units| && u == ResetState(t, Groups(r), c)
    ensures u.pos == t.pos && xs == EcmaResults(inp, r, back, c, u) && AllWithin(t, xs, c, Groups(r))
      && AllAhead(inp, back, t, xs)
    decreases r, 1, 1, 0, 0
  {
    xs := EcmaResults(inp, r, back, c, u);
    EcmaWithin(inp, r, back, c, u);
    hide EcmaResults, Within, Groups;
    ResetWithin(t, c, Groups(r));
    WithinThen(t, u, xs, c, Groups(r));
  }

  lemma {:induction false} ThenRepeatWithin(inp: Input, r: Regex, n: nat, more: Option<nat>, greedy: bool, back: bool,
      c: nat, t: State, xs: seq<State>)
    requires AllAhead(inp, back, t, xs) && AllWithin(t, xs, c, Groups(r))
    ensures AllWithin(t, EcmaThenRepeat(inp, r, n, more, greedy, back, c, t, xs), c, Groups(r))
    decreases r, 3, n, 1, |xs|
  {
    hide EcmaResults, Within, Groups, EcmaRepeat;
    if xs != [] {
      RepeatWithin(inp, r, n, more, greedy, back, c, xs[0]);
      WithinThen(t, xs[0], EcmaRepeat(inp, r, n, more, greedy, back, c, xs[0]), c, Groups(r));
      ThenRepeatWithin(inp, r, n, more, greedy, back, c, t, xs[1..]);
    }
  }

  lemma {:induction false} LoopWithin(inp: Input, r: Regex, more: Option<nat>, greedy: bool, back: bool, c: nat,
      t: State)
    requires t.pos <= |inp.units|
    ensures AllWithin(t, EcmaLoop(inp, r, more, greedy, back, c, t), c, Groups(r))
    decreases r, 2, Room(inp, back, t), 1, 0
  {
    hide EcmaResults, Within, Groups, ResetState, EcmaThenLoop, Moved;
    WithinSelf(t, c, Groups(r));
    if more != Some(0) {
      var u := ResetState(t, Groups(r), c);
      var xs := RoundResults(inp, r, back, c, t, u);
      ThenLoopWithin(inp, r, OneLess(more), greedy, back, c, t, Moved(t, xs));
    }
  }

  lemma {:induction false} ThenLoopWithin(inp: Input, r: Regex, more: Option<nat>, greedy: bool, back: bool, c: nat,
      t: State, xs: seq<State>)
    requires t.pos <= |inp.units| && AllWithin(t, xs, c, Groups(r))
    requires AllAhead(inp, back, t, xs) && forall k :: 0 <= k < |xs| ==> xs[k].pos != t.pos
    ensures AllWithin(t, EcmaThenLoop(inp, r, more, greedy, back, c, t, xs), c, Groups(r))
    decreases r, 2, Room(inp, back, t), 0, |xs|
  {
    hide EcmaResults, Within, Groups, EcmaLoop;
    if xs != [] {
      LoopWithin(inp, r, more, greedy, back, c, xs[0]);
      WithinThen(t, xs[0], EcmaLoop(inp, r, more, greedy, back, c, xs[0]), c, Groups(r));
      ThenLoopWithin(inp, r, more, greedy, back, c, t, xs[1..]);
    }
  }

  // The program against the standard.

  /** The program's state s has every capture of the standard's state t, and any other capture only in
      a group that may be stale. */
  ghost predicate Keeps(stale: set<nat>, s: State, t: State) {
    && s.pos == t.pos
    && (forall k :: k in t.caps ==> k in s.caps && s.caps[k] == t.caps[k])
    && (forall k :: k in s.caps && k / 2 !in stale ==> k in t.caps)
  }

  /** Pair by pair; the standard has not yet set the n groups from c on. */
  ghost predicate AllKeep(stale: set<nat>, xs: seq<State>, ys: seq<State>, c: nat, n: nat) {
    && |xs| == |ys|
    && (forall k :: 0 <= k < |xs| ==> Keeps(stale, xs[k], ys[k]))
    && (forall k :: 0 <= k < |ys| ==> Clear(ys[k], c, n))
  }

  lemma WithClear(stale: set<nat>, xs: seq<State>, ys: seq<State>, c: nat, n: nat)
    requires AllKeep(stale, xs, ys, 0, 0) && forall k :: 0 <= k < |ys| ==> Clear(ys[k], c, n)
    ensures AllKeep(stale, xs, ys, c, n)
  {
  }

  lemma KeepsMore(stale: set<nat>, more: set<nat>, s: State, t: State)
    requires Keeps(stale, s, t) && stale <= more
    ensures Keeps(more, s, t)
  {
  }

  lemma AllKeepMore(stale: set<nat>, more: set<nat>, xs: seq<State>, ys: seq<State>, c: nat, n: nat, c2: nat, n2: nat)
    requires AllKeep(stale, xs, ys, c, n) && stale <= more && c <= c2 && c2 + n2 <= c + n
    ensures AllKeep(more, xs, ys, c2, n2)
  {
    hide Keeps;
    forall k | 0 <= k < |xs| ensures Keeps(more, xs[k], ys[k]) { KeepsMore(stale, more, xs[k], ys[k]); }
  }

  lemma AllKeepAppend(stale: set<nat>, a: seq<State>, b: seq<State>, x: seq<State>, y: seq<State>)
    requires AllKeep(stale, a, b, 0, 0) && AllKeep(stale, x, y, 0, 0)
    ensures AllKeep(stale, a + x, b + y, 0, 0)
  {
    hide Keeps;
  }

  lemma {:induction false} MovedKeeps(stale: set<nat>, s: State, t: State, xs: seq<State>, ys: seq<State>)
    requires s.pos == t.pos && AllKeep(stale, xs, ys, 0, 0)
    ensures AllKeep(stale, Moved(s, xs), Moved(t, ys), 0, 0)
    decreases |xs|
  {
    if xs != [] {
      assert Keeps(stale, xs[0], ys[0]) && xs[0].pos == ys[0].pos;
      hide Keeps;
      MovedKeeps(stale, s, t, xs[1..], ys[1..]);
    }
  }

  /** Clearing in the standard only makes the cleared groups stale in the program. */
  lemma ResetKeeps(stale: set<nat>, s: State, t: State, c: nat, n: nat, more: set<nat>)
    requires Keeps(stale, s, t) && stale <= more
    requires GroupRange(c, n) <= more || Clear(t, c, n)
    ensures Keeps(more, s, ResetState(t, n, c))
  {
  }

  /** Clearing in the program only removes what the standard does not have. */
  lemma HeadKeeps(stale: set<nat>, s: State, t: State, c: nat, n: nat)
    requires Keeps(stale, s, t) && Clear(t, c, n)
    ensures Keeps(stale - GroupRange(c, n), ResetState(s, n, c), t)
  {
  }

  lemma RefKeeps(inp: Input, i: nat, icase: bool, back: bool, stale: set<nat>, s: State, t: State)
    requires s.pos <= |inp.units| && Keeps(stale, s, t) && i !in stale
    ensures RefEnd(inp, i, icase, back, s) == RefEnd(inp, i, icase, back, t)
  {
    assert (2 * i) / 2 == i && (2 * i + 1) / 2 == i;
  }

  lemma SetKeeps(stale: set<nat>, s: State, t: State, c: nat, isEnd: bool)
    requires Keeps(stale, s, t)
    ensures Keeps(stale, SetCap(s, c, isEnd), SetCap(t, c, isEnd))
  {
  }

  lemma CloseKeeps(stale: set<nat>, c: nat, n: nat, back: bool, t: State, xs: seq<State>, ys: seq<State>)
    requires AllKeep(stale, xs, ys, 0, 0) && AllWithin(SetCap(t, c, back), ys, c + 1, n)
    ensures AllKeep(stale - {c}, CloseGroup(c, back, xs), CloseGroup(c, back, ys), 0, 0)
  {
    var a, b := CloseGroup(c, back, xs), CloseGroup(c, back, ys);
    forall k | 0 <= k < |a| ensures Keeps(stale - {c}, a[k], b[k]) {
      CloseOne(stale, c, n, back, SetCap(t, c, back), xs[k], ys[k]);
    }
  }

  lemma CloseOne(stale: set<nat>, c: nat, n: nat, back: bool, u: State, x: State, y: State)
    requires Keeps(stale, x, y) && Within(u, y, c + 1, n) && 2 * c + (if back then 1 else 0) in u.caps
    ensures Keeps(stale - {c}, SetCap(x, c, !back), SetCap(y, c, !back))
  {
  }

  lemma StillClear(t: State, ys: seq<State>, c: nat, n: nat, c2: nat, n2: nat)
    requires AllWithin(t, ys, c, n) && Clear(t, c2, n2) && (c + n <= c2 || c2 + n2 <= c)
    ensures forall k :: 0 <= k < |ys| ==> Clear(ys[k], c2, n2)
  {
    hide Within, Clear;
    forall k | 0 <= k < |ys| ensures Clear(ys[k], c2, n2) { ClearOne(t, ys[k], c, n, c2, n2); }
  }

  lemma ClearOne(t: State, y: State, c: nat, n: nat, c2: nat, n2: nat)
    requires Within(t, y, c, n) && Clear(t, c2, n2) && (c + n <= c2 || c2 + n2 <= c)
    ensures Clear(y, c2, n2)
  {
  }

  lemma ClearPart(t: State, c: nat, n: nat, c2: nat, n2: nat)
    requires Clear(t, c, n) && c <= c2 && c2 + n2 <= c + n
    ensures Clear(t, c2, n2)
  {
  }

  lemma {:induction false} ResultsKeep(inp: Input, r: Regex, back: bool, c: nat, stale: set<nat>, s: State, t: State)
    requires s.pos == t.pos <= |inp.units| && Keeps(stale, s, t) && Clear(t, c, Groups(r)) && Safe(r, back, c, stale)
    ensures AllKeep(Stale(r, back, c, stale), Results(inp, r, back, c, s), EcmaResults(inp, r, back, c, t), 0, 0)
    decreases r, 0, 1, 0, 0
  {
    hide *;
    match r
    case Empty => LeafKeeps(inp, r, back, c, stale, s, t);
    case Atom(_) => LeafKeeps(inp, r, back, c, stale, s, t);
    case Assert(_) => LeafKeeps(inp, r, back, c, stale, s, t);
    case BackRef(_, _) => LeafKeeps(inp, r, back, c, stale, s, t);
    case Group(r1) => GroupKeeps(inp, r1, back, c, stale, s, t);
    case Sequence(r1, r2) => SequenceKeeps(inp, r1, r2, back, c, stale, s, t);
    case Either(r1, r2) => EitherKeeps(inp, r1, r2, back, c, stale, s, t);
    case Quantified(r1, min, max, greedy) => QuantifiedKeeps(inp, r1, min, max, greedy, back, c, stale, s, t);
    case Look(r1, negative, behind) => AroundKeeps(inp, r1, negative, behind, back, c, stale, s, t);
  }

  lemma LeafKeeps(inp: Input, r: Regex, back: bool, c: nat, stale: set<nat>, s: State, t: State)
    requires s.pos == t.pos <= |inp.units| && Keeps(stale, s, t) && Safe(r, back, c, stale)
    requires r.Empty? || r.Atom? || r.Assert? || r.BackRef?
    ensures AllKeep(Stale(r, back, c, stale), Results(inp, r, back, c, s), EcmaResults(inp, r, back, c, t), 0, 0)
  {
    hide Keeps, RefEnd, Satisfied, Accepts;
    AtomKeeps(stale, s, t);
    match r
    case BackRef(i, icase) => RefKeeps(inp, i, icase, back, stale, s, t);
    case _ =>
  }

  lemma GroupIs(inp: Input, r1: Regex, back: bool, c: nat, stale: set<nat>, s: State, t: State)
    requires s.pos <= |inp.units| && t.pos <= |inp.units|
    requires Clear(t, c, Groups(Group(r1))) && Safe(Group(r1), back, c, stale)
    ensures SetCap(s, c, back).pos == s.pos && SetCap(t, c, back).pos == t.pos
    ensures Results(inp, Group(r1), back, c, s) == CloseGroup(c, back,
      Results(inp, r1, back, c + 1, SetCap(s, c, back)))
    ensures EcmaResults(inp, Group(r1), back, c, t) == CloseGroup(c, back,
      EcmaResults(inp, r1, back, c + 1, SetCap(t, c, back)))
    ensures Clear(SetCap(t, c, back), c + 1, Groups(r1)) && Safe(r1, back, c + 1, stale)
    ensures Stale(Group(r1), back, c, stale) == Stale(r1, back, c + 1, stale) - {c}
  {
    hide CloseGroup;
    assert Groups(Group(r1)) == Groups(r1) + 1;
  }

  lemma {:induction false} GroupKeeps(inp: Input, r1: Regex, back: bool, c: nat, stale: set<nat>, s: State, t: State)
    requires s.pos == t.pos <= |inp.units| && Keeps(stale, s, t)
    requires Clear(t, c, Groups(Group(r1))) && Safe(Group(r1), back, c, stale)
    ensures AllKeep(Stale(Group(r1), back, c, stale), Results(inp, Group(r1), back, c, s),
      EcmaResults(inp, Group(r1), back, c, t), 0, 0)
    decreases Group(r1), 0, 0, 0, 0
  {
    hide *;
    var u, v := SetCap(s, c, back), SetCap(t, c, back);
    GroupIs(inp, r1, back, c, stale, s, t);
    SetKeeps(stale, s, t, c, back);
    ResultsKeep(inp, r1, back, c + 1, stale, u, v);
    EcmaWithin(inp, r1, back, c + 1, v);
    CloseKeeps(Stale(r1, back, c + 1, stale), c, Groups(r1), back, t, Results(inp, r1, back, c + 1, u),
      EcmaResults(inp, r1, back, c + 1, v));
  }

  lemma EitherSafe(r1: Regex, r2: Regex, back: bool, c: nat, stale: set<nat>)
    requires Safe(Either(r1, r2), back, c, stale)
    ensures Safe(r1, back, c, stale) && Safe(r2, back, c + Groups(r1), stale)
    ensures Stale(Either(r1, r2), back, c, stale) == Stale(r1, back, c, stale) + Stale(r2, back, c + Groups(r1), stale)
  {
  }

  lemma {:induction false} EitherKeeps(inp: Input, r1: Regex, r2: Regex, back: bool, c: nat, stale: set<nat>,
      s: State, t: State)
    requires s.pos == t.pos <= |inp.units| && Keeps(stale, s, t)
    requires Clear(t, c, Groups(Either(r1, r2))) && Safe(Either(r1, r2), back, c, stale)
    ensures AllKeep(Stale(Either(r1, r2), back, c, stale),
      Results(inp, Either(r1, r2), back, c, s), EcmaResults(inp, Either(r1, r2), back, c, t), 0, 0)
    decreases Either(r1, r2), 0, 0, 0, 0
  {
    hide *;
    var c2 := c + Groups(r1);
    GroupsAre(r1, r2);
    EitherSafe(r1, r2, back, c, stale);
    ClearPart(t, c, Groups(r1) + Groups(r2), c, Groups(r1));
    ClearPart(t, c, Groups(r1) + Groups(r2), c2, Groups(r2));
    EitherAre(inp, r1, r2, back, c, s);
    EcmaEitherAre(inp, r1, r2, back, c, t);
    ResultsKeep(inp, r1, back, c, stale, s, t);
    ResultsKeep(inp, r2, back, c2, stale, s, t);
    var all := Stale(Either(r1, r2), back, c, stale);
    var a, b := Results(inp, r1, back, c, s), EcmaResults(inp, r1, back, c, t);
    var x, y := Results(inp, r2, back, c2, s), EcmaResults(inp, r2, back, c2, t);
    AllKeepMore(Stale(r1, back, c, stale), all, a, b, 0, 0, 0, 0);
    AllKeepMore(Stale(r2, back, c2, stale), all, x, y, 0, 0, 0, 0);
    AllKeepAppend(all, a, b, x, y);
  }

  function Around(s: State, negative: bool, xs: seq<State>): seq<State> {
    if negative then (if xs == [] then [s] else []) else if xs == [] then [] else [State(s.pos, xs[0].caps)]
  }

  lemma LookIs(inp: Input, r1: Regex, negative: bool, behind: bool, back: bool, c: nat, stale: set<nat>, s: State,
      t: State)
    requires s.pos <= |inp.units| && t.pos <= |inp.units|
    requires Clear(t, c, Groups(Look(r1, negative, behind))) && Safe(Look(r1, negative, behind), back, c, stale)
    ensures Results(inp, Look(r1, negative, behind), back, c, s) == Around(s, negative, Results(inp, r1, behind, c, s))
    ensures EcmaResults(inp, Look(r1, negative, behind), back, c, t)
      == Around(t, negative, EcmaResults(inp, r1, behind, c, t))
    ensures Clear(t, c, Groups(r1)) && Safe(r1, behind, c, stale)
    ensures Stale(Look(r1, negative, behind), back, c, stale) == if negative then stale else Stale(r1, behind, c, stale)
  {
    hide Clear;
  }

  lemma {:induction false} AroundKeeps(inp: Input, r1: Regex, negative: bool, behind: bool, back: bool, c: nat,
      stale: set<nat>, s: State, t: State)
    requires s.pos == t.pos <= |inp.units| && Keeps(stale, s, t)
    requires Clear(t, c, Groups(Look(r1, negative, behind))) && Safe(Look(r1, negative, behind), back, c, stale)
    ensures AllKeep(Stale(Look(r1, negative, behind), back, c, stale),
      Results(inp, Look(r1, negative, behind), back, c, s), EcmaResults(inp, Look(r1, negative, behind), back, c, t),
        0, 0)
    decreases Look(r1, negative, behind), 0, 0, 0, 0
  {
    LookIs(inp, r1, negative, behind, back, c, stale, s, t);
    hide Keeps, Clear, Results, EcmaResults, Stale, Safe, Groups;
    ResultsKeep(inp, r1, behind, c, stale, s, t);
    LookKeeps(stale, Stale(r1, behind, c, stale), s, t, Results(inp, r1, behind, c, s),
      EcmaResults(inp, r1, behind, c, t));
    AtomKeeps(stale, s, t);
  }

  lemma AtomKeeps(stale: set<nat>, s: State, t: State)
    requires Keeps(stale, s, t)
    ensures s.pos == t.pos && forall p: nat :: Keeps(stale, s.(pos := p), t.(pos := p))
  {
  }

  lemma LookKeeps(stale: set<nat>, behind: set<nat>, s: State, t: State, xs: seq<State>, ys: seq<State>)
    requires Keeps(stale, s, t) && AllKeep(behind, xs, ys, 0, 0)
    ensures s.pos == t.pos && |xs| == |ys|
    ensures xs != [] ==> Keeps(behind, State(s.pos, xs[0].caps), State(t.pos, ys[0].caps))
  {
    if xs != [] { assert Keeps(behind, xs[0], ys[0]); }
  }

  lemma SequenceSafe(r1: Regex, r2: Regex, back: bool, c: nat, stale: set<nat>)
    requires Safe(Sequence(r1, r2), back, c, stale)
    ensures var first, second := if back then Stale(r2, back, c + Groups(r1), stale) else Stale(r1, back, c, stale),
      Stale(Sequence(r1, r2), back, c, stale);
      if back then
        Safe(r2, back, c + Groups(r1), stale) && Safe(r1, back, c, first) && second == Stale(r1, back, c, first)
      else
        && Safe(r1, back, c, stale) && Safe(r2, back, c + Groups(r1), first)
        && second == Stale(r2, back, c + Groups(r1), first)
  {
  }

  lemma {:induction false} SequenceKeeps(inp: Input, r1: Regex, r2: Regex, back: bool, c: nat, stale: set<nat>,
      s: State, t: State)
    requires s.pos == t.pos <= |inp.units| && Keeps(stale, s, t)
    requires Clear(t, c, Groups(Sequence(r1, r2))) && Safe(Sequence(r1, r2), back, c, stale)
    ensures AllKeep(Stale(Sequence(r1, r2), back, c, stale),
      Results(inp, Sequence(r1, r2), back, c, s), EcmaResults(inp, Sequence(r1, r2), back, c, t), 0, 0)
    decreases Sequence(r1, r2), 0, 0, 0, 0
  {
    hide *;
    SequenceAre(inp, r1, r2, back, c, s, t);
    GroupsAre(r1, r2);
    SequenceSafe(r1, r2, back, c, stale);
    ClearPart(t, c, Groups(r1) + Groups(r2), c, Groups(r1));
    ClearPart(t, c, Groups(r1) + Groups(r2), c + Groups(r1), Groups(r2));
    if back {
      var xs, ys := Results(inp, r2, back, c + Groups(r1), s), EcmaResults(inp, r2, back, c + Groups(r1), t);
      ResultsKeep(inp, r2, back, c + Groups(r1), stale, s, t);
      EcmaWithin(inp, r2, back, c + Groups(r1), t);
      StillClear(t, ys, c + Groups(r1), Groups(r2), c, Groups(r1));
      WithClear(Stale(r2, back, c + Groups(r1), stale), xs, ys, c, Groups(r1));
      ThenKeeps(inp, r1, back, c, Stale(r2, back, c + Groups(r1), stale), s, t, xs, ys);
    } else {
      var xs, ys := Results(inp, r1, back, c, s), EcmaResults(inp, r1, back, c, t);
      ResultsKeep(inp, r1, back, c, stale, s, t);
      EcmaWithin(inp, r1, back, c, t);
      StillClear(t, ys, c, Groups(r1), c + Groups(r1), Groups(r2));
      WithClear(Stale(r1, back, c, stale), xs, ys, c + Groups(r1), Groups(r2));
      ThenKeeps(inp, r2, back, c + Groups(r1), Stale(r1, back, c, stale), s, t, xs, ys);
    }
  }

  lemma {:induction false} ThenKeeps(inp: Input, r: Regex, back: bool, c: nat, stale: set<nat>, s: State, t: State,
      xs: seq<State>, ys: seq<State>)
    requires AllAhead(inp, back, s, xs) && AllAhead(inp, back, t, ys) && AllKeep(stale, xs, ys, c, Groups(r))
      && Safe(r, back, c, stale)
    ensures AllKeep(Stale(r, back, c, stale), ThenResults(inp, r, back, c, s, xs), EcmaThen(inp, r, back, c, t, ys),
      0, 0)
    decreases r, 1, 0, 0, |xs|
  {
    hide Results, EcmaResults, Keeps, Stale, Groups, Safe, Clear;
    if xs != [] {
      assert Keeps(stale, xs[0], ys[0]) && Clear(ys[0], c, Groups(r));
      AtomKeeps(stale, xs[0], ys[0]);
      ResultsKeep(inp, r, back, c, stale, xs[0], ys[0]);
      ThenKeeps(inp, r, back, c, stale, s, t, xs[1..], ys[1..]);
      AllKeepAppend(Stale(r, back, c, stale), Results(inp, r, back, c, xs[0]), EcmaResults(inp, r, back, c, ys[0]),
        ThenResults(inp, r, back, c, s, xs[1..]), EcmaThen(inp, r, back, c, t, ys[1..]));
    }
  }

  /** What the loops need: a round entered with `entry` stale leaves at most `head` stale, and whenever
      there may be another round, `entry` covers what it finds. */
  ghost predicate Rounds(r: Regex, back: bool, c: nat, entry: set<nat>, head: set<nat>, again: bool) {
    && Safe(r, back, c, entry) && Stale(r, back, c, entry) <= head
    && (again ==> head + GroupRange(c, Groups(r)) <= entry)
  }

  lemma {:induction false} QuantifiedKeeps(inp: Input, r1: Regex, min: nat, max: nat, greedy: bool, back: bool,
      c: nat, stale: set<nat>, s: State, t: State)
    requires s.pos == t.pos <= |inp.units| && Keeps(stale, s, t)
    requires Clear(t, c, Groups(Quantified(r1, min, max, greedy)))
      && Safe(Quantified(r1, min, max, greedy), back, c, stale)
    ensures AllKeep(Stale(Quantified(r1, min, max, greedy), back, c, stale),
      Results(inp, Quantified(r1, min, max, greedy), back, c, s),
        EcmaResults(inp, Quantified(r1, min, max, greedy), back, c, t), 0, 0)
    decreases r1, 5, 0, 0, 0
  {
    var g := GroupRange(c, Groups(r1));
    var entry, head := AtRound(r1, min, max, c, stale), Stale(Quantified(r1, min, max, greedy), back, c, stale);
    var s0 := if min == 0 then ResetState(s, Groups(r1), c) else s;
    QuantifiedSafe(r1, min, max, greedy, back, c, stale);
    hide Keeps, Clear, Results, EcmaResults, GroupRange, Rounds, Safe;
    if min == 0 { HeadKeeps(stale, s, t, c, Groups(r1)); }
    assert Keeps(AtHead(r1, min, c, stale), s0, t);
    ResetKeeps(AtHead(r1, min, c, stale), s0, t, c, Groups(r1), entry);
    if min == 0 { KeepsMore(AtHead(r1, min, c, stale), head, s0, t); }
    RepeatKeeps(inp, r1, min, OptionalRounds(min, max), greedy, back, c, entry, head, s0, t);
    QuantifiedAre(inp, r1, min, max, greedy, back, c, s, t);
  }

  lemma QuantifiedSafe(r1: Regex, min: nat, max: nat, greedy: bool, back: bool, c: nat, stale: set<nat>)
    requires Safe(Quantified(r1, min, max, greedy), back, c, stale)
    ensures var more := OptionalRounds(min, max);
      Rounds(r1, back, c, AtRound(r1, min, max, c, stale), Stale(Quantified(r1, min, max, greedy), back, c, stale),
        min > 1 || (min == 1 && more != Some(0)) || (min == 0 && more != Some(0) && more != Some(1)))
  {
    hide GroupRange;
    StaleBound(r1, back, c, AtRound(r1, min, max, c, stale));
  }

  lemma {:induction false} RepeatKeeps(inp: Input, r: Regex, n: nat, more: Option<nat>, greedy: bool, back: bool,
      c: nat,
      entry: set<nat>, head: set<nat>, s: State, t: State)
    requires s.pos <= |inp.units| && s.pos == t.pos
    requires n > 0 || more != Some(0) ==> Keeps(entry, s, ResetState(t, Groups(r), c))
    requires n == 0 ==> Keeps(head, s, t)
    requires Rounds(r, back, c, entry, head, n > 1 || (n == 1 && more != Some(0))
      || (n == 0 && more != Some(0) && more != Some(1)))
    ensures AllKeep(head, RepeatResults(inp, r, n, more, greedy, back, c, s),
      EcmaRepeat(inp, r, n, more, greedy, back, c, t), 0, 0)
    decreases r, 3, n, 0, 0
  {
    hide Results, EcmaResults, Keeps, Rounds, LoopResults, EcmaLoop, ResetState;
    if n == 0 {
      LoopKeeps(inp, r, more, greedy, back, c, entry, head, s, t);
    } else {
      var again := n > 1 || more != Some(0);
      var u := ResetState(t, Groups(r), c);
      RoundKeeps(inp, r, back, c, entry, head, again, s, t, u);
      ThenRepeatKeeps(inp, r, n - 1, more, greedy, back, c, entry, head, s, t, Results(inp, r, back, c, s),
        EcmaResults(inp, r, back, c, u));
    }
  }

  lemma {:induction false} RoundKeeps(inp: Input, r: Regex, back: bool, c: nat, entry: set<nat>, head: set<nat>,
      again: bool, s: State, t: State, u: State)
    requires s.pos <= |inp.units| && s.pos == t.pos && u == ResetState(t, Groups(r), c) && Keeps(entry, s, u)
    requires Rounds(r, back, c, entry, head, again)
    ensures u.pos == t.pos && AllKeep(head, Results(inp, r, back, c, s), EcmaResults(inp, r, back, c, u), 0, 0)
    ensures AllAhead(inp, back, t, EcmaResults(inp, r, back, c, u))
    decreases r, 1, 1, 0, 0
  {
    ResetWithin(t, c, Groups(r));
    ResultsKeep(inp, r, back, c, entry, s, u);
    hide Results, EcmaResults, Keeps, Stale;
    AllKeepMore(Stale(r, back, c, entry), head, Results(inp, r, back, c, s), EcmaResults(inp, r, back, c, u), 0, 0, 0,
      0);
  }

  /** The next round finds no more than `entry` stale. */
  lemma EnterKeeps(r: Regex, back: bool, c: nat, entry: set<nat>, head: set<nat>, s: State, t: State)
    requires Keeps(head, s, t) && Rounds(r, back, c, entry, head, true)
    ensures Keeps(entry, s, ResetState(t, Groups(r), c))
  {
    hide Keeps, ResetState;
    ResetKeeps(head, s, t, c, Groups(r), entry);
  }

  lemma {:induction false} ThenRepeatKeeps(inp: Input, r: Regex, n: nat, more: Option<nat>, greedy: bool, back: bool,
      c: nat,
      entry: set<nat>, head: set<nat>, s: State, t: State, xs: seq<State>, ys: seq<State>)
    requires AllAhead(inp, back, s, xs) && AllAhead(inp, back, t, ys) && AllKeep(head, xs, ys, 0, 0)
    requires Rounds(r, back, c, entry, head, n > 0 || more != Some(0))
    ensures AllKeep(head, ThenRepeat(inp, r, n, more, greedy, back, c, s, xs),
      EcmaThenRepeat(inp, r, n, more, greedy, back, c, t, ys), 0, 0)
    decreases r, 3, n, 1, |xs|
  {
    hide Results, EcmaResults, Rounds, RepeatResults, EcmaRepeat, ResetState;
    if xs != [] {
      assert Keeps(head, xs[0], ys[0]) && xs[0].pos == ys[0].pos;
      hide Keeps;
      if n > 0 || more != Some(0) { EnterKeeps(r, back, c, entry, head, xs[0], ys[0]); }
      WeakerRounds(r, back, c, entry, head, n > 0 || more != Some(0));
      RepeatKeeps(inp, r, n, more, greedy, back, c, entry, head, xs[0], ys[0]);
      ThenRepeatKeeps(inp, r, n, more, greedy, back, c, entry, head, s, t, xs[1..], ys[1..]);
      AllKeepAppend(head, RepeatResults(inp, r, n, more, greedy, back, c, xs[0]),
        EcmaRepeat(inp, r, n, more, greedy, back, c, ys[0]),
        ThenRepeat(inp, r, n, more, greedy, back, c, s, xs[1..]),
          EcmaThenRepeat(inp, r, n, more, greedy, back, c, t, ys[1..]));
    }
  }

  lemma WeakerRounds(r: Regex, back: bool, c: nat, entry: set<nat>, head: set<nat>, again: bool)
    requires Rounds(r, back, c, entry, head, again)
    ensures Rounds(r, back, c, entry, head, false)
  {
  }

  lemma {:induction false} LoopKeeps(inp: Input, r: Regex, more: Option<nat>, greedy: bool, back: bool, c: nat,
      entry: set<nat>, head: set<nat>, s: State, t: State)
    requires s.pos <= |inp.units| && s.pos == t.pos && Keeps(head, s, t)
    requires more != Some(0) ==> Keeps(entry, s, ResetState(t, Groups(r), c))
    requires Rounds(r, back, c, entry, head, more != Some(0) && more != Some(1))
    ensures AllKeep(head, LoopResults(inp, r, more, greedy, back, c, s), EcmaLoop(inp, r, more, greedy, back, c, t),
      0, 0)
    decreases r, 2, Room(inp, back, s), 1, 0
  {
    hide Results, EcmaResults, Keeps, Rounds, ThenLoop, EcmaThenLoop, Moved, ResetState;
    if more != Some(0) {
      var u := ResetState(t, Groups(r), c);
      RoundKeeps(inp, r, back, c, entry, head, more != Some(1), s, t, u);
      var xs, ys := Moved(s, Results(inp, r, back, c, s)), Moved(t, EcmaResults(inp, r, back, c, u));
      MovedKeeps(head, s, t, Results(inp, r, back, c, s), EcmaResults(inp, r, back, c, u));
      ThenLoopKeeps(inp, r, OneLess(more), greedy, back, c, entry, head, s, t, xs, ys);
      var a, b := ThenLoop(inp, r, OneLess(more), greedy, back, c, s, xs),
        EcmaThenLoop(inp, r, OneLess(more), greedy, back, c, t, ys);
      AllKeepAppend(head, a, b, [s], [t]);
      AllKeepAppend(head, [s], [t], a, b);
    }
  }

  lemma {:induction false} ThenLoopKeeps(inp: Input, r: Regex, more: Option<nat>, greedy: bool, back: bool, c: nat,
      entry: set<nat>, head: set<nat>, s: State, t: State, xs: seq<State>, ys: seq<State>)
    requires s.pos <= |inp.units| && s.pos == t.pos && AllKeep(head, xs, ys, 0, 0)
    requires AllAhead(inp, back, s, xs) && forall k :: 0 <= k < |xs| ==> xs[k].pos != s.pos
    requires AllAhead(inp, back, t, ys) && forall k :: 0 <= k < |ys| ==> ys[k].pos != t.pos
    requires Rounds(r, back, c, entry, head, more != Some(0))
    ensures AllKeep(head, ThenLoop(inp, r, more, greedy, back, c, s, xs),
      EcmaThenLoop(inp, r, more, greedy, back, c, t, ys), 0, 0)
    decreases r, 2, Room(inp, back, s), 0, |xs|
  {
    hide Results, EcmaResults, Rounds, LoopResults, EcmaLoop, ResetState;
    if xs != [] {
      assert Keeps(head, xs[0], ys[0]) && xs[0].pos == ys[0].pos;
      hide Keeps;
      if more != Some(0) { EnterKeeps(r, back, c, entry, head, xs[0], ys[0]); }
      WeakerRounds(r, back, c, entry, head, more != Some(0));
      LoopKeeps(inp, r, more, greedy, back, c, entry, head, xs[0], ys[0]);
      ThenLoopKeeps(inp, r, more, greedy, back, c, entry, head, s, t, xs[1..], ys[1..]);
      AllKeepAppend(head, LoopResults(inp, r, more, greedy, back, c, xs[0]),
        EcmaLoop(inp, r, more, greedy, back, c, ys[0]),
        ThenLoop(inp, r, more, greedy, back, c, s, xs[1..]), EcmaThenLoop(inp, r, more, greedy, back, c, t, ys[1..]));
    }
  }

  // What follows.

  /** What the parser guarantees of the bounds of quantifiers. */
  predicate Bounded(r: Regex) {
    match r
    case Empty | Atom(_) | Assert(_) | BackRef(_, _) => true
    case Group(r1) => Bounded(r1)
    case Sequence(r1, r2) => Bounded(r1) && Bounded(r2)
    case Either(r1, r2) => Bounded(r1) && Bounded(r2)
    case Quantified(r1, min, max, _) => min <= max && Bounded(r1)
    case Look(r1, _, _) => Bounded(r1)
  }

  lemma {:induction false} NoBackRefsSafe(r: Regex, back: bool, c: nat, stale: set<nat>)
    requires NoBackRefs(r) && Bounded(r)
    ensures Safe(r, back, c, stale)
    decreases r
  {
    match r
    case Group(r1) => NoBackRefsSafe(r1, back, c + 1, stale);
    case Sequence(r1, r2) =>
      NoBackRefsSafe(r1, back, c, stale);
      NoBackRefsSafe(r2, back, c + Groups(r1), stale);
      NoBackRefsSafe(r1, back, c, Stale(r2, back, c + Groups(r1), stale));
      NoBackRefsSafe(r2, back, c + Groups(r1), Stale(r1, back, c, stale));
    case Either(r1, r2) =>
      NoBackRefsSafe(r1, back, c, stale);
      NoBackRefsSafe(r2, back, c + Groups(r1), stale);
    case Quantified(r1, min, max, _) => NoBackRefsSafe(r1, back, c, AtRound(r1, min, max, c, stale));
    case Look(r1, _, behind) => NoBackRefsSafe(r1, behind, c, stale);
    case _ =>
  }

  /** Every capture that the standard defines the program defines with the same value. */
  ghost predicate Extends(s: State, t: State) {
    s.pos == t.pos && forall k :: k in t.caps ==> k in s.caps && s.caps[k] == t.caps[k]
  }

  /** Without back references the program finds the matches of the standard, in its order, with its
      captures; it can only have further captures, in groups that the analysis finds stale. */
  lemma OnlyMoreCaptures(inp: Input, r: Regex, back: bool, c: nat, s: State, k: nat)
    requires s.pos <= |inp.units| && NoBackRefs(r) && Bounded(r) && Clear(s, c, Groups(r))
    ensures |Results(inp, r, back, c, s)| == |EcmaResults(inp, r, back, c, s)|
    ensures k < |Results(inp, r, back, c, s)| ==>
      var x, y := Results(inp, r, back, c, s)[k], EcmaResults(inp, r, back, c, s)[k];
      Extends(x, y) && forall i :: i in x.caps && i !in y.caps ==> i / 2 in Stale(r, back, c, {})
  {
    var xs, ys := Results(inp, r, back, c, s), EcmaResults(inp, r, back, c, s);
    NoBackRefsSafe(r, back, c, {});
    assert Keeps({}, s, s);
    ResultsKeep(inp, r, back, c, {}, s, s);
    if k < |xs| { assert Keeps(Stale(r, back, c, {}), xs[k], ys[k]); }
  }

  /** When the analysis finds nothing stale, the program agrees with the standard in everything, back
      references to groups that cannot be stale included. */
  lemma NothingStale(inp: Input, r: Regex, back: bool, c: nat, s: State)
    requires s.pos <= |inp.units| && Clear(s, c, Groups(r)) && Safe(r, back, c, {}) && Stale(r, back, c, {}) == {}
    ensures Results(inp, r, back, c, s) == EcmaResults(inp, r, back, c, s)
  {
    var xs, ys := Results(inp, r, back, c, s), EcmaResults(inp, r, back, c, s);
    assert Keeps({}, s, s);
    ResultsKeep(inp, r, back, c, {}, s, s);
    forall k | 0 <= k < |xs| ensures xs[k] == ys[k] {
      assert Keeps({}, xs[k], ys[k]);
      assert xs[k].caps == ys[k].caps;
    }
  }
}
