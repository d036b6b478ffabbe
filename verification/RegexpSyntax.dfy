/** Patterns and what they mean: the ordered list of all ways to match.

    The meaning is the backtracking semantics of section 22.2.2 of ECMA-262 written
    with lists instead of continuations, so the answer of a match is the first element.
    One point follows the program and not that section: the captures inside a
    quantified group are reset once before the loop, and only when its minimum is 0. */
module RegexpSyntax {
  import opened CharSets
  import opened Options
  import opened RegexpInput
  import opened RegexpBytecode

  datatype CharTest =
    | Literal(c: nat, icase: bool)
    | DotChar
    | AnyChar
    | Class(points: seq<nat>, icase: bool)

  datatype Regex =
    | Empty
    | Atom(test: CharTest)
    | Assert(a: Assertion)
    | BackRef(index: nat, icase: bool)
    | Group(body: Regex)
    | Sequence(first: Regex, second: Regex)
    | Either(left: Regex, right: Regex)
    | Quantified(body: Regex, min: nat, max: nat, greedy: bool)
    | Look(body: Regex, negative: bool, behind: bool)

  /** The number of capturing groups of a pattern. */
  function Groups(r: Regex): nat {
    match r
    case Empty | Atom(_) | Assert(_) | BackRef(_, _) => 0
    case Group(r1) => 1 + Groups(r1)
    case Sequence(r1, r2) => Groups(r1) + Groups(r2)
    case Either(r1, r2) => Groups(r1) + Groups(r2)
    case Quantified(r1, _, _, _) => Groups(r1)
    case Look(r1, _, _) => Groups(r1)
  }

  /** What the parser guarantees of a pattern inside a program with `captures` groups. */
  ghost predicate ValidRegex(r: Regex, captures: nat) {
    match r
    case Empty | Assert(_) => true
    case Atom(Literal(c, _)) => c < CHAR_LIMIT
    case Atom(Class(points, _)) => CharacterSet(points) && |points| / 2 < 65535
    case Atom(_) => true
    case BackRef(i, _) => i < captures
    case Group(r1) => ValidRegex(r1, captures)
    case Sequence(r1, r2) => ValidRegex(r1, captures) && ValidRegex(r2, captures)
    case Either(r1, r2) => ValidRegex(r1, captures) && ValidRegex(r2, captures)
    case Quantified(r1, min, max, _) => min <= max <= INT32_MAX && ValidRegex(r1, captures)
    case Look(r1, _, _) => ValidRegex(r1, captures)
  }

  // Characters and assertions.

  predicate IsLineTerminator(c: nat) { c == 0x0A || c == 0x0D || c == 0x2028 || c == 0x2029 }

  predicate IsWordChar(c: nat) {
    0x30 <= c <= 0x39 || 0x61 <= c <= 0x7A || 0x41 <= c <= 0x5A || c == 0x5F
  }

  function Fold(inp: Input, icase: bool, c: nat): nat { if icase then inp.canon(c) else c }

  predicate Accepts(inp: Input, t: CharTest, c: nat) {
    match t
    case Literal(x, icase) => Fold(inp, icase, c) == Fold(inp, icase, x)
    case DotChar => !IsLineTerminator(c)
    case AnyChar => true
    case Class(points, icase) => InSome(points, Fold(inp, icase, c))
  }

  predicate WordBefore(inp: Input, icase: bool, pos: nat)
    requires pos <= |inp.units|
  {
    pos > 0 && IsWordChar(Fold(inp, icase, PrevCharAt(inp, pos)))
  }

  predicate WordAfter(inp: Input, icase: bool, pos: nat)
    requires pos <= |inp.units|
  {
    pos < |inp.units| && IsWordChar(Fold(inp, icase, CharAt(inp, pos)))
  }

  predicate Satisfied(inp: Input, a: Assertion, pos: nat)
    requires pos <= |inp.units|
  {
    match a
    case LineStart(multi) => pos == 0 || (multi && IsLineTerminator(PrevCharAt(inp, pos)))
    case LineEnd(multi) => pos == |inp.units| || (multi && IsLineTerminator(CharAt(inp, pos)))
    case WordBoundary(negated, icase) =>
      (WordBefore(inp, icase, pos) != WordAfter(inp, icase, pos)) != negated
  }

  // Match states.  An absent key is a capture position that is not set.

  datatype State = State(pos: nat, caps: map<nat, nat>)

  /** Compares the text from `from` up to `end` with the text at `pos`. */
  function ForwardRef(inp: Input, icase: bool, from: nat, end: nat, pos: nat): (r: Option<nat>)
    requires pos <= |inp.units| && end <= |inp.units|
    ensures r.Some? ==> pos <= r.value <= |inp.units|
    decreases if from < end then end - from else 0
  {
    if from >= end then Some(pos)
    else if pos >= |inp.units| then None
    else
      var (c1, from1) := GetCharTo(inp, from, end);
      if Fold(inp, icase, c1) != Fold(inp, icase, CharAt(inp, pos)) then None
      else ForwardRef(inp, icase, from1, end, Next(inp, pos))
  }

  /** Compares the text from `from` down to `start` with the text before `pos`. */
  function BackwardRef(inp: Input, icase: bool, from: nat, start: nat, pos: nat): (r: Option<nat>)
    requires pos <= |inp.units| && from <= |inp.units|
    ensures r.Some? ==> r.value <= pos
    decreases from
  {
    if from <= start then Some(pos)
    else if pos == 0 then None
    else
      var (c1, from1) := GetPrevCharFrom(inp, from, start);
      if Fold(inp, icase, c1) != Fold(inp, icase, PrevCharAt(inp, pos)) then None
      else BackwardRef(inp, icase, from1, start, Prev(inp, pos))
  }

  /** A back reference; a group that is not set matches the empty text. */
  function RefEnd(inp: Input, index: nat, icase: bool, back: bool, s: State): (r: Option<nat>)
    requires s.pos <= |inp.units|
    ensures r.Some? ==> r.value <= |inp.units| && (if back then r.value <= s.pos else s.pos <= r.value)
  {
    if 2 * index !in s.caps || 2 * index + 1 !in s.caps then Some(s.pos)
    else
      var start, end := s.caps[2 * index], s.caps[2 * index + 1];
      if start > |inp.units| || end > |inp.units| then None
      else if back then BackwardRef(inp, icase, end, start, s.pos)
      else ForwardRef(inp, icase, start, end, s.pos)
  }

  /** Clears the captures of the groups first..last. */
  function ResetCaps(caps: map<nat, nat>, first: nat, last: nat): map<nat, nat> {
    map k | k in caps && !(2 * first <= k <= 2 * last + 1) :: caps[k]
  }

  /** What a quantifier with minimum 0 does before its first round. */
  function ResetState(s: State, groups: nat, c: nat): State {
    if groups > 0 then s.(caps := ResetCaps(s.caps, c, c + groups - 1)) else s
  }

  function SetCap(s: State, index: nat, isEnd: bool): State {
    s.(caps := s.caps[2 * index + (if isEnd then 1 else 0) := s.pos])
  }

  // The results of a pattern, in order of preference.  `back` is the direction of a
  // lookbehind, `c` the index of the first group of the pattern.

  predicate Ahead(inp: Input, back: bool, s: State, x: State) {
    x.pos <= |inp.units| && (if back then x.pos <= s.pos else s.pos <= x.pos)
  }

  predicate AllAhead(inp: Input, back: bool, s: State, xs: seq<State>) {
    forall k :: 0 <= k < |xs| ==> Ahead(inp, back, s, xs[k])
  }

  /** The room that is left in the direction of the match. */
  function Room(inp: Input, back: bool, s: State): nat
    requires s.pos <= |inp.units|
  {
    if back then s.pos else |inp.units| - s.pos
  }

  function AtomResults(inp: Input, t: CharTest, back: bool, s: State): (xs: seq<State>)
    requires s.pos <= |inp.units|
    ensures AllAhead(inp, back, s, xs)
  {
    if back then
      if s.pos > 0 && Accepts(inp, t, PrevCharAt(inp, s.pos)) then [s.(pos := Prev(inp, s.pos))] else []
    else
      if s.pos < |inp.units| && Accepts(inp, t, CharAt(inp, s.pos)) then [s.(pos := Next(inp, s.pos))] else []
  }

  function CloseGroup(c: nat, back: bool, xs: seq<State>): (ys: seq<State>)
    ensures |ys| == |xs| && forall k :: 0 <= k < |xs| ==> ys[k] == SetCap(xs[k], c, !back)
  {
    seq(|xs|, k requires 0 <= k < |xs| => SetCap(xs[k], c, !back))
  }

  /** The states that are not where s0 is: a round that does not move fails. */
  function Moved(s0: State, xs: seq<State>): (ys: seq<State>)
    ensures forall k :: 0 <= k < |ys| ==> ys[k] in xs && ys[k].pos != s0.pos
  {
    if xs == [] then [] else (if xs[0].pos == s0.pos then [] else [xs[0]]) + Moved(s0, xs[1..])
  }

  /** Infinity is INT32_MAX in the program; here the optional rounds are None for it. */
  function OptionalRounds(min: nat, max: nat): Option<nat> {
    if max == INT32_MAX then None else Some(if max > min then max - min else 0)
  }

  function OneLess(k: Option<nat>): Option<nat> {
    if k.Some? && k.value > 0 then Some(k.value - 1) else k
  }

  function Results(inp: Input, r: Regex, back: bool, c: nat, s: State): (xs: seq<State>)
    requires s.pos <= |inp.units|
    ensures AllAhead(inp, back, s, xs)
    decreases r, 0, 0, 0, 0
  {
    match r
    case Empty => [s]
    case Atom(t) => AtomResults(inp, t, back, s)
    case Assert(a) => if Satisfied(inp, a, s.pos) then [s] else []
    case BackRef(i, icase) =>
      var e := RefEnd(inp, i, icase, back, s);
      if e.Some? then [s.(pos := e.value)] else []
    case Group(r1) => CloseGroup(c, back, Results(inp, r1, back, c + 1, SetCap(s, c, back)))
    case Sequence(r1, r2) =>
      if back then ThenResults(inp, r1, back, c, s, Results(inp, r2, back, c + Groups(r1), s))
      else ThenResults(inp, r2, back, c + Groups(r1), s, Results(inp, r1, back, c, s))
    case Either(r1, r2) => Results(inp, r1, back, c, s) + Results(inp, r2, back, c + Groups(r1), s)
    case Quantified(r1, min, max, greedy) =>
      var s0 := if min == 0 then ResetState(s, Groups(r1), c) else s;
      RepeatResults(inp, r1, min, OptionalRounds(min, max), greedy, back, c, s0)
    case Look(r1, negative, behind) =>
      var xs := Results(inp, r1, behind, c, s);
      if negative then (if xs == [] then [s] else [])
      else if xs == [] then [] else [State(s.pos, xs[0].caps)]
  }

  /** The results of r behind each of the states xs, which are ahead of s0. */
  function ThenResults(inp: Input, r: Regex, back: bool, c: nat, s0: State, xs: seq<State>): (ys: seq<State>)
    requires AllAhead(inp, back, s0, xs)
    ensures AllAhead(inp, back, s0, ys)
    decreases r, 1, 0, 0, |xs|
  {
    if xs == [] then [] else
      Results(inp, r, back, c, xs[0]) + ThenResults(inp, r, back, c, s0, xs[1..])
  }

  /** n rounds that must happen, then up to `more` optional ones. */
  function RepeatResults(inp: Input, r: Regex, n: nat, more: Option<nat>, greedy: bool, back: bool, c: nat, s: State)
    : (xs: seq<State>)
    requires s.pos <= |inp.units|
    ensures AllAhead(inp, back, s, xs)
    decreases r, 3, n, 0, 0
  {
    if n == 0 then LoopResults(inp, r, more, greedy, back, c, s)
    else ThenRepeat(inp, r, n - 1, more, greedy, back, c, s, Results(inp, r, back, c, s))
  }

  function ThenRepeat(inp: Input, r: Regex, n: nat, more: Option<nat>, greedy: bool, back: bool, c: nat, s0: State,
      xs: seq<State>)
    : (ys: seq<State>)
    requires AllAhead(inp, back, s0, xs)
    ensures AllAhead(inp, back, s0, ys)
    decreases r, 3, n, 1, |xs|
  {
    if xs == [] then [] else
      RepeatResults(inp, r, n, more, greedy, back, c, xs[0])
      + ThenRepeat(inp, r, n, more, greedy, back, c, s0, xs[1..])
  }

  /** Up to `more` optional rounds. */
  function LoopResults(inp: Input, r: Regex, more: Option<nat>, greedy: bool, back: bool, c: nat, s: State)
    : (xs: seq<State>)
    requires s.pos <= |inp.units|
    ensures AllAhead(inp, back, s, xs)
    decreases r, 2, Room(inp, back, s), 1, 0
  {
    if more == Some(0) then [s]
    else
      var again := ThenLoop(inp, r, OneLess(more), greedy, back, c, s, Moved(s, Results(inp, r, back, c, s)));
      if greedy then again + [s] else [s] + again
  }

  function ThenLoop(inp: Input, r: Regex, more: Option<nat>, greedy: bool, back: bool, c: nat, s0: State,
      xs: seq<State>)
    : (ys: seq<State>)
    requires s0.pos <= |inp.units|
    requires AllAhead(inp, back, s0, xs) && forall k :: 0 <= k < |xs| ==> xs[k].pos != s0.pos
    ensures AllAhead(inp, back, s0, ys)
    decreases r, 2, Room(inp, back, s0), 0, |xs|
  {
    if xs == [] then [] else
      LoopResults(inp, r, more, greedy, back, c, xs[0])
      + ThenLoop(inp, r, more, greedy, back, c, s0, xs[1..])
  }

  /** All matches of a whole pattern: at s, and, unless sticky, at every later character. */
  function SearchResults(inp: Input, r: Regex, sticky: bool, s: State): (xs: seq<State>)
    requires s.pos <= |inp.units|
    ensures AllAhead(inp, false, s, xs)
    decreases |inp.units| - s.pos
  {
    var here := CloseGroup(0, false, Results(inp, r, false, 1, SetCap(s, 0, false)));
    if sticky || s.pos == |inp.units| then here
    else here + SearchResults(inp, r, sticky, s.(pos := Next(inp, s.pos)))
  }
}
