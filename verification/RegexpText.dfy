/** What the parts of a pattern that read the text accept, said of the characters of stretches of text.

    The characters are decoded here once more, front to back and without the reading functions of
    the matcher. */
module RegexpText {
  import opened CharSets
  import opened Options
  import opened RegexpInput
  import opened RegexpBytecode
  import opened RegexpSyntax

  /** The characters of the units from..end, as if the text ended there. */
  function Chars(inp: Input, from: nat, end: nat): (cs: seq<nat>)
    requires end <= |inp.units|
    ensures cs == [] <==> from >= end
    decreases if from < end then end - from else 0
  {
    if from >= end then []
    else if inp.utf16 && from + 1 < end && 0xD800 <= inp.units[from] < 0xDC00 <= inp.units[from + 1] < 0xE000 then
      [0x10000 + inp.units[from] % 0x400 * 0x400 + inp.units[from + 1] % 0x400] + Chars(inp, from + 2, end)
    else [inp.units[from]] + Chars(inp, from + 1, end)
  }

  function Folded(inp: Input, icase: bool, cs: seq<nat>): (r: seq<nat>)
    ensures |r| == |cs| && forall i :: 0 <= i < |cs| ==> r[i] == if icase then inp.canon(cs[i]) else cs[i]
  {
    if cs == [] then [] else [if icase then inp.canon(cs[0]) else cs[0]] + Folded(inp, icase, cs[1..])
  }

  // The reading functions.

  lemma CharsFirst(inp: Input, from: nat, end: nat)
    requires from < end <= |inp.units|
    ensures var (c, next) := GetCharTo(inp, from, end); Chars(inp, from, end) == [c] + Chars(inp, next, end)
  {
  }

  /** Reading back from the end finds the last character. */
  lemma {:induction false} CharsLast(inp: Input, from: nat, end: nat)
    requires from < end <= |inp.units|
    ensures var (c, prev) := GetPrevCharFrom(inp, end, from); Chars(inp, from, end) == Chars(inp, from, prev) + [c]
    decreases end - from
  {
    var (c, prev) := GetPrevCharFrom(inp, end, from);
    if from < prev {
      var (d, next) := GetCharTo(inp, from, end);
      CharsFirst(inp, from, end);
      CharsFirst(inp, from, prev);
      CharsLast(inp, next, end);
    } else {
      CharsFirst(inp, from, end);
    }
  }

  /** Up to a boundary, reading is not limited. */
  lemma CharsAhead(inp: Input, pos: nat, e: nat)
    requires Boundary(inp, e) && pos < e
    ensures Next(inp, pos) <= e && Chars(inp, pos, e) == [CharAt(inp, pos)] + Chars(inp, Next(inp, pos), e)
  {
    CharsFirst(inp, pos, e);
  }

  lemma CharsBehind(inp: Input, pos: nat, e: nat)
    requires Boundary(inp, e) && e < pos <= |inp.units|
    ensures e <= Prev(inp, pos) && Chars(inp, e, pos) == Chars(inp, e, Prev(inp, pos)) + [PrevCharAt(inp, pos)]
  {
    CharsLast(inp, e, pos);
  }

  lemma FoldedFirst(inp: Input, icase: bool, c: nat, cs: seq<nat>)
    ensures Folded(inp, icase, [c] + cs) == [Fold(inp, icase, c)] + Folded(inp, icase, cs)
  {
  }

  lemma FoldedLast(inp: Input, icase: bool, c: nat, cs: seq<nat>)
    ensures Folded(inp, icase, cs + [c]) == Folded(inp, icase, cs) + [Fold(inp, icase, c)]
  {
  }

  // Back references.

  lemma FrontsEqual(c: nat, a: seq<nat>, d: nat, b: seq<nat>)
    ensures [c] + a == [d] + b <==> c == d && a == b
  {
    assert ([c] + a)[0] == c && ([d] + b)[0] == d && ([c] + a)[1..] == a && ([d] + b)[1..] == b;
  }

  lemma EndsEqual(c: nat, a: seq<nat>, d: nat, b: seq<nat>)
    ensures a + [c] == b + [d] <==> c == d && a == b
  {
    var x, y := a + [c], b + [d];
    if x == y {
      assert x[|a|] == c && y[|b|] == d && |a| == |b| && x[..|a|] == a && y[..|b|] == b;
    }
  }

  lemma {:induction false} ForwardMeans(inp: Input, icase: bool, from: nat, end: nat, pos: nat, e: nat)
    requires Boundary(inp, pos) && end <= |inp.units|
    ensures ForwardRef(inp, icase, from, end, pos) == Some(e) <==>
      pos <= e && Boundary(inp, e)
      && Folded(inp, icase, Chars(inp, from, end)) == Folded(inp, icase, Chars(inp, pos, e))
    decreases if from < end then end - from else 0
  {
    hide Folded, Boundary, Chars;
    if from < end && pos < |inp.units| {
      var (c, next) := GetCharTo(inp, from, end);
      CharsFirst(inp, from, end);
      FoldedFirst(inp, icase, c, Chars(inp, next, end));
      NextBoundary(inp, pos);
      ForwardMeans(inp, icase, next, end, Next(inp, pos), e);
      if pos < e && Boundary(inp, e) {
        CharsAhead(inp, pos, e);
        BoundaryInside(inp, e);
        var d, rest := CharAt(inp, pos), Chars(inp, Next(inp, pos), e);
        FoldedFirst(inp, icase, d, rest);
        FrontsEqual(Fold(inp, icase, c), Folded(inp, icase, Chars(inp, next, end)), Fold(inp, icase, d),
          Folded(inp, icase, rest));
      }
    } else if e > |inp.units| {
      BoundaryInside(inp, e);
    }
  }

  lemma BoundaryInside(inp: Input, e: nat)
    ensures Boundary(inp, e) ==> e <= |inp.units|
  {
  }

  lemma {:induction false} BackwardMeans(inp: Input, icase: bool, from: nat, start: nat, pos: nat, e: nat)
    requires Boundary(inp, pos) && from <= |inp.units|
    ensures BackwardRef(inp, icase, from, start, pos) == Some(e) <==>
      e <= pos && Boundary(inp, e)
      && Folded(inp, icase, Chars(inp, start, from)) == Folded(inp, icase, Chars(inp, e, pos))
    decreases from
  {
    hide Folded, Boundary, Chars;
    BoundaryInside(inp, pos);
    if start < from && pos > 0 {
      var (c, prev) := GetPrevCharFrom(inp, from, start);
      CharsLast(inp, start, from);
      FoldedLast(inp, icase, c, Chars(inp, start, prev));
      PrevBoundary(inp, pos);
      BackwardMeans(inp, icase, prev, start, Prev(inp, pos), e);
      if e < pos && Boundary(inp, e) {
        CharsBehind(inp, pos, e);
        var d, rest := PrevCharAt(inp, pos), Chars(inp, e, Prev(inp, pos));
        FoldedLast(inp, icase, d, rest);
        EndsEqual(Fold(inp, icase, c), Folded(inp, icase, Chars(inp, start, prev)), Fold(inp, icase, d),
          Folded(inp, icase, rest));
      }
    }
  }

  /** The stretch between two positions, in either direction. */
  function Stretch(inp: Input, back: bool, p: nat, q: nat): seq<nat>
    requires p <= |inp.units| && q <= |inp.units|
  {
    if back then Chars(inp, q, p) else Chars(inp, p, q)
  }

  /** A step in the direction of the match that leaves the captures as they are. */
  predicate Steps(inp: Input, back: bool, s: State, x: State) {
    x.caps == s.caps && Boundary(inp, x.pos) && (if back then x.pos <= s.pos else s.pos <= x.pos)
  }

  /** A back reference accepts the text of its group, up to case if asked to; a group that is not set accepts
      exactly the empty text. */
  lemma BackRefMeans(inp: Input, i: nat, icase: bool, back: bool, c: nat, s: State, x: State)
    requires Boundary(inp, s.pos)
    ensures |Results(inp, BackRef(i, icase), back, c, s)| <= 1
    ensures x in Results(inp, BackRef(i, icase), back, c, s) <==>
      if 2 * i !in s.caps || 2 * i + 1 !in s.caps then x == s
      else
        var start, end := s.caps[2 * i], s.caps[2 * i + 1];
        && start <= |inp.units| && end <= |inp.units| && Steps(inp, back, s, x)
        && Folded(inp, icase, Stretch(inp, back, s.pos, x.pos)) == Folded(inp, icase, Chars(inp, start, end))
  {
    hide Folded, Chars, ForwardRef, BackwardRef;
    if 2 * i in s.caps && 2 * i + 1 in s.caps {
      var start, end := s.caps[2 * i], s.caps[2 * i + 1];
      if start <= |inp.units| && end <= |inp.units| {
        if back {
          BackwardMeans(inp, icase, end, start, s.pos, x.pos);
        } else {
          ForwardMeans(inp, icase, start, end, s.pos, x.pos);
        }
      }
    }
  }

  /** Characters are equal when their units are. */
  lemma {:induction false} CharsDecide(inp: Input, a: nat, b: nat, c: nat, d: nat)
    requires ValidInput(inp) && a <= b <= |inp.units| && c <= d <= |inp.units|
    ensures Chars(inp, a, b) == Chars(inp, c, d) <==> inp.units[a..b] == inp.units[c..d]
    decreases b - a
  {
    if a < b && c < d {
      var (x, a1) := GetCharTo(inp, a, b);
      var (y, c1) := GetCharTo(inp, c, d);
      CharsFirst(inp, a, b);
      CharsFirst(inp, c, d);
      CharsDecide(inp, a1, b, c1, d);
      FrontsEqual(x, Chars(inp, a1, b), y, Chars(inp, c1, d));
      UnitsFirst(inp, a, b, c, d);
    }
  }

  lemma UnitsFirst(inp: Input, a: nat, b: nat, c: nat, d: nat)
    requires ValidInput(inp) && a < b <= |inp.units| && c < d <= |inp.units|
    ensures var (x, a1), (y, c1) := GetCharTo(inp, a, b), GetCharTo(inp, c, d);
      inp.units[a..b] == inp.units[c..d] <==> x == y && inp.units[a1..b] == inp.units[c1..d]
  {
    var (x, a1) := GetCharTo(inp, a, b);
    var (y, c1) := GetCharTo(inp, c, d);
    var u, v := inp.units[a..b], inp.units[c..d];
    assert u[0] == inp.units[a] && v[0] == inp.units[c];
    assert b > a + 1 ==> u[1] == inp.units[a + 1];
    assert d > c + 1 ==> v[1] == inp.units[c + 1];
    assert u == u[..a1 - a] + inp.units[a1..b] && v == v[..c1 - c] + inp.units[c1..d];
    if x == y { UnitsRead(inp, a, b, c, d); }
    if u == v {
      assert inp.units[a1..b] == u[a1 - a..] && inp.units[c1..d] == v[c1 - c..];
    } else if x == y {
      assert u[..a1 - a] == v[..c1 - c];
    }
  }

  /** Equal characters have equal units. */
  lemma UnitsRead(inp: Input, a: nat, b: nat, c: nat, d: nat)
    requires ValidInput(inp) && a < b <= |inp.units| && c < d <= |inp.units|
    requires GetCharTo(inp, a, b).0 == GetCharTo(inp, c, d).0
    ensures GetCharTo(inp, a, b).1 - a == GetCharTo(inp, c, d).1 - c <= 2 && inp.units[a] == inp.units[c]
    ensures GetCharTo(inp, a, b).1 == a + 2 ==> inp.units[a + 1] == inp.units[c + 1]
  {
  }

  /** With case, a back reference compares code units. */
  lemma BackRefUnits(inp: Input, i: nat, back: bool, c: nat, s: State, x: State)
    requires ValidInput(inp) && Boundary(inp, s.pos) && 2 * i in s.caps && 2 * i + 1 in s.caps
    requires s.caps[2 * i] <= s.caps[2 * i + 1] <= |inp.units|
    ensures x in Results(inp, BackRef(i, false), back, c, s) <==>
      && Steps(inp, back, s, x)
      && (if back then inp.units[x.pos..s.pos] else inp.units[s.pos..x.pos])
         == inp.units[s.caps[2 * i]..s.caps[2 * i + 1]]
  {
    hide Chars, Folded;
    var start, end := s.caps[2 * i], s.caps[2 * i + 1];
    BackRefMeans(inp, i, false, back, c, s, x);
    hide Results;
    if Steps(inp, back, s, x) {
      var cs := Stretch(inp, back, s.pos, x.pos);
      assert Folded(inp, false, cs) == cs && Folded(inp, false, Chars(inp, start, end)) == Chars(inp, start, end);
      if back {
        CharsDecide(inp, x.pos, s.pos, start, end);
      } else {
        CharsDecide(inp, s.pos, x.pos, start, end);
      }
    }
  }

  // Characters and assertions.

  const DIGITS := "0123456789"
  const SMALL := "abcdefghijklmnopqrstuvwxyz"
  const CAPITAL := "ABCDEFGHIJKLMNOPQRSTUVWXYZ"

  predicate IsWord(c: nat) {
    c < 0x80 && (c as char in DIGITS || c as char in SMALL || c as char in CAPITAL || c as char == '_')
  }

  const LINE_TERMINATORS: set<nat> := {0x0A, 0x0D, 0x2028, 0x2029}

  lemma WordIs(c: nat)
    ensures IsWordChar(c) <==> IsWord(c)
  {
  }

  lemma LineTerminatorIs(c: nat)
    ensures IsLineTerminator(c) <==> c in LINE_TERMINATORS
  {
  }

  /** What an assertion says of the characters before and behind a position. */
  ghost predicate AssertionHolds(inp: Input, a: Assertion, before: seq<nat>, behind: seq<nat>) {
    match a
    case LineStart(multi) => before == [] || (multi && before[|before| - 1] in LINE_TERMINATORS)
    case LineEnd(multi) => behind == [] || (multi && behind[0] in LINE_TERMINATORS)
    case WordBoundary(negated, icase) =>
      var left := before != [] && IsWord(Folded(inp, icase, before)[|before| - 1]);
      var right := behind != [] && IsWord(Folded(inp, icase, behind)[0]);
      if negated then left == right else left != right
  }

  lemma AssertionMeans(inp: Input, a: Assertion, back: bool, c: nat, s: State)
    requires Boundary(inp, s.pos)
    ensures Results(inp, Assert(a), back, c, s) ==
      if AssertionHolds(inp, a, Chars(inp, 0, s.pos), Chars(inp, s.pos, |inp.units|)) then [s] else []
  {
    hide Chars, Folded, IsWordChar, IsWord, IsLineTerminator, PrevCharAt, CharAt;
    if s.pos > 0 {
      CharsBehind(inp, s.pos, 0);
      WordIs(Fold(inp, true, PrevCharAt(inp, s.pos)));
      WordIs(PrevCharAt(inp, s.pos));
      LineTerminatorIs(PrevCharAt(inp, s.pos));
    }
    if s.pos < |inp.units| {
      CharsAhead(inp, s.pos, |inp.units|);
      WordIs(Fold(inp, true, CharAt(inp, s.pos)));
      WordIs(CharAt(inp, s.pos));
      LineTerminatorIs(CharAt(inp, s.pos));
    }
  }

  /** The characters that a single-character term is for. */
  ghost predicate IsFor(inp: Input, t: CharTest, c: nat) {
    match t
    case Literal(x, icase) => if icase then inp.canon(c) == inp.canon(x) else c == x
    case DotChar => c !in LINE_TERMINATORS
    case AnyChar => true
    case Class(points, icase) => InSome(points, if icase then inp.canon(c) else c)
  }

  ghost predicate AllFor(inp: Input, t: CharTest, cs: seq<nat>) { forall i :: 0 <= i < |cs| ==> IsFor(inp, t, cs[i]) }

  /** A single-character term steps over one character that it is for. */
  lemma AtomMeans(inp: Input, t: CharTest, back: bool, c: nat, s: State, x: State)
    requires Boundary(inp, s.pos)
    ensures |Results(inp, Atom(t), back, c, s)| <= 1
    ensures x in Results(inp, Atom(t), back, c, s) <==>
      && Steps(inp, back, s, x) && |Stretch(inp, back, s.pos, x.pos)| == 1
      && AllFor(inp, t, Stretch(inp, back, s.pos, x.pos))
  {
    hide Chars;
    AtomHere(inp, t, back, c, s);
    hide Results, IsFor;
    assert x == s.(pos := x.pos) <==> x.caps == s.caps;
    if Steps(inp, back, s, x) && x.pos != s.pos {
      var d, p := if back then PrevCharAt(inp, s.pos) else CharAt(inp, s.pos),
        if back then Prev(inp, s.pos) else Next(inp, s.pos);
      if back {
        CharsBehind(inp, s.pos, x.pos);
      } else {
        CharsAhead(inp, s.pos, x.pos);
      }
      var cs := Stretch(inp, back, s.pos, x.pos);
      assert |cs| == 1 <==> x.pos == p;
      assert |cs| == 1 ==> cs[0] == d;
    }
  }

  lemma AtomHere(inp: Input, t: CharTest, back: bool, c: nat, s: State)
    requires Boundary(inp, s.pos)
    ensures
      if s.pos == (if back then 0 else |inp.units|) then Results(inp, Atom(t), back, c, s) == []
      else
        var d, p := if back then PrevCharAt(inp, s.pos) else CharAt(inp, s.pos),
          if back then Prev(inp, s.pos) else Next(inp, s.pos);
        && Boundary(inp, p) && Stretch(inp, back, s.pos, p) == [d]
        && Results(inp, Atom(t), back, c, s) == if IsFor(inp, t, d) then [s.(pos := p)] else []
  {
    if back {
      if s.pos > 0 {
        PrevBoundary(inp, s.pos);
        CharsBehind(inp, s.pos, Prev(inp, s.pos));
        LineTerminatorIs(PrevCharAt(inp, s.pos));
      }
    } else if s.pos < |inp.units| {
      NextBoundary(inp, s.pos);
      CharsAhead(inp, s.pos, Next(inp, s.pos));
      LineTerminatorIs(CharAt(inp, s.pos));
    }
  }

  // Quantified characters.

  /** A step over as many characters as asked for, all of which the term is for. */
  ghost predicate Run(inp: Input, t: CharTest, back: bool, s: State, x: State, min: nat, max: Option<nat>)
    requires Boundary(inp, s.pos)
  {
    && Steps(inp, back, s, x) && AllFor(inp, t, Stretch(inp, back, s.pos, x.pos))
    && min <= |Stretch(inp, back, s.pos, x.pos)| && (max.None? || |Stretch(inp, back, s.pos, x.pos)| <= max.value)
  }

  lemma RunNone(inp: Input, t: CharTest, back: bool, s: State, x: State, max: Option<nat>)
    requires Boundary(inp, s.pos)
    ensures x.pos == s.pos ==> (Run(inp, t, back, s, x, 0, max) <==> x == s)
    ensures max == Some(0) && Run(inp, t, back, s, x, 0, max) ==> x.pos == s.pos
    ensures x.pos == s.pos ==> !Run(inp, t, back, s, x, 1, max)
    ensures x.pos != s.pos ==> (Run(inp, t, back, s, x, 0, max) <==> Run(inp, t, back, s, x, 1, max))
  {
    hide Chars, AllFor;
    assert x.pos == s.pos && x.caps == s.caps ==> x == s;
    assert Stretch(inp, back, s.pos, s.pos) == [] && AllFor(inp, t, []) by { NoneFor(inp, t); }
    if Steps(inp, back, s, x) && x.pos != s.pos {
      assert Stretch(inp, back, s.pos, x.pos) != [];
    }
  }

  lemma NoneFor(inp: Input, t: CharTest)
    ensures AllFor(inp, t, [])
  {
  }

  lemma OneFor(inp: Input, t: CharTest, d: nat, cs: seq<nat>)
    ensures AllFor(inp, t, [d] + cs) <==> IsFor(inp, t, d) && AllFor(inp, t, cs)
    ensures AllFor(inp, t, cs + [d]) <==> IsFor(inp, t, d) && AllFor(inp, t, cs)
  {
    hide IsFor;
    var a, b := [d] + cs, cs + [d];
    assert a[0] == d && b[|cs|] == d;
    assert forall i :: 0 <= i < |cs| ==> a[i + 1] == cs[i] && b[i] == cs[i];
    assert forall i :: 1 <= i < |a| ==> a[i] == cs[i - 1];
  }

  /** A run starts with one step. */
  lemma RunFirst(inp: Input, t: CharTest, back: bool, c: nat, s: State, x: State, min: nat, max: Option<nat>)
    requires Boundary(inp, s.pos) && max != Some(0)
    ensures var xs := Results(inp, Atom(t), back, c, s);
      if xs == [] then !Run(inp, t, back, s, x, min + 1, max)
      else
        && |xs| == 1 && Boundary(inp, xs[0].pos) && xs[0].pos != s.pos
        && (Run(inp, t, back, s, x, min + 1, max) <==> Run(inp, t, back, xs[0], x, min, OneLess(max)))
  {
    hide Chars, IsFor, AllFor;
    AtomHere(inp, t, back, c, s);
    hide Results;
    var end := if back then 0 else |inp.units|;
    RunNone(inp, t, back, s, x, max);
    if s.pos != end {
      var d, p := if back then PrevCharAt(inp, s.pos) else CharAt(inp, s.pos),
        if back then Prev(inp, s.pos) else Next(inp, s.pos);
      if Boundary(inp, x.pos) && x.pos != s.pos && (if back then x.pos < s.pos else s.pos < x.pos) {
        if back {
          CharsBehind(inp, s.pos, x.pos);
        } else {
          CharsAhead(inp, s.pos, x.pos);
        }
        OneFor(inp, t, d, Stretch(inp, back, p, x.pos));
      }
    }
  }

  /** The results of a loop over a single-character term. */
  lemma LoopAtom(inp: Input, t: CharTest, more: Option<nat>, greedy: bool, back: bool, c: nat, s: State)
    requires s.pos <= |inp.units|
    ensures var xs, all := Results(inp, Atom(t), back, c, s), LoopResults(inp, Atom(t), more, greedy, back, c, s);
      if more == Some(0) then all == [s]
      else if xs == [] then all == [s]
      else if |xs| == 1 && xs[0].pos != s.pos then
        var again := LoopResults(inp, Atom(t), OneLess(more), greedy, back, c, xs[0]);
        all == if greedy then again + [s] else [s] + again
      else true
  {
    hide Results;
    var xs := Results(inp, Atom(t), back, c, s);
    if |xs| == 1 && xs[0].pos != s.pos && more != Some(0) {
      assert xs[1..] == [] && Moved(s, xs) == xs;
      assert ThenLoop(inp, Atom(t), OneLess(more), greedy, back, c, s, xs)
        == LoopResults(inp, Atom(t), OneLess(more), greedy, back, c, xs[0]);
    }
  }

  /** The farther result first for a greedy quantifier, the nearer one otherwise. */
  predicate Ordered(back: bool, greedy: bool, xs: seq<State>) {
    forall i, j :: 0 <= i < j < |xs| ==> if greedy != back then xs[i].pos > xs[j].pos else xs[i].pos < xs[j].pos
  }

  lemma {:induction false} LoopMeans(inp: Input, t: CharTest, more: Option<nat>, greedy: bool, back: bool, c: nat,
      s: State, x: State)
    requires Boundary(inp, s.pos)
    ensures x in LoopResults(inp, Atom(t), more, greedy, back, c, s) <==> Run(inp, t, back, s, x, 0, more)
    ensures Ordered(back, greedy, LoopResults(inp, Atom(t), more, greedy, back, c, s))
    decreases Room(inp, back, s)
  {
    hide Results, LoopResults, Run, Boundary;
    BoundaryInside(inp, s.pos);
    LoopAtom(inp, t, more, greedy, back, c, s);
    RunNone(inp, t, back, s, x, more);
    if more != Some(0) {
      RunFirst(inp, t, back, c, s, x, 0, more);
      var xs := Results(inp, Atom(t), back, c, s);
      if xs != [] {
        LoopMeans(inp, t, OneLess(more), greedy, back, c, xs[0], x);
      }
    }
  }

  /** A quantified single-character term steps over runs of characters that it is for, as long as the quantifier
      allows, the longest or the shortest first. */
  lemma QuantifiedMeans(inp: Input, t: CharTest, min: nat, max: nat, greedy: bool, back: bool, c: nat, s: State,
      x: State)
    requires Boundary(inp, s.pos) && min <= max
    ensures x in Results(inp, Quantified(Atom(t), min, max, greedy), back, c, s) <==>
      && Steps(inp, back, s, x) && AllFor(inp, t, Stretch(inp, back, s.pos, x.pos))
      && min <= |Stretch(inp, back, s.pos, x.pos)|
      && (max == INT32_MAX || |Stretch(inp, back, s.pos, x.pos)| <= max)
    ensures Ordered(back, greedy, Results(inp, Quantified(Atom(t), min, max, greedy), back, c, s))
  {
    RepeatMeans(inp, t, min, OptionalRounds(min, max), greedy, back, c, s, x);
    hide RepeatResults;
  }

  lemma {:induction false} RepeatMeans(inp: Input, t: CharTest, n: nat, more: Option<nat>, greedy: bool, back: bool,
      c: nat, s: State, x: State)
    requires Boundary(inp, s.pos)
    ensures x in RepeatResults(inp, Atom(t), n, more, greedy, back, c, s) <==>
      Run(inp, t, back, s, x, n, if more.Some? then Some(n + more.value) else None)
    ensures Ordered(back, greedy, RepeatResults(inp, Atom(t), n, more, greedy, back, c, s))
    decreases n
  {
    hide Results, LoopResults, Run, Boundary;
    BoundaryInside(inp, s.pos);
    if n == 0 {
      LoopMeans(inp, t, more, greedy, back, c, s, x);
    } else {
      var xs := Results(inp, Atom(t), back, c, s);
      RunFirst(inp, t, back, c, s, x, n - 1, if more.Some? then Some(n + more.value) else None);
      if xs != [] {
        RepeatMeans(inp, t, n - 1, more, greedy, back, c, xs[0], x);
        assert xs[1..] == [];
        assert ThenRepeat(inp, Atom(t), n - 1, more, greedy, back, c, s, xs)
          == RepeatResults(inp, Atom(t), n - 1, more, greedy, back, c, xs[0]);
      }
    }
  }
}
