/** The code the compiler emits for a pattern, as a list of instructions. */
module RegexpCompiler {
  import opened CharSets
  import opened RegexpBytecode
  import opened RegexpSyntax

  /** The last bound re_emit_range looks at to choose the width of a table. */
  function HighestBound(points: seq<nat>): nat
    requires |points| >= 2
  {
    var high := points[|points| - 1];
    if high == UINT32_MAX then points[|points| - 2] else high
  }

  /** The last character before an unsigned 32-bit end. */
  function WideHigh(end: nat): nat {
    if end == 0 then UINT32_MAX else end - 1
  }

  function NarrowHigh(end: nat): nat {
    if end % 0x1_0000_0000 == 0 || end % 0x1_0000_0000 == UINT32_MAX then 0xffff else end - 1
  }

  function RangePairs(points: seq<nat>, wide: bool): seq<(nat, nat)> {
    seq(|points| / 2, k requires 0 <= k < |points| / 2 =>
      (points[2 * k], if wide then WideHigh(points[2 * k + 1]) else NarrowHigh(points[2 * k + 1])))
  }

  /** re_emit_range: an empty set becomes a character that never occurs. */
  function RangeInstr(points: seq<nat>, icase: bool): Instr {
    if |points| / 2 == 0 then Char(UINT32_MAX, true, false)
    else
      var wide := HighestBound(points) > 0xffff;
      Range(RangePairs(points, wide), wide, icase)
  }

  function TestInstr(canon: nat -> nat, t: CharTest): Instr {
    match t
    case Literal(c, icase) =>
      var val := if icase then canon(c) else c;
      Char(val, val > 0xffff, icase)
    case DotChar => Dot
    case AnyChar => Any
    case Class(points, icase) => RangeInstr(points, icase)
  }

  /** The body of an optional round, with the check that it advances where one is needed. */
  function RoundCode(body: seq<Instr>): seq<Instr> {
    if NeedCheckAdvance(body) then [PushCharPos] + body + [CheckAdvance] else body
  }

  /** A loop of optional rounds, which ends either by Goto or by the counter on the stack. */
  function LoopCode(body: seq<Instr>, counted: bool, greedy: bool): seq<Instr> {
    var n := Size(RoundCode(body));
    [Split(greedy, n + 5)] + RoundCode(body) + (if counted then [Loop(-(n + 10)), Drop] else [Goto(-(n + 10))])
  }

  function OptionCode(body: seq<Instr>, greedy: bool): seq<Instr> {
    [Split(greedy, Size(RoundCode(body)))] + RoundCode(body)
  }

  function RepeatCode(body: seq<Instr>, n: nat): seq<Instr> {
    if n == 1 then body else [PushI32(n)] + body + [Loop(-(Size(body) + 5)), Drop]
  }

  /** The code for up to max - min further rounds. */
  function MoreCode(body: seq<Instr>, min: nat, max: nat, greedy: bool): seq<Instr> {
    if max == INT32_MAX then LoopCode(body, false, greedy)
    else if max > min then [PushI32(max - min)] + LoopCode(body, true, greedy)
    else []
  }

  predicate UsesSimpleQuant(body: seq<Instr>, max: nat, greedy: bool) {
    greedy && max > 0 && SimpleQuantifier(body) > 0
  }

  function SimpleQuantCode(body: seq<Instr>, min: nat, max: nat): seq<Instr> {
    [SimpleGreedyQuant(Size(body) + 1, min, max, CharCount(body))] + body + [Match]
  }

  function ResetCode(groups: nat, c: nat): seq<Instr> {
    if groups > 0 then [SaveReset(c, c + groups - 1)] else []
  }

  function ZeroCode(body: seq<Instr>, max: nat, greedy: bool): seq<Instr> {
    if max == 0 then []
    else if max == 1 then OptionCode(body, greedy)
    else MoreCode(body, 0, max, greedy)
  }

  function PlusCode(body: seq<Instr>, greedy: bool): seq<Instr> {
    body + [Split(!greedy, -(Size(body) as int + 5))]
  }

  function QuantCode(body: seq<Instr>, groups: nat, c: nat, min: nat, max: nat, greedy: bool): seq<Instr> {
    if UsesSimpleQuant(body, max, greedy) then SimpleQuantCode(body, min, max)
    else if min == 0 then ResetCode(groups, c) + ZeroCode(body, max, greedy)
    else if min == 1 && max == INT32_MAX && !NeedCheckAdvance(body) then PlusCode(body, greedy)
    else RepeatCode(body, min) + MoreCode(body, min, max, greedy)
  }

  /** The code of a pattern whose first group has index c. */
  function Code(canon: nat -> nat, r: Regex, back: bool, c: nat): seq<Instr> {
    match r
    case Empty => []
    case Atom(t) =>
      if back then [PrevChar, TestInstr(canon, t), PrevChar] else [TestInstr(canon, t)]
    case Assert(a) => [Check(a)]
    case BackRef(i, icase) => [BackReference(i, icase, back)]
    case Group(r1) => [Save(c, back)] + Code(canon, r1, back, c + 1) + [Save(c, !back)]
    case Sequence(r1, r2) =>
      if back then Code(canon, r2, back, c + Groups(r1)) + Code(canon, r1, back, c)
      else Code(canon, r1, back, c) + Code(canon, r2, back, c + Groups(r1))
    case Either(r1, r2) =>
      var c1, c2 := Code(canon, r1, back, c), Code(canon, r2, back, c + Groups(r1));
      [Split(true, Size(c1) + 5)] + c1 + [Goto(Size(c2))] + c2
    case Quantified(r1, min, max, greedy) =>
      QuantCode(Code(canon, r1, back, c), Groups(r1), c, min, max, greedy)
    case Look(r1, negative, behind) =>
      var c1 := Code(canon, r1, behind, c);
      [Lookahead(negative, Size(c1) + 1)] + c1 + [Match]
  }

  /** The whole program: the search for a start, the pattern as group 0, the end. */
  function ProgramCode(canon: nat -> nat, r: Regex, sticky: bool): seq<Instr> {
    (if sticky then [] else [Split(false, 6), Any, Goto(-11)])
    + [Save(0, false)] + Code(canon, r, false, 1) + [Save(0, true), Match]
  }
}
