/** The instructions of the regular-expression machine and linear pieces of code.

    Jump operands count bytes from the end of the instruction, so a piece of code
    means the same wherever it is placed. */
module RegexpBytecode {
  import opened Options

  const INT32_MAX: nat := 0x7fff_ffff

  datatype Assertion =
    | LineStart(multi: bool)
    | LineEnd(multi: bool)
    | WordBoundary(negated: bool, icase: bool)

  datatype Instr =
    | Char(val: nat, wide: bool, icase: bool)
    | Dot
    | Any
    | Range(pairs: seq<(nat, nat)>, wide: bool, icase: bool)
    | Check(a: Assertion)
    | Goto(offset: int)
    | Split(nextFirst: bool, offset: int)
    | Match
    | Save(index: nat, isEnd: bool)
    | SaveReset(first: nat, last: nat)
    | Loop(offset: int)
    | PushI32(count: nat)
    | Drop
    | BackReference(index: nat, icase: bool, backward: bool)
    | Lookahead(negative: bool, offset: int)
    | PushCharPos
    | CheckAdvance
    | PrevChar
    | SimpleGreedyQuant(offset: int, min: nat, max: nat, charCount: nat)
  {
    /** The number of bytes the instruction takes. */
    function Size(): (n: nat)
      ensures 1 <= n
    {
      match this
      case Char(_, wide, _) => if wide then 5 else 3
      case Range(pairs, wide, _) => 3 + (if wide then 8 else 4) * |pairs|
      case Goto(_) | Split(_, _) | Loop(_) | PushI32(_) | Lookahead(_, _) => 5
      case Save(_, _) | BackReference(_, _, _) => 2
      case SaveReset(_, _) => 3
      case SimpleGreedyQuant(_, _, _, _) => 17
      case _ => 1
    }

    /** The instructions that consume exactly one character. */
    predicate IsSimpleChar() { Char? || Range? || Dot? || Any? }

    /** The instructions re_is_simple_quantifier accepts. */
    predicate IsSimple() { IsSimpleChar() || Check? }

    /** The instructions re_need_check_advance can see through. */
    predicate IsPredictable() {
      IsSimple() || PushI32? || PushCharPos? || Drop? || PrevChar? || Save? || SaveReset? || BackReference?
    }

    /** The change in stack depth that compute_stack_size attributes to the instruction. */
    function Delta(): int {
      if PushI32? || PushCharPos? then 1 else if Drop? || CheckAdvance? then -1 else 0
    }
  }

  function Size(code: seq<Instr>): nat {
    if code == [] then 0 else code[0].Size() + Size(code[1..])
  }

  lemma {:induction false} SizeAppend(a: seq<Instr>, b: seq<Instr>)
    ensures Size(a + b) == Size(a) + Size(b)
  {
    if a == [] {
      assert a + b == b;
    } else {
      assert (a + b)[1..] == a[1..] + b;
      SizeAppend(a[1..], b);
    }
  }

  /** The answer of re_need_check_advance: may the code succeed without advancing? */
  predicate NeedCheckAdvance(code: seq<Instr>) {
    || (exists k :: 0 <= k < |code| && !code[k].IsPredictable())
    || (forall k :: 0 <= k < |code| ==> !code[k].IsSimpleChar())
  }

  function CharCount(code: seq<Instr>): nat {
    if code == [] then 0 else (if code[0].IsSimpleChar() then 1 else 0) + CharCount(code[1..])
  }

  predicate AllSimple(code: seq<Instr>) {
    forall k :: 0 <= k < |code| ==> code[k].IsSimple()
  }

  /** The answer of re_is_simple_quantifier: the number of characters, or -1. */
  function SimpleQuantifier(code: seq<Instr>): int {
    if AllSimple(code) then CharCount(code) else -1
  }

  // A listing gives, for each byte address, the instruction that starts there.

  type Listing = seq<Option<Instr>>

  function Fetch(prog: Listing, pc: int): Option<Instr> {
    if 0 <= pc < |prog| then prog[pc] else None
  }

  /** The listing holds `code` at address `pc`. */
  predicate Holds(prog: Listing, pc: nat, code: seq<Instr>)
    decreases |code|
  {
    code == [] || (Fetch(prog, pc) == Some(code[0]) && Holds(prog, pc + code[0].Size(), code[1..]))
  }

  lemma {:induction false} HoldsAppend(prog: Listing, pc: nat, a: seq<Instr>, b: seq<Instr>)
    ensures Holds(prog, pc, a + b) <==> Holds(prog, pc, a) && Holds(prog, pc + Size(a), b)
    decreases |a|
  {
    if a == [] {
      assert a + b == b;
    } else {
      assert (a + b)[1..] == a[1..] + b;
      HoldsAppend(prog, pc + a[0].Size(), a[1..], b);
    }
  }

  lemma HoldsOne(prog: Listing, pc: nat, i: Instr)
    ensures Holds(prog, pc, [i]) <==> Fetch(prog, pc) == Some(i)
    ensures Size([i]) == i.Size()
  {
    assert [i][1..] == [];
  }

  lemma HoldsCons(prog: Listing, pc: nat, i: Instr, rest: seq<Instr>)
    ensures Holds(prog, pc, [i] + rest) <==> Fetch(prog, pc) == Some(i) && Holds(prog, pc + i.Size(), rest)
    ensures Size([i] + rest) == i.Size() + Size(rest)
  {
    assert ([i] + rest)[1..] == rest;
  }

  /** A piece of code between a first and a last instruction. */
  lemma HoldsBetween(prog: Listing, pc: nat, i: Instr, body: seq<Instr>, j: Instr)
    ensures Holds(prog, pc, [i] + body + [j]) <==>
      && Fetch(prog, pc) == Some(i)
      && Holds(prog, pc + i.Size(), body)
      && Fetch(prog, pc + i.Size() + Size(body)) == Some(j)
    ensures Size([i] + body + [j]) == i.Size() + Size(body) + j.Size()
  {
    HoldsAppend(prog, pc, [i] + body, [j]);
    SizeAppend([i] + body, [j]);
    HoldsCons(prog, pc, i, body);
    HoldsOne(prog, pc + i.Size() + Size(body), j);
  }
}
