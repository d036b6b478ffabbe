/** The byte encoding of the instructions, as libregexp-opcode.h numbers them. */
module RegexpEncoding {
  import opened Options
  import opened RegexpBytecode

  type Byte = b: int | 0 <= b < 256

  const TWO32: nat := 0x1_0000_0000

  function U8(v: int): (s: seq<Byte>)
    ensures |s| == 1
  {
    [v % 256]
  }

  function U16(v: int): (s: seq<Byte>)
    ensures |s| == 2
  {
    [v % 256, v / 256 % 256]
  }

  /** A 32-bit little-endian word; negative values wrap around. */
  function U32(v: int): (s: seq<Byte>)
    ensures |s| == 4
  {
    U16(v % 0x10000) + U16(v / 0x10000 % 0x10000)
  }

  function GetU16(s: seq<Byte>): nat
    requires |s| >= 2
  {
    s[0] as int + 256 * (s[1] as int)
  }

  function GetU32(s: seq<Byte>): nat
    requires |s| >= 4
  {
    GetU16(s) + 0x10000 * GetU16(s[2..])
  }

  function GetI32(s: seq<Byte>): int
    requires |s| >= 4
  {
    var v := GetU32(s);
    if v > INT32_MAX then v - TWO32 else v
  }

  predicate FitsI32(v: int) { -0x7fff_ffff <= v <= 0x7fff_ffff }

  lemma U16Back(v: int, rest: seq<Byte>)
    requires 0 <= v < 0x10000
    ensures GetU16(U16(v) + rest) == v
  {
  }

  lemma U32Back(v: int, rest: seq<Byte>)
    ensures GetU32(U32(v) + rest) == v % TWO32
  {
    var lo, hi := v % 0x10000, v / 0x10000 % 0x10000;
    U16Back(lo, U16(hi) + rest);
    U16Back(hi, rest);
    assert U32(v) + rest == U16(lo) + (U16(hi) + rest);
    assert (U32(v) + rest)[2..] == U16(hi) + rest;
    assert v % TWO32 == lo + 0x10000 * hi;
  }

  lemma I32Back(v: int, rest: seq<Byte>)
    requires FitsI32(v)
    ensures GetI32(U32(v) + rest) == v
  {
    U32Back(v, rest);
  }

  // Opcodes.

  function B(b: bool): (r: int)
    ensures r == 0 || r == 1
  {
    if b then 1 else 0
  }

  function Opcode(i: Instr): Byte {
    match i
    case Char(_, wide, icase) => 1 + 2 * B(wide) + B(icase)
    case Dot => 5
    case Any => 6
    case Check(LineStart(multi)) => 7 + B(multi)
    case Check(LineEnd(multi)) => 9 + B(multi)
    case Goto(_) => 11
    case Split(nextFirst, _) => 12 + B(nextFirst)
    case Match => 14
    case Save(_, isEnd) => 15 + B(isEnd)
    case SaveReset(_, _) => 17
    case Loop(_) => 18
    case PushI32(_) => 19
    case Drop => 20
    case Check(WordBoundary(negated, icase)) => 21 + 2 * B(negated) + B(icase)
    case BackReference(_, icase, backward) => 25 + 2 * B(backward) + B(icase)
    case Range(_, wide, icase) => 29 + 2 * B(wide) + B(icase)
    case Lookahead(negative, _) => 33 + B(negative)
    case PushCharPos => 35
    case CheckAdvance => 36
    case PrevChar => 37
    case SimpleGreedyQuant(_, _, _, _) => 38
  }

  function EncodePairs(pairs: seq<(nat, nat)>, wide: bool): (s: seq<Byte>)
    ensures |s| == (if wide then 8 else 4) * |pairs|
  {
    if pairs == [] then []
    else
      (if wide then U32(pairs[0].0) + U32(pairs[0].1) else U16(pairs[0].0) + U16(pairs[0].1))
      + EncodePairs(pairs[1..], wide)
  }

  function Operands(i: Instr): (s: seq<Byte>)
    ensures 1 + |s| == i.Size()
  {
    match i
    case Char(val, wide, _) => if wide then U32(val) else U16(val)
    case Range(pairs, wide, _) => U16(|pairs|) + EncodePairs(pairs, wide)
    case Goto(offset) => U32(offset)
    case Split(_, offset) => U32(offset)
    case Save(index, _) => U8(index)
    case SaveReset(first, last) => U8(first) + U8(last)
    case Loop(offset) => U32(offset)
    case PushI32(v) => U32(v)
    case BackReference(index, _, _) => U8(index)
    case Lookahead(_, offset) => U32(offset)
    case SimpleGreedyQuant(offset, min, max, chars) => U32(offset) + U32(min) + U32(max) + U32(chars)
    case _ => []
  }

  function Encode(i: Instr): (s: seq<Byte>)
    ensures |s| == i.Size()
  {
    [Opcode(i)] + Operands(i)
  }

  function EncodeAll(code: seq<Instr>): (s: seq<Byte>)
    ensures |s| == Size(code)
  {
    if code == [] then [] else Encode(code[0]) + EncodeAll(code[1..])
  }

  lemma {:induction false} EncodeAppend(a: seq<Instr>, b: seq<Instr>)
    ensures EncodeAll(a + b) == EncodeAll(a) + EncodeAll(b)
  {
    if a == [] {
      assert a + b == b;
    } else {
      assert (a + b)[1..] == a[1..] + b;
      EncodeAppend(a[1..], b);
    }
  }

  lemma EncodeIs(i: Instr)
    ensures Encode(i) == [Opcode(i)] + Operands(i)
  {
  }

  lemma JoinThree(a: seq<Byte>, b: seq<Byte>, c: seq<Byte>)
    ensures a + b + c == a + (b + c)
  {
  }

  lemma JoinFour(a: seq<Byte>, b: seq<Byte>, c: seq<Byte>, d: seq<Byte>)
    ensures a + b + c + d == a + (b + c + d)
  {
  }

  lemma EncodeOne(i: Instr)
    ensures EncodeAll([i]) == Encode(i)
  {
    assert [i][1..] == [];
    assert EncodeAll([i][1..]) == [];
  }

  // Decoding, at the head of a byte sequence.

  function DecodePairs(s: seq<Byte>, n: nat, wide: bool): seq<(nat, nat)>
    requires |s| >= (if wide then 8 else 4) * n
  {
    if n == 0 then []
    else if wide then [(GetU32(s), GetU32(s[4..]))] + DecodePairs(s[8..], n - 1, wide)
    else [(GetU16(s), GetU16(s[2..]))] + DecodePairs(s[4..], n - 1, wide)
  }

  function DecodeRange(s: seq<Byte>, wide: bool, icase: bool): Option<Instr> {
    if |s| < 2 then None
    else
      var n := GetU16(s);
      if |s| - 2 < (if wide then 8 else 4) * n then None
      else Some(Range(DecodePairs(s[2..], n, wide), wide, icase))
  }

  /** The instruction of an opcode whose operands stand at the head of s. */
  function DecodeOperands(op: Byte, s: seq<Byte>): Option<Instr> {
    if op == 0 then None
    else if op <= 2 then if |s| < 2 then None else Some(Char(GetU16(s), false, op == 2))
    else if op <= 4 then if |s| < 4 then None else Some(Char(GetU32(s), true, op == 4))
    else if op == 5 then Some(Dot)
    else if op == 6 then Some(Any)
    else if op <= 8 then Some(Check(LineStart(op == 8)))
    else if op <= 10 then Some(Check(LineEnd(op == 10)))
    else if op == 14 then Some(Match)
    else if op == 20 then Some(Drop)
    else if 21 <= op <= 24 then Some(Check(WordBoundary(op >= 23, op == 22 || op == 24)))
    else if op == 35 then Some(PushCharPos)
    else if op == 36 then Some(CheckAdvance)
    else if op == 37 then Some(PrevChar)
    else if 29 <= op <= 32 then DecodeRange(s, op >= 31, op == 30 || op == 32)
    else if op > 38 || |s| < 1 then None
    else if op == 15 || op == 16 then Some(Save(s[0], op == 16))
    else if 25 <= op <= 28 then Some(BackReference(s[0], op == 26 || op == 28, op >= 27))
    else if op == 17 then if |s| < 2 then None else Some(SaveReset(s[0], s[1]))
    else if |s| < 4 then None
    else if op == 11 then Some(Goto(GetI32(s)))
    else if op <= 13 then Some(Split(op == 13, GetI32(s)))
    else if op == 18 then Some(Loop(GetI32(s)))
    else if op == 19 then Some(PushI32(GetU32(s)))
    else if op == 33 || op == 34 then Some(Lookahead(op == 34, GetI32(s)))
    else if |s| < 16 then None
    else Some(SimpleGreedyQuant(GetI32(s), GetU32(s[4..]), GetU32(s[8..]), GetU32(s[12..])))
  }

  function Decode(s: seq<Byte>): Option<Instr> {
    if s == [] then None else DecodeOperands(s[0], s[1..])
  }

  /** The operands that survive encoding. */
  predicate Encodable(i: Instr) {
    match i
    case Char(val, wide, _) => val < (if wide then TWO32 else 0x10000)
    case Range(pairs, wide, _) =>
      |pairs| < 0x10000 && PairsFit(pairs, if wide then TWO32 else 0x10000)
    case Goto(offset) => FitsI32(offset)
    case Split(_, offset) => FitsI32(offset)
    case Loop(offset) => FitsI32(offset)
    case Lookahead(_, offset) => FitsI32(offset)
    case Save(index, _) => index < 256
    case SaveReset(first, last) => first < 256 && last < 256
    case PushI32(v) => v < TWO32
    case BackReference(index, _, _) => index < 256
    case SimpleGreedyQuant(offset, min, max, chars) =>
      FitsI32(offset) && min < TWO32 && max < TWO32 && chars < TWO32
    case _ => true
  }

  predicate PairsFit(pairs: seq<(nat, nat)>, limit: nat) {
    forall k :: 0 <= k < |pairs| ==> pairs[k].0 < limit && pairs[k].1 < limit
  }

  lemma {:induction false} NarrowPairsBack(pairs: seq<(nat, nat)>, rest: seq<Byte>)
    requires PairsFit(pairs, 0x10000)
    ensures DecodePairs(EncodePairs(pairs, false) + rest, |pairs|, false) == pairs
    decreases |pairs|
  {
    if pairs != [] {
      hide U16, U32, GetU16, GetU32;
      var (a, b) := pairs[0];
      var more := EncodePairs(pairs[1..], false) + rest;
      var s := EncodePairs(pairs, false) + rest;
      NarrowPairsBack(pairs[1..], rest);
      assert s == U16(a) + (U16(b) + more);
      U16Back(a, U16(b) + more);
      U16Back(b, more);
      assert s[2..] == U16(b) + more && s[4..] == more;
      assert pairs == [(a, b)] + pairs[1..];
    }
  }

  lemma {:induction false} WidePairsBack(pairs: seq<(nat, nat)>, rest: seq<Byte>)
    requires PairsFit(pairs, TWO32)
    ensures DecodePairs(EncodePairs(pairs, true) + rest, |pairs|, true) == pairs
    decreases |pairs|
  {
    if pairs != [] {
      hide U32, GetU32, DecodePairs;
      var (a, b) := pairs[0];
      var more := EncodePairs(pairs[1..], true) + rest;
      WidePairsBack(pairs[1..], rest);
      WidePair(a, b, more, |pairs|);
      assert EncodePairs(pairs, true) + rest == U32(a) + U32(b) + more;
      assert pairs == [(a, b)] + pairs[1..];
    }
  }

  lemma WidePair(a: nat, b: nat, more: seq<Byte>, n: nat)
    requires a < TWO32 && b < TWO32 && n > 0 && |more| >= 8 * (n - 1)
    ensures DecodePairs(U32(a) + U32(b) + more, n, true) == [(a, b)] + DecodePairs(more, n - 1, true)
  {
    hide U32, GetU32;
    var s := U32(a) + U32(b) + more;
    U32Back(a, U32(b) + more);
    U32Back(b, more);
    assert s == U32(a) + (U32(b) + more);
    assert s[4..] == U32(b) + more && s[8..] == more;
  }

  lemma RangeBack(pairs: seq<(nat, nat)>, wide: bool, icase: bool, rest: seq<Byte>)
    requires Encodable(Range(pairs, wide, icase))
    ensures DecodeRange(Operands(Range(pairs, wide, icase)) + rest, wide, icase) == Some(Range(pairs, wide, icase))
  {
    hide U16, GetU16;
    var s := Operands(Range(pairs, wide, icase)) + rest;
    assert s == U16(|pairs|) + (EncodePairs(pairs, wide) + rest);
    U16Back(|pairs|, EncodePairs(pairs, wide) + rest);
    assert s[2..] == EncodePairs(pairs, wide) + rest;
    if wide { WidePairsBack(pairs, rest); } else { NarrowPairsBack(pairs, rest); }
  }

  lemma QuantBack(i: Instr, rest: seq<Byte>)
    requires i.SimpleGreedyQuant? && Encodable(i)
    ensures var s := Operands(i) + rest;
      GetI32(s) == i.offset && GetU32(s[4..]) == i.min && GetU32(s[8..]) == i.max && GetU32(s[12..]) == i.charCount
  {
    hide U32, GetU32, GetI32;
    var s := Operands(i) + rest;
    assert s == U32(i.offset) + (U32(i.min) + U32(i.max) + U32(i.charCount) + rest);
    assert s[4..] == U32(i.min) + (U32(i.max) + U32(i.charCount) + rest);
    assert s[8..] == U32(i.max) + (U32(i.charCount) + rest);
    assert s[12..] == U32(i.charCount) + rest;
    I32Back(i.offset, U32(i.min) + U32(i.max) + U32(i.charCount) + rest);
    U32Back(i.min, U32(i.max) + U32(i.charCount) + rest);
    U32Back(i.max, U32(i.charCount) + rest);
    U32Back(i.charCount, rest);
  }

  /** Decoding undoes encoding, for every opcode. */
  lemma DecodeEncode(i: Instr, rest: seq<Byte>)
    requires Encodable(i)
    ensures Decode(Encode(i) + rest) == Some(i)
  {
    hide DecodeOperands, Opcode, Operands, Encodable;
    assert (Encode(i) + rest)[1..] == Operands(i) + rest;
    if i.Goto? || i.Split? || i.Loop? || i.Lookahead? || i.PushI32? { JumpBack(i, rest); }
    else { OperandsBack(i, rest); }
  }

  lemma JumpBack(i: Instr, rest: seq<Byte>)
    requires Encodable(i) && (i.Goto? || i.Split? || i.Loop? || i.Lookahead? || i.PushI32?)
    ensures DecodeOperands(Opcode(i), Operands(i) + rest) == Some(i)
  {
    hide U16, U32, GetU16, GetU32, GetI32, EncodePairs, DecodePairs, DecodeRange;
    if i.PushI32? { U32Back(i.count, rest); } else { I32Back(i.offset, rest); }
  }

  lemma OperandsBack(i: Instr, rest: seq<Byte>)
    requires Encodable(i) && !(i.Goto? || i.Split? || i.Loop? || i.Lookahead? || i.PushI32?)
    ensures DecodeOperands(Opcode(i), Operands(i) + rest) == Some(i)
  {
    hide U16, U32, GetU16, GetU32, GetI32, EncodePairs, DecodePairs, DecodeRange;
    match i
    case Char(val, wide, _) =>
      if wide { U32Back(val, rest); } else { U16Back(val, rest); }
    case Range(pairs, wide, icase) => RangeBack(pairs, wide, icase, rest);
    case SimpleGreedyQuant(_, _, _, _) => QuantBack(i, rest);
    case _ =>
  }

  /** The listing of a byte code: what is decoded at each address. */
  function Disassemble(bytes: seq<Byte>): Listing {
    seq(|bytes|, p requires 0 <= p < |bytes| => Decode(bytes[p..]))
  }

  lemma {:induction false} DisassembleHolds(bytes: seq<Byte>, p: nat, code: seq<Instr>, post: seq<Byte>)
    requires p <= |bytes| && bytes[p..] == EncodeAll(code) + post
    requires forall k :: 0 <= k < |code| ==> Encodable(code[k])
    ensures Holds(Disassemble(bytes), p, code)
    decreases |code|
  {
    hide *;
    if code == [] {
      HoldsNothing(Disassemble(bytes), p);
    } else {
      var i, more := code[0], code[1..];
      DropFirst(bytes, p, code, post);
      assert Encodable(code[0]);
      DecodeEncode(i, EncodeAll(more) + post);
      DisassembleAt(bytes, p);
      DisassembleHolds(bytes, p + i.Size(), more, post);
      HoldsHead(Disassemble(bytes), p, code);
    }
  }

  lemma DropFirst(bytes: seq<Byte>, p: nat, code: seq<Instr>, post: seq<Byte>)
    requires p <= |bytes| && bytes[p..] == EncodeAll(code) + post && code != []
    ensures var i, rest := code[0], EncodeAll(code[1..]) + post;
      && p + i.Size() <= |bytes| && p < |bytes|
      && bytes[p..] == Encode(i) + rest
      && bytes[p + i.Size()..] == rest
  {
    hide *;
    EncodeCons(code);
    var a, b := Encode(code[0]), EncodeAll(code[1..]);
    assert (a + b) + post == a + (b + post);
    DropPart(bytes, p, a, b + post);
  }

  lemma EncodeCons(code: seq<Instr>)
    requires code != []
    ensures EncodeAll(code) == Encode(code[0]) + EncodeAll(code[1..]) && |Encode(code[0])| == code[0].Size() >= 1
  {
  }

  lemma DropPart(bytes: seq<Byte>, p: nat, a: seq<Byte>, b: seq<Byte>)
    requires p <= |bytes| && bytes[p..] == a + b
    ensures p + |a| <= |bytes| && bytes[p + |a|..] == b
  {
    assert bytes[p + |a|..] == bytes[p..][|a|..];
  }

  lemma HoldsHead(prog: Listing, pc: nat, code: seq<Instr>)
    requires code != []
    ensures Holds(prog, pc, code) <==> Fetch(prog, pc) == Some(code[0]) && Holds(prog, pc + code[0].Size(), code[1..])
  {
  }

  lemma HoldsNothing(prog: Listing, pc: nat)
    ensures Holds(prog, pc, [])
  {
  }

  lemma DisassembleAt(bytes: seq<Byte>, p: nat)
    requires p < |bytes|
    ensures Fetch(Disassemble(bytes), p) == Decode(bytes[p..])
  {
    hide Decode;
  }
}
