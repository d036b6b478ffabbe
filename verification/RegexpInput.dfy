/** The subject string of a match: reading characters forwards and backwards.

    Positions are counted in code units, not in bytes.  In UTF-16 mode a high
    surrogate followed by a low surrogate reads as one character.  Case folding
    (`lre_canonicalize`) is a parameter. */
module RegexpInput {

  const CHAR_LIMIT: nat := 0x110000

  datatype Input = Input(units: seq<nat>, utf16: bool, canon: nat -> nat)

  /** 16-bit code units, and a case folding that stays inside Unicode. */
  ghost predicate ValidInput(inp: Input) {
    && (forall i :: 0 <= i < |inp.units| ==> inp.units[i] < 0x10000)
    && (forall c :: inp.canon(c) < CHAR_LIMIT)
  }

  predicate IsHiSurrogate(c: nat) { c / 0x400 == 0xD800 / 0x400 }

  predicate IsLoSurrogate(c: nat) { c / 0x400 == 0xDC00 / 0x400 }

  function FromSurrogate(hi: nat, lo: nat): nat
    requires IsHiSurrogate(hi) && IsLoSurrogate(lo)
  {
    0x10000 + 0x400 * (hi - 0xD800) + (lo - 0xDC00)
  }

  /** True when the units at pos-1 and pos are the two halves of one character. */
  predicate Splits(inp: Input, pos: nat) {
    && inp.utf16
    && 0 < pos < |inp.units|
    && IsHiSurrogate(inp.units[pos - 1])
    && IsLoSurrogate(inp.units[pos])
  }

  /** A position the matcher may be at: inside the text and not inside a character. */
  predicate Boundary(inp: Input, pos: nat) {
    pos <= |inp.units| && !Splits(inp, pos)
  }

  /** GET_CHAR with the read limited by `end`: the character and the position behind it. */
  function GetCharTo(inp: Input, pos: nat, end: nat): (r: (nat, nat))
    requires pos < end <= |inp.units|
    ensures pos < r.1 <= end
  {
    var c := inp.units[pos];
    if IsHiSurrogate(c) && inp.utf16 && pos + 1 < end && IsLoSurrogate(inp.units[pos + 1]) then
      (FromSurrogate(c, inp.units[pos + 1]), pos + 2)
    else
      (c, pos + 1)
  }

  function CharAt(inp: Input, pos: nat): nat
    requires pos < |inp.units|
  {
    GetCharTo(inp, pos, |inp.units|).0
  }

  function Next(inp: Input, pos: nat): (next: nat)
    requires pos < |inp.units|
    ensures pos < next <= |inp.units|
  {
    GetCharTo(inp, pos, |inp.units|).1
  }

  /** GET_PREV_CHAR with the read limited by `start`: the character before pos and its position. */
  function GetPrevCharFrom(inp: Input, pos: nat, start: nat): (r: (nat, nat))
    requires start < pos <= |inp.units|
    ensures start <= r.1 < pos
  {
    var c := inp.units[pos - 1];
    if IsLoSurrogate(c) && inp.utf16 && pos - 1 > start && IsHiSurrogate(inp.units[pos - 2]) then
      (FromSurrogate(inp.units[pos - 2], c), pos - 2)
    else
      (c, pos - 1)
  }

  function PrevCharAt(inp: Input, pos: nat): nat
    requires 0 < pos <= |inp.units|
  {
    GetPrevCharFrom(inp, pos, 0).0
  }

  function Prev(inp: Input, pos: nat): (prev: nat)
    requires 0 < pos <= |inp.units|
    ensures prev < pos
  {
    GetPrevCharFrom(inp, pos, 0).1
  }

  /** The adjustment of the start position made by lre_exec. */
  function StartPos(inp: Input, cindex: nat): (pos: nat)
    requires cindex <= |inp.units|
    ensures Boundary(inp, pos)
    ensures pos <= cindex && (Boundary(inp, cindex) ==> pos == cindex)
  {
    if 0 < cindex < |inp.units| && inp.utf16
       && IsLoSurrogate(inp.units[cindex]) && IsHiSurrogate(inp.units[cindex - 1]) then
      cindex - 1
    else
      cindex
  }

  lemma NextBoundary(inp: Input, pos: nat)
    requires Boundary(inp, pos) && pos < |inp.units|
    ensures Boundary(inp, Next(inp, pos))
  {
  }

  lemma PrevBoundary(inp: Input, pos: nat)
    requires 0 < pos <= |inp.units|
    ensures Boundary(inp, Prev(inp, pos))
  {
  }

  /** PREV_CHAR undoes GET_CHAR, exactly at the positions that do not cut a character. */
  lemma PrevNext(inp: Input, pos: nat)
    requires pos < |inp.units|
    ensures Prev(inp, Next(inp, pos)) == pos <==> Boundary(inp, pos)
  {
  }

  lemma NextPrev(inp: Input, pos: nat)
    requires 0 < pos && Boundary(inp, pos)
    ensures Next(inp, Prev(inp, pos)) == pos
    ensures CharAt(inp, Prev(inp, pos)) == PrevCharAt(inp, pos)
  {
  }

  lemma CharInRange(inp: Input, pos: nat)
    requires ValidInput(inp) && pos < |inp.units|
    ensures CharAt(inp, pos) < CHAR_LIMIT
  {
  }
}
