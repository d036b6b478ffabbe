/** Run-length encoded character tables: the plain decoder and the indexed lookup. */
module RunTable {
  import opened CharSets
  import opened CharRanges

  const INDEX_BLOCK_LEN: nat := 32
  const CODE_LIMIT: nat := 0x20_0000

  type Byte = x: nat | x < 256

  function At(tab: seq<Byte>, i: nat): nat
    requires i < |tab|
  {
    tab[i]
  }

  // One encoded step.

  /** How many bytes the entry at pos takes. */
  function EntrySize(tab: seq<Byte>, pos: nat): nat
    requires pos < |tab|
  {
    if At(tab, pos) < 64 || At(tab, pos) >= 0x80 then 1 else if At(tab, pos) < 0x60 then 2 else 3
  }

  /** Every entry is complete. */
  predicate WellEncoded(tab: seq<Byte>, pos: nat)
    decreases |tab| - pos
  {
    pos >= |tab| || (pos + EntrySize(tab, pos) <= |tab| && WellEncoded(tab, pos + EntrySize(tab, pos)))
  }

  /** The length of the first run of an entry. */
  function RunLen(tab: seq<Byte>, pos: nat): (n: nat)
    requires pos < |tab| && pos + EntrySize(tab, pos) <= |tab|
    ensures n > 0
  {
    var b := At(tab, pos);
    if b < 64 then b / 8 + 1
    else if b >= 0x80 then b - 0x80 + 1
    else if b < 0x60 then (b - 0x40) * 0x100 + At(tab, pos + 1) + 1
    else (b - 0x60) * 0x1_0000 + At(tab, pos + 1) * 0x100 + At(tab, pos + 2) + 1
  }

  /** The length of the second run, if the entry packs two. */
  function RunLen2(tab: seq<Byte>, pos: nat): nat
    requires pos < |tab|
  {
    if At(tab, pos) < 64 then At(tab, pos) % 8 + 1 else 0
  }

  /** Whether the character at or behind code is in a run that is set, decoding from pos with the given bit. */
  predicate InRuns(tab: seq<Byte>, pos: nat, code: nat, bit: bool, c: nat)
    requires WellEncoded(tab, pos)
    decreases |tab| - pos
  {
    if pos >= |tab| then false
    else
      var n, n2, next := RunLen(tab, pos), RunLen2(tab, pos), pos + EntrySize(tab, pos);
      if c < code + n then bit
      else if n2 > 0 then (if c < code + n + n2 then !bit else InRuns(tab, next, code + n + n2, bit, c))
      else InRuns(tab, next, code + n, !bit, c)
  }

  /** Where the last run ends. */
  function EndCode(tab: seq<Byte>, pos: nat, code: nat): (e: nat)
    requires WellEncoded(tab, pos)
    ensures e >= code
    decreases |tab| - pos
  {
    if pos >= |tab| then code
    else EndCode(tab, pos + EntrySize(tab, pos), code + RunLen(tab, pos) + RunLen2(tab, pos))
  }

  /** Decoding from the one state passes through the other. */
  predicate Decodes(tab: seq<Byte>, pos: nat, code: nat, bit: bool, pos1: nat, code1: nat, bit1: bool)
    requires WellEncoded(tab, pos)
    decreases |tab| - pos
  {
    if pos == pos1 then code == code1 && bit == bit1
    else if pos >= |tab| then false
    else
      Decodes(tab, pos + EntrySize(tab, pos), code + RunLen(tab, pos) + RunLen2(tab, pos),
              if RunLen2(tab, pos) > 0 then bit else !bit, pos1, code1, bit1)
  }

  lemma {:induction false} DecodesGrows(tab: seq<Byte>, pos: nat, code: nat, bit: bool, pos1: nat, code1: nat,
      bit1: bool)
    requires WellEncoded(tab, pos) && Decodes(tab, pos, code, bit, pos1, code1, bit1)
    ensures code <= code1 && WellEncoded(tab, pos1)
    ensures EndCode(tab, pos, code) == EndCode(tab, pos1, code1)
    decreases |tab| - pos
  {
    if pos != pos1 {
      DecodesGrows(tab, pos + EntrySize(tab, pos), code + RunLen(tab, pos) + RunLen2(tab, pos),
                   if RunLen2(tab, pos) > 0 then bit else !bit, pos1, code1, bit1);
    }
  }

  /** Characters from a state on are decided by what follows it. */
  lemma {:induction false} DecodesInRuns(tab: seq<Byte>, pos: nat, code: nat, bit: bool, pos1: nat, code1: nat,
      bit1: bool, c: nat)
    requires WellEncoded(tab, pos) && Decodes(tab, pos, code, bit, pos1, code1, bit1) && c >= code1
    ensures WellEncoded(tab, pos1) && InRuns(tab, pos, code, bit, c) == InRuns(tab, pos1, code1, bit1, c)
    decreases |tab| - pos
  {
    DecodesGrows(tab, pos, code, bit, pos1, code1, bit1);
    if pos != pos1 {
      var code2 := code + RunLen(tab, pos) + RunLen2(tab, pos);
      var bit2 := if RunLen2(tab, pos) > 0 then bit else !bit;
      DecodesGrows(tab, pos + EntrySize(tab, pos), code2, bit2, pos1, code1, bit1);
      DecodesInRuns(tab, pos + EntrySize(tab, pos), code2, bit2, pos1, code1, bit1, c);
    }
  }

  /** No run reaches the end code. */
  lemma {:induction false} OutsideRuns(tab: seq<Byte>, pos: nat, code: nat, bit: bool, c: nat)
    requires WellEncoded(tab, pos) && c >= EndCode(tab, pos, code)
    ensures !InRuns(tab, pos, code, bit, c)
    decreases |tab| - pos
  {
    if pos < |tab| {
      var code2 := code + RunLen(tab, pos) + RunLen2(tab, pos);
      var bit2 := if RunLen2(tab, pos) > 0 then bit else !bit;
      OutsideRuns(tab, pos + EntrySize(tab, pos), code2, bit2, c);
    }
  }

  // The plain decoder.

  lemma SomeMore(s: seq<nat>, a: nat, b: nat, c: nat)
    requires |s| % 2 == 0
    ensures InSome(s + [a, b], c) <==> InSome(s, c) || a <= c < b
  {
    var t := s + [a, b];
    if i: nat :| 2 * i + 1 < |s| && s[2 * i] <= c < s[2 * i + 1] {
      assert t[2 * i] <= c < t[2 * i + 1];
    }
    if a <= c < b {
      assert t[2 * (|s| / 2)] <= c < t[2 * (|s| / 2) + 1];
    }
    if i: nat :| 2 * i + 1 < |t| && t[2 * i] <= c < t[2 * i + 1] {
      if 2 * i + 1 < |s| { assert s[2 * i] <= c < s[2 * i + 1]; }
    }
  }

  /** The intervals hold what has been decoded so far. */
  ghost predicate DecodedTo(tab: seq<Byte>, pos: nat, code: nat, bit: bool, out: seq<nat>) {
    && WellEncoded(tab, 0) && WellEncoded(tab, pos) && |out| % 2 == 0
    && forall c: nat {:trigger InSome(out, c)} ::
         InRuns(tab, 0, 0, false, c) <==> if c < code then InSome(out, c) else InRuns(tab, pos, code, bit, c)
  }

  ghost predicate NothingFrom(out: seq<nat>, code: nat) {
    forall c: nat {:trigger InSome(out, c)} :: c >= code ==> !InSome(out, c)
  }

  /** Adds the interval when the bit is set. */
  function WithRun(out: seq<nat>, bit: bool, a: nat, b: nat): seq<nat> {
    if bit then out + [a, b] else out
  }

  lemma WithRunIs(out: seq<nat>, bit: bool, a: nat, b: nat, c: nat)
    requires |out| % 2 == 0
    ensures InSome(WithRun(out, bit, a, b), c) <==> InSome(out, c) || (bit && a <= c < b)
  {
    SomeMore(out, a, b, c);
  }

  /** One entry of the decoder. */
  lemma EntryDecoded(tab: seq<Byte>, pos: nat, code: nat, bit: bool, out: seq<nat>)
    requires pos < |tab| && DecodedTo(tab, pos, code, bit, out) && NothingFrom(out, code)
    ensures var n, n2, next := RunLen(tab, pos), RunLen2(tab, pos), pos + EntrySize(tab, pos);
      var out1 := WithRun(out, bit, code, code + n);
      if n2 > 0 then
        var out2 := WithRun(out1, !bit, code + n, code + n + n2);
        DecodedTo(tab, next, code + n + n2, bit, out2) && NothingFrom(out2, code + n + n2)
      else DecodedTo(tab, next, code + n, !bit, out1) && NothingFrom(out1, code + n)
  {
    var n, n2, next := RunLen(tab, pos), RunLen2(tab, pos), pos + EntrySize(tab, pos);
    var out1 := WithRun(out, bit, code, code + n);
    var out2 := WithRun(out1, !bit, code + n, code + n + n2);
    forall c: nat
      ensures InSome(out1, c) <==> InSome(out, c) || (bit && code <= c < code + n)
      ensures InSome(out2, c) <==> InSome(out1, c) || (!bit && code + n <= c < code + n + n2)
      ensures c < code ==> (InSome(out, c) <==> InRuns(tab, 0, 0, false, c))
      ensures c >= code ==> !InSome(out, c) && (InRuns(tab, 0, 0, false, c) <==> InRuns(tab, pos, code, bit, c))
    {
      WithRunIs(out, bit, code, code + n, c);
      WithRunIs(out1, !bit, code + n, code + n + n2, c);
      assert InSome(out, c) || !InSome(out, c);
    }
    hide InSome, WithRun;
  }

  /** unicode_prop1: the intervals of a table. */
  method UnicodeProp1(cr: CharRange, tab: seq<Byte>)
    requires cr.points == [] && WellEncoded(tab, 0)
    modifies cr
    ensures forall c: nat :: InSome(cr.points, c) <==> InRuns(tab, 0, 0, false, c)
  {
    var pos: nat, code: nat, bit := 0, 0, false;
    assert DecodedTo(tab, 0, 0, false, []) && NothingFrom([], 0);
    hide DecodedTo, NothingFrom, WellEncoded;
    while pos < |tab|
      invariant pos <= |tab| && DecodedTo(tab, pos, code, bit, cr.points) && NothingFrom(cr.points, code)
      decreases |tab| - pos
    {
      CompleteEntry(tab, pos, code, bit, cr.points);
      EntryDecoded(tab, pos, code, bit, cr.points);
      var code0, b := code, At(tab, pos);
      pos := pos + 1;
      if b < 64 {
        code := code + b / 8 + 1;
        if bit { cr.AddInterval(code0, code); }
        bit := !bit;
        code0 := code;
        code := code + b % 8 + 1;
      } else if b >= 0x80 {
        code := code + b - 0x80 + 1;
      } else if b < 0x60 {
        code := code + (b - 0x40) * 0x100 + At(tab, pos) + 1;
        pos := pos + 1;
      } else {
        code := code + (b - 0x60) * 0x1_0000 + At(tab, pos) * 0x100 + At(tab, pos + 1) + 1;
        pos := pos + 2;
      }
      if bit { cr.AddInterval(code0, code); }
      bit := !bit;
    }
    AllDecoded(tab, pos, code, bit, cr.points);
  }

  lemma CompleteEntry(tab: seq<Byte>, pos: nat, code: nat, bit: bool, out: seq<nat>)
    requires pos < |tab| && DecodedTo(tab, pos, code, bit, out)
    ensures pos + EntrySize(tab, pos) <= |tab|
  {
  }

  lemma AllDecoded(tab: seq<Byte>, pos: nat, code: nat, bit: bool, out: seq<nat>)
    requires pos >= |tab| && DecodedTo(tab, pos, code, bit, out) && NothingFrom(out, code)
    ensures forall c: nat :: InSome(out, c) <==> InRuns(tab, 0, 0, false, c)
  {
  }

  // The indexed lookup.

  function GetLe24(t: seq<Byte>, k: nat): nat
    requires 3 * k + 2 < |t|
  {
    At(t, 3 * k) + At(t, 3 * k + 1) * 0x100 + At(t, 3 * k + 2) * 0x1_0000
  }

  /** The first character of an index entry. */
  function IndexCode(t: seq<Byte>, k: nat): nat
    requires 3 * k + 2 < |t|
  {
    GetLe24(t, k) % CODE_LIMIT
  }

  /** The position in the table that an index entry stands for. */
  function IndexPos(t: seq<Byte>, k: nat): nat
    requires 3 * k + 2 < |t|
  {
    (k + 1) * INDEX_BLOCK_LEN + GetLe24(t, k) / CODE_LIMIT
  }

  /** Entries at encoding boundaries with an even number of runs before them, in order, the last one at the end. */
  ghost predicate ValidIndex(tab: seq<Byte>, index: seq<Byte>, n: nat) {
    && n >= 1 && |index| == 3 * n && WellEncoded(tab, 0)
    && (forall k :: 0 <= k < n - 1 ==> Decodes(tab, 0, 0, false, IndexPos(index, k), IndexCode(index, k), false))
    && (forall j, k :: 0 <= j < k < n ==> IndexCode(index, j) <= IndexCode(index, k))
    && GetLe24(index, n - 1) < CODE_LIMIT && GetLe24(index, n - 1) == EndCode(tab, 0, 0)
  }

  /** get_index_pos: -1 behind the table, otherwise where to start decoding. */
  method GetIndexPos(c: nat, ghost tab: seq<Byte>, index: seq<Byte>, n: nat) returns (pos: int, code: nat)
    requires ValidIndex(tab, index, n)
    ensures pos >= -1 && (pos == -1 ==> c >= EndCode(tab, 0, 0))
    ensures pos >= 0 ==> code <= c < EndCode(tab, 0, 0) && Decodes(tab, 0, 0, false, pos, code, false)
  {
    hide Decodes, EndCode, WellEncoded;
    code := IndexCode(index, 0);
    if c < code {
      EndIsLast(tab, index, n);
      return 0, 0;
    }
    var idxMin, idxMax := 0, n - 1;
    if c >= GetLe24(index, idxMax) {
      return -1, code;
    }
    while idxMax - idxMin > 1
      invariant 0 <= idxMin <= idxMax <= n - 1 && IndexCode(index, idxMin) <= c < IndexCode(index, idxMax)
      decreases idxMax - idxMin
    {
      var idx := (idxMax + idxMin) / 2;
      if c < IndexCode(index, idx) {
        idxMax := idx;
      } else {
        idxMin := idx;
      }
    }
    pos, code := IndexPos(index, idxMin), IndexCode(index, idxMin);
  }

  lemma EndIsLast(tab: seq<Byte>, index: seq<Byte>, n: nat)
    requires ValidIndex(tab, index, n)
    ensures IndexCode(index, 0) <= EndCode(tab, 0, 0) && Decodes(tab, 0, 0, false, 0, 0, false)
  {
    assert IndexCode(index, n - 1) == GetLe24(index, n - 1);
  }

  /** One entry of the lookup. */
  lemma StepIn(tab: seq<Byte>, pos: nat, code: nat, bit: bool, c: nat)
    requires WellEncoded(tab, pos) && code <= c < EndCode(tab, pos, code)
    ensures pos < |tab| && pos + EntrySize(tab, pos) <= |tab| && WellEncoded(tab, pos + EntrySize(tab, pos))
    ensures var n, n2, next := RunLen(tab, pos), RunLen2(tab, pos), pos + EntrySize(tab, pos);
      && EndCode(tab, next, code + n + n2) == EndCode(tab, pos, code)
      && (c < code + n ==> InRuns(tab, pos, code, bit, c) == bit)
      && (code + n <= c < code + n + n2 ==> InRuns(tab, pos, code, bit, c) == !bit)
      && (c >= code + n + n2 ==>
            InRuns(tab, pos, code, bit, c) == InRuns(tab, next, code + n + n2, if n2 > 0 then bit else !bit, c))
  {
  }

  /** The loop of lre_is_in_table, from a position that get_index_pos finds. */
  method ScanRuns(c: nat, tab: seq<Byte>, p: nat, first: nat) returns (r: bool)
    requires WellEncoded(tab, p) && first <= c < EndCode(tab, p, first)
    ensures r == InRuns(tab, p, first, false, c)
  {
    hide InRuns, EndCode, WellEncoded;
    var pos: nat, code: nat, bit := p, first, false;
    while true
      invariant WellEncoded(tab, pos) && code <= c < EndCode(tab, pos, code)
      invariant InRuns(tab, pos, code, bit, c) == InRuns(tab, p, first, false, c)
      decreases |tab| - pos
    {
      StepIn(tab, pos, code, bit, c);
      ghost var pos0, code0 := pos, code;
      var b := At(tab, pos);
      pos := pos + 1;
      if b < 64 {
        code := code + b / 8 + 1;
        if c < code {
          return bit;
        }
        bit := !bit;
        code := code + b % 8 + 1;
      } else if b >= 0x80 {
        code := code + b - 0x80 + 1;
      } else if b < 0x60 {
        code := code + (b - 0x40) * 0x100 + At(tab, pos) + 1;
        pos := pos + 1;
      } else {
        code := code + (b - 0x60) * 0x1_0000 + At(tab, pos) * 0x100 + At(tab, pos + 1) + 1;
        pos := pos + 2;
      }
      assert code == code0 + RunLen(tab, pos0) + RunLen2(tab, pos0) && pos == pos0 + EntrySize(tab, pos0);
      if c < code {
        return bit;
      }
      bit := !bit;
    }
  }

  /** lre_is_in_table: the same answer as the plain decoder. */
  method IsInTable(c: nat, tab: seq<Byte>, index: seq<Byte>, n: nat) returns (r: bool)
    requires ValidIndex(tab, index, n)
    ensures r == InRuns(tab, 0, 0, false, c)
  {
    var p: int, code: nat;
    p, code := GetIndexPos(c, tab, index, n);
    if p < 0 {
      OutsideRuns(tab, 0, 0, false, c);
      return false;
    }
    DecodesInRuns(tab, 0, 0, false, p, code, false, c);
    DecodesGrows(tab, 0, 0, false, p, code, false);
    r := ScanRuns(c, tab, p, code);
  }
}
