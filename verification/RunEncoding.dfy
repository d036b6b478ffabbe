/** The writer of the run-length tables, and what its tables mean to the readers. */
module RunEncoding {
  import opened CharRanges
  import opened CharSets
  import opened RunTable

  // Runs of characters, alternately out of and in the set.

  function Sum(runs: seq<nat>): nat {
    if runs == [] then 0 else Sum(runs[..|runs| - 1]) + runs[|runs| - 1]
  }

  /** The runs are numbered from 0 and laid end to end; the character lies in run k. */
  predicate InRun(runs: seq<nat>, k: nat, c: nat)
    requires k < |runs|
  {
    Sum(runs[..k]) <= c < Sum(runs[..k + 1])
  }

  ghost predicate InOddRun(runs: seq<nat>, c: nat) { OddFrom(runs, 0, c) }

  ghost predicate OddFrom(runs: seq<nat>, j: nat, c: nat) {
    exists k: nat :: j <= k < |runs| && k % 2 == 1 && InRun(runs, k, c)
  }

  lemma SumSnoc(runs: seq<nat>, n: nat)
    ensures Sum(runs + [n]) == Sum(runs) + n
  {
    assert (runs + [n])[..|runs|] == runs;
  }

  lemma {:induction false} SumAppend(a: seq<nat>, b: seq<nat>)
    ensures Sum(a + b) == Sum(a) + Sum(b)
    decreases |b|
  {
    if b == [] {
      assert a + b == a;
    } else {
      var m := |b| - 1;
      assert a + b == (a + b[..m]) + [b[m]];
      SumSnoc(a + b[..m], b[m]);
      SumAppend(a, b[..m]);
    }
  }

  /** The same, run by run, from the character `code` on. */
  predicate OnAt(runs: seq<nat>, code: nat, bit: bool, c: nat) {
    if runs == [] then false else if c < code + runs[0] then bit else OnAt(runs[1..], code + runs[0], !bit, c)
  }

  lemma SumMono(runs: seq<nat>, j: nat, k: nat)
    requires j <= k <= |runs|
    ensures Sum(runs[..j]) <= Sum(runs[..k])
  {
    assert runs[..k] == runs[..j] + runs[j..k];
    SumAppend(runs[..j], runs[j..k]);
  }

  lemma {:induction false} OnAtIs(runs: seq<nat>, j: nat, c: nat)
    requires j <= |runs| && c >= Sum(runs[..j])
    ensures OnAt(runs[j..], Sum(runs[..j]), j % 2 == 1, c) <==> OddFrom(runs, j, c)
    decreases |runs| - j
  {
    hide Sum;
    if j < |runs| {
      assert runs[..j + 1] == runs[..j] + [runs[j]] && runs[j..][1..] == runs[j + 1..];
      SumSnoc(runs[..j], runs[j]);
      if c >= Sum(runs[..j + 1]) {
        OnAtIs(runs, j + 1, c);
      } else {
        forall k: nat | j < k < |runs| ensures !InRun(runs, k, c) { SumMono(runs, j + 1, k); }
        assert InRun(runs, j, c);
      }
    }
  }

  lemma OddRunIs(runs: seq<nat>, c: nat)
    ensures OnAt(runs, 0, false, c) <==> InOddRun(runs, c)
  {
    assert runs[0..] == runs && runs[..0] == [];
    OnAtIs(runs, 0, c);
  }

  // The four formats.

  /** 3 + 3 bits for two runs; 7 bits; 5 bits and one byte; 5 bits and two bytes. */
  datatype Entry = Packed(n1: nat, n2: nat) | Short(n: nat) | Medium(n: nat) | Long(n: nat)

  predicate FitsFormat(e: Entry) {
    match e
    case Packed(n1, n2) => 1 <= n1 <= 8 && 1 <= n2 <= 8
    case Short(n) => 1 <= n <= 128
    case Medium(n) => 1 <= n <= 0x2000
    case Long(n) => 1 <= n <= 0x20_0000
  }

  predicate AllFit(es: seq<Entry>) { forall i :: 0 <= i < |es| ==> FitsFormat(es[i]) }

  function RunsOfEntry(e: Entry): seq<nat> {
    if e.Packed? then [e.n1, e.n2] else [e.n]
  }

  function Bytes(e: Entry): (s: seq<Byte>)
    requires FitsFormat(e)
    ensures |s| > 0
  {
    match e
    case Packed(n1, n2) => [8 * (n1 - 1) + (n2 - 1)]
    case Short(n) => [0x80 + (n - 1)]
    case Medium(n) => [0x40 + (n - 1) / 0x100, (n - 1) % 0x100]
    case Long(n) => [0x60 + (n - 1) / 0x1_0000, (n - 1) / 0x100 % 0x100, (n - 1) % 0x100]
  }

  function RunsOf(es: seq<Entry>): seq<nat> {
    if es == [] then [] else RunsOfEntry(es[0]) + RunsOf(es[1..])
  }

  function Encode(es: seq<Entry>): seq<Byte>
    requires AllFit(es)
  {
    if es == [] then [] else Bytes(es[0]) + Encode(es[1..])
  }

  lemma {:induction false} EncodeAppend(a: seq<Entry>, b: seq<Entry>)
    requires AllFit(a) && AllFit(b)
    ensures AllFit(a + b) && Encode(a + b) == Encode(a) + Encode(b) && RunsOf(a + b) == RunsOf(a) + RunsOf(b)
    decreases |a|
  {
    hide Bytes, RunsOfEntry;
    if a == [] {
      assert a + b == b;
    } else {
      assert (a + b)[1..] == a[1..] + b;
      EncodeAppend(a[1..], b);
    }
  }

  /** What the readers see of one entry. */
  lemma EntryRead(tab: seq<Byte>, pos: nat, e: Entry)
    requires FitsFormat(e) && pos + |Bytes(e)| <= |tab| && tab[pos..pos + |Bytes(e)|] == Bytes(e)
    ensures EntrySize(tab, pos) == |Bytes(e)|
    ensures RunLen(tab, pos) == RunsOfEntry(e)[0]
    ensures RunLen2(tab, pos) == if e.Packed? then RunsOfEntry(e)[1] else 0
    ensures RunLen2(tab, pos) > 0 <==> e.Packed?
  {
    hide *;
    BytesSize(e);
    forall i | 0 <= i < |Bytes(e)| ensures At(tab, pos + i) == Bytes(e)[i] {
      ByteHere(tab, pos, Bytes(e), i);
    }
    EntryRuns(e);
    match e
    case Packed(n1, n2) => PackedRead(tab, pos, n1, n2);
    case Short(n) => ShortRead(tab, pos, n);
    case Medium(n) => MediumRead(tab, pos, n);
    case Long(n) => LongRead(tab, pos, n);
  }

  lemma BytesSize(e: Entry)
    requires FitsFormat(e)
    ensures |Bytes(e)| == match e case Packed(_, _) => 1 case Short(_) => 1 case Medium(_) => 2 case Long(_) => 3
  {
  }

  lemma EntryRuns(e: Entry)
    ensures RunsOfEntry(e) == if e.Packed? then [e.n1, e.n2] else [e.n]
  {
  }

  lemma ByteHere(tab: seq<Byte>, pos: nat, b: seq<Byte>, i: nat)
    requires pos + |b| <= |tab| && tab[pos..pos + |b|] == b && i < |b|
    ensures At(tab, pos + i) == b[i]
  {
    assert tab[pos..pos + |b|][i] == b[i];
  }

  lemma PackedRead(tab: seq<Byte>, pos: nat, n1: nat, n2: nat)
    requires FitsFormat(Packed(n1, n2)) && pos < |tab| && At(tab, pos) == Bytes(Packed(n1, n2))[0]
    ensures EntrySize(tab, pos) == 1 == |Bytes(Packed(n1, n2))| && RunLen(tab, pos) == n1 && RunLen2(tab, pos) == n2 > 0
  {
  }

  lemma ShortRead(tab: seq<Byte>, pos: nat, n: nat)
    requires FitsFormat(Short(n)) && pos < |tab| && At(tab, pos) == Bytes(Short(n))[0]
    ensures EntrySize(tab, pos) == 1 == |Bytes(Short(n))| && RunLen(tab, pos) == n && RunLen2(tab, pos) == 0
  {
  }

  lemma MediumRead(tab: seq<Byte>, pos: nat, n: nat)
    requires FitsFormat(Medium(n)) && pos + 1 < |tab|
    requires At(tab, pos) == Bytes(Medium(n))[0] && At(tab, pos + 1) == Bytes(Medium(n))[1]
    ensures EntrySize(tab, pos) == 2 == |Bytes(Medium(n))| && RunLen(tab, pos) == n && RunLen2(tab, pos) == 0
  {
    var v: nat := n - 1;
    assert v == v / 0x100 * 0x100 + v % 0x100;
  }

  lemma LongRead(tab: seq<Byte>, pos: nat, n: nat)
    requires FitsFormat(Long(n)) && pos + 2 < |tab|
    requires At(tab, pos) == Bytes(Long(n))[0] && At(tab, pos + 1) == Bytes(Long(n))[1]
    requires At(tab, pos + 2) == Bytes(Long(n))[2]
    ensures EntrySize(tab, pos) == 3 == |Bytes(Long(n))| && RunLen(tab, pos) == n && RunLen2(tab, pos) == 0
  {
    var v: nat := n - 1;
    assert v == v / 0x1_0000 * 0x1_0000 + v / 0x100 % 0x100 * 0x100 + v % 0x100;
  }


  /** The bytes from pos on are the entries es, the last ones of the table. */
  ghost predicate Holds(tab: seq<Byte>, pos: nat, es: seq<Entry>) {
    AllFit(es) && pos <= |tab| && tab[pos..] == Encode(es)
  }

  lemma NextHolds(tab: seq<Byte>, pos: nat, es: seq<Entry>)
    requires Holds(tab, pos, es) && es != []
    ensures pos + |Bytes(es[0])| <= |tab| && tab[pos..pos + |Bytes(es[0])|] == Bytes(es[0])
    ensures Holds(tab, pos + |Bytes(es[0])|, es[1..])
  {
    hide Bytes;
    var b, rest := Bytes(es[0]), Encode(es[1..]);
    assert tab[pos..] == b + rest;
    assert tab[pos..][..|b|] == b && tab[pos..][|b|..] == rest;
  }

  /** The reader of the bytes finds the runs. */
  lemma {:induction false} ReadsRuns(tab: seq<Byte>, pos: nat, es: seq<Entry>, code: nat, bit: bool, c: nat)
    requires Holds(tab, pos, es) && code <= c
    ensures WellEncoded(tab, pos) && EndCode(tab, pos, code) == code + Sum(RunsOf(es))
    ensures InRuns(tab, pos, code, bit, c) <==> OnAt(RunsOf(es), code, bit, c)
    decreases |es|
  {
    hide Sum, Bytes, Encode, RunLen, RunLen2, EntrySize;
    if es == [] {
      EmptyRuns();
    } else {
      var e := es[0];
      NextHolds(tab, pos, es);
      EntryRead(tab, pos, e);
      var next, runs := pos + |Bytes(e)|, RunsOf(es[1..]);
      SumAppend(RunsOfEntry(e), runs);
      EntrySum(e);
      var n := Sum(RunsOfEntry(e));
      ReadsRuns(tab, next, es[1..], code + n, if e.Packed? then bit else !bit, if c < code + n then code + n else c);
      OnAtEntry(e, runs, code, bit, c);
      hide Holds;
      assert RunsOf(es) == RunsOfEntry(e) + runs;
    }
  }

  lemma EmptyRuns()
    ensures Sum([]) == 0 && Encode([]) == [] && RunsOf([]) == []
  {
  }

  lemma EntrySum(e: Entry)
    ensures Sum(RunsOfEntry(e)) == if e.Packed? then e.n1 + e.n2 else e.n
  {
    if e.Packed? {
      SumSnoc([e.n1], e.n2);
      assert [e.n1] + [e.n2] == [e.n1, e.n2];
      SumSnoc([], e.n1);
    } else {
      SumSnoc([], e.n);
      assert [] + [e.n] == [e.n];
    }
  }

  lemma OnAtEntry(e: Entry, runs: seq<nat>, code: nat, bit: bool, c: nat)
    ensures OnAt(RunsOfEntry(e) + runs, code, bit, c) ==
      if e.Packed? then
        if c < code + e.n1 then bit else if c < code + e.n1 + e.n2 then !bit else OnAt(runs, code + e.n1 + e.n2, bit, c)
      else if c < code + e.n then bit else OnAt(runs, code + e.n, !bit, c)
  {
    var all := RunsOfEntry(e) + runs;
    if e.Packed? {
      assert all[1..] == [e.n2] + runs && all[1..][1..] == runs;
    } else {
      assert all[1..] == runs;
    }
  }

  /** A table holds exactly the characters of the odd runs that were written, in whatever formats. */
  lemma TableMeans(es: seq<Entry>, c: nat)
    requires AllFit(es)
    ensures WellEncoded(Encode(es), 0) && EndCode(Encode(es), 0, 0) == Sum(RunsOf(es))
    ensures InRuns(Encode(es), 0, 0, false, c) <==> InOddRun(RunsOf(es), c)
  {
    hide *;
    WholeHolds(Encode(es), es);
    ReadsRuns(Encode(es), 0, es, 0, false, c);
    OddRunIs(RunsOf(es), c);
  }

  lemma WholeHolds(tab: seq<Byte>, es: seq<Entry>)
    requires AllFit(es) && tab == Encode(es)
    ensures Holds(tab, 0, es)
  {
    assert tab[0..] == tab;
  }

  /** Every complete table is one that was written. */
  lemma {:induction false} Written(tab: seq<Byte>, pos: nat) returns (es: seq<Entry>)
    requires WellEncoded(tab, pos) && pos <= |tab|
    ensures Holds(tab, pos, es)
    decreases |tab| - pos
  {
    if pos == |tab| {
      es := [];
    } else {
      var e := EntryAt(tab, pos);
      hide Bytes, Encode, FitsFormat;
      var more := Written(tab, pos + EntrySize(tab, pos));
      es := [e] + more;
      PutFirst(tab, pos, e, more);
    }
  }

  lemma PutFirst(tab: seq<Byte>, pos: nat, e: Entry, more: seq<Entry>)
    requires FitsFormat(e) && pos + |Bytes(e)| <= |tab| && tab[pos..pos + |Bytes(e)|] == Bytes(e)
    requires Holds(tab, pos + |Bytes(e)|, more)
    ensures Holds(tab, pos, [e] + more)
  {
    hide Bytes;
    assert tab[pos..] == tab[pos..pos + |Bytes(e)|] + tab[pos + |Bytes(e)|..];
    assert ([e] + more)[1..] == more;
  }

  lemma EntryAt(tab: seq<Byte>, pos: nat) returns (e: Entry)
    requires pos < |tab| && pos + EntrySize(tab, pos) <= |tab|
    ensures FitsFormat(e) && |Bytes(e)| == EntrySize(tab, pos) && tab[pos..pos + |Bytes(e)|] == Bytes(e)
  {
    var b := At(tab, pos);
    if b < 64 {
      e := Packed(b / 8 + 1, b % 8 + 1);
    } else if b >= 0x80 {
      e := Short(b - 0x80 + 1);
    } else if b < 0x60 {
      var c := At(tab, pos + 1);
      e := Medium((b - 0x40) * 0x100 + c + 1);
      assert ((b - 0x40) * 0x100 + c) / 0x100 == b - 0x40 && ((b - 0x40) * 0x100 + c) % 0x100 == c;
    } else {
      e := LongAt(b, At(tab, pos + 1), At(tab, pos + 2));
    }
  }

  lemma LongAt(b: nat, c: nat, d: nat) returns (e: Entry)
    requires 0x60 <= b < 0x80 && c < 0x100 && d < 0x100
    ensures FitsFormat(e) && Bytes(e) == [b, c, d]
  {
    var v := (b - 0x60) * 0x1_0000 + c * 0x100 + d;
    e := Long(v + 1);
    assert v / 0x1_0000 == b - 0x60 && v / 0x100 == (b - 0x60) * 0x100 + c && v % 0x100 == d;
  }

  /** The reader passes every place between two entries. */
  lemma {:induction false} PassesBetween(tab: seq<Byte>, pos: nat, a: seq<Entry>, b: seq<Entry>, code: nat, bit: bool)
    requires Holds(tab, pos, a + b)
    ensures AllFit(a) && WellEncoded(tab, pos)
    ensures Decodes(tab, pos, code, bit, pos + |Encode(a)|, code + Sum(RunsOf(a)), bit != (|RunsOf(a)| % 2 == 1))
    decreases |a|
  {
    hide *;
    HoldsFit(tab, pos, a + b);
    FitParts(a, b);
    ReadsRuns(tab, pos, a + b, code, bit, code);
    if a == [] {
      EmptyRuns();
      PassesHere(tab, pos, code, bit);
    } else {
      var e := a[0];
      assert (a + b)[1..] == a[1..] + b && (a + b)[0] == e;
      NextHolds(tab, pos, a + b);
      EntryRead(tab, pos, e);
      SumAppend(RunsOfEntry(e), RunsOf(a[1..]));
      EntrySum(e);
      EntryRuns(e);
      FrontParts(a);
      var next, code1, bit1 := pos + |Bytes(e)|, code + Sum(RunsOfEntry(e)), if e.Packed? then bit else !bit;
      PassesBetween(tab, next, a[1..], b, code1, bit1);
      assert (bit1 != (|RunsOf(a[1..])| % 2 == 1)) == (bit != (|RunsOf(a)| % 2 == 1));
      PassesOn(tab, pos, code, bit, pos + |Encode(a)|, code + Sum(RunsOf(a)), bit != (|RunsOf(a)| % 2 == 1));
    }
  }

  lemma HoldsFit(tab: seq<Byte>, pos: nat, es: seq<Entry>)
    requires Holds(tab, pos, es)
    ensures AllFit(es)
  {
  }

  lemma FrontParts(a: seq<Entry>)
    requires a != [] && AllFit(a)
    ensures AllFit(a[1..]) && FitsFormat(a[0])
    ensures Encode(a) == Bytes(a[0]) + Encode(a[1..]) && RunsOf(a) == RunsOfEntry(a[0]) + RunsOf(a[1..])
    ensures |RunsOfEntry(a[0])| == if a[0].Packed? then 2 else 1
  {
    hide Bytes;
  }

  lemma PassesHere(tab: seq<Byte>, pos: nat, code: nat, bit: bool)
    requires WellEncoded(tab, pos)
    ensures Decodes(tab, pos, code, bit, pos, code, bit)
  {
  }

  lemma PassesOn(tab: seq<Byte>, pos: nat, code: nat, bit: bool, pos1: nat, code1: nat, bit1: bool)
    requires WellEncoded(tab, pos) && pos < |tab| && pos + EntrySize(tab, pos) <= |tab| && pos < pos1
    requires WellEncoded(tab, pos + EntrySize(tab, pos))
    requires Decodes(tab, pos + EntrySize(tab, pos), code + RunLen(tab, pos) + RunLen2(tab, pos),
      if RunLen2(tab, pos) > 0 then bit else !bit, pos1, code1, bit1)
    ensures Decodes(tab, pos, code, bit, pos1, code1, bit1)
  {
    hide RunLen, RunLen2, EntrySize;
  }

  lemma FitParts(a: seq<Entry>, b: seq<Entry>)
    requires AllFit(a + b)
    ensures AllFit(a) && AllFit(b)
  {
    assert forall i :: 0 <= i < |a| ==> (a + b)[i] == a[i];
    assert forall i :: 0 <= i < |b| ==> (a + b)[|a| + i] == b[i];
  }

  // The writer.

  const CHARCODE_MAX: nat := 0x10_FFFF
  const PROP_BLOCK_LEN: nat := 32

  lemma OddSnoc(runs: seq<nat>, n: nat, c: nat)
    ensures InOddRun(runs + [n], c) <==>
      InOddRun(runs, c) || (|runs| % 2 == 1 && Sum(runs) <= c < Sum(runs) + n)
  {
    var all := runs + [n];
    SumSnoc(runs, n);
    assert all[..|runs|] == runs && all[..|all|] == all;
    forall k: nat | k < |runs| ensures InRun(all, k, c) <==> InRun(runs, k, c) {
      assert all[..k] == runs[..k] && all[..k + 1] == runs[..k + 1];
    }
    hide Sum;
    if InOddRun(runs, c) {
      var k: nat :| k < |runs| && k % 2 == 1 && InRun(runs, k, c);
      assert InRun(all, k, c);
    }
    if InOddRun(all, c) {
      var k: nat :| k < |all| && k % 2 == 1 && InRun(all, k, c);
      assert k < |runs| ==> InRun(runs, k, c);
    }
    assert InRun(all, |runs|, c) <==> Sum(runs) <= c < Sum(runs) + n;
  }

  /** The odd runs are the characters with the property, so far. */
  ghost predicate RunsUpTo(prop: seq<bool>, runs: seq<nat>, i: nat) {
    && i <= |prop| && Sum(runs) == i
    && (forall c: nat {:trigger InOddRun(runs, c)} :: InOddRun(runs, c) <==> c < i && prop[c])
  }

  lemma NoRuns(prop: seq<bool>)
    ensures RunsUpTo(prop, [], 0)
  {
  }

  lemma OneMoreRun(prop: seq<bool>, runs: seq<nat>, i: nat, j: nat)
    requires RunsUpTo(prop, runs, i) && i <= j <= |prop|
    requires forall c :: i <= c < j ==> prop[c] == (|runs| % 2 == 1)
    ensures RunsUpTo(prop, runs + [j - i], j)
  {
    SumSnoc(runs, j - i);
    forall c: nat ensures InOddRun(runs + [j - i], c) <==> c < j && prop[c] {
      OddSnoc(runs, j - i, c);
      assert InOddRun(runs, c) <==> c < i && prop[c];
    }
  }

  /** The numbers in the buffer are the lengths of the runs less one. */
  function Lengths(buf: seq<nat>): (runs: seq<nat>)
    ensures |runs| == |buf| && forall i :: 0 <= i < |buf| ==> runs[i] == buf[i] + 1
  {
    seq(|buf|, i requires 0 <= i < |buf| => buf[i] + 1)
  }

  /** The first loop of build_prop_table: the runs of a property, without a last run that is out of the set. */
  method CollectRuns(prop: seq<bool>) returns (buf: seq<nat>)
    requires |prop| == CHARCODE_MAX + 1 && !prop[0]
    ensures Sum(Lengths(buf)) <= CHARCODE_MAX + 1 && forall i :: 0 <= i < |buf| ==> buf[i] <= CHARCODE_MAX
    ensures forall c: nat :: InOddRun(Lengths(buf), c) <==> c < |prop| && prop[c]
  {
    hide InOddRun, Sum;
    buf := [];
    var i: nat := 0;
    NoRuns(prop);
    assert Lengths(buf) == [];
    while i <= CHARCODE_MAX
      invariant i <= |prop| && (i < |prop| ==> prop[i] == (|buf| % 2 == 1))
      invariant RunsUpTo(prop, Lengths(buf), i) && forall k :: 0 <= k < |buf| ==> buf[k] <= CHARCODE_MAX
    {
      var v, j := prop[i], i + 1;
      while j <= CHARCODE_MAX && prop[j] == v
        invariant i < j <= |prop| && forall c :: i <= c < j ==> prop[c] == v
      {
        j := j + 1;
      }
      var n := j - i;
      if j == CHARCODE_MAX + 1 && !v {
        break;
      }
      OneMoreRun(prop, Lengths(buf), i, j);
      assert Lengths(buf + [n - 1]) == Lengths(buf) + [n];
      buf := buf + [n - 1];
      i := i + n;
    }
  }

  lemma PutEntry(es: seq<Entry>, e: Entry)
    requires AllFit(es) && FitsFormat(e)
    ensures AllFit(es + [e])
    ensures Encode(es + [e]) == Encode(es) + Bytes(e) && RunsOf(es + [e]) == RunsOf(es) + RunsOfEntry(e)
  {
    hide Bytes, RunsOfEntry;
    EncodeAppend(es, [e]);
    assert Encode([e]) == Bytes(e) + Encode([]) && RunsOf([e]) == RunsOfEntry(e) + RunsOf([]);
  }

  /** The index entry k stands for a place between two entries, with the bit clear. */
  ghost predicate MarkAt(es: seq<Entry>, index: seq<Byte>, k: nat, m: nat) {
    && AllFit(es) && 3 * k + 2 < |index| && m <= |es| && |RunsOf(es[..m])| % 2 == 0
    && IndexPos(index, k) == |EncodeUpTo(es, m)| && IndexCode(index, k) == Sum(RunsOf(es[..m]))
  }

  function EncodeUpTo(es: seq<Entry>, m: nat): seq<Byte>
    requires AllFit(es) && m <= |es|
  {
    Encode(es[..m])
  }

  /** The entries of the index so far, at places in order. */
  ghost predicate Marks(es: seq<Entry>, index: seq<Byte>, marks: seq<nat>) {
    && |index| == 3 * |marks| && (forall k :: 0 <= k < |marks| ==> MarkAt(es, index, k, marks[k]))
    && (forall j, k :: 0 <= j < k < |marks| ==> marks[j] <= marks[k])
  }

  lemma MarkKept(es: seq<Entry>, es1: seq<Entry>, index: seq<Byte>, index1: seq<Byte>, k: nat, m: nat)
    requires MarkAt(es, index, k, m) && AllFit(es1) && es <= es1 && index <= index1
    ensures MarkAt(es1, index1, k, m)
  {
    assert es1[..m] == es[..m];
  }

  lemma MarksKept(es: seq<Entry>, es1: seq<Entry>, index: seq<Byte>, marks: seq<nat>)
    requires Marks(es, index, marks) && AllFit(es1) && es <= es1
    ensures Marks(es1, index, marks)
  {
    hide MarkAt;
    forall k | 0 <= k < |marks| ensures MarkAt(es1, index, k, marks[k]) {
      MarkKept(es, es1, index, index, k, marks[k]);
    }
  }

  lemma MarksPut(es: seq<Entry>, e: Entry, index: seq<Byte>, marks: seq<nat>)
    requires Marks(es, index, marks) && AllFit(es) && FitsFormat(e)
    ensures Marks(es + [e], index, marks)
  {
    hide Marks, FitsFormat;
    MarksKept(es, es + [e], index, marks);
  }

  /** Three bytes, the lowest first. */
  function Le24(v: nat): (s: seq<Byte>)
    ensures |s| == 3
  {
    [v % 0x100, v / 0x100 % 0x100, v / 0x1_0000 % 0x100]
  }

  lemma Le24Read(index: seq<Byte>, v: nat)
    requires |index| % 3 == 0 && v < 0x100_0000
    ensures GetLe24(index + Le24(v), |index| / 3) == v
  {
    var k, t := |index| / 3, index + Le24(v);
    assert t[3 * k] == v % 0x100 && t[3 * k + 1] == v / 0x100 % 0x100 && t[3 * k + 2] == v / 0x1_0000 % 0x100;
    assert v == v / 0x100 * 0x100 + v % 0x100;
  }

  lemma MarkRead(index: seq<Byte>, code: nat, offset: nat)
    requires |index| % 3 == 0 && code < CODE_LIMIT && offset <= 7
    ensures var k, index1 := |index| / 3, index + Le24(code + offset * 0x20_0000);
      IndexCode(index1, k) == code && IndexPos(index1, k) == (k + 1) * PROP_BLOCK_LEN + offset
  {
    hide Le24, GetLe24;
    Le24Read(index, code + offset * 0x20_0000);
  }

  lemma EndRead(index: seq<Byte>, code: nat)
    requires |index| % 3 == 0 && code < CODE_LIMIT
    ensures GetLe24(index + Le24(code), |index| / 3) == IndexCode(index + Le24(code), |index| / 3) == code
  {
    hide Le24, GetLe24;
    Le24Read(index, code);
  }

  lemma NewMark(es: seq<Entry>, index: seq<Byte>, marks: seq<nat>, code: nat, offset: nat)
    requires Marks(es, index, marks) && AllFit(es)
    requires code == Sum(RunsOf(es)) < CODE_LIMIT && offset <= 7 && |RunsOf(es)| % 2 == 0
    requires |Encode(es)| == (|marks| + 1) * PROP_BLOCK_LEN + offset
    ensures Marks(es, index + Le24(code + offset * 0x20_0000), marks + [|es|])
  {
    hide *;
    var index1, marks1 := index + Le24(code + offset * 0x20_0000), marks + [|es|];
    MarksSize(es, index, marks);
    forall k | 0 <= k < |marks1| ensures MarkAt(es, index1, k, marks1[k]) {
      if k < |marks| {
        MarkOf(es, index, marks, k);
        MarkKept(es, es, index, index1, k, marks[k]);
      } else {
        MarkRead(index, code, offset);
        MarkHere(es, index1, k);
      }
    }
    MarksAre(es, index1, marks, marks1);
  }

  lemma MarksSize(es: seq<Entry>, index: seq<Byte>, marks: seq<nat>)
    requires Marks(es, index, marks)
    ensures |index| == 3 * |marks| && forall j, k :: 0 <= j < k < |marks| ==> marks[j] <= marks[k]
  {
  }

  lemma MarkOf(es: seq<Entry>, index: seq<Byte>, marks: seq<nat>, k: nat)
    requires Marks(es, index, marks) && k < |marks|
    ensures MarkAt(es, index, k, marks[k])
  {
  }

  lemma MarkHere(es: seq<Entry>, index: seq<Byte>, k: nat)
    requires AllFit(es) && 3 * k + 2 < |index| && |RunsOf(es)| % 2 == 0
    requires IndexPos(index, k) == |Encode(es)| && IndexCode(index, k) == Sum(RunsOf(es))
    ensures MarkAt(es, index, k, |es|)
  {
    assert es[..|es|] == es;
  }

  lemma MarksAre(es: seq<Entry>, index: seq<Byte>, marks: seq<nat>, marks1: seq<nat>)
    requires |index| == 3 * |marks1| && forall k :: 0 <= k < |marks1| ==> MarkAt(es, index, k, marks1[k])
    requires marks1 == marks + [|es|] && forall j, k :: 0 <= j < k < |marks| ==> marks[j] <= marks[k]
    ensures Marks(es, index, marks1)
  {
  }

  /** What the loop of build_prop_table keeps. */
  ghost predicate Building(runs: seq<nat>, i: nat, es: seq<Entry>, tab: seq<Byte>, code: nat, bit: bool) {
    && i <= |runs| && AllFit(es) && tab == Encode(es) && RunsOf(es) == runs[..i]
    && code == Sum(runs[..i]) && bit == (i % 2 == 1)
  }

  lemma BuildingMore(runs: seq<nat>, i: nat, es: seq<Entry>, tab: seq<Byte>, code: nat, bit: bool, e: Entry)
    requires Building(runs, i, es, tab, code, bit) && FitsFormat(e)
    requires i + |RunsOfEntry(e)| <= |runs| && runs[i..i + |RunsOfEntry(e)|] == RunsOfEntry(e)
    ensures Building(runs, i + |RunsOfEntry(e)|, es + [e], tab + Bytes(e), code + Sum(RunsOfEntry(e)),
      bit != (|RunsOfEntry(e)| == 1))
  {
    hide Bytes, Sum, Encode, RunsOf, FitsFormat;
    PutEntry(es, e);
    var j := i + |RunsOfEntry(e)|;
    assert runs[..j] == runs[..i] + runs[i..j];
    SumAppend(runs[..i], RunsOfEntry(e));
  }
  lemma BuildingStarts(runs: seq<nat>)
    ensures Building(runs, 0, [], [], 0, false) && Marks([], [], []) && BlockEnd([]) == PROP_BLOCK_LEN
  {
    assert runs[..0] == [];
  }

  /** An entry for the run at i. */
  lemma BuildingOne(runs: seq<nat>, i: nat, es: seq<Entry>, tab: seq<Byte>, code: nat, bit: bool, e: Entry,
      tab1: seq<Byte>)
    requires Building(runs, i, es, tab, code, bit) && i < |runs|
    requires !e.Packed? && e.n == runs[i] && FitsFormat(e) && tab1 == tab + Bytes(e)
    ensures Building(runs, i + 1, es + [e], tab1, code + runs[i], !bit)
  {
    hide *;
    EntryRuns(e);
    EntrySum(e);
    assert runs[i..i + 1] == [runs[i]];
    BuildingMore(runs, i, es, tab, code, bit, e);
  }

  /** One entry for the two runs from i on. */
  lemma BuildingTwo(runs: seq<nat>, i: nat, es: seq<Entry>, tab: seq<Byte>, code: nat, bit: bool, e: Entry,
      tab1: seq<Byte>)
    requires Building(runs, i, es, tab, code, bit) && i + 1 < |runs|
    requires e == Packed(runs[i], runs[i + 1]) && FitsFormat(e) && tab1 == tab + Bytes(e)
    ensures Building(runs, i + 2, es + [e], tab1, code + runs[i] + runs[i + 1], bit)
  {
    hide *;
    EntryRuns(e);
    EntrySum(e);
    assert runs[i..i + 2] == [runs[i], runs[i + 1]];
    BuildingMore(runs, i, es, tab, code, bit, e);
  }

  lemma BuiltSoFar(runs: seq<nat>, i: nat, es: seq<Entry>, tab: seq<Byte>, code: nat, bit: bool)
    requires Building(runs, i, es, tab, code, bit)
    ensures AllFit(es) && tab == Encode(es) && RunsOf(es) == runs[..i] && |RunsOf(es)| == i
    ensures code == Sum(RunsOf(es)) <= Sum(runs) && bit == (i % 2 == 1)
  {
    SumMono(runs, i, |runs|);
    assert runs[..|runs|] == runs;
  }

  lemma BuiltBelow(runs: seq<nat>, i: nat, es: seq<Entry>, tab: seq<Byte>, code: nat, bit: bool)
    requires Building(runs, i, es, tab, code, bit) && Sum(runs) < CODE_LIMIT
    ensures AllFit(es) && tab == Encode(es) && code == Sum(RunsOf(es)) < CODE_LIMIT
    ensures !bit ==> |RunsOf(es)| % 2 == 0
  {
    hide Building, Sum, Encode, RunsOf, AllFit;
    BuiltSoFar(runs, i, es, tab, code, bit);
  }

  lemma AllBuilt(runs: seq<nat>, es: seq<Entry>, tab: seq<Byte>, code: nat, bit: bool)
    requires Building(runs, |runs|, es, tab, code, bit) && Sum(runs) < CODE_LIMIT
    ensures AllFit(es) && tab == Encode(es) && code == Sum(RunsOf(es)) < CODE_LIMIT && RunsOf(es) == runs
  {
    hide Building, Sum, Encode, RunsOf, AllFit;
    BuiltSoFar(runs, |runs|, es, tab, code, bit);
    assert runs[..|runs|] == runs;
  }

  /** The finished index is one that the lookup accepts. */
  lemma IndexBuilt(es: seq<Entry>, index: seq<Byte>, marks: seq<nat>, code: nat)
    requires AllFit(es) && Marks(es, index, marks) && code == Sum(RunsOf(es)) < CODE_LIMIT
    ensures ValidIndex(Encode(es), index + Le24(code), |marks| + 1) && |index + Le24(code)| / 3 == |marks| + 1
  {
    hide *;
    var tab, index1 := Encode(es), index + Le24(code);
    MarksSize(es, index, marks);
    TableMeans(es, 0);
    EndRead(index, code);
    forall k | 0 <= k < |marks|
      ensures Decodes(tab, 0, 0, false, IndexPos(index1, k), IndexCode(index1, k), false)
    {
      MarkOf(es, index, marks, k);
      MarkKept(es, es, index, index1, k, marks[k]);
      MarkPassed(es, index1, k, marks[k]);
    }
    forall j, k | 0 <= j < k < |marks| + 1 ensures IndexCode(index1, j) <= IndexCode(index1, k) {
      MarkOf(es, index, marks, j);
      MarkKept(es, es, index, index1, j, marks[j]);
      if k < |marks| {
        MarkOf(es, index, marks, k);
        MarkKept(es, es, index, index1, k, marks[k]);
        MarksGrow(es, index1, j, k, marks[j], marks[k]);
      } else {
        MarkInside(es, index1, j, marks[j]);
      }
    }
    IsValidIndex(tab, index1, |marks| + 1);
  }

  lemma MarkPassed(es: seq<Entry>, index: seq<Byte>, k: nat, m: nat)
    requires MarkAt(es, index, k, m) && WellEncoded(Encode(es), 0)
    ensures Decodes(Encode(es), 0, 0, false, IndexPos(index, k), IndexCode(index, k), false)
  {
    hide Encode, Decodes, Sum, RunsOf, IndexPos, IndexCode, WellEncoded;
    assert es[..m] + es[m..] == es;
    WholeHolds(Encode(es), es);
    PassesBetween(Encode(es), 0, es[..m], es[m..], 0, false);
  }

  lemma MarksGrow(es: seq<Entry>, index: seq<Byte>, j: nat, k: nat, m1: nat, m2: nat)
    requires MarkAt(es, index, j, m1) && MarkAt(es, index, k, m2) && m1 <= m2
    ensures IndexCode(index, j) <= IndexCode(index, k)
  {
    hide Sum, RunsOf, IndexPos, IndexCode, Encode;
    assert es[..m2] == es[..m1] + es[m1..m2];
    FitParts(es[..m2], es[m2..]);
    assert es[..m2] + es[m2..] == es;
    FitParts(es[..m1], es[m1..m2]);
    EncodeAppend(es[..m1], es[m1..m2]);
    SumAppend(RunsOf(es[..m1]), RunsOf(es[m1..m2]));
  }

  lemma MarkInside(es: seq<Entry>, index: seq<Byte>, k: nat, m: nat)
    requires MarkAt(es, index, k, m)
    ensures IndexCode(index, k) <= Sum(RunsOf(es))
  {
    hide Sum, RunsOf, IndexPos, IndexCode, Encode;
    assert es == es[..m] + es[m..];
    FitParts(es[..m], es[m..]);
    EncodeAppend(es[..m], es[m..]);
    SumAppend(RunsOf(es[..m]), RunsOf(es[m..]));
  }

  lemma IsValidIndex(tab: seq<Byte>, index: seq<Byte>, n: nat)
    requires n >= 1 && |index| == 3 * n && WellEncoded(tab, 0)
    requires forall k :: 0 <= k < n - 1 ==> Decodes(tab, 0, 0, false, IndexPos(index, k), IndexCode(index, k), false)
    requires forall j, k :: 0 <= j < k < n ==> IndexCode(index, j) <= IndexCode(index, k)
    requires GetLe24(index, n - 1) < CODE_LIMIT && GetLe24(index, n - 1) == EndCode(tab, 0, 0)
    ensures ValidIndex(tab, index, n)
  {
  }

  lemma PackedBytes(v: nat, w: nat)
    requires v < 8 && w < 8
    ensures FitsFormat(Packed(v + 1, w + 1)) && Bytes(Packed(v + 1, w + 1)) == [v * 8 + w]
  {
  }

  lemma ShortBytes(v: nat)
    requires v < 128
    ensures FitsFormat(Short(v + 1)) && Bytes(Short(v + 1)) == [0x80 + v]
  {
  }

  lemma MediumBytes(v: nat)
    requires v < 0x2000
    ensures FitsFormat(Medium(v + 1)) && Bytes(Medium(v + 1)) == [0x40 + v / 0x100] + [v % 0x100]
  {
  }

  lemma LongBytes(v: nat)
    requires v < 0x20_0000
    ensures FitsFormat(Long(v + 1))
    ensures Bytes(Long(v + 1)) == [0x60 + v / 0x1_0000] + [v / 0x100 % 0x100] + [v % 0x100]
  {
  }

  lemma TableFor(es: seq<Entry>)
    requires AllFit(es)
    ensures WellEncoded(Encode(es), 0) && EndCode(Encode(es), 0, 0) == Sum(RunsOf(es))
    ensures forall c: nat :: InRuns(Encode(es), 0, 0, false, c) <==> InOddRun(RunsOf(es), c)
  {
    hide *;
    TableMeans(es, 0);
    forall c: nat ensures InRuns(Encode(es), 0, 0, false, c) <==> InOddRun(RunsOf(es), c) {
      TableMeans(es, c);
    }
  }

  /** The shortest format for a run of v + 1 characters. */
  function Shortest(v: nat): Entry {
    if v < 0x80 then Short(v + 1) else if v < 0x2000 then Medium(v + 1) else Long(v + 1)
  }

  /** One run in the shortest format. */
  method PutRun(tab: seq<Byte>, v: nat) returns (tab1: seq<Byte>)
    requires v < 0x20_0000
    ensures !Shortest(v).Packed? && Shortest(v).n == v + 1 && FitsFormat(Shortest(v))
    ensures tab1 == tab + Bytes(Shortest(v))
  {
    hide Bytes, FitsFormat;
    if v < 128 {
      ShortBytes(v);
      tab1 := tab + [0x80 + v];
    } else if v < 0x2000 {
      MediumBytes(v);
      tab1 := tab + [0x40 + v / 0x100] + [v % 0x100];
    } else {
      LongBytes(v);
      tab1 := tab + [0x60 + v / 0x1_0000] + [v / 0x100 % 0x100] + [v % 0x100];
    }
  }

  /** One entry for the runs from i on. */
  method PutRuns(buf: seq<nat>, i: nat, tab: seq<Byte>, code: nat, bit: bool, ghost es: seq<Entry>)
    returns (i1: nat, tab1: seq<Byte>, code1: nat, bit1: bool, ghost e: Entry)
    requires i < |buf| && forall k :: 0 <= k < |buf| ==> buf[k] <= CHARCODE_MAX
    requires Building(Lengths(buf), i, es, tab, code, bit)
    ensures i < i1 <= |buf| && FitsFormat(e) && Building(Lengths(buf), i1, es + [e], tab1, code1, bit1)
  {
    assert CHARCODE_MAX < 0x20_0000;
    hide *;
    var v := buf[i];
    code1, bit1 := code + v + 1, !bit;
    if v < 8 && i + 1 < |buf| && buf[i + 1] < 8 {
      code1, bit1 := code1 + buf[i + 1] + 1, !bit1;
      PackedBytes(v, buf[i + 1]);
      tab1, e := tab + [v * 8 + buf[i + 1]], Packed(v + 1, buf[i + 1] + 1);
      BuildingTwo(Lengths(buf), i, es, tab, code, bit, e, tab1);
      i1 := i + 2;
    } else {
      tab1 := PutRun(tab, v);
      e := Shortest(v);
      BuildingOne(Lengths(buf), i, es, tab, code, bit, e, tab1);
      i1 := i + 1;
    }
  }

  /** Where the block ends that the next index entry is for. */
  function BlockEnd(marks: seq<nat>): nat { (|marks| + 1) * PROP_BLOCK_LEN }

  /** The index entry in front of a new block; an offset above 7 is refused. */
  method PutMark(size: nat, blockEnd: nat, index: seq<Byte>, code: nat, ghost es: seq<Entry>, ghost marks: seq<nat>)
    returns (ok: bool, index1: seq<Byte>)
    requires AllFit(es) && Marks(es, index, marks) && size == |Encode(es)| >= blockEnd == BlockEnd(marks)
    requires code == Sum(RunsOf(es)) < CODE_LIMIT && |RunsOf(es)| % 2 == 0
    ensures ok ==> Marks(es, index1, marks + [|es|]) && BlockEnd(marks + [|es|]) == blockEnd + PROP_BLOCK_LEN
  {
    var offset := size - blockEnd;
    if offset > 7 {
      return false, index;
    }
    NewMark(es, index, marks, code, offset);
    return true, index + Le24(code + offset * 0x20_0000);
  }

  /** The second loop of build_prop_table. */
  method EncodeRuns(buf: seq<nat>, addIndex: bool) returns (ok: bool, tab: seq<Byte>, index: seq<Byte>)
    requires Sum(Lengths(buf)) <= CHARCODE_MAX + 1 && forall i :: 0 <= i < |buf| ==> buf[i] <= CHARCODE_MAX
    ensures !addIndex ==> ok
    ensures ok ==> exists es :: AllFit(es) && tab == Encode(es) && RunsOf(es) == Lengths(buf)
    ensures ok && addIndex ==> ValidIndex(tab, index, |index| / 3)
  {
    ghost var es: seq<Entry>, marks: seq<nat> := [], [];
    assert Sum(Lengths(buf)) < CODE_LIMIT;
    tab, index := [], [];
    var blockEnd, i: nat, code: nat, bit := PROP_BLOCK_LEN, 0, 0, false;
    BuildingStarts(Lengths(buf));
    hide Lengths, Building, Marks, Sum, InOddRun, Encode, RunsOf, WellEncoded, ValidIndex, Le24, AllFit, FitsFormat,
      BlockEnd;
    while i < |buf|
      invariant i <= |buf| && Building(Lengths(buf), i, es, tab, code, bit)
      invariant Marks(es, index, marks) && (addIndex ==> blockEnd == BlockEnd(marks))
    {
      BuiltBelow(Lengths(buf), i, es, tab, code, bit);
      if addIndex && |tab| >= blockEnd && !bit {
        ok, index := PutMark(|tab|, blockEnd, index, code, es, marks);
        if !ok {
          return;
        }
        marks, blockEnd := marks + [|es|], blockEnd + PROP_BLOCK_LEN;
      }
      ghost var e;
      i, tab, code, bit, e := PutRuns(buf, i, tab, code, bit, es);
      MarksPut(es, e, index, marks);
      es := es + [e];
    }
    AllBuilt(Lengths(buf), es, tab, code, bit);
    if addIndex {
      IndexBuilt(es, index, marks, code);
      index := index + Le24(code);
    }
    ok := true;
  }

  /** build_prop_table: the bytes and the index of a property. */
  method BuildPropTable(prop: seq<bool>, addIndex: bool) returns (ok: bool, tab: seq<Byte>, index: seq<Byte>)
    requires |prop| == CHARCODE_MAX + 1 && !prop[0]
    ensures !addIndex ==> ok
    ensures ok ==> WellEncoded(tab, 0)
    ensures ok ==> forall c: nat :: InRuns(tab, 0, 0, false, c) <==> c < |prop| && prop[c]
    ensures ok && addIndex ==> ValidIndex(tab, index, |index| / 3)
  {
    hide *;
    var buf := CollectRuns(prop);
    ok, tab, index := EncodeRuns(buf, addIndex);
    if ok {
      ghost var es :| AllFit(es) && tab == Encode(es) && RunsOf(es) == Lengths(buf);
      TableFor(es);
    }
  }

  /** Whatever is written about a property is read back, by the lookup and by the decoder. */
  method LookUpBuilt(prop: seq<bool>, c: nat) returns (ok: bool, r: bool, cr: CharRange)
    requires |prop| == CHARCODE_MAX + 1 && !prop[0]
    ensures ok ==> r == (c < |prop| && prop[c])
    ensures ok ==> forall d: nat :: InSome(cr.points, d) <==> d < |prop| && prop[d]
  {
    hide *;
    var tab: seq<Byte>, index: seq<Byte>;
    ok, tab, index := BuildPropTable(prop, true);
    cr := new CharRange();
    r := false;
    if ok {
      UnicodeProp1(cr, tab);
      r := IsInTable(c, tab, index, |index| / 3);
    }
  }
}
