/** That composition leaves nothing to compose: the other half of what NFC promises. */
module NfcComplete {
  import opened Normalization

  // Composites, without the composing function.

  function JamoOf(c: int): seq<int> { if IsSyllable(c) then HangulParts(c) else [c] }

  /** p is composed of c and d: a pair of the table, or a syllable whose jamo are those of c and then d. */
  predicate IsComposite(t: Tables, c: int, d: int, p: int) {
    (p != 0 && p == t.pair(c, d)) || (IsSyllable(p) && HangulParts(p) == JamoOf(c) + [d])
  }

  /** The jamo of a syllable, by the numbering of section 3.12 of the Unicode Standard. */
  lemma HangulNumbering(c: int)
    requires 0xAC00 <= c <= 0xD7A3
    ensures IsSyllable(c)
    ensures var ps := HangulParts(c);
      && 2 <= |ps| <= 3 && 0x1100 <= ps[0] <= 0x1112 && 0x1161 <= ps[1] <= 0x1175
      && (|ps| == 3 ==> 0x11A8 <= ps[2] <= 0x11C2)
      && c == 0xAC00 + ((ps[0] - 0x1100) * 21 + (ps[1] - 0x1161)) * 28 + if |ps| == 3 then ps[2] - 0x11A7 else 0
  {
    var n := c - S_BASE;
    assert n == n / 28 * 28 + n % 28 && n / 28 == n / 588 * 21 + n % 588 / 28;
  }

  /** Every composite is found, and it is the only one for a pair of jamo or of a syllable and a consonant. */
  lemma CompositeFound(t: Tables, c: int, d: int, p: int)
    requires IsComposite(t, c, d, p)
    ensures ComposePair(t, c, d) != 0
    ensures IsSyllable(p) && HangulParts(p) == JamoOf(c) + [d] ==> ComposePair(t, c, d) == p
  {
    if IsSyllable(p) && HangulParts(p) == JamoOf(c) + [d] {
      HangulNumbering(p);
      if IsSyllable(c) {
        HangulNumbering(c);
        var ps := HangulParts(c);
        assert HangulParts(p)[0] == ps[0] && HangulParts(p)[1] == ps[1] && HangulParts(p)[2] == d;
        hide HangulParts;
        assert (c - S_BASE) % 28 == 0;
      }
    }
  }

  // What is left to compose.

  /** Nothing stands between k and j that keeps them apart. */
  predicate Meets(t: Tables, r: seq<int>, k: nat, j: nat) {
    k < j < |r| && t.cc(r[k]) == 0 && forall i :: k < i < j ==> 0 < t.cc(r[i]) < t.cc(r[j])
  }

  ghost predicate InOrder(t: Tables, c: int, d: int)
    requires t.Valid()
  {
    t.cc(d) == 0 || t.cc(Full(t, c)[|Full(t, c)| - 1]) <= t.cc(d)
  }

  ghost predicate NothingLeft(t: Tables, r: seq<int>)
    requires t.Valid()
  {
    forall k: nat, j: nat :: Meets(t, r, k, j) && Fixed(t, r[j]) && InOrder(t, r[k], r[j]) ==>
      ComposePair(t, r[k], r[j]) == 0
  }

  lemma MeetsFront(t: Tables, s: seq<int>, r: seq<int>, k: nat, j: nat)
    requires j < |s| <= |r| && s == r[..|s|]
    ensures Meets(t, r, k, j) <==> Meets(t, s, k, j)
  {
    assert forall i :: 0 <= i < |s| ==> s[i] == r[i];
  }

  /** A character that was put behind the others did not compose with the starter that it meets. */
  lemma AppendLeft(t: Tables, s: seq<int>, x: int)
    requires t.Valid() && NothingLeft(t, s) && !Composes(t, s, x)
    ensures NothingLeft(t, s + [x])
  {
    hide ComposePair, Fixed, InOrder, LastStarter;
    var r := s + [x];
    forall k: nat, j: nat | Meets(t, r, k, j) && Fixed(t, r[j]) && InOrder(t, r[k], r[j])
      ensures ComposePair(t, r[k], r[j]) == 0
    {
      if j < |s| {
        MeetsFront(t, s, r, k, j);
      } else {
        assert forall i :: k < i < |s| ==> r[i] == s[i];
        LastStarterIs(t, s, k);
      }
    }
  }

  /** A composite does not decompose to itself, and its last part is of a higher class than what is behind it. */
  lemma JoinLeft(t: Tables, s: seq<int>, x: int)
    requires t.Valid() && NothingLeft(t, s) && Fixed(t, x) && Composes(t, s, x)
    ensures NothingLeft(t, Step(t, s, x))
  {
    var m := LastStarter(t, s);
    if Loses(s[m], x) {
      DropStays(t, s, x);
    } else {
      var r, p := Step(t, s, x), Composite(t, s, x);
      CompositeFull(t, s[m], x);
      hide Full, ComposePair, LastStarter;
      assert Full(t, p)[|Full(t, p)| - 1] == x;
      forall k: nat, j: nat | Meets(t, r, k, j) && Fixed(t, r[j]) && InOrder(t, r[k], r[j])
        ensures ComposePair(t, r[k], r[j]) == 0
      {
        MeetsJoined(t, s, r, m, p, k, j);
        if k == m || j == m { assert false; }
      }
    }
  }

  lemma MeetsJoined(t: Tables, s: seq<int>, r: seq<int>, m: nat, p: int, k: nat, j: nat)
    requires m < |s| && r == s[m := p] && t.cc(s[m]) == t.cc(p) == 0 && Meets(t, r, k, j)
    ensures Meets(t, s, k, j)
  {
    forall i | k < i < j ensures 0 < t.cc(s[i]) < t.cc(s[j]) { assert 0 < t.cc(r[i]) < t.cc(r[j]); }
  }

  lemma {:induction false} ComposedLeft(t: Tables, d: seq<int>, i: nat)
    requires t.Valid() && AllFixed(t, d) && i <= |d|
    ensures NothingLeft(t, Composed(t, d[..i]))
  {
    hide NothingLeft, Step, Fixed, Composes;
    if i == 0 {
      assert d[..0] == [];
      EmptyLeft(t);
    } else {
      var s, x := Composed(t, d[..i - 1]), d[i - 1];
      ComposedLeft(t, d, i - 1);
      ComposedSnoc(t, d, i - 1);
      assert d[..i - 1 + 1] == d[..i] && Fixed(t, x);
      if Composes(t, s, x) { JoinLeft(t, s, x); } else { AppendLeft(t, s, x); StepAppends(t, s, x); }
    }
  }

  lemma EmptyLeft(t: Tables)
    requires t.Valid()
    ensures NothingLeft(t, Composed(t, []))
  {
  }

  lemma StepAppends(t: Tables, s: seq<int>, x: int)
    requires !Composes(t, s, x)
    ensures Step(t, s, x) == s + [x]
  {
    hide Composes;
  }

  /** In a text in NFC no character meets a starter that it has a composite with, except where the composite's
      decomposition is not a canonically ordered one with a last part that decomposes no further. */
  lemma NothingToCompose(t: Tables, s: seq<int>, k: nat, j: nat, p: int)
    requires t.Valid() && Meets(t, Nfc(t, s), k, j) && IsComposite(t, Nfc(t, s)[k], Nfc(t, s)[j], p)
    ensures !Fixed(t, Nfc(t, s)[j]) || !InOrder(t, Nfc(t, s)[k], Nfc(t, s)[j])
  {
    var d := Nfd(t, s);
    NfdShape(t, s);
    hide Fixed, InOrder, Composed, Order, Meets, IsComposite, ComposePair;
    ComposedLeft(t, d, |d|);
    assert d[..|d|] == d;
    CompositeFound(t, Nfc(t, s)[k], Nfc(t, s)[j], p);
  }

  /** Every pair of the table is in canonical order and its second part decomposes no further, as in the
      Unicode Character Database. */
  ghost predicate OrderedPairs(t: Tables)
    requires t.Valid()
  {
    forall c, d {:trigger t.pair(c, d)} :: t.pair(c, d) != 0 ==> Fixed(t, d) && InOrder(t, c, d)
  }

  /** With such pairs a text in NFC has nothing to compose. */
  lemma FullyComposed(t: Tables, s: seq<int>, k: nat, j: nat)
    requires t.Valid() && OrderedPairs(t) && Meets(t, Nfc(t, s), k, j)
    ensures forall p :: !IsComposite(t, Nfc(t, s)[k], Nfc(t, s)[j], p)
  {
    hide Meets, Fixed, Nfc;
    var r := Nfc(t, s);
    assert k < j < |r| by { MeetsInside(t, r, k, j); }
    forall p ensures !IsComposite(t, r[k], r[j], p) {
      if IsComposite(t, r[k], r[j], p) {
        NothingToCompose(t, s, k, j, p);
        if t.pair(r[k], r[j]) == 0 { LastJamo(t, r[k], r[j], p); }
        assert false;
      }
    }
  }

  lemma MeetsInside(t: Tables, r: seq<int>, k: nat, j: nat)
    requires Meets(t, r, k, j)
    ensures k < j < |r|
  {
  }

  lemma LastJamo(t: Tables, c: int, d: int, p: int)
    requires t.Valid() && IsSyllable(p) && HangulParts(p) == JamoOf(c) + [d]
    ensures Fixed(t, d) && t.cc(d) == 0
  {
    SyllableParts(p);
    var ps := HangulParts(p);
    assert ps[|ps| - 1] == d;
    assert |JamoOf(c)| > 0;
    hide HangulParts;
    JamoFixed(t, d);
  }

  // Hangul.

  /** The jamo of a syllable compose to it. */
  lemma SyllableComposed(t: Tables, c: int)
    requires t.Valid() && IsSyllable(c)
    ensures Nfc(t, HangulParts(c)) == [c]
  {
    var ps := HangulParts(c);
    SyllableParts(c);
    HangulNumbering(c);
    JamoText(t, ps);
    var l, v := ps[0], ps[1];
    var lv := S_BASE + (l - L_BASE) * 588 + (v - V_BASE) * 28;
    LVParts(l, v, lv);
    hide HangulParts, Nfd, LastStarter, Full, FullSeq, Order;
    ComposesNext(t, l, v, lv);
    OneComposed(t, l);
    ComposedAppend(t, [l], v);
    assert [l] + [v] == [l, v];
    if |ps| == 3 {
      ComposesNext(t, lv, ps[2], c);
      ComposedAppend(t, [l, v], ps[2]);
      assert [l, v] + [ps[2]] == ps;
    } else {
      assert ps == [l, v] && lv == c;
    }
  }

  lemma OneComposed(t: Tables, x: int)
    ensures Composed(t, [x]) == [x]
  {
    assert [] + [x] == [x] && Composed(t, []) == [];
    ComposedAppend(t, [], x);
  }

  lemma ComposesNext(t: Tables, c: int, d: int, p: int)
    requires t.cc(c) == 0 && ComposePair(t, c, d) == p != 0
    ensures Step(t, [c], d) == [p]
  {
    StarterLast(t, [c], d);
    hide LastStarter;
    assert [c][0 := p] == [p];
  }

  /** A text of jamo is in NFD. */
  lemma JamoText(t: Tables, s: seq<int>)
    requires t.Valid() && forall k :: 0 <= k < |s| ==> IsL(s[k]) || IsV(s[k]) || IsT(s[k])
    ensures Nfd(t, s) == s && forall k :: 0 <= k < |s| ==> t.cc(s[k]) == 0
  {
    forall k | 0 <= k < |s| ensures Fixed(t, s[k]) && t.cc(s[k]) == 0 {
      JamoFixed(t, s[k]);
    }
    hide FullSeq, Order, Fixed;
    FixedFull(t, s);
    OrderedIsFixed(t, s);
  }

  // Both exceptions happen.

  /** 1 and 2 compose to 4, and 4 and 3 to 5, but 3 is of a lower class than 2. */
  function OutOfOrder(): Tables {
    Tables(c => if c == 2 then 230 else if c == 3 then 220 else 0,
      c => if c == 4 then [1, 2] else if c == 5 then [4, 3] else [],
      (c, d) => if c == 1 && d == 2 then 4 else if c == 4 && d == 3 then 5 else 0,
      c => if c == 4 then 1 else if c == 5 then 2 else 0)
  }

  /** 2 and 3 compose to 4, and 1 and 4 to 5. */
  function Unfinished(): Tables {
    Tables(c => if c == 3 then 230 else 0,
      c => if c == 4 then [2, 3] else if c == 5 then [1, 4] else [],
      (c, d) => if c == 2 && d == 3 then 4 else if c == 1 && d == 4 then 5 else 0,
      c => if c == 4 then 1 else if c == 5 then 2 else 0)
  }

  lemma ExamplesValid()
    ensures OutOfOrder().Valid() && Unfinished().Valid()
  {
  }

  lemma PlainText(t: Tables, s: seq<int>)
    requires t.Valid() && (forall k :: 0 <= k < |s| ==> 0 < s[k] < 4 && t.decomp(s[k]) == []) && Ordered(t, s)
    ensures Nfd(t, s) == s
  {
    hide FullSeq, Order, Ordered;
    assert AllFixed(t, s);
    FixedFull(t, s);
    OrderedIsFixed(t, s);
  }

  /** A mark of a higher class joins the starter over a mark of a lower one. */
  lemma JoinsOver(t: Tables, c: int, m: int, x: int, p: int)
    requires t.cc(c) == 0 && 0 < t.cc(m) < t.cc(x) && ComposePair(t, c, m) == 0 && ComposePair(t, c, x) == p != 0
    ensures Composed(t, [c, m, x]) == [p, m]
  {
    hide LastStarter, ComposePair, Composed;
    OneComposed(t, c);
    LastStarterIs(t, [c], 0);
    LastStarterIs(t, [c, m], 0);
    StepAppends(t, [c], m);
    ComposedAppend(t, [c], m);
    assert [c] + [m] == [c, m] && [c, m] + [x] == [c, m, x] && [c, m][0 := p] == [p, m];
    ComposedAppend(t, [c, m], x);
  }

  /** A starter that did not compose becomes a composite itself. */
  lemma JoinsLater(t: Tables, b: int, c: int, x: int, p: int)
    requires t.cc(b) == 0 == t.cc(c) && ComposePair(t, b, c) == 0 && ComposePair(t, c, x) == p != 0
    ensures Composed(t, [b, c, x]) == [b, p]
  {
    hide LastStarter, ComposePair, Composed;
    OneComposed(t, b);
    LastStarterIs(t, [b], 0);
    LastStarterIs(t, [b, c], 1);
    StepAppends(t, [b], c);
    ComposedAppend(t, [b], c);
    assert [b] + [c] == [b, c] && [b, c] + [x] == [b, c, x] && [b, c][1 := p] == [b, p];
    ComposedAppend(t, [b, c], x);
  }

  lemma OutOfOrderLeft()
    ensures var t, s := OutOfOrder(), [1, 3, 2];
      t.Valid() && Nfc(t, s) == [4, 3] && Meets(t, [4, 3], 0, 1) && IsComposite(t, 4, 3, 5)
  {
    hide Full, FullSeq, Order, Composed, Nfd;
    var t := OutOfOrder();
    ExamplesValid();
    PlainText(t, [1, 3, 2]);
    JoinsOver(t, 1, 3, 2, 4);
  }

  lemma UnfinishedLeft()
    ensures var t, s := Unfinished(), [1, 2, 3];
      t.Valid() && Nfc(t, s) == [1, 4] && Meets(t, [1, 4], 0, 1) && IsComposite(t, 1, 4, 5)
  {
    hide Full, FullSeq, Order, Composed, Nfd;
    var t := Unfinished();
    ExamplesValid();
    PlainText(t, [1, 2, 3]);
    JoinsLater(t, 1, 2, 3, 4);
  }
}
