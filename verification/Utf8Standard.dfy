/** UTF-8 as chapter 3 of the Unicode Standard has it: the well-formed byte sequences of its
    tables, and decoding with one replacement for each maximal subpart that is ill formed. */
module Utf8Standard {
  import opened Utf16
  import opened Utf8

  // ------------------------------------------------------------ tables 3-6 and 3-7

  predicate Tail(b: int) {
    0x80 <= b <= 0xBF
  }

  /** The well-formed sequences, row by row. */
  predicate Sequence(b: seq<int>) {
    || (|b| == 1 && 0x00 <= b[0] <= 0x7F)
    || (|b| == 2 && 0xC2 <= b[0] <= 0xDF && Tail(b[1]))
    || (|b| == 3 && b[0] == 0xE0 && 0xA0 <= b[1] <= 0xBF && Tail(b[2]))
    || (|b| == 3 && 0xE1 <= b[0] <= 0xEC && Tail(b[1]) && Tail(b[2]))
    || (|b| == 3 && b[0] == 0xED && 0x80 <= b[1] <= 0x9F && Tail(b[2]))
    || (|b| == 3 && 0xEE <= b[0] <= 0xEF && Tail(b[1]) && Tail(b[2]))
    || (|b| == 4 && b[0] == 0xF0 && 0x90 <= b[1] <= 0xBF && Tail(b[2]) && Tail(b[3]))
    || (|b| == 4 && 0xF1 <= b[0] <= 0xF3 && Tail(b[1]) && Tail(b[2]) && Tail(b[3]))
    || (|b| == 4 && b[0] == 0xF4 && 0x80 <= b[1] <= 0x8F && Tail(b[2]) && Tail(b[3]))
  }

  /** The code point of such a sequence: the bits of its bytes below their markers. */
  function Value(b: seq<int>): int {
    if |b| == 1 then b[0]
    else if |b| == 2 then (b[0] - 0xC0) * 0x40 + (b[1] - 0x80)
    else if |b| == 3 then (b[0] - 0xE0) * 0x1000 + (b[1] - 0x80) * 0x40 + (b[2] - 0x80)
    else if |b| == 4 then
      (b[0] - 0xF0) * 0x40000 + (b[1] - 0x80) * 0x1000 + (b[2] - 0x80) * 0x40 + (b[3] - 0x80)
    else 0
  }

  /** The bytes begin a well-formed sequence and are not yet one. */
  ghost predicate Begins(b: seq<int>) {
    exists rest: seq<int> :: rest != [] && Sequence(b + rest)
  }

  // ------------------------------------------------------------ decoding

  /** The first n bytes are a well-formed sequence. */
  predicate StartsWell(b: seq<int>, n: nat) {
    1 <= n <= |b| && Sequence(b[..n])
  }

  /** n bytes make up the maximal subpart at the front of what starts with no well-formed
      sequence: as many as begin one, or else a single byte. */
  ghost predicate IsSubpart(b: seq<int>, n: nat) {
    && 1 <= n <= |b| && (n == 1 || Begins(b[..n]))
    && forall m :: n < m <= |b| ==> !Begins(b[..m])
  }

  /** What the bytes decode to. */
  ghost predicate IsDecoding(b: seq<int>, items: seq<Item>)
    decreases |b|
  {
    if b == [] then items == []
    else
      && items != []
      && if exists n: nat :: StartsWell(b, n) then
           exists n: nat :: StartsWell(b, n) && items[0] == Char(Value(b[..n])) && IsDecoding(b[n..], items[1..])
         else exists n: nat :: IsSubpart(b, n) && items[0] == Bad && IsDecoding(b[n..], items[1..])
  }

  // ------------------------------------------------------------ beginnings, by their length

  /** The bounds of the second byte, by the first. */
  function SecondFrom(lead: int): int {
    if lead == 0xE0 then 0xA0 else if lead == 0xF0 then 0x90 else 0x80
  }

  function SecondTo(lead: int): int {
    if lead == 0xED then 0x9F else if lead == 0xF4 then 0x8F else 0xBF
  }

  function LengthOf(lead: int): nat {
    if 0xC2 <= lead <= 0xDF then 2 else if 0xE0 <= lead <= 0xEF then 3 else if 0xF0 <= lead <= 0xF4 then 4 else 0
  }

  /** As far as the bytes go they are those of a longer sequence. */
  predicate Fits(b: seq<int>) {
    && b != [] && |b| <= LengthOf(b[0])
    && (|b| >= 2 ==> SecondFrom(b[0]) <= b[1] <= SecondTo(b[0]))
    && (forall k :: 2 <= k < |b| ==> Tail(b[k]))
  }

  lemma SequenceFits(b: seq<int>)
    ensures Sequence(b) <==> (|b| == 1 && 0 <= b[0] <= 0x7F) || (Fits(b) && |b| == LengthOf(b[0]))
  {
  }

  lemma BeginsFits(b: seq<int>)
    requires b != []
    ensures Begins(b) <==> Fits(b) && |b| < LengthOf(b[0])
  {
    if Fits(b) && |b| < LengthOf(b[0]) {
      var n, second := LengthOf(b[0]), SecondFrom(b[0]);
      var rest := if |b| == 1 then [second] + seq(n - 2, _ => 0x80) else seq(n - |b|, _ => 0x80);
      assert Fits(b + rest) && |b + rest| == n;
      SequenceFits(b + rest);
      assert rest != [];
    }
    if Begins(b) {
      var rest: seq<int> :| rest != [] && Sequence(b + rest);
      SequenceFits(b + rest);
      assert (b + rest)[0] == b[0];
      assert |b| >= 2 ==> (b + rest)[1] == b[1];
      assert forall k :: 2 <= k < |b| ==> (b + rest)[k] == b[k];
    }
  }

  // ------------------------------------------------------------ the decoder follows

  /** The decoder's state after the bytes of a beginning. */
  function StateOf(b: seq<int>): Decoding
    requires Fits(b)
  {
    if |b| == 1 then Lead(b[0])
    else Decoding(PointOf(b), |b| - 1, LengthOf(b[0]) - 1, 0x80, 0xBF)
  }

  function PointOf(b: seq<int>): int
    requires b != []
  {
    if |b| == 1 then Lead(b[0]).point else PointOf(b[..|b| - 1]) * 64 + (b[|b| - 1] - 0x80)
  }

  lemma LeadIs(lead: int)
    ensures Lead(lead).needed > 0 <==> LengthOf(lead) > 0
    ensures LengthOf(lead) > 0 ==>
              Lead(lead) == Decoding(Lead(lead).point, 0, LengthOf(lead) - 1, SecondFrom(lead), SecondTo(lead))
  {
  }

  lemma ValueIs(b: seq<int>)
    requires Fits(b) && |b| == LengthOf(b[0])
    ensures Value(b) == PointOf(b)
  {
    var n := |b|;
    assert b[..n - 1][..n - 2] == b[..n - 2];
    if n == 4 {
      assert b[..2][..1] == b[..1] && b[..3][..2] == b[..2];
      assert PointOf(b[..2]) == PointOf(b[..1]) * 64 + (b[1] - 0x80);
      assert PointOf(b[..3]) == PointOf(b[..2]) * 64 + (b[2] - 0x80);
    } else if n == 3 {
      assert PointOf(b[..2]) == PointOf(b[..1]) * 64 + (b[1] - 0x80);
    }
  }

  /** One more byte of a beginning. */
  lemma ReadMore(p: seq<int>, x: int)
    requires Fits(p) && |p| < LengthOf(p[0])
    ensures var q := p + [x];
            var d := StateOf(p);
            && d.needed > 0
            && (Fits(q) <==> d.lower <= x <= d.upper)
            && (Fits(q) && |q| < LengthOf(p[0]) ==> Read(x, d) == ([], StateOf(q)))
            && (Fits(q) && |q| == LengthOf(p[0]) ==> Read(x, d) == ([Char(PointOf(q))], FRESH))
  {
    var q := p + [x];
    LeadIs(p[0]);
    assert q[..|p|] == p && q[0] == p[0];
    assert |p| >= 2 ==> q[1] == p[1];
    assert PointOf(q) == PointOf(p) * 64 + (x - 0x80);
    assert StateOf(p).point == PointOf(p);
    if Fits(q) {
      assert |p| >= 2 ==> Tail(q[|p|]);
    }
  }

  lemma FitsPrefix(b: seq<int>, n: nat)
    requires Fits(b) && 1 <= n <= |b|
    ensures Fits(b[..n])
  {
    assert b[..n][0] == b[0] && (n >= 2 ==> b[..n][1] == b[1]);
    assert forall k :: 2 <= k < n ==> b[..n][k] == b[k];
  }

  lemma FitsOn(b: seq<int>, n: nat, m: nat)
    requires 1 <= n <= m <= |b|
    ensures Fits(b[..m]) ==> Fits(b[..n])
  {
    assert b[..m][..n] == b[..n];
    if Fits(b[..m]) {
      FitsPrefix(b[..m], n);
    }
  }

  /** Well-formed sequences at the front. */
  lemma StartsFits(b: seq<int>, n: nat)
    requires b != []
    ensures StartsWell(b, n) <==>
              || (n == 1 && 0 <= b[0] <= 0x7F)
              || (1 <= n <= |b| && n == LengthOf(b[0]) && Fits(b[..n]))
  {
    if 1 <= n <= |b| {
      SequenceFits(b[..n]);
      assert b[..n][0] == b[0];
    }
  }

  /** Where a beginning stops short. */
  lemma StopsShort(b: seq<int>, n: nat)
    requires 1 <= n <= |b| && Fits(b[..n]) && n < LengthOf(b[0]) && (n < |b| ==> !Fits(b[..n + 1]))
    ensures IsSubpart(b, n) && !exists m: nat :: StartsWell(b, m)
  {
    BeginsFits(b[..n]);
    forall m | n < m <= |b|
      ensures !Fits(b[..m])
    {
      FitsOn(b, n + 1, m);
    }
    forall m | n < m <= |b|
      ensures !Begins(b[..m])
    {
      BeginsFits(b[..m]);
    }
    forall m: nat
      ensures !StartsWell(b, m)
    {
      StartsFits(b, m);
    }
  }

  /** The decoder, inside a sequence, puts out one item and is between sequences. */
  lemma {:induction false} Walk(b: seq<int>, n: nat) returns (item: Item, m: nat)
    requires 1 <= n <= |b| && Fits(b[..n]) && n < LengthOf(b[0])
    ensures n <= m <= |b| && Scan(b[n..], StateOf(b[..n])) == [item] + Scan(b[m..], FRESH)
    ensures (StartsWell(b, m) && item == Char(Value(b[..m])))
            || (IsSubpart(b, m) && item == Bad && !exists k: nat :: StartsWell(b, k))
    decreases |b| - n
  {
    hide IsSubpart, StartsWell, Value;
    var p := b[..n];
    if n == |b| {
      item, m := Bad, n;
      StopsShort(b, n);
      EndInside(p);
      assert b[n..] == [];
    } else {
      var x := b[n];
      assert b[..n + 1] == p + [x];
      ReadMore(p, x);
      assert b[n..][0] == x && b[n..][1..] == b[n + 1..];
      if !Fits(b[..n + 1]) {
        item, m := Bad, n;
        StopsShort(b, n);
        ScanRestored(b, n, StateOf(p));
      } else if n + 1 == LengthOf(b[0]) {
        item, m := Char(PointOf(b[..n + 1])), n + 1;
        ValueIs(b[..n + 1]);
        StartsFits(b, n + 1);
      } else {
        item, m := Walk(b, n + 1);
        assert Scan(b[n..], StateOf(p)) == [] + Scan(b[n + 1..], StateOf(b[..n + 1]));
      }
    }
  }

  lemma EndInside(p: seq<int>)
    requires Fits(p) && |p| < LengthOf(p[0])
    ensures Scan([], StateOf(p)) == [Bad] && Scan([], FRESH) == []
  {
    LeadIs(p[0]);
  }

  /** The first item of a decoding, and the bytes it is of. */
  lemma FirstItem(b: seq<int>) returns (item: Item, m: nat)
    requires AreBytes(b) && b != []
    ensures 1 <= m <= |b| && Decode(b) == [item] + Decode(b[m..])
    ensures (StartsWell(b, m) && item == Char(Value(b[..m])))
            || (IsSubpart(b, m) && item == Bad && !exists k: nat :: StartsWell(b, k))
  {
    LeadIs(b[0]);
    assert Decode(b) == ReadLead(b[0]).0 + Scan(b[1..], ReadLead(b[0]).1);
    if b[0] < 0x80 {
      item, m := Char(b[0]), 1;
      StartsFits(b, 1);
    } else if LengthOf(b[0]) > 0 {
      assert Fits(b[..1]);
      item, m := Walk(b, 1);
    } else {
      item, m := Bad, 1;
      NothingBegins(b);
    }
  }

  lemma NothingBegins(b: seq<int>)
    requires b != [] && b[0] >= 0x80 && LengthOf(b[0]) == 0
    ensures IsSubpart(b, 1) && !exists k: nat :: StartsWell(b, k)
  {
    forall k: nat
      ensures !StartsWell(b, k)
    {
      StartsFits(b, k);
    }
    forall k | 1 < k <= |b|
      ensures !Begins(b[..k])
    {
      BeginsFits(b[..k]);
      assert b[..k][0] == b[0];
    }
  }

  /** For all bytes: the decoder decodes as the standard has it. */
  lemma {:induction false} DecodesStandard(b: seq<int>)
    requires AreBytes(b)
    ensures IsDecoding(b, Decode(b))
    decreases |b|
  {
    if b != [] {
      var item, m := FirstItem(b);
      DecodesStandard(b[m..]);
      assert Decode(b)[1..] == Decode(b[m..]);
    }
  }

  lemma StartsOnce(b: seq<int>, m: nat, n: nat)
    requires StartsWell(b, m) && StartsWell(b, n)
    ensures m == n
  {
    StartsFits(b, m);
    StartsFits(b, n);
  }

  /** And there is one way to decode. */
  lemma {:induction false} DecodingUnique(b: seq<int>, x: seq<Item>, y: seq<Item>)
    requires IsDecoding(b, x) && IsDecoding(b, y)
    ensures x == y
    decreases |b|
  {
    if b != [] {
      var m: nat, n: nat;
      if exists k: nat :: StartsWell(b, k) {
        m :| StartsWell(b, m) && x[0] == Char(Value(b[..m])) && IsDecoding(b[m..], x[1..]);
        n :| StartsWell(b, n) && y[0] == Char(Value(b[..n])) && IsDecoding(b[n..], y[1..]);
        StartsOnce(b, m, n);
      } else {
        m :| IsSubpart(b, m) && x[0] == Bad && IsDecoding(b[m..], x[1..]);
        n :| IsSubpart(b, n) && y[0] == Bad && IsDecoding(b[n..], y[1..]);
        SubpartOnce(b, m, n);
      }
      DecodingUnique(b[m..], x[1..], y[1..]);
      assert x == [x[0]] + x[1..] && y == [y[0]] + y[1..];
    }
  }

  lemma SubpartOnce(b: seq<int>, m: nat, n: nat)
    requires IsSubpart(b, m) && IsSubpart(b, n)
    ensures m == n
  {
  }

  /** A scalar value's encoding is the well-formed sequence of that value. */
  lemma EncodesStandard(c: int)
    requires IsScalar(c)
    ensures Sequence(EncodePoint(c)) && Value(EncodePoint(c)) == c
  {
    if 0x800 <= c < 0x10000 {
      ThreeDigits(c);
    } else if c >= 0x10000 {
      FourDigits(c);
    }
  }
}
