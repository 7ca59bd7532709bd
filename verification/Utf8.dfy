/** UTF-8 as the web platform's TextEncoder and TextDecoder have it: encoding of UTF-16
    strings with lone surrogates replaced, and the decoder's state machine. Bytes and code
    points are numbers; the bit fields of the format are written as quotients by 64. */
module Utf8 {
  import opened Options
  import opened Utf16

  const REPLACEMENT := 0xFFFD

  predicate AreBytes(b: seq<int>) {
    forall k :: 0 <= k < |b| ==> 0 <= b[k] < 0x100
  }

  predicate IsScalar(c: int) {
    IsCodePoint(c) && !IsHigh(c) && !IsLow(c)
  }

  predicate AreScalars(cps: seq<int>) {
    forall k :: 0 <= k < |cps| ==> IsScalar(cps[k])
  }

  function Scalar(c: int): int {
    if IsHigh(c) || IsLow(c) then REPLACEMENT else c
  }

  function Scalars(cps: seq<int>): (r: seq<int>)
    requires AreCodePoints(cps)
    ensures AreScalars(r) && |r| == |cps|
  {
    seq(|cps|, i requires 0 <= i < |cps| => Scalar(cps[i]))
  }

  // ------------------------------------------------------------ encoding

  function EncodePoint(c: int): seq<int> {
    if c < 0x80 then [c]
    else if c < 0x800 then [0xC0 + c / 64, 0x80 + c % 64]
    else if c < 0x10000 then [0xE0 + c / 4096, 0x80 + c / 64 % 64, 0x80 + c % 64]
    else [0xF0 + c / 262144, 0x80 + c / 4096 % 64, 0x80 + c / 64 % 64, 0x80 + c % 64]
  }

  function EncodePoints(cps: seq<int>): seq<int> {
    if cps == [] then [] else EncodePoint(cps[0]) + EncodePoints(cps[1..])
  }

  /** The character that a string starts with, lone surrogates replaced, and its units. */
  function First(s: seq<int>): (r: (int, nat))
    requires s != []
    ensures 1 <= r.1 <= |s|
  {
    if |s| >= 2 && IsHigh(s[0]) && IsLow(s[1]) then (Combine(s[0], s[1]), 2) else (Scalar(s[0]), 1)
  }

  function Spell(encode: int -> seq<int>, s: seq<int>): seq<int> {
    if s == [] then [] else encode(First(s).0) + Spell(encode, s[First(s).1..])
  }

  /** A whole string at once. */
  function Encode(s: seq<int>): seq<int> {
    Spell(EncodePoint, s)
  }

  /** That is its code points, each encoded. */
  lemma {:induction false} EncodeIsPoints(s: seq<int>)
    requires IsUnits(s)
    ensures Encode(s) == EncodePoints(Scalars(ToCodePoints(s)))
  {
    if s != [] {
      var n := First(s).1;
      EncodeIsPoints(s[n..]);
      assert Scalars(ToCodePoints(s))[1..] == Scalars(ToCodePoints(s[n..]));
    }
  }

  /** A cut that does not part a surrogate pair. */
  predicate CleanCut(a: seq<int>, b: seq<int>) {
    !(a != [] && b != [] && IsHigh(a[|a| - 1]) && IsLow(b[0]))
  }

  lemma {:induction false} SpellConcat(encode: int -> seq<int>, a: seq<int>, b: seq<int>)
    requires CleanCut(a, b)
    ensures Spell(encode, a + b) == Spell(encode, a) + Spell(encode, b)
    decreases |a|
  {
    if a == [] {
      assert a + b == b;
    } else {
      var n := First(a).1;
      assert (a + b)[n..] == a[n..] + b;
      assert First(a + b) == First(a);
      SpellConcat(encode, a[n..], b);
    }
  }

  lemma EncodeConcat(a: seq<int>, b: seq<int>)
    requires CleanCut(a, b)
    ensures Encode(a + b) == Encode(a) + Encode(b)
  {
    SpellConcat(EncodePoint, a, b);
  }

  /** The character at index i and its units, as the encoder's loop reads it. */
  method ReadCharacter(s: seq<int>, i: nat) returns (c: int, step: nat)
    requires i < |s|
    ensures First(s[i..]) == (c, step)
  {
    c, step := s[i], 1;
    if IsHigh(c) && i + 1 < |s| {
      var lo := s[i + 1];
      if IsLow(lo) {
        c, step := Combine(c, lo), 2;
      } else {
        c := REPLACEMENT;
      }
    } else if 0xD800 <= c <= 0xDFFF {
      c := REPLACEMENT;
    }
  }

  /** The encoder's loop over code units. */
  method SpellUnits(encode: int -> seq<int>, s: seq<int>) returns (out: seq<int>)
    ensures out == Spell(encode, s)
  {
    out := [];
    var i := 0;
    while i < |s|
      invariant 0 <= i <= |s|
      invariant out + Spell(encode, s[i..]) == Spell(encode, s)
    {
      var c, step := ReadCharacter(s, i);
      SpellOne(encode, s, i, c, step);
      out := out + encode(c);
      i := i + step;
    }
  }

  method Utf8Encode(s: seq<int>) returns (out: seq<int>)
    ensures out == Encode(s)
  {
    out := SpellUnits(EncodePoint, s);
  }

  lemma SpellOne(encode: int -> seq<int>, s: seq<int>, i: nat, c: int, step: nat)
    requires i < |s| && First(s[i..]) == (c, step)
    ensures i + step <= |s| && Spell(encode, s[i..]) == encode(c) + Spell(encode, s[i + step..])
  {
    assert s[i..][step..] == s[i + step..];
  }

  // ------------------------------------------------------------ decoding

  /** What the decoder puts out: a character, or a replacement for what is ill formed. */
  datatype Item = Char(point: int) | Bad

  /** needed is the number of continuation bytes of the sequence begun, seen those read. */
  datatype Decoding = Decoding(point: int, seen: int, needed: int, lower: int, upper: int)

  const FRESH := Decoding(0, 0, 0, 0x80, 0xBF)

  /** What a lead byte begins; needed is 0 for one that begins nothing. */
  function Lead(b: int): Decoding {
    if 0xC2 <= b <= 0xDF then Decoding(b - 0xC0, 0, 1, 0x80, 0xBF)
    else if 0xE0 <= b <= 0xEF then
      Decoding(b - 0xE0, 0, 2, if b == 0xE0 then 0xA0 else 0x80, if b == 0xED then 0x9F else 0xBF)
    else if 0xF0 <= b <= 0xF4 then
      Decoding(b - 0xF0, 0, 3, if b == 0xF0 then 0x90 else 0x80, if b == 0xF4 then 0x8F else 0xBF)
    else FRESH
  }

  /** One byte between sequences. */
  function ReadLead(b: int): (seq<Item>, Decoding) {
    if b < 0x80 then ([Char(b)], FRESH)
    else if Lead(b).needed > 0 then ([], Lead(b))
    else ([Bad], FRESH)
  }

  /** One byte: inside a sequence, one out of bounds ends it and is read again. */
  function Read(b: int, d: Decoding): (seq<Item>, Decoding) {
    if d.needed == 0 then ReadLead(b)
    else if b < d.lower || b > d.upper then
      var (items, next) := ReadLead(b);
      ([Bad] + items, next)
    else
      var point := d.point * 64 + (b - 0x80);
      if d.seen + 1 == d.needed then ([Char(point)], FRESH)
      else ([], Decoding(point, d.seen + 1, d.needed, 0x80, 0xBF))
  }

  /** The end of input inside a sequence is one replacement. */
  function Flush(d: Decoding): seq<Item> {
    if d.needed != 0 then [Bad] else []
  }

  /** Everything put out from state d on. */
  function Scan(bytes: seq<int>, d: Decoding): seq<Item> {
    if bytes == [] then Flush(d)
    else
      var (items, next) := Read(bytes[0], d);
      items + Scan(bytes[1..], next)
  }

  /** The state after bytes. */
  function Reached(bytes: seq<int>, d: Decoding): Decoding {
    if bytes == [] then d else Reached(bytes[1..], Read(bytes[0], d).1)
  }

  function Decode(bytes: seq<int>): seq<Item> {
    Scan(bytes, FRESH)
  }

  function Text(items: seq<Item>): (cps: seq<int>)
    ensures |cps| == |items|
  {
    seq(|items|, i requires 0 <= i < |items| => if items[i].Char? then items[i].point else REPLACEMENT)
  }

  function Chars(cps: seq<int>): (items: seq<Item>)
    ensures |items| == |cps|
  {
    seq(|cps|, i requires 0 <= i < |cps| => Char(cps[i]))
  }

  lemma ScanBetween(bytes: seq<int>, i: nat, d: Decoding)
    requires i < |bytes| && d.needed == 0
    ensures Scan(bytes[i..], d) == ReadLead(bytes[i]).0 + Scan(bytes[i + 1..], ReadLead(bytes[i]).1)
  {
    assert bytes[i..][1..] == bytes[i + 1..];
  }

  lemma ScanRestored(bytes: seq<int>, i: nat, d: Decoding)
    requires i < |bytes| && d.needed != 0 && (bytes[i] < d.lower || bytes[i] > d.upper)
    ensures Scan(bytes[i..], d) == [Bad] + Scan(bytes[i..], FRESH)
  {
  }

  lemma ScanWithin(bytes: seq<int>, i: nat, d: Decoding)
    requires i < |bytes| && d.needed != 0 && d.lower <= bytes[i] <= d.upper
    ensures Scan(bytes[i..], d) == Read(bytes[i], d).0 + Scan(bytes[i + 1..], Read(bytes[i], d).1)
  {
    assert bytes[i..][1..] == bytes[i + 1..];
  }

  /** What is left to put out makes up the whole with what has been. */
  ghost predicate Remains(bytes: seq<int>, items: seq<Item>, rest: seq<Item>) {
    items + rest == Decode(bytes)
  }

  lemma RemainsMove(bytes: seq<int>, items: seq<Item>, more: seq<Item>, rest: seq<Item>)
    requires Remains(bytes, items, more + rest)
    ensures Remains(bytes, items + more, rest)
    ensures Bad in more ==> Bad in Decode(bytes)
  {
    assert items + more + rest == items + (more + rest);
  }

  lemma TextGrows(items: seq<Item>, x: Item)
    ensures Text(items + [x]) == Text(items) + [if x.Char? then x.point else REPLACEMENT]
  {
  }

  /** The decoder's loop; in fatal mode the first replacement would be an exception. */
  method Utf8Decode(bytes: seq<int>, fatal: bool) returns (thrown: bool, out: seq<int>)
    ensures thrown <==> fatal && Bad in Decode(bytes)
    ensures !thrown ==> out == Text(Decode(bytes))
    ensures !thrown ==> |out| == |Decode(bytes)| && forall k :: 0 <= k < |out| ==>
              out[k] == match Decode(bytes)[k] case Char(point) => point case Bad => 0xFFFD
  {
    ghost var items: seq<Item> := [];
    out, thrown := [], false;
    var d, i := FRESH, 0;
    while i < |bytes|
      invariant 0 <= i <= |bytes|
      invariant Remains(bytes, items, Scan(bytes[i..], d))
      invariant out == Text(items) && (fatal ==> Bad !in items)
      decreases |bytes| - i, d.needed != 0
    {
      var put: Option<Item>;
      if d.needed == 0 {
        ScanBetween(bytes, i, d);
        RemainsMove(bytes, items, ReadLead(bytes[i]).0, Scan(bytes[i + 1..], ReadLead(bytes[i]).1));
        put, d := StepLead(bytes[i]);
        i := i + 1;
      } else if bytes[i] < d.lower || bytes[i] > d.upper {
        ScanRestored(bytes, i, d);
        RemainsMove(bytes, items, [Bad], Scan(bytes[i..], FRESH));
        put, d := Some(Bad), FRESH;
      } else {
        ScanWithin(bytes, i, d);
        RemainsMove(bytes, items, Read(bytes[i], d).0, Scan(bytes[i + 1..], Read(bytes[i], d).1));
        put, d := StepWithin(bytes[i], d);
        i := i + 1;
      }
      if put == Some(Bad) && fatal {
        return true, out;
      }
      if put.Some? {
        TextGrows(items, put.value);
        out := out + [if put.value.Char? then put.value.point else REPLACEMENT];
        items := items + [put.value];
      } else {
        assert items + [] == items;
      }
    }
    assert bytes[i..] == [];
    RemainsMove(bytes, items, Flush(d), []);
    if d.needed != 0 {
      if fatal {
        return true, out;
      }
      TextGrows(items, Bad);
      out := out + [REPLACEMENT];
    }
  }

  function Shown(put: Option<Item>): seq<Item> {
    if put.Some? then [put.value] else []
  }

  method StepLead(b: int) returns (put: Option<Item>, d: Decoding)
    ensures (Shown(put), d) == ReadLead(b)
  {
    put, d := None, FRESH;
    if b < 0x80 {
      put := Some(Char(b));
    } else if 0xC2 <= b <= 0xDF {
      d := Decoding(b - 0xC0, 0, 1, 0x80, 0xBF);
    } else if 0xE0 <= b <= 0xEF {
      d := Decoding(b - 0xE0, 0, 2, if b == 0xE0 then 0xA0 else 0x80, if b == 0xED then 0x9F else 0xBF);
    } else if 0xF0 <= b <= 0xF4 {
      d := Decoding(b - 0xF0, 0, 3, if b == 0xF0 then 0x90 else 0x80, if b == 0xF4 then 0x8F else 0xBF);
    } else {
      put := Some(Bad);
    }
  }

  method StepWithin(b: int, d: Decoding) returns (put: Option<Item>, next: Decoding)
    requires d.needed != 0 && d.lower <= b <= d.upper
    ensures (Shown(put), next) == Read(b, d)
  {
    var point := d.point * 64 + (b - 0x80);
    if d.seen + 1 == d.needed {
      put, next := Some(Char(point)), FRESH;
    } else {
      put, next := None, Decoding(point, d.seen + 1, d.needed, 0x80, 0xBF);
    }
  }

  // ------------------------------------------------------------ round trips

  lemma ScanCons(b: int, rest: seq<int>, d: Decoding)
    ensures Scan([b] + rest, d) == Read(b, d).0 + Scan(rest, Read(b, d).1)
  {
    assert ([b] + rest)[1..] == rest;
  }

  lemma DecodeTwo(c: int, rest: seq<int>)
    requires 0x80 <= c < 0x800
    ensures Decode(EncodePoint(c) + rest) == [Char(c)] + Decode(rest)
  {
    var b0, b1 := 0xC0 + c / 64, 0x80 + c % 64;
    assert EncodePoint(c) + rest == [b0] + ([b1] + rest);
    ScanCons(b0, [b1] + rest, FRESH);
    ScanCons(b1, rest, Lead(b0));
  }

  lemma ThreeDigits(c: int)
    requires 0x800 <= c < 0x10000
    ensures c == (c / 4096 * 64 + c / 64 % 64) * 64 + c % 64
  {
    assert c / 4096 == c / 64 / 64;
  }

  lemma DecodeThreeDigits(q2: int, q1: int, q0: int, rest: seq<int>)
    requires 0 <= q2 < 16 && 0 <= q1 < 64 && 0 <= q0 < 64
    requires q2 == 0 ==> q1 >= 32
    requires q2 == 13 ==> q1 < 32
    ensures Decode([0xE0 + q2] + ([0x80 + q1] + ([0x80 + q0] + rest)))
         == [Char((q2 * 64 + q1) * 64 + q0)] + Decode(rest)
  {
    var b0, b1, b2 := 0xE0 + q2, 0x80 + q1, 0x80 + q0;
    ScanCons(b0, [b1] + ([b2] + rest), FRESH);
    ScanCons(b1, [b2] + rest, Lead(b0));
    ScanCons(b2, rest, Read(b1, Lead(b0)).1);
  }

  lemma DecodeThree(c: int, rest: seq<int>)
    requires 0x800 <= c < 0x10000 && IsScalar(c)
    ensures Decode(EncodePoint(c) + rest) == [Char(c)] + Decode(rest)
  {
    var q2, q1, q0 := c / 4096, c / 64 % 64, c % 64;
    ThreeDigits(c);
    DecodeThreeDigits(q2, q1, q0, rest);
    assert EncodePoint(c) + rest == [0xE0 + q2] + ([0x80 + q1] + ([0x80 + q0] + rest));
  }

  lemma FourDigits(c: int)
    requires 0x10000 <= c <= 0x10FFFF
    ensures c == ((c / 262144 * 64 + c / 4096 % 64) * 64 + c / 64 % 64) * 64 + c % 64
  {
    assert c / 4096 == c / 64 / 64 && c / 262144 == c / 64 / 64 / 64;
  }

  lemma DecodeFourDigits(q3: int, q2: int, q1: int, q0: int, rest: seq<int>)
    requires 0 <= q3 <= 4 && 0 <= q2 < 64 && 0 <= q1 < 64 && 0 <= q0 < 64
    requires q3 == 0 ==> q2 >= 16
    requires q3 == 4 ==> q2 < 16
    ensures Decode([0xF0 + q3] + ([0x80 + q2] + ([0x80 + q1] + ([0x80 + q0] + rest))))
         == [Char(((q3 * 64 + q2) * 64 + q1) * 64 + q0)] + Decode(rest)
  {
    var b0, b1, b2, b3 := 0xF0 + q3, 0x80 + q2, 0x80 + q1, 0x80 + q0;
    ScanCons(b0, [b1] + ([b2] + ([b3] + rest)), FRESH);
    ScanCons(b1, [b2] + ([b3] + rest), Lead(b0));
    ScanCons(b2, [b3] + rest, Read(b1, Lead(b0)).1);
    ScanCons(b3, rest, Read(b2, Read(b1, Lead(b0)).1).1);
  }

  lemma DecodeFour(c: int, rest: seq<int>)
    requires 0x10000 <= c <= 0x10FFFF
    ensures Decode(EncodePoint(c) + rest) == [Char(c)] + Decode(rest)
  {
    var q3, q2, q1, q0 := c / 262144, c / 4096 % 64, c / 64 % 64, c % 64;
    FourDigits(c);
    DecodeFourDigits(q3, q2, q1, q0, rest);
    assert EncodePoint(c) + rest == [0xF0 + q3] + ([0x80 + q2] + ([0x80 + q1] + ([0x80 + q0] + rest)));
  }

  lemma DecodePoint(c: int, rest: seq<int>)
    requires IsScalar(c)
    ensures Decode(EncodePoint(c) + rest) == [Char(c)] + Decode(rest)
  {
    if c < 0x80 {
      ScanCons(c, rest, FRESH);
    } else if c < 0x800 {
      DecodeTwo(c, rest);
    } else if c < 0x10000 {
      DecodeThree(c, rest);
    } else {
      DecodeFour(c, rest);
    }
  }

  /** Decoding undoes encoding, with nothing replaced. */
  lemma {:induction false} DecodeEncoded(cps: seq<int>)
    requires AreScalars(cps)
    ensures Decode(EncodePoints(cps)) == Chars(cps)
  {
    if cps != [] {
      DecodeEncoded(cps[1..]);
      DecodePoint(cps[0], EncodePoints(cps[1..]));
      assert Chars(cps) == [Char(cps[0])] + Chars(cps[1..]);
    }
  }

  lemma OutsideIsBad(b: seq<int>, d: Decoding)
    requires d.needed != 0 && (b == [] || b[0] < d.lower || b[0] > d.upper)
    ensures Bad in Scan(b, d)
  {
    assert Scan(b, d)[0] == Bad;
  }

  /** With nothing replaced, a sequence that was begun goes on within its bounds. */
  lemma GoesOn(b: seq<int>, d: Decoding)
    requires d.needed != 0 && Bad !in Scan(b, d)
    ensures b != [] && d.lower <= b[0] <= d.upper && Scan(b, d) == Read(b[0], d).0 + Scan(b[1..], Read(b[0], d).1)
    ensures Bad !in Scan(b[1..], Read(b[0], d).1)
  {
    if b == [] || b[0] < d.lower || b[0] > d.upper {
      OutsideIsBad(b, d);
    }
  }

  lemma Digits(q: int, r: int)
    requires 0 <= r < 64
    ensures (q * 64 + r) / 64 == q && (q * 64 + r) % 64 == r
  {
  }

  lemma TwoBytes(q1: int, q0: int)
    requires 2 <= q1 < 32 && 0 <= q0 < 64
    ensures EncodePoint(q1 * 64 + q0) == [0xC0 + q1, 0x80 + q0] && IsScalar(q1 * 64 + q0)
  {
    Digits(q1, q0);
  }

  lemma ThreeBytes(q2: int, q1: int, q0: int)
    requires 0 <= q2 < 16 && 0 <= q1 < 64 && 0 <= q0 < 64
    requires (q2 == 0 ==> q1 >= 32) && (q2 == 13 ==> q1 < 32)
    ensures var c := (q2 * 64 + q1) * 64 + q0; EncodePoint(c) == [0xE0 + q2, 0x80 + q1, 0x80 + q0] && IsScalar(c)
  {
    var c := (q2 * 64 + q1) * 64 + q0;
    Digits(q2 * 64 + q1, q0);
    Digits(q2, q1);
    assert c / 4096 == c / 64 / 64;
  }

  lemma FourBytes(q3: int, q2: int, q1: int, q0: int)
    requires 0 <= q3 <= 4 && 0 <= q2 < 64 && 0 <= q1 < 64 && 0 <= q0 < 64
    requires (q3 == 0 ==> q2 >= 16) && (q3 == 4 ==> q2 < 16)
    ensures var c := ((q3 * 64 + q2) * 64 + q1) * 64 + q0;
      EncodePoint(c) == [0xF0 + q3, 0x80 + q2, 0x80 + q1, 0x80 + q0] && IsScalar(c)
  {
    var c := ((q3 * 64 + q2) * 64 + q1) * 64 + q0;
    Digits((q3 * 64 + q2) * 64 + q1, q0);
    Digits(q3 * 64 + q2, q1);
    Digits(q3, q2);
    assert c / 4096 == c / 64 / 64 && c / 262144 == c / 64 / 64 / 64;
  }

  /** One character put out is one encoding read. */
  lemma FirstRead(b: seq<int>) returns (c: int, n: nat)
    requires AreBytes(b) && b != [] && Bad !in Decode(b)
    ensures IsScalar(c) && n <= |b| && b == EncodePoint(c) + b[n..] && Decode(b) == [Char(c)] + Decode(b[n..])
    ensures n >= 1 && Bad !in Decode(b[n..])
  {
    var d := Lead(b[0]);
    assert Decode(b) == ReadLead(b[0]).0 + Scan(b[1..], ReadLead(b[0]).1);
    if b[0] < 0x80 {
      c, n := b[0], 1;
    } else {
      assert d.needed > 0;
      GoesOn(b[1..], d);
      c, n := SequenceRead(b);
    }
  }

  /** b starts with the encoding of c, n bytes long, and the rest of it is read in full. */
  ghost predicate StartsWith(b: seq<int>, c: int, n: nat) {
    && IsScalar(c) && 1 <= n <= |b| && b == EncodePoint(c) + b[n..]
    && Scan(b[1..], Lead(b[0])) == [Char(c)] + Decode(b[n..]) && Bad !in Decode(b[n..])
  }

  lemma TwoRead(b: seq<int>)
    requires b != [] && Lead(b[0]).needed == 1 && Bad !in Scan(b[1..], Lead(b[0]))
    ensures |b| >= 2 && StartsWith(b, (b[0] - 0xC0) * 64 + (b[1] - 0x80), 2)
  {
    GoesOn(b[1..], Lead(b[0]));
    TwoBytes(b[0] - 0xC0, b[1] - 0x80);
    assert b[1..][1..] == b[2..] && b == [b[0], b[1]] + b[2..];
  }

  lemma ThreeRead(b: seq<int>)
    requires b != [] && Lead(b[0]).needed == 2 && Bad !in Scan(b[1..], Lead(b[0]))
    ensures |b| >= 3 && StartsWith(b, ((b[0] - 0xE0) * 64 + (b[1] - 0x80)) * 64 + (b[2] - 0x80), 3)
  {
    GoesOn(b[1..], Lead(b[0]));
    assert b[1..][1..] == b[2..];
    GoesOn(b[2..], Read(b[1], Lead(b[0])).1);
    ThreeBytes(b[0] - 0xE0, b[1] - 0x80, b[2] - 0x80);
    assert b[2..][1..] == b[3..] && b == [b[0], b[1], b[2]] + b[3..];
  }

  lemma FourRead(b: seq<int>)
    requires b != [] && Lead(b[0]).needed == 3 && Bad !in Scan(b[1..], Lead(b[0]))
    ensures |b| >= 4 && StartsWith(b,
        (((b[0] - 0xF0) * 64 + (b[1] - 0x80)) * 64 + (b[2] - 0x80)) * 64 + (b[3] - 0x80), 4)
  {
    GoesOn(b[1..], Lead(b[0]));
    assert b[1..][1..] == b[2..];
    var d := Read(b[1], Lead(b[0])).1;
    GoesOn(b[2..], d);
    assert b[2..][1..] == b[3..];
    GoesOn(b[3..], Read(b[2], d).1);
    FourBytes(b[0] - 0xF0, b[1] - 0x80, b[2] - 0x80, b[3] - 0x80);
    assert b[3..][1..] == b[4..] && b == [b[0], b[1], b[2], b[3]] + b[4..];
  }

  lemma SequenceRead(b: seq<int>) returns (c: int, n: nat)
    requires b != [] && Lead(b[0]).needed > 0 && Bad !in Scan(b[1..], Lead(b[0]))
    ensures StartsWith(b, c, n)
  {
    if Lead(b[0]).needed == 1 {
      TwoRead(b);
      c, n := (b[0] - 0xC0) * 64 + (b[1] - 0x80), 2;
    } else if Lead(b[0]).needed == 2 {
      ThreeRead(b);
      c, n := ((b[0] - 0xE0) * 64 + (b[1] - 0x80)) * 64 + (b[2] - 0x80), 3;
    } else {
      FourRead(b);
      c, n := (((b[0] - 0xF0) * 64 + (b[1] - 0x80)) * 64 + (b[2] - 0x80)) * 64 + (b[3] - 0x80), 4;
    }
  }

  /** Decoding replaces nothing exactly in the encodings of scalar values, and then its
      result encodes back to the same bytes. */
  lemma {:induction false} WellFormed(b: seq<int>)
    requires AreBytes(b)
    ensures Bad !in Decode(b) ==> AreScalars(Text(Decode(b))) && EncodePoints(Text(Decode(b))) == b
  {
    if b != [] && Bad !in Decode(b) {
      var c, n := FirstRead(b);
      WellFormed(b[n..]);
      assert Text(Decode(b)) == [c] + Text(Decode(b[n..]));
    }
  }

  /** Encoding a string and decoding it gives its characters, lone surrogates replaced. */
  lemma StringRoundTrip(s: seq<int>)
    requires IsUnits(s)
    ensures Bad !in Decode(Encode(s)) && Text(Decode(Encode(s))) == Scalars(ToCodePoints(s))
    ensures var cps, out := ToCodePoints(s), Text(Decode(Encode(s)));
            |out| == |cps| && forall k :: 0 <= k < |cps| ==>
              out[k] == if 0xD800 <= cps[k] <= 0xDFFF then 0xFFFD else cps[k]
  {
    EncodeIsPoints(s);
    DecodeEncoded(Scalars(ToCodePoints(s)));
  }
}
