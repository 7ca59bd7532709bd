/** Punycode as sections 6.1 to 6.3 of RFC 3492 have it, on code points and in whole numbers.
    All numbers are the standard's own. */
module PunycodeStandard {

  // ------------------------------------------------------------ quotients

  lemma ProductNatural(x: nat, y: nat)
    ensures x * y >= 0
  {
  }

  lemma QuotientSmaller(x: nat, b: nat)
    requires b >= 1
    ensures 0 <= x / b <= x
  {
    var q, r := x / b, x % b;
    assert q >= 0;
    ProductNatural(b - 1, q);
    assert (b - 1) * q + q == b * q;
  }

  // ------------------------------------------------------------ section 6.1

  function Scaled(delta: nat, k: int): (r: (nat, int))
    ensures r.0 <= (36 - 1) * 26 / 2
    decreases delta
  {
    if delta > (36 - 1) * 26 / 2 then Scaled(delta / (36 - 1), k + 36) else (delta, k)
  }

  function BiasOf(delta: nat): int {
    var (d, k) := Scaled(delta, 0);
    k + (36 - 1 + 1) * d / (d + 38)
  }

  function Adapt(delta: nat, numPoints: nat, firstTime: bool): int
    requires numPoints >= 1
  {
    var d := if firstTime then delta / 700 else delta / 2;
    QuotientSmaller(d, numPoints);
    BiasOf(d + d / numPoints)
  }

  /** The threshold at position k: k - bias, but at least 1 and at most 26. */
  function Threshold(k: int, bias: int): (t: int)
    ensures 1 <= t <= 26
  {
    if k - bias < 1 then 1 else if k - bias > 26 then 26 else k - bias
  }

  // ------------------------------------------------------------ digits

  /** a to z are 0 to 25, and 0 to 9 are 26 to 35. */
  function DigitChar(d: int): int {
    if d < 26 then 0x61 + d else 0x30 + (d - 26)
  }

  /** The letters in either case; -1 for what is no digit. */
  function DigitValue(c: int): int {
    if 0x41 <= c <= 0x5A then c - 0x41
    else if 0x61 <= c <= 0x7A then c - 0x61
    else if 0x30 <= c <= 0x39 then c - 0x30 + 26
    else -1
  }

  // ------------------------------------------------------------ section 6.3

  /** A delta as a generalized variable-length integer. */
  function EncodeInt(q: nat, k: int, bias: int): seq<int>
    decreases q
  {
    var t := Threshold(k, bias);
    if q < t then [DigitChar(q)]
    else
      QuotientSmaller(q - t, 36 - t);
      [DigitChar(t + (q - t) % (36 - t))] + EncodeInt((q - t) / (36 - t), k + 36, bias)
  }

  /** The encoder's variables: the digits written, delta, bias and the number h of code
      points handled. */
  datatype Encoder = Encoder(digits: seq<int>, delta: nat, bias: int, h: nat)

  /** The body of the inner loop, with b basic code points in the input. */
  function Visit(c: int, n: int, b: nat, e: Encoder): Encoder {
    if c < n then e.(delta := e.delta + 1)
    else if c == n then
      Encoder(e.digits + EncodeInt(e.delta, 36, e.bias), 0, Adapt(e.delta, e.h + 1, e.h == b), e.h + 1)
    else e
  }

  /** The inner loop over the first p code points. */
  function Sweep(cps: seq<int>, p: nat, n: int, b: nat, e: Encoder): (e': Encoder)
    requires p <= |cps|
    ensures e'.h >= e.h && (n in cps[..p] ==> e'.h > e.h)
  {
    if p == 0 then e
    else
      assert cps[..p] == cps[..p - 1] + [cps[p - 1]];
      Visit(cps[p - 1], n, b, Sweep(cps, p - 1, n, b, e))
  }

  /** The smallest code point from n on, or -1. */
  function Least(cps: seq<int>, n: nat): (m: int)
    ensures m == -1 || (m in cps && m >= n)
    ensures forall c :: c in cps && c >= n ==> 0 <= m <= c
  {
    if cps == [] then -1
    else
      assert cps == [cps[0]] + cps[1..];
      var rest := Least(cps[1..], n);
      if cps[0] >= n && (rest < 0 || cps[0] < rest) then cps[0] else rest
  }

  /** The main loop. */
  function Loop(cps: seq<int>, n: nat, b: nat, e: Encoder): seq<int>
    decreases |cps| - e.h
  {
    if e.h >= |cps| then e.digits
    else
      var m := Least(cps, n);
      if m < 0 then e.digits
      else
        assert cps[..|cps|] == cps;
        ProductNatural(m - n, e.h + 1);
        var e' := Sweep(cps, |cps|, m, b, e.(delta := e.delta + (m - n) * (e.h + 1)));
        Loop(cps, m + 1, b, e'.(delta := e'.delta + 1))
  }

  function Basic(cps: seq<int>): seq<int> {
    if cps == [] then [] else (if cps[0] < 0x80 then [cps[0]] else []) + Basic(cps[1..])
  }

  function Encode(cps: seq<int>): seq<int> {
    var basic := Basic(cps);
    (if basic == [] then [] else basic + [0x2D]) + Loop(cps, 128, |basic|, Encoder([], 0, 72, |basic|))
  }

  // ------------------------------------------------------------ section 6.2

  /** The largest number of a decoder in 32 bits, which fails on overflow. */
  const MAXINT := 0x7FFF_FFFF

  datatype Number = NoNumber | Number(value: int, used: nat)

  /** One number at the front of the input, added to i at the weight w. */
  function DecodeInt(ds: seq<int>, i: int, w: int, k: int, bias: int): (r: Number)
    ensures r.Number? ==> 1 <= r.used <= |ds| && r.value <= MAXINT
    decreases |ds|
  {
    if ds == [] then NoNumber
    else
      var digit, t := DigitValue(ds[0]), Threshold(k, bias);
      if digit < 0 || i + digit * w > MAXINT then NoNumber
      else if digit < t then Number(i + digit * w, 1)
      else if w * (36 - t) > MAXINT then NoNumber
      else
        var r := DecodeInt(ds[1..], i + digit * w, w * (36 - t), k + 36, bias);
        if r.NoNumber? then NoNumber else Number(r.value, r.used + 1)
  }

  datatype Decoder = Failed | Decoder(out: seq<int>, n: int, i: int, bias: int)

  /** The rest of the main loop's body: n is never a basic code point, since it only grows. */
  function Inserted(d: Decoder, value: nat): (r: Decoder)
    requires d.Decoder? && 0 <= d.i <= value
    ensures r.Decoder? ==> r.i >= 1
  {
    var len := |d.out| + 1;
    var n, at := d.n + value / len, value % len;
    if n > MAXINT then Failed
    else Decoder(d.out[..at] + [n] + d.out[at..], n, at + 1, Adapt(value - d.i, len, d.i == 0))
  }

  lemma {:induction false} DecodeIntGrows(ds: seq<int>, i: int, w: int, k: int, bias: int)
    requires i >= 0 && w >= 1
    ensures var r := DecodeInt(ds, i, w, k, bias); r.Number? ==> r.value >= i
    decreases |ds|
  {
    if ds != [] {
      var digit, t := DigitValue(ds[0]), Threshold(k, bias);
      if digit >= 0 {
        ProductNatural(digit, w);
        assert w * (36 - t) >= 1 by {
          ProductNatural(w - 1, 36 - t);
          assert w * (36 - t) == (w - 1) * (36 - t) + (36 - t);
        }
        DecodeIntGrows(ds[1..], i + digit * w, w * (36 - t), k + 36, bias);
      }
    }
  }

  /** The main loop. */
  function DecodeDigits(ds: seq<int>, d: Decoder): Decoder
    requires d.Decoder? ==> d.i >= 0
    decreases |ds|
  {
    if ds == [] || d.Failed? then d
    else
      var r := DecodeInt(ds, d.i, 1, 36, d.bias);
      if r.NoNumber? then Failed
      else
        DecodeIntGrows(ds, d.i, 1, 36, d.bias);
        DecodeDigits(ds[r.used..], Inserted(d, r.value))
  }

  /** The index of the last delimiter, or -1. */
  function LastDelimiter(input: seq<int>): (j: int)
    ensures -1 <= j < |input|
    ensures j >= 0 ==> input[j] == 0x2D
    ensures forall l :: j < l < |input| ==> input[l] != 0x2D
  {
    if input == [] then -1
    else if input[|input| - 1] == 0x2D then |input| - 1
    else LastDelimiter(input[..|input| - 1])
  }

  /** The basic code points in front of the last delimiter, if there are any, and the digits
      behind it. */
  function Decode(input: seq<int>): Decoder {
    var j := LastDelimiter(input);
    var basic, digits := if j > 0 then input[..j] else [], if j > 0 then input[j + 1..] else input;
    if exists l :: 0 <= l < |basic| && basic[l] >= 0x80 then Failed
    else DecodeDigits(digits, Decoder(basic, 128, 0, 72))
  }
}
