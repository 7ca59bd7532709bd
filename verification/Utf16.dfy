/** JavaScript strings as sequences of 16-bit code units, and their code points.
    Lone surrogates are code points of their own, as string iteration has it. */
module Utf16 {

  predicate IsUnit(u: int) {
    0 <= u < 0x10000
  }

  predicate IsUnits(s: seq<int>) {
    forall k :: 0 <= k < |s| ==> IsUnit(s[k])
  }

  predicate IsHigh(u: int) {
    0xD800 <= u <= 0xDBFF
  }

  predicate IsLow(u: int) {
    0xDC00 <= u <= 0xDFFF
  }

  predicate IsCodePoint(c: int) {
    0 <= c <= 0x10FFFF
  }

  predicate AreCodePoints(s: seq<int>) {
    forall k :: 0 <= k < |s| ==> IsCodePoint(s[k])
  }

  function Combine(high: int, low: int): int {
    0x10000 + (high - 0xD800) * 0x400 + (low - 0xDC00)
  }

  /** `[...s].map(c => c.codePointAt(0))`. */
  function ToCodePoints(s: seq<int>): (cps: seq<int>)
    requires IsUnits(s)
    ensures AreCodePoints(cps)
  {
    if s == [] then []
    else if |s| >= 2 && IsHigh(s[0]) && IsLow(s[1]) then [Combine(s[0], s[1])] + ToCodePoints(s[2..])
    else [s[0]] + ToCodePoints(s[1..])
  }

  /** The code points beyond the first 2^16 are those of the surrogate pairs in order, high
      before low, from the first to the last. */
  lemma CombineOrder(high: int, low: int, high': int, low': int)
    requires IsHigh(high) && IsLow(low) && IsHigh(high') && IsLow(low')
    ensures high < high' || (high == high' && low < low') <==> Combine(high, low) < Combine(high', low')
    ensures 0x10000 == Combine(0xD800, 0xDC00) <= Combine(high, low) <= Combine(0xDBFF, 0xDFFF) == 0x10FFFF
  {
    if high < high' {
      assert (high' - high) * 0x400 >= 0x400;
    } else if high > high' {
      assert (high - high') * 0x400 >= 0x400;
    }
  }

  function CodePointUnits(c: int): seq<int> {
    if c < 0x10000 then [c]
    else [0xD800 + (c - 0x10000) / 0x400, 0xDC00 + (c - 0x10000) % 0x400]
  }

  /** `String.fromCodePoint(...cps)`. */
  function FromCodePoints(cps: seq<int>): seq<int> {
    if cps == [] then [] else CodePointUnits(cps[0]) + FromCodePoints(cps[1..])
  }

  /** Reading a string as code points and writing them back loses nothing,
      lone surrogates included. */
  lemma {:induction false} CodePointRoundTrip(s: seq<int>)
    requires IsUnits(s)
    ensures FromCodePoints(ToCodePoints(s)) == s
  {
    if s == [] {
    } else if |s| >= 2 && IsHigh(s[0]) && IsLow(s[1]) {
      CodePointRoundTrip(s[2..]);
      assert s == [s[0], s[1]] + s[2..];
      assert CodePointUnits(Combine(s[0], s[1])) == [s[0], s[1]];
    } else {
      CodePointRoundTrip(s[1..]);
      assert s == [s[0]] + s[1..];
    }
  }
}
