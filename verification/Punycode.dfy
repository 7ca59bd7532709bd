/** Punycode (RFC 3492) as compat/nodejs/js/extras.js implements it, in JavaScript's
    numbers, and the round trip through the encoder and the decoder. */
module Punycode {
  import opened Doubles
  import opened Utf16
  import Rfc = PunycodeStandard

  const BASE := 36
  const T_MIN := 1
  const T_MAX := 26
  const SKEW := 38
  const DAMP := 700
  const INITIAL_BIAS := 72
  const INITIAL_N := 128
  const DELIMITER := 0x2D

  /** More units than a string can have in any engine; with fewer, every number the encoder
      handles is below 2^53. */
  const MAX_UNITS := 0x8000_0000

  // ------------------------------------------------------------ bias adaptation

  /** What adapt's loop starts from. */
  function Damped(delta: Num, numPoints: nat, firstTime: bool): Num
    requires numPoints >= 1
  {
    var d := if firstTime then FloorDiv(delta, Fin(DAMP)) else Fin(ToInt32(delta) / 2);
    Add(d, FloorDiv(d, Fin(numPoints)))
  }

  /** The loop's condition, with `((base - tMin) * tMax) >> 1` worked out. */
  predicate Above(d: Num) {
    Less(Fin(455), d)
  }

  lemma ScaleShrinks(d: Num)
    requires Above(d) && d != PosInf
    ensures var r := FloorDiv(d, Fin(BASE - T_MIN)); r.Fin? && 0 <= r.x < d.x
  {
    FloorSize(d.x, BASE - T_MIN);
  }

  /** The scaling loop of adapt: what is left of delta, and the accumulated k. At infinity
      the loop does not end. */
  function Scale(delta: Num, k: int): (r: (Num, int))
    requires delta != PosInf
    ensures !Above(r.0)
    ensures delta.Fin? ==> r.0.Fin? && (r.0 == delta || 0 <= r.0.x <= 455)
    decreases if Above(delta) then delta.x else 0
  {
    if !Above(delta) then (delta, k)
    else
      ScaleShrinks(delta);
      Scale(FloorDiv(delta, Fin(BASE - T_MIN)), k + BASE)
  }

  /** adapt's result behind its loop. The sum is floored by its second part, which keeps all
      its bits when the small whole number k is added. */
  function Biased(d: Num, k: int): Num {
    Add(Fin(k), FloorDiv(Mul(Fin(BASE - T_MIN + 1), d), Add(d, Fin(SKEW))))
  }

  function BiasOf(sum: Num): Num
    requires sum != PosInf
  {
    var (d, k) := Scale(sum, 0);
    Biased(d, k)
  }

  function Adapt(delta: Num, numPoints: nat, firstTime: bool): Num
    requires numPoints >= 1 && Damped(delta, numPoints, firstTime) != PosInf
  {
    BiasOf(Damped(delta, numPoints, firstTime))
  }

  /** adapt, which comes to an end unless its loop starts from infinity. */
  method ComputeAdapt(delta: Num, numPoints: nat, firstTime: bool) returns (ends: bool, bias: Num)
    requires numPoints >= 1
    ensures ends <==> Damped(delta, numPoints, firstTime) != PosInf
    ensures ends ==> bias == Adapt(delta, numPoints, firstTime)
  {
    var d := if firstTime then FloorDiv(delta, Fin(DAMP)) else Fin(ToInt32(delta) / 2);
    d := Add(d, FloorDiv(d, Fin(numPoints)));
    if d == PosInf {
      return false, NaN;
    }
    ghost var start := d;
    var k := 0;
    while Above(d)
      invariant d != PosInf && Scale(d, k) == Scale(start, 0)
      decreases if Above(d) then d.x else 0
    {
      ScaleShrinks(d);
      d := FloorDiv(d, Fin(BASE - T_MIN));
      k := k + BASE;
    }
    return true, Biased(d, k);
  }

  /** Positions and finite biases are so small that their sums and differences are exact. */
  function Threshold(k: int, bias: Num): (t: Num)
    ensures if bias.NaN? then t.NaN? else t.Fin? && T_MIN <= t.x <= T_MAX
  {
    match bias
    case NaN => NaN
    case PosInf => Fin(T_MIN)
    case NegInf => Fin(T_MAX)
    case Fin(b) => Fin(if k <= b then T_MIN else if k >= b + T_MAX then T_MAX else k - b)
  }

  // ------------------------------------------------------------ digits

  function DigitToBasic(d: int): int {
    d + 22 + (if d < 26 then 75 else 0)
  }

  function BasicToDigit(cp: int): int {
    if cp - 48 < 10 then cp - 22
    else if cp - 65 < 26 then cp - 65
    else if cp - 97 < 26 then cp - 97
    else BASE
  }

  predicate IsDigitChar(c: int) {
    0x61 <= c <= 0x7A || 0x30 <= c <= 0x39
  }

  // ------------------------------------------------------------ decoder

  datatype DecodeResult = Decoded(cps: seq<int>) | RangeError | Diverges

  /** The decoder's variables between two insertions. */
  datatype Insertion = Insertion(out: seq<int>, n: Num, i: Num, bias: Num)

  function Initial(basic: seq<int>): Insertion {
    Insertion(basic, Fin(INITIAL_N), Fin(0), Fin(INITIAL_BIAS))
  }

  /** The outcome of reading one integer: its accumulated value and the number
      of units used, or that the input ran out first. The source then reads NaN,
      takes it for the digit 36 and never leaves the loop. */
  datatype Reading = RanOut | Reading(value: Num, used: nat) {
    function Later(units: nat): Reading {
      if RanOut? then RanOut else Reading(value, used + units)
    }
  }

  function NextValue(i: Num, digit: int, w: Num): Num {
    Add(i, Mul(Fin(digit), w))
  }

  function NextWeight(w: Num, t: Num): Num {
    Mul(w, Sub(Fin(BASE), t))
  }

  /** One generalized variable-length integer (section 3.3 of RFC 3492). */
  function DecodeInt(ds: seq<int>, i: Num, w: Num, k: int, bias: Num): (r: Reading)
    ensures r.Reading? ==> 1 <= r.used <= |ds|
    decreases |ds|
  {
    if ds == [] then RanOut
    else
      var digit := BasicToDigit(ds[0]);
      var t := Threshold(k, bias);
      if Less(Fin(digit), t) then Reading(NextValue(i, digit, w), 1)
      else DecodeInt(ds[1..], NextValue(i, digit, w), NextWeight(w, t), k + BASE, bias).Later(1)
  }

  /** `Array.prototype.splice`'s reading of its start argument. */
  function SpliceStart(start: Num, length: nat): (r: nat)
    ensures r <= length
  {
    match start
    case NaN => 0
    case PosInf => length
    case NegInf => 0
    case Fin(x) => if x < 0 then (if length + x < 0 then 0 else length + x) else if x > length then length else x
  }

  function InsertAt(out: seq<int>, at: nat, c: int): seq<int>
    requires at <= |out|
  {
    out[..at] + [c] + out[at..]
  }

  /** An element of the output. An infinity or NaN is no code point, like -1. */
  function Element(n: Num): int {
    if n.Fin? then n.x else -1
  }

  /** adapt does not return from the call behind this number. */
  predicate Endless(st: Insertion, i: Num) {
    Damped(Sub(i, st.i), |st.out| + 1, st.i == Fin(0)) == PosInf
  }

  /** The insertion behind that call. */
  function Inserted(st: Insertion, i: Num, bias: Num): Insertion {
    var count := |st.out| + 1;
    var n := Add(st.n, FloorDiv(i, Fin(count)));
    var at := Rem(i, count);
    Insertion(InsertAt(st.out, SpliceStart(at, |st.out|), Element(n)), n, Add(at, Fin(1)), bias)
  }

  function Insert(st: Insertion, i: Num): Insertion
    requires !Endless(st, i)
  {
    Inserted(st, i, Adapt(Sub(i, st.i), |st.out| + 1, st.i == Fin(0)))
  }

  datatype Progress = Stuck | At(st: Insertion)

  /** One turn of the decoder's outer loop; Stuck when the inner loop or adapt never ends. */
  function Turn(st: Insertion, reading: Reading): (p: Progress)
    ensures p.At? ==> reading.Reading?
  {
    if reading.RanOut? || Endless(st, reading.value) then Stuck else At(Insert(st, reading.value))
  }

  function ReadInt(ds: seq<int>, st: Insertion): (r: Reading)
    ensures r.Reading? ==> 1 <= r.used <= |ds|
  {
    DecodeInt(ds, st.i, Fin(1), BASE, st.bias)
  }

  /** The decoder's outer loop. */
  function DecodeExtended(ds: seq<int>, st: Insertion): Progress
    decreases |ds|
  {
    if ds == [] then At(st)
    else
      var reading := ReadInt(ds, st);
      var next := Turn(st, reading);
      if next.Stuck? then Stuck else DecodeExtended(ds[reading.used..], next.st)
  }

  /** The index of the last delimiter, or zero when there is none. */
  function BasicLength(input: seq<int>): (b: nat)
    ensures b <= |input|
    ensures b < |input| || input == []
  {
    if input == [] then 0
    else if input[|input| - 1] == DELIMITER then |input| - 1
    else BasicLength(input[..|input| - 1])
  }

  function ExtendedStart(basic: nat): nat {
    if basic > 0 then basic + 1 else 0
  }

  function Finish(p: Progress): DecodeResult {
    if p.Stuck? then Diverges else if AreCodePoints(p.st.out) then Decoded(p.st.out) else RangeError
  }

  /** `decode` down to the array of code points it hands to String.fromCodePoint. */
  function DecodeCodePoints(input: seq<int>): DecodeResult {
    var basic := BasicLength(input);
    Finish(DecodeExtended(input[ExtendedStart(basic)..], Initial(input[..basic])))
  }

  /** `decode`: the string of 16-bit units the caller receives. */
  function Decode(input: seq<int>): DecodeResult {
    match DecodeCodePoints(input)
    case Decoded(cps) => Decoded(FromCodePoints(cps))
    case other => other
  }

  /** The decoder's inner loop. It stops where the input does: there the source
      would go on reading NaN. */
  method ComputeInt(input: seq<int>, start: nat, st: Insertion) returns (reading: Reading)
    requires start < |input|
    ensures reading == ReadInt(input[start..], st)
  {
    hide NextValue, NextWeight, Less, Threshold, BasicToDigit;
    var oldi, bias := st.i, st.bias;
    var i, w, k, index := oldi, Fin(1), BASE, start;
    while index < |input|
      invariant start <= index <= |input|
      invariant DecodeInt(input[start..], oldi, Fin(1), BASE, bias)
                == DecodeInt(input[index..], i, w, k, bias).Later(index - start)
    {
      var digit := BasicToDigit(input[index]);
      assert input[index..][1..] == input[index + 1..];
      index := index + 1;
      i := NextValue(i, digit, w);
      var t := Threshold(k, bias);
      if Less(Fin(digit), t) {
        return Reading(i, index - start);
      }
      w := NextWeight(w, t);
      k := k + BASE;
    }
    return RanOut;
  }

  /** The decoder's outer loop body behind the inner loop. */
  method ComputeTurn(st: Insertion, reading: Reading) returns (p: Progress)
    ensures p == Turn(st, reading)
  {
    hide Inserted, Damped, Sub, BiasOf;
    if reading.RanOut? {
      return Stuck;
    }
    var ends, bias := ComputeAdapt(Sub(reading.value, st.i), |st.out| + 1, st.i == Fin(0));
    p := if ends then At(Inserted(st, reading.value, bias)) else Stuck;
  }

  /** The decoder's outer loop, over the input index. */
  method ComputeInsertions(input: seq<int>, start: nat, basic: seq<int>) returns (p: Progress)
    requires start <= |input|
    ensures p == DecodeExtended(input[start..], Initial(basic))
  {
    hide Turn, DecodeInt;
    var st := Initial(basic);
    var index := start;
    while index < |input|
      invariant start <= index <= |input|
      invariant DecodeExtended(input[index..], st) == DecodeExtended(input[start..], Initial(basic))
    {
      var reading := ComputeInt(input, index, st);
      var next := ComputeTurn(st, reading);
      if next.Stuck? {
        return Stuck;
      }
      assert input[index..][reading.used..] == input[index + reading.used..];
      index := index + reading.used;
      st := next.st;
    }
    return At(st);
  }

  /** Whatever the standard's decoder accepts is decoded alike. */
  method ComputeDecode(input: seq<int>) returns (r: DecodeResult)
    ensures r == Decode(input)
    ensures |input| <= MAX_UNITS && Rfc.Decode(input).Decoder? ==>
              var cps := Rfc.Decode(input).out;
              r == if AreCodePoints(cps) then Decoded(FromCodePoints(cps)) else RangeError
  {
    if |input| <= MAX_UNITS && Rfc.Decode(input).Decoder? {
      DecodeStandard(input);
    }
    hide DecodeExtended, Rfc.Decode, FromCodePoints;
    var basic := BasicLength(input);
    var p := ComputeInsertions(input, ExtendedStart(basic), input[..basic]);
    match p {
      case Stuck => r := Diverges;
      case At(st) => r := if AreCodePoints(st.out) then Decoded(FromCodePoints(st.out)) else RangeError;
    }
  }

  // ------------------------------------------------------------ finite biases

  lemma RoundNonZero(x: int)
    requires x != 0
    ensures Round(x) != Fin(0)
  {
    if !(-TWO_53 <= x <= TWO_53) {
      LargeAtLeast(Abs(x), 1, 0);
    }
  }

  lemma ScaledUp(d: int, m: nat)
    requires Abs(d) <= Pow2(m) && 9 <= m
    ensures Abs(36 * d) <= Pow2(m + 7) && Abs(d + SKEW) <= Pow2(m + 7)
  {
    assert Pow2(7) == 128 && Pow2(9) == 512;
    Pow2Mono(9, m);
    Pow2Add(m, 7);
  }

  lemma BiasedIsNumber(d: int, k: int, m: nat)
    requires Abs(d) <= Pow2(m) && 9 <= m && m + 7 < TOP
    ensures !Biased(Fin(d), k).NaN?
  {
    hide Round, FloorQuotient, Pow2;
    ScaledUp(d, m);
    RoundAtMost(36 * d, m + 7);
    RoundAtMost(d + SKEW, m + 7);
    if d + SKEW != 0 {
      RoundNonZero(d + SKEW);
    } else {
      RoundNonZero(36 * d);
    }
  }

  /** adapt's result is a number, if perhaps minus infinity, when nothing overflowed. */
  lemma BiasIsNumber(sum: Num, m: nat)
    requires sum.Fin? && Abs(sum.x) <= Pow2(m) && 9 <= m && m + 7 < TOP
    ensures !BiasOf(sum).NaN?
  {
    var (d, k) := Scale(sum, 0);
    assert Pow2(9) == 512;
    Pow2Mono(9, m);
    BiasedIsNumber(d.x, k, m);
  }

  // ------------------------------------------------------------ the bias function of RFC 3492

  lemma {:induction false} ScaleExact(sum: nat, k: int)
    requires sum < TWO_53
    ensures var (d, k') := Rfc.Scaled(sum, k); Scale(Fin(sum), k) == (Fin(d), k')
    ensures k <= Rfc.Scaled(sum, k).1 <= k + BASE * sum
    decreases sum
  {
    if sum > 455 {
      FloorExact(sum, BASE - T_MIN);
      ScaleExact(sum / (BASE - T_MIN), k + BASE);
    }
  }

  lemma BiasedExact(d: nat, k: int)
    requires d <= 455 && 0 <= k <= TWO_52
    ensures Biased(Fin(d), k) == Fin(k + ((BASE - T_MIN + 1) * d) / (d + SKEW))
  {
    hide Round, FloorRatio;
    RoundSmall(36 * d);
    RoundSmall(d + SKEW);
    FloorExact(36 * d, d + SKEW);
    assert 36 * d / (d + SKEW) <= 36 * d by {
      Division(36 * d, d + SKEW, 36 * d / (d + SKEW), 36 * d % (d + SKEW));
      MulMono(1, d + SKEW, 36 * d / (d + SKEW));
    }
    RoundSmall(k + 36 * d / (d + SKEW));
  }

  lemma QuotientAtMost(x: nat, n: nat)
    requires n >= 1
    ensures x / n <= x
  {
    Division(x, n, x / n, x % n);
    FactorAtMost(x / n, n, x);
  }

  lemma ShiftHalves(delta: nat)
    requires delta < 0x8000_0000
    ensures ToInt32(Fin(delta)) / 2 == delta / 2
  {
  }

  lemma Halved(delta: nat, firstTime: bool) returns (d: nat)
    requires delta < TWO_53 && (firstTime || delta < 0x8000_0000)
    ensures d == (if firstTime then delta / DAMP else delta / 2) <= delta
    ensures (if firstTime then FloorDiv(Fin(delta), Fin(DAMP)) else Fin(ToInt32(Fin(delta)) / 2)) == Fin(d)
    ensures 2 * d <= TWO_53
  {
    hide FloorRatio;
    if firstTime {
      d := delta / DAMP;
      FloorExact(delta, DAMP);
    } else {
      d := delta / 2;
      ShiftHalves(delta);
    }
  }

  lemma Spread(d: nat, numPoints: nat)
    requires numPoints >= 1 && 2 * d <= TWO_53
    ensures Add(Fin(d), FloorDiv(Fin(d), Fin(numPoints))) == Fin(d + d / numPoints)
    ensures d + d / numPoints <= TWO_53
  {
    hide Round, FloorRatio;
    FloorExact(d, numPoints);
    QuotientAtMost(d, numPoints);
    RoundSmall(d + d / numPoints);
  }

  lemma BiasExact(sum: nat)
    requires sum <= TWO_53 / 36 / 2
    ensures BiasOf(Fin(sum)) == Fin(Rfc.BiasOf(sum))
  {
    hide Biased, Scale, Rfc.Scaled;
    ScaleExact(sum, 0);
    var (d, k) := Rfc.Scaled(sum, 0);
    BiasedExact(d, k);
  }

  /** The 32-bit shift halves exactly the deltas below 2^31, and the first delta is not
      shifted, so there the source's adapt is the standard's. */
  lemma AdaptIsExact(delta: nat, numPoints: nat, firstTime: bool)
    requires numPoints >= 1 && delta < (if firstTime then TWO_53 else 0x8000_0000)
    ensures Damped(Fin(delta), numPoints, firstTime) != PosInf
    ensures Adapt(Fin(delta), numPoints, firstTime) == Fin(Rfc.Adapt(delta, numPoints, firstTime))
  {
    hide BiasOf, Rfc.BiasOf, Add, FloorDiv, ToInt32;
    var d := Halved(delta, firstTime);
    Spread(d, numPoints);
    QuotientAtMost(d, numPoints);
    BiasExact(d + d / numPoints);
  }

  lemma ScaleOnce(x: nat, q: nat, r: nat, k: int)
    requires x == (BASE - T_MIN) * q + r && r < BASE - T_MIN && x > 455
    ensures Rfc.Scaled(x, k) == Rfc.Scaled(q, k + BASE)
  {
  }

  lemma ScaledAbove(x: nat)
    requires x == 0x8000_0000
    ensures Rfc.Scaled(x, 0) == (40, 180)
  {
    ScaleOnce(x, 61356675, 23, 0);
    ScaleOnce(61356675, 1753047, 30, 36);
    ScaleOnce(1753047, 50087, 2, 72);
    ScaleOnce(50087, 1431, 2, 108);
    ScaleOnce(1431, 40, 31, 144);
  }

  lemma WrappedBias(sum: Num)
    requires sum == Fin(-0x8000_0000)
    ensures BiasOf(sum) == Fin(36)
  {
    hide Round, FloorRatio;
    RoundSmall(-77_309_411_328);
    RoundSmall(-2_147_483_610);
    FloorExact(77_309_411_328, 2_147_483_610);
    RoundSmall(36);
  }

  lemma WrappedDelta(delta: Num)
    requires delta == Fin(0x8000_0000)
    ensures Damped(delta, 1, false) == Fin(-0x8000_0000)
  {
    hide Round, CeilRatio;
    CeilExact(0x4000_0000, 1);
    RoundSmall(-0x8000_0000);
  }

  /** From there on it is not. */
  lemma AdaptWraps(delta: nat)
    requires delta == 0x8000_0000
    ensures Damped(Fin(delta), 1, false) != PosInf
    ensures Adapt(Fin(delta), 1, false) == Fin(36) && Rfc.Adapt(delta, 1, false) == 198
  {
    hide BiasOf, Damped;
    WrappedDelta(Fin(delta));
    WrappedBias(Fin(-0x8000_0000));
    assert delta / 2 + delta / 2 / 1 == delta;
    ScaledAbove(delta);
  }

  // ------------------------------------------------------------ encoder

  function Digit(q: int, t: int): int
    requires T_MIN <= t <= T_MAX
  {
    t + (q - t) % (BASE - t)
  }

  function Quotient(q: int, t: int): int
    requires T_MIN <= t <= T_MAX
  {
    (q - t) / (BASE - t)
  }

  /** Writing q as one digit and a smaller quotient. */
  lemma DigitStep(q: int, t: int)
    requires T_MIN <= t <= T_MAX && t <= q
    ensures t <= Digit(q, t) < BASE
    ensures 0 <= Quotient(q, t) < q
    ensures q == Digit(q, t) + (BASE - t) * Quotient(q, t)
  {
    DivFacts(q - t, BASE - t);
  }

  lemma DivFacts(x: int, b: int)
    requires 0 <= x && 1 <= b
    ensures x == b * (x / b) + x % b
    ensures 0 <= x / b <= x
  {
    assert x / b >= 0;
    MulAtLeast(b, x / b);
  }

  lemma MulSplit(a: int, b: int, c: int)
    ensures (a + b) * c == a * c + b * c
  {
  }

  lemma MulAtLeast(a: int, b: int)
    requires a >= 1 && b >= 0
    ensures a * b >= b
  {
    MulSplit(a - 1, 1, b);
    assert (a - 1) * b >= 0;
  }

  /** The threshold at a position, for a bias that is a number. */
  function ThresholdAt(k: int, bias: Num): (t: int)
    requires !bias.NaN?
    ensures T_MIN <= t <= T_MAX && Threshold(k, bias) == Fin(t)
  {
    Threshold(k, bias).x
  }

  /** The digits of one delta, least significant first, written as characters. */
  function EncodeInt(q: int, k: int, bias: Num): (digits: seq<int>)
    requires q >= 0 && !bias.NaN?
    ensures digits != []
    ensures forall j :: 0 <= j < |digits| ==> IsDigitChar(digits[j])
    decreases q
  {
    var t := ThresholdAt(k, bias);
    if q < t then [DigitToBasic(q)]
    else
      DigitStep(q, t);
      [DigitToBasic(Digit(q, t))] + EncodeInt(Quotient(q, t), k + BASE, bias)
  }

  lemma QuotientExact(q: int, t: int)
    requires T_MIN <= t <= T_MAX && t <= q < TWO_53
    ensures FloorRatio(q - t, BASE - t) == Quotient(q, t)
  {
    FloorExact(q - t, BASE - t);
  }

  /** Every number here is at most delta, so below 2^53 division and remainder are exact. */
  method ComputeEncodeInt(delta: int, bias: Num) returns (digits: seq<int>)
    requires 0 <= delta < TWO_53 && !bias.NaN?
    ensures digits == EncodeInt(delta, BASE, bias)
  {
    hide DigitToBasic, Digit, Quotient, FloorRatio, Threshold;
    digits := [];
    var q, k := delta, BASE;
    while q >= ThresholdAt(k, bias)
      invariant 0 <= q <= delta
      invariant digits + EncodeInt(q, k, bias) == EncodeInt(delta, BASE, bias)
      decreases q
    {
      var t := ThresholdAt(k, bias);
      DigitStep(q, t);
      QuotientExact(q, t);
      digits := digits + [DigitToBasic(Digit(q, t))];
      q := FloorRatio(q - t, BASE - t);
      k := k + BASE;
    }
    digits := digits + [DigitToBasic(q)];
  }

  /** The digits are the standard's. */
  lemma {:induction false} EncodeIntStandard(q: nat, k: int, bias: int)
    ensures EncodeInt(q, k, Fin(bias)) == Rfc.EncodeInt(q, k, bias)
    decreases q
  {
    var t := ThresholdAt(k, Fin(bias));
    assert t == Rfc.Threshold(k, bias);
    if q >= t {
      DigitStep(q, t);
      EncodeIntStandard(Quotient(q, t), k + BASE, bias);
    }
  }

  /** What of the first len code points is in the output once every code point
      below n, and those equal to n before position p, have been handled. */
  function Handled(cps: seq<int>, n: int, p: nat, len: nat): (out: seq<int>)
    requires len <= |cps|
    ensures |out| <= len
  {
    if len == 0 then []
    else
      var rest := Handled(cps, n, p, len - 1);
      var c := cps[len - 1];
      if c < n || (c == n && len - 1 < p) then rest + [c] else rest
  }

  /** Where in the output the code point at position p belongs. */
  function Rank(cps: seq<int>, n: int, p: nat): nat
    requires p <= |cps|
  {
    |Handled(cps, n, p, p)|
  }

  method ComputeBasic(cps: seq<int>) returns (output: seq<int>)
    ensures output == Handled(cps, INITIAL_N, 0, |cps|)
  {
    output := [];
    for j := 0 to |cps|
      invariant output == Handled(cps, INITIAL_N, 0, j)
    {
      if cps[j] < 0x80 {
        output := output + [cps[j]];
      }
    }
  }

  /** The smallest code point not below n. */
  method ComputeNext(cps: seq<int>, n: int) returns (m: int)
    requires exists j :: 0 <= j < |cps| && cps[j] >= n
    ensures m in cps && m >= n
    ensures forall j :: 0 <= j < |cps| && cps[j] >= n ==> m <= cps[j]
  {
    var found := false;
    m := n;
    for j := 0 to |cps|
      invariant found ==> m in cps && m >= n
      invariant !found ==> forall l :: 0 <= l < j ==> cps[l] < n
      invariant found ==> forall l :: 0 <= l < j && cps[l] >= n ==> m <= cps[l]
    {
      if cps[j] >= n && (!found || cps[j] < m) {
        m, found := cps[j], true;
      }
    }
  }

  // ------------------------------------------------------------ the inverse

  lemma DigitRoundTrip(d: int)
    requires 0 <= d < BASE
    ensures BasicToDigit(DigitToBasic(d)) == d && IsDigitChar(DigitToBasic(d))
  {
  }

  lemma WeightBound(d: int, q: int, w: int, b: int)
    requires d >= 0 && q >= 0 && w >= 1 && 10 <= b <= 35
    ensures d * w <= (d + b * q) * w && (q >= 1 ==> w * b <= (d + b * q) * w)
    ensures d + b * q >= 1 ==> w <= (d + b * q) * w
  {
    MulMono(d, d + b * q, w);
    if q >= 1 {
      MulMono(b, d + b * q, w);
    }
    if d + b * q >= 1 {
      MulMono(1, d + b * q, w);
    }
  }

  lemma WeightFinite(w: int, b: int)
    requires 1 <= w < TWO_53 && 10 <= b <= 35
    ensures Round(w * b).Fin?
  {
    assert w * b <= 35 * w;
    Pow2Is54();
    assert Pow2(6) == 64;
    Pow2Add(54, 6);
    RoundAtMost(w * b, 60);
  }

  lemma ValueExact(i: int, d: int, w: int)
    requires 0 <= i && 0 <= d * w && i + d * w < TWO_53
    ensures NextValue(Fin(i), d, Fin(w)) == Fin(i + d * w)
  {
  }

  lemma WeightExact(w: int, t: int)
    requires 1 <= w < TWO_53 && T_MIN <= t <= T_MAX
    ensures NextWeight(Fin(w), Fin(t)).Fin?
    ensures 0 <= w * (BASE - t) < TWO_53 ==> NextWeight(Fin(w), Fin(t)) == Fin(w * (BASE - t))
  {
    WeightFinite(w, BASE - t);
  }

  lemma ReadLast(i: int, q: int, w: int, wn: Num)
    requires 0 <= i && 0 <= q && w >= 1 && i + q * w < TWO_53 && wn.Fin? && (q >= 1 ==> wn == Fin(w))
    ensures NextValue(Fin(i), q, wn) == Fin(i + q * w)
  {
    if q == 0 {
      ValueExact(i, 0, wn.x);
    } else {
      ValueExact(i, q, w);
    }
  }

  /** What reading one digit of an encoded integer does to the value and the weight: i and q
      become i + d * w and q', at the weight w'. The weight behind the last digit but one may
      be rounded; the last digit is then zero. */
  lemma ReadDigit(q: int, i: int, w: int, t: int, d: int, q': int, w': int)
    requires 0 <= i && w >= 1 && T_MIN <= t <= T_MAX && t <= q && i + q * w < TWO_53
    requires d == Digit(q, t) && q' == Quotient(q, t) && w' == w * (BASE - t)
    ensures t <= d < BASE && 0 <= q' < q && w' >= 1 && 0 <= d * w && i + d * w + q' * w' == i + q * w
    ensures NextValue(Fin(i), d, Fin(w)) == Fin(i + d * w)
    ensures NextWeight(Fin(w), Fin(t)).Fin? && (q' >= 1 ==> NextWeight(Fin(w), Fin(t)) == Fin(w'))
  {
    hide NextValue, NextWeight, Digit, Quotient;
    DigitStep(q, t);
    Distribute(d, q', w, BASE - t);
    WeightBound(d, q', w, BASE - t);
    MulMono(10, BASE - t, w);
    ValueExact(i, d, w);
    WeightExact(w, t);
  }

  /** At equal bias the decoder reads back the integer the encoder wrote, and
      stops exactly behind it. wn is the weight w as the decoder has it. */
  lemma {:induction false} IntRoundTrip(q: int, i: int, w: int, wn: Num, k: int, bias: Num, rest: seq<int>)
    requires 0 <= q && 0 <= i && w >= 1 && i + q * w < TWO_53 && !bias.NaN?
    requires wn.Fin? && (q >= 1 ==> wn == Fin(w))
    ensures DecodeInt(EncodeInt(q, k, bias) + rest, Fin(i), wn, k, bias)
            == Reading(Fin(i + q * w), |EncodeInt(q, k, bias)|)
    decreases q
  {
    hide NextValue, NextWeight, Threshold, DigitToBasic, BasicToDigit, Digit, Quotient;
    var t := ThresholdAt(k, bias);
    var ds := EncodeInt(q, k, bias) + rest;
    if q < t {
      DigitRoundTrip(q);
      ReadLast(i, q, w, wn);
    } else {
      var d, q', w' := Digit(q, t), Quotient(q, t), w * (BASE - t);
      ReadDigit(q, i, w, t, d, q', w');
      DigitRoundTrip(d);
      var i' := i + d * w;
      IntRoundTrip(q', i', w', NextWeight(Fin(w), Fin(t)), k + BASE, bias, rest);
      assert ds[1..] == EncodeInt(q', k + BASE, bias) + rest;
    }
  }

  lemma Distribute(d: int, q: int, w: int, b: int)
    ensures d * w + q * (w * b) == (d + b * q) * w
  {
    assert q * (w * b) == (b * q) * w;
  }

  /** Reading a complete integer does not look at what follows it. */
  lemma {:induction false} DecodeIntPrefix(a: seq<int>, b: seq<int>, i: Num, w: Num, k: int, bias: Num)
    requires DecodeInt(a, i, w, k, bias).Reading?
    ensures DecodeInt(a + b, i, w, k, bias) == DecodeInt(a, i, w, k, bias)
    decreases |a|
  {
    hide NextValue, NextWeight, Less;
    var digit, t := BasicToDigit(a[0]), Threshold(k, bias);
    if !Less(Fin(digit), t) {
      assert (a + b)[1..] == a[1..] + b;
      DecodeIntPrefix(a[1..], b, NextValue(i, digit, w), NextWeight(w, t), k + BASE, bias);
    }
  }

  /** Decoding is compositional: a decoded prefix leaves the state from which the
      rest is decoded. */
  lemma {:induction false} DecodeExtendedAppend(a: seq<int>, b: seq<int>, st: Insertion)
    requires DecodeExtended(a, st).At?
    ensures DecodeExtended(a + b, st) == DecodeExtended(b, DecodeExtended(a, st).st)
    decreases |a|
  {
    hide Turn, DecodeInt;
    if a == [] {
      assert a + b == b;
    } else {
      var reading := ReadInt(a, st);
      DecodeIntPrefix(a, b, st.i, Fin(1), BASE, st.bias);
      assert (a + b)[reading.used..] == a[reading.used..] + b;
      DecodeExtendedAppend(a[reading.used..], b, Turn(st, reading).st);
    }
  }

  /** One encoded delta makes the decoder perform one insertion. */
  lemma DecodeOneInsertion(delta: int, st: Insertion)
    requires 0 <= delta && st.i.Fin? && 0 <= st.i.x && st.i.x + delta < TWO_53 && !st.bias.NaN?
    ensures DecodeExtended(EncodeInt(delta, BASE, st.bias), st)
            == Turn(st, Reading(Fin(st.i.x + delta), |EncodeInt(delta, BASE, st.bias)|))
  {
    hide Turn, DecodeInt;
    var digits := EncodeInt(delta, BASE, st.bias);
    IntRoundTrip(delta, st.i.x, 1, Fin(1), BASE, st.bias, []);
    assert digits + [] == digits;
    assert digits[|digits|..] == [];
  }

  /** Handling the code point n at position p inserts it at its rank. */
  lemma {:induction false} HandledInsert(cps: seq<int>, n: int, p: nat, len: nat)
    requires p < len <= |cps| && cps[p] == n
    ensures Rank(cps, n, p) <= |Handled(cps, n, p, len)|
    ensures Handled(cps, n, p + 1, len) == InsertAt(Handled(cps, n, p, len), Rank(cps, n, p), n)
    decreases len
  {
    if len == p + 1 {
      HandledSame(cps, n, p, p + 1, p);
      assert Handled(cps, n, p, len) == Handled(cps, n, p, p);
    } else {
      HandledInsert(cps, n, p, len - 1);
    }
  }

  /** Positions from p on are not affected by where the sweep stands before p. */
  lemma {:induction false} HandledSame(cps: seq<int>, n: int, p: nat, p': nat, len: nat)
    requires len <= p <= p' && len <= |cps|
    ensures Handled(cps, n, p, len) == Handled(cps, n, p', len)
    decreases len
  {
    if len > 0 {
      HandledSame(cps, n, p, p', len - 1);
    }
  }

  /** Passing a position that does not hold n changes nothing. */
  lemma {:induction false} HandledSkip(cps: seq<int>, n: int, p: nat, len: nat)
    requires p < |cps| && len <= |cps| && cps[p] != n
    ensures Handled(cps, n, p + 1, len) == Handled(cps, n, p, len)
    decreases len
  {
    if len > 0 {
      HandledSkip(cps, n, p, len - 1);
    }
  }

  /** Raising n over values that do not occur changes nothing. */
  lemma {:induction false} HandledRaise(cps: seq<int>, n: int, m: int, p: nat, len: nat)
    requires len <= |cps| && n <= m
    requires p == 0 || (p == |cps| && n < m)
    requires forall j :: 0 <= j < |cps| && cps[j] >= n + (if p == 0 then 0 else 1) ==> m <= cps[j]
    ensures Handled(cps, n, p, len) == Handled(cps, m, 0, len)
    decreases len
  {
    if len > 0 {
      HandledRaise(cps, n, m, p, len - 1);
    }
  }

  /** When everything is handled the output is the input. */
  lemma {:induction false} HandledFull(cps: seq<int>, n: int, p: nat, len: nat)
    requires len <= |cps|
    ensures |Handled(cps, n, p, len)| == len ==> Handled(cps, n, p, len) == cps[..len]
    decreases len
  {
    if len > 0 {
      HandledFull(cps, n, p, len - 1);
    }
  }

  lemma {:induction false} HandledBelow(cps: seq<int>, n: int, p: nat, len: nat)
    requires len <= |cps|
    requires forall j :: 0 <= j < len ==> cps[j] < n || (cps[j] == n && j < p)
    ensures Handled(cps, n, p, len) == cps[..len]
    decreases len
  {
    if len > 0 {
      HandledBelow(cps, n, p, len - 1);
    }
  }

  lemma SomethingLeft(cps: seq<int>, n: int)
    requires |Handled(cps, n, 0, |cps|)| < |cps|
    ensures exists j :: 0 <= j < |cps| && cps[j] >= n
  {
    if forall j :: 0 <= j < |cps| ==> cps[j] < n {
      HandledBelow(cps, n, 0, |cps|);
    }
  }

  /** adapt on a delta below 2^53 ends, and gives a number. */
  lemma AdaptEnds(delta: int, numPoints: nat, firstTime: bool)
    requires 0 <= delta < TWO_53 && numPoints >= 1
    ensures Damped(Fin(delta), numPoints, firstTime).Fin?
    ensures !Adapt(Fin(delta), numPoints, firstTime).NaN?
  {
    DampedSize(delta, numPoints, firstTime);
    Pow2Is54();
    BiasIsNumber(Damped(Fin(delta), numPoints, firstTime), 54);
  }

  lemma DampedSize(delta: int, numPoints: nat, firstTime: bool)
    requires 0 <= delta < TWO_53 && numPoints >= 1
    ensures Damped(Fin(delta), numPoints, firstTime).Fin?
    ensures Abs(Damped(Fin(delta), numPoints, firstTime).x) <= TWO_53
  {
    if firstTime {
      FloorExact(delta, DAMP);
      QuotientSize(delta / DAMP, numPoints);
    } else {
      QuotientSize(ToInt32(Fin(delta)) / 2, numPoints);
    }
  }

  lemma SubExact(a: int, b: int)
    requires 0 <= b <= a < TWO_53
    ensures Sub(Fin(a), Fin(b)) == Fin(a - b)
  {
  }

  /** The numbers of one insertion, which are exact. */
  lemma InsertExact(st: Insertion, n: int, rank: nat, value: int, bias: Num)
    requires st.n.Fin? && st.n.x <= n < TWO_53 && rank <= |st.out| < TWO_53 && 0 <= st.n.x
    requires value == (n - st.n.x) * (|st.out| + 1) + rank && 0 <= value < TWO_53
    ensures Inserted(st, Fin(value), bias)
            == Insertion(InsertAt(st.out, rank, n), Fin(n), Fin(rank + 1), bias)
  {
    var count := |st.out| + 1;
    DivModUnique(n - st.n.x, count, rank);
    FloorExact(value, count);
    hide FloorRatio;
  }

  /** The decoder's (n, i) walk lands on the insertion the encoder counted. */
  lemma InsertionStep(cps: seq<int>, n: int, p: nat, st: Insertion, delta: int, used: nat)
    requires p < |cps| <= MAX_UNITS && cps[p] == n && IsCodePoint(n)
    requires st.out == Handled(cps, n, p, |cps|) && st.n.Fin? && 0 <= st.n.x <= n && st.i.Fin? && 0 <= st.i.x
    requires delta == (n - st.n.x) * (|st.out| + 1) + Rank(cps, n, p) - st.i.x && 0 <= delta
    requires st.i.x + delta < TWO_53
    ensures Damped(Fin(delta), |st.out| + 1, st.i.x == 0) != PosInf
    ensures Turn(st, Reading(Fin(st.i.x + delta), used))
            == At(Insertion(Handled(cps, n, p + 1, |cps|), Fin(n), Fin(Rank(cps, n, p + 1)),
                            Adapt(Fin(delta), |st.out| + 1, st.i.x == 0)))
    ensures Rank(cps, n, p + 1) == Rank(cps, n, p) + 1
  {
    hide Inserted, Damped, BiasOf, InsertAt, Sub;
    HandledInsert(cps, n, p, |cps|);
    HandledSame(cps, n, p, p + 1, p);
    AdaptEnds(delta, |st.out| + 1, st.i.x == 0);
    SubExact(st.i.x + delta, st.i.x);
    InsertExact(st, n, Rank(cps, n, p), st.i.x + delta, Adapt(Fin(delta), |st.out| + 1, st.i.x == 0));
  }

  lemma QuotientUnique(b: int, q: int, r: int, q': int, r': int)
    requires 0 <= r < b && 0 <= r' < b && q * b + r == q' * b + r'
    ensures q == q' && r == r'
  {
    if q > q' {
      MulSplit(q - q', q', b);
      MulAtLeast(q - q', b);
    } else if q < q' {
      MulSplit(q' - q, q, b);
      MulAtLeast(q' - q, b);
    }
  }

  lemma DivModUnique(q: int, b: int, r: int)
    requires 0 <= r < b && 0 <= q
    ensures (q * b + r) / b == q && (q * b + r) % b == r && q * b + r >= 0
  {
    var x := q * b + r;
    assert q * b >= 0;
    QuotientUnique(b, q, r, x / b, x % b);
  }

  // ------------------------------------------------------------ the encoder, proved against the decoder

  /** The distance delta is one of decoder states, and so is what st.i and delta add up to. */
  predicate Distance(cps: seq<int>, n: int, p: nat, delta: int, st: Insertion)
    requires p <= |cps|
  {
    && st.n.Fin? && 0 <= st.n.x <= n <= 0x110000 && st.i.Fin? && 0 <= st.i.x && 0 <= delta
    && delta == (n - st.n.x) * (|st.out| + 1) + Rank(cps, n, p) - st.i.x
  }

  /** What the encoder has to keep true between two code points of a sweep over
      n: decoding what is written so far yields the code points handled so far,
      and delta is the number of decoder states still to be skipped. */
  ghost predicate Sweep(cps: seq<int>, extended: seq<int>, n: int, p: nat, delta: int, bias: Num, st: Insertion)
  {
    var basic := Handled(cps, INITIAL_N, 0, |cps|);
    && p <= |cps| <= MAX_UNITS && AreCodePoints(cps)
    && st.out == Handled(cps, n, p, |cps|) && st.bias == bias && !bias.NaN?
    && DecodeExtended(extended, Initial(basic)) == At(st)
    && Distance(cps, n, p, delta, st)
    && (st.i.x == 0 <==> |st.out| == |basic|) && |basic| <= |st.out|
    && forall j :: 0 <= j < |extended| ==> IsDigitChar(extended[j])
  }

  /** So both stay below 2^53. */
  lemma DistanceBound(cps: seq<int>, n: int, p: nat, delta: int, st: Insertion)
    requires p <= |cps| <= MAX_UNITS && |st.out| <= |cps| && Distance(cps, n, p, delta, st)
    ensures st.i.x + delta < TWO_53
  {
    MulMono(n - st.n.x, 0x110000, |st.out| + 1);
  }

  lemma HandledNone(cps: seq<int>, n: int)
    ensures Rank(cps, n, 0) == 0
  {
  }

  lemma SweepInsert(cps: seq<int>, extended: seq<int>, n: int, p: nat, delta: int, bias: Num, st: Insertion)
    returns (st': Insertion)
    requires p < |cps| && cps[p] == n && Sweep(cps, extended, n, p, delta, bias, st)
    ensures |st'.out| == |st.out| + 1 && delta < TWO_53
    ensures var first := |st.out| == |Handled(cps, INITIAL_N, 0, |cps|)|;
            && Damped(Fin(delta), |st.out| + 1, first) != PosInf
            && Sweep(cps, extended + EncodeInt(delta, BASE, bias), n, p + 1, 0,
                     Adapt(Fin(delta), |st.out| + 1, first), st')
  {
    hide Turn, Damped, BiasOf, DecodeExtended, EncodeInt, Handled;
    var digits := EncodeInt(delta, BASE, bias);
    DistanceBound(cps, n, p, delta, st);
    InsertionStep(cps, n, p, st, delta, |digits|);
    AdaptEnds(delta, |st.out| + 1, st.i.x == 0);
    DecodeOneInsertion(delta, st);
    DecodeExtendedAppend(extended, digits, Initial(Handled(cps, INITIAL_N, 0, |cps|)));
    st' := Turn(st, Reading(Fin(st.i.x + delta), |digits|)).st;
    HandledInsert(cps, n, p, |cps|);
  }

  lemma SweepSkip(cps: seq<int>, extended: seq<int>, n: int, p: nat, delta: int, bias: Num, st: Insertion)
    requires p < |cps| && cps[p] != n && Sweep(cps, extended, n, p, delta, bias, st)
    ensures Sweep(cps, extended, n, p + 1, delta + (if cps[p] < n then 1 else 0), bias, st)
  {
    hide DecodeExtended;
    HandledSkip(cps, n, p, |cps|);
    HandledSkip(cps, n, p, p);
    HandledSame(cps, n, p, p + 1, p);
  }

  /** From the end of one sweep to the start of the next. */
  lemma SweepEnd(cps: seq<int>, extended: seq<int>, n: int, delta: int, bias: Num, st: Insertion)
    requires Sweep(cps, extended, n, |cps|, delta, bias, st) && IsCodePoint(n)
    ensures Sweep(cps, extended, n + 1, 0, delta + 1, bias, st)
  {
    hide DecodeExtended, Handled;
    HandledRaise(cps, n, n + 1, |cps|, |cps|);
    HandledNone(cps, n + 1);
    MulSplit(n - st.n.x, 1, |st.out| + 1);
  }

  lemma SweepStart(cps: seq<int>, extended: seq<int>, n: int, m: int, delta: int, bias: Num, st: Insertion)
    requires Sweep(cps, extended, n, 0, delta, bias, st) && n <= m && IsCodePoint(m)
    requires forall j :: 0 <= j < |cps| && cps[j] >= n ==> m <= cps[j]
    ensures Sweep(cps, extended, m, 0, delta + (m - n) * (|st.out| + 1), bias, st)
  {
    hide DecodeExtended, Handled;
    HandledRaise(cps, n, m, 0, |cps|);
    HandledNone(cps, n);
    HandledNone(cps, m);
    MulSplit(n - st.n.x, m - n, |st.out| + 1);
    if m > n {
      MulAtLeast(m - n, |st.out| + 1);
    }
  }

  /** So many code points keep every delta below 2^31, where adapt is the standard's. */
  const MODERATE := 1926

  /** The standard's encoder stands where the encoder does. */
  ghost predicate Follows(cps: seq<int>, e: Rfc.Encoder, extended: seq<int>, delta: int, bias: Num, handled: nat) {
    |cps| <= MODERATE ==> e.digits == extended && e.delta == delta && Fin(e.bias) == bias && e.h == handled
  }

  lemma DistanceModerate(cps: seq<int>, n: int, p: nat, delta: int, st: Insertion)
    requires p <= |cps| <= MODERATE && |st.out| <= |cps| && Distance(cps, n, p, delta, st)
    ensures delta < 0x8000_0000
  {
    MulMono(n - st.n.x, 0x110000, |st.out| + 1);
    assert 0x110000 * (|st.out| + 1) <= 0x110000 * 1927;
  }

  lemma FollowsInsert(cps: seq<int>, e: Rfc.Encoder, n: int, p: nat, b: nat, extended: seq<int>,
                      delta: int, bias: Num, st: Insertion)
    requires p < |cps| && cps[p] == n && Sweep(cps, extended, n, p, delta, bias, st)
    requires Follows(cps, e, extended, delta, bias, |st.out|)
    requires Damped(Fin(delta), |st.out| + 1, |st.out| == b) != PosInf
    ensures Follows(cps, Rfc.Visit(n, n, b, e), extended + EncodeInt(delta, BASE, bias), 0,
                    Adapt(Fin(delta), |st.out| + 1, |st.out| == b), |st.out| + 1)
  {
    hide Damped, BiasOf, DecodeExtended, EncodeInt, Handled, Rfc.EncodeInt, Rfc.Adapt;
    if |cps| <= MODERATE {
      DistanceModerate(cps, n, p, delta, st);
      EncodeIntStandard(delta, BASE, e.bias);
      AdaptIsExact(delta, |st.out| + 1, |st.out| == b);
    }
  }

  /** The body of the sweep for one position. */
  method ComputeVisit(cps: seq<int>, n: int, p: nat, basicLength: nat, handled: nat,
                      extended: seq<int>, delta: int, bias: Num, ghost st: Insertion, ghost e: Rfc.Encoder)
    returns (extended': seq<int>, delta': int, bias': Num, handled': nat, ghost st': Insertion)
    requires basicLength == |Handled(cps, INITIAL_N, 0, |cps|)| && handled == |st.out|
    requires p < |cps| && Sweep(cps, extended, n, p, delta, bias, st)
    requires Follows(cps, e, extended, delta, bias, handled)
    ensures Sweep(cps, extended', n, p + 1, delta', bias', st')
    ensures Follows(cps, Rfc.Visit(cps[p], n, basicLength, e), extended', delta', bias', handled')
    ensures handled' == |st'.out| == handled + (if cps[p] == n then 1 else 0)
  {
    hide Sweep, Handled, EncodeInt, Damped, BiasOf, Rfc.EncodeInt, Rfc.Adapt;
    extended', delta', bias', handled', st' := extended, delta, bias, handled, st;
    if cps[p] < n {
      SweepSkip(cps, extended, n, p, delta, bias, st);
      delta' := delta + 1;
    } else if cps[p] == n {
      st' := SweepInsert(cps, extended, n, p, delta, bias, st);
      FollowsInsert(cps, e, n, p, basicLength, extended, delta, bias, st);
      SweepNumber(cps, extended, n, p, delta, bias, st);
      var digits := ComputeEncodeInt(delta, bias);
      extended' := extended + digits;
      var ends;
      ends, bias' := ComputeAdapt(Fin(delta), handled + 1, handled == basicLength);
      delta' := 0;
      handled' := handled + 1;
    } else {
      SweepSkip(cps, extended, n, p, delta, bias, st);
    }
  }

  lemma SweepNumber(cps: seq<int>, extended: seq<int>, n: int, p: nat, delta: int, bias: Num, st: Insertion)
    requires Sweep(cps, extended, n, p, delta, bias, st)
    ensures 0 <= delta && !bias.NaN?
  {
  }

  /** One sweep of encode over the code points, for a value n that occurs. */
  method ComputeSweep(cps: seq<int>, n: int, basicLength: nat, handled: nat,
                      extended: seq<int>, delta: int, bias: Num, ghost st: Insertion, ghost e: Rfc.Encoder)
    returns (extended': seq<int>, delta': int, bias': Num, handled': nat, ghost st': Insertion)
    requires basicLength == |Handled(cps, INITIAL_N, 0, |cps|)| && handled == |st.out|
    requires n in cps && Sweep(cps, extended, n, 0, delta, bias, st)
    requires Follows(cps, e, extended, delta, bias, handled)
    ensures Sweep(cps, extended', n, |cps|, delta', bias', st')
    ensures Follows(cps, Rfc.Sweep(cps, |cps|, n, basicLength, e), extended', delta', bias', handled')
    ensures handled < handled' == |st'.out|
  {
    hide Sweep, Follows, Rfc.Visit, Handled;
    extended', delta', bias', handled', st' := extended, delta, bias, handled, st;
    for p := 0 to |cps|
      invariant Sweep(cps, extended', n, p, delta', bias', st')
      invariant Follows(cps, Rfc.Sweep(cps, p, n, basicLength, e), extended', delta', bias', handled')
      invariant handled <= handled' == |st'.out|
      invariant handled < handled' || n !in cps[..p]
    {
      extended', delta', bias', handled', st' :=
        ComputeVisit(cps, n, p, basicLength, handled', extended', delta', bias', st',
                     Rfc.Sweep(cps, p, n, basicLength, e));
    }
  }

  /** One turn of the standard's main loop. */
  lemma LoopTurn(cps: seq<int>, n: nat, b: nat, e: Rfc.Encoder, m: nat)
    requires e.h < |cps| && m in cps && m >= n && forall j :: 0 <= j < |cps| && cps[j] >= n ==> m <= cps[j]
    ensures (m - n) * (e.h + 1) >= 0
    ensures var e' := Rfc.Sweep(cps, |cps|, m, b, e.(delta := e.delta + (m - n) * (e.h + 1)));
            Rfc.Loop(cps, n, b, e) == Rfc.Loop(cps, m + 1, b, e'.(delta := e'.delta + 1))
  {
    hide Rfc.Sweep, Rfc.Least;
    Rfc.ProductNatural(m - n, e.h + 1);
    LeastIs(cps, n, m);
  }

  lemma LeastIs(cps: seq<int>, n: nat, m: nat)
    requires m in cps && m >= n && forall j :: 0 <= j < |cps| && cps[j] >= n ==> m <= cps[j]
    ensures Rfc.Least(cps, n) == m
  {
    hide Rfc.Least;
    assert 0 <= Rfc.Least(cps, n) <= m;
  }

  lemma LoopEnd(cps: seq<int>, n: nat, b: nat, e: Rfc.Encoder)
    requires e.h >= |cps|
    ensures Rfc.Loop(cps, n, b, e) == e.digits
  {
  }

  lemma FollowsDelta(cps: seq<int>, e: Rfc.Encoder, extended: seq<int>, delta: int, bias: Num, handled: nat, more: nat)
    requires Follows(cps, e, extended, delta, bias, handled)
    ensures Follows(cps, e.(delta := e.delta + more), extended, delta + more, bias, handled)
  {
  }

  /** The main loop of encode, on code points. */
  method ComputeExtended(cps: seq<int>, basic: seq<int>) returns (extended: seq<int>)
    requires basic == Handled(cps, INITIAL_N, 0, |cps|) && AreCodePoints(cps) && |cps| <= MAX_UNITS
    ensures forall j :: 0 <= j < |extended| ==> IsDigitChar(extended[j])
    ensures exists st: Insertion :: st.out == cps && DecodeExtended(extended, Initial(basic)) == At(st)
    ensures |cps| <= MODERATE ==>
              extended == Rfc.Loop(cps, 128, |basic|, Rfc.Encoder([], 0, 72, |basic|))
  {
    hide Sweep, DecodeExtended, Handled, Follows, Rfc.Sweep, Rfc.Loop;
    extended := [];
    var n, delta, bias, handled := INITIAL_N, 0, Fin(INITIAL_BIAS), |basic|;
    ghost var st, e := Initial(basic), Rfc.Encoder([], 0, 72, |basic|);
    ghost var whole := Rfc.Loop(cps, 128, |basic|, e);
    SweepInitial(cps);
    FollowsInitial(cps, e);
    while handled < |cps|
      invariant Sweep(cps, extended, n, 0, delta, bias, st)
      invariant handled == |st.out| && n >= 0
      invariant Follows(cps, e, extended, delta, bias, handled)
      invariant |cps| <= MODERATE ==> Rfc.Loop(cps, n, |basic|, e) == whole
      decreases |cps| - handled
    {
      SweepMeans(cps, extended, n, delta, bias, st);
      SomethingLeft(cps, n);
      var m := ComputeNext(cps, n);
      SweepStart(cps, extended, n, m, delta, bias, st);
      ghost var skipped := (m - n) * (handled + 1);
      Rfc.ProductNatural(m - n, handled + 1);
      ghost var e1 := e.(delta := e.delta + skipped);
      FollowsDelta(cps, e, extended, delta, bias, handled, skipped);
      TurnTaken(cps, n, |basic|, e, m, extended, delta, bias, handled);
      delta := delta + (m - n) * (handled + 1);
      n := m;
      extended, delta, bias, handled, st := ComputeSweep(cps, n, |basic|, handled, extended, delta, bias, st, e1);
      e := Rfc.Sweep(cps, |cps|, m, |basic|, e1);
      SweepEnd(cps, extended, n, delta, bias, st);
      FollowsDelta(cps, e, extended, delta, bias, handled, 1);
      e := e.(delta := e.delta + 1);
      delta := delta + 1;
      n := n + 1;
    }
    SweepMeans(cps, extended, n, delta, bias, st);
    assert st.out == cps;
    FollowsEnd(cps, n, |basic|, e, extended, delta, bias, handled);
  }

  lemma FollowsInitial(cps: seq<int>, e: Rfc.Encoder)
    requires e == Rfc.Encoder([], 0, 72, e.h)
    ensures Follows(cps, e, [], 0, Fin(INITIAL_BIAS), e.h)
  {
  }

  lemma TurnTaken(cps: seq<int>, n: nat, b: nat, e: Rfc.Encoder, m: nat,
                  extended: seq<int>, delta: int, bias: Num, handled: nat)
    requires Follows(cps, e, extended, delta, bias, handled) && handled < |cps|
    requires m in cps && m >= n && forall j :: 0 <= j < |cps| && cps[j] >= n ==> m <= cps[j]
    ensures (m - n) * (handled + 1) >= 0
    ensures |cps| <= MODERATE ==>
              var e' := Rfc.Sweep(cps, |cps|, m, b, e.(delta := e.delta + (m - n) * (handled + 1)));
              Rfc.Loop(cps, n, b, e) == Rfc.Loop(cps, m + 1, b, e'.(delta := e'.delta + 1))
  {
    hide Rfc.Sweep, Rfc.Loop;
    Rfc.ProductNatural(m - n, handled + 1);
    if |cps| <= MODERATE {
      LoopTurn(cps, n, b, e, m);
    }
  }

  lemma FollowsEnd(cps: seq<int>, n: nat, b: nat, e: Rfc.Encoder,
                   extended: seq<int>, delta: int, bias: Num, handled: nat)
    requires Follows(cps, e, extended, delta, bias, handled) && handled >= |cps|
    ensures |cps| <= MODERATE ==> Rfc.Loop(cps, n, b, e) == extended
  {
    hide Rfc.Loop;
    if |cps| <= MODERATE {
      LoopEnd(cps, n, b, e);
    }
  }

  lemma {:induction false} BasicAppend(a: seq<int>, c: int)
    ensures Rfc.Basic(a + [c]) == Rfc.Basic(a) + if c < 0x80 then [c] else []
  {
    if a == [] {
      assert a + [c] == [c] && [c][1..] == [];
    } else {
      assert (a + [c])[1..] == a[1..] + [c];
      BasicAppend(a[1..], c);
    }
  }

  lemma {:induction false} BasicStandard(cps: seq<int>, len: nat)
    requires len <= |cps|
    ensures Handled(cps, INITIAL_N, 0, len) == Rfc.Basic(cps[..len])
    decreases len
  {
    if len > 0 {
      hide Rfc.Basic;
      BasicStandard(cps, len - 1);
      BasicAppend(cps[..len - 1], cps[len - 1]);
      assert cps[..len] == cps[..len - 1] + [cps[len - 1]];
    }
  }

  lemma SweepInitial(cps: seq<int>)
    requires AreCodePoints(cps) && |cps| <= MAX_UNITS
    ensures Sweep(cps, [], INITIAL_N, 0, 0, Fin(INITIAL_BIAS), Initial(Handled(cps, INITIAL_N, 0, |cps|)))
  {
    HandledNone(cps, INITIAL_N);
  }

  lemma SweepMeans(cps: seq<int>, extended: seq<int>, n: int, delta: int, bias: Num, st: Insertion)
    requires Sweep(cps, extended, n, 0, delta, bias, st)
    ensures st.out == Handled(cps, n, 0, |cps|) && |st.out| <= |cps| && (|st.out| == |cps| ==> st.out == cps)
    ensures DecodeExtended(extended, Initial(Handled(cps, INITIAL_N, 0, |cps|))) == At(st)
    ensures forall j :: 0 <= j < |extended| ==> IsDigitChar(extended[j])
  {
    hide DecodeExtended;
    HandledFull(cps, n, 0, |cps|);
    assert cps[..|cps|] == cps;
  }

  lemma {:induction false} BasicLengthOfEncoded(basic: seq<int>, extended: seq<int>)
    requires forall j :: 0 <= j < |extended| ==> IsDigitChar(extended[j])
    ensures basic != [] ==> BasicLength(basic + [DELIMITER] + extended) == |basic|
    ensures BasicLength(extended) == 0
    decreases |extended|
  {
    if extended != [] {
      var shorter := extended[..|extended| - 1];
      BasicLengthOfEncoded(basic, shorter);
      var all := basic + [DELIMITER] + extended;
      assert all[..|all| - 1] == basic + [DELIMITER] + shorter;
    }
  }

  /** `encode`, for every string of 16-bit units: decoding the result gives the
      string back. Deltas from 2^31 on, which adapt's shift wraps, do no harm, because the
      encoder and the decoder call adapt on the same arguments. */
  method ComputeEncode(input: seq<int>) returns (output: seq<int>)
    requires IsUnits(input) && |input| <= MAX_UNITS
    ensures Decode(output) == Decoded(input)
    ensures forall j :: 0 <= j < |output| ==> 0 <= output[j] < 0x80
    ensures |ToCodePoints(input)| <= MODERATE ==> output == Rfc.Encode(ToCodePoints(input))
  {
    hide DecodeCodePoints, DecodeExtended, FromCodePoints, ToCodePoints, Rfc.Loop, Rfc.Basic, Handled;
    var cps := ToCodePoints(input);
    CodePointsFewer(input);
    var basic := ComputeBasic(cps);
    var extended := ComputeExtended(cps, basic);
    output := Assemble(basic, extended);
    HandledBasic(cps, |cps|);
    BasicStandard(cps, |cps|);
    assert cps[..|cps|] == cps;
    DecodeAssembled(basic, extended, cps);
    CodePointRoundTrip(input);
  }

  lemma {:induction false} CodePointsFewer(s: seq<int>)
    requires IsUnits(s)
    ensures |ToCodePoints(s)| <= |s|
    decreases |s|
  {
    if s != [] {
      CodePointsFewer(s[1..]);
      if |s| >= 2 {
        CodePointsFewer(s[2..]);
      }
    }
  }

  /** The basic code points, the delimiter if there are any, and the digits. */
  function Assemble(basic: seq<int>, extended: seq<int>): seq<int> {
    (if basic == [] then [] else basic + [DELIMITER]) + extended
  }

  lemma DecodeAssembled(basic: seq<int>, extended: seq<int>, cps: seq<int>)
    requires AreCodePoints(cps)
    requires forall j :: 0 <= j < |extended| ==> IsDigitChar(extended[j])
    requires exists st: Insertion :: st.out == cps
               && DecodeExtended(extended, Initial(basic)) == At(st)
    ensures DecodeCodePoints(Assemble(basic, extended)) == Decoded(cps)
  {
    hide DecodeExtended, BasicLength;
    var output := Assemble(basic, extended);
    BasicLengthOfEncoded(basic, extended);
    assert basic == [] ==> output == extended;
    assert BasicLength(output) == |basic|;
    assert output[ExtendedStart(|basic|)..] == extended;
    assert output[..|basic|] == basic;
  }

  lemma {:induction false} HandledBasic(cps: seq<int>, len: nat)
    requires AreCodePoints(cps) && len <= |cps|
    ensures forall j :: 0 <= j < |Handled(cps, INITIAL_N, 0, len)| ==> 0 <= Handled(cps, INITIAL_N, 0, len)[j] < 0x80
    decreases len
  {
    if len > 0 {
      HandledBasic(cps, len - 1);
    }
  }

  /** Both directions run one after the other. */
  method RoundTrip(input: seq<int>) returns (output: DecodeResult)
    requires IsUnits(input) && |input| <= MAX_UNITS
    ensures output == Decoded(input)
  {
    var encoded := ComputeEncode(input);
    output := ComputeDecode(encoded);
  }

  // ------------------------------------------------------------ the standard's decoder

  lemma DigitStandard(c: int)
    requires Rfc.DigitValue(c) >= 0
    ensures BasicToDigit(c) == Rfc.DigitValue(c)
  {
  }

  /** One number that the standard's decoder reads is read alike. */
  lemma {:induction false} DecodeIntStandard(ds: seq<int>, i: nat, w: int, k: int, bias: int)
    requires 1 <= w <= Rfc.MAXINT && Rfc.DecodeInt(ds, i, w, k, bias).Number?
    ensures var r := Rfc.DecodeInt(ds, i, w, k, bias);
            DecodeInt(ds, Fin(i), Fin(w), k, Fin(bias)) == Reading(Fin(r.value), r.used)
    decreases |ds|
  {
    hide NextValue, NextWeight, BasicToDigit, Rfc.DigitValue;
    var digit, t := Rfc.DigitValue(ds[0]), Rfc.Threshold(k, bias);
    DigitStandard(ds[0]);
    Rfc.ProductNatural(digit, w);
    ValueExact(i, digit, w);
    assert Threshold(k, Fin(bias)) == Fin(t);
    if digit >= t {
      WeightPositive(w, BASE - t);
      WeightExact(w, t);
      DecodeIntStandard(ds[1..], i + digit * w, w * (BASE - t), k + BASE, bias);
    }
  }

  lemma WeightPositive(w: int, b: int)
    requires w >= 1 && b >= 1
    ensures w * b >= 1
  {
    Rfc.ProductNatural(w - 1, b - 1);
    assert w * b == (w - 1) * (b - 1) + w + b - 1;
  }

  /** The decoder's variables agree. */
  predicate SameDecoder(st: Insertion, d: Rfc.Decoder) {
    && d.Decoder? && d.n >= 0 && d.i >= 0
    && st == Insertion(d.out, Fin(d.n), Fin(d.i), Fin(d.bias))
  }

  lemma InsertStandard(st: Insertion, d: Rfc.Decoder, value: nat, used: nat)
    requires SameDecoder(st, d) && d.i <= value <= Rfc.MAXINT && |d.out| < MAX_UNITS
    requires Rfc.Inserted(d, value).Decoder?
    ensures Turn(st, Reading(Fin(value), used)).At?
    ensures SameDecoder(Turn(st, Reading(Fin(value), used)).st, Rfc.Inserted(d, value))
  {
    hide Damped, BiasOf, Inserted, Rfc.Adapt, Sub;
    var len := |d.out| + 1;
    var n, at := d.n + value / len, value % len;
    SubExact(value, d.i);
    AdaptIsExact(value - d.i, len, d.i == 0);
    QuotientParts(value, len);
    InsertExact(st, n, at, value, Fin(Rfc.Adapt(value - d.i, len, d.i == 0)));
  }

  lemma QuotientParts(value: nat, len: nat)
    requires len >= 1
    ensures value == (value / len) * len + value % len && 0 <= value / len && 0 <= value % len < len
  {
    DivFacts(value, len);
  }

  lemma {:induction false} DecodeDigitsStandard(ds: seq<int>, st: Insertion, d: Rfc.Decoder)
    requires SameDecoder(st, d) && |d.out| + |ds| <= MAX_UNITS && Rfc.DecodeDigits(ds, d).Decoder?
    ensures DecodeExtended(ds, st).At? && SameDecoder(DecodeExtended(ds, st).st, Rfc.DecodeDigits(ds, d))
    decreases |ds|
  {
    hide Turn, DecodeInt, Rfc.DecodeInt, Rfc.Inserted, SameDecoder;
    if ds != [] {
      SameFields(st, d);
      var r := Rfc.DecodeInt(ds, d.i, 1, 36, d.bias);
      Rfc.DecodeIntGrows(ds, d.i, 1, 36, d.bias);
      DecodeIntStandard(ds, d.i, 1, 36, d.bias);
      var next := Rfc.Inserted(d, r.value);
      FailedStays(ds[r.used..], next);
      InsertStandard(st, d, r.value, r.used);
      OneMore(d, r.value);
      DecodeDigitsStandard(ds[r.used..], Turn(st, Reading(Fin(r.value), r.used)).st, next);
    }
  }

  lemma SameFields(st: Insertion, d: Rfc.Decoder)
    requires SameDecoder(st, d)
    ensures d.Decoder? && 0 <= d.i && st.i == Fin(d.i) && st.bias == Fin(d.bias)
  {
  }

  lemma FailedStays(ds: seq<int>, d: Rfc.Decoder)
    requires d.Decoder? ==> d.i >= 0
    ensures d.Failed? ==> Rfc.DecodeDigits(ds, d).Failed?
  {
  }

  lemma OneMore(d: Rfc.Decoder, value: nat)
    requires d.Decoder? && 0 <= d.i <= value && Rfc.Inserted(d, value).Decoder?
    ensures |Rfc.Inserted(d, value).out| == |d.out| + 1
  {
  }

  lemma {:induction false} DelimiterStandard(input: seq<int>)
    ensures BasicLength(input) == if Rfc.LastDelimiter(input) > 0 then Rfc.LastDelimiter(input) else 0
  {
    if input != [] && input[|input| - 1] != DELIMITER {
      DelimiterStandard(input[..|input| - 1]);
    }
  }

  /** Whatever the standard's decoder in 32 bits accepts is decoded to the same code points,
      or, when one of them is none, to a RangeError. */
  lemma DecodeStandard(input: seq<int>)
    requires |input| <= MAX_UNITS && Rfc.Decode(input).Decoder?
    ensures var cps := Rfc.Decode(input).out;
            Decode(input) == if AreCodePoints(cps) then Decoded(FromCodePoints(cps)) else RangeError
  {
    hide Rfc.LastDelimiter, BasicLength, Rfc.DecodeDigits, DecodeExtended, FromCodePoints;
    DelimiterStandard(input);
    var j := Rfc.LastDelimiter(input);
    var basic, digits := if j > 0 then input[..j] else [], if j > 0 then input[j + 1..] else input;
    var b := BasicLength(input);
    assert input[..b] == basic && input[ExtendedStart(b)..] == digits;
    DecodeDigitsStandard(digits, Initial(basic), Rfc.Decoder(basic, 128, 0, 72));
  }
}
