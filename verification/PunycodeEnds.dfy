/** When the Punycode decoder ends, and how its bias function compares with the standard's. */
module PunycodeEnds {
  import opened Doubles
  import opened Punycode
  import opened Utf16

  // ------------------------------------------------------------ the loops, turn by turn

  /** The decoder's three loops. In the inner one, k is BASE between two numbers, where the
      outer one looks at the length of the input; index is the next unit. */
  datatype Loop =
    | InInt(st: Insertion, i: Num, w: Num, k: int, index: nat)
    | InAdapt(st: Insertion, i: Num, delta: Num, k: int, index: nat)
    | Ended(st: Insertion)

  /** The digit read at an index. Behind the end charCodeAt gives NaN, which is below
      none of the three bounds and so counts as BASE. */
  function DigitAt(ds: seq<int>, index: nat): int {
    if index < |ds| then BasicToDigit(ds[index]) else BASE
  }

  function Begin(st: Insertion, index: nat): Loop {
    InInt(st, st.i, Fin(1), BASE, index)
  }

  function DampedDelta(st: Insertion, i: Num): Num {
    Damped(Sub(i, st.i), |st.out| + 1, st.i == Fin(0))
  }

  /** One turn of the loop that is running. */
  function Next(ds: seq<int>, c: Loop): Loop {
    match c
    case Ended(_) => c
    case InInt(st, i, w, k, index) =>
      if k == BASE && index >= |ds| then Ended(st)
      else
        var digit, t := DigitAt(ds, index), Threshold(k, st.bias);
        var value := NextValue(i, digit, w);
        if Less(Fin(digit), t) then InAdapt(st, value, DampedDelta(st, value), 0, index + 1)
        else InInt(st, value, NextWeight(w, t), k + BASE, index + 1)
    case InAdapt(st, i, delta, k, index) =>
      if Above(delta) then InAdapt(st, i, FloorDiv(delta, Fin(BASE - T_MIN)), k + BASE, index)
      else Begin(Inserted(st, i, Biased(delta, k)), index)
  }

  function Run(ds: seq<int>, c: Loop, turns: nat): Loop
    decreases turns
  {
    if turns == 0 then c else Run(ds, Next(ds, c), turns - 1)
  }

  ghost predicate NeverEnds(ds: seq<int>, c: Loop) {
    forall turns: nat :: !Run(ds, c, turns).Ended?
  }

  ghost predicate GetsTo(ds: seq<int>, c: Loop, c': Loop) {
    exists turns: nat :: Run(ds, c, turns) == c'
  }

  lemma {:induction false} RunAdd(ds: seq<int>, c: Loop, a: nat, b: nat)
    ensures Run(ds, c, a + b) == Run(ds, Run(ds, c, a), b)
    decreases a
  {
    hide Next;
    if a > 0 {
      RunAdd(ds, Next(ds, c), a - 1, b);
    }
  }

  lemma {:induction false} EndedStays(ds: seq<int>, c: Loop, turns: nat)
    requires c.Ended?
    ensures Run(ds, c, turns) == c
    decreases turns
  {
    if turns > 0 {
      EndedStays(ds, c, turns - 1);
    }
  }

  lemma GetsToItself(ds: seq<int>, c: Loop)
    ensures GetsTo(ds, c, c)
  {
    assert Run(ds, c, 0) == c;
  }

  lemma GetsOn(ds: seq<int>, c: Loop, c': Loop)
    requires GetsTo(ds, Next(ds, c), c')
    ensures GetsTo(ds, c, c')
  {
    hide Next;
    var turns: nat :| Run(ds, Next(ds, c), turns) == c';
    assert Run(ds, c, turns + 1) == c';
  }

  lemma GetsThrough(ds: seq<int>, a: Loop, b: Loop, c: Loop)
    requires GetsTo(ds, a, b) && GetsTo(ds, b, c)
    ensures GetsTo(ds, a, c)
  {
    hide Next;
    var m: nat :| Run(ds, a, m) == b;
    var n: nat :| Run(ds, b, n) == c;
    RunAdd(ds, a, m, n);
  }

  /** A run that gets to where it never ends never ends. */
  lemma NeverFrom(ds: seq<int>, a: Loop, b: Loop)
    requires GetsTo(ds, a, b) && NeverEnds(ds, b)
    ensures NeverEnds(ds, a)
  {
    hide Next;
    var m: nat :| Run(ds, a, m) == b;
    forall turns: nat
      ensures !Run(ds, a, turns).Ended?
    {
      RunAdd(ds, a, turns, m);
      RunAdd(ds, a, m, turns);
      if Run(ds, a, turns).Ended? {
        EndedStays(ds, Run(ds, a, turns), m);
        assert Run(ds, b, turns).Ended?;
      }
    }
  }

  /** adapt's loop comes to its end from everything but infinity. */
  lemma {:induction false} AdaptRuns(ds: seq<int>, st: Insertion, i: Num, delta: Num, k: int, index: nat)
    requires delta != PosInf
    ensures var (d, k') := Scale(delta, k);
            GetsTo(ds, InAdapt(st, i, delta, k, index), Begin(Inserted(st, i, Biased(d, k')), index))
    decreases if Above(delta) then delta.x else 0
  {
    hide Inserted, Biased, FloorDiv, Run;
    var c := InAdapt(st, i, delta, k, index);
    if Above(delta) {
      ScaleShrinks(delta);
      AdaptRuns(ds, st, i, FloorDiv(delta, Fin(BASE - T_MIN)), k + BASE, index);
    } else {
      GetsToItself(ds, Next(ds, c));
    }
    var (d, k') := Scale(delta, k);
    GetsOn(ds, c, Begin(Inserted(st, i, Biased(d, k')), index));
  }

  /** From infinity it does not. */
  lemma {:induction false} AdaptForever(ds: seq<int>, c: Loop, turns: nat)
    requires c.InAdapt? && c.delta == PosInf
    ensures !Run(ds, c, turns).Ended?
    decreases turns
  {
    if turns > 0 {
      AdaptForever(ds, Next(ds, c), turns - 1);
    }
  }

  /** Inside a number behind the end of the input no turn leaves the inner loop, because
      every threshold is below BASE or NaN. */
  lemma {:induction false} IntForever(ds: seq<int>, c: Loop, turns: nat)
    requires c.InInt? && c.k > BASE && c.index >= |ds|
    ensures !Run(ds, c, turns).Ended?
    decreases turns
  {
    hide NextValue, NextWeight, Threshold;
    if turns > 0 {
      IntForever(ds, Next(ds, c), turns - 1);
    }
  }

  /** Reading one number: the inner loop gets to the call of adapt behind it, or goes on for
      ever. */
  lemma {:induction false} IntRuns(ds: seq<int>, st: Insertion, i: Num, w: Num, k: int, index: nat)
    requires index < |ds| && k >= BASE
    ensures var r := DecodeInt(ds[index..], i, w, k, st.bias);
            var c := InInt(st, i, w, k, index);
            if r.RanOut? then NeverEnds(ds, c)
            else GetsTo(ds, c, InAdapt(st, r.value, DampedDelta(st, r.value), 0, index + r.used))
    decreases |ds| - index
  {
    hide NextValue, NextWeight, Threshold, Less, DampedDelta, Run, BasicToDigit, NeverEnds, GetsTo;
    var c := InInt(st, i, w, k, index);
    var digit, t := BasicToDigit(ds[index]), Threshold(k, st.bias);
    var value := NextValue(i, digit, w);
    assert ds[index..][0] == ds[index] && ds[index..][1..] == ds[index + 1..];
    if Less(Fin(digit), t) {
      GetsToItself(ds, Next(ds, c));
      GetsOn(ds, c, Next(ds, c));
    } else {
      GetsToItself(ds, Next(ds, c));
      GetsOn(ds, c, Next(ds, c));
      if index + 1 == |ds| {
        IntStays(ds, Next(ds, c));
        NeverFrom(ds, c, Next(ds, c));
      } else {
        IntRuns(ds, st, value, NextWeight(w, t), k + BASE, index + 1);
        var r := DecodeInt(ds[index + 1..], value, NextWeight(w, t), k + BASE, st.bias);
        if r.RanOut? {
          NeverFrom(ds, c, Next(ds, c));
        } else {
          GetsThrough(ds, c, Next(ds, c),
                      InAdapt(st, r.value, DampedDelta(st, r.value), 0, index + 1 + r.used));
        }
      }
    }
  }

  lemma IntStays(ds: seq<int>, c: Loop)
    requires c.InInt? && c.k > BASE && c.index >= |ds|
    ensures NeverEnds(ds, c)
  {
    hide Run;
    forall turns: nat
      ensures !Run(ds, c, turns).Ended?
    {
      IntForever(ds, c, turns);
    }
  }

  lemma AdaptStays(ds: seq<int>, c: Loop)
    requires c.InAdapt? && c.delta == PosInf
    ensures NeverEnds(ds, c)
  {
    hide Run;
    forall turns: nat
      ensures !Run(ds, c, turns).Ended?
    {
      AdaptForever(ds, c, turns);
    }
  }

  /** The call of adapt and the insertion behind it. */
  lemma TurnRuns(ds: seq<int>, st: Insertion, reading: Reading, index: nat)
    requires reading.Reading?
    ensures var c := InAdapt(st, reading.value, DampedDelta(st, reading.value), 0, index);
            var p := Turn(st, reading);
            if p.Stuck? then NeverEnds(ds, c) else GetsTo(ds, c, Begin(p.st, index))
  {
    hide Damped, Sub, Inserted, Biased, Run, Scale, NeverEnds, GetsTo, Next;
    var c := InAdapt(st, reading.value, DampedDelta(st, reading.value), 0, index);
    if c.delta == PosInf {
      AdaptStays(ds, c);
    } else {
      AdaptRuns(ds, st, reading.value, c.delta, 0, index);
    }
  }

  /** What Stuck means: the source's loops, however long they go on, do not end. And what
      At means: they end, in that state. */
  lemma {:induction false} StuckMeansForever(ds: seq<int>, st: Insertion, index: nat)
    requires index <= |ds|
    ensures var p := DecodeExtended(ds[index..], st);
            if p.Stuck? then NeverEnds(ds, Begin(st, index)) else GetsTo(ds, Begin(st, index), Ended(p.st))
    decreases |ds| - index
  {
    hide Turn, DecodeInt, DampedDelta, Run, NeverEnds, GetsTo;
    var c := Begin(st, index);
    if index == |ds| {
      hide Threshold, NextValue, NextWeight;
      assert ds[index..] == [];
      GetsToItself(ds, Ended(st));
      GetsOn(ds, c, Ended(st));
    } else {
      hide Next;
      var r := ReadInt(ds[index..], st);
      IntRuns(ds, st, st.i, Fin(1), BASE, index);
      if r.Reading? {
        NumberRuns(ds, st, r, index);
      } else {
        RanOutIsStuck(st);
      }
    }
  }

  lemma RanOutIsStuck(st: Insertion)
    ensures Turn(st, RanOut).Stuck?
  {
  }

  lemma {:induction false} NumberRuns(ds: seq<int>, st: Insertion, r: Reading, index: nat)
    requires index < |ds| && r == ReadInt(ds[index..], st) && r.Reading?
    requires GetsTo(ds, Begin(st, index), InAdapt(st, r.value, DampedDelta(st, r.value), 0, index + r.used))
    ensures var p := DecodeExtended(ds[index..], st);
            if p.Stuck? then NeverEnds(ds, Begin(st, index)) else GetsTo(ds, Begin(st, index), Ended(p.st))
    decreases |ds| - index, 0
  {
    hide Turn, DecodeInt, ReadInt, DampedDelta, Run, NeverEnds, GetsTo, Next, Begin;
    var c, adapting := Begin(st, index), InAdapt(st, r.value, DampedDelta(st, r.value), 0, index + r.used);
    var next := Turn(st, r);
    TurnRuns(ds, st, r, index + r.used);
    assert ds[index..][r.used..] == ds[index + r.used..];
    if next.Stuck? {
      NeverFrom(ds, c, adapting);
    } else {
      GetsThrough(ds, c, adapting, Begin(next.st, index + r.used));
      StuckMeansForever(ds, next.st, index + r.used);
      var p := DecodeExtended(ds[index + r.used..], next.st);
      if p.Stuck? {
        NeverFrom(ds, c, Begin(next.st, index + r.used));
      } else {
        GetsThrough(ds, c, Begin(next.st, index + r.used), Ended(p.st));
      }
    }
  }

  // ------------------------------------------------------------ unit by unit

  /** The decoder between two units: its insertions so far, and the inner loop's i, w and
      k, with k at BASE between two numbers; or that it is inside adapt for ever. */
  datatype Mid = Mid(st: Insertion, i: Num, w: Num, k: int) | Caught

  function Start(p: Progress): Mid {
    if p.Stuck? then Caught else Mid(p.st, p.st.i, Fin(1), BASE)
  }

  function Feed(m: Mid, digit: int): Mid {
    if m.Caught? then m
    else
      var t, value := Threshold(m.k, m.st.bias), NextValue(m.i, digit, m.w);
      if Less(Fin(digit), t) then Start(Turn(m.st, Reading(value, 1)))
      else Mid(m.st, value, NextWeight(m.w, t), m.k + BASE)
  }

  function FeedAll(m: Mid, ds: seq<int>): Mid
    decreases |ds|
  {
    if ds == [] then m else FeedAll(Feed(m, BasicToDigit(ds[0])), ds[1..])
  }

  lemma {:induction false} FeedAllConcat(m: Mid, a: seq<int>, b: seq<int>)
    ensures FeedAll(m, a + b) == FeedAll(FeedAll(m, a), b)
    decreases |a|
  {
    hide Feed, BasicToDigit;
    if a == [] {
      assert a + b == b;
    } else {
      assert (a + b)[1..] == a[1..] + b;
      FeedAllConcat(Feed(m, BasicToDigit(a[0])), a[1..], b);
    }
  }

  lemma FeedOne(m: Mid, unit: int)
    ensures FeedAll(m, [unit]) == Feed(m, BasicToDigit(unit))
  {
    hide Feed, BasicToDigit;
    assert [unit][1..] == [];
  }

  lemma {:induction false} CaughtStays(ds: seq<int>)
    ensures FeedAll(Caught, ds) == Caught
    decreases |ds|
  {
    if ds != [] {
      CaughtStays(ds[1..]);
    }
  }

  /** Reading one number whole is feeding its units one by one. */
  lemma {:induction false} FeedsNumber(ds: seq<int>, m: Mid)
    requires m.Mid?
    ensures var r := DecodeInt(ds, m.i, m.w, m.k, m.st.bias);
            if r.Reading? then FeedAll(m, ds[..r.used]) == Start(Turn(m.st, r))
            else FeedAll(m, ds).Mid? && FeedAll(m, ds).k == m.k + BASE * |ds|
    decreases |ds|
  {
    hide NextValue, NextWeight, Less, BasicToDigit, Threshold, Turn;
    if ds != [] {
      var digit, t := BasicToDigit(ds[0]), Threshold(m.k, m.st.bias);
      if Less(Fin(digit), t) {
        assert ds[..1][1..] == [];
        TurnOnValue(m.st, Reading(NextValue(m.i, digit, m.w), 1), 1);
      } else {
        var next := Feed(m, digit);
        FeedsNumber(ds[1..], next);
        var r := DecodeInt(ds[1..], next.i, next.w, next.k, next.st.bias);
        if r.Reading? {
          assert ds[..r.used + 1][1..] == ds[1..][..r.used];
          TurnOnValue(m.st, r, r.used + 1);
        }
      }
    }
  }

  /** How many units a number took does not matter behind it. */
  lemma TurnOnValue(st: Insertion, r: Reading, used: nat)
    requires r.Reading?
    ensures Turn(st, r) == Turn(st, Reading(r.value, used))
  {
    hide Endless, Insert;
  }

  /** The whole extended part, unit by unit: it ends between two numbers exactly when the
      decoder does, with the same insertions. */
  lemma {:induction false} FeedsAll(ds: seq<int>, st: Insertion)
    ensures var m := FeedAll(Start(At(st)), ds);
            && (m.Mid? ==> m.k >= BASE)
            && DecodeExtended(ds, st) == if m.Mid? && m.k == BASE then At(m.st) else Stuck
    decreases |ds|
  {
    hide Turn, Feed, DecodeInt;
    if ds != [] {
      FeedsNumber(ds, Start(At(st)));
      var r := ReadInt(ds, st);
      if r.Reading? {
        var next := Turn(st, r);
        FeedAllConcat(Start(At(st)), ds[..r.used], ds[r.used..]);
        assert ds[..r.used] + ds[r.used..] == ds;
        if next.At? {
          FeedsAll(ds[r.used..], next.st);
        } else {
          CaughtStays(ds[r.used..]);
        }
      } else {
        RanOutIsStuck(st);
      }
    }
  }

  // ------------------------------------------------------------ when the decoder ends

  /** The extended part of an encoded string: what follows the last delimiter. */
  function Extended(input: seq<int>): seq<int> {
    input[ExtendedStart(BasicLength(input))..]
  }

  function First(input: seq<int>): Insertion {
    Initial(input[..BasicLength(input)])
  }

  function LastDigit(input: seq<int>): int
    requires Extended(input) != []
  {
    BasicToDigit(Extended(input)[|Extended(input)| - 1])
  }

  /** Where the decoder stands when it comes to the last unit. */
  function BeforeLast(input: seq<int>): Mid
    requires Extended(input) != []
  {
    FeedAll(Start(At(First(input))), Extended(input)[..|Extended(input)| - 1])
  }

  /** At the last unit the decoder is inside adapt for ever, or the unit's digit does not
      end its number, which includes that the threshold is NaN, or it does and adapt then
      gets infinity to scale. */
  predicate GoesOn(input: seq<int>) {
    Extended(input) != [] &&
    var m, last := BeforeLast(input), LastDigit(input);
    m.Caught? || !Less(Fin(last), Threshold(m.k, m.st.bias)) || Endless(m.st, NextValue(m.i, last, m.w))
  }

  lemma FeedEnds(m: Mid, digit: int)
    requires m.Mid? ==> m.k >= BASE
    ensures var m' := Feed(m, digit);
            m'.Mid? && m'.k == BASE <==>
              m.Mid? && Less(Fin(digit), Threshold(m.k, m.st.bias)) && !Endless(m.st, NextValue(m.i, digit, m.w))
  {
    hide NextValue, NextWeight, Less, Threshold, Endless, Insert;
  }

  lemma {:induction false} FeedAllPositions(m: Mid, ds: seq<int>)
    requires m.Mid? ==> m.k >= BASE
    ensures FeedAll(m, ds).Mid? ==> FeedAll(m, ds).k >= BASE
    decreases |ds|
  {
    hide NextValue, NextWeight, Less, Threshold, Turn, BasicToDigit;
    if ds != [] {
      FeedAllPositions(Feed(m, BasicToDigit(ds[0])), ds[1..]);
    }
  }

  lemma LastUnitDecides(input: seq<int>)
    ensures DecodeExtended(Extended(input), First(input)).Stuck? <==> GoesOn(input)
  {
    hide Feed, DecodeExtended, BasicToDigit, Threshold, NextValue, Less, Endless;
    var ds, st := Extended(input), First(input);
    FeedsAll(ds, st);
    if ds != [] {
      var init, last := ds[..|ds| - 1], ds[|ds| - 1];
      assert ds == init + [last];
      FeedAllConcat(Start(At(st)), init, [last]);
      FeedAllPositions(Start(At(st)), init);
      FeedOne(FeedAll(Start(At(st)), init), last);
      FeedEnds(FeedAll(Start(At(st)), init), BasicToDigit(last));
    } else {
      NothingToRead(st);
    }
  }

  lemma NothingToRead(st: Insertion)
    ensures DecodeExtended([], st) == At(st)
  {
  }

  lemma DivergesIsStuck(input: seq<int>)
    ensures Decode(input) == Diverges <==> DecodeExtended(Extended(input), First(input)).Stuck?
  {
    hide DecodeExtended;
  }

  /** decode goes on for ever exactly when GoesOn says so at the last unit. */
  lemma DecodeEnds(input: seq<int>)
    ensures Decode(input) == Diverges <==> GoesOn(input)
    ensures GoesOn(input) ==> NeverEnds(Extended(input), Begin(First(input), 0))
    ensures !GoesOn(input) ==> exists st :: GetsTo(Extended(input), Begin(First(input), 0), Ended(st))
  {
    hide DecodeExtended, Decode, GoesOn, NeverEnds, GetsTo, Begin, First;
    DivergesIsStuck(input);
    LastUnitDecides(input);
    StuckMeansForever(Extended(input), First(input), 0);
    assert Extended(input)[0..] == Extended(input);
  }

  /** What a caller can tell from the last unit alone: a digit that is above every
      threshold ends nothing. */
  lemma LastDigitSettles(input: seq<int>)
    requires Extended(input) != [] && LastDigit(input) >= T_MAX
    ensures Decode(input) == Diverges
  {
    hide Decode, BeforeLast, NextValue, Endless;
    DecodeEnds(input);
  }

  /** "9" is such an input. */
  lemma NineDiverges()
    ensures Decode([0x39]) == Diverges
    ensures NeverEnds([0x39], Begin(Initial([]), 0))
  {
    hide Decode, GoesOn, NeverEnds, BeforeLast;
    var input := [0x39];
    assert BasicLength(input[..0]) == 0;
    assert BasicLength(input) == 0 && Extended(input) == input && input[..0] == [];
    LastDigitSettles(input);
    DecodeEnds(input);
  }

  // ------------------------------------------------------------ no overflow in short inputs

  /** With this many units in the extended part nothing overflows. */
  const SHORT := 150

  /** The bits of the numbers after some units: six for each. */
  predicate Bounded(m: Mid, b: nat) {
    && m.Mid? && !m.st.bias.NaN? && |m.st.out| < 0x1_0000_0000
    && m.w.Fin? && Abs(m.w.x) <= Pow2(b) && m.i.Fin? && Abs(m.i.x) <= Pow2(b + 60)
    && m.st.i.Fin? && Abs(m.st.i.x) <= 0x1_0000_0000
  }

  lemma Times64(b: nat)
    ensures Pow2(b + 6) == 64 * Pow2(b)
  {
    assert Pow2(6) == 64;
    Pow2Add(b, 6);
  }

  lemma AbsTimes(d: int, x: int, c: nat, y: nat)
    requires Abs(d) <= c && Abs(x) <= y
    ensures Abs(d * x) <= c * y
  {
    assert Abs(d * x) == Abs(d) * Abs(x);
    MulMono(Abs(d), c, Abs(x));
    assert c * Abs(x) <= c * y;
  }

  lemma BoundedValue(i: Num, digit: int, w: Num, b: nat)
    requires i.Fin? && Abs(i.x) <= Pow2(b + 60) && w.Fin? && Abs(w.x) <= Pow2(b)
    requires Abs(digit) <= BASE && b <= 6 * SHORT
    ensures var v := NextValue(i, digit, w); v.Fin? && Abs(v.x) <= Pow2(b + 66)
  {
    hide Round;
    AbsTimes(digit, w.x, BASE, Pow2(b));
    Times64(b);
    RoundAtMost(digit * w.x, b + 6);
    Pow2Mono(b + 6, b + 60);
    Times64(b + 60);
    RoundAtMost(i.x + Round(digit * w.x).x, b + 66);
  }

  lemma BoundedWeight(w: Num, t: int, b: nat)
    requires w.Fin? && Abs(w.x) <= Pow2(b) && T_MIN <= t <= T_MAX && b <= 6 * SHORT
    ensures var v := NextWeight(w, Fin(t)); v.Fin? && Abs(v.x) <= Pow2(b + 6)
  {
    AbsTimes(w.x, BASE - t, Pow2(b), BASE);
    Times64(b);
    RoundAtMost(w.x * (BASE - t), b + 6);
  }

  lemma DampedBounded(delta: Num, numPoints: nat, firstTime: bool, b: nat)
    requires numPoints >= 1 && delta.Fin? && Abs(delta.x) <= Pow2(b) && 60 <= b <= 6 * SHORT + 72
    ensures Damped(delta, numPoints, firstTime).Fin? && Abs(Damped(delta, numPoints, firstTime).x) <= Pow2(b + 6)
  {
    hide Round, FloorQuotient;
    var d := if firstTime then FloorQuotient(delta.x, DAMP) else ToInt32(delta) / 2;
    QuotientSize(delta.x, DAMP);
    QuotientSize(d, numPoints);
    Times64(b);
    ShiftSmall(delta, b);
    RoundAtMost(d + FloorQuotient(d, numPoints), b + 6);
  }

  lemma ShiftSmall(delta: Num, b: nat)
    requires b >= 60
    ensures Abs(ToInt32(delta) / 2) <= Pow2(b)
  {
    Pow2Is54();
    Pow2Mono(54, b);
  }

  lemma DeltaBounded(value: Num, from: Num, b: nat)
    requires value.Fin? && Abs(value.x) <= Pow2(b) && 60 <= b <= 6 * SHORT + 66
    requires from.Fin? && Abs(from.x) <= 0x1_0000_0000
    ensures Sub(value, from).Fin? && Abs(Sub(value, from).x) <= Pow2(b + 6)
  {
    hide Round, Pow2;
    SmallBelow(b);
    Times64(b);
    RoundAtMost(value.x - from.x, b + 6);
  }

  lemma AdaptBounded(delta: Num, numPoints: nat, firstTime: bool, b: nat)
    requires numPoints >= 1 && delta.Fin? && Abs(delta.x) <= Pow2(b) && 60 <= b <= 6 * SHORT + 72
    ensures Damped(delta, numPoints, firstTime).Fin? && !Adapt(delta, numPoints, firstTime).NaN?
  {
    hide Damped, BiasOf, Pow2;
    DampedBounded(delta, numPoints, firstTime, b);
    BiasIsNumber(Damped(delta, numPoints, firstTime), b + 6);
  }

  lemma InsertedBounded(st: Insertion, value: Num, bias: Num)
    requires value.Fin? && |st.out| < 0xFFFF_FFFF
    ensures var st' := Inserted(st, value, bias);
            |st'.out| == |st.out| + 1 && st'.bias == bias && st'.i.Fin? && Abs(st'.i.x) <= 0x1_0000_0000
  {
    hide Add, FloorDiv, Rem, Abs;
    RemSmall(value, |st.out| + 1);
  }

  /** Behind a number of bounded size the decoder stands as well as before. */
  lemma TurnBounded(st: Insertion, value: Num, b: nat)
    requires value.Fin? && Abs(value.x) <= Pow2(b) && 60 <= b <= 6 * SHORT + 66
    requires st.i.Fin? && Abs(st.i.x) <= 0x1_0000_0000 && |st.out| < 0xFFFF_FFFF
    ensures !Endless(st, value) && !Insert(st, value).bias.NaN?
    ensures var st' := Insert(st, value);
            |st'.out| == |st.out| + 1 && st'.i.Fin? && Abs(st'.i.x) <= 0x1_0000_0000
  {
    hide Sub, Damped, BiasOf, Inserted, Pow2, Abs;
    DeltaBounded(value, st.i, b);
    AdaptBounded(Sub(value, st.i), |st.out| + 1, st.i == Fin(0), b + 6);
    InsertedBounded(st, value, Adapt(Sub(value, st.i), |st.out| + 1, st.i == Fin(0)));
  }

  lemma RemSmall(a: Num, count: nat)
    requires a.Fin? && 1 <= count < 0x1_0000_0000
    ensures var i := Add(Rem(a, count), Fin(1)); i.Fin? && Abs(i.x) <= 0x1_0000_0000
  {
  }

  lemma FeedBounded(m: Mid, digit: int, b: nat)
    requires Bounded(m, b) && Abs(digit) <= BASE && b <= 6 * SHORT && |m.st.out| < 0xFFFF_FFFF
    ensures Bounded(Feed(m, digit), b + 6) && |Feed(m, digit).st.out| <= |m.st.out| + 1
    ensures !Endless(m.st, NextValue(m.i, digit, m.w))
  {
    hide NextValue, NextWeight, Endless, Insert;
    var value := NextValue(m.i, digit, m.w);
    BoundedValue(m.i, digit, m.w, b);
    BoundedWeight(m.w, Threshold(m.k, m.st.bias).x, b);
    TurnBounded(m.st, value, b + 66);
    Pow2Mono(0, b + 6);
    SmallBelow(b + 66);
  }

  lemma SmallBelow(b: nat)
    requires b >= 54
    ensures Pow2(b) >= 0x1_0000_0000
  {
    Pow2Is54();
    Pow2Mono(54, b);
  }

  lemma DigitSize(unit: int)
    requires IsUnit(unit)
    ensures Abs(BasicToDigit(unit)) <= BASE
  {
  }

  lemma {:induction false} FeedAllBounded(m: Mid, ds: seq<int>, b: nat)
    requires Bounded(m, b) && IsUnits(ds) && b + 6 * |ds| <= 6 * SHORT && |m.st.out| + |ds| < 0xFFFF_FFFF
    ensures Bounded(FeedAll(m, ds), b + 6 * |ds|) && |FeedAll(m, ds).st.out| <= |m.st.out| + |ds|
    decreases |ds|
  {
    hide Feed, BasicToDigit, Pow2, Abs;
    if ds != [] {
      DigitSize(ds[0]);
      var next := Feed(m, BasicToDigit(ds[0]));
      FeedBounded(m, BasicToDigit(ds[0]), b);
      FeedAllBounded(next, ds[1..], b + 6);
      assert b + 6 + 6 * |ds[1..]| == b + 6 * |ds|;
    }
  }

  lemma ShortBounded(input: seq<int>)
    requires IsUnits(input) && |input| <= MAX_UNITS && 1 <= |Extended(input)| <= SHORT
    ensures var m := BeforeLast(input);
            m.Mid? && !m.st.bias.NaN? && !Endless(m.st, NextValue(m.i, LastDigit(input), m.w))
  {
    hide FeedAll, Endless, NextValue, BasicToDigit, BasicLength, Pow2, Abs, Feed;
    var ds, start := Extended(input), Start(At(First(input)));
    var init := ds[..|ds| - 1];
    StartBounded(First(input));
    FeedAllBounded(start, init, 0);
    DigitSize(ds[|ds| - 1]);
    FeedBounded(FeedAll(start, init), LastDigit(input), 6 * |init|);
  }

  /** Up to that length the last unit decides alone, by an honest threshold; in particular
      a digit below every threshold then ends. */
  lemma ShortEnds(input: seq<int>)
    requires IsUnits(input) && |input| <= MAX_UNITS && 1 <= |Extended(input)| <= SHORT
    ensures var m := BeforeLast(input);
            && m.Mid? && !m.st.bias.NaN?
            && (Decode(input) == Diverges <==> LastDigit(input) >= ThresholdAt(m.k, m.st.bias))
    ensures LastDigit(input) < T_MIN ==> Decode(input) != Diverges
  {
    hide Decode, Endless, NextValue, Threshold, Extended, BeforeLast, LastDigit;
    ShortBounded(input);
    DecodeEnds(input);
  }

  lemma StartBounded(st: Insertion)
    requires st == Initial(st.out) && |st.out| <= MAX_UNITS
    ensures Bounded(Start(At(st)), 0)
  {
    Pow2Mono(0, 60);
  }

  // ------------------------------------------------------------ overflowing inputs

  /** n times "9", the digit 35. */
  function Nines(n: nat): (ds: seq<int>)
    ensures |ds| == n && forall j :: 0 <= j < n ==> ds[j] == 0x39
  {
    if n == 0 then [] else Nines(n - 1) + [0x39]
  }

  predicate Huge(w: Num, e: nat) {
    w == PosInf || (w.Fin? && w.x >= Pow2(e) && e < TOP)
  }

  predicate NotNegative(i: Num) {
    i == PosInf || (i.Fin? && i.x >= 0)
  }

  lemma RoundNotNegative(x: int)
    requires x >= 0
    ensures NotNegative(Round(x))
  {
  }

  lemma ValueGrows(i: Num, digit: int, w: Num, e: nat)
    requires NotNegative(i) && digit >= 1 && Huge(w, e)
    ensures NotNegative(NextValue(i, digit, w)) && (w == PosInf ==> NextValue(i, digit, w) == PosInf)
  {
    hide Round, Pow2;
    if w.Fin? {
      Pow2Mono(0, e);
      assert Pow2(0) >= 1;
      assert digit * w.x >= 0;
      RoundNotNegative(digit * w.x);
      if i.Fin? && Round(digit * w.x).Fin? {
        RoundNotNegative(i.x + Round(digit * w.x).x);
      }
    }
  }

  lemma WeightGrows(w: Num, t: int, e: nat)
    requires Huge(w, e) && T_MIN <= t <= T_MAX
    ensures Huge(NextWeight(w, Fin(t)), e + 3)
  {
    hide Round, Pow2;
    assert Sub(Fin(BASE), Fin(t)) == Fin(BASE - t) by {
      RoundSmall(BASE - t);
    }
    if w.Fin? {
      Times8(e);
      MulMono(8, BASE - t, w.x);
      RoundAtLeast(w.x * (BASE - t), e + 3);
    }
  }

  lemma Times8(e: nat)
    ensures Pow2(e + 3) == 8 * Pow2(e)
  {
    assert Pow2(3) == 8;
    Pow2Add(e, 3);
  }

  /** Every "9" goes on with the first number, at a weight at least eight times as large. */
  lemma {:induction false} NinesFeed(n: nat)
    ensures var m := FeedAll(Start(At(Initial([]))), Nines(n));
            m.Mid? && m.st == Initial([]) && Huge(m.w, 3 * n) && NotNegative(m.i) && m.k == BASE * (n + 1)
  {
    hide NextValue, NextWeight, Huge, Turn;
    var start := Start(At(Initial([])));
    if n == 0 {
      HugeOne();
    } else {
      NinesFeed(n - 1);
      var m := FeedAll(start, Nines(n - 1));
      FeedAllConcat(start, Nines(n - 1), [0x39]);
      FeedOne(m, 0x39);
      ValueGrows(m.i, 35, m.w, 3 * (n - 1));
      WeightGrows(m.w, Threshold(m.k, m.st.bias).x, 3 * (n - 1));
    }
  }

  lemma HugeOne()
    ensures Huge(Fin(1), 0)
  {
  }

  lemma HugeIsInfinite(w: Num, e: nat)
    requires Huge(w, e) && e >= TOP
    ensures w == PosInf
  {
  }

  lemma NoDelimiter(input: seq<int>)
    requires forall j :: 0 <= j < |input| ==> IsDigitChar(input[j])
    ensures BasicLength(input) == 0 && Extended(input) == input && First(input) == Initial([])
  {
    hide BasicLength;
    BasicLengthOfEncoded([], input);
    assert input[0..] == input && input[..0] == [];
  }

  lemma NinesExtended(n: nat, tail: seq<int>)
    requires forall j :: 0 <= j < |tail| ==> tail[j] == 0x61 || tail[j] == 0x62
    ensures BasicLength(Nines(n) + tail) == 0 && Extended(Nines(n) + tail) == Nines(n) + tail
    ensures First(Nines(n) + tail) == Initial([])
  {
    hide Nines, BasicLength, Extended, First;
    NoDelimiter(Nines(n) + tail);
  }

  /** adapt on an infinite first delta. */
  lemma InfiniteDelta(st: Insertion, i: Num)
    requires st.i == Fin(0) && i == PosInf
    ensures Endless(st, i)
  {
    hide Round, FloorQuotient;
  }

  /** adapt on a first delta that is no number. */
  lemma NoNumber(st: Insertion, i: Num)
    requires st.i == Fin(0) && i == NaN
    ensures !Endless(st, i) && Insert(st, i).bias.NaN?
  {
    hide Round, FloorQuotient, InsertAt, Rem;
  }

  lemma InitialFields()
    ensures Initial([]).bias == Fin(INITIAL_BIAS) && Initial([]).i == Fin(0)
  {
  }

  lemma NinesThenB(n: nat)
    requires 3 * n >= TOP
    ensures Decode(Nines(n) + [0x62]) == Diverges
  {
    hide Decode, FeedAll, Endless, NextValue, Extended, First, Initial, Threshold;
    var input := Nines(n) + [0x62];
    NinesExtended(n, [0x62]);
    NinesFeed(n);
    assert input[..|input| - 1] == Nines(n);
    var m := BeforeLast(input);
    HugeIsInfinite(m.w, 3 * n);
    ValueGrows(m.i, 1, m.w, 3 * n);
    assert LastDigit(input) == 1;
    InitialFields();
    InfiniteDelta(Initial([]), PosInf);
    DecodeEnds(input);
  }

  lemma ZeroTimesInfinity(i: Num)
    ensures NextValue(i, 0, PosInf) == NaN
  {
  }

  lemma NinesThenAA(n: nat)
    requires 3 * n >= TOP
    ensures Decode(Nines(n) + [0x61, 0x61]) == Diverges
  {
    hide Decode, FeedAll, Endless, NextValue, Extended, First, Initial, Insert, Nines, NextWeight;
    var input := Nines(n) + [0x61, 0x61];
    NinesExtended(n, [0x61, 0x61]);
    NinesFeed(n);
    assert input[..|input| - 1] == Nines(n) + [0x61];
    FeedAllConcat(Start(At(Initial([]))), Nines(n), [0x61]);
    var m := FeedAll(Start(At(Initial([]))), Nines(n));
    FeedOne(m, 0x61);
    HugeIsInfinite(m.w, 3 * n);
    ZeroTimesInfinity(m.i);
    InitialFields();
    NoNumber(Initial([]), NaN);
    assert LastDigit(input) == 0;
    DecodeEnds(input);
  }

  /** Inputs that overflow and go on for ever although their last digit is 1, or 0: the
      weight is infinite by then. In the first adapt never leaves its loop; in the second the
      bias is NaN, and so is every threshold. */
  lemma OverflowDiverges(n: nat)
    requires n >= 342
    ensures Decode(Nines(n) + [0x62]) == Diverges && Decode(Nines(n) + [0x61, 0x61]) == Diverges
  {
    hide Decode;
    NinesThenB(n);
    NinesThenAA(n);
  }

  // ------------------------------------------------------------ a rounding input

  /** What units denote when no number is rounded and every weight is ten times the last. */
  function ExactValue(ds: seq<int>, w: int): int
    decreases |ds|
  {
    if ds == [] then 0 else BasicToDigit(ds[0]) * w + ExactValue(ds[1..], 10 * w)
  }

  function Pow10(n: nat): (p: nat)
    ensures p >= 1
  {
    if n == 0 then 1 else 10 * Pow10(n - 1)
  }

  predicate AboveThresholds(ds: seq<int>) {
    forall j :: 0 <= j < |ds| ==> BasicToDigit(ds[j]) >= T_MAX
  }

  lemma {:induction false} ExactGrows(ds: seq<int>, w: int)
    requires AboveThresholds(ds) && w >= 1
    ensures ExactValue(ds, w) >= 0
    decreases |ds|
  {
    hide BasicToDigit;
    if ds != [] {
      ExactGrows(ds[1..], 10 * w);
      MulMono(0, BasicToDigit(ds[0]), w);
    }
  }

  lemma ReadsDigit(st: Insertion, i: int, w: int, k: int, d: int)
    requires st.bias == Fin(0) && k >= BASE && d >= T_MAX && i >= 0 && w >= 1
    requires i + d * w < TWO_53 && 10 * w < TWO_53
    ensures Feed(Mid(st, Fin(i), Fin(w), k), d) == Mid(st, Fin(i + d * w), Fin(10 * w), k + BASE)
  {
    hide NextValue, NextWeight, Turn;
    MulMono(0, d, w);
    ValueExact(i, d, w);
    WeightExact(w, T_MAX);
  }

  /** Below 2^53 reading is exact. */
  lemma {:induction false} ReadsExactly(st: Insertion, i: int, w: int, k: int, ds: seq<int>)
    requires st.bias == Fin(0) && k >= BASE && AboveThresholds(ds) && i >= 0 && w >= 1
    requires i + ExactValue(ds, w) < TWO_53 && w * Pow10(|ds|) < TWO_53
    ensures FeedAll(Mid(st, Fin(i), Fin(w), k), ds)
            == Mid(st, Fin(i + ExactValue(ds, w)), Fin(w * Pow10(|ds|)), k + BASE * |ds|)
    decreases |ds|
  {
    hide Feed, BasicToDigit;
    if ds != [] {
      var d := BasicToDigit(ds[0]);
      ExactGrows(ds[1..], 10 * w);
      assert w * Pow10(|ds|) == (10 * w) * Pow10(|ds| - 1);
      MulMono(1, Pow10(|ds| - 1), 10 * w);
      ReadsDigit(st, i, w, k, d);
      MulMono(0, d, w);
      ReadsExactly(st, i + d * w, 10 * w, k + BASE, ds[1..]);
    }
  }

  lemma {:induction false} ExactConcat(a: seq<int>, b: seq<int>, w: int)
    ensures ExactValue(a + b, w) == ExactValue(a, w) + ExactValue(b, w * Pow10(|a|))
    decreases |a|
  {
    hide BasicToDigit;
    if a == [] {
      assert a + b == b;
    } else {
      assert (a + b)[1..] == a[1..] + b;
      ExactConcat(a[1..], b, 10 * w);
      assert (10 * w) * Pow10(|a| - 1) == w * Pow10(|a|);
    }
  }

  lemma ExactFive(ds: seq<int>, w: int)
    requires |ds| == 5
    ensures ExactValue(ds, w)
            == BasicToDigit(ds[0]) * w + BasicToDigit(ds[1]) * (10 * w) + BasicToDigit(ds[2]) * (100 * w)
               + BasicToDigit(ds[3]) * (1000 * w) + BasicToDigit(ds[4]) * (10000 * w)
  {
    hide BasicToDigit;
    assert ExactValue(ds[5..], 100000 * w) == 0;
    assert ExactValue(ds[4..], 10000 * w) == BasicToDigit(ds[4]) * (10000 * w) by {
      assert ds[4..][1..] == ds[5..];
    }
    assert ds[3..][1..] == ds[4..] && ds[2..][1..] == ds[3..] && ds[1..][1..] == ds[2..];
    assert ExactValue(ds[3..], 1000 * w)
        == BasicToDigit(ds[3]) * (1000 * w) + ExactValue(ds[4..], 10000 * w);
    assert ExactValue(ds[2..], 100 * w) == BasicToDigit(ds[2]) * (100 * w) + ExactValue(ds[3..], 1000 * w);
  }

  /** "a113467616300000qb". */
  const DIGITS := [0x31, 0x31, 0x33, 0x34, 0x36] + [0x37, 0x36, 0x31, 0x36, 0x33] + [0x30, 0x30, 0x30, 0x30, 0x30]
  const ROUNDED := [0x61] + DIGITS + [0x71, 0x62]

  lemma DigitsExactly()
    ensures AboveThresholds(DIGITS) && ExactValue(DIGITS, 1) == 2_888_892_505_653_197
  {
    hide Pow10, ExactValue;
    var a, b, c := [0x31, 0x31, 0x33, 0x34, 0x36], [0x37, 0x36, 0x31, 0x36, 0x33], [0x30, 0x30, 0x30, 0x30, 0x30];
    Powers();
    ExactConcat(a + b, c, 1);
    ExactConcat(a, b, 1);
    ExactFive(a, 1);
    ExactFive(b, 100_000);
    ExactFive(c, 10_000_000_000);
  }

  lemma Powers()
    ensures Pow10(5) == 100_000 && Pow10(10) == 10_000_000_000 && Pow10(15) == 1_000_000_000_000_000
  {
  }

  lemma RoundTwos(x: int, q: int)
    requires x == 2 * q && TWO_53 < x < 2 * TWO_53
    ensures Round(x) == Fin(x)
  {
    assert RoundLarge(x, 1) == 2 * Nearest(x, 2);
    assert x / 2 == q && x % 2 == 0;
    SizedBelow(x);
  }

  lemma SizedBelow(x: nat)
    requires x < 4 * TWO_53
    ensures Sized(x, true) == Fin(x)
  {
    Pow2Is54();
    Pow2Add(54, 1);
    SizedAtMost(x, true, 55);
  }

  lemma RoundFours(x: int, q: int, r: int)
    requires x == 4 * q + r && 2 <= r < 4 && q % 2 == 1 && 2 * TWO_53 < x < 4 * TWO_53 - 4
    ensures Round(x) == Fin(4 * q + 4)
  {
    assert RoundLarge(x, 1) == 2 * RoundLarge(x, 2) == 4 * Nearest(x, 4);
    assert x / 4 == q && x % 4 == r;
    SizedBelow(4 * q + 4);
  }

  lemma AdaptZero(delta: nat)
    requires delta == 0
    ensures Damped(Fin(delta), 1, true) == Fin(delta) && BiasOf(Fin(delta)) == Fin(delta)
  {
    hide Add, FloorDiv, ToInt32, BiasOf;
    var d := Halved(delta, true);
    Spread(d, 1);
    BiasExact(delta);
  }

  /** The first number of the input is zero. */
  lemma FirstNumber(st: Insertion)
    requires st == Initial([])
    ensures !Endless(st, Fin(0)) && Insert(st, Fin(0)) == Insertion([128], Fin(128), Fin(1), Fin(0))
  {
    hide Sub, Damped, BiasOf, Inserted;
    SubExact(0, 0);
    AdaptZero(0);
    InsertExact(st, 128, 0, 0, Fin(0));
    assert InsertAt([], 0, 128) == [128];
  }

  /** adapt on a delta that its shift takes to be -48. */
  lemma BiasAt48(delta: Num)
    requires delta.Fin? && ToInt32(delta) == -48
    ensures Damped(delta, 2, false) == Fin(-36) && BiasOf(Fin(-36)) == Fin(-648)
  {
    hide Round, CeilRatio, FloorRatio;
    CeilExact(24, 2);
    CeilExact(1296, 2);
    RoundSmall(-36);
    RoundSmall(-1296);
    RoundSmall(2);
    RoundSmall(-648);
  }

  /** And on one that it takes to be -51. */
  lemma BiasAt51(delta: Num)
    requires delta.Fin? && ToInt32(delta) == -51
    ensures Damped(delta, 2, false) == Fin(-39) && BiasOf(Fin(-39)) == Fin(1404)
  {
    hide Round, CeilRatio, FloorRatio;
    CeilExact(26, 2);
    FloorExact(1404, 1);
    RoundSmall(-39);
    RoundSmall(-1404);
    RoundSmall(-1);
    RoundSmall(1404);
  }

  const EXACT := 18_888_892_505_653_198

  lemma ValueRounds(x: int)
    requires x == EXACT
    ensures NextValue(Fin(2_888_892_505_653_198), 16, Fin(1_000_000_000_000_000)) == Fin(x + 2)
    ensures Sub(Fin(x + 2), Fin(1)) == Fin(x + 2)
  {
    hide Round;
    RoundTwos(16_000_000_000_000_000, 8_000_000_000_000_000);
    RoundFours(x, 4_722_223_126_413_299, 2);
    RoundFours(x + 1, 4_722_223_126_413_299, 3);
  }

  lemma SecondNumber(st: Insertion, value: Num)
    requires st == Insertion([128], Fin(128), Fin(1), Fin(0)) && value == Fin(EXACT + 2)
    ensures !Endless(st, value)
    ensures var st' := Insert(st, value);
            |st'.out| == 2 && st'.i == Fin(1) && st'.bias == Fin(-648)
  {
    hide Damped, BiasOf, NextValue, FloorDiv;
    ValueRounds(EXACT);
    BiasAt48(value);
    assert Add(Rem(value, 2), Fin(1)) == Fin(1);
  }

  lemma ThirdNumber(st: Insertion)
    requires st.i == Fin(1)
    ensures NextValue(Fin(1), 1, Fin(1)) == Fin(2) && !Endless(st, Fin(2))
  {
    hide Damped, Sub, NextValue, Biased;
    ValueExact(1, 1, 1);
    SubExact(2, 1);
    AdaptEnds(1, |st.out| + 1, false);
  }

  lemma RoundedParts()
    ensures BasicLength(ROUNDED) == 0 && Extended(ROUNDED) == ROUNDED && First(ROUNDED) == Initial([])
    ensures ROUNDED[..|ROUNDED| - 1] == [0x61] + DIGITS + [0x71] && LastDigit(ROUNDED) == 1
  {
    hide BasicLength, Extended, First;
    NoDelimiter(ROUNDED);
  }

  lemma FeedDone(m: Mid, digit: int, value: Num)
    requires m.Mid? && Less(Fin(digit), Threshold(m.k, m.st.bias)) && value == NextValue(m.i, digit, m.w)
    requires !Endless(m.st, value)
    ensures Feed(m, digit) == Start(At(Insert(m.st, value)))
  {
    hide NextValue, Endless, Insert, Threshold;
  }

  lemma BeforeRounded() returns (st: Insertion)
    ensures FeedAll(Start(At(Initial([]))), [0x61] + DIGITS + [0x71]) == Start(At(st))
    ensures |st.out| == 2 && st.i == Fin(1) && st.bias == Fin(-648)
  {
    hide Feed, NextValue, Endless, Insert, FeedAll, ExactValue, Pow10;
    var start, one := Start(At(Initial([]))), Insertion([128], Fin(128), Fin(1), Fin(0));
    FeedAllConcat(start, [0x61] + DIGITS, [0x71]);
    FeedAllConcat(start, [0x61], DIGITS);
    FeedOne(start, 0x61);
    FirstNumber(Initial([]));
    ZeroValue();
    FeedDone(start, 0, Fin(0));
    DigitsExactly();
    Powers();
    ReadsExactly(one, 1, 1, BASE, DIGITS);
    var m := FeedAll(Start(At(one)), DIGITS);
    FeedOne(m, 0x71);
    ValueRounds(EXACT);
    SecondNumber(one, Fin(EXACT + 2));
    FeedDone(m, 16, Fin(EXACT + 2));
    st := Insert(one, Fin(EXACT + 2));
  }

  lemma ZeroValue()
    ensures NextValue(Fin(0), 0, Fin(1)) == Fin(0)
  {
  }

  /** With the bias that adapt gives for delta, the last unit would not end its number. */
  predicate WouldGoOn(delta: Num) {
    && Damped(delta, 2, false) != PosInf
    && !Less(Fin(LastDigit(ROUNDED)), Threshold(BASE, Adapt(delta, 2, false)))
  }

  lemma ExactWouldGoOn(delta: Num)
    requires delta == Fin(EXACT - 1) && LastDigit(ROUNDED) == 1
    ensures WouldGoOn(delta)
  {
    hide Damped, BiasOf, LastDigit;
    BiasAt51(delta);
  }

  lemma RoundedEnds()
    ensures Decode(ROUNDED) != Diverges && LastDigit(ROUNDED) == 1
  {
    hide Decode, FeedAll, Endless, NextValue, LastDigit, Extended, First;
    RoundedParts();
    var st := BeforeRounded();
    ThirdNumber(st);
    DecodeEnds(ROUNDED);
  }

  /** An input of 18 units on which rounding decides. The units 1 to 16 denote a number that
      is no double; the bias that adapt would give for it would keep the last unit from
      ending. The double next to it gives another bias, and the decoder ends. */
  lemma RoundingDecides(delta: Num)
    requires delta == Fin(ExactValue(DIGITS + [0x71], 1))
    ensures WouldGoOn(delta) && Decode(ROUNDED) != Diverges
  {
    hide Decode, ExactValue, Pow10, WouldGoOn, LastDigit;
    RoundedEnds();
    DigitsExactly();
    Powers();
    ExactConcat(DIGITS, [0x71], 1);
    ExactOne(0x71, 1_000_000_000_000_000);
    ExactWouldGoOn(delta);
  }

  lemma ExactOne(unit: int, w: int)
    ensures ExactValue([unit], w) == BasicToDigit(unit) * w
  {
    assert [unit][1..] == [];
  }
}
