/** AES Key Wrap (RFC 3394) as compat/web/subtle2.go implements it, over an
    arbitrary permutation of the 16-byte blocks. A block is handled as its two
    8-byte halves, which is how the wrapping loops fill and read it. */
module KeyWrap {
  import opened ByteNumbers

  type Word = w: Bytes | |w| == 8 witness [0, 0, 0, 0, 0, 0, 0, 0]

  /** A block cipher under a fixed key. */
  datatype Block = Block(encrypt: (Word, Word) -> (Word, Word), decrypt: (Word, Word) -> (Word, Word))

  ghost predicate IsPermutation(b: Block) {
    && (forall x: Word, y: Word :: b.decrypt(b.encrypt(x, y).0, b.encrypt(x, y).1) == (x, y))
    && (forall x: Word, y: Word :: b.encrypt(b.decrypt(x, y).0, b.decrypt(x, y).1) == (x, y))
  }

  datatype Result = Ok(bytes: Bytes) | BadLength | IntegrityCheckFailed

  const IV: Word := [0xA6, 0xA6, 0xA6, 0xA6, 0xA6, 0xA6, 0xA6, 0xA6]

  // ------------------------------------------------------------ bytes and words

  function Words(bytes: Bytes): (ws: seq<Word>)
    requires |bytes| % 8 == 0
    ensures |ws| == |bytes| / 8
  {
    if bytes == [] then [] else [bytes[..8]] + Words(bytes[8..])
  }

  function Concat(ws: seq<Word>): (bytes: Bytes)
    ensures |bytes| == 8 * |ws|
  {
    if ws == [] then [] else ws[0] + Concat(ws[1..])
  }

  lemma {:induction false} WordsConcat(ws: seq<Word>)
    ensures Words(Concat(ws)) == ws
  {
    if ws != [] {
      var bytes := Concat(ws);
      WordsConcat(ws[1..]);
      assert bytes[..8] == ws[0] && bytes[8..] == Concat(ws[1..]);
    }
  }

  lemma {:induction false} ConcatWords(bytes: Bytes)
    requires |bytes| % 8 == 0
    ensures Concat(Words(bytes)) == bytes
  {
    if bytes != [] {
      ConcatWords(bytes[8..]);
      assert Words(bytes)[1..] == Words(bytes[8..]);
      assert bytes[..8] + bytes[8..] == bytes;
    }
  }

  // ------------------------------------------------------------ the steps, on values

  function Pow256(k: nat): (p: nat)
    ensures p > 0
  {
    if k == 0 then 1 else 256 * Pow256(k - 1)
  }

  /** `byte(t >> (8 * k))`. */
  function ByteOf(t: nat, k: nat): bv8 {
    ((t / Pow256(k)) % 256) as bv8
  }

  /** The 64-bit counter t, big-endian. */
  function CounterWord(t: nat): Word {
    seq(8, p requires 0 <= p < 8 => ByteOf(t, 7 - p))
  }

  function Xor(x: Word, y: Word): Word {
    seq(8, p requires 0 <= p < 8 => x[p] ^ y[p])
  }

  lemma XorCancels(x: bv8, y: bv8)
    ensures (x ^ y) ^ y == x
  {
  }

  lemma XorTwice(x: Word, y: Word)
    ensures Xor(Xor(x, y), y) == x
  {
    forall p | 0 <= p < 8
      ensures Xor(Xor(x, y), y)[p] == x[p]
    {
      XorCancels(x[p], y[p]);
    }
  }

  /** The register A and the register file R. */
  datatype Regs = Regs(a: Word, r: seq<Word>)

  /** One step of wrapping, on word i with the encoded round counter t. */
  function WrapStep(b: Block, s: Regs, i: nat, t: Word): (s': Regs)
    requires i < |s.r|
    ensures |s'.r| == |s.r|
  {
    var buf := b.encrypt(s.a, s.r[i]);
    Regs(Xor(buf.0, t), s.r[i := buf.1])
  }

  function UnwrapStep(b: Block, s: Regs, i: nat, t: Word): (s': Regs)
    requires i < |s.r|
    ensures |s'.r| == |s.r|
  {
    var buf := b.decrypt(Xor(s.a, t), s.r[i]);
    Regs(buf.0, s.r[i := buf.1])
  }

  lemma StepsInvert(b: Block, s: Regs, i: nat, t: Word)
    requires IsPermutation(b) && i < |s.r|
    ensures UnwrapStep(b, WrapStep(b, s, i, t), i, t) == s
    ensures WrapStep(b, UnwrapStep(b, s, i, t), i, t) == s
  {
    XorTwice(b.encrypt(s.a, s.r[i]).0, t);
    XorTwice(s.a, t);
  }

  /** The encoded round counter of each step, by round and word. */
  type Schedule = (nat, nat) -> Word

  /** The schedule of RFC 3394 for n words. */
  function Counters(n: nat): Schedule {
    (j, i) => CounterWord(n * j + i + 1)
  }

  /** j full rounds over the words and i further steps of wrapping. */
  function Wrapped(b: Block, t: Schedule, s: Regs, j: nat, i: nat): (s': Regs)
    requires i <= |s.r|
    ensures |s'.r| == |s.r|
    decreases j, i
  {
    if i > 0 then WrapStep(b, Wrapped(b, t, s, j, i - 1), i - 1, t(j, i - 1))
    else if j > 0 then Wrapped(b, t, s, j - 1, |s.r|)
    else s
  }

  /** Undoing those steps, the last one first. */
  function Unwrapped(b: Block, t: Schedule, s: Regs, j: nat, i: nat): (s': Regs)
    requires i <= |s.r|
    ensures |s'.r| == |s.r|
    decreases j, i
  {
    if i > 0 then Unwrapped(b, t, UnwrapStep(b, s, i - 1, t(j, i - 1)), j, i - 1)
    else if j > 0 then Unwrapped(b, t, s, j - 1, |s.r|)
    else s
  }

  /** Unwrapping undoes wrapping, and wrapping undoes unwrapping. */
  lemma {:induction false} UnwrappedWrapped(b: Block, t: Schedule, s: Regs, j: nat, i: nat)
    requires IsPermutation(b) && i <= |s.r|
    ensures Unwrapped(b, t, Wrapped(b, t, s, j, i), j, i) == s
    decreases j, i
  {
    if i > 0 {
      StepsInvert(b, Wrapped(b, t, s, j, i - 1), i - 1, t(j, i - 1));
      UnwrappedWrapped(b, t, s, j, i - 1);
    } else if j > 0 {
      UnwrappedWrapped(b, t, s, j - 1, |s.r|);
    }
  }

  lemma {:induction false} WrappedUnwrapped(b: Block, t: Schedule, s: Regs, j: nat, i: nat)
    requires IsPermutation(b) && i <= |s.r|
    ensures Wrapped(b, t, Unwrapped(b, t, s, j, i), j, i) == s
    decreases j, i
  {
    if i > 0 {
      StepsInvert(b, s, i - 1, t(j, i - 1));
      WrappedUnwrapped(b, t, UnwrapStep(b, s, i - 1, t(j, i - 1)), j, i - 1);
    } else if j > 0 {
      WrappedUnwrapped(b, t, s, j - 1, |s.r|);
    }
  }

  // ------------------------------------------------------------ wrap and unwrap

  function Wrap(b: Block, plain: Bytes): Result {
    if |plain| < 16 || |plain| % 8 != 0 then BadLength
    else
      var s := Wrapped(b, Counters(|plain| / 8), Regs(IV, Words(plain)), 6, 0);
      Ok(s.a + Concat(s.r))
  }

  function Unwrap(b: Block, ct: Bytes): Result {
    if |ct| < 24 || |ct| % 8 != 0 then BadLength
    else
      var s := Unwrapped(b, Counters(|ct| / 8 - 1), Regs(ct[..8], Words(ct[8..])), 6, 0);
      if s.a == IV then Ok(Concat(s.r)) else IntegrityCheckFailed
  }

  lemma WrapThenUnwrap(b: Block, p: Bytes, c: Bytes)
    requires IsPermutation(b) && Wrap(b, p) == Ok(c)
    ensures Unwrap(b, c) == Ok(p)
  {
    hide Words, Concat, IsPermutation;
    var t := Counters(|p| / 8);
    var s := Wrapped(b, t, Regs(IV, Words(p)), 6, 0);
    UnwrappedWrapped(b, t, Regs(IV, Words(p)), 6, 0);
    WordsConcat(s.r);
    ConcatWords(p);
    assert c[..8] == s.a && c[8..] == Concat(s.r);
  }

  lemma UnwrapThenWrap(b: Block, p: Bytes, c: Bytes)
    requires IsPermutation(b) && Unwrap(b, c) == Ok(p)
    ensures Wrap(b, p) == Ok(c)
  {
    hide Words, Concat, IsPermutation;
    var t := Counters(|c| / 8 - 1);
    var s := Unwrapped(b, t, Regs(c[..8], Words(c[8..])), 6, 0);
    WrappedUnwrapped(b, t, Regs(c[..8], Words(c[8..])), 6, 0);
    WordsConcat(s.r);
    ConcatWords(c[8..]);
    assert c[..8] + c[8..] == c;
  }

  /** For every permutation and every pair of byte strings: unwrapping c yields p
      exactly when wrapping p yields c. The integrity check accepts exactly the
      image of wrap. */
  lemma UnwrapInvertsWrap(b: Block, p: Bytes, c: Bytes)
    requires IsPermutation(b)
    ensures Unwrap(b, c) == Ok(p) <==> Wrap(b, p) == Ok(c)
  {
    if Wrap(b, p) == Ok(c) {
      WrapThenUnwrap(b, p, c);
    }
    if Unwrap(b, c) == Ok(p) {
      UnwrapThenWrap(b, p, c);
    }
  }

  /** Every plaintext of the accepted sizes comes back. */
  lemma RoundTrip(b: Block, p: Bytes)
    requires IsPermutation(b) && |p| >= 16 && |p| % 8 == 0
    ensures Wrap(b, p).Ok? && Unwrap(b, Wrap(b, p).bytes) == Ok(p)
  {
    UnwrapInvertsWrap(b, p, Wrap(b, p).bytes);
  }

  // ------------------------------------------------------------ the standard's shifting form

  /** Register A and the bytes of the registers R[1] to R[n] after t steps of the form of
      section 2.2.1 of RFC 3394 that shifts the registers: the first one is encrypted behind
      A, the high half becomes A with the 64-bit number t xored in, the others move down and
      the low half becomes the last. */
  function Shifted(b: Block, plain: Bytes, t: nat): (s: (Word, Bytes))
    requires |plain| >= 8
    ensures |s.1| == |plain|
  {
    if t == 0 then ([0xA6, 0xA6, 0xA6, 0xA6, 0xA6, 0xA6, 0xA6, 0xA6], plain)
    else
      var (a, r) := Shifted(b, plain, t - 1);
      var (high, low) := b.encrypt(a, r[..8]);
      var counter := Octets(t, 8);
      ([high[0] ^ counter[0], high[1] ^ counter[1], high[2] ^ counter[2], high[3] ^ counter[3],
        high[4] ^ counter[4], high[5] ^ counter[5], high[6] ^ counter[6], high[7] ^ counter[7]], r[8..] + low)
  }

  /** Six times as many steps as there are words, and A in front. */
  function ShiftForm(b: Block, plain: Bytes): Bytes
    requires |plain| >= 8
  {
    var s := Shifted(b, plain, 6 * (|plain| / 8));
    s.0 + s.1
  }

  lemma {:induction false} DivideMore(t: nat, k: nat)
    ensures t / 256 / Pow256(k) == t / Pow256(k + 1)
  {
    var p := Pow256(k);
    var q, r := t / 256 / p, t / 256 % p;
    assert t == 256 * (t / 256) + t % 256 && t / 256 == q * p + r;
    assert t == q * (256 * p) + (256 * r + t % 256) by {
      assert 256 * (q * p) == q * (256 * p);
    }
    QuotientIs(t, 256 * p, q, 256 * r + t % 256);
  }

  lemma QuotientIs(x: nat, m: nat, q: nat, r: nat)
    requires r < m && x == q * m + r
    ensures x / m == q
  {
    var d := x / m - q;
    assert d * m == x / m * m - q * m;
    assert d >= 1 ==> d * m >= m;
    assert d <= -1 ==> d * m + m <= 0;
  }

  lemma {:induction false} OctetAt(t: nat, n: nat, p: nat)
    requires p < n
    ensures Octets(t, n)[p] == ByteOf(t, n - 1 - p)
    decreases n
  {
    if p < n - 1 {
      OctetAt(t / 256, n - 1, p);
      DivideMore(t, n - 2 - p);
    }
  }

  /** The counter's bytes are those of the number, below 2^64. */
  lemma CounterIsNumber(t: nat)
    ensures CounterWord(t) == Octets(t, 8)
    ensures t < 0x1_0000_0000_0000_0000 ==> BigEndian(CounterWord(t)) == t
  {
    forall p | 0 <= p < 8
      ensures CounterWord(t)[p] == Octets(t, 8)[p]
    {
      OctetAt(t, 8, p);
    }
    assert Power256(8) == 0x1_0000_0000_0000_0000;
    if t < 0x1_0000_0000_0000_0000 {
      BigEndianOctets(t, 8);
    }
  }

  /** The registers as they stand behind i steps of a round: those still to come first. */
  function Rotated(r: seq<Word>, i: nat): seq<Word>
    requires i <= |r|
  {
    r[i..] + r[..i]
  }

  lemma {:induction false} ConcatAppend(ws: seq<Word>, w: Word)
    ensures Concat(ws + [w]) == Concat(ws) + w
  {
    if ws == [] {
      assert ws + [w] == [w] && [w][1..] == [];
    } else {
      ConcatAppend(ws[1..], w);
      assert (ws + [w])[1..] == ws[1..] + [w];
    }
  }

  lemma ShiftOne(r: seq<Word>, i: nat, w: Word)
    requires i < |r|
    ensures Concat(Rotated(r, i))[..8] == r[i]
    ensures Concat(Rotated(r[i := w], i + 1)) == Concat(Rotated(r, i))[8..] + w
  {
    var q := Rotated(r, i);
    assert q[0] == r[i];
    assert Rotated(r[i := w], i + 1) == q[1..] + [w];
    ConcatAppend(q[1..], w);
  }

  /** The state s behind t steps, of which i are in this round. */
  predicate Tracks(b: Block, plain: Bytes, t: nat, s: Regs, i: nat)
    requires |plain| >= 8 && i <= |s.r|
  {
    Shifted(b, plain, t) == (s.a, Concat(Rotated(s.r, i)))
  }

  lemma TracksStep(b: Block, plain: Bytes, t: nat, s: Regs, i: nat)
    requires |plain| >= 8 && i < |s.r| && Tracks(b, plain, t, s, i)
    ensures Tracks(b, plain, t + 1, WrapStep(b, s, i, CounterWord(t + 1)), i + 1)
  {
    hide CounterWord, Octets, Concat, Rotated;
    CounterIsNumber(t + 1);
    ShiftOne(s.r, i, b.encrypt(s.a, s.r[i]).1);
    var next := Shifted(b, plain, t + 1);
    assert next.0 == Xor(b.encrypt(s.a, s.r[i]).0, Octets(t + 1, 8));
  }

  lemma TracksRound(b: Block, plain: Bytes, t: nat, s: Regs)
    requires |plain| >= 8 && Tracks(b, plain, t, s, |s.r|)
    ensures Tracks(b, plain, t, s, 0)
  {
    assert Rotated(s.r, |s.r|) == Rotated(s.r, 0);
  }

  lemma TracksStart(b: Block, plain: Bytes)
    requires |plain| >= 8 && |plain| % 8 == 0
    ensures Tracks(b, plain, 0, Regs(IV, Words(plain)), 0)
  {
    ConcatWords(plain);
    assert Rotated(Words(plain), 0) == Words(plain);
  }

  lemma {:induction false} WrappedShifts(b: Block, plain: Bytes, j: nat, i: nat)
    requires |plain| >= 8 && |plain| % 8 == 0 && i <= |plain| / 8
    ensures var n := |plain| / 8;
            Tracks(b, plain, n * j + i, Wrapped(b, Counters(n), Regs(IV, Words(plain)), j, i), i)
    decreases j, i
  {
    hide Tracks, Words, CounterWord, WrapStep;
    var n, start := |plain| / 8, Regs(IV, Words(plain));
    if i > 0 {
      WrappedShifts(b, plain, j, i - 1);
      TracksStep(b, plain, n * j + i - 1, Wrapped(b, Counters(n), start, j, i - 1), i - 1);
    } else if j > 0 {
      WrappedShifts(b, plain, j - 1, n);
      assert n * (j - 1) + n == n * j;
      TracksRound(b, plain, n * j, Wrapped(b, Counters(n), start, j - 1, n));
    } else {
      TracksStart(b, plain);
      assert n * 0 + 0 == 0;
    }
  }

  /** For every block function, wrapping is the standard's shifting form. */
  lemma WrapShifts(b: Block, plain: Bytes)
    ensures Wrap(b, plain) == if |plain| < 16 || |plain| % 8 != 0 then BadLength else Ok(ShiftForm(b, plain))
  {
    if |plain| >= 16 && |plain| % 8 == 0 {
      WrappedShifts(b, plain, 6, 0);
      var s := Wrapped(b, Counters(|plain| / 8), Regs(IV, Words(plain)), 6, 0);
      assert Rotated(s.r, 0) == s.r;
    }
  }

  /** c is the plaintext p wrapped as the standard has it. */
  predicate IsWrapped(b: Block, p: Bytes, c: Bytes) {
    |p| >= 16 && |p| % 8 == 0 && ShiftForm(b, p) == c
  }

  /** And unwrapping is its inverse, with an error for everything else. */
  lemma UnwrapMeans(b: Block, c: Bytes)
    ensures Unwrap(b, c) == BadLength <==> |c| < 24 || |c| % 8 != 0
    ensures IsPermutation(b) ==> forall p: Bytes :: Unwrap(b, c) == Ok(p) <==> IsWrapped(b, p, c)
  {
    hide IsPermutation, ShiftForm, Wrap, Unwrapped;
    if IsPermutation(b) {
      forall p: Bytes
        ensures Unwrap(b, c) == Ok(p) <==> IsWrapped(b, p, c)
      {
        UnwrapInvertsWrap(b, p, c);
        WrapShifts(b, p);
      }
    }
  }

  // ------------------------------------------------------------ the loops, in place

  /** aesKWXorT. */
  method ComputeXorT(a: array<bv8>, t: nat)
    requires a.Length == 8
    modifies a
    ensures a[..] == Xor(old(a[..]), CounterWord(t))
  {
    ghost var was: Word := a[..];
    for k := 0 to 8
      invariant forall p :: 0 <= p < 8 ==> a[p] == if p >= 8 - k then was[p] ^ CounterWord(t)[p] else was[p]
    {
      a[7 - k] := a[7 - k] ^ ByteOf(t, k);
    }
  }

  method CopyWord(a: array<bv8>, w: Word)
    requires a.Length == 8
    modifies a
    ensures a[..] == w
  {
    for k := 0 to 8
      invariant a[..k] == w[..k]
    {
      a[k] := w[k];
    }
  }

  method ComputeWrapStep(b: Block, a: array<bv8>, r: array<Word>, i: nat, t: nat)
    requires a as object != r && a.Length == 8 && i < r.Length
    modifies a, r
    ensures Regs(a[..], r[..]) == WrapStep(b, old(Regs(a[..], r[..])), i, CounterWord(t))
  {
    ghost var was := r[..];
    var buf := b.encrypt(a[..], r[i]);
    CopyWord(a, buf.0);
    ComputeXorT(a, t);
    r[i] := buf.1;
    assert r[..] == was[i := buf.1];
  }

  method ComputeUnwrapStep(b: Block, a: array<bv8>, r: array<Word>, i: nat, t: nat)
    requires a as object != r && a.Length == 8 && i < r.Length
    modifies a, r
    ensures Regs(a[..], r[..]) == UnwrapStep(b, old(Regs(a[..], r[..])), i, CounterWord(t))
  {
    ghost var was := r[..];
    ComputeXorT(a, t);
    var buf := b.decrypt(a[..], r[i]);
    CopyWord(a, buf.0);
    r[i] := buf.1;
    assert r[..] == was[i := buf.1];
  }

  /** The inner loop of wrapping. */
  method ComputeWrapRound(b: Block, a: array<bv8>, r: array<Word>, j: nat, ghost t: Schedule, ghost start: Regs)
    requires a as object != r && a.Length == 8 && r.Length == |start.r| && t == Counters(r.Length)
    requires Regs(a[..], r[..]) == Wrapped(b, t, start, j, 0)
    modifies a, r
    ensures Regs(a[..], r[..]) == Wrapped(b, t, start, j + 1, 0)
  {
    for i := 0 to r.Length
      invariant Regs(a[..], r[..]) == Wrapped(b, t, start, j, i)
    {
      assert t(j, i) == CounterWord(r.Length * j + i + 1);
      ComputeWrapStep(b, a, r, i, r.Length * j + i + 1);
    }
  }

  /** The inner loop of unwrapping. */
  method ComputeUnwrapRound(b: Block, a: array<bv8>, r: array<Word>, j: nat, ghost t: Schedule, ghost whole: Regs)
    requires a as object != r && a.Length == 8 && t == Counters(r.Length)
    requires Unwrapped(b, t, Regs(a[..], r[..]), j + 1, 0) == whole
    modifies a, r
    ensures Unwrapped(b, t, Regs(a[..], r[..]), j, 0) == whole
  {
    for i := r.Length downto 0
      invariant Unwrapped(b, t, Regs(a[..], r[..]), j, i) == whole
    {
      assert t(j, i) == CounterWord(r.Length * j + i + 1);
      ComputeUnwrapStep(b, a, r, i, r.Length * j + i + 1);
    }
  }

  /** aesKWWrap. */
  method ComputeWrap(b: Block, plain: Bytes) returns (r: Result)
    ensures r == Wrap(b, plain)
    ensures r == if |plain| < 16 || |plain| % 8 != 0 then BadLength else Ok(ShiftForm(b, plain))
  {
    WrapShifts(b, plain);
    if |plain| < 16 || |plain| % 8 != 0 {
      return BadLength;
    }
    var words := Words(plain);
    var a := new bv8[8](k requires 0 <= k < 8 => IV[k]);
    var file := new Word[|words|](k requires 0 <= k < |words| => words[k]);
    assert a[..] == IV && file[..] == words;
    for j := 0 to 6
      invariant a.Length == 8 && file.Length == |words|
      invariant Regs(a[..], file[..]) == Wrapped(b, Counters(|words|), Regs(IV, words), j, 0)
    {
      ComputeWrapRound(b, a, file, j, Counters(|words|), Regs(IV, words));
    }
    r := Ok(a[..] + Concat(file[..]));
  }

  /** aesKWUnwrap. */
  method ComputeUnwrap(b: Block, ct: Bytes) returns (r: Result)
    ensures r == Unwrap(b, ct)
    ensures r == BadLength <==> |ct| < 24 || |ct| % 8 != 0
    ensures IsPermutation(b) ==> forall p: Bytes :: r == Ok(p) <==> IsWrapped(b, p, ct)
  {
    hide Words, Concat, IsPermutation, ShiftForm;
    UnwrapMeans(b, ct);
    if |ct| < 24 || |ct| % 8 != 0 {
      return BadLength;
    }
    var words := Words(ct[8..]);
    var a := new bv8[8](k requires 0 <= k < 8 => ct[k]);
    var file := new Word[|words|](k requires 0 <= k < |words| => words[k]);
    assert a[..] == ct[..8] && file[..] == words;
    ghost var whole := Unwrapped(b, Counters(|words|), Regs(ct[..8], words), 6, 0);
    for j := 6 downto 0
      invariant a.Length == 8 && file.Length == |words|
      invariant Unwrapped(b, Counters(|words|), Regs(a[..], file[..]), j, 0) == whole
    {
      ComputeUnwrapRound(b, a, file, j, Counters(|words|), whole);
    }
    r := if a[..] == IV then Ok(Concat(file[..])) else IntegrityCheckFailed;
  }
}
