/** TextEncoderStream and the streaming TextDecoder: text and bytes cut into chunks. */
module TextStreams {
  import opened Utf16
  import opened Utf8

  function Flat(chunks: seq<seq<int>>): seq<int> {
    if chunks == [] then [] else Flat(chunks[..|chunks| - 1]) + chunks[|chunks| - 1]
  }

  lemma FlatGrows(chunks: seq<seq<int>>, chunk: seq<int>)
    ensures Flat(chunks + [chunk]) == Flat(chunks) + chunk
  {
    assert (chunks + [chunk])[..|chunks|] == chunks;
  }

  // ------------------------------------------------------------ encoding

  /** Splits off a trailing high surrogate. */
  method HoldBack(all: seq<int>) returns (s: seq<int>, held: seq<int>)
    ensures s + held == all && |held| <= 1 && (held != [] ==> IsHigh(held[0]))
    ensures held == [] ==> s == all && (s != [] ==> !IsHigh(s[|s| - 1]))
    ensures s != [] ==> s[0] == all[0]
  {
    s, held := all, [];
    if s != [] {
      var last := s[|s| - 1];
      if 0xD800 <= last <= 0xDBFF {
        held, s := s[|s| - 1..], s[..|s| - 1];
      }
    }
  }

  /** Chunks of a string in, chunks of bytes out, over any encoding of characters; a high
      surrogate at the end of a chunk waits for the next. */
  class TextEncoderStream {
    const encode: int -> seq<int>
    var pending: seq<int>
    var enqueued: seq<seq<int>>
    var closed: bool
    /** The text written so far, without the unit held back. */
    ghost var done: seq<int>

    ghost predicate Valid()
      reads this
    {
      && |pending| <= 1 && (pending != [] ==> IsHigh(pending[0]))
      && (pending == [] && done != [] && !closed ==> !IsHigh(done[|done| - 1]))
      && Flat(enqueued) == Spell(encode, done)
      && (closed ==> pending == [])
    }

    constructor (encode: int -> seq<int>)
      ensures Valid() && !closed && done + pending == [] && this.encode == encode
    {
      this.encode := encode;
      pending, enqueued, closed, done := [], [], false, [];
    }

    method Write(chunk: seq<int>)
      requires Valid() && !closed
      modifies this
      ensures Valid() && !closed && done + pending == old(done + pending) + chunk
    {
      assert done + (pending + chunk) == done + pending + chunk;
      var s, held := HoldBack(pending + chunk);
      assert done + (s + held) == done + s + held;
      if s != [] {
        assert CleanCut(done, s) by {
          assert pending != [] ==> s[0] == pending[0];
        }
        Enqueue(s);
      }
      pending := held;
    }

    /** Encodes a piece that does not part a surrogate pair from what came before. */
    method Enqueue(s: seq<int>)
      requires CleanCut(done, s) && Flat(enqueued) == Spell(encode, done)
      modifies `enqueued, `done
      ensures done == old(done) + s && Flat(enqueued) == Spell(encode, done)
    {
      SpellConcat(encode, done, s);
      var bytes := SpellUnits(encode, s);
      FlatGrows(enqueued, bytes);
      enqueued := enqueued + [bytes];
      done := done + s;
    }

    /** At the close, the bytes are those of the whole text at once. */
    method Close()
      requires Valid() && !closed
      modifies this
      ensures Valid() && closed && done == old(done + pending)
      ensures Flat(enqueued) == Spell(encode, old(done + pending))
    {
      assert pending == [] ==> done + pending == done;
      if pending != [] {
        Enqueue(pending);
        pending := [];
      }
      closed := true;
    }
  }

  method StreamChunks(encode: int -> seq<int>, chunks: seq<seq<int>>) returns (out: seq<seq<int>>)
    ensures Flat(out) == Spell(encode, Flat(chunks))
  {
    var stream := new TextEncoderStream(encode);
    var i := 0;
    while i < |chunks|
      invariant 0 <= i <= |chunks| && stream.Valid() && !stream.closed
      invariant stream.done + stream.pending == Flat(chunks[..i])
    {
      stream.Write(chunks[i]);
      FlatGrows(chunks[..i], chunks[i]);
      assert chunks[..i + 1] == chunks[..i] + [chunks[i]];
      i := i + 1;
    }
    assert chunks[..i] == chunks;
    stream.Close();
    out := stream.enqueued;
  }

  /** However a text is cut, what the stream puts out is its UTF-8 encoding at once. */
  method EncodeChunks(chunks: seq<seq<int>>) returns (out: seq<seq<int>>)
    ensures Flat(out) == Encode(Flat(chunks))
  {
    out := StreamChunks(EncodePoint, chunks);
  }

  // ------------------------------------------------------------ decoding

  predicate IsContinuation(b: int) {
    0x80 <= b <= 0xBF
  }

  /** How long a sequence a lead byte announces; 0 for one that can lead none. */
  function Announced(lead: int): int {
    if lead < 0x80 then 1
    else if 0xC0 <= lead <= 0xDF then 2
    else if 0xE0 <= lead <= 0xEF then 3
    else if 0xF0 <= lead <= 0xF7 then 4
    else 0
  }

  /** How many continuation bytes the bytes end with, looking at most at three. */
  function TrailingContinuations(bytes: seq<int>, most: nat): (n: nat)
    ensures n <= most && n <= |bytes|
    ensures forall k :: |bytes| - n <= k < |bytes| ==> IsContinuation(bytes[k])
    ensures n < most && n < |bytes| ==> !IsContinuation(bytes[|bytes| - 1 - n])
  {
    if most == 0 || bytes == [] || !IsContinuation(bytes[|bytes| - 1]) then 0
    else 1 + TrailingContinuations(bytes[..|bytes| - 1], most - 1)
  }

  /** How many bytes at the end are a sequence begun and not complete. */
  function IncompleteTail(bytes: seq<int>): (keep: nat)
    ensures keep <= |bytes|
  {
    var cont := TrailingContinuations(bytes, 3);
    if cont == |bytes| then 0
    else
      var need, have := Announced(bytes[|bytes| - 1 - cont]), cont + 1;
      if have < need then have else 0
  }

  method ComputeIncompleteTail(bytes: seq<int>) returns (keep: nat)
    ensures keep == IncompleteTail(bytes)
  {
    var n := |bytes|;
    var i, cont := n - 1, 0;
    while i >= 0 && IsContinuation(bytes[i]) && cont < 3
      invariant -1 <= i < n && 0 <= cont <= 3 && i == n - 1 - cont
      invariant TrailingContinuations(bytes, 3) == cont + TrailingContinuations(bytes[..n - cont], 3 - cont)
      decreases i
    {
      assert bytes[..n - cont][..n - cont - 1] == bytes[..n - cont - 1];
      i, cont := i - 1, cont + 1;
    }
    if i < 0 {
      return 0;
    }
    var need := Announced(bytes[i]);
    var have := n - i;
    keep := if have < need then have else 0;
  }

  /** Continuation bytes still expected. */
  function Expected(d: Decoding): int {
    if d.needed == 0 then 0 else d.needed - d.seen
  }

  predicate Reachable(d: Decoding) {
    && 0x80 <= d.lower && d.upper <= 0xBF
    && 0 <= d.needed <= 3 && (d.needed != 0 ==> 0 <= d.seen < d.needed)
  }

  lemma ReadReachable(b: int, d: Decoding)
    requires Reachable(d)
    ensures Reachable(Read(b, d).1)
    ensures IsContinuation(b) ==> Expected(Read(b, d).1) <= if Expected(d) > 0 then Expected(d) - 1 else 0
    ensures !IsContinuation(b) ==>
              Expected(Read(b, d).1) <= if Announced(b) > 0 then Announced(b) - 1 else 0
  {
  }

  lemma {:induction false} ReachedReachable(bytes: seq<int>, d: Decoding)
    requires Reachable(d)
    ensures Reachable(Reached(bytes, d))
  {
    if bytes != [] {
      ReadReachable(bytes[0], d);
      ReachedReachable(bytes[1..], Read(bytes[0], d).1);
    }
  }

  lemma {:induction false} ReachedConcat(a: seq<int>, b: seq<int>, d: Decoding)
    ensures Reached(a + b, d) == Reached(b, Reached(a, d))
  {
    if a == [] {
      assert a + b == b;
    } else {
      assert (a + b)[1..] == a[1..] + b;
      ReachedConcat(a[1..], b, Read(a[0], d).1);
    }
  }

  /** Continuation bytes use up what is expected. */
  lemma {:induction false} ExpectedFalls(bytes: seq<int>, d: Decoding)
    requires Reachable(d) && forall k :: 0 <= k < |bytes| ==> IsContinuation(bytes[k])
    ensures Expected(Reached(bytes, d)) <= if Expected(d) > |bytes| then Expected(d) - |bytes| else 0
  {
    if bytes != [] {
      ReadReachable(bytes[0], d);
      ExpectedFalls(bytes[1..], Read(bytes[0], d).1);
    }
  }

  /** If nothing is held back, the decoder is between sequences. */
  lemma NothingHeld(bytes: seq<int>)
    requires IncompleteTail(bytes) == 0
    ensures Reached(bytes, FRESH).needed == 0
  {
    var cont := TrailingContinuations(bytes, 3);
    var n := |bytes| - cont;
    var tail := bytes[n..];
    if n == 0 {
      assert tail == bytes;
      ExpectedFalls(bytes, FRESH);
    } else {
      var d := Reached(bytes[..n - 1], FRESH);
      var d' := Read(bytes[n - 1], d).1;
      ReachedReachable(bytes[..n - 1], FRESH);
      ReadReachable(bytes[n - 1], d);
      assert bytes == bytes[..n - 1] + ([bytes[n - 1]] + tail);
      ReachedConcat(bytes[..n - 1], [bytes[n - 1]] + tail, FRESH);
      assert ([bytes[n - 1]] + tail)[1..] == tail;
      ExpectedFalls(tail, d');
      ReachedReachable(tail, d');
    }
  }

  /** Cutting where the decoder would start afresh anyway changes nothing. */
  lemma {:induction false} ScanCut(a: seq<int>, b: seq<int>, d: Decoding)
    requires Reachable(d)
    requires Reached(a, d).needed == 0 || b == [] || !IsContinuation(b[0])
    ensures Scan(a + b, d) == Scan(a, d) + Scan(b, FRESH)
    decreases |a|
  {
    if a == [] {
      assert a + b == b;
      CutHere(b, d);
    } else {
      assert (a + b)[1..] == a[1..] + b;
      ReadReachable(a[0], d);
      ScanCut(a[1..], b, Read(a[0], d).1);
    }
  }

  lemma CutHere(b: seq<int>, d: Decoding)
    requires Reachable(d) && (d.needed == 0 || b == [] || !IsContinuation(b[0]))
    ensures Scan(b, d) == Flush(d) + Scan(b, FRESH)
  {
  }

  /** Holding back the tail does not change what comes out in the end. */
  lemma TailHeld(bytes: seq<int>, rest: seq<int>)
    ensures var n := |bytes| - IncompleteTail(bytes);
      Decode(bytes + rest) == Decode(bytes[..n]) + Decode(bytes[n..] + rest)
  {
    var n := |bytes| - IncompleteTail(bytes);
    assert bytes + rest == bytes[..n] + (bytes[n..] + rest);
    if n == |bytes| {
      NothingHeld(bytes);
      assert bytes[..n] == bytes;
    }
    ScanCut(bytes[..n], bytes[n..] + rest, FRESH);
  }

  /** The bytes held back are of no character that could be put out already. */
  lemma HeldIsNoText(bytes: seq<int>)
    requires AreBytes(bytes)
    ensures var held := bytes[|bytes| - IncompleteTail(bytes)..];
            |held| <= 3 && forall k :: 0 <= k < |Decode(held)| ==> Decode(held)[k] == Bad
  {
    var keep := IncompleteTail(bytes);
    var held := bytes[|bytes| - keep..];
    if keep > 0 {
      var cont := TrailingContinuations(bytes, 3);
      assert keep == cont + 1 && held[0] == bytes[|bytes| - 1 - cont];
      assert forall k :: 1 <= k < |held| ==> IsContinuation(held[k]);
      var d := ReadLead(held[0]).1;
      assert Decode(held) == ReadLead(held[0]).0 + Scan(held[1..], d);
      NoCharYet(held[1..], d);
    }
  }

  /** Fewer continuation bytes than are expected complete nothing, and where none are
      expected they are all replaced. */
  lemma {:induction false} NoCharYet(bytes: seq<int>, d: Decoding)
    requires Reachable(d) && (Expected(d) == 0 || |bytes| < Expected(d))
    requires forall k :: 0 <= k < |bytes| ==> IsContinuation(bytes[k])
    ensures forall k :: 0 <= k < |Scan(bytes, d)| ==> Scan(bytes, d)[k] == Bad
  {
    if bytes != [] {
      ReadReachable(bytes[0], d);
      NoCharYet(bytes[1..], Read(bytes[0], d).1);
    }
  }

  // ------------------------------------------------------------ the streaming decoder

  predicate HasBom(b: seq<int>) {
    |b| >= 3 && b[0] == 0xEF && b[1] == 0xBB && b[2] == 0xBF
  }

  predicate Strips(b: seq<int>, ignoreBOM: bool) {
    !ignoreBOM && HasBom(b)
  }

  datatype Called = Called(items: seq<Item>, held: seq<int>)

  function WithoutBom(b: seq<int>, ignoreBOM: bool): seq<int> {
    if Strips(b, ignoreBOM) then b[3..] else b
  }

  /** Where a call cuts its bytes: what follows is held for the next. */
  function CutAt(bytes: seq<int>, stream: bool): (n: nat)
    ensures n <= |bytes|
  {
    if stream then |bytes| - IncompleteTail(bytes) else |bytes|
  }

  /** One call of decode: what was held and the input, less a byte order mark in front; of
      that, in a streaming call, an incomplete tail is held for the next. */
  function Call(held: seq<int>, input: seq<int>, stream: bool, ignoreBOM: bool): Called {
    var bytes := WithoutBom(held + input, ignoreBOM);
    Called(Decode(bytes[..CutAt(bytes, stream)]), bytes[CutAt(bytes, stream)..])
  }

  class TextDecoder {
    const fatal: bool
    const ignoreBOM: bool
    var pending: seq<int>

    constructor (fatal: bool, ignoreBOM: bool)
      ensures pending == [] && this.fatal == fatal && this.ignoreBOM == ignoreBOM
    {
      this.fatal, this.ignoreBOM, pending := fatal, ignoreBOM, [];
    }

    method DecodeInput(input: seq<int>, stream: bool) returns (thrown: bool, text: seq<int>)
      modifies this
      ensures pending == Call(old(pending), input, stream, ignoreBOM).held
      ensures thrown <==> fatal && Bad in Call(old(pending), input, stream, ignoreBOM).items
      ensures !thrown ==> text == Text(Call(old(pending), input, stream, ignoreBOM).items)
    {
      var bytes := pending + input;
      pending := [];
      if !ignoreBOM && |bytes| >= 3 && bytes[0] == 0xEF && bytes[1] == 0xBB && bytes[2] == 0xBF {
        bytes := bytes[3..];
      }
      ghost var all := bytes;
      if stream {
        var keep := ComputeIncompleteTail(bytes);
        if keep > 0 {
          pending, bytes := bytes[|bytes| - keep..], bytes[..|bytes| - keep];
        }
      }
      assert bytes == all[..CutAt(all, stream)] && pending == all[CutAt(all, stream)..];
      thrown, text := Utf8Decode(bytes, fatal);
    }
  }

  /** A stream of chunks through one decoder, ended by a call that does not stream. */
  function Streamed(held: seq<int>, chunks: seq<seq<int>>, ignoreBOM: bool): seq<Item>
    decreases |chunks|
  {
    if chunks == [] then Call(held, [], false, ignoreBOM).items
    else
      var r := Call(held, chunks[0], true, ignoreBOM);
      r.items + Streamed(r.held, chunks[1..], ignoreBOM)
  }

  /** In how many of those calls a mark is stripped. */
  function Stripped(held: seq<int>, chunks: seq<seq<int>>, ignoreBOM: bool): nat
    decreases |chunks|
  {
    if chunks == [] then if Strips(held + [], ignoreBOM) then 1 else 0
    else
      (if Strips(held + chunks[0], ignoreBOM) then 1 else 0)
      + Stripped(Call(held, chunks[0], true, ignoreBOM).held, chunks[1..], ignoreBOM)
  }

  lemma {:induction false} FlatFirst(chunks: seq<seq<int>>)
    requires chunks != []
    ensures Flat(chunks) == chunks[0] + Flat(chunks[1..])
  {
    if |chunks| > 1 {
      var init := chunks[..|chunks| - 1];
      FlatFirst(init);
      assert init[1..] == chunks[1..][..|chunks| - 2];
      assert Flat(chunks[1..]) == Flat(init[1..]) + chunks[|chunks| - 1];
    }
  }

  lemma BomDecoded(b: seq<int>, rest: seq<int>)
    requires HasBom(b)
    ensures Decode(b + rest) == [Char(0xFEFF)] + Decode(b[3..] + rest)
  {
    assert EncodePoint(0xFEFF) == [0xEF, 0xBB, 0xBF];
    assert b + rest == EncodePoint(0xFEFF) + (b[3..] + rest);
    DecodePoint(0xFEFF, b[3..] + rest);
  }

  /** A streaming call and what follows it make up the decoding of it all, but for a mark. */
  lemma CallSplits(held: seq<int>, input: seq<int>, rest: seq<int>, ignoreBOM: bool)
    ensures var r := Call(held, input, true, ignoreBOM);
      Decode(held + input + rest)
      == (if Strips(held + input, ignoreBOM) then [Char(0xFEFF)] else []) + (r.items + Decode(r.held + rest))
  {
    if Strips(held + input, ignoreBOM) {
      BomDecoded(held + input, rest);
    }
    TailHeld(WithoutBom(held + input, ignoreBOM), rest);
  }

  lemma LastCall(held: seq<int>, ignoreBOM: bool)
    ensures Decode(held) == (if Strips(held, ignoreBOM) then [Char(0xFEFF)] else [])
                            + Call(held, [], false, ignoreBOM).items
  {
    assert held + [] == held;
    if Strips(held, ignoreBOM) {
      BomDecoded(held, []);
      assert held[3..] + [] == held[3..] && held[3..][..|held| - 3] == held[3..];
    } else {
      assert held[..|held|] == held;
    }
  }

  /** Every mark stripped is a character less; with none stripped nothing is lost. */
  lemma {:induction false} StreamedLess(held: seq<int>, chunks: seq<seq<int>>, ignoreBOM: bool)
    ensures |Streamed(held, chunks, ignoreBOM)| + Stripped(held, chunks, ignoreBOM) == |Decode(held + Flat(chunks))|
    ensures Stripped(held, chunks, ignoreBOM) == 0 ==>
              Streamed(held, chunks, ignoreBOM) == Decode(held + Flat(chunks))
    decreases |chunks|
  {
    if chunks == [] {
      LastCall(held, ignoreBOM);
      assert held + Flat(chunks) == held && held + [] == held;
    } else {
      var r := Call(held, chunks[0], true, ignoreBOM);
      FlatFirst(chunks);
      assert held + Flat(chunks) == held + chunks[0] + Flat(chunks[1..]);
      CallSplits(held, chunks[0], Flat(chunks[1..]), ignoreBOM);
      StreamedLess(r.held, chunks[1..], ignoreBOM);
    }
  }

  /** Left alone, marks are characters, and any way of cutting the bytes decodes alike. */
  lemma StreamedIgnoringBom(chunks: seq<seq<int>>)
    ensures Streamed([], chunks, true) == Decode(Flat(chunks))
  {
    NeverStripped([], chunks);
    StreamedLess([], chunks, true);
    assert [] + Flat(chunks) == Flat(chunks);
  }

  lemma {:induction false} NeverStripped(held: seq<int>, chunks: seq<seq<int>>)
    ensures Stripped(held, chunks, true) == 0
    decreases |chunks|
  {
    if chunks != [] {
      NeverStripped(Call(held, chunks[0], true, true).held, chunks[1..]);
    }
  }

  /** The bytes all at once. */
  function OneShot(bytes: seq<int>, ignoreBOM: bool): seq<Item> {
    Call([], bytes, false, ignoreBOM).items
  }

  lemma OneShotIs(bytes: seq<int>, ignoreBOM: bool)
    ensures Decode(bytes) == (if Strips(bytes, ignoreBOM) then [Char(0xFEFF)] else []) + OneShot(bytes, ignoreBOM)
  {
    LastCall(bytes, ignoreBOM);
    assert [] + bytes == bytes && bytes + [] == bytes;
  }

  lemma PartOfBom(b: seq<int>)
    requires b <= [0xEF, 0xBB, 0xBF] && |b| < 3
    ensures IncompleteTail(b) == |b|
  {
    if |b| == 2 {
      assert b[..1] == [0xEF] && b[1] == 0xBB;
      assert TrailingContinuations(b[..1], 2) == 0;
      assert TrailingContinuations(b, 3) == 1;
    } else if |b| == 1 {
      assert TrailingContinuations(b, 3) == 0;
    }
  }

  /** A call that has only part of a mark so far holds all of it. */
  lemma PartHeld(held: seq<int>, input: seq<int>, rest: seq<int>)
    requires HasBom(held + input + rest) && |held + input| < 3
    ensures !Strips(held + input, false) && Call(held, input, true, false) == Called([], held + input)
  {
    var all := held + input;
    assert all <= [0xEF, 0xBB, 0xBF] by {
      assert forall k :: 0 <= k < |all| ==> all[k] == (all + rest)[k];
    }
    PartOfBom(all);
    assert all[..0] == [] && all[0..] == all;
  }

  /** The front mark of what decodes to out is stripped, and if no other is, the rest of it
      comes out. */
  predicate MarkGone(out: seq<Item>, held: seq<int>, chunks: seq<seq<int>>) {
    && Stripped(held, chunks, false) >= 1
    && (Stripped(held, chunks, false) == 1 ==> out == [Char(0xFEFF)] + Streamed(held, chunks, false))
  }

  lemma StreamedStep(held: seq<int>, chunks: seq<seq<int>>, r: Called)
    requires chunks != [] && Call(held, chunks[0], true, false) == r
    ensures Streamed(held, chunks, false) == r.items + Streamed(r.held, chunks[1..], false)
    ensures Stripped(held, chunks, false)
         == (if Strips(held + chunks[0], false) then 1 else 0) + Stripped(r.held, chunks[1..], false)
  {
  }

  lemma WholeNow(held: seq<int>, chunks: seq<seq<int>>)
    requires chunks != [] && HasBom(held + chunks[0])
    ensures MarkGone(Decode(held + chunks[0] + Flat(chunks[1..])), held, chunks)
  {
    var r := Call(held, chunks[0], true, false);
    StreamedStep(held, chunks, r);
    CallSplits(held, chunks[0], Flat(chunks[1..]), false);
    StreamedLess(r.held, chunks[1..], false);
  }

  lemma NotYet(out: seq<Item>, held: seq<int>, chunks: seq<seq<int>>)
    requires chunks != [] && MarkGone(out, held + chunks[0], chunks[1..])
    requires !Strips(held + chunks[0], false)
    requires Call(held, chunks[0], true, false) == Called([], held + chunks[0])
    ensures MarkGone(out, held, chunks)
  {
    StreamedStep(held, chunks, Called([], held + chunks[0]));
    assert Streamed(held, chunks, false) == Streamed(held + chunks[0], chunks[1..], false);
  }

  /** A mark in front of everything is stripped once it is whole, however it was cut. */
  lemma {:induction false} FrontStripped(held: seq<int>, chunks: seq<seq<int>>)
    requires HasBom(held + Flat(chunks))
    ensures MarkGone(Decode(held + Flat(chunks)), held, chunks)
    decreases |chunks|
  {
    if chunks == [] {
      LastCall(held, false);
      assert held + Flat(chunks) == held && held + [] == held;
    } else {
      FlatFirst(chunks);
      assert held + Flat(chunks) == held + chunks[0] + Flat(chunks[1..]);
      if |held + chunks[0]| >= 3 {
        WholeNow(held, chunks);
      } else {
        FrontStripped(held + chunks[0], chunks[1..]);
        PartHeld(held, chunks[0], Flat(chunks[1..]));
        NotYet(Decode(held + Flat(chunks)), held, chunks);
      }
    }
  }

  /** Two ways of decoding the same, one with k marks less and one with at most one. */
  lemma SameOutput(all: seq<Item>, streamed: seq<Item>, oneShot: seq<Item>, k: nat, mark: seq<Item>)
    requires |streamed| + k == |all| && all == mark + oneShot && |mark| <= 1
    requires k == 0 ==> streamed == all
    requires mark != [] ==> k >= 1 && (k == 1 ==> all == mark + streamed)
    ensures streamed == oneShot <==> k == |mark|
  {
    if k == 1 && mark != [] {
      assert all[1..] == streamed && all[1..] == oneShot;
    } else if k == 0 {
      assert mark == [] && all == oneShot;
    }
  }

  /** With marks stripped, streaming agrees with decoding at once exactly when no call but
      the one at the very front found a mark to strip. */
  lemma StreamedLikeOneShot(chunks: seq<seq<int>>, ignoreBOM: bool)
    ensures Streamed([], chunks, ignoreBOM) == OneShot(Flat(chunks), ignoreBOM) <==>
            Stripped([], chunks, ignoreBOM) == if Strips(Flat(chunks), ignoreBOM) then 1 else 0
  {
    var all := Flat(chunks);
    assert [] + all == all;
    StreamedLess([], chunks, ignoreBOM);
    OneShotIs(all, ignoreBOM);
    if Strips(all, ignoreBOM) {
      FrontStripped([], chunks);
    }
    SameOutput(Decode(all), Streamed([], chunks, ignoreBOM), OneShot(all, ignoreBOM), Stripped([], chunks, ignoreBOM),
               if Strips(all, ignoreBOM) then [Char(0xFEFF)] else []);
  }

  /** A chunk that starts with a mark in mid-stream loses it. */
  lemma MidStreamMarkLost()
    ensures Streamed([], [[0x61], [0xEF, 0xBB, 0xBF]], false) != OneShot(Flat([[0x61], [0xEF, 0xBB, 0xBF]]), false)
  {
    var chunks: seq<seq<int>> := [[0x61], [0xEF, 0xBB, 0xBF]];
    FlatFirst(chunks);
    FlatFirst(chunks[1..]);
    assert |chunks[1..][1..]| == 0 && chunks[1..] == [[0xEF, 0xBB, 0xBF]];
    assert Flat(chunks) == [0x61, 0xEF, 0xBB, 0xBF];
    var r := Call([], [0x61], true, false);
    assert [] + [0x61] == [0x61];
    assert IncompleteTail([0x61]) == 0;
    assert r.held == [];
    assert Strips([] + [0xEF, 0xBB, 0xBF], false);
    assert Stripped(r.held, chunks[1..], false) >= 1;
    StreamedLikeOneShot(chunks, false);
  }
}
