/** Streaming decompression (compat/nodejs/zlib.go): the rendezvous between the
    feeding goroutine and the decoder goroutine over one condition variable, with
    the codec as an arbitrary deterministic byte-stream machine. */
module ZlibStream {

  type Bytes = seq<bv8>

  // ------------------------------------------------------------ codecs

  datatype Verdict = More | Ended | Corrupt

  /** A deterministic machine whose state is the input it has consumed: what it
      emits when it consumes one more byte, whether it goes on after some input,
      and, if the input stops there, what it still emits and whether that is a
      clean end. */
  datatype Codec = Codec(
    emit: (Bytes, bv8) -> Bytes, verdict: Bytes -> Verdict, flush: Bytes -> Bytes, eof: Bytes -> bool)

  /** All output after consuming x. */
  function Out(c: Codec, x: Bytes): Bytes {
    if x == [] then [] else Out(c, x[..|x| - 1]) + c.emit(x[..|x| - 1], x[|x| - 1])
  }

  /** The part of x the machine consumes. */
  function Consumed(c: Codec, x: Bytes): (p: Bytes)
    ensures |p| <= |x| && p == x[..|p|]
  {
    if x == [] then []
    else
      var p := Consumed(c, x[..|x| - 1]);
      if |p| == |x| - 1 && c.verdict(p) == More then x else p
  }

  /** Decoding x in one piece: the output and whether it succeeds. */
  function Full(c: Codec, x: Bytes): Bytes {
    var p := Consumed(c, x);
    Out(c, p) + (if c.verdict(p) == More then c.flush(p) else [])
  }

  predicate Clean(c: Codec, x: Bytes) {
    var p := Consumed(c, x);
    c.verdict(p) == Ended || (c.verdict(p) == More && c.eof(p))
  }

  /** The machine never stopped before the end of x. */
  predicate Live(c: Codec, x: Bytes) {
    x == [] || (Live(c, x[..|x| - 1]) && c.verdict(x[..|x| - 1]) == More)
  }

  lemma {:induction false} LiveConsumed(c: Codec, x: Bytes)
    requires Live(c, x)
    ensures Consumed(c, x) == x
  {
    if x != [] {
      LiveConsumed(c, x[..|x| - 1]);
    }
  }

  /** Nothing behind the machine's end matters. */
  lemma {:induction false} StoppedConsumed(c: Codec, x: Bytes, rest: Bytes)
    requires Live(c, x) && (c.verdict(x) != More || rest == [])
    ensures Consumed(c, x + rest) == x
    decreases |rest|
  {
    if rest == [] {
      assert x + rest == x;
      LiveConsumed(c, x);
    } else {
      StoppedConsumed(c, x, rest[..|rest| - 1]);
      assert (x + rest)[..|x + rest| - 1] == x + rest[..|rest| - 1];
    }
  }

  /** Consuming more never takes output back. */
  lemma {:induction false} OutGrows(c: Codec, x: Bytes, rest: Bytes)
    requires Live(c, x)
    ensures |Out(c, x)| <= |Out(c, Consumed(c, x + rest))|
    decreases |rest|
  {
    if rest == [] {
      assert x + rest == x;
      LiveConsumed(c, x);
    } else {
      var whole := x + rest;
      OutGrows(c, x, rest[..|rest| - 1]);
      assert whole[..|whole| - 1] == x + rest[..|rest| - 1];
    }
  }

  // ------------------------------------------------------------ the two goroutines

  datatype Outcome = Succeeded | FailedDecode | Cancelled

  /** The decoder: decoding, inside Read with the lock to take, asleep in Read,
      about to report its outcome, or gone. */
  datatype DecoderPc = Running | Reading | Asleep | Finishing(outcome: Outcome) | Gone(last: Outcome)

  /** The feeder: between calls, asleep in feed, woken in feed with the lock to
      take, waiting in end for the decoder to be gone, or past end. */
  datatype FeederPc = Idle | FeedAsleep | FeedWoken | EndWaiting | EndReturned

  /** The fields of zlibDecomp under its mutex. */
  datatype Shared = Shared(
    buf: Bytes, closed: bool, aborted: bool, drained: bool, finished: bool, failed: bool, out: Bytes)

  /** The decoder's own data: input read and not decoded, output decoded and not
      appended, and what it has decoded. */
  datatype Decoder = Decoder(pc: DecoderPc, local: Bytes, pending: Bytes, done: Bytes, eofSeen: bool, tooBig: bool)

  /** The feeder, with what was offered to feed, what feed accepted, and what
      take and end have handed out. */
  datatype Feeder = Feeder(pc: FeederPc, offered: Bytes, fed: Bytes, taken: Bytes)

  datatype State = State(sh: Shared, dec: Decoder, fd: Feeder)

  const INIT := State(Shared([], false, false, false, false, false, []),
                      Decoder(Running, [], [], [], false, false), Feeder(Idle, [], [], []))

  datatype Step =
    | Feed(p: Bytes) | FeedCheck | Take | End | EndReturn | Abort
    | Decode | Append(n: nat) | Read | ReadCheck(n: nat) | Stop | Finish

  function WakeDecoder(d: Decoder): Decoder {
    if d.pc.Asleep? then d.(pc := Reading) else d
  }

  function WakeFeeder(f: Feeder): Feeder {
    if f.pc.FeedAsleep? then f.(pc := FeedWoken) else f
  }

  predicate Enabled(c: Codec, s: State, step: Step) {
    match step
    case Feed(_) => s.fd.pc.Idle?
    case FeedCheck => s.fd.pc.FeedWoken?
    case Take => s.fd.pc.Idle?
    case End => s.fd.pc.Idle?
    case EndReturn => s.fd.pc.EndWaiting? && s.dec.pc.Gone?
    case Abort => true
    case Decode => s.dec.pc.Running? && s.dec.local != [] && !s.dec.eofSeen && c.verdict(s.dec.done) == More
    case Append(n) => s.dec.pc.Running? && 0 < n <= |s.dec.pending|
    case Read =>
      && s.dec.pc.Running? && s.dec.local == [] && s.dec.pending == [] && !s.dec.eofSeen
      && c.verdict(s.dec.done) == More
    case ReadCheck(n) => s.dec.pc.Reading? && (s.sh.buf != [] ==> 0 < n <= |s.sh.buf|)
    case Stop => s.dec.pc.Running? && s.dec.pending == [] && (s.dec.eofSeen || c.verdict(s.dec.done) != More)
    case Finish => s.dec.pc.Finishing?
  }

  function DoFeed(s: State, p: Bytes): State {
    var f := s.fd.(offered := s.fd.offered + p);
    if s.sh.failed || s.sh.finished || s.sh.closed || s.sh.aborted then s.(fd := f)
    else State(s.sh.(buf := s.sh.buf + p, drained := false), WakeDecoder(s.dec), f.(pc := FeedAsleep, fed := f.fed + p))
  }

  function DoFeedCheck(s: State): State {
    s.(fd := s.fd.(pc := if s.sh.drained || s.sh.finished || s.sh.aborted then Idle else FeedAsleep))
  }

  function DoTake(s: State): State {
    s.(sh := s.sh.(out := []), fd := s.fd.(taken := s.fd.taken + s.sh.out))
  }

  function DoEnd(s: State): State {
    State(s.sh.(closed := true), WakeDecoder(s.dec), s.fd.(pc := EndWaiting))
  }

  /** end hands out the rest only if there was no error. */
  function DoEndReturn(s: State): State {
    State(s.sh.(out := []), s.dec,
          s.fd.(pc := EndReturned, taken := if s.sh.failed then s.fd.taken else s.fd.taken + s.sh.out))
  }

  function DoAbort(s: State): State {
    State(s.sh.(aborted := true), WakeDecoder(s.dec), WakeFeeder(s.fd))
  }

  function DoDecode(c: Codec, s: State): State
    requires s.dec.local != []
  {
    var d, b := s.dec, s.dec.local[0];
    s.(dec := d.(local := d.local[1..], done := d.done + [b], pending := d.pending + c.emit(d.done, b)))
  }

  /** Appending n decoded bytes; total counts what was appended before. */
  function DoAppend(s: State, n: nat, cap: nat): State
    requires n <= |s.dec.pending|
  {
    if |s.fd.taken| + |s.sh.out| + n > cap then s.(dec := s.dec.(pc := Finishing(FailedDecode), tooBig := true))
    else s.(sh := s.sh.(out := s.sh.out + s.dec.pending[..n]), dec := s.dec.(pending := s.dec.pending[n..]))
  }

  function DoReadCheck(c: Codec, s: State, n: nat): State
    requires s.sh.buf != [] ==> n <= |s.sh.buf|
  {
    var d := s.dec;
    if s.sh.aborted then s.(dec := d.(pc := Finishing(Cancelled)))
    else if s.sh.buf != [] then s.(sh := s.sh.(buf := s.sh.buf[n..]), dec := d.(pc := Running, local := s.sh.buf[..n]))
    else if s.sh.closed then s.(dec := d.(pc := Running, eofSeen := true, pending := c.flush(d.done)))
    else State(s.sh.(drained := true), d.(pc := Asleep), WakeFeeder(s.fd))
  }

  function DoStop(c: Codec, s: State): State {
    var good := if s.dec.eofSeen then c.eof(s.dec.done) else c.verdict(s.dec.done) == Ended;
    s.(dec := s.dec.(pc := Finishing(if good then Succeeded else FailedDecode)))
  }

  function DoFinish(s: State): State
    requires s.dec.pc.Finishing?
  {
    var o := s.dec.pc.outcome;
    State(s.sh.(finished := true, failed := o == FailedDecode), s.dec.(pc := Gone(o)), WakeFeeder(s.fd))
  }

  function Apply(c: Codec, cap: nat, s: State, step: Step): State
    requires Enabled(c, s, step)
  {
    match step
    case Feed(p) => DoFeed(s, p)
    case FeedCheck => DoFeedCheck(s)
    case Take => DoTake(s)
    case End => DoEnd(s)
    case EndReturn => DoEndReturn(s)
    case Abort => DoAbort(s)
    case Decode => DoDecode(c, s)
    case Append(n) => DoAppend(s, n, cap)
    case Read => s.(dec := s.dec.(pc := Reading))
    case ReadCheck(n) => DoReadCheck(c, s, n)
    case Stop => DoStop(c, s)
    case Finish => DoFinish(s)
  }

  /** The state after a schedule; steps that are not enabled are passed over. */
  function After(c: Codec, cap: nat, steps: seq<Step>): State
    decreases |steps|
  {
    if steps == [] then INIT
    else
      var s, step := After(c, cap, steps[..|steps| - 1]), steps[|steps| - 1];
      if Enabled(c, s, step) then Apply(c, cap, s, step) else s
  }

  // ------------------------------------------------------------ the invariant

  predicate Past(pc: DecoderPc) {
    pc.Finishing? || pc.Gone?
  }

  function OutcomeOf(pc: DecoderPc): Outcome
    requires Past(pc)
  {
    if pc.Finishing? then pc.outcome else pc.last
  }

  /** end found an error and did not hand out the rest. */
  predicate Discarded(s: State) {
    s.fd.pc.EndReturned? && s.sh.failed
  }

  /** No byte is lost or invented. */
  predicate Data(c: Codec, cap: nat, s: State) {
    && s.fd.fed == s.dec.done + s.dec.local + s.sh.buf && Live(c, s.dec.done)
    && (!Discarded(s) ==>
          s.fd.taken + s.sh.out + s.dec.pending
          == Out(c, s.dec.done) + (if s.dec.eofSeen then c.flush(s.dec.done) else []))
    && |s.fd.taken| + |s.sh.out| <= cap
    && (s.dec.eofSeen ==> s.sh.closed && s.dec.local == [] && s.sh.buf == [] && c.verdict(s.dec.done) == More)
    && (s.dec.tooBig ==> Past(s.dec.pc) && OutcomeOf(s.dec.pc) == FailedDecode)
    && (s.dec.tooBig && !s.dec.eofSeen ==> |Out(c, s.dec.done)| > cap)
    && (s.dec.tooBig && s.dec.eofSeen ==> |Out(c, s.dec.done) + c.flush(s.dec.done)| > cap)
  }

  /** How the decoder ended. */
  predicate Verdicts(c: Codec, s: State) {
    && (s.sh.finished <==> s.dec.pc.Gone?) && (s.sh.failed <==> s.dec.pc == Gone(FailedDecode))
    && (Past(s.dec.pc) && !s.dec.tooBig ==>
          match OutcomeOf(s.dec.pc)
          case Cancelled => s.sh.aborted
          case o =>
            && s.dec.pending == [] && (s.dec.eofSeen || c.verdict(s.dec.done) != More)
            && (o == Succeeded <==> if s.dec.eofSeen then c.eof(s.dec.done) else c.verdict(s.dec.done) == Ended))
    && s.fd.fed <= s.fd.offered
    && (s.fd.offered != s.fd.fed ==> s.sh.aborted || (s.dec.pc.Gone? && !s.dec.eofSeen))
    && (!Past(s.dec.pc) && !s.dec.pc.Running? ==>
          s.dec.local == [] && s.dec.pending == [] && !s.dec.eofSeen && c.verdict(s.dec.done) == More)
  }

  /** Who sleeps, and why. */
  predicate Sleep(s: State) {
    && (s.dec.pc.Asleep? ==> s.sh.drained && s.sh.buf == [] && !s.sh.closed && !s.sh.aborted)
    && (s.fd.pc.FeedAsleep? ==> !s.sh.drained && !s.sh.finished && !s.sh.aborted)
    && (s.sh.drained && !s.sh.closed && !s.sh.aborted ==> (s.dec.pc.Asleep? || s.dec.pc.Reading?) && s.sh.buf == [])
    && (s.fd.pc.Idle? ==> s.fd.fed == [] || s.sh.drained || s.sh.finished || s.sh.aborted)
    && (s.sh.closed <==> s.fd.pc.EndWaiting? || s.fd.pc.EndReturned?)
    && (s.fd.pc.EndReturned? ==> s.dec.pc.Gone? && s.sh.out == [])
  }

  predicate Inv(c: Codec, cap: nat, s: State) {
    Data(c, cap, s) && Verdicts(c, s) && Sleep(s)
  }

  // ------------------------------------------------------------ every step keeps it

  lemma FeedKeeps(c: Codec, cap: nat, s: State, p: Bytes)
    requires Inv(c, cap, s) && Enabled(c, s, Feed(p))
    ensures Inv(c, cap, DoFeed(s, p))
  {
    var d, f := s.dec, s.fd;
    assert d.done + d.local + s.sh.buf + p == d.done + d.local + (s.sh.buf + p);
  }

  lemma FeederKeeps(c: Codec, cap: nat, s: State, step: Step)
    requires Inv(c, cap, s) && Enabled(c, s, step)
    requires step.FeedCheck? || step.End? || step.Abort?
    ensures Inv(c, cap, Apply(c, cap, s, step))
  {
  }

  lemma TakeKeeps(c: Codec, cap: nat, s: State)
    requires Inv(c, cap, s) && Enabled(c, s, Take)
    ensures Inv(c, cap, DoTake(s))
  {
    assert s.fd.taken + s.sh.out + [] == s.fd.taken + s.sh.out;
  }

  lemma EndReturnKeeps(c: Codec, cap: nat, s: State)
    requires Inv(c, cap, s) && Enabled(c, s, EndReturn)
    ensures Inv(c, cap, DoEndReturn(s))
  {
    assert s.fd.taken + s.sh.out + [] == s.fd.taken + s.sh.out;
  }

  lemma DecodeKeeps(c: Codec, cap: nat, s: State)
    requires Inv(c, cap, s) && Enabled(c, s, Decode)
    ensures Inv(c, cap, DoDecode(c, s))
  {
    var d, b := s.dec, s.dec.local[0];
    var done := d.done + [b];
    assert done[..|done| - 1] == d.done;
    assert d.done + d.local == done + d.local[1..];
    assert s.fd.taken + s.sh.out + (d.pending + c.emit(d.done, b))
        == s.fd.taken + s.sh.out + d.pending + c.emit(d.done, b);
  }

  lemma AppendKeeps(c: Codec, cap: nat, s: State, n: nat)
    requires Inv(c, cap, s) && Enabled(c, s, Append(n))
    ensures Inv(c, cap, DoAppend(s, n, cap))
  {
    var p := s.dec.pending;
    assert p == p[..n] + p[n..];
    assert s.fd.taken + (s.sh.out + p[..n]) + p[n..] == s.fd.taken + s.sh.out + p;
    assert |s.fd.taken + s.sh.out + p| == |s.fd.taken| + |s.sh.out| + |p|;
  }

  lemma ReadCheckKeeps(c: Codec, cap: nat, s: State, n: nat)
    requires Inv(c, cap, s) && Enabled(c, s, ReadCheck(n))
    ensures Inv(c, cap, DoReadCheck(c, s, n))
  {
    var d, buf := s.dec, s.sh.buf;
    if buf != [] {
      assert buf == buf[..n] + buf[n..];
      assert d.done + [] + buf == d.done + buf[..n] + buf[n..];
    }
    assert s.fd.taken + s.sh.out + [] == s.fd.taken + s.sh.out && Out(c, d.done) + [] == Out(c, d.done);
  }

  lemma DecoderEndKeeps(c: Codec, cap: nat, s: State, step: Step)
    requires Inv(c, cap, s) && Enabled(c, s, step)
    requires step.Read? || step.Stop? || step.Finish?
    ensures Inv(c, cap, Apply(c, cap, s, step))
  {
  }

  lemma StepKeeps(c: Codec, cap: nat, s: State, step: Step)
    requires Inv(c, cap, s) && Enabled(c, s, step)
    ensures Inv(c, cap, Apply(c, cap, s, step))
  {
    match step {
      case Feed(p) => FeedKeeps(c, cap, s, p);
      case FeedCheck => FeederKeeps(c, cap, s, step);
      case End => FeederKeeps(c, cap, s, step);
      case Abort => FeederKeeps(c, cap, s, step);
      case Take => TakeKeeps(c, cap, s);
      case EndReturn => EndReturnKeeps(c, cap, s);
      case Decode => DecodeKeeps(c, cap, s);
      case Append(n) => AppendKeeps(c, cap, s, n);
      case ReadCheck(n) => ReadCheckKeeps(c, cap, s, n);
      case _ => DecoderEndKeeps(c, cap, s, step);
    }
  }

  lemma {:induction false} Invariant(c: Codec, cap: nat, steps: seq<Step>)
    ensures Inv(c, cap, After(c, cap, steps))
    decreases |steps|
  {
    if steps != [] {
      var before := steps[..|steps| - 1];
      Invariant(c, cap, before);
      var s, step := After(c, cap, before), steps[|steps| - 1];
      if Enabled(c, s, step) {
        StepKeeps(c, cap, s, step);
      }
    }
  }

  // ------------------------------------------------------------ what it gives, over every interleaving

  /** The feeder and the decoder never wait for each other: not in feed, and not
      in end. */
  lemma NeverBothAsleep(c: Codec, cap: nat, steps: seq<Step>)
    ensures var s := After(c, cap, steps);
            !(s.dec.pc.Asleep? && (s.fd.pc.FeedAsleep? || s.fd.pc.EndWaiting?))
  {
    Invariant(c, cap, steps);
  }

  /** When no feed is under way, everything accepted so far has been decoded and
      its output is there to be taken, unless the decoder ended or was aborted. */
  lemma FeedWaitsForDecoder(c: Codec, cap: nat, steps: seq<Step>)
    ensures var s := After(c, cap, steps);
            s.fd.pc.Idle? && !s.sh.finished && !s.sh.aborted ==>
              s.sh.buf == [] && s.dec.done == s.fd.fed && s.fd.taken + s.sh.out == Out(c, s.fd.fed)
  {
    Invariant(c, cap, steps);
    var s := After(c, cap, steps);
    if s.fd.pc.Idle? && !s.sh.finished && !s.sh.aborted {
      assert s.dec.done + [] + [] == s.dec.done;
      assert s.fd.fed != [] ==> s.dec.pending == [];
      assert s.fd.taken + s.sh.out + [] == s.fd.taken + s.sh.out;
    }
  }

  /** Where an unaborted decoder ended, the bytes it never saw do not matter. */
  lemma EndedWhere(c: Codec, cap: nat, s: State)
    requires Inv(c, cap, s) && s.dec.pc.Gone? && !s.sh.aborted && !s.dec.tooBig
    ensures Consumed(c, s.fd.offered) == s.dec.done
    ensures s.dec.eofSeen ==> c.verdict(s.dec.done) == More
    ensures !s.dec.eofSeen ==> c.verdict(s.dec.done) != More
  {
    var rest := s.dec.local + s.sh.buf + s.fd.offered[|s.fd.fed|..];
    assert s.fd.offered == s.fd.fed + s.fd.offered[|s.fd.fed|..] == s.dec.done + rest;
    StoppedConsumed(c, s.dec.done, rest);
  }

  /** A decoder that stopped at the output cap had more to say than the cap. */
  lemma TooBigWhere(c: Codec, cap: nat, s: State)
    requires Inv(c, cap, s) && s.dec.tooBig && !s.sh.aborted && s.dec.pc.Gone?
    ensures |Full(c, s.fd.offered)| > cap
  {
    var rest := s.dec.local + s.sh.buf + s.fd.offered[|s.fd.fed|..];
    assert s.fd.offered == s.fd.fed + s.fd.offered[|s.fd.fed|..] == s.dec.done + rest;
    if s.dec.eofSeen {
      StoppedConsumed(c, s.dec.done, rest);
    } else {
      OutGrows(c, s.dec.done, rest);
    }
  }

  /** For every way of splitting the input into chunks and every interleaving:
      when end has returned and nobody aborted, it reports an error exactly when
      decoding the whole input in one piece fails or exceeds the output cap, and
      otherwise everything handed out, in order, is that decoding. */
  lemma StreamingIsOneShot(c: Codec, cap: nat, steps: seq<Step>)
    requires var s := After(c, cap, steps); s.fd.pc.EndReturned? && !s.sh.aborted
    ensures var s := After(c, cap, steps);
            && (s.sh.failed <==> !Clean(c, s.fd.offered) || |Full(c, s.fd.offered)| > cap)
            && (!s.sh.failed ==> s.fd.taken == Full(c, s.fd.offered))
  {
    Invariant(c, cap, steps);
    var s := After(c, cap, steps);
    if s.dec.tooBig {
      TooBigWhere(c, cap, s);
    } else {
      EndedWhere(c, cap, s);
      assert s.fd.taken + [] + [] == s.fd.taken;
    }
  }

  /** Two runs over the same input, however it was split and scheduled, agree. */
  lemma ChunkingIndependent(c: Codec, cap: nat, steps: seq<Step>, steps': seq<Step>)
    requires var s, s' := After(c, cap, steps), After(c, cap, steps');
             && s.fd.pc.EndReturned? && s'.fd.pc.EndReturned? && !s.sh.aborted && !s'.sh.aborted
             && s.fd.offered == s'.fd.offered
    ensures var s, s' := After(c, cap, steps), After(c, cap, steps');
            s.sh.failed == s'.sh.failed && (!s.sh.failed ==> s.fd.taken == s'.fd.taken)
  {
    StreamingIsOneShot(c, cap, steps);
    StreamingIsOneShot(c, cap, steps');
  }

  // ------------------------------------------------------------ sniffing the wrapper of "unzip"

  datatype Method = Gunzip | Inflate

  function Sniffed(x: Bytes): Method
    requires |x| >= 2
  {
    if x[0] == 0x1f && x[1] == 0x8b then Gunzip else Inflate
  }

  datatype Fed = NothingYet | Fed(chunk: Bytes)

  /** The decompressing side of zlibStream for the method "unzip": the decoder is
      chosen, and started, when two bytes have arrived. */
  class UnzipStream {
    var started: bool
    var codec: Method
    var sniff: Bytes
    ghost var written: Bytes  // what the guest wrote
    ghost var passed: Bytes   // what was passed on to feed

    ghost predicate Valid()
      reads this
    {
      if started then sniff == [] && passed == written && |written| >= 2 && codec == Sniffed(written)
      else sniff == written && passed == [] && |written| < 2
    }

    constructor ()
      ensures Valid() && !started && written == []
    {
      started, codec, sniff := false, Inflate, [];
      written, passed := [], [];
    }

    /** opZlibStreamWrite up to the call of feed: what is fed, if anything. */
    method Write(data: Bytes) returns (fed: Fed)
      requires Valid()
      modifies this
      ensures Valid() && written == old(written) + data
      ensures started <==> |written| >= 2
      ensures fed == NothingYet <==> !started
      ensures fed.Fed? ==> passed == old(passed) + fed.chunk
    {
      written := written + data;
      var chunk := data;
      if !started {
        sniff := sniff + data;
        chunk := [];
        if |sniff| < 2 {
          return NothingYet;
        }
        codec := Sniffed(sniff);
        started := true;
        chunk, sniff := sniff, [];
      }
      passed := passed + chunk;
      fed := Fed(chunk);
    }
  }

  function Join(chunks: seq<Bytes>): Bytes {
    if chunks == [] then [] else Join(chunks[..|chunks| - 1]) + chunks[|chunks| - 1]
  }

  /** What ending the stream does: without a decoder it is Z_BUF_ERROR at once. */
  datatype Ending = BufError | DecoderEnds(m: Method)

  /** What reaches feed is the whole input, and the codec is chosen by its first two bytes;
      an input of fewer than two bytes reaches no codec. */
  predicate PassedOn(chunks: seq<Bytes>, feeds: seq<Bytes>, end: Ending) {
    var x := Join(chunks);
    if |x| >= 2 then Join(feeds) == x && end == DecoderEnds(Sniffed(x)) else feeds == [] && end == BufError
  }

  /** Writing chunk after chunk, and ending the stream. */
  method WriteAll(chunks: seq<Bytes>) returns (feeds: seq<Bytes>, end: Ending)
    ensures PassedOn(chunks, feeds, end)
    ensures var x := Join(chunks);
            if |x| < 2 then end == BufError && feeds == []
            else Join(feeds) == x && end == DecoderEnds(if x[0] == 0x1f && x[1] == 0x8b then Gunzip else Inflate)
  {
    var z := new UnzipStream();
    feeds := [];
    for k := 0 to |chunks|
      invariant fresh(z) && z.Valid() && z.written == Join(chunks[..k]) && z.passed == Join(feeds)
      invariant !z.started ==> feeds == []
    {
      assert chunks[..k + 1][..k] == chunks[..k];
      var fed := z.Write(chunks[k]);
      if fed.Fed? {
        assert (feeds + [fed.chunk])[..|feeds|] == feeds;
        feeds := feeds + [fed.chunk];
      }
    }
    assert chunks[..|chunks|] == chunks;
    end := if z.started then DecoderEnds(z.codec) else BufError;
  }

  function CodecOf(gunzip: Codec, inflate: Codec, m: Method): Codec {
    if m.Gunzip? then gunzip else inflate
  }

  /** The stream "unzip" from end to end: for every split of the input and every schedule of
      its decoder, it ends in Z_BUF_ERROR when there are fewer than two bytes, and otherwise
      as decoding the input in one piece with the codec its first two bytes name. */
  lemma UnzipIsOneShot(gunzip: Codec, inflate: Codec, cap: nat, chunks: seq<Bytes>, feeds: seq<Bytes>, end: Ending,
                       steps: seq<Step>)
    requires PassedOn(chunks, feeds, end)
    requires end.DecoderEnds? ==>
               var s := After(CodecOf(gunzip, inflate, end.m), cap, steps);
               s.fd.pc.EndReturned? && !s.sh.aborted && s.fd.offered == Join(feeds)
    ensures end == BufError <==> |Join(chunks)| < 2
    ensures end.DecoderEnds? ==> |Join(chunks)| >= 2
    ensures end.DecoderEnds? ==>
              var x := Join(chunks);
              var c := if x[0] == 0x1f && x[1] == 0x8b then gunzip else inflate;
              var s := After(c, cap, steps);
              && (s.sh.failed <==> !Clean(c, x) || |Full(c, x)| > cap)
              && (!s.sh.failed ==> s.fd.taken == Full(c, x))
  {
    if end.DecoderEnds? {
      StreamingIsOneShot(CodecOf(gunzip, inflate, end.m), cap, steps);
    }
  }
}
