/** The off-loop write actor of a connection (compat/nodejs/net.go, connWriter):
    its run goroutine against enqueue, attach, requestClose and requestHalfClose,
    with the one-slot wake channel. */
module WriteActor {

  /** What reaches the connection. Chunks are numbered in the order in which
      enqueue accepted them. */
  datatype Act = Wrote(chunk: nat) | Failed(chunk: nat) | ClosedWrite | Closed

  /** Where run stands. closing and conn are its snapshot of closeReq and of the
      connection's presence, hand the chunks it took and has not handled. */
  datatype Pc =
    | Top
    | Batch(hand: seq<nat>, closing: bool, conn: bool)
    | Closing(conn: bool)
    | Leftover
    | HalfCheck(conn: bool)
    | Halving
    | Waiting
    | Returned

  datatype State = State(
    conn: bool, queue: seq<nat>, closeReq: bool, halfReq: bool, halfDone: bool,
    wake: bool,        // the slot of the wake channel
    signals: nat,      // callers that have unlocked and not yet signalled
    pc: Pc,
    accepted: nat,     // chunks enqueue accepted
    acks: seq<nat>,    // chunks whose onDone fired, in order
    log: seq<Act>,
    halfAt: nat,       // chunks accepted before the first requestHalfClose
    dropped: bool,     // chunks were acknowledged without a connection
    saw: bool)         // run's last snapshot had a connection

  const INIT := State(false, [], false, false, false, false, 0, Top, 0, [], [], 0, false, false)

  datatype Step =
    | Enqueue | Attach | RequestClose | RequestHalfClose | Signal
    | Snapshot | WriteOk | WriteFails | EndBatch | CloseConn | TakeLeftover | CheckHalf | CloseWrite | Wake

  predicate Enabled(s: State, step: Step) {
    match step
    case Enqueue => true
    case Attach => true
    case RequestClose => true
    case RequestHalfClose => true
    case Signal => s.signals > 0
    case Snapshot => s.pc.Top?
    case WriteOk => s.pc.Batch? && s.pc.hand != []
    case WriteFails => s.pc.Batch? && s.pc.hand != []
    case EndBatch => s.pc.Batch? && s.pc.hand == []
    case CloseConn => s.pc.Closing?
    case TakeLeftover => s.pc.Leftover?
    case CheckHalf => s.pc.HalfCheck?
    case CloseWrite => s.pc.Halving?
    case Wake => s.pc.Waiting? && s.wake
  }

  /** A writer that is closing acknowledges at once and keeps nothing. */
  function DoEnqueue(s: State): State {
    if s.closeReq then s
    else s.(queue := s.queue + [s.accepted], accepted := s.accepted + 1, signals := s.signals + 1)
  }

  function DoRequestHalfClose(s: State): State {
    s.(halfReq := true, signals := s.signals + 1, halfAt := if s.halfReq then s.halfAt else s.accepted)
  }

  function DoSnapshot(s: State): State {
    if s.conn then s.(queue := [], pc := Batch(s.queue, s.closeReq, true), saw := true)
    else s.(pc := Batch([], s.closeReq, false), saw := false)
  }

  function DoWriteOk(s: State): State
    requires s.pc.Batch? && s.pc.hand != []
  {
    var k := s.pc.hand[0];
    s.(log := s.log + [Wrote(k)], acks := s.acks + [k], pc := s.pc.(hand := s.pc.hand[1..]))
  }

  /** The rest of the batch is acknowledged and not written. */
  function DoWriteFails(s: State): State
    requires s.pc.Batch? && s.pc.hand != []
  {
    s.(log := s.log + [Failed(s.pc.hand[0])], acks := s.acks + s.pc.hand, pc := s.pc.(hand := []))
  }

  function DoEndBatch(s: State): State
    requires s.pc.Batch?
  {
    s.(pc := if s.pc.closing then Closing(s.pc.conn) else HalfCheck(s.pc.conn))
  }

  function DoCloseConn(s: State): State
    requires s.pc.Closing?
  {
    s.(pc := Leftover, log := if s.pc.conn then s.log + [Closed] else s.log)
  }

  function DoTakeLeftover(s: State): State {
    s.(pc := Returned, acks := s.acks + s.queue, queue := [], dropped := s.dropped || s.queue != [])
  }

  function DoCheckHalf(s: State): State
    requires s.pc.HalfCheck?
  {
    if s.halfReq && !s.halfDone && s.queue == [] && s.pc.conn then s.(halfDone := true, pc := Halving)
    else s.(pc := Waiting)
  }

  function DoCloseWrite(s: State): State {
    s.(log := s.log + [ClosedWrite], pc := Waiting)
  }

  function Apply(s: State, step: Step): State
    requires Enabled(s, step)
  {
    match step
    case Enqueue => DoEnqueue(s)
    case Attach => s.(conn := true, signals := s.signals + 1)
    case RequestClose => s.(closeReq := true, signals := s.signals + 1)
    case RequestHalfClose => DoRequestHalfClose(s)
    case Signal => s.(signals := s.signals - 1, wake := true)
    case Snapshot => DoSnapshot(s)
    case WriteOk => DoWriteOk(s)
    case WriteFails => DoWriteFails(s)
    case EndBatch => DoEndBatch(s)
    case CloseConn => DoCloseConn(s)
    case TakeLeftover => DoTakeLeftover(s)
    case CheckHalf => DoCheckHalf(s)
    case CloseWrite => DoCloseWrite(s)
    case Wake => s.(wake := false, pc := Top)
  }

  /** The state after a schedule; steps that are not enabled are passed over. */
  function After(steps: seq<Step>): State
    decreases |steps|
  {
    if steps == [] then INIT
    else
      var s, step := After(steps[..|steps| - 1]), steps[|steps| - 1];
      if Enabled(s, step) then Apply(s, step) else s
  }

  // ------------------------------------------------------------ sequences of chunks and acts

  function Range(lo: nat, hi: nat): (r: seq<nat>)
    requires lo <= hi
    ensures |r| == hi - lo && forall j :: 0 <= j < |r| ==> r[j] == lo + j
    decreases hi
  {
    if lo == hi then [] else Range(lo, hi - 1) + [hi - 1]
  }

  lemma RangeAppend(lo: nat, mid: nat, hi: nat)
    requires lo <= mid <= hi
    ensures Range(lo, mid) + Range(mid, hi) == Range(lo, hi)
  {
  }

  /** The chunks handed to Write, in order. */
  function Attempts(log: seq<Act>): seq<nat> {
    if log == [] then []
    else
      var last := log[|log| - 1];
      Attempts(log[..|log| - 1]) + (if last.Wrote? || last.Failed? then [last.chunk] else [])
  }

  predicate NoFailure(log: seq<Act>) {
    forall j :: 0 <= j < |log| ==> !log[j].Failed?
  }

  predicate Increasing(cs: seq<nat>) {
    forall i, j :: 0 <= i < j < |cs| ==> cs[i] < cs[j]
  }

  predicate AllBelow(cs: seq<nat>, limit: nat) {
    forall j :: 0 <= j < |cs| ==> cs[j] < limit
  }

  /** What happened before the first ClosedWrite. */
  function BeforeFin(log: seq<Act>): seq<Act> {
    if log == [] || ClosedWrite !in log then log else BeforeFin(log[..|log| - 1])
  }

  function FinCount(log: seq<Act>): nat {
    if log == [] then 0 else FinCount(log[..|log| - 1]) + (if log[|log| - 1].ClosedWrite? then 1 else 0)
  }

  lemma LogPush(log: seq<Act>, act: Act)
    ensures Attempts(log + [act]) == Attempts(log) + (if act.Wrote? || act.Failed? then [act.chunk] else [])
    ensures FinCount(log + [act]) == FinCount(log) + (if act.ClosedWrite? then 1 else 0)
    ensures NoFailure(log + [act]) <==> NoFailure(log) && !act.Failed?
    ensures ClosedWrite in log + [act] <==> ClosedWrite in log || act.ClosedWrite?
    ensures BeforeFin(log + [act]) == if act.ClosedWrite? || ClosedWrite in log then BeforeFin(log) else log + [act]
  {
    var longer := log + [act];
    assert longer[..|log|] == log && longer[|log|] == act;
    if NoFailure(longer) {
      forall j | 0 <= j < |log|
        ensures !log[j].Failed?
      {
        assert longer[j] == log[j];
      }
    }
    assert forall x :: x in longer <==> x in log || x == act;
  }

  // ------------------------------------------------------------ the invariant

  function Hand(pc: Pc): seq<nat> {
    if pc.Batch? then pc.hand else []
  }

  /** Acknowledged, in hand and queued, in this order, are the accepted chunks. */
  predicate Flow(s: State) {
    var a := |s.acks|;
    var h := a + |Hand(s.pc)|;
    && h <= s.accepted && s.acks == Range(0, a) && Hand(s.pc) == Range(a, h) && s.queue == Range(h, s.accepted)
  }

  /** What was handed to Write. */
  predicate Written(s: State) {
    && Increasing(Attempts(s.log)) && AllBelow(Attempts(s.log), |s.acks|)
    && (NoFailure(s.log) && !s.dropped ==> Attempts(s.log) == s.acks)
  }

  predicate Ending(pc: Pc) {
    (pc.Batch? && pc.closing) || pc.Closing? || pc.Leftover? || pc.Returned?
  }

  /** The end of the run. */
  predicate Ends(s: State) {
    && (Ending(s.pc) ==> s.closeReq)
    && (s.pc.Batch? && s.pc.hand != [] ==> s.pc.conn)
    && ((s.pc.Batch? && s.pc.closing && s.pc.conn) || (s.pc.Closing? && s.pc.conn) || s.pc.Returned? ==> s.queue == [])
    && (Closed in s.log ==>
          && (s.pc.Leftover? || s.pc.Returned?) && s.queue == [] && !s.dropped
          && s.log[|s.log| - 1] == Closed && Closed !in s.log[..|s.log| - 1])
    && (s.dropped ==> s.pc.Returned?)
  }

  /** What run does to a connection it does to the one its last snapshot saw. */
  predicate Sees(s: State) {
    && (s.saw ==> s.conn) && (!s.saw ==> s.log == [])
    && (match s.pc
        case Batch(_, _, conn) => conn == s.saw
        case Closing(conn) => conn == s.saw
        case HalfCheck(conn) => conn == s.saw
        case Halving => s.saw
        case Leftover => Closed in s.log <==> s.saw
        case Returned => Closed in s.log <==> s.saw
        case _ => true)
  }

  /** The half-close. */
  predicate HalfClose(s: State) {
    && s.halfAt <= s.accepted
    && FinCount(s.log) == (if s.halfDone && !s.pc.Halving? then 1 else 0)
    && (ClosedWrite in s.log <==> FinCount(s.log) == 1)
    && (s.halfDone ==> s.halfReq)
    && (s.pc.Halving? ==> s.halfDone && s.halfAt <= |s.acks|)
    && (ClosedWrite in s.log && NoFailure(BeforeFin(s.log)) ==>
          && s.halfAt <= |Attempts(BeforeFin(s.log))|
          && Attempts(BeforeFin(s.log)) == Range(0, |Attempts(BeforeFin(s.log))|))
  }

  /** There is something for run to do. */
  predicate Actionable(s: State) {
    s.closeReq || (s.conn && s.queue != []) || (s.halfReq && !s.halfDone && s.queue == [] && s.conn)
  }

  /** Whatever happened since run's snapshot has left a token in the wake slot or
      a caller about to put one there. */
  predicate Woken(s: State) {
    || s.wake || s.signals > 0
    || (match s.pc
        case Batch(_, closing, conn) => s.conn == conn && s.closeReq == closing && (conn ==> s.queue == [])
        case HalfCheck(conn) => s.conn == conn && !s.closeReq && (conn ==> s.queue == [])
        case Halving => !s.closeReq && s.queue == []
        case Waiting => !Actionable(s)
        case _ => true)
  }

  predicate Inv(s: State) {
    Flow(s) && Written(s) && Ends(s) && Sees(s) && HalfClose(s) && Woken(s)
  }

  // ------------------------------------------------------------ every step keeps it

  lemma EnqueueKeeps(s: State)
    requires Inv(s)
    ensures Inv(DoEnqueue(s))
  {
  }

  lemma CallersKeep(s: State, step: Step)
    requires Inv(s) && Enabled(s, step)
    requires step.Attach? || step.RequestClose? || step.RequestHalfClose? || step.Signal?
    ensures Inv(Apply(s, step))
  {
  }

  lemma SnapshotKeeps(s: State)
    requires Inv(s) && s.pc.Top?
    ensures Inv(DoSnapshot(s))
  {
  }

  lemma AttemptMore(cs: seq<nat>, limit: nat, k: nat, limit': nat)
    requires Increasing(cs) && AllBelow(cs, limit) && limit <= k < limit'
    ensures Increasing(cs + [k]) && AllBelow(cs + [k], limit')
  {
  }

  lemma WriteOkKeeps(s: State)
    requires Inv(s) && s.pc.Batch? && s.pc.hand != []
    ensures Inv(DoWriteOk(s))
  {
    var k := s.pc.hand[0];
    LogPush(s.log, Wrote(k));
    AttemptMore(Attempts(s.log), |s.acks|, k, |s.acks| + 1);
  }

  lemma WriteFailsKeeps(s: State)
    requires Inv(s) && s.pc.Batch? && s.pc.hand != []
    ensures Inv(DoWriteFails(s))
  {
    hide Range, Attempts, BeforeFin, FinCount;
    var k := s.pc.hand[0];
    LogPush(s.log, Failed(k));
    RangeAppend(0, |s.acks|, |s.acks| + |s.pc.hand|);
    AttemptMore(Attempts(s.log), |s.acks|, k, |s.acks| + |s.pc.hand|);
  }

  lemma EndBatchKeeps(s: State)
    requires Inv(s) && s.pc.Batch? && s.pc.hand == []
    ensures Inv(DoEndBatch(s))
  {
  }

  lemma CloseConnKeeps(s: State)
    requires Inv(s) && s.pc.Closing?
    ensures Inv(DoCloseConn(s))
  {
    LogPush(s.log, Closed);
    assert (s.log + [Closed])[..|s.log|] == s.log;
  }

  lemma TakeLeftoverKeeps(s: State)
    requires Inv(s) && s.pc.Leftover?
    ensures Inv(DoTakeLeftover(s))
  {
    RangeAppend(0, |s.acks|, s.accepted);
    assert s.acks + [] == s.acks;
  }

  lemma CheckHalfKeeps(s: State)
    requires Inv(s) && s.pc.HalfCheck?
    ensures Inv(DoCheckHalf(s))
  {
  }

  lemma CloseWriteKeeps(s: State)
    requires Inv(s) && s.pc.Halving?
    ensures Inv(DoCloseWrite(s))
  {
    LogPush(s.log, ClosedWrite);
  }

  lemma StepKeeps(s: State, step: Step)
    requires Inv(s) && Enabled(s, step)
    ensures Inv(Apply(s, step))
  {
    match step {
      case Enqueue => EnqueueKeeps(s);
      case Snapshot => SnapshotKeeps(s);
      case WriteOk => WriteOkKeeps(s);
      case WriteFails => WriteFailsKeeps(s);
      case EndBatch => EndBatchKeeps(s);
      case CloseConn => CloseConnKeeps(s);
      case TakeLeftover => TakeLeftoverKeeps(s);
      case CheckHalf => CheckHalfKeeps(s);
      case CloseWrite => CloseWriteKeeps(s);
      case Wake =>
      case _ => CallersKeep(s, step);
    }
  }

  lemma {:induction false} Invariant(steps: seq<Step>)
    ensures Inv(After(steps))
    decreases |steps|
  {
    if steps != [] {
      var before := steps[..|steps| - 1];
      Invariant(before);
      if Enabled(After(before), steps[|steps| - 1]) {
        StepKeeps(After(before), steps[|steps| - 1]);
      }
    }
  }

  // ------------------------------------------------------------ what it gives, over every interleaving

  /** onDone fires for the accepted chunks in order, each at most once; when run
      has returned it has fired for every one of them. */
  lemma AcknowledgedOnce(steps: seq<Step>)
    ensures var s := After(steps);
            && |s.acks| <= s.accepted && s.acks == Range(0, |s.acks|)
            && (s.pc.Returned? ==> s.acks == Range(0, s.accepted))
  {
    Invariant(steps);
  }

  /** No chunk is written twice or out of order, and none is written that was not
      accepted; without a write failure nothing is left out in between. */
  lemma WrittenInOrder(steps: seq<Step>)
    ensures var s := After(steps);
            && Increasing(Attempts(s.log)) && AllBelow(Attempts(s.log), s.accepted)
            && (NoFailure(s.log) && !s.pc.Returned? ==> Attempts(s.log) == Range(0, |s.acks|))
  {
    Invariant(steps);
  }

  /** The connection is closed at most once and last; if no write failed, every
      accepted chunk was written before. */
  lemma FlushedBeforeClose(steps: seq<Step>)
    requires Closed in After(steps).log
    ensures var s := After(steps);
            && s.log[|s.log| - 1] == Closed && Closed !in s.log[..|s.log| - 1]
            && (NoFailure(s.log) ==> Attempts(s.log[..|s.log| - 1]) == Range(0, s.accepted))
  {
    hide After, Range;
    Invariant(steps);
    var s := After(steps);
    var before := s.log[..|s.log| - 1];
    assert s.log == before + [Closed];
    LogPush(before, Closed);
  }

  /** A run that has returned closed the connection exactly when its last snapshot, the one
      that saw the close request, had one; and if it had none, nothing reached any. */
  lemma ClosedWhenAttached(steps: seq<Step>)
    requires After(steps).pc.Returned?
    ensures var s := After(steps); (Closed in s.log <==> s.saw) && (!s.saw ==> s.log == [])
  {
    Invariant(steps);
  }

  /** FIN is sent at most once, and not before every chunk accepted ahead of the
      half-close request was handed to Write; a failed write only ends the batch
      it is in, so then each of them was written or acknowledged. */
  lemma FinAfterEarlierChunks(steps: seq<Step>)
    ensures var s := After(steps);
            && FinCount(s.log) <= 1
            && (s.pc.Halving? ==> s.acks == Range(0, |s.acks|) && s.halfAt <= |s.acks|)
            && (ClosedWrite in s.log && NoFailure(BeforeFin(s.log)) ==>
                  forall k :: 0 <= k < s.halfAt ==> k in Attempts(BeforeFin(s.log)))
  {
    Invariant(steps);
    var s := After(steps);
    if ClosedWrite in s.log && NoFailure(BeforeFin(s.log)) {
      forall k | 0 <= k < s.halfAt
        ensures k in Attempts(BeforeFin(s.log))
      {
        assert Attempts(BeforeFin(s.log))[k] == k;
      }
    }
  }

  /** run never parks on work: with an empty wake slot and no caller about to
      signal, there is nothing to do. */
  lemma NoLostWakeup(steps: seq<Step>)
    ensures var s := After(steps); s.pc.Waiting? && !s.wake && s.signals == 0 ==> !Actionable(s)
  {
    Invariant(steps);
  }

  /** The number of chunks accepted when the half-close was first requested. */
  lemma {:induction false} HalfAtIs(p: seq<Step>, q: seq<Step>)
    requires !After(p).halfReq
    ensures var s := After(p + [RequestHalfClose] + q); s.halfReq && s.halfAt == After(p).accepted
    decreases |q|
  {
    hide Apply, Enabled;
    var steps := p + [RequestHalfClose] + q;
    if q == [] {
      assert steps == p + [RequestHalfClose] && steps[..|p|] == p;
      FirstRequest(After(p));
    } else {
      var before := p + [RequestHalfClose] + q[..|q| - 1];
      assert steps[..|steps| - 1] == before && steps[|steps| - 1] == q[|q| - 1];
      HalfAtIs(p, q[..|q| - 1]);
      if Enabled(After(before), q[|q| - 1]) {
        HalfAtStays(After(before), q[|q| - 1]);
      }
    }
  }

  lemma FirstRequest(s: State)
    requires !s.halfReq
    ensures Enabled(s, RequestHalfClose)
    ensures Apply(s, RequestHalfClose).halfReq && Apply(s, RequestHalfClose).halfAt == s.accepted
  {
  }

  lemma HalfAtStays(s: State, step: Step)
    requires Enabled(s, step) && s.halfReq
    ensures Apply(s, step).halfReq && Apply(s, step).halfAt == s.halfAt
  {
    hide Range, Attempts, BeforeFin, FinCount;
    if step.Enqueue? || step.Attach? || step.RequestClose? || step.RequestHalfClose? || step.Signal? {
    } else if step.Snapshot? || step.WriteOk? || step.WriteFails? || step.EndBatch? {
    } else {
    }
  }

  /** So FIN comes behind all that was accepted before the request. */
  lemma FinAfterRequest(p: seq<Step>, q: seq<Step>, k: nat)
    requires !After(p).halfReq && k < After(p).accepted
    requires var log := After(p + [RequestHalfClose] + q).log; ClosedWrite in log && NoFailure(BeforeFin(log))
    ensures k in Attempts(BeforeFin(After(p + [RequestHalfClose] + q).log))
  {
    hide After;
    HalfAtIs(p, q);
    FinAfterEarlierChunks(p + [RequestHalfClose] + q);
  }
}
