/** Teardown of a half-open TCP connection (compat/nodejs/net.go): the read
    pump, net_end, net_close and closeNet race under one mutex for the writer and
    for the event-loop pending that keeps the process alive. */
module HalfOpen {

  type Id = nat

  /** The connection's goroutine: not started (an accepted connection before
      net_attach), dialling, reading, or gone. */
  datatype Pump = NotStarted | Dialing | Reading | Exited

  /** One id in the tables conns, writers and readEnded, the flags of its writer,
      its goroutine, and the calls that a locked section decided on and that are
      made after unlocking: requestClose and DonePending. The rest is history:
      the AddPending and DonePending calls so far, how often the writer was taken
      out of the table, how often its close was requested, and whether the
      guest's end and the peer's FIN have been processed. */
  datatype Conn = Conn(
    conns: bool, writers: bool, readEnded: bool, half: bool, closeReq: bool, pump: Pump,
    closing: nat, releasing: nat,
    added: nat, released: nat, taken: nat, closeRequests: nat, dialFailed: bool, guestEnd: bool, peerFin: bool)

  const CONNECTING := Conn(false, true, false, false, false, Dialing, 0, 0, 1, 0, 0, 0, false, false, false)
  const ACCEPTED := Conn(true, true, false, false, false, NotStarted, 0, 0, 0, 0, 0, 0, false, false, false)

  /** The loop's pending counter and every connection there ever was. */
  datatype State = State(pending: int, table: map<Id, Conn>)

  const INIT := State(0, map[])

  datatype Step =
    | Connect(id: Id)              // opNetConnect, up to the dialling goroutine
    | Accept(id: Id)               // registerConn
    | Attach(id: Id)               // opNetAttach
    | DialFails(id: Id)            // the dial error's locked section
    | DialDone(id: Id)             // the locked section behind a successful dial
    | ReadFails(id: Id, eof: bool) // pumpConn's locked section behind a read error
    | NetEnd(id: Id)               // opNetEnd's locked section
    | NetClose(id: Id)             // opNetClose's locked section
    | CloseNet                     // closeNet's locked section
    | RequestClose(id: Id)         // a requestClose decided on earlier
    | DonePending(id: Id)          // a DonePending decided on earlier

  /** Taking the id out of the tables and deciding to close its writer. */
  function Take(c: Conn): Conn {
    c.(conns := false, writers := false, readEnded := false,
       closing := c.closing + (if c.writers then 1 else 0), taken := c.taken + (if c.writers then 1 else 0))
  }

  function Release(c: Conn): Conn {
    c.(releasing := c.releasing + 1)
  }

  function WriteSideEnded(c: Conn): bool {
    c.half || c.closeReq
  }

  function ReadFailed(c: Conn, eof: bool): Conn {
    var seen := c.(pump := Exited, peerFin := c.peerFin || eof);
    if eof && c.conns && c.writers && !WriteSideEnded(c) then seen.(readEnded := true)
    else Release(Take(seen))
  }

  function Ended(c: Conn): Conn {
    var seen := c.(guestEnd := true);
    if !c.writers then seen
    else if c.readEnded then Release(Take(seen))
    else seen.(half := true)
  }

  function Closed(c: Conn): Conn {
    if c.readEnded then Release(Take(c)) else Take(c)
  }

  function DialFailed(c: Conn): Conn {
    c.(pump := Exited, dialFailed := true, writers := false, taken := c.taken + (if c.writers then 1 else 0),
       closing := c.closing + 1, releasing := c.releasing + 1)
  }

  function Dialed(c: Conn): Conn {
    if c.writers then c.(conns := true, pump := Reading) else Release(c.(pump := Exited))
  }

  predicate Enabled(s: State, step: Step) {
    match step
    case Connect(id) => id !in s.table
    case Accept(id) => id !in s.table
    case Attach(id) => id in s.table && s.table[id].pump.NotStarted? && s.table[id].conns
    case DialFails(id) => id in s.table && s.table[id].pump.Dialing?
    case DialDone(id) => id in s.table && s.table[id].pump.Dialing?
    case ReadFails(id, _) => id in s.table && s.table[id].pump.Reading?
    case NetEnd(id) => id in s.table
    case NetClose(id) => id in s.table
    case CloseNet => true
    case RequestClose(id) => id in s.table && s.table[id].closing > 0
    case DonePending(id) => id in s.table && s.table[id].releasing > 0
  }

  /** What a step does to the connection it names. */
  function Act(c: Conn, step: Step): Conn {
    match step
    case Attach(_) => c.(pump := Reading, added := c.added + 1)
    case DialFails(_) => DialFailed(c)
    case DialDone(_) => Dialed(c)
    case ReadFails(_, eof) => ReadFailed(c, eof)
    case NetEnd(_) => Ended(c)
    case NetClose(_) => Closed(c)
    case RequestClose(_) =>
      if c.closing > 0 then c.(closing := c.closing - 1, closeReq := true, closeRequests := c.closeRequests + 1) else c
    case DonePending(_) => if c.releasing > 0 then c.(releasing := c.releasing - 1, released := c.released + 1) else c
    case _ => c
  }

  function Apply(s: State, step: Step): State
    requires Enabled(s, step)
  {
    match step
    case Connect(id) => State(s.pending + 1, s.table[id := CONNECTING])
    case Accept(id) => State(s.pending, s.table[id := ACCEPTED])
    case Attach(id) => State(s.pending + 1, s.table[id := Act(s.table[id], step)])
    case DonePending(id) => State(s.pending - 1, s.table[id := Act(s.table[id], step)])
    case CloseNet => State(s.pending, map id | id in s.table :: Closed(s.table[id]))
    case _ => State(s.pending, s.table[step.id := Act(s.table[step.id], step)])
  }

  /** The state after a schedule; steps that are not enabled are passed over. */
  function After(steps: seq<Step>): State
    decreases |steps|
  {
    if steps == [] then INIT
    else
      var s, step := After(steps[..|steps| - 1]), steps[|steps| - 1];
      if Enabled(s, step) then Apply(s, step) else s
  }

  // ------------------------------------------------------------ the invariant

  function Count(b: bool): nat {
    if b then 1 else 0
  }

  predicate PumpHolds(c: Conn) {
    c.pump.Dialing? || c.pump.Reading?
  }

  predicate Attached(c: Conn) {
    c.pump.Reading? || c.pump.Exited?
  }

  predicate Inv(c: Conn) {
    // the pending is with the pump, with the readEnded flag, on its way to be released, or released
    && c.added <= 1 && c.added == Count(PumpHolds(c)) + Count(c.readEnded) + c.releasing + c.released
    && (c.pump.NotStarted? <==> c.added == 0)
    // the writer leaves the table once, together with the conn and the flag
    && c.taken + Count(c.writers) == 1
    && (c.conns ==> c.writers && !c.pump.Dialing?) && (c.writers && Attached(c) ==> c.conns)
    && (c.readEnded ==> c.writers && c.pump.Exited?)
    && (c.pump.Exited? && c.writers ==> c.readEnded)
    // whoever takes it out requests its close, and nobody else does but a failed dial
    && (c.writers ==> !c.closeReq) && (c.dialFailed ==> !c.writers && c.pump.Exited?)
    && (if c.dialFailed then 1 <= c.closing + c.closeRequests <= 2 else c.closing + c.closeRequests == c.taken)
    // of the two halves, each is ended by its own side
    && (c.writers ==> !(c.half && c.readEnded)) && (c.guestEnd && c.writers ==> c.half)
    && (c.peerFin && c.writers ==> c.readEnded) && (c.peerFin ==> c.pump.Exited? && !c.dialFailed)
  }

  lemma DialKeeps(c: Conn)
    requires Inv(c) && c.pump.Dialing?
    ensures Inv(DialFailed(c)) && Inv(Dialed(c))
  {
  }

  lemma ReadKeeps(c: Conn, eof: bool)
    requires Inv(c) && c.pump.Reading?
    ensures Inv(ReadFailed(c, eof))
  {
  }

  lemma EndKeeps(c: Conn)
    requires Inv(c)
    ensures Inv(Ended(c))
  {
  }

  lemma CloseKeeps(c: Conn)
    requires Inv(c)
    ensures Inv(Closed(c))
  {
  }

  lemma TailKeeps(c: Conn, step: Step)
    requires Inv(c) && (step.RequestClose? || step.DonePending?)
    ensures Inv(Act(c, step))
  {
  }

  lemma ActKeeps(s: State, step: Step, id: Id)
    requires Enabled(s, step) && id in s.table && Inv(s.table[id]) && !step.CloseNet? && step.id == id
    ensures Inv(Act(s.table[id], step))
  {
    var c := s.table[id];
    match step {
      case DialFails(_) => DialKeeps(c);
      case DialDone(_) => DialKeeps(c);
      case ReadFails(_, eof) => ReadKeeps(c, eof);
      case NetEnd(_) => EndKeeps(c);
      case NetClose(_) => CloseKeeps(c);
      case RequestClose(_) => TailKeeps(c, step);
      case DonePending(_) => TailKeeps(c, step);
      case _ =>
    }
  }

  lemma {:induction false} Invariant(steps: seq<Step>, id: Id)
    ensures id in After(steps).table ==> Inv(After(steps).table[id])
    decreases |steps|
  {
    if steps != [] {
      var before := steps[..|steps| - 1];
      var s, step := After(before), steps[|steps| - 1];
      Invariant(before, id);
      if Enabled(s, step) && id in s.table {
        if step.CloseNet? {
          CloseKeeps(s.table[id]);
        } else if step.id == id {
          ActKeeps(s, step, id);
        }
      }
    }
  }

  // ------------------------------------------------------------ what it gives, over every run

  /** The pending of a connection has exactly one owner: its goroutine, the
      readEnded flag, a release under way, or nobody because it was released; so
      it is never released twice. */
  lemma OneOwner(steps: seq<Step>, id: Id)
    requires id in After(steps).table
    ensures var c := After(steps).table[id];
            if c.pump.NotStarted? then c.added == 0 && c.releasing == 0 && c.released == 0 && !c.readEnded
            else c.added == 1 == Count(PumpHolds(c)) + Count(c.readEnded) + c.releasing + c.released
  {
    Invariant(steps, id);
  }

  /** A half-open connection is still writable, and is in both tables. */
  lemma HalfOpenIsWritable(steps: seq<Step>, id: Id)
    requires id in After(steps).table && After(steps).table[id].readEnded
    ensures var c := After(steps).table[id];
            c.writers && c.conns && !WriteSideEnded(c) && c.closing == 0 && c.closeRequests == 0
  {
    Invariant(steps, id);
  }

  /** Once the peer's FIN and the guest's end have both been processed, in either
      order, the id is out of the tables, exactly one path took it out, exactly one
      close of the writer was requested or is about to be, and the same for the
      release of the pending. */
  lemma BothHalvesEnded(steps: seq<Step>, id: Id)
    requires id in After(steps).table && After(steps).table[id].guestEnd && After(steps).table[id].peerFin
    ensures var c := After(steps).table[id];
            && !c.conns && !c.writers && !c.readEnded && c.taken == 1
            && c.closing + c.closeRequests == 1 && c.releasing + c.released == 1
  {
    Invariant(steps, id);
  }

  /** Until then, an attached connection that nobody closed is in the tables. */
  lemma TakenOnlyByAPath(steps: seq<Step>, id: Id)
    requires id in After(steps).table
    ensures var c := After(steps).table[id];
            && (c.taken == 1 <==> !c.writers) && (c.taken == 0 ==> c.closing + c.closeRequests == 0)
            && (!c.dialFailed ==> c.closing + c.closeRequests == c.taken)
  {
    Invariant(steps, id);
  }

  /** Neither an error nor a close of the connection. */
  predicate Quiet(step: Step, id: Id) {
    match step
    case DialFails(i) => i != id
    case ReadFails(i, eof) => i != id || eof
    case NetClose(i) => i != id
    case CloseNet => false
    case _ => true
  }

  /** The connection stays up until both halves have ended: with the peer's FIN alone it is
      half open, with the guest's end alone it is half closed. */
  predicate ByHalves(c: Conn) {
    && (!c.writers <==> c.guestEnd && c.peerFin)
    && (c.pump.Exited? ==> c.peerFin)
    && (c.peerFin && !c.guestEnd ==> c.readEnded && c.conns && !c.half && !c.closeReq && c.closing == 0)
    && (c.guestEnd && !c.peerFin ==> c.half && !c.closeReq && c.closing == 0)
    && (!c.guestEnd ==> !c.half)
  }

  lemma QuietAct(s: State, step: Step, id: Id)
    requires Enabled(s, step) && id in s.table && Inv(s.table[id]) && ByHalves(s.table[id]) && Quiet(step, id)
    requires step.id == id
    ensures ByHalves(Act(s.table[id], step))
  {
  }

  /** Over every run in which nothing else befalls the connection: a FIN does not close it and
      the guest's end does not, in either order, and the two together do. */
  lemma {:induction false} ClosedByHalves(steps: seq<Step>, id: Id)
    requires forall j :: 0 <= j < |steps| ==> Quiet(steps[j], id)
    ensures id in After(steps).table ==> ByHalves(After(steps).table[id])
    decreases |steps|
  {
    if steps != [] {
      var before := steps[..|steps| - 1];
      var s, step := After(before), steps[|steps| - 1];
      ClosedByHalves(before, id);
      Invariant(before, id);
      assert Quiet(steps[|steps| - 1], id);
      if Enabled(s, step) && id in s.table && step.id == id {
        QuietAct(s, step, id);
      }
    }
  }

  /** The ids whose pending has been added and not yet released. */
  function Held(s: State): set<Id> {
    set id | id in s.table && s.table[id].added > s.table[id].released
  }

  lemma HeldStep(s: State, step: Step)
    requires Enabled(s, step) && forall id :: id in s.table ==> Inv(s.table[id])
    ensures Held(Apply(s, step))
            == if step.Connect? || step.Attach? then Held(s) + {step.id}
               else if step.DonePending? then Held(s) - {step.id} else Held(s)
    ensures step.DonePending? ==> step.id in Held(s)
    ensures step.Connect? || step.Attach? ==> step.id !in Held(s)
  {
    var s' := Apply(s, step);
    forall id
      ensures id in Held(s') <==> if step.DonePending? && id == step.id then false
                                  else id in Held(s) || ((step.Connect? || step.Attach?) && id == step.id)
    {
      if id in s.table {
        assert Inv(s.table[id]);
      }
    }
  }

  /** The loop's pending counter is the number of connections that hold it, so no
      interleaving leaves it too low to keep a live connection's loop running or
      too high to let it end. */
  lemma {:induction false} PendingCountsHolders(steps: seq<Step>)
    ensures After(steps).pending == |Held(After(steps))|
    decreases |steps|
  {
    if steps != [] {
      var before := steps[..|steps| - 1];
      var s, step := After(before), steps[|steps| - 1];
      PendingCountsHolders(before);
      forall id | id in s.table
        ensures Inv(s.table[id])
      {
        Invariant(before, id);
      }
      if Enabled(s, step) {
        HeldStep(s, step);
      }
    }
  }
}
