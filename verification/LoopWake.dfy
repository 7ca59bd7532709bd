/** When the event loop sleeps and when it returns (compat/internal/eventloop/eventloop.go):
    the one-slot wake channel, the alarm for the next timer, and what keeps the loop alive. */
module LoopWake {
  import opened Options

  type Id = nat

  /** An interval of 0 is a one-shot. */
  datatype Timer = Timer(due: int, interval: nat, unref: bool)

  /** Where the loop goroutine stands: not running, at the top of a turn, in the posts phase,
      before and behind the taking of the immediates, past the decision, and asleep. The
      alarm is the due time of the earliest timer at the decision. */
  datatype Pc =
    | Stopped
    | Top
    | Posts
    | Check
    | Checked
    | Decided(idle: bool, alarm: Option<int>)
    | Asleep(alarm: Option<int>)

  /** slot says that the wake channel is full, and signallers counts the goroutines that
      have changed something under the lock and have yet to call wakeup. cleared is
      bookkeeping: a timer was cleared since the decision. */
  datatype State = State(next: Id, timers: map<Id, Timer>, posts: nat, immediates: nat,
                         pending: int, unrefPending: nat,
                         slot: bool, signallers: nat, pc: Pc, cleared: bool)

  const INIT := State(0, map[], 0, 0, 0, 0, false, 0, Stopped, false)

  datatype Step =
    // any goroutine, guest code included
    | SetTimer(due: int, interval: nat) | ClearTimer(id: Id) | SetTimerRef(id: Id, ref: bool)
    | Post | PostImmediate | AddPending | DonePending | Unref | Ref | Signal
    // the run loop
    | Start | TakeDue(now: int) | RunPost | EndPosts | TakeImmediates | Decide(alarm: Option<int>) | Return | Sleep
    | Wake | Alarm | Leave

  // ------------------------------------------------------------ the steps

  function DoSetTimer(s: State, due: int, interval: nat): State {
    s.(next := s.next + 1, timers := s.timers[s.next + 1 := Timer(due, interval, false)], slot := true)
  }

  function DoClearTimer(s: State, id: Id): State {
    s.(timers := s.timers - {id}, cleared := s.cleared || id in s.timers)
  }

  function DoSetTimerRef(s: State, id: Id, ref: bool): State {
    s.(timers := if id in s.timers then s.timers[id := s.timers[id].(unref := !ref)] else s.timers,
       signallers := s.signallers + 1)
  }

  /** One-shots that are due go, repeats that are due are put off. */
  function DoTakeDue(s: State, now: int): State {
    s.(timers := map id | id in s.timers && (s.timers[id].due > now || s.timers[id].interval > 0) ::
                   if s.timers[id].due > now then s.timers[id]
                   else s.timers[id].(due := now + s.timers[id].interval),
       pc := Posts)
  }

  predicate HasRefTimer(s: State) {
    exists id :: id in s.timers && !s.timers[id].unref
  }

  /** Nothing keeps the loop alive. */
  predicate Idle(s: State) {
    !HasRefTimer(s) && s.pending - s.unrefPending <= 0 && s.posts == 0 && s.immediates == 0
  }

  predicate Earliest(s: State, alarm: Option<int>) {
    match alarm
    case None => s.timers == map[]
    case Some(a) =>
      && (exists id :: id in s.timers && s.timers[id].due == a)
      && (forall id :: id in s.timers ==> a <= s.timers[id].due)
  }

  /** The walk over the map of timers, in whatever order. */
  method FindEarliest(timers: map<Id, Timer>) returns (alarm: Option<int>, ref: bool)
    ensures Earliest(INIT.(timers := timers), alarm)
    ensures ref == HasRefTimer(INIT.(timers := timers))
  {
    alarm, ref := None, false;
    var todo := timers.Keys;
    while todo != {}
      invariant todo <= timers.Keys
      invariant alarm.None? ==> todo == timers.Keys
      invariant alarm.Some? ==> exists id :: id in timers && timers[id].due == alarm.value
      invariant alarm.Some? ==> forall id :: id in timers && id !in todo ==> alarm.value <= timers[id].due
      invariant ref <==> exists id :: id in timers && id !in todo && !timers[id].unref
    {
      var id :| id in todo;
      if alarm.None? || timers[id].due < alarm.value {
        alarm := Some(timers[id].due);
      }
      if !timers[id].unref {
        ref := true;
      }
      todo := todo - {id};
    }
    assert alarm.None? ==> timers.Keys == {};
  }

  predicate Enabled(s: State, step: Step) {
    match step
    case Signal => s.signallers > 0
    case Start => s.pc.Stopped?
    case TakeDue(_) => s.pc.Top?
    case RunPost => s.pc.Posts? && s.posts > 0
    case EndPosts => s.pc.Posts? && s.posts == 0
    case TakeImmediates => s.pc.Check?
    case Decide(alarm) => s.pc.Checked? && Earliest(s, alarm)
    case Return => s.pc.Decided? && s.pc.idle
    case Sleep => s.pc.Decided? && !s.pc.idle
    case Wake => s.pc.Asleep? && s.slot
    case Alarm => s.pc.Asleep? && s.pc.alarm.Some?
    case Leave => !s.pc.Stopped?
    case _ => true
  }

  function Apply(s: State, step: Step): State
    requires Enabled(s, step)
  {
    match step
    case SetTimer(due, interval) => DoSetTimer(s, due, interval)
    case ClearTimer(id) => DoClearTimer(s, id)
    case SetTimerRef(id, ref) => DoSetTimerRef(s, id, ref)
    case Post => s.(posts := s.posts + 1, signallers := s.signallers + 1)
    case PostImmediate => s.(immediates := s.immediates + 1, slot := true)
    case AddPending => s.(pending := s.pending + 1)
    case DonePending => s.(pending := s.pending - 1, signallers := s.signallers + 1)
    case Unref => s.(unrefPending := s.unrefPending + 1, signallers := s.signallers + 1)
    case Ref => s.(unrefPending := if s.unrefPending > 0 then s.unrefPending - 1 else 0)
    case Signal => s.(signallers := s.signallers - 1, slot := true)
    case Start => s.(pc := Top)
    case TakeDue(now) => DoTakeDue(s, now)
    case RunPost => s.(posts := s.posts - 1)
    case EndPosts => s.(pc := Check)
    case TakeImmediates => s.(immediates := 0, pc := Checked)
    case Decide(alarm) => s.(pc := Decided(Idle(s), alarm), cleared := false)
    case Return => s.(pc := Stopped)
    case Sleep => s.(pc := Asleep(s.pc.alarm))
    case Wake => s.(pc := Top, slot := false)
    case Alarm => s.(pc := Top)
    case Leave => s.(pc := Stopped)
  }

  /** The state after a schedule; steps that are not enabled are passed over. */
  function After(steps: seq<Step>): State
    decreases |steps|
  {
    if steps == [] then INIT
    else
      var s, step := After(steps[..|steps| - 1]), steps[|steps| - 1];
      if Enabled(s, step) then Apply(s, step) else s
  }

  // ------------------------------------------------------------ what every step keeps

  predicate Announced(s: State) {
    s.slot || s.signallers > 0
  }

  predicate PastPosts(pc: Pc) {
    pc.Check? || pc.Checked? || pc.Decided? || pc.Asleep?
  }

  predicate PastDecision(pc: Pc) {
    pc.Decided? || pc.Asleep?
  }

  /** What was queued behind its phase has been announced. */
  predicate WorkAnnounced(s: State) {
    && (PastPosts(s.pc) && s.posts > 0 ==> Announced(s))
    && (PastDecision(s.pc) || s.pc.Checked? ==> s.immediates == 0 || s.slot)
  }

  /** No armed timer comes before the alarm, unless its arming has been announced. */
  predicate AlarmCovers(s: State) {
    PastDecision(s.pc) && !s.slot ==>
      forall id :: id in s.timers ==> s.pc.alarm.Some? && s.pc.alarm.value <= s.timers[id].due
  }

  /** What has made the loop idle since it decided not to be has been announced, or was the
      clearing of a timer, for which the alarm is set. And so has a timer that would keep
      the loop alive after it decided to return. */
  predicate LifeAnnounced(s: State) {
    && (s.pc.Asleep? || (s.pc.Decided? && !s.pc.idle) ==> Idle(s) ==> Announced(s) || s.cleared)
    && (PastDecision(s.pc) && s.cleared ==> s.slot || s.pc.alarm.Some?)
    && (s.pc.Decided? && s.pc.idle && HasRefTimer(s) ==> Announced(s))
  }

  predicate Inv(s: State) {
    WorkAnnounced(s) && AlarmCovers(s) && LifeAnnounced(s)
  }

  lemma WorkKept(s: State, step: Step)
    requires Inv(s) && Enabled(s, step)
    ensures WorkAnnounced(Apply(s, step))
  {
    hide Idle, AlarmCovers, LifeAnnounced;
  }

  lemma AlarmKept(s: State, step: Step)
    requires Inv(s) && Enabled(s, step)
    ensures AlarmCovers(Apply(s, step))
  {
    hide Idle, WorkAnnounced, LifeAnnounced;
  }

  lemma LifeKept(s: State, step: Step)
    requires Inv(s) && Enabled(s, step)
    ensures LifeAnnounced(Apply(s, step))
  {
    match step {
      case ClearTimer(id) => ClearKeeps(s, id);
      case _ =>
    }
  }

  lemma ClearKeeps(s: State, id: Id)
    requires Inv(s)
    ensures LifeAnnounced(DoClearTimer(s, id))
  {
    if id !in s.timers {
      assert s.timers - {id} == s.timers;
    }
  }

  /** In every interleaving. */
  lemma {:induction false} Invariant(steps: seq<Step>)
    ensures Inv(After(steps))
    decreases |steps|
  {
    hide WorkAnnounced, AlarmCovers, LifeAnnounced, Apply;
    if steps == [] {
      InitInv();
    } else {
      var s, step := After(steps[..|steps| - 1]), steps[|steps| - 1];
      Invariant(steps[..|steps| - 1]);
      if Enabled(s, step) {
        WorkKept(s, step);
        AlarmKept(s, step);
        LifeKept(s, step);
      }
    }
  }

  lemma InitInv()
    ensures Inv(INIT)
  {
  }

  // ------------------------------------------------------------ asleep

  /** Asleep on an empty channel, with nobody about to fill it. */
  predicate SoundAsleep(s: State) {
    s.pc.Asleep? && !s.slot && s.signallers == 0
  }

  /** Then nothing is queued, and every armed timer is due at the alarm or later. */
  lemma NeverSleepsOnWork(steps: seq<Step>)
    requires SoundAsleep(After(steps))
    ensures var s := After(steps);
            && s.posts == 0 && s.immediates == 0
            && forall id :: id in s.timers ==> s.pc.alarm.Some? && s.pc.alarm.value <= s.timers[id].due
  {
    Invariant(steps);
  }

  /** And something keeps the loop alive, unless a timer was cleared since it decided to
      sleep, and then the alarm wakes it. So without an alarm it is never asleep for nothing. */
  lemma SleepsForSomething(steps: seq<Step>)
    requires SoundAsleep(After(steps))
    ensures var s := After(steps);
            && (Idle(s) ==> s.cleared && s.pc.alarm.Some?)
            && (s.pc.alarm.None? ==> s.pending > s.unrefPending)
  {
    Invariant(steps);
  }

  /** When the loop is about to return for being idle and nothing is announced, then no post,
      no immediate and no timer that keeps it alive has come since its decision. */
  lemma ReturnsIdle(steps: seq<Step>)
    requires var s := After(steps); s.pc.Decided? && s.pc.idle && !Announced(s)
    ensures var s := After(steps); s.posts == 0 && s.immediates == 0 && !HasRefTimer(s)
  {
    Invariant(steps);
  }

  lemma Extend(steps: seq<Step>, step: Step, s: State) returns (more: seq<Step>)
    requires After(steps) == s && Enabled(s, step)
    ensures more == steps + [step] && After(more) == Apply(s, step)
  {
    more := steps + [step];
    assert more[..|steps|] == steps;
  }

  predicate OneTimer(s: State, due: int) {
    && s.timers == map[1 := Timer(due, 0, false)] && s.signallers == s.posts == s.immediates == s.unrefPending == 0
    && s.pending == 0
  }

  lemma NothingDue(s: State, due: int)
    requires OneTimer(s, due)
    ensures DoTakeDue(s, due - 1) == s.(pc := Posts)
  {
    assert DoTakeDue(s, due - 1).timers == s.timers;
  }

  lemma KeepsAwake(s: State, due: int)
    requires OneTimer(s, due)
    ensures Earliest(s, Some(due)) && !Idle(s)
  {
    assert 1 in s.timers && s.timers[1].due == due && !s.timers[1].unref;
  }

  /** One turn with a timer that is not due, up to sleep. */
  lemma SleepsOn(steps: seq<Step>, due: int) returns (more: seq<Step>)
    requires OneTimer(After(steps), due) && After(steps).pc.Top?
    ensures OneTimer(After(more), due) && After(more).pc == Asleep(Some(due)) && After(more).slot == After(steps).slot
  {
    hide After, Idle, Earliest;
    var s := After(steps);
    more := Extend(steps, TakeDue(due - 1), s);
    NothingDue(s, due);
    s := s.(pc := Posts);
    more := Extend(more, EndPosts, s);
    s := s.(pc := Check);
    more := Extend(more, TakeImmediates, s);
    s := s.(immediates := 0, pc := Checked);
    KeepsAwake(s, due);
    more := Extend(more, Decide(Some(due)), s);
    s := s.(pc := Decided(false, Some(due)), cleared := false);
    more := Extend(more, Sleep, s);
  }

  /** That exception is real: the one timer is cleared while the loop sleeps on it, and the
      loop sleeps on, idle, until the alarm. */
  lemma SleepsThroughClear(due: int) returns (steps: seq<Step>)
    ensures var s := After(steps); SoundAsleep(s) && Idle(s) && s.pc.alarm == Some(due)
  {
    steps := Extend([], SetTimer(due, 0), INIT);
    steps := Extend(steps, Start, After(steps));
    steps := SleepsOn(steps, due);
    steps := Extend(steps, Wake, After(steps));
    steps := SleepsOn(steps, due);
    steps := Extend(steps, ClearTimer(1), After(steps));
  }

  // ------------------------------------------------------------ what keeps it alive

  /** The loop decides to return exactly when no timer keeps it alive, no more operations are
      pending than are unreferenced, and nothing is queued. */
  lemma DecidesIdle(steps: seq<Step>, alarm: Option<int>)
    requires Enabled(After(steps), Decide(alarm))
    ensures var s := After(steps);
            After(steps + [Decide(alarm)]).pc == Decided(
              (forall id :: id in s.timers ==> s.timers[id].unref) && s.pending <= s.unrefPending
              && s.posts == 0 && s.immediates == 0, alarm)
  {
    assert (steps + [Decide(alarm)])[..|steps|] == steps;
  }

  function CountOf(steps: seq<Step>, step: Step): nat {
    if steps == [] then 0
    else CountOf(steps[..|steps| - 1], step) + if steps[|steps| - 1] == step then 1 else 0
  }

  /** Pending is the operations begun less those done. */
  lemma {:induction false} PendingCounts(steps: seq<Step>)
    ensures After(steps).pending == CountOf(steps, AddPending) - CountOf(steps, DonePending)
    decreases |steps|
  {
    if steps != [] {
      PendingCounts(steps[..|steps| - 1]);
    }
  }
}
