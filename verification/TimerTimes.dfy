/** When the timers of the event loop are due: in terms of the arguments of SetTimer and of
    what the calls of takeDue saw, over every run. */
module TimerTimes {
  import opened EventLoop

  // ------------------------------------------------------------ due times by the history

  /** A call of takeDue saw the timer armed and due. */
  predicate SeenDue(take: Take, id: Id) {
    id in take.due && take.due[id] <= take.now
  }

  predicate NeverDue(takes: seq<Take>, id: Id) {
    forall k :: 0 <= k < |takes| ==> !SeenDue(takes[k], id)
  }

  /** When a timer that is first due at first is due, by the calls of takeDue so far: one
      interval behind the last of them that saw it due. */
  function DueAfter(takes: seq<Take>, id: Id, first: int, interval: int): int {
    if takes == [] then first
    else
      var last := takes[|takes| - 1];
      if SeenDue(last, id) then last.now + interval else DueAfter(takes[..|takes| - 1], id, first, interval)
  }

  /** Whenever a call of takeDue saw the timer, it saw it due at that time. */
  predicate Exact(takes: seq<Take>, id: Id, first: int, interval: int) {
    forall k :: 0 <= k < |takes| && id in takes[k].due ==>
      takes[k].due[id] == DueAfter(takes[..k], id, first, interval)
  }

  lemma {:induction false} DueFirst(takes: seq<Take>, id: Id, first: int, interval: int)
    requires NeverDue(takes, id)
    ensures DueAfter(takes, id, first, interval) == first
    decreases |takes|
  {
    if takes != [] {
      assert !SeenDue(takes[|takes| - 1], id);
      DueFirst(takes[..|takes| - 1], id, first, interval);
    }
  }

  /** It is due an interval or more behind every earlier call that saw it due. */
  lemma {:induction false} DueSpaced(takes: seq<Take>, id: Id, first: int, interval: int, j: nat)
    requires Exact(takes, id, first, interval) && interval >= 0 && j < |takes| && SeenDue(takes[j], id)
    ensures DueAfter(takes, id, first, interval) >= takes[j].now + interval
    decreases |takes|
  {
    var n := |takes| - 1;
    if j < n {
      assert Exact(takes[..n], id, first, interval) by {
        assert forall k :: 0 <= k < n ==> takes[..n][..k] == takes[..k];
      }
      DueSpaced(takes[..n], id, first, interval, j);
      if SeenDue(takes[n], id) {
        assert takes[n].due[id] == DueAfter(takes[..n], id, first, interval);
      }
    }
  }

  /** And never before it is first due. */
  lemma {:induction false} DueNotBefore(takes: seq<Take>, id: Id, first: int, interval: int)
    requires Exact(takes, id, first, interval) && interval >= 0
    ensures DueAfter(takes, id, first, interval) >= first
    decreases |takes|
  {
    if takes != [] {
      var n := |takes| - 1;
      assert Exact(takes[..n], id, first, interval) by {
        assert forall k :: 0 <= k < n ==> takes[..n][..k] == takes[..k];
      }
      DueNotBefore(takes[..n], id, first, interval);
      if SeenDue(takes[n], id) {
        assert takes[n].due[id] == DueAfter(takes[..n], id, first, interval);
      }
    }
  }

  lemma ExactPush(takes: seq<Take>, take: Take, id: Id, first: int, interval: int)
    requires Exact(takes, id, first, interval)
    requires id in take.due ==> take.due[id] == DueAfter(takes, id, first, interval)
    ensures Exact(takes + [take], id, first, interval)
    ensures DueAfter(takes + [take], id, first, interval)
            == if SeenDue(take, id) then take.now + interval else DueAfter(takes, id, first, interval)
    ensures NeverDue(takes + [take], id) <==> NeverDue(takes, id) && !SeenDue(take, id)
  {
    var more := takes + [take];
    assert more[..|takes|] == takes;
    forall k | 0 <= k < |more|
      ensures k < |takes| ==> more[k] == takes[k] && more[..k] == takes[..k]
    {
    }
    if NeverDue(more, id) {
      assert !SeenDue(more[|takes|], id);
      forall k | 0 <= k < |takes|
        ensures !SeenDue(takes[k], id)
      {
        assert more[k] == takes[k];
      }
    }
  }

  // ------------------------------------------------------------ the invariant

  function IntervalOf(it: Item): int {
    if it.kind.Repeat? then it.kind.interval else 0
  }

  /** What keeps a timer armed, by its log. */
  predicate Stays(it: Item) {
    Clear !in it.log && Free !in it.log && (it.kind.Repeat? || !it.taken)
  }

  predicate TimeInv(s: State, id: Id) {
    if id in s.items && IsTimer(s.items[id]) then
      var it := s.items[id];
      && Exact(s.past.takes, id, it.first, IntervalOf(it))
      && (it.kind.Repeat? ==> it.kind.next == DueAfter(s.past.takes, id, it.first, it.kind.interval))
      && (it.kind.OneShot? ==> (it.taken <==> !NeverDue(s.past.takes, id)))
      && (Stays(it) ==> id in s.tables.armed)
    else forall k :: 0 <= k < |s.past.takes| ==> id !in s.past.takes[k].due
  }

  /** Armed is what the log says. */
  lemma ArmedStays(s: State, id: Id)
    requires IdInv(s, id) && TimeInv(s, id) && id in s.items && IsTimer(s.items[id])
    ensures id in s.tables.armed <==> Stays(s.items[id])
  {
  }

  lemma DueIs(s: State, id: Id)
    requires IdInv(s, id) && TimeInv(s, id) && id in s.tables.armed
    ensures id in s.items && IsTimer(s.items[id])
    ensures Due(s.items[id]) == DueAfter(s.past.takes, id, s.items[id].first, IntervalOf(s.items[id]))
  {
    hide Safe, Count, Exact;
    var it := s.items[id];
    if it.kind.OneShot? {
      DueFirst(s.past.takes, id, it.first, 0);
    }
  }

  lemma TimeTake(s: State, now: int, due: seq<Id>, id: Id)
    requires Frame(s) && IdInv(s, id) && TimeInv(s, id) && Enabled(s, TakeDue(now, due))
    ensures TimeInv(DoTakeDue(s, now, due), id)
  {
    hide Exact, NeverDue, DueAfter, Count, Safe;
    var take := Seen(s, now);
    if id in s.items && IsTimer(s.items[id]) {
      var it := s.items[id];
      if id in s.tables.armed {
        DueIs(s, id);
      }
      ExactPush(s.past.takes, take, id, it.first, IntervalOf(it));
      assert id in due <==> SeenDue(take, id);
    } else {
      assert id !in s.tables.armed;
    }
  }

  lemma ArmedKept(s: State, step: Step, id: Id)
    requires Frame(s) && IdInv(s, id) && Enabled(s, step) && !step.TakeDue? && id in s.tables.armed
    ensures id in s.items && id in Apply(s, step).items
    ensures id in Apply(s, step).tables.armed || !Stays(Apply(s, step).items[id])
  {
    hide Count, Safe;
    Effect(s, step, id);
    if step.Reset? {
      LogPush(s.items[id].log, Free);
    }
  }

  lemma TimeStep(s: State, step: Step, id: Id)
    requires Frame(s) && IdInv(s, id) && IdInv(s, s.next + 1) && TimeInv(s, id)
    requires Enabled(s, step) && !step.TakeDue? && id in s.items
    ensures TimeInv(Apply(s, step), id)
  {
    hide Exact, NeverDue, DueAfter, Count, Safe, Enabled;
    Effect(s, step, id);
    TakesKept(s, step);
    if IsTimer(s.items[id]) && id in s.tables.armed {
      ArmedKept(s, step, id);
    }
  }

  lemma TakesKept(s: State, step: Step)
    requires Enabled(s, step) && !step.TakeDue?
    ensures Apply(s, step).past.takes == s.past.takes
  {
  }

  lemma TimeNew(s: State, step: Step, id: Id)
    requires Frame(s) && IdInv(s, id) && TimeInv(s, id) && Enabled(s, step) && !step.TakeDue? && id !in s.items
    ensures TimeInv(Apply(s, step), id)
  {
    hide Count, Safe;
    TakesKept(s, step);
    var takes := s.past.takes;
    if id in Apply(s, step).items {
      var it := Apply(s, step).items[id];
      assert NeverDue(takes, id);
      DueFirst(takes, id, it.first, IntervalOf(it));
    }
  }

  lemma {:induction false} TimeInvariant(steps: seq<Step>, id: Id)
    ensures TimeInv(After(steps), id)
    decreases |steps|
  {
    hide TimeInv, IdInv, Frame, Enabled, Apply;
    if steps == [] {
      TimeInit(id);
    } else {
      var before := steps[..|steps| - 1];
      var s, step := After(before), steps[|steps| - 1];
      TimeInvariant(before, id);
      Invariant(before, id);
      Invariant(before, s.next + 1);
      if Enabled(s, step) {
        TimeKeeps(s, step, id);
      }
    }
  }

  lemma TimeInit(id: Id)
    ensures TimeInv(INIT, id)
  {
  }

  lemma TimeKeeps(s: State, step: Step, id: Id)
    requires Frame(s) && IdInv(s, id) && IdInv(s, s.next + 1) && TimeInv(s, id) && Enabled(s, step)
    ensures TimeInv(Apply(s, step), id)
  {
    hide TimeInv, IdInv, Frame, Enabled;
    if step.TakeDue? {
      TimeTake(s, step.now, step.due, id);
    } else if id in s.items {
      TimeStep(s, step, id);
    } else {
      TimeNew(s, step, id);
    }
  }

  // ------------------------------------------------------------ from the arguments of SetTimer

  /** The delay in nanoseconds that a timer gets: one millisecond above 2^31 - 1 of them, and
      for a repeat at least one. */
  predicate IsDelay(delay: int, repeat: bool, d: int) {
    && (1_000_000 <= delay <= 2_147_483_647_000_000 ==> d == delay)
    && (delay > 2_147_483_647_000_000 ==> d == 1_000_000)
    && (delay < 1_000_000 ==> d == if repeat then 1_000_000 else if delay < 0 then 0 else delay)
  }

  /** The run in which this timer is set behind p. */
  function Setting(p: seq<Step>, now: int, delay: int, repeat: bool, q: seq<Step>): seq<Step> {
    p + [SetTimer(now, delay, repeat)] + q
  }

  function IdOf(p: seq<Step>): Id {
    After(p).next + 1
  }

  /** The timer's item keeps the arguments. */
  lemma {:induction false} ItemOf(p: seq<Step>, now: int, delay: int, repeat: bool, q: seq<Step>, d: int)
    requires IsDelay(delay, repeat, d)
    ensures var s, id := After(Setting(p, now, delay, repeat, q)), IdOf(p);
            && id in s.items && IsTimer(s.items[id]) && s.items[id].first == now + d
            && s.items[id].kind.Repeat? == repeat && (repeat ==> s.items[id].kind.interval == d)
    decreases |q|
  {
    hide Apply, Enabled;
    var steps, id := Setting(p, now, delay, repeat, q), IdOf(p);
    if q == [] {
      assert steps == p + [SetTimer(now, delay, repeat)] && steps[..|p|] == p;
      FirstItem(After(p), now, delay, repeat, d);
    } else {
      var before := Setting(p, now, delay, repeat, q[..|q| - 1]);
      assert steps[..|steps| - 1] == before && steps[|steps| - 1] == q[|q| - 1];
      ItemOf(p, now, delay, repeat, q[..|q| - 1], d);
      Invariant(before, id);
      if Enabled(After(before), q[|q| - 1]) {
        Effect(After(before), q[|q| - 1], id);
      }
    }
  }

  lemma FirstItem(s: State, now: int, delay: int, repeat: bool, d: int)
    requires IsDelay(delay, repeat, d)
    ensures Enabled(s, SetTimer(now, delay, repeat))
    ensures var s' := Apply(s, SetTimer(now, delay, repeat));
            && s.next + 1 in s'.items && IsTimer(s'.items[s.next + 1]) && s'.items[s.next + 1].first == now + d
            && s'.items[s.next + 1].kind.Repeat? == repeat && (repeat ==> s'.items[s.next + 1].kind.interval == d)
  {
  }

  /** Over every run: whenever takeDue sees a timer, it is due at the time it was set plus its
      delay, or, for a repeat, one delay behind the last call that saw it due. A one-shot
      that was seen due is not seen again. */
  lemma DueExactly(p: seq<Step>, now: int, delay: int, repeat: bool, q: seq<Step>, d: int, k: nat)
    requires IsDelay(delay, repeat, d)
    requires var takes := After(Setting(p, now, delay, repeat, q)).past.takes; k < |takes| && IdOf(p) in takes[k].due
    ensures var takes := After(Setting(p, now, delay, repeat, q)).past.takes;
            && takes[k].due[IdOf(p)] == DueAfter(takes[..k], IdOf(p), now + d, d)
            && (!repeat ==> NeverDue(takes[..k], IdOf(p)))
  {
    hide After;
    var steps, id := Setting(p, now, delay, repeat, q), IdOf(p);
    ItemOf(p, now, delay, repeat, q, d);
    TimeInvariant(steps, id);
    SeenOnce(steps, id, k);
    if !repeat {
      var takes := After(steps).past.takes;
      DueFirst(takes[..k], id, now + d, 0);
      DueFirst(takes[..k], id, now + d, d);
    }
  }

  /** A one-shot is in no table once it was seen due. */
  ghost predicate OnceInv(s: State, id: Id) {
    id in s.items && s.items[id].kind.OneShot? ==>
      forall j, k :: 0 <= j < k < |s.past.takes| && SeenDue(s.past.takes[j], id) ==> id !in s.past.takes[k].due
  }

  lemma OnceTake(s: State, now: int, due: seq<Id>, id: Id)
    requires IdInv(s, id) && TimeInv(s, id) && OnceInv(s, id) && Enabled(s, TakeDue(now, due))
    ensures OnceInv(DoTakeDue(s, now, due), id)
  {
    hide Exact, DueAfter, Count, Safe;
    var takes, takes' := s.past.takes, DoTakeDue(s, now, due).past.takes;
    if id in s.items && s.items[id].kind.OneShot? {
      forall j, k | 0 <= j < k < |takes'| && SeenDue(takes'[j], id)
        ensures id !in takes'[k].due
      {
        assert takes'[j] == takes[j];
        if k == |takes| {
          assert !NeverDue(takes, id);
        } else {
          assert takes'[k] == takes[k];
        }
      }
    }
  }

  lemma OnceStep(s: State, step: Step, id: Id)
    requires Frame(s) && IdInv(s, id) && TimeInv(s, id) && OnceInv(s, id) && Enabled(s, step) && !step.TakeDue?
    ensures OnceInv(Apply(s, step), id)
  {
    hide Exact, DueAfter, Count, Safe, Enabled;
    TakesKept(s, step);
    if id in s.items {
      Effect(s, step, id);
    }
  }

  lemma {:induction false} OnceInvariant(steps: seq<Step>, id: Id)
    ensures OnceInv(After(steps), id)
    decreases |steps|
  {
    hide TimeInv, IdInv, Frame, Enabled, Apply;
    if steps != [] {
      var before := steps[..|steps| - 1];
      var s, step := After(before), steps[|steps| - 1];
      OnceInvariant(before, id);
      TimeInvariant(before, id);
      Invariant(before, id);
      if Enabled(s, step) {
        if step.TakeDue? {
          OnceTake(s, step.now, step.due, id);
          TakeApplies(s, step);
        } else {
          OnceStep(s, step, id);
        }
      }
    }
  }

  lemma TakeApplies(s: State, step: Step)
    requires Enabled(s, step) && step.TakeDue?
    ensures Apply(s, step) == DoTakeDue(s, step.now, step.due)
  {
  }

  lemma SeenOnce(steps: seq<Step>, id: Id, k: nat)
    requires var s := After(steps); k < |s.past.takes| && id in s.past.takes[k].due
    ensures var s := After(steps);
            id in s.items && s.items[id].kind.OneShot? ==> NeverDue(s.past.takes[..k], id)
  {
    hide After, SeenDue;
    OnceInvariant(steps, id);
  }

  // ------------------------------------------------------------ what that means

  lemma ExactFor(p: seq<Step>, now: int, delay: int, q: seq<Step>, d: int)
    requires IsDelay(delay, true, d)
    ensures Exact(After(Setting(p, now, delay, true, q)).past.takes, IdOf(p), now + d, d) && d > 0
  {
    hide After, Exact;
    ItemOf(p, now, delay, true, q, d);
    TimeInvariant(Setting(p, now, delay, true, q), IdOf(p));
  }

  lemma ExactPrefix(takes: seq<Take>, id: Id, first: int, interval: int, n: nat)
    requires Exact(takes, id, first, interval) && n <= |takes|
    ensures Exact(takes[..n], id, first, interval)
  {
    assert forall k :: 0 <= k < n ==> takes[..n][..k] == takes[..k];
  }

  /** Over every run: what a turn's takeDue saw, due or not, is due after that turn's time
      whenever a later one sees it. So after takeDue nothing armed is due. */
  lemma PutOff(p: seq<Step>, now: int, delay: int, repeat: bool, q: seq<Step>, d: int, j: nat, k: nat)
    requires IsDelay(delay, repeat, d)
    requires var takes := After(Setting(p, now, delay, repeat, q)).past.takes;
             j < k < |takes| && IdOf(p) in takes[j].due && IdOf(p) in takes[k].due
    ensures var takes := After(Setting(p, now, delay, repeat, q)).past.takes;
            takes[k].due[IdOf(p)] > takes[j].now
  {
    hide After, Exact, DueAfter;
    var steps, id := Setting(p, now, delay, repeat, q), IdOf(p);
    var takes := After(steps).past.takes;
    DueExactly(p, now, delay, repeat, q, d, k);
    DueExactly(p, now, delay, repeat, q, d, j);
    if repeat {
      ExactFor(p, now, delay, q, d);
      ExactPrefix(takes, id, now + d, d, k);
      assert takes[..k][j] == takes[j] && takes[..k][..j] == takes[..j];
      if SeenDue(takes[j], id) {
        DueSpaced(takes[..k], id, now + d, d, j);
      } else {
        NotSooner(takes[..k], id, now + d, d, j);
      }
    } else {
      DueFirst(takes[..k], id, now + d, d);
      DueFirst(takes[..j], id, now + d, d);
      assert !SeenDue(takes[..k][j], id);
    }
  }

  /** Due times only grow while the clock does not matter. */
  lemma {:induction false} NotSooner(takes: seq<Take>, id: Id, first: int, interval: int, j: nat)
    requires Exact(takes, id, first, interval) && interval >= 0 && j < |takes|
    ensures DueAfter(takes, id, first, interval) >= DueAfter(takes[..j], id, first, interval)
    decreases |takes|
  {
    var n := |takes| - 1;
    ExactPrefix(takes, id, first, interval, n);
    if j < n {
      NotSooner(takes[..n], id, first, interval, j);
      assert takes[..n][..j] == takes[..j];
    }
    if SeenDue(takes[n], id) {
      assert takes[n].due[id] == DueAfter(takes[..n], id, first, interval);
    }
  }

  /** Over every run: between two invocations of a repeat the clock has moved on by its
      interval or more. */
  lemma SpacedOut(p: seq<Step>, now: int, delay: int, q: seq<Step>, d: int, i: nat, j: nat)
    requires IsDelay(delay, true, d)
    requires var past := After(Setting(p, now, delay, true, q)).past;
             i < j < |past.shots| && past.shots[i].id == past.shots[j].id == IdOf(p)
    ensures var past := After(Setting(p, now, delay, true, q)).past;
            && 1 <= past.shots[i].turn < past.shots[j].turn <= |past.takes|
            && past.takes[past.shots[j].turn - 1].now >= past.takes[past.shots[i].turn - 1].now + d
  {
    hide After, Exact, DueAfter;
    var steps, id := Setting(p, now, delay, true, q), IdOf(p);
    var past := After(steps).past;
    var x, y := past.shots[i], past.shots[j];
    ShotInvariant(steps);
    FiresInTurnOrder(steps, i, j);
    assert ShotSeen(past, x) && ShotSeen(past, y);
    DueExactly(p, now, delay, true, q, d, y.turn - 1);
    ExactFor(p, now, delay, q, d);
    ExactPrefix(past.takes, id, now + d, d, y.turn - 1);
    assert past.takes[..y.turn - 1][x.turn - 1] == past.takes[x.turn - 1];
    DueSpaced(past.takes[..y.turn - 1], id, now + d, d, x.turn - 1);
  }

  /** Over every run: no timer is invoked before the time it was set plus its delay. */
  lemma NotEarly(p: seq<Step>, now: int, delay: int, repeat: bool, q: seq<Step>, d: int, i: nat)
    requires IsDelay(delay, repeat, d)
    requires var past := After(Setting(p, now, delay, repeat, q)).past;
             i < |past.shots| && past.shots[i].id == IdOf(p)
    ensures var past := After(Setting(p, now, delay, repeat, q)).past;
            && 1 <= past.shots[i].turn <= |past.takes|
            && past.takes[past.shots[i].turn - 1].now >= now + d
  {
    hide After, Exact, DueAfter;
    var steps, id := Setting(p, now, delay, repeat, q), IdOf(p);
    var past := After(steps).past;
    var x := past.shots[i];
    ShotInvariant(steps);
    assert ShotSeen(past, x);
    DueExactly(p, now, delay, repeat, q, d, x.turn - 1);
    if repeat {
      ExactFor(p, now, delay, q, d);
      ExactPrefix(past.takes, id, now + d, d, x.turn - 1);
      DueNotBefore(past.takes[..x.turn - 1], id, now + d, d);
    } else {
      DueFirst(past.takes[..x.turn - 1], id, now + d, d);
    }
  }

  /** Over every run: a timer is armed, and so seen by the next takeDue, exactly as long as it
      is neither cleared nor released and, if it is no repeat, was never seen due. */
  lemma ArmedExactly(steps: seq<Step>, id: Id)
    requires id in After(steps).items && IsTimer(After(steps).items[id])
    ensures var s := After(steps);
            var it := s.items[id];
            id in s.tables.armed <==>
              Clear !in it.log && Free !in it.log && (it.kind.Repeat? || NeverDue(s.past.takes, id))
  {
    hide After, Exact, DueAfter, NeverDue, Count, Safe;
    Invariant(steps, id);
    TimeInvariant(steps, id);
    ArmedStays(After(steps), id);
  }

  // ------------------------------------------------------------ nothing due is left out

  /** Behind the timers phase of a turn. */
  predicate TimersDone(pc: Pc) {
    pc.Posts? || pc.Check?
  }

  ghost predicate DoneInv(s: State, id: Id) {
    TimersDone(s.pc) && DueNow(s.past, id) ==> Handled(s, TurnOf(s), id)
  }

  lemma DoneKeeps(s: State, step: Step, id: Id)
    requires Frame(s) && IdInv(s, id) && PassInv(s, id) && DoneInv(s, id) && Enabled(s, step)
    requires !step.TakeDue? && !step.NextTimer?
    ensures DoneInv(Apply(s, step), id)
  {
    hide Count, Safe, IdInv;
    var s' := Apply(s, step);
    TakesKept(s, step);
    assert s'.past.shots == s.past.shots;
    if TimersDone(s'.pc) && DueNow(s.past, id) {
      assert Handled(s, TurnOf(s), id);
      HandledStays(s, step, TurnOf(s), id);
    }
  }

  lemma {:induction false} DoneInvariant(steps: seq<Step>, id: Id)
    ensures DoneInv(After(steps), id)
    decreases |steps|
  {
    hide PassInv, IdInv, Frame;
    if steps != [] {
      var before := steps[..|steps| - 1];
      var s, step := After(before), steps[|steps| - 1];
      DoneInvariant(before, id);
      PassInvariant(before, id);
      Invariant(before, id);
      if Enabled(s, step) {
        if !step.TakeDue? && !step.NextTimer? {
          DoneKeeps(s, step, id);
        }
      }
    }
  }

  /** Over every run: when a turn's timers phase is over, every timer that its takeDue saw due
      was invoked in that turn or has been cleared. */
  lemma EveryDueFires(steps: seq<Step>, id: Id)
    requires var s := After(steps); TimersDone(s.pc) && s.past.takes != [] && SeenDue(LastTake(s.past), id)
    ensures var s := After(steps);
            || (exists i :: 0 <= i < |s.past.shots|
                  && s.past.shots[i].turn == |s.past.takes| && s.past.shots[i].id == id)
            || (id in s.items && Clear in s.items[id].log)
  {
    hide After;
    DoneInvariant(steps, id);
  }
}
