/** The macro-task loop (compat/internal/eventloop/eventloop.go): timers and
    immediates, their callback handles, same-tick cancellation, errors, and the
    order in which callbacks run. */
module EventLoop {

  type Id = nat

  const MS := 1_000_000
  const TIMEOUT_MAX := 2_147_483_647 * MS

  datatype Kind = OneShot(due: int) | Repeat(next: int, interval: int) | Immediate

  /** What happened to a callback: it was invoked, its clear was requested, its handle was
      released, an error abandoned the batch it was waiting in. */
  datatype Event = Call | Clear | Free | Drop

  /** One registered callback. held says that the loop still owns the handle. The rest is
      bookkeeping: first is a timer's first due time, taken that takeDue has taken it, left
      that an error abandoned the last batch it was waiting in, and born the turn in whose
      posts phase it was registered, if it was. */
  datatype Item = Item(kind: Kind, held: bool, cleared: bool, running: bool,
                       first: int, taken: bool, left: bool, born: int, log: seq<Event>)

  /** Where the loop goroutine stands: todo is the rest of the batch the phase
      walks over, cur the callback that is executing. */
  datatype Pc =
    | Stopped
    | Turn
    | Timers(todo: seq<Id>, cur: seq<Id>)
    | Posts
    | Check(todo: seq<Id>, cur: seq<Id>)

  /** The Loop's tables. Ids of timers and immediates come from one counter. */
  datatype Tables = Tables(armed: set<Id>, dueBatch: seq<Id>, immediates: seq<Id>, batch: seq<Id>)

  /** What one call of takeDue saw: the time, and the armed timers with their due times. */
  datatype Take = Take(now: int, due: map<Id, int>)

  /** A timer's callback invoked: in which turn, and when it was due. */
  datatype Shot = Shot(turn: nat, due: int, id: Id)

  /** Bookkeeping: the calls of takeDue, one for each turn, the timers invoked, and the turns
      that a run left between their posts and check phases. */
  datatype History = History(takes: seq<Take>, shots: seq<Shot>, cut: set<nat>)

  datatype State = State(next: Id, items: map<Id, Item>, tables: Tables, pc: Pc, past: History)

  const INIT := State(0, map[], Tables({}, [], [], []), Stopped, History([], [], {}))

  datatype Step =
    // host functions called by guest code
    | SetTimer(now: int, delay: int, repeat: bool) | ClearTimer(id: Id) | PostImmediate | ClearImmediate(id: Id)
    // the owner of the loop, while it is not running
    | StartRun | Reset
    // the run loop
    | TakeDue(now: int, due: seq<Id>) | NextTimer | TimerReturns(err: bool) | EndTimers
    | EndPosts | NextImmediate | ImmediateReturns(err: bool) | EndCheck
    | Leave

  // ------------------------------------------------------------ items

  function Freed(it: Item): Item {
    if it.held then it.(held := false, log := it.log + [Free]) else it
  }

  function Called(it: Item): Item {
    it.(log := it.log + [Call])
  }

  function ClampDelay(delay: int, repeat: bool): int {
    var d := if delay < 0 then 0 else if delay > TIMEOUT_MAX then MS else delay;
    if repeat && d < MS then MS else d
  }

  function Put(s: State, id: Id, it: Item): State {
    s.(items := s.items[id := it])
  }

  /** The number of the turn under way, or of the last one. */
  function TurnOf(s: State): nat {
    |s.past.takes|
  }

  function Born(s: State): int {
    if s.pc.Posts? then TurnOf(s) else -1
  }

  function DoSetTimer(s: State, now: int, delay: int, repeat: bool): State {
    var id, d := s.next + 1, ClampDelay(delay, repeat);
    var kind := if repeat then Repeat(now + d, d) else OneShot(now + d);
    Put(s, id, Item(kind, true, false, false, now + d, false, false, Born(s), []))
      .(next := id, tables := s.tables.(armed := s.tables.armed + {id}))
  }

  function DoPostImmediate(s: State): State {
    var id := s.next + 1;
    Put(s, id, Item(Immediate, true, false, false, 0, false, false, Born(s), []))
      .(next := id, tables := s.tables.(immediates := s.tables.immediates + [id]))
  }

  /** Clearing an id that is neither armed nor in the batch taken for this turn
      does nothing but is recorded. */
  function DoClearTimer(s: State, id: Id): State
    requires id in s.items
  {
    var it := s.items[id].(log := s.items[id].log + [Clear]);
    var found := id in s.tables.armed || id in s.tables.dueBatch;
    var marked := if found then it.(cleared := true) else it;
    Put(s, id, if found && !it.running then Freed(marked) else marked)
      .(tables := s.tables.(armed := s.tables.armed - {id}))
  }

  function DoClearImmediate(s: State, id: Id): State
    requires id in s.items
  {
    var it := s.items[id].(log := s.items[id].log + [Clear]);
    Put(s, id, if id in s.tables.immediates || id in s.tables.batch then it.(cleared := true) else it)
  }

  predicate Held(t: Tables, id: Id) {
    id in t.armed || id in t.dueBatch || id in t.immediates || id in t.batch
  }

  /** Reset and ClearTimers, as far as the handles are concerned. */
  function DoReset(s: State): State {
    s.(items := map id | id in s.items ::
                  if Held(s.tables, id) then Freed(s.items[id]).(left := false) else s.items[id],
       tables := Tables({}, [], [], []))
  }

  // ------------------------------------------------------------ takeDue

  function Due(it: Item): int {
    match it.kind
    case OneShot(due) => due
    case Repeat(next, _) => next
    case Immediate => 0
  }

  predicate Less(s: State, a: Id, b: Id)
    requires a in s.items && b in s.items
  {
    Due(s.items[a]) < Due(s.items[b]) || (Due(s.items[a]) == Due(s.items[b]) && a < b)
  }

  /** due lists exactly the armed timers that are due at now, in strict (due, id)
      order. */
  predicate IsDueBatch(s: State, now: int, due: seq<Id>) {
    && (forall id :: id in due ==> id in s.tables.armed && id in s.items && Due(s.items[id]) <= now)
    && (forall id :: id in s.tables.armed && id in s.items && Due(s.items[id]) <= now ==> id in due)
    && (forall i, j :: 0 <= i < j < |due| ==> due[i] in s.items && due[j] in s.items && Less(s, due[i], due[j]))
  }

  function Taken(it: Item, now: int): Item {
    it.(running := true, taken := true, left := false,
        kind := if it.kind.Repeat? then Repeat(now + it.kind.interval, it.kind.interval) else it.kind)
  }

  /** One-shots leave the table, repeats stay. */
  function StillArmed(s: State, due: seq<Id>): set<Id> {
    set id | id in s.tables.armed && (id !in due || (id in s.items && s.items[id].kind.Repeat?))
  }

  function Seen(s: State, now: int): Take {
    Take(now, map id | id in s.tables.armed && id in s.items :: Due(s.items[id]))
  }

  function DoTakeDue(s: State, now: int, due: seq<Id>): State {
    s.(items := map id | id in s.items :: if id in due then Taken(s.items[id], now) else s.items[id],
       tables := s.tables.(dueBatch := due, armed := StillArmed(s, due)),
       pc := Timers(due, []), past := s.past.(takes := s.past.takes + [Seen(s, now)]))
  }

  // ------------------------------------------------------------ the phases

  /** When a timer of this turn's batch was due. */
  function DueThen(s: State, id: Id): int {
    if s.past.takes == [] then 0
    else
      var due := s.past.takes[|s.past.takes| - 1].due;
      if id in due then due[id] else 0
  }

  function DoNextTimer(s: State): State
    requires s.pc.Timers? && s.pc.todo != [] && s.pc.todo[0] in s.items
  {
    var id, it := s.pc.todo[0], s.items[s.pc.todo[0]];
    if it.cleared then Put(s, id, Freed(it)).(pc := Timers(s.pc.todo[1..], []))
    else
      Put(s, id, Called(it)).(pc := Timers(s.pc.todo[1..], [id]),
                              past := s.past.(shots := s.past.shots + [Shot(TurnOf(s), DueThen(s, id), id)]))
  }

  function Returned(it: Item): Item {
    var done := it.(running := false);
    if !it.kind.Repeat? || it.cleared then Freed(done) else done
  }

  function Dropped(it: Item): Item {
    it.(left := true, log := it.log + [Drop])
  }

  /** An error ends the run; what is left of the batch stays as it is. */
  function Abandon(s: State, todo: seq<Id>): State {
    s.(items := map id | id in s.items :: if id in todo then Dropped(s.items[id]) else s.items[id], pc := Stopped)
  }

  function DoTimerReturns(s: State, err: bool): State
    requires s.pc.Timers? && |s.pc.cur| == 1 && s.pc.cur[0] in s.items
  {
    var r := Put(s, s.pc.cur[0], Returned(s.items[s.pc.cur[0]]));
    if err then Abandon(r, s.pc.todo) else r.(pc := Timers(s.pc.todo, []))
  }

  function DoNextImmediate(s: State): State
    requires s.pc.Check? && s.pc.todo != [] && s.pc.todo[0] in s.items
  {
    var id, it := s.pc.todo[0], s.items[s.pc.todo[0]];
    if it.cleared then Put(s, id, Freed(it)).(pc := Check(s.pc.todo[1..], []))
    else Put(s, id, Called(it)).(pc := Check(s.pc.todo[1..], [id]))
  }

  function DoImmediateReturns(s: State, err: bool): State
    requires s.pc.Check? && |s.pc.cur| == 1 && s.pc.cur[0] in s.items
  {
    var r := Put(s, s.pc.cur[0], Freed(s.items[s.pc.cur[0]]));
    if err then Abandon(r, s.pc.todo) else r.(pc := Check(s.pc.todo, []))
  }

  /** The run ends between two turns, or between the posts and check phases of one. */
  function DoLeave(s: State): State {
    s.(pc := Stopped, past := if s.pc.Posts? then s.past.(cut := s.past.cut + {TurnOf(s)}) else s.past)
  }

  function DoEndPosts(s: State): State {
    s.(pc := Check(s.tables.immediates, []),
       tables := s.tables.(batch := s.tables.immediates, immediates := []))
  }

  predicate Enabled(s: State, step: Step) {
    match step
    case SetTimer(_, _, _) => true
    case ClearTimer(id) => id in s.items && !s.items[id].kind.Immediate?
    case PostImmediate => true
    case ClearImmediate(id) => id in s.items && s.items[id].kind.Immediate?
    case StartRun => s.pc.Stopped?
    case Reset => s.pc.Stopped?
    case TakeDue(now, due) => s.pc.Turn? && IsDueBatch(s, now, due)
    case NextTimer => s.pc.Timers? && s.pc.cur == [] && s.pc.todo != [] && s.pc.todo[0] in s.items
    case TimerReturns(_) => s.pc.Timers? && |s.pc.cur| == 1 && s.pc.cur[0] in s.items
    case EndTimers => s.pc.Timers? && s.pc.cur == [] && s.pc.todo == []
    case EndPosts => s.pc.Posts?
    case NextImmediate => s.pc.Check? && s.pc.cur == [] && s.pc.todo != [] && s.pc.todo[0] in s.items
    case ImmediateReturns(_) => s.pc.Check? && |s.pc.cur| == 1 && s.pc.cur[0] in s.items
    case EndCheck => s.pc.Check? && s.pc.cur == [] && s.pc.todo == []
    case Leave => s.pc.Turn? || s.pc.Posts?
  }

  function Apply(s: State, step: Step): State
    requires Enabled(s, step)
  {
    match step
    case SetTimer(now, delay, repeat) => DoSetTimer(s, now, delay, repeat)
    case ClearTimer(id) => DoClearTimer(s, id)
    case PostImmediate => DoPostImmediate(s)
    case ClearImmediate(id) => DoClearImmediate(s, id)
    case StartRun => s.(pc := Turn)
    case Reset => DoReset(s)
    case TakeDue(now, due) => DoTakeDue(s, now, due)
    case NextTimer => DoNextTimer(s)
    case TimerReturns(err) => DoTimerReturns(s, err)
    case EndTimers => s.(pc := Posts, tables := s.tables.(dueBatch := []))
    case EndPosts => DoEndPosts(s)
    case NextImmediate => DoNextImmediate(s)
    case ImmediateReturns(err) => DoImmediateReturns(s, err)
    case EndCheck => s.(pc := Turn, tables := s.tables.(batch := []))
    case Leave => DoLeave(s)
  }

  /** The state after a schedule; steps that are not enabled are passed over. */
  function After(steps: seq<Step>): State
    decreases |steps|
  {
    if steps == [] then INIT
    else
      var s, step := After(steps[..|steps| - 1]), steps[|steps| - 1];
      if Enabled(s, step) then Apply(s, step) else s
  }

  // ------------------------------------------------------------ the invariant of one callback

  /** Where one id stands in the tables and in the phase under way. */
  datatype Place = Place(armed: bool, inDue: bool, dueTodo: bool, dueCur: bool,
                         queued: bool, inBatch: bool, immTodo: bool, immCur: bool)

  function PlaceOf(t: Tables, pc: Pc, id: Id): Place {
    Place(id in t.armed, id in t.dueBatch, pc.Timers? && id in pc.todo, pc.Timers? && id in pc.cur,
          id in t.immediates, id in t.batch, pc.Check? && id in pc.todo, pc.Check? && id in pc.cur)
  }

  const NOWHERE := Place(false, false, false, false, false, false, false, false)

  function Count(log: seq<Event>, e: Event): nat {
    if log == [] then 0 else Count(log[..|log| - 1], e) + (if log[|log| - 1] == e then 1 else 0)
  }

  /** No invocation behind a release or a clear, and at most one release. */
  predicate Safe(log: seq<Event>) {
    log == [] ||
    var before, last := log[..|log| - 1], log[|log| - 1];
    Safe(before) && (last == Call ==> Free !in before && Clear !in before) && (last == Free ==> Free !in before)
  }

  predicate IsTimer(it: Item) {
    !it.kind.Immediate?
  }

  /** It can still be invoked. */
  predicate Live(p: Place) {
    p.armed || p.dueTodo || p.queued || p.immTodo
  }

  predicate Executing(p: Place) {
    p.dueCur || p.immCur
  }

  predicate ItemInv(it: Item, p: Place) {
    && Safe(it.log) && (Free in it.log <==> !it.held)
    && (Live(p) || Executing(p) ==> it.held)
    && (Clear in it.log && Live(p) ==> it.cleared) && (it.cleared ==> !p.armed && Clear in it.log)
    && (p.armed || p.inDue || p.dueTodo || p.dueCur ==> IsTimer(it))
    && (p.queued || p.inBatch || p.immTodo || p.immCur ==> !IsTimer(it))
    && (p.dueTodo || p.dueCur ==> it.running && p.inDue) && !(p.dueTodo && p.dueCur)
    && (p.immTodo || p.immCur ==> p.inBatch) && !(p.immTodo && p.immCur) && !(p.queued && p.inBatch)
    && (it.kind.OneShot? ==> !(p.armed && p.inDue))
    && (!it.kind.Repeat? && Live(p) ==> Call !in it.log)
    && (!it.kind.Repeat? ==> Count(it.log, Call) <= 1)
    && (it.kind.Repeat? ==> it.kind.interval > 0)
    && (it.kind.Repeat? && (p.dueTodo || p.dueCur) && !it.cleared ==> p.armed)
    && (it.held ==> Live(p) || Executing(p) || it.left)
    && (it.held && it.running ==> p.dueTodo || p.dueCur || it.left)
    && (it.left ==>
          && it.held && (IsTimer(it) ==> it.running) && !Executing(p) && !p.dueTodo && !p.immTodo && !p.queued
          && (!it.kind.Repeat? ==> Call !in it.log && !p.armed))
    && (it.kind.OneShot? ==> (p.armed ==> !it.taken) && it.kind.due == it.first)
    && (it.kind.Repeat? && !it.taken ==> it.kind.next == it.first)
    && (Executing(p) ==> Call in it.log)
    && (p.dueTodo ==> it.taken) && (IsTimer(it) && Call in it.log ==> it.taken)
  }

  predicate NoDuplicates(q: seq<Id>) {
    forall i, j :: 0 <= i < j < |q| ==> q[i] != q[j]
  }

  predicate Frame(s: State) {
    && NoDuplicates(s.tables.immediates) && NoDuplicates(s.tables.batch)
    && (forall k :: 0 <= k < |s.tables.immediates| ==> s.tables.immediates[k] <= s.next)
    && (s.pc.Timers? || s.pc.Check? ==> NoDuplicates(s.pc.todo) && |s.pc.cur| <= 1)
  }

  predicate IdInv(s: State, id: Id) {
    var p := PlaceOf(s.tables, s.pc, id);
    if id in s.items then id <= s.next && ItemInv(s.items[id], p) else p == NOWHERE
  }

  // ------------------------------------------------------------ every step keeps it

  lemma LogPush(log: seq<Event>, e: Event)
    ensures Safe(log + [e]) <==>
            Safe(log) && (e == Call ==> Free !in log && Clear !in log) && (e == Free ==> Free !in log)
    ensures forall x :: x in log + [e] <==> x in log || x == e
    ensures forall x :: Count(log + [e], x) == Count(log, x) + (if x == e then 1 else 0)
  {
    assert (log + [e])[..|log|] == log;
  }

  lemma {:induction false} CountZero(log: seq<Event>, e: Event)
    requires e !in log
    ensures Count(log, e) == 0
  {
    if log != [] {
      CountZero(log[..|log| - 1], e);
    }
  }

  lemma RegisterKeeps(s: State, step: Step, id: Id)
    requires Frame(s) && IdInv(s, id) && (step.SetTimer? || step.PostImmediate?)
    ensures IdInv(Apply(s, step), id)
  {
    var s' := Apply(s, step);
    if id == s.next + 1 {
      assert id !in s.items;
    } else {
      assert PlaceOf(s'.tables, s'.pc, id) == PlaceOf(s.tables, s.pc, id);
    }
  }

  lemma ItemCleared(it: Item, p: Place)
    requires ItemInv(it, p) && IsTimer(it)
    ensures var marked := it.(log := it.log + [Clear], cleared := true);
            && (p.armed || p.inDue ==>
                  ItemInv(if it.running then marked else Freed(marked), p.(armed := false)))
            && (!p.armed && !p.inDue ==> ItemInv(it.(log := it.log + [Clear]), p))
  {
    LogPush(it.log, Clear);
    LogPush(it.log + [Clear], Free);
  }

  lemma ClearTimerKeeps(s: State, at: Id, id: Id)
    requires Frame(s) && IdInv(s, id) && Enabled(s, ClearTimer(at))
    ensures IdInv(DoClearTimer(s, at), id)
  {
    var s', p := DoClearTimer(s, at), PlaceOf(s.tables, s.pc, id);
    if id == at {
      ItemCleared(s.items[id], p);
      assert PlaceOf(s'.tables, s'.pc, id) == p.(armed := false);
    } else {
      assert PlaceOf(s'.tables, s'.pc, id) == p;
    }
  }

  lemma ClearImmediateKeeps(s: State, at: Id, id: Id)
    requires Frame(s) && IdInv(s, id) && Enabled(s, ClearImmediate(at))
    ensures IdInv(DoClearImmediate(s, at), id)
  {
    if id == at {
      LogPush(s.items[id].log, Clear);
    }
  }

  lemma ResetKeeps(s: State, id: Id)
    requires Frame(s) && IdInv(s, id) && s.pc.Stopped?
    ensures IdInv(DoReset(s), id)
  {
    if id in s.items {
      LogPush(s.items[id].log, Free);
    }
  }

  lemma DueBatchDistinct(s: State, now: int, due: seq<Id>)
    requires IsDueBatch(s, now, due)
    ensures NoDuplicates(due)
  {
    forall i, j | 0 <= i < j < |due|
      ensures due[i] != due[j]
    {
      assert Less(s, due[i], due[j]);
    }
  }

  lemma TakeDueKeeps(s: State, now: int, due: seq<Id>, id: Id)
    requires Frame(s) && IdInv(s, id) && Enabled(s, TakeDue(now, due))
    ensures IdInv(DoTakeDue(s, now, due), id)
  {
    DueBatchDistinct(s, now, due);
  }

  /** The head of a phase's list is invoked or, if cleared, released. */
  lemma ItemNext(it: Item, p: Place)
    requires ItemInv(it, p) && (p.dueTodo || p.immTodo)
    ensures it.cleared ==> ItemInv(Freed(it), p.(dueTodo := false, immTodo := false))
    ensures !it.cleared ==>
              ItemInv(Called(it),
                      p.(dueTodo := false, immTodo := false, dueCur := p.dueTodo, immCur := p.immTodo))
  {
    LogPush(it.log, Free);
    LogPush(it.log, Call);
    if Call !in it.log {
      CountZero(it.log, Call);
    }
  }

  lemma HeadOrTail(q: seq<Id>, id: Id)
    requires q != []
    ensures id in q <==> id == q[0] || id in q[1..]
    ensures NoDuplicates(q) ==> q[0] !in q[1..]
  {
  }

  lemma NextTimerKeeps(s: State, id: Id)
    requires Frame(s) && IdInv(s, id) && Enabled(s, NextTimer)
    ensures IdInv(DoNextTimer(s), id)
  {
    var s', p := DoNextTimer(s), PlaceOf(s.tables, s.pc, id);
    HeadOrTail(s.pc.todo, id);
    if id == s.pc.todo[0] {
      ItemNext(s.items[id], p);
      assert PlaceOf(s'.tables, s'.pc, id) == p.(dueTodo := false, dueCur := !s.items[id].cleared);
    } else {
      assert PlaceOf(s'.tables, s'.pc, id) == p;
    }
  }

  lemma NextImmediateKeeps(s: State, id: Id)
    requires Frame(s) && IdInv(s, id) && Enabled(s, NextImmediate)
    ensures IdInv(DoNextImmediate(s), id)
  {
    var s', p := DoNextImmediate(s), PlaceOf(s.tables, s.pc, id);
    HeadOrTail(s.pc.todo, id);
    if id == s.pc.todo[0] {
      ItemNext(s.items[id], p);
      assert PlaceOf(s'.tables, s'.pc, id) == p.(immTodo := false, immCur := !s.items[id].cleared);
    } else {
      assert PlaceOf(s'.tables, s'.pc, id) == p;
    }
  }

  lemma ItemReturned(it: Item, p: Place)
    requires ItemInv(it, p)
    ensures p.dueCur ==> ItemInv(Returned(it), p.(dueCur := false))
    ensures p.immCur ==> ItemInv(Freed(it), p.(immCur := false))
  {
    LogPush(it.log, Free);
  }

  lemma ReturnKeeps(s: State, step: Step, id: Id)
    requires Frame(s) && IdInv(s, id) && Enabled(s, step) && (step.TimerReturns? || step.ImmediateReturns?)
    ensures IdInv(Apply(s, step), id)
  {
    var s', p := Apply(s, step), PlaceOf(s.tables, s.pc, id);
    if step.err {
      ReturnFails(s, step, id);
    } else if id == s.pc.cur[0] {
      ItemReturned(s.items[id], p);
      assert PlaceOf(s'.tables, s'.pc, id) == p.(dueCur := false, immCur := false);
    } else {
      assert PlaceOf(s'.tables, s'.pc, id) == p;
    }
  }

  /** An error abandons the rest of the batch. */
  lemma ReturnFails(s: State, step: Step, id: Id)
    requires Frame(s) && IdInv(s, id) && Enabled(s, step) && (step.TimerReturns? || step.ImmediateReturns?) && step.err
    ensures IdInv(Apply(s, step), id)
  {
    var s', p := Apply(s, step), PlaceOf(s.tables, s.pc, id);
    var gone := p.(dueTodo := false, dueCur := false, immTodo := false, immCur := false);
    assert PlaceOf(s'.tables, s'.pc, id) == gone;
    if id in s.items {
      AbandonedItem(s.items[id], p);
      assert s'.items[id] == Behind(s.items[id], p);
    }
  }

  /** An item behind an error in a phase. */
  function Behind(it: Item, p: Place): Item {
    if p.dueTodo || p.immTodo then Dropped(it)
    else if p.dueCur then Returned(it)
    else if p.immCur then Freed(it)
    else it
  }

  lemma AbandonedItem(it: Item, p: Place)
    requires ItemInv(it, p)
    ensures ItemInv(Behind(it, p), p.(dueTodo := false, dueCur := false, immTodo := false, immCur := false))
  {
    ItemReturned(it, p);
    if p.dueTodo || p.immTodo {
      ItemAbandoned(it, p);
    }
  }

  lemma ItemAbandoned(it: Item, p: Place)
    requires ItemInv(it, p) && (p.dueTodo || p.immTodo)
    ensures ItemInv(Dropped(it), p.(dueTodo := false, immTodo := false))
  {
    LogPush(it.log, Drop);
  }

  lemma PhaseKeeps(s: State, step: Step, id: Id)
    requires Frame(s) && IdInv(s, id) && Enabled(s, step)
    requires step.StartRun? || step.EndTimers? || step.EndPosts? || step.EndCheck? || step.Leave?
    ensures IdInv(Apply(s, step), id)
  {
  }

  lemma FrameKeeps(s: State, step: Step)
    requires Frame(s) && Enabled(s, step)
    ensures Frame(Apply(s, step))
  {
    if step.TakeDue? {
      DueBatchDistinct(s, step.now, step.due);
    }
  }

  lemma StepKeeps(s: State, step: Step, id: Id)
    requires Frame(s) && IdInv(s, id) && Enabled(s, step)
    ensures IdInv(Apply(s, step), id)
  {
    match step {
      case SetTimer(_, _, _) => RegisterKeeps(s, step, id);
      case PostImmediate => RegisterKeeps(s, step, id);
      case ClearTimer(at) => ClearTimerKeeps(s, at, id);
      case ClearImmediate(at) => ClearImmediateKeeps(s, at, id);
      case Reset => ResetKeeps(s, id);
      case TakeDue(now, due) => TakeDueKeeps(s, now, due, id);
      case NextTimer => NextTimerKeeps(s, id);
      case NextImmediate => NextImmediateKeeps(s, id);
      case TimerReturns(_) => ReturnKeeps(s, step, id);
      case ImmediateReturns(_) => ReturnKeeps(s, step, id);
      case _ => PhaseKeeps(s, step, id);
    }
  }

  lemma {:induction false} Invariant(steps: seq<Step>, id: Id)
    ensures Frame(After(steps)) && IdInv(After(steps), id)
    decreases |steps|
  {
    if steps != [] {
      var before := steps[..|steps| - 1];
      var s, step := After(before), steps[|steps| - 1];
      Invariant(before, id);
      if Enabled(s, step) {
        FrameKeeps(s, step);
        StepKeeps(s, step, id);
      }
    }
  }

  // ------------------------------------------------------------ handle safety, over every run

  lemma {:induction false} SafeMeans(log: seq<Event>, i: nat, j: nat)
    requires Safe(log) && i < j < |log|
    ensures log[j] == Call ==> log[i] != Clear && log[i] != Free
    ensures log[i] == Free ==> log[j] != Free
    decreases |log|
  {
    var before := log[..|log| - 1];
    if j < |log| - 1 {
      SafeMeans(before, i, j);
    } else {
      assert log[i] in before;
    }
  }

  /** In every run, with self-clears, same-tick clears of a sibling, clears after
      firing, repeats, callback errors and resets: a callback is never invoked
      after its clear or its release, its handle is never released twice, and the
      loop has released it exactly when it no longer holds it. A one-shot timer
      and an immediate are invoked at most once. */
  lemma HandleSafety(steps: seq<Step>, id: Id)
    requires id in After(steps).items
    ensures var it := After(steps).items[id];
            && (forall i, j :: 0 <= i < j < |it.log| && it.log[j] == Call ==> it.log[i] != Clear && it.log[i] != Free)
            && (forall i, j :: 0 <= i < j < |it.log| && it.log[i] == Free ==> it.log[j] != Free)
            && (Free in it.log <==> !it.held)
            && (!it.kind.Repeat? ==> Count(it.log, Call) <= 1)
  {
    Invariant(steps, id);
    var log := After(steps).items[id].log;
    forall i, j | 0 <= i < j < |log|
      ensures log[j] == Call ==> log[i] != Clear && log[i] != Free
      ensures log[i] == Free ==> log[j] != Free
    {
      SafeMeans(log, i, j);
    }
  }

  /** Between turns the loop holds exactly the handles of the armed timers, of the queued
      immediates and of what an error left behind. A one-shot that fired is released, and so
      is a timer that was cleared, unless an error left it behind. */
  lemma HeldExactly(steps: seq<Step>, id: Id)
    requires var s := After(steps); id in s.items && (s.pc.Turn? || s.pc.Stopped?)
    ensures var s := After(steps);
            var it := s.items[id];
            && (it.held <==> id in s.tables.armed || id in s.tables.immediates || it.left)
            && (it.kind.OneShot? && Call in it.log ==> !it.held)
            && (IsTimer(it) && Clear in it.log ==> !it.held || it.left)
  {
    Invariant(steps, id);
  }

  /** A Reset, after however many errors, leaves held exactly what an error left behind in a
      batch that a later turn has since replaced. */
  lemma ResetReleases(steps: seq<Step>, id: Id)
    requires var s := After(steps); s.pc.Stopped? && id in s.items
    ensures var s := After(steps);
            After(steps + [Reset]).items[id].held <==> s.items[id].left && !Held(s.tables, id)
  {
    Invariant(steps, id);
    assert (steps + [Reset])[..|steps|] == steps;
    LogPush(After(steps).items[id].log, Free);
  }

  // ------------------------------------------------------------ what a step does to a callback

  predicate CallsNow(s: State, step: Step, id: Id)
    requires Enabled(s, step)
  {
    (step.NextTimer? || step.NextImmediate?) && s.pc.todo[0] == id && !s.items[id].cleared
  }

  predicate Clears(step: Step, id: Id) {
    (step.ClearTimer? || step.ClearImmediate?) && step.id == id
  }

  predicate TakesNow(step: Step, id: Id) {
    step.TakeDue? && id in step.due
  }

  /** What a step adds to the log of a callback, and what it leaves alone. */
  predicate EffectOf(it: Item, it': Item, calls: bool, clears: bool, takes: bool) {
    && Count(it'.log, Call) == Count(it.log, Call) + (if calls then 1 else 0)
    && (Call in it'.log <==> Call in it.log || calls) && (Clear in it'.log <==> Clear in it.log || clears)
    && (Free in it.log ==> Free in it'.log) && (Drop in it.log ==> Drop in it'.log)
    && it'.born == it.born && it'.first == it.first && (it'.taken <==> it.taken || takes)
    && (if it.kind.Repeat? then it'.kind.Repeat? && it'.kind.interval == it.kind.interval else it'.kind == it.kind)
    && (!takes ==> it'.kind == it.kind)
  }

  lemma FreedEffect(it: Item)
    ensures EffectOf(it, Freed(it), false, false, false) && EffectOf(it, Freed(it).(left := false), false, false, false)
  {
    LogPush(it.log, Free);
  }

  lemma ReturnedEffect(it: Item)
    ensures EffectOf(it, Returned(it), false, false, false)
  {
    FreedEffect(it.(running := false));
  }

  lemma CalledEffect(it: Item)
    ensures EffectOf(it, Called(it), true, false, false)
  {
    LogPush(it.log, Call);
  }

  lemma DroppedEffect(it: Item)
    ensures EffectOf(it, Dropped(it), false, false, false)
  {
    LogPush(it.log, Drop);
  }

  lemma ClearedEffect(it: Item)
    ensures EffectOf(it, it.(log := it.log + [Clear]), false, true, false)
    ensures EffectOf(it, it.(log := it.log + [Clear], cleared := true), false, true, false)
    ensures EffectOf(it, Freed(it.(log := it.log + [Clear], cleared := true)), false, true, false)
  {
    LogPush(it.log, Clear);
    LogPush(it.log + [Clear], Free);
  }

  lemma EffectReset(s: State, id: Id)
    requires id in s.items
    ensures EffectOf(s.items[id], DoReset(s).items[id], false, false, false)
  {
    FreedEffect(s.items[id]);
  }

  lemma EffectClear(s: State, step: Step, id: Id)
    requires Enabled(s, step) && id in s.items && (step.ClearTimer? || step.ClearImmediate?)
    ensures EffectOf(s.items[id], Apply(s, step).items[id], false, Clears(step, id), false)
  {
    ClearedEffect(s.items[id]);
  }

  lemma EffectGuest(s: State, step: Step, id: Id)
    requires Enabled(s, step) && id in s.items && id <= s.next
    requires step.SetTimer? || step.ClearTimer? || step.PostImmediate? || step.ClearImmediate? || step.Reset?
    ensures id in Apply(s, step).items
    ensures EffectOf(s.items[id], Apply(s, step).items[id], false, Clears(step, id), false)
  {
    if step.Reset? {
      EffectReset(s, id);
    } else if step.ClearTimer? || step.ClearImmediate? {
      EffectClear(s, step, id);
    } else {
      assert Apply(s, step).items[id] == s.items[id];
    }
  }

  lemma EffectNext(s: State, step: Step, id: Id)
    requires Enabled(s, step) && id in s.items && (step.NextTimer? || step.NextImmediate?)
    ensures id in Apply(s, step).items
    ensures EffectOf(s.items[id], Apply(s, step).items[id], CallsNow(s, step, id), false, false)
  {
    if id == s.pc.todo[0] {
      if s.items[id].cleared {
        FreedEffect(s.items[id]);
      } else {
        CalledEffect(s.items[id]);
      }
    }
  }

  lemma EffectReturn(s: State, step: Step, id: Id)
    requires Frame(s) && IdInv(s, id) && Enabled(s, step) && id in s.items
    requires step.TimerReturns? || step.ImmediateReturns?
    ensures id in Apply(s, step).items && EffectOf(s.items[id], Apply(s, step).items[id], false, false, false)
  {
    var it, it' := s.items[id], Apply(s, step).items[id];
    if id == s.pc.cur[0] {
      assert id !in s.pc.todo;
      FreedEffect(it);
      ReturnedEffect(it);
      assert it' == if step.TimerReturns? then Returned(it) else Freed(it);
    } else {
      DroppedEffect(it);
      assert it' == if step.err && id in s.pc.todo then Dropped(it) else it;
    }
  }

  lemma EffectTake(s: State, step: Step, id: Id)
    requires Enabled(s, step) && id in s.items && step.TakeDue?
    ensures id in Apply(s, step).items
    ensures EffectOf(s.items[id], Apply(s, step).items[id], false, false, TakesNow(step, id))
  {
  }

  lemma Effect(s: State, step: Step, id: Id)
    requires Frame(s) && IdInv(s, id) && Enabled(s, step) && id in s.items
    ensures id in Apply(s, step).items
    ensures EffectOf(s.items[id], Apply(s, step).items[id], CallsNow(s, step, id), Clears(step, id), TakesNow(step, id))
  {
    if step.SetTimer? || step.ClearTimer? || step.PostImmediate? || step.ClearImmediate? || step.Reset? {
      EffectGuest(s, step, id);
    } else if step.NextTimer? || step.NextImmediate? {
      EffectNext(s, step, id);
    } else if step.TimerReturns? || step.ImmediateReturns? {
      EffectReturn(s, step, id);
    } else if step.TakeDue? {
      EffectTake(s, step, id);
    }
  }

  // ------------------------------------------------------------ the order of the timers in a turn

  predicate Sooner(due: int, a: Id, due': int, b: Id) {
    due < due' || (due == due' && a < b)
  }

  /** By turn, and in a turn by due time and then by registration. */
  predicate ShotBefore(x: Shot, y: Shot) {
    x.turn < y.turn || (x.turn == y.turn && Sooner(x.due, x.id, y.due, y.id))
  }

  predicate ShotsSorted(shots: seq<Shot>) {
    forall i, j :: 0 <= i < j < |shots| ==> ShotBefore(shots[i], shots[j])
  }

  /** A shot is of a timer that its turn's takeDue saw armed and due. */
  predicate ShotSeen(past: History, x: Shot) {
    && 1 <= x.turn <= |past.takes|
    && var take := past.takes[x.turn - 1]; x.id in take.due && take.due[x.id] == x.due <= take.now
  }

  /** The rest of a batch, against what takeDue saw. */
  predicate TodoSeen(take: Take, todo: seq<Id>) {
    && (forall k :: 0 <= k < |todo| ==> todo[k] in take.due && take.due[todo[k]] <= take.now)
    && (forall i, j :: 0 <= i < j < |todo| ==> Sooner(take.due[todo[i]], todo[i], take.due[todo[j]], todo[j]))
  }

  function LastTake(past: History): Take
    requires past.takes != []
  {
    past.takes[|past.takes| - 1]
  }

  predicate ShotInv(past: History, pc: Pc) {
    && ShotsSorted(past.shots)
    && (forall i :: 0 <= i < |past.shots| ==> ShotSeen(past, past.shots[i]))
    && (pc.Timers? ==>
          && past.takes != [] && TodoSeen(LastTake(past), pc.todo)
          && forall i, k :: 0 <= i < |past.shots| && 0 <= k < |pc.todo| && past.shots[i].turn == |past.takes| ==>
               Sooner(past.shots[i].due, past.shots[i].id, LastTake(past).due[pc.todo[k]], pc.todo[k]))
  }

  lemma ShotTake(s: State, now: int, due: seq<Id>)
    requires ShotInv(s.past, s.pc) && Enabled(s, TakeDue(now, due))
    ensures var s' := DoTakeDue(s, now, due); ShotInv(s'.past, s'.pc)
  {
    var s' := DoTakeDue(s, now, due);
    forall i | 0 <= i < |s.past.shots|
      ensures ShotSeen(s'.past, s.past.shots[i])
    {
      assert ShotSeen(s.past, s.past.shots[i]);
      assert s'.past.takes[s.past.shots[i].turn - 1] == s.past.takes[s.past.shots[i].turn - 1];
    }
    assert LastTake(s'.past) == Seen(s, now);
    forall k | 0 <= k < |due|
      ensures due[k] in Seen(s, now).due && Seen(s, now).due[due[k]] <= now
    {
      assert due[k] in due;
    }
    forall i, j | 0 <= i < j < |due|
      ensures Sooner(Seen(s, now).due[due[i]], due[i], Seen(s, now).due[due[j]], due[j])
    {
      assert Less(s, due[i], due[j]);
    }
  }

  lemma ShotNext(s: State)
    requires ShotInv(s.past, s.pc) && Enabled(s, NextTimer)
    ensures var s' := DoNextTimer(s); ShotInv(s'.past, s'.pc)
  {
    var s', todo, shots := DoNextTimer(s), s.pc.todo, s.past.shots;
    var take := LastTake(s.past);
    assert forall k :: 0 <= k < |todo[1..]| ==> todo[1..][k] == todo[k + 1];
    var x := Shot(TurnOf(s), DueThen(s, todo[0]), todo[0]);
    assert ShotSeen(s.past, x);
    assert s'.past.takes == s.past.takes;
    if s'.past.shots != shots {
      var shots' := shots + [x];
      forall i, j | 0 <= i < j < |shots'|
        ensures ShotBefore(shots'[i], shots'[j])
      {
        if j == |shots| {
          assert ShotSeen(s.past, shots[i]);
        }
      }
      forall i | 0 <= i < |shots'|
        ensures ShotSeen(s'.past, shots'[i])
      {
        assert i < |shots| ==> ShotSeen(s.past, shots[i]);
      }
    }
  }

  lemma ShotKeeps(s: State, step: Step)
    requires ShotInv(s.past, s.pc) && Enabled(s, step)
    ensures ShotInv(Apply(s, step).past, Apply(s, step).pc)
  {
    var s' := Apply(s, step);
    if step.TakeDue? {
      ShotTake(s, step.now, step.due);
    } else if step.NextTimer? {
      ShotNext(s);
    } else {
      assert s'.past.takes == s.past.takes && s'.past.shots == s.past.shots;
      assert s'.pc.Timers? ==> s.pc.Timers? && s'.pc.todo == s.pc.todo;
      assert forall i :: 0 <= i < |s.past.shots| ==> ShotSeen(s.past, s.past.shots[i]);
    }
  }

  lemma {:induction false} ShotInvariant(steps: seq<Step>)
    ensures ShotInv(After(steps).past, After(steps).pc)
    decreases |steps|
  {
    if steps != [] {
      var s, step := After(steps[..|steps| - 1]), steps[|steps| - 1];
      ShotInvariant(steps[..|steps| - 1]);
      if Enabled(s, step) {
        ShotKeeps(s, step);
      }
    }
  }

  /** Over every run: the timers invoked in one turn are invoked in strict order of due time
      and then of registration, repeats and one-shots alike; so none twice. */
  lemma FiresInTurnOrder(steps: seq<Step>, i: nat, j: nat)
    requires i < j < |After(steps).past.shots|
    ensures var x, y := After(steps).past.shots[i], After(steps).past.shots[j];
            x.turn <= y.turn && (x.turn == y.turn ==> Sooner(x.due, x.id, y.due, y.id) && x.id != y.id)
  {
    ShotInvariant(steps);
  }

  function ShotsOf(shots: seq<Shot>, id: Id): nat {
    if shots == [] then 0
    else ShotsOf(shots[..|shots| - 1], id) + if shots[|shots| - 1].id == id then 1 else 0
  }

  predicate ShotsCounted(s: State, id: Id) {
    if id in s.items then IsTimer(s.items[id]) ==> ShotsOf(s.past.shots, id) == Count(s.items[id].log, Call)
    else ShotsOf(s.past.shots, id) == 0
  }

  lemma CountKeeps(s: State, step: Step, id: Id)
    requires Frame(s) && IdInv(s, id) && IdInv(s, s.next + 1) && Enabled(s, step) && ShotsCounted(s, id)
    ensures ShotsCounted(Apply(s, step), id)
  {
    if id in s.items {
      Effect(s, step, id);
    }
    var s' := Apply(s, step);
    if s'.past.shots != s.past.shots {
      assert s'.past.shots[..|s.past.shots|] == s.past.shots;
    }
  }

  /** Every invocation of a timer is one of those shots. */
  lemma {:induction false} ShotsAreCalls(steps: seq<Step>, id: Id)
    ensures ShotsCounted(After(steps), id)
    decreases |steps|
  {
    if steps != [] {
      var s, step := After(steps[..|steps| - 1]), steps[|steps| - 1];
      ShotsAreCalls(steps[..|steps| - 1], id);
      Invariant(steps[..|steps| - 1], id);
      Invariant(steps[..|steps| - 1], s.next + 1);
      if Enabled(s, step) {
        CountKeeps(s, step, id);
      }
    }
  }

  // ------------------------------------------------------------ no timer is passed over

  predicate InTodo(s: State, id: Id) {
    s.pc.Timers? && id in s.pc.todo
  }

  ghost predicate Fired(shots: seq<Shot>, turn: nat, id: Id) {
    exists i :: 0 <= i < |shots| && shots[i].turn == turn && shots[i].id == id
  }

  /** The timer was invoked in that turn, or cleared. */
  ghost predicate Handled(s: State, turn: nat, id: Id) {
    Fired(s.past.shots, turn, id) || (id in s.items && Clear in s.items[id].log)
  }

  /** What the takeDue of shot x saw was due before x. */
  predicate DueBefore(past: History, x: Shot, id: Id) {
    && 1 <= x.turn <= |past.takes| && id in past.takes[x.turn - 1].due
    && Sooner(past.takes[x.turn - 1].due[id], id, x.due, x.id)
  }

  /** The last takeDue saw the timer armed and due. */
  predicate DueNow(past: History, id: Id) {
    past.takes != [] && id in LastTake(past).due && LastTake(past).due[id] <= LastTake(past).now
  }

  ghost predicate NonePassed(s: State, x: Shot, id: Id) {
    DueBefore(s.past, x, id) ==> Handled(s, x.turn, id)
  }

  ghost predicate PassInv(s: State, id: Id) {
    && (forall i :: 0 <= i < |s.past.shots| ==> NonePassed(s, s.past.shots[i], id))
    && (s.pc.Timers? && DueNow(s.past, id) ==> InTodo(s, id) || Handled(s, TurnOf(s), id))
  }

  lemma FiredStays(shots: seq<Shot>, x: Shot, turn: nat, id: Id)
    ensures Fired(shots, turn, id) ==> Fired(shots + [x], turn, id)
    ensures Fired(shots + [Shot(turn, x.due, id)], turn, id)
  {
    if Fired(shots, turn, id) {
      var i :| 0 <= i < |shots| && shots[i].turn == turn && shots[i].id == id;
      assert (shots + [x])[i] == shots[i];
    }
    assert (shots + [Shot(turn, x.due, id)])[|shots|] == Shot(turn, x.due, id);
  }

  lemma HandledStays(s: State, step: Step, turn: nat, id: Id)
    requires Frame(s) && IdInv(s, id) && Enabled(s, step) && Handled(s, turn, id)
    ensures Handled(Apply(s, step), turn, id)
  {
    if id in s.items {
      Effect(s, step, id);
    }
    if step.NextTimer? {
      FiredStays(s.past.shots, Shot(TurnOf(s), DueThen(s, s.pc.todo[0]), s.pc.todo[0]), turn, id);
    }
  }

  lemma PassedStays(s: State, step: Step, x: Shot, id: Id)
    requires Frame(s) && IdInv(s, id) && Enabled(s, step) && NonePassed(s, x, id) && 1 <= x.turn <= |s.past.takes|
    ensures NonePassed(Apply(s, step), x, id)
  {
    var s' := Apply(s, step);
    assert s'.past.takes[x.turn - 1] == s.past.takes[x.turn - 1];
    if Handled(s, x.turn, id) {
      HandledStays(s, step, x.turn, id);
    }
  }

  lemma PassNext(s: State, id: Id)
    requires Frame(s) && IdInv(s, id) && Enabled(s, NextTimer) && ShotInv(s.past, s.pc) && PassInv(s, id)
    ensures PassInv(DoNextTimer(s), id)
  {
    var s', todo := DoNextTimer(s), s.pc.todo;
    var x := Shot(TurnOf(s), DueThen(s, todo[0]), todo[0]);
    HeadOrTail(todo, id);
    forall i | 0 <= i < |s.past.shots|
      ensures NonePassed(s', s.past.shots[i], id)
    {
      assert ShotSeen(s.past, s.past.shots[i]);
      PassedStays(s, NextTimer, s.past.shots[i], id);
    }
    if Handled(s, TurnOf(s), id) {
      HandledStays(s, NextTimer, TurnOf(s), id);
    }
    if id == todo[0] {
      HeadHandled(s);
    }
    if s'.past.shots != s.past.shots && DueBefore(s.past, x, id) {
      HeadIsFirst(s, id);
    }
  }

  lemma HeadHandled(s: State)
    requires Frame(s) && Enabled(s, NextTimer) && IdInv(s, s.pc.todo[0])
    ensures Handled(DoNextTimer(s), TurnOf(s), s.pc.todo[0])
  {
    var id := s.pc.todo[0];
    Effect(s, NextTimer, id);
    FiredStays(s.past.shots, Shot(TurnOf(s), DueThen(s, id), id), TurnOf(s), id);
  }

  /** The head of the batch is the soonest of it. */
  lemma HeadIsFirst(s: State, id: Id)
    requires s.pc.Timers? && s.pc.todo != [] && s.past.takes != [] && TodoSeen(LastTake(s.past), s.pc.todo)
    requires id in LastTake(s.past).due
    requires Sooner(LastTake(s.past).due[id], id, LastTake(s.past).due[s.pc.todo[0]], s.pc.todo[0])
    ensures !InTodo(s, id)
  {
  }

  lemma PassTake(s: State, now: int, due: seq<Id>, id: Id)
    requires Frame(s) && IdInv(s, id) && Enabled(s, TakeDue(now, due)) && ShotInv(s.past, s.pc) && PassInv(s, id)
    ensures PassInv(DoTakeDue(s, now, due), id)
  {
    var s' := DoTakeDue(s, now, due);
    forall i | 0 <= i < |s.past.shots|
      ensures NonePassed(s', s.past.shots[i], id)
    {
      assert ShotSeen(s.past, s.past.shots[i]);
      PassedStays(s, TakeDue(now, due), s.past.shots[i], id);
    }
    assert LastTake(s'.past) == Seen(s, now);
  }

  lemma PassKeeps(s: State, step: Step, id: Id)
    requires Frame(s) && IdInv(s, id) && Enabled(s, step) && ShotInv(s.past, s.pc) && PassInv(s, id)
    ensures PassInv(Apply(s, step), id)
  {
    if step.TakeDue? {
      PassTake(s, step.now, step.due, id);
    } else if step.NextTimer? {
      PassNext(s, id);
    } else {
      var s' := Apply(s, step);
      assert s'.past.takes == s.past.takes && s'.past.shots == s.past.shots;
      assert s'.pc.Timers? ==> s.pc.Timers? && s'.pc.todo == s.pc.todo;
      forall i | 0 <= i < |s.past.shots|
        ensures NonePassed(s', s.past.shots[i], id)
      {
        assert ShotSeen(s.past, s.past.shots[i]);
        PassedStays(s, step, s.past.shots[i], id);
      }
      if Handled(s, TurnOf(s), id) {
        HandledStays(s, step, TurnOf(s), id);
      }
    }
  }

  lemma {:induction false} PassInvariant(steps: seq<Step>, id: Id)
    ensures PassInv(After(steps), id)
    decreases |steps|
  {
    if steps != [] {
      var s, step := After(steps[..|steps| - 1]), steps[|steps| - 1];
      PassInvariant(steps[..|steps| - 1], id);
      ShotInvariant(steps[..|steps| - 1]);
      Invariant(steps[..|steps| - 1], id);
      if Enabled(s, step) {
        PassKeeps(s, step, id);
      }
    }
  }

  lemma EarlierShot(shots: seq<Shot>, i: nat, j: nat)
    requires ShotsSorted(shots) && i < |shots| && j < |shots| && ShotBefore(shots[i], shots[j])
    ensures i < j
  {
  }

  /** Over every run, errors and resets included: when a timer is invoked, every timer that
      its turn's takeDue saw armed, due earlier or due together and registered earlier, was
      invoked before it in that turn or has been cleared. */
  lemma NoTimerPassedOver(steps: seq<Step>, i: nat, id: Id)
    requires i < |After(steps).past.shots| && DueBefore(After(steps).past, After(steps).past.shots[i], id)
    ensures var s := After(steps);
            || (exists j :: 0 <= j < i && s.past.shots[j].turn == s.past.shots[i].turn && s.past.shots[j].id == id)
            || (id in s.items && Clear in s.items[id].log)
  {
    PassInvariant(steps, id);
    ShotInvariant(steps);
    var s := After(steps);
    var shots, x := s.past.shots, s.past.shots[i];
    assert NonePassed(s, x, id);
    if Fired(shots, x.turn, id) {
      var j :| 0 <= j < |shots| && shots[j].turn == x.turn && shots[j].id == id;
      assert ShotSeen(s.past, shots[j]);
      EarlierShot(shots, j, i);
    }
  }

  // ------------------------------------------------------------ first firings, from turn to turn

  /** What becomes of a callback: it is invoked, cleared, released unfired by a Reset, or an
      error abandons the batch it is waiting in. */
  predicate Settled(it: Item) {
    Call in it.log || Clear in it.log || Free in it.log || Drop in it.log
  }

  predicate Waiting(s: State, id: Id) {
    id in s.tables.armed && id in s.items && !s.items[id].taken
  }

  /** Two timers, a registered before b and first due no later. */
  predicate Earlier(s: State, a: Id, b: Id) {
    && a in s.items && b in s.items && a < b && IsTimer(s.items[a]) && IsTimer(s.items[b])
    && s.items[a].first <= s.items[b].first
  }

  /** a is taken no later than b, and in one batch ahead of b. */
  predicate NotOvertaken(s: State, a: Id, b: Id) {
    Earlier(s, a, b) ==>
      && (s.items[b].taken ==> !Waiting(s, a))
      && (Call in s.items[b].log && InTodo(s, a) ==> Settled(s.items[a]))
      && (InTodo(s, a) && InTodo(s, b) && !Settled(s.items[a]) ==>
            DueThen(s, a) == s.items[a].first && DueThen(s, b) == s.items[b].first)
  }

  /** A timer waits for its first turn, or is taken, or is settled. */
  predicate Accounted(s: State, a: Id) {
    a in s.items && IsTimer(s.items[a]) ==> Waiting(s, a) || InTodo(s, a) || Settled(s.items[a])
  }

  predicate OrderInv(s: State, a: Id, b: Id) {
    NotOvertaken(s, a, b) && Accounted(s, a)
  }

  lemma DueAtTake(s: State, now: int, due: seq<Id>, id: Id)
    requires IdInv(s, id) && Enabled(s, TakeDue(now, due)) && id in due
    ensures id in s.items && DueThen(DoTakeDue(s, now, due), id) == Due(s.items[id]) <= now
    ensures !s.items[id].taken ==> Due(s.items[id]) == s.items[id].first
  {
    var s' := DoTakeDue(s, now, due);
    assert LastTake(s'.past) == Seen(s, now);
  }

  lemma OrderTake(s: State, now: int, due: seq<Id>, a: Id, b: Id)
    requires Frame(s) && IdInv(s, a) && IdInv(s, b) && Enabled(s, TakeDue(now, due)) && OrderInv(s, a, b)
    ensures OrderInv(DoTakeDue(s, now, due), a, b)
  {
    if a in s.items {
      Effect(s, TakeDue(now, due), a);
    }
    if b in s.items {
      Effect(s, TakeDue(now, due), b);
    }
    if a in due {
      DueAtTake(s, now, due, a);
    }
    if b in due {
      DueAtTake(s, now, due, b);
    }
  }

  lemma AccountedNext(s: State, a: Id)
    requires Frame(s) && IdInv(s, a) && Enabled(s, NextTimer) && Accounted(s, a)
    ensures Accounted(DoNextTimer(s), a)
  {
    HeadOrTail(s.pc.todo, a);
    if a in s.items {
      Effect(s, NextTimer, a);
    }
  }

  lemma OrderNext(s: State, a: Id, b: Id)
    requires Frame(s) && IdInv(s, a) && IdInv(s, b) && Enabled(s, NextTimer)
    requires ShotInv(s.past, s.pc) && OrderInv(s, a, b)
    ensures OrderInv(DoNextTimer(s), a, b)
  {
    AccountedNext(s, a);
    HeadOrTail(s.pc.todo, a);
    HeadOrTail(s.pc.todo, b);
    if Earlier(DoNextTimer(s), a, b) {
      Effect(s, NextTimer, a);
      Effect(s, NextTimer, b);
      if b == s.pc.todo[0] && a in s.pc.todo[1..] {
        HeadSooner(s, a);
      }
    }
  }

  lemma HeadSooner(s: State, a: Id)
    requires Enabled(s, NextTimer) && ShotInv(s.past, s.pc) && a in s.pc.todo[1..]
    ensures Sooner(DueThen(s, s.pc.todo[0]), s.pc.todo[0], DueThen(s, a), a)
  {
    var k :| 0 <= k < |s.pc.todo[1..]| && s.pc.todo[1..][k] == a;
    assert s.pc.todo[k + 1] == a;
  }

  /** Only SetTimer arms, and only ClearTimer, TakeDue and Reset disarm; only TakeDue and
      NextTimer and an error change the rest of the batch. */
  lemma OthersKeep(s: State, step: Step, id: Id)
    requires Frame(s) && IdInv(s, id) && Enabled(s, step) && !step.TakeDue? && !step.NextTimer?
    ensures var s' := Apply(s, step);
            && (id in s'.tables.armed ==> id in s.tables.armed || (step.SetTimer? && id == s.next + 1))
            && (id in s.tables.armed ==> id in s'.tables.armed || Clears(step, id) || Free in s'.items[id].log)
            && (InTodo(s', id) ==> InTodo(s, id))
            && (InTodo(s, id) && id in s.items ==> InTodo(s', id) || Drop in s'.items[id].log)
            && s'.past.takes == s.past.takes
  {
    if id in s.items {
      LogPush(s.items[id].log, Free);
      LogPush(s.items[id].log, Drop);
    }
  }

  lemma AccountedRest(s: State, step: Step, a: Id)
    requires Frame(s) && IdInv(s, a) && Enabled(s, step) && !step.TakeDue? && !step.NextTimer? && Accounted(s, a)
    ensures Accounted(Apply(s, step), a)
  {
    OthersKeep(s, step, a);
    if a in s.items {
      Effect(s, step, a);
    }
  }

  /** Two registered timers, over a step that neither takes nor invokes one. */
  lemma OrderOld(s: State, s': State, a: Id, b: Id)
    requires a in s.items && b in s.items && a in s'.items && b in s'.items && NotOvertaken(s, a, b)
    requires exists clears :: EffectOf(s.items[a], s'.items[a], false, clears, false)
    requires exists clears :: EffectOf(s.items[b], s'.items[b], false, clears, false)
    requires a in s'.tables.armed ==> a in s.tables.armed
    requires (InTodo(s', a) ==> InTodo(s, a)) && (InTodo(s', b) ==> InTodo(s, b)) && s'.past.takes == s.past.takes
    ensures NotOvertaken(s', a, b)
  {
  }

  lemma OrderRest(s: State, step: Step, a: Id, b: Id)
    requires Frame(s) && IdInv(s, a) && IdInv(s, b) && Enabled(s, step) && !step.TakeDue? && !step.NextTimer?
    requires OrderInv(s, a, b)
    ensures OrderInv(Apply(s, step), a, b)
  {
    AccountedRest(s, step, a);
    if a in s.items && b in s.items && IsTimer(s.items[a]) && IsTimer(s.items[b]) {
      TimerEffect(s, step, a);
      TimerEffect(s, step, b);
      OthersKeep(s, step, a);
      OthersKeep(s, step, b);
      OrderOld(s, Apply(s, step), a, b);
    } else {
      OrderNew(s, step, a, b);
    }
  }

  lemma TimerEffect(s: State, step: Step, id: Id)
    requires Frame(s) && IdInv(s, id) && Enabled(s, step) && !step.TakeDue? && !step.NextTimer?
    requires id in s.items && IsTimer(s.items[id])
    ensures id in Apply(s, step).items
    ensures EffectOf(s.items[id], Apply(s, step).items[id], false, Clears(step, id), false)
  {
    Effect(s, step, id);
    assert step.NextImmediate? ==> id != s.pc.todo[0];
  }

  lemma OrderNew(s: State, step: Step, a: Id, b: Id)
    requires Frame(s) && IdInv(s, a) && IdInv(s, b) && Enabled(s, step) && !step.TakeDue? && !step.NextTimer?
    requires !(a in s.items && b in s.items && IsTimer(s.items[a]) && IsTimer(s.items[b]))
    ensures NotOvertaken(Apply(s, step), a, b)
  {
    if a in s.items {
      Effect(s, step, a);
    }
    if b in s.items {
      Effect(s, step, b);
    } else {
      OthersKeep(s, step, b);
    }
  }

  lemma {:induction false} OrderInvariant(steps: seq<Step>, a: Id, b: Id)
    ensures OrderInv(After(steps), a, b)
    decreases |steps|
  {
    if steps != [] {
      var before := steps[..|steps| - 1];
      var s, step := After(before), steps[|steps| - 1];
      OrderInvariant(before, a, b);
      Invariant(before, a);
      Invariant(before, b);
      ShotInvariant(before);
      if Enabled(s, step) {
        if step.TakeDue? {
          OrderTake(s, step.now, step.due, a, b);
        } else if step.NextTimer? {
          OrderNext(s, a, b);
        } else {
          OrderRest(s, step, a, b);
        }
      }
    }
  }

  /** Over every run: once a timer has fired, every timer registered before it and first due
      no later has fired too, unless it was cleared, reset or abandoned by an error. */
  lemma FiresInOrder(steps: seq<Step>, a: Id, b: Id)
    requires Earlier(After(steps), a, b) && Call in After(steps).items[b].log
    ensures Settled(After(steps).items[a])
  {
    OrderInvariant(steps, a, b);
    Invariant(steps, b);
  }

  predicate Orderly(step: Step) {
    !step.Reset? && ((step.TimerReturns? || step.ImmediateReturns?) ==> !step.err)
  }

  predicate PlainLog(log: seq<Event>) {
    Drop !in log && (Free in log ==> Call in log || Clear in log)
  }

  lemma PlainFreed(it: Item)
    requires PlainLog(it.log) && (Call in it.log || Clear in it.log)
    ensures PlainLog(Freed(it).log) && PlainLog(Returned(it).log)
  {
    LogPush(it.log, Free);
  }

  lemma PlainAdded(it: Item)
    requires PlainLog(it.log)
    ensures PlainLog(it.log + [Call]) && PlainLog(it.log + [Clear]) && PlainLog(it.log + [Clear] + [Free])
  {
    LogPush(it.log, Call);
    LogPush(it.log, Clear);
    LogPush(it.log + [Clear], Free);
  }

  lemma PlainKeeps(s: State, step: Step, id: Id)
    requires Frame(s) && IdInv(s, id) && Enabled(s, step) && Orderly(step) && id in s.items && PlainLog(s.items[id].log)
    ensures PlainLog(Apply(s, step).items[id].log)
  {
    PlainAdded(s.items[id]);
    if Call in s.items[id].log || Clear in s.items[id].log {
      PlainFreed(s.items[id]);
    }
  }

  /** Without errors and resets, settled is invoked or cleared. */
  lemma {:induction false} OrderlyRun(steps: seq<Step>, id: Id)
    requires (forall k :: 0 <= k < |steps| ==> Orderly(steps[k])) && id in After(steps).items
    ensures PlainLog(After(steps).items[id].log)
    ensures var it := After(steps).items[id]; Settled(it) ==> Call in it.log || Clear in it.log
    decreases |steps|
  {
    if steps != [] {
      var before := steps[..|steps| - 1];
      var s, step := After(before), steps[|steps| - 1];
      Invariant(before, id);
      assert forall k :: 0 <= k < |before| ==> before[k] == steps[k];
      if id in s.items {
        OrderlyRun(before, id);
        if Enabled(s, step) {
          PlainKeeps(s, step, id);
        }
      }
    }
  }

  // ------------------------------------------------------------ immediates before timers

  predicate BornInv(s: State, id: Id) {
    id in s.items && s.items[id].born >= 0 ==>
      var it := s.items[id];
      && it.born <= TurnOf(s)
      && (it.kind.Immediate? && it.born !in s.past.cut && !Settled(it) ==>
            && it.born == TurnOf(s)
            && ((s.pc.Posts? && id in s.tables.immediates) || (s.pc.Check? && id in s.pc.todo)))
      && (IsTimer(it) && it.taken ==> it.born < TurnOf(s))
      && (it.born == TurnOf(s) ==> s.pc.Posts? || s.pc.Check? || s.pc.Turn? || s.pc.Stopped?)
  }

  lemma BornKeeps(s: State, step: Step, id: Id)
    requires Frame(s) && IdInv(s, id) && Enabled(s, step) && BornInv(s, id)
    ensures BornInv(Apply(s, step), id)
  {
    if id in s.items {
      Effect(s, step, id);
      if step.NextTimer? || step.NextImmediate? || step.TimerReturns? || step.ImmediateReturns? {
        BornPhase(s, step, id);
      } else if step.Reset? {
        LogPush(s.items[id].log, Free);
      }
    }
  }

  lemma BornPhase(s: State, step: Step, id: Id)
    requires Frame(s) && IdInv(s, id) && Enabled(s, step) && BornInv(s, id) && id in s.items
    requires step.NextTimer? || step.NextImmediate? || step.TimerReturns? || step.ImmediateReturns?
    ensures BornInv(Apply(s, step), id)
  {
    Effect(s, step, id);
    if step.NextTimer? || step.NextImmediate? {
      HeadOrTail(s.pc.todo, id);
      LogPush(s.items[id].log, Free);
    } else {
      LogPush(s.items[id].log, Drop);
    }
  }

  lemma {:induction false} BornInvariant(steps: seq<Step>, id: Id)
    ensures BornInv(After(steps), id)
    decreases |steps|
  {
    if steps != [] {
      var before := steps[..|steps| - 1];
      BornInvariant(before, id);
      Invariant(before, id);
      if Enabled(After(before), steps[|steps| - 1]) {
        BornKeeps(After(before), steps[|steps| - 1], id);
      }
    }
  }

  /** Over every run: before a timer fires that was armed in the posts phase of a turn, an
      immediate queued in the same phase has been settled, unless the run left that very turn
      between its posts and check phases. */
  lemma ImmediateBeforeTimer(steps: seq<Step>, m: Id, t: Id)
    requires var s := After(steps);
             && m in s.items && t in s.items && s.items[m].kind.Immediate? && IsTimer(s.items[t])
             && s.items[m].born == s.items[t].born >= 0 && s.items[m].born !in s.past.cut && Call in s.items[t].log
    ensures Settled(After(steps).items[m])
  {
    BornInvariant(steps, m);
    BornInvariant(steps, t);
    Invariant(steps, t);
  }

  // ------------------------------------------------------------ the order of the immediates

  predicate Ascending(q: seq<Id>) {
    forall i, j :: 0 <= i < j < |q| ==> q[i] < q[j]
  }

  /** The batch under way and the queue behind it are in the order of registration. */
  predicate QueueOrder(s: State) {
    && Ascending(s.tables.immediates)
    && (forall k :: 0 <= k < |s.tables.immediates| ==> s.tables.immediates[k] <= s.next)
    && (s.pc.Check? ==>
          && Ascending(s.pc.todo) && (forall k :: 0 <= k < |s.pc.todo| ==> s.pc.todo[k] <= s.next)
          && forall i, j :: 0 <= i < |s.pc.todo| && 0 <= j < |s.tables.immediates| ==>
               s.pc.todo[i] < s.tables.immediates[j])
  }

  lemma QueueKeeps(s: State, step: Step)
    requires QueueOrder(s) && Enabled(s, step)
    ensures QueueOrder(Apply(s, step))
  {
    var s' := Apply(s, step);
    if step.NextImmediate? {
      assert forall k :: 0 <= k < |s'.pc.todo| ==> s'.pc.todo[k] == s.pc.todo[k + 1];
    }
  }

  /** An immediate is queued, in the batch under way, or settled. */
  predicate Queued(s: State, a: Id) {
    a in s.items && s.items[a].kind.Immediate? ==>
      a in s.tables.immediates || (s.pc.Check? && a in s.pc.todo) || Settled(s.items[a])
  }

  lemma QueuedKeeps(s: State, step: Step, a: Id)
    requires Frame(s) && IdInv(s, a) && Queued(s, a) && Enabled(s, step)
    ensures Queued(Apply(s, step), a)
  {
    hide Count, Safe;
    if a in s.items {
      Effect(s, step, a);
      if step.Reset? {
        LogPush(s.items[a].log, Free);
      } else if step.NextImmediate? {
        HeadOrTail(s.pc.todo, a);
      } else if step.ImmediateReturns? && a in s.pc.todo {
        LogPush(s.items[a].log, Drop);
      }
    }
  }

  predicate InQueueOrder(s: State, a: Id, b: Id) {
    (a < b && a in s.items && b in s.items && s.items[a].kind.Immediate? && s.items[b].kind.Immediate?
     && Call in s.items[b].log) ==> Settled(s.items[a])
  }

  lemma CallsInOrder(s: State, step: Step, a: Id, b: Id)
    requires Frame(s) && IdInv(s, a) && IdInv(s, b) && IdInv(s, s.next + 1) && QueueOrder(s) && Queued(s, a)
    requires InQueueOrder(s, a, b) && Enabled(s, step)
    ensures InQueueOrder(Apply(s, step), a, b)
  {
    hide Count, Safe;
    if a in s.items && b in s.items {
      Effect(s, step, a);
      Effect(s, step, b);
    } else if b in s.items {
      assert b <= s.next;
    }
  }

  lemma {:induction false} QueueInvariant(steps: seq<Step>, a: Id, b: Id)
    ensures var s := After(steps); QueueOrder(s) && Queued(s, a) && InQueueOrder(s, a, b)
    decreases |steps|
  {
    hide QueueOrder, Queued, InQueueOrder, Enabled, Apply, IdInv, Frame;
    if steps == [] {
      QueueInit(a, b);
    } else {
      var before := steps[..|steps| - 1];
      var s, step := After(before), steps[|steps| - 1];
      QueueInvariant(before, a, b);
      Invariant(before, a);
      Invariant(before, b);
      Invariant(before, s.next + 1);
      if Enabled(s, step) {
        QueueKeeps(s, step);
        QueuedKeeps(s, step, a);
        CallsInOrder(s, step, a, b);
      }
    }
  }

  lemma QueueInit(a: Id, b: Id)
    ensures QueueOrder(INIT) && Queued(INIT, a) && InQueueOrder(INIT, a, b)
  {
  }

  /** Over every run: when an immediate has run, every immediate queued before it has run too,
      or was cleared, reset or abandoned by an error. */
  lemma ImmediatesInOrder(steps: seq<Step>, a: Id, b: Id)
    requires var s := After(steps);
             && a < b && a in s.items && b in s.items && s.items[a].kind.Immediate? && s.items[b].kind.Immediate?
             && Call in s.items[b].log
    ensures Settled(After(steps).items[a])
  {
    hide After;
    QueueInvariant(steps, a, b);
  }

  // ------------------------------------------------------------ two schedules

  lemma Extend(steps: seq<Step>, step: Step, s: State) returns (more: seq<Step>)
    requires After(steps) == s && Enabled(s, step)
    ensures more == steps + [step] && After(more) == Apply(s, step)
  {
    more := steps + [step];
    assert more[..|steps|] == steps;
  }

  /** A posts phase in which an immediate was queued and a timer armed. */
  predicate QueuedBoth(s: State) {
    && s.pc.Posts? && TurnOf(s) == 1 && s.tables == Tables({2}, [], [1], []) && 1 in s.items && 2 in s.items
    && s.items[1] == Item(Immediate, true, false, false, 0, false, false, 1, [])
    && s.items[2] == Item(OneShot(0), true, false, false, 0, false, false, 1, [])
  }

  lemma ReachQueued() returns (steps: seq<Step>)
    ensures QueuedBoth(After(steps))
  {
    var s := INIT.(pc := Turn);
    steps := Extend([], StartRun, INIT);
    steps := Extend(steps, TakeDue(0, []), s);
    s := DoTakeDue(s, 0, []);
    steps := Extend(steps, EndTimers, s);
    s := s.(pc := Posts, tables := s.tables.(dueBatch := []));
    steps := Extend(steps, PostImmediate, s);
    s := DoPostImmediate(s);
    steps := Extend(steps, SetTimer(0, 0, false), s);
  }

  /** The exception of ImmediateBeforeTimer is real: a run left in the posts phase fires the
      timer in its next turn, with the immediate still waiting. */
  lemma TimerBeforeImmediate() returns (steps: seq<Step>)
    ensures var s := After(steps);
            && 1 in s.items && 2 in s.items && s.items[1].kind.Immediate? && IsTimer(s.items[2])
            && s.items[1].born == s.items[2].born == 1
            && s.items[1].log == [] && Call in s.items[2].log
  {
    steps := ReachQueued();
    var s := After(steps);
    steps := Extend(steps, Leave, s);
    s := DoLeave(s);
    steps := Extend(steps, StartRun, s);
    s := s.(pc := Turn);
    steps := Extend(steps, TakeDue(0, [2]), s);
    s := DoTakeDue(s, 0, [2]);
    steps := Extend(steps, NextTimer, s);
  }

  /** Two timers armed and due, and a turn under way. */
  predicate ArmedBoth(s: State) {
    && s.pc.Turn? && s.tables == Tables({1, 2}, [], [], []) && 1 in s.items && 2 in s.items
    && s.items[1] == Item(OneShot(0), true, false, false, 0, false, false, -1, [])
    && s.items[2] == s.items[1]
  }

  lemma ReachArmed() returns (steps: seq<Step>)
    ensures ArmedBoth(After(steps))
  {
    var s := DoSetTimer(INIT, 0, 0, false);
    steps := Extend([], SetTimer(0, 0, false), INIT);
    steps := Extend(steps, SetTimer(0, 0, false), s);
    s := DoSetTimer(s, 0, 0, false);
    steps := Extend(steps, StartRun, s);
    assert s.tables.armed == {1, 2};
  }

  /** The callback of the first fails. */
  lemma ReachError() returns (steps: seq<Step>)
    ensures var s := After(steps);
            && s.pc.Stopped? && s.tables == Tables({}, [1, 2], [], []) && 2 in s.items
            && s.items[2].held && s.items[2].log == [Drop]
  {
    steps := ReachArmed();
    var s := After(steps);
    steps := Extend(steps, TakeDue(0, [1, 2]), s);
    s := DoTakeDue(s, 0, [1, 2]);
    assert s.tables.armed == {};
    steps := Extend(steps, NextTimer, s);
    s := DoNextTimer(s);
    steps := Extend(steps, TimerReturns(true), s);
  }

  /** The exception of ResetReleases is real: a timer that an error left behind is held after
      a Reset, when a turn came between. */
  lemma HeldAfterReset() returns (steps: seq<Step>)
    ensures var s := After(steps);
            && s.pc.Stopped? && s.tables == INIT.tables && 2 in s.items
            && s.items[2].held && Call !in s.items[2].log
  {
    steps := ReachError();
    var s := After(steps);
    steps := Extend(steps, StartRun, s);
    s := s.(pc := Turn);
    steps := Extend(steps, TakeDue(0, []), s);
    s := DoTakeDue(s, 0, []);
    steps := Extend(steps, EndTimers, s);
    s := s.(pc := Posts, tables := s.tables.(dueBatch := []));
    steps := Extend(steps, Leave, s);
    s := DoLeave(s);
    steps := Extend(steps, Reset, s);
  }

  // ------------------------------------------------------------ takeDue's selection and sort

  predicate AllKnown(s: State, q: seq<Id>) {
    forall k :: 0 <= k < |q| ==> q[k] in s.items
  }

  /** q[lo..hi] is in strict (due, id) order. */
  predicate SortedUpTo(s: State, q: seq<Id>, hi: nat)
    requires AllKnown(s, q) && hi <= |q|
  {
    forall i, j :: 0 <= i < j < hi ==> Less(s, q[i], q[j])
  }

  /** The same ids, each once. */
  predicate SameIds(p: seq<Id>, q: seq<Id>) {
    NoDuplicates(q) && |p| == |q| && (forall id :: id in p ==> id in q) && (forall id :: id in q ==> id in p)
  }

  function Swapped(q: seq<Id>, j: nat): seq<Id>
    requires 0 < j < |q|
  {
    q[j := q[j - 1]][j - 1 := q[j]]
  }

  lemma SwapSame(p: seq<Id>, q: seq<Id>, j: nat)
    requires SameIds(p, q) && 0 < j < |q|
    ensures SameIds(p, Swapped(q, j))
  {
    var r := Swapped(q, j);
    forall id | id in q
      ensures id in r
    {
      var k :| 0 <= k < |q| && q[k] == id;
      assert r[if k == j then j - 1 else if k == j - 1 then j else k] == id;
    }
    forall id | id in r
      ensures id in q
    {
      var k :| 0 <= k < |r| && r[k] == id;
      assert q[if k == j then j - 1 else if k == j - 1 then j else k] == id;
    }
  }

  /** All of q[..i + 1] is in order except that q[j] may belong further left. */
  predicate Sinking(s: State, q: seq<Id>, i: nat, j: nat)
    requires AllKnown(s, q) && j <= i < |q|
  {
    && (forall x, y :: 0 <= x < y <= i && x != j && y != j ==> Less(s, q[x], q[y]))
    && (forall y :: j < y <= i ==> Less(s, q[j], q[y]))
  }

  lemma SinkStep(s: State, q: seq<Id>, i: nat, j: nat)
    requires AllKnown(s, q) && 0 < j <= i < |q| && Sinking(s, q, i, j) && Less(s, q[j], q[j - 1])
    ensures AllKnown(s, Swapped(q, j)) && Sinking(s, Swapped(q, j), i, j - 1)
  {
  }

  lemma SinkEnd(s: State, q: seq<Id>, i: nat, j: nat)
    requires AllKnown(s, q) && j <= i < |q| && NoDuplicates(q) && Sinking(s, q, i, j)
    requires j == 0 || !Less(s, q[j], q[j - 1])
    ensures SortedUpTo(s, q, i + 1)
  {
    forall x | 0 <= x < j
      ensures Less(s, q[x], q[j])
    {
      assert Less(s, q[j - 1], q[j]);
      if x < j - 1 {
        assert Less(s, q[x], q[j - 1]);
      }
    }
  }

  /** The insertion sort of takeDue, in place. */
  method SortDue(s: State, a: array<Id>)
    requires AllKnown(s, a[..]) && NoDuplicates(a[..])
    modifies a
    ensures SameIds(old(a[..]), a[..]) && AllKnown(s, a[..]) && SortedUpTo(s, a[..], a.Length)
  {
    ghost var start := a[..];
    var i := if a.Length == 0 then 0 else 1;
    while i < a.Length
      invariant i <= a.Length && (a.Length > 0 ==> i > 0)
      invariant SameIds(start, a[..]) && AllKnown(s, a[..]) && SortedUpTo(s, a[..], i)
    {
      var j := i;
      while j > 0 && Less(s, a[j], a[j - 1])
        invariant 0 <= j <= i && SameIds(start, a[..]) && AllKnown(s, a[..]) && Sinking(s, a[..], i, j)
      {
        SwapSame(start, a[..], j);
        SinkStep(s, a[..], i, j);
        ghost var before := a[..];
        a[j], a[j - 1] := a[j - 1], a[j];
        assert a[..] == Swapped(before, j);
        j := j - 1;
      }
      SinkEnd(s, a[..], i, j);
      i := i + 1;
    }
  }

  /** takeDue's choice: the map is walked in an arbitrary order. */
  method ChooseDue(s: State, now: int) returns (due: seq<Id>)
    requires forall id :: id in s.tables.armed ==> id in s.items
    ensures IsDueBatch(s, now, due)
  {
    var picked: seq<Id> := [];
    var rest := s.tables.armed;
    while rest != {}
      invariant rest <= s.tables.armed && NoDuplicates(picked)
      invariant forall id :: id in picked ==> id in s.tables.armed && id !in rest && Due(s.items[id]) <= now
      invariant forall id :: id in s.tables.armed && id !in rest && Due(s.items[id]) <= now ==> id in picked
      decreases rest
    {
      var id :| id in rest;
      rest := rest - {id};
      if Due(s.items[id]) <= now {
        picked := picked + [id];
      }
    }
    var a := new Id[|picked|](k requires 0 <= k < |picked| => picked[k]);
    assert a[..] == picked;
    SortDue(s, a);
    due := a[..];
  }

  lemma {:induction false} SortedHeads(s: State, p: seq<Id>, q: seq<Id>)
    requires AllKnown(s, p) && AllKnown(s, q) && SortedUpTo(s, p, |p|) && SortedUpTo(s, q, |q|)
    requires forall id :: id in p <==> id in q
    ensures p == q
    decreases |p|
  {
    assert q != [] ==> q[0] in q;
    if p != [] {
      assert p[0] in q && q[0] in p;
      assert p[0] == q[0];
      forall id
        ensures id in p[1..] <==> id in q[1..]
      {
        HeadOrTail(p, id);
        HeadOrTail(q, id);
        NotBeforeItself(s, p);
        NotBeforeItself(s, q);
      }
      SortedHeads(s, p[1..], q[1..]);
    }
  }

  lemma NotBeforeItself(s: State, p: seq<Id>)
    requires p != [] && AllKnown(s, p) && SortedUpTo(s, p, |p|)
    ensures p[0] !in p[1..]
  {
  }

  /** The batch does not depend on the order in which the map was walked. */
  lemma DueBatchUnique(s: State, now: int, p: seq<Id>, q: seq<Id>)
    requires IsDueBatch(s, now, p) && IsDueBatch(s, now, q)
    ensures p == q
  {
    SortedHeads(s, p, q);
  }
}
