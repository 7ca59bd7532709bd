/** The exit protocol of node:worker_threads (compat/nodejs/worker.go over
    agents.go): agent goroutines, one pump goroutine and the loop goroutine, as
    a step relation over every interleaving of their atomic blocks. */
module WorkerExit {

  type Id = nat

  /** A message an agent posts: its farewell, or any other. n numbers the messages of one
      agent; it is bookkeeping, and tells two messages with the same contents apart. */
  datatype Msg = Data(payload: int, n: nat) | Farewell(code: int, n: nat)

  /** What made a Worker exit: the farewell of that number, or its agent's silence. */
  datatype Cause = Said(n: nat) | Silence

  /** What a Worker instance emits to the guest, 'online' excepted; n and cause are
      bookkeeping, as in Msg. */
  datatype Event = Message(payload: int, n: nat) | Exit(code: int, cause: Cause)

  const CRASH := Exit(1, Silence)

  /** A completion queued on the event loop. */
  datatype Task = EmitOnline(id: Id) | Dispatch(id: Id, msg: Msg) | Crash(id: Id)

  /** Where the pump goroutine stands. It holds the manager's mutex exactly while
      it is Scanning. */
  datatype Pump =
    | Polling
    | Received(id: Id, msg: Msg)             // popped, instance not yet looked up
    | Routing(id: Id, msg: Msg)              // instance found, task not yet posted
    | Scanning(todo: set<Id>, reap: seq<Id>) // reapDead, ids still to visit
    | Posting(reap: seq<Id>)                 // reapDead, crash tasks still to post

  /** Where the loop goroutine stands inside opWorkerSpawn. */
  datatype Spawn = NotSpawning | Starting(id: Id) | Booked(id: Id) | Registered(id: Id) | Sent(id: Id) | Counted(id: Id)

  /** The cluster: the agent goroutines that have not recorded their exit, and
      the tables alive, exited and posts of Agents. */
  datatype Agents = Agents(running: set<Id>, alive: set<Id>, exited: set<Id>, posts: seq<(Id, Msg)>)

  /** The tables insts, deadSeen and reaping of workerManager. */
  datatype Manager = Manager(insts: set<Id>, deadSeen: map<Id, nat>, reaping: set<Id>)

  /** What happened to one worker so far: whether it was sent its init message or
      that handshake failed, what its agent posted, what its instance emitted, and
      how often its handle was freed and its pending added and released. */
  datatype Log = Log(ready: bool, failed: bool, sent: seq<Msg>, events: seq<Event>,
                     freed: nat, added: nat, released: nat)

  const NO_LOG := Log(false, false, [], [], 0, 0, 0)

  /** harmed is bookkeeping: the workers that a failed Receive did harm to. */
  datatype State = State(agents: Agents, manager: Manager, queue: seq<Task>, pump: Pump, spawn: Spawn, next: Id,
                         logs: map<Id, Log>, closed: bool, harmed: set<Id>)

  const INIT := State(Agents({}, {}, {}, []), Manager({}, map[], {}), [], Polling, NotSpawning, 0, map[], false, {})

  datatype Step =
    | SpawnStart | SpawnBook | Register | SendInit | SendInitFails | AddPending | PostOnline
    | AgentPost(id: Id, msg: Msg) | AgentExit(id: Id)
    | Receive | ReceiveFails | ReceiveEmpty | Lookup | Route | Scan(id: Id) | ScanEnd | PostCrash | Sleep
    | RunTask
    | Close

  function LogOf(s: State, id: Id): Log {
    if id in s.logs then s.logs[id] else NO_LOG
  }

  function WithLog(s: State, id: Id, log: Log): State {
    s.(logs := s.logs[id := log])
  }

  function DeadCount(m: Manager, id: Id): nat {
    if id in m.deadSeen then m.deadSeen[id] else 0
  }

  predicate NeedsLock(t: Task) {
    t.Crash? || (t.Dispatch? && t.msg.Farewell?)
  }

  predicate Enabled(s: State, step: Step) {
    match step
    case SpawnStart => s.spawn.NotSpawning?
    case SpawnBook => s.spawn.Starting?
    case Register => s.spawn.Booked? && !s.pump.Scanning?
    case SendInit => s.spawn.Registered?
    case SendInitFails => s.spawn.Registered? && !s.pump.Scanning?
    case AddPending => s.spawn.Sent?
    case PostOnline => s.spawn.Counted?
    case AgentPost(id, msg) => id in s.agents.running && LogOf(s, id).ready && msg.n == |LogOf(s, id).sent|
    case AgentExit(id) => id in s.agents.running
    case Receive => s.pump.Polling? && s.agents.posts != []
    case ReceiveFails => s.pump.Polling? && s.agents.posts != []
    case ReceiveEmpty => s.pump.Polling? && s.agents.posts == []
    case Lookup => s.pump.Received?
    case Route => s.pump.Routing?
    case Scan(id) => s.pump.Scanning? && id in s.pump.todo
    case ScanEnd => s.pump.Scanning? && s.pump.todo == {}
    case PostCrash => s.pump.Posting? && s.pump.reap != []
    case Sleep => s.pump.Posting? && s.pump.reap == []
    case RunTask => s.spawn.NotSpawning? && s.queue != [] && (NeedsLock(s.queue[0]) ==> !s.pump.Scanning?)
    case Close => s.spawn.NotSpawning? && !s.pump.Scanning?
  }

  /** Agents.handleExit. */
  function RecordExit(a: Agents, id: Id): Agents {
    if id in a.alive then Agents(a.running - {id}, a.alive - {id}, a.exited, a.posts)
    else Agents(a.running - {id}, a.alive, a.exited + {id}, a.posts)
  }

  /** Agents.Spawn after the engine returned. */
  function Book(a: Agents, id: Id): Agents {
    if id in a.exited then a.(exited := a.exited - {id}) else a.(alive := a.alive + {id})
  }

  /** The agent is to be reaped: seen dead a second time, and not reaped yet. */
  predicate Reaps(s: State, id: Id) {
    id !in s.agents.alive && DeadCount(s.manager, id) + 1 >= 2 && id !in s.manager.reaping
  }

  /** One visit of reapDead's loop. */
  function ScanManager(s: State, id: Id): Manager {
    var m := s.manager;
    if id in s.agents.alive then m.(deadSeen := m.deadSeen - {id})
    else Manager(m.insts, m.deadSeen[id := DeadCount(m, id) + 1], if Reaps(s, id) then m.reaping + {id} else m.reaping)
  }

  function ScanPump(s: State, id: Id): Pump
    requires s.pump.Scanning?
  {
    Scanning(s.pump.todo - {id}, if Reaps(s, id) then s.pump.reap + [id] else s.pump.reap)
  }

  function Drop(m: Manager, id: Id): Manager {
    Manager(m.insts - {id}, m.deadSeen - {id}, m.reaping - {id})
  }

  /** The log of a task run for worker id; tracked says whether the instance was
      still in the table when its mutex section began. Behind Free the instance's handle
      is 0, and emitting through it does nothing. */
  function RunLog(log: Log, t: Task, tracked: bool): Log {
    match t
    case EmitOnline(_) => log
    case Dispatch(_, Data(payload, n)) =>
      if log.freed == 0 then log.(events := log.events + [Message(payload, n)]) else log
    case Dispatch(_, Farewell(code, n)) => if tracked then ExitLog(log, Exit(code, Said(n))) else log
    case Crash(_) => if tracked then ExitLog(log, CRASH) else log
  }

  /** emit("exit"), Free and DonePending. */
  function ExitLog(log: Log, exit: Event): Log {
    log.(events := log.events + [exit], freed := log.freed + 1, released := log.released + 1)
  }

  function RunOne(s: State, t: Task): State {
    WithLog(s, t.id, RunLog(LogOf(s, t.id), t, t.id in s.manager.insts))
      .(manager := if NeedsLock(t) then Drop(s.manager, t.id) else s.manager)
  }

  function FreedAll(s: State): map<Id, Log> {
    map id | id in s.logs.Keys + s.manager.insts ::
      var log := LogOf(s, id);
      if id in s.manager.insts then log.(freed := log.freed + 1) else log
  }

  function DoSpawnStart(s: State): State
    requires s.spawn.NotSpawning?
  {
    s.(spawn := Starting(s.next), agents := s.agents.(running := s.agents.running + {s.next}), next := s.next + 1)
  }

  function DoSpawnBook(s: State): State
    requires s.spawn.Starting?
  {
    s.(spawn := Booked(s.spawn.id), agents := Book(s.agents, s.spawn.id))
  }

  function DoRegister(s: State): State
    requires s.spawn.Booked?
  {
    s.(spawn := Registered(s.spawn.id), manager := s.manager.(insts := s.manager.insts + {s.spawn.id}))
  }

  function DoSendInit(s: State): State
    requires s.spawn.Registered?
  {
    WithLog(s, s.spawn.id, LogOf(s, s.spawn.id).(ready := true)).(spawn := Sent(s.spawn.id))
  }

  function DoSendInitFails(s: State): State
    requires s.spawn.Registered?
  {
    var log := LogOf(s, s.spawn.id);
    WithLog(s, s.spawn.id, log.(failed := true, freed := log.freed + 1))
      .(spawn := NotSpawning, manager := s.manager.(insts := s.manager.insts - {s.spawn.id}))
  }

  function DoAddPending(s: State): State
    requires s.spawn.Sent?
  {
    var log := LogOf(s, s.spawn.id);
    WithLog(s, s.spawn.id, log.(added := log.added + 1)).(spawn := Counted(s.spawn.id))
  }

  function DoPostOnline(s: State): State
    requires s.spawn.Counted?
  {
    s.(spawn := NotSpawning, queue := s.queue + [EmitOnline(s.spawn.id)])
  }

  function DoAgentPost(s: State, id: Id, msg: Msg): State
  {
    var log := LogOf(s, id);
    WithLog(s, id, log.(sent := log.sent + [msg])).(agents := s.agents.(posts := s.agents.posts + [(id, msg)]))
  }

  function DoAgentExit(s: State, id: Id): State
  {
    s.(agents := RecordExit(s.agents, id))
  }

  function DoReceive(s: State): State
    requires s.agents.posts != []
  {
    var p := s.agents.posts[0];
    s.(agents := s.agents.(posts := s.agents.posts[1..]), pump := Received(p.0, p.1))
  }

  /** A failing Receive drops the message it popped and counts as an empty poll. It does
      harm to a worker that is still registered and whose farewell is not yet on the loop's
      queue: when the message dropped is its own, or when it has been seen dead before and
      has posts waiting, which its second sighting will then overtake. */
  predicate Harms(s: State, id: Id)
    requires s.agents.posts != []
  {
    && id in s.manager.insts && NoFarewell(Queued(s.queue, id))
    && (s.agents.posts[0].0 == id || (DeadCount(s.manager, id) > 0 && PostsOf(s.agents.posts[1..], id) != []))
  }

  function DoReceiveFails(s: State): State
    requires s.agents.posts != []
  {
    s.(agents := s.agents.(posts := s.agents.posts[1..]), pump := Scanning(s.manager.insts, []),
       harmed := s.harmed + set id | id in s.manager.insts && Harms(s, id))
  }

  /** The empty poll and the locking of the manager's mutex are one step. Between the two
      the pump holds nothing: what the loop does under the mutex there could as well come
      before the poll, and what agents post there could as well come after the locking. */
  function DoReceiveEmpty(s: State): State
  {
    s.(pump := Scanning(s.manager.insts, []))
  }

  function DoLookup(s: State): State
    requires s.pump.Received?
  {
    s.(pump := if s.pump.id in s.manager.insts then Routing(s.pump.id, s.pump.msg) else Polling)
  }

  function DoRoute(s: State): State
    requires s.pump.Routing?
  {
    s.(pump := Polling, queue := s.queue + [Dispatch(s.pump.id, s.pump.msg)])
  }

  function DoScan(s: State, id: Id): State
    requires s.pump.Scanning?
  {
    s.(manager := ScanManager(s, id), pump := ScanPump(s, id))
  }

  function DoScanEnd(s: State): State
    requires s.pump.Scanning?
  {
    s.(pump := Posting(s.pump.reap))
  }

  function DoPostCrash(s: State): State
    requires s.pump.Posting? && s.pump.reap != []
  {
    s.(pump := Posting(s.pump.reap[1..]), queue := s.queue + [Crash(s.pump.reap[0])])
  }

  function DoSleep(s: State): State
  {
    s.(pump := Polling)
  }

  function DoRunTask(s: State): State
    requires s.queue != []
  {
    RunOne(s.(queue := s.queue[1..]), s.queue[0])
  }

  function DoClose(s: State): State
  {
    s.(logs := FreedAll(s), manager := s.manager.(insts := {}), closed := true)
  }

  function Apply(s: State, step: Step): State
    requires Enabled(s, step)
  {
    match step
    case SpawnStart => DoSpawnStart(s)
    case SpawnBook => DoSpawnBook(s)
    case Register => DoRegister(s)
    case SendInit => DoSendInit(s)
    case SendInitFails => DoSendInitFails(s)
    case AddPending => DoAddPending(s)
    case PostOnline => DoPostOnline(s)
    case AgentPost(id, msg) => DoAgentPost(s, id, msg)
    case AgentExit(id) => DoAgentExit(s, id)
    case Receive => DoReceive(s)
    case ReceiveFails => DoReceiveFails(s)
    case ReceiveEmpty => DoReceiveEmpty(s)
    case Lookup => DoLookup(s)
    case Route => DoRoute(s)
    case Scan(id) => DoScan(s, id)
    case ScanEnd => DoScanEnd(s)
    case PostCrash => DoPostCrash(s)
    case Sleep => DoSleep(s)
    case RunTask => DoRunTask(s)
    case Close => DoClose(s)
  }

  /** The state after a schedule; steps that are not enabled are passed over, so
      every sequence of steps is a run and every run is one. */
  function After(steps: seq<Step>): State
    decreases |steps|
  {
    if steps == [] then INIT
    else
      var s := After(steps[..|steps| - 1]);
      var step := steps[|steps| - 1];
      if Enabled(s, step) then Apply(s, step) else s
  }

  // ------------------------------------------------------------ projections on one worker

  function ToEvent(m: Msg): Event {
    match m
    case Data(payload, n) => Message(payload, n)
    case Farewell(code, n) => Exit(code, Said(n))
  }

  function ToEvents(ms: seq<Msg>): (es: seq<Event>)
    ensures |es| == |ms| && forall j :: 0 <= j < |ms| ==> es[j] == ToEvent(ms[j])
  {
    if ms == [] then [] else ToEvents(ms[..|ms| - 1]) + [ToEvent(ms[|ms| - 1])]
  }

  predicate NoFarewell(ms: seq<Msg>) {
    forall j :: 0 <= j < |ms| ==> !ms[j].Farewell?
  }

  function PostsOf(posts: seq<(Id, Msg)>, id: Id): seq<Msg> {
    if posts == [] then []
    else
      var last := posts[|posts| - 1];
      PostsOf(posts[..|posts| - 1], id) + (if last.0 == id then [last.1] else [])
  }

  function Own(t: Task, id: Id): seq<Msg> {
    if t.Dispatch? && t.id == id then [t.msg] else []
  }

  /** The worker's messages on the loop's queue ahead of its first crash task, if any. */
  function Ahead(queue: seq<Task>, id: Id): seq<Msg> {
    if queue == [] then []
    else
      var rest, last := queue[..|queue| - 1], queue[|queue| - 1];
      if Crash(id) in rest then Ahead(rest, id) else Ahead(rest, id) + Own(last, id)
  }

  /** And those behind it. */
  function Behind(queue: seq<Task>, id: Id): seq<Msg> {
    if queue == [] then []
    else
      var rest, last := queue[..|queue| - 1], queue[|queue| - 1];
      if Crash(id) in rest then Behind(rest, id) + Own(last, id) else []
  }

  function Queued(queue: seq<Task>, id: Id): seq<Msg> {
    Ahead(queue, id) + Behind(queue, id)
  }

  function InHand(pump: Pump, id: Id): seq<Msg> {
    if (pump.Received? || pump.Routing?) && pump.id == id then [pump.msg] else []
  }

  predicate ReapPending(pump: Pump, id: Id) {
    (pump.Scanning? || pump.Posting?) && id in pump.reap
  }

  predicate InTodo(pump: Pump, id: Id) {
    pump.Scanning? && id in pump.todo
  }

  lemma {:induction false} PostsOfPop(posts: seq<(Id, Msg)>, id: Id)
    requires posts != []
    ensures PostsOf(posts, id) == (if posts[0].0 == id then [posts[0].1] else []) + PostsOf(posts[1..], id)
    decreases |posts|
  {
    if |posts| > 1 {
      PostsOfPop(posts[..|posts| - 1], id);
      assert posts[1..][..|posts| - 2] == posts[..|posts| - 1][1..];
    }
  }

  lemma PostsOfPush(posts: seq<(Id, Msg)>, p: (Id, Msg), id: Id)
    ensures PostsOf(posts + [p], id) == PostsOf(posts, id) + (if p.0 == id then [p.1] else [])
  {
    assert (posts + [p])[..|posts|] == posts;
  }

  lemma QueuePush(queue: seq<Task>, t: Task, id: Id)
    ensures Crash(id) in queue + [t] <==> Crash(id) in queue || t == Crash(id)
    ensures Ahead(queue + [t], id) == Ahead(queue, id) + if Crash(id) in queue then [] else Own(t, id)
    ensures Behind(queue + [t], id) == if Crash(id) in queue then Behind(queue, id) + Own(t, id) else []
  {
    assert (queue + [t])[..|queue|] == queue;
  }

  lemma {:induction false} BehindNeedsCrash(queue: seq<Task>, id: Id)
    ensures Behind(queue, id) != [] ==> Crash(id) in queue
    decreases |queue|
  {
  }

  /** Taking a task that is not the worker's crash off the queue. */
  lemma {:induction false} QueuePop(queue: seq<Task>, id: Id)
    requires queue != [] && queue[0] != Crash(id)
    ensures Crash(id) in queue <==> Crash(id) in queue[1..]
    ensures Ahead(queue, id) == Own(queue[0], id) + Ahead(queue[1..], id)
    ensures Behind(queue, id) == Behind(queue[1..], id)
    decreases |queue|
  {
    if |queue| > 1 {
      QueuePop(queue[..|queue| - 1], id);
      assert queue[1..][..|queue| - 2] == queue[..|queue| - 1][1..];
    }
  }

  lemma QueuedPush(queue: seq<Task>, t: Task, id: Id)
    ensures Queued(queue + [t], id) == Queued(queue, id) + Own(t, id)
  {
    QueuePush(queue, t, id);
    BehindNeedsCrash(queue, id);
  }

  /** Taking its crash. */
  lemma {:induction false} QueueCrash(queue: seq<Task>, id: Id)
    requires queue != [] && queue[0] == Crash(id)
    ensures Ahead(queue, id) == [] && Behind(queue, id) == Queued(queue[1..], id)
    decreases |queue|
  {
    if |queue| > 1 {
      var rest, last := queue[..|queue| - 1], queue[|queue| - 1];
      assert rest[0] == Crash(id);
      QueueCrash(rest, id);
      assert queue[1..] == rest[1..] + [last] && queue == rest + [last];
      QueuedPush(rest[1..], last, id);
      QueuePush(rest, last, id);
    }
  }

  datatype Stage = Unborn | AtStart | AtBooked | AtRegistered | AtSent | AtCounted | Settled

  function StageOf(s: State, id: Id): Stage {
    if id >= s.next then Unborn
    else if s.spawn.NotSpawning? || s.spawn.id != id then Settled
    else match s.spawn
      case Starting(_) => AtStart
      case Booked(_) => AtBooked
      case Registered(_) => AtRegistered
      case Sent(_) => AtSent
      case Counted(_) => AtCounted
  }

  /** One agent in the cluster's tables. */
  datatype Life = Life(running: bool, alive: bool, exited: bool)

  /** One worker in the manager's tables and in the pump's and loop's work. */
  datatype Track = Track(tracked: bool, reaping: bool, dead: nat, todo: bool, reap: bool, crash: bool) {
    /** The crash task is queued, or will be before the pump routes another message. */
    predicate Doomed() {
      crash || reap || (todo && dead > 0)
    }
  }

  /** One agent's messages that the loop has not dispatched: queued on the loop ahead of
      a crash task and behind it, in the pump's hand, posted. */
  datatype Flow = Flow(ahead: seq<Msg>, behind: seq<Msg>, hand: seq<Msg>, posts: seq<Msg>) {
    function Later(): seq<Msg> {
      behind + hand + posts
    }

    function All(): seq<Msg> {
      ahead + Later()
    }
  }

  datatype View = View(stage: Stage, life: Life, track: Track, flow: Flow, log: Log, closed: bool, harmed: bool)

  function LifeOf(a: Agents, id: Id): Life {
    Life(id in a.running, id in a.alive, id in a.exited)
  }

  function TrackOf(m: Manager, pump: Pump, queue: seq<Task>, id: Id): Track {
    Track(id in m.insts, id in m.reaping, DeadCount(m, id), InTodo(pump, id), ReapPending(pump, id), Crash(id) in queue)
  }

  function FlowOf(queue: seq<Task>, pump: Pump, posts: seq<(Id, Msg)>, id: Id): Flow {
    Flow(Ahead(queue, id), Behind(queue, id), InHand(pump, id), PostsOf(posts, id))
  }

  function ViewOf(s: State, id: Id): View {
    View(StageOf(s, id), LifeOf(s.agents, id), TrackOf(s.manager, s.pump, s.queue, id),
         FlowOf(s.queue, s.pump, s.agents.posts, id), LogOf(s, id), s.closed, id in s.harmed)
  }

  // ------------------------------------------------------------ the invariant of one worker

  predicate NoExit(es: seq<Event>) {
    forall j :: 0 <= j < |es| ==> !es[j].Exit?
  }

  predicate Numbered(ms: seq<Msg>) {
    forall j :: 0 <= j < |ms| ==> ms[j].n == j
  }

  predicate Comes(m: Msg, sent: seq<Msg>) {
    m.n < |sent| && sent[m.n] == m
  }

  /** Everything under way was sent. */
  predicate AllSent(ms: seq<Msg>, sent: seq<Msg>) {
    forall j :: 0 <= j < |ms| ==> Comes(ms[j], sent)
  }

  predicate HasNumber(e: Event, n: nat) {
    (e.Message? && e.n == n) || (e.Exit? && e.cause == Said(n))
  }

  predicate Unsaid(es: seq<Event>, n: nat) {
    forall j :: 0 <= j < |es| ==> !HasNumber(es[j], n)
  }

  predicate Absent(ms: seq<Msg>, n: nat) {
    forall j :: 0 <= j < |ms| ==> ms[j].n != n
  }

  /** Message n, which is the farewell or before it, was not emitted. */
  predicate Missed(es: seq<Event>, sent: seq<Msg>, n: nat) {
    n < |sent| && NoFarewell(sent[..n]) && Unsaid(es, n)
  }

  ghost predicate MissedOne(es: seq<Event>, sent: seq<Msg>) {
    exists n: nat :: Missed(es, sent, n)
  }

  /** And it will not be while the instance is registered: it is lost, or a crash task
      will be ahead of it. */
  predicate WillMiss(v: View, n: nat) {
    && Missed(v.log.events, v.log.sent, n) && Absent(v.flow.ahead, n)
    && (Absent(v.flow.Later(), n) || v.track.Doomed())
  }

  ghost predicate WillMissOne(v: View) {
    exists n: nat :: WillMiss(v, n)
  }

  /** One exit, at the end: a farewell that was sent, or the crash exit of a dead agent. */
  predicate ExitLast(es: seq<Event>, sent: seq<Msg>, running: bool) {
    && es != [] && NoExit(es[..|es| - 1])
    && var last := es[|es| - 1];
       && last.Exit?
       && (last.cause.Said? ==> last.cause.n < |sent| && sent[last.cause.n] == Farewell(last.code, last.cause.n))
       && (last.cause.Silence? ==> last == CRASH && !running)
  }

  /** What was emitted is the start of what was sent, or all of it and the crash exit. */
  predicate InStep(es: seq<Event>, sent: seq<Msg>) {
    es <= ToEvents(sent) || es == ToEvents(sent) + [CRASH]
  }

  /** A booked agent is alive exactly while it runs, and an exit that beat the
      bookkeeping is remembered only until then. */
  predicate Cluster(stage: Stage, l: Life) {
    match stage
    case Unborn => !l.running && !l.alive && !l.exited
    case AtStart => !l.alive && (l.running <==> !l.exited)
    case _ => !l.exited && (l.alive <==> l.running)
  }

  const UNTRACKED := Track(false, false, 0, false, false, false)
  const NO_FLOW := Flow([], [], [], [])

  /** Emitted and under way, in this order, is what the agent sent. */
  predicate Conserved(es: seq<Event>, flow: Flow, ms: seq<Msg>) {
    es + ToEvents(flow.All()) == ToEvents(ms)
  }

  /** Messages up to the first farewell. */
  function UpToFarewell(ms: seq<Msg>): seq<Msg> {
    if ms == [] then [] else if ms[0].Farewell? then [ms[0]] else [ms[0]] + UpToFarewell(ms[1..])
  }

  /** A registered worker that no failed Receive did harm to. With its farewell queued
      ahead of any crash task nothing else matters; without it everything is conserved,
      and a worker to be reaped has nothing left to be received. */
  predicate Sound(v: View) {
    if !NoFarewell(v.flow.ahead) then v.log.events + ToEvents(UpToFarewell(v.flow.ahead)) <= ToEvents(v.log.sent)
    else
      && Conserved(v.log.events, v.flow, v.log.sent)
      && v.flow.behind == []
      && (v.track.todo && v.track.dead > 0 ==> v.flow.posts == [])
      && (v.track.reaping ==> v.flow.posts == [] && v.flow.hand == [])
  }

  /** What holds of a registered worker, harmed or not. */
  predicate RegisteredInv(v: View) {
    var t := v.track;
    && v.log.freed == 0 && v.log.released == 0 && !v.log.failed && NoExit(v.log.events)
    && v.log.added == (if v.stage == AtRegistered || v.stage == AtSent then 0 else 1)
    && (v.log.ready <==> v.stage != AtRegistered)
    && (!v.log.ready ==> v.flow == NO_FLOW && v.log.sent == [] && v.log.events == [] && !v.harmed)
    && (t.dead > 0 || t.reaping ==> !v.life.running)
    && (t.crash || t.reap <==> t.reaping)
    && (t.todo || t.reap ==> v.flow.hand == [])
    && (v.flow.behind != [] ==> t.crash)
    && Numbered(v.log.sent) && AllSent(v.flow.All(), v.log.sent)
  }

  /** While its instance is registered. */
  ghost predicate Tracked(v: View) {
    RegisteredInv(v) && if v.harmed then WillMissOne(v) else Sound(v)
  }

  /** After its instance was dropped: by its exit, by a failed handshake, or by
      closing the manager. */
  ghost predicate Gone(v: View) {
    && v.stage == Settled && v.log.freed == 1 && v.log.released <= v.log.added <= 1
    && (v.log.failed ==>
          !v.log.ready && v.log.added == 0 && v.log.sent == [] && v.log.events == [] && v.flow.All() == [])
    && (v.log.released == 1 <==> !NoExit(v.log.events))
    && (!v.log.failed && !v.closed ==> v.log.released == 1)
    && Numbered(v.log.sent)
    && (v.log.released == 1 ==> ExitLast(v.log.events, v.log.sent, v.life.running))
    && (!v.harmed ==> InStep(v.log.events, v.log.sent))
    && (v.harmed && v.log.released == 1 ==> MissedOne(v.log.events, v.log.sent))
  }

  ghost predicate ViewInv(v: View) {
    && Cluster(v.stage, v.life)
    && (if v.stage == Unborn || v.stage == AtStart || v.stage == AtBooked then
          v.track == UNTRACKED && v.flow == NO_FLOW && v.log == NO_LOG && !v.harmed
        else if v.track.tracked then Tracked(v) else Gone(v))
  }

  // ------------------------------------------------------------ what a step does to the view of a worker

  lemma ToEventsPush(ms: seq<Msg>, m: Msg)
    ensures ToEvents(ms + [m]) == ToEvents(ms) + [ToEvent(m)]
  {
    assert (ms + [m])[..|ms|] == ms;
  }

  lemma ToEventsHead(ms: seq<Msg>)
    requires ms != []
    ensures ToEvents(ms) == [ToEvent(ms[0])] + ToEvents(ms[1..])
  {
  }

  lemma ConservedPost(es: seq<Event>, flow: Flow, ms: seq<Msg>, msg: Msg)
    requires Conserved(es, flow, ms)
    ensures Conserved(es, flow.(posts := flow.posts + [msg]), ms + [msg])
  {
    assert flow.(posts := flow.posts + [msg]).All() == flow.All() + [msg];
    ToEventsPush(flow.All(), msg);
    ToEventsPush(ms, msg);
    Associate(es, ToEvents(flow.All()), ToEvent(msg));
  }

  lemma Associate(a: seq<Event>, b: seq<Event>, e: Event)
    ensures a + (b + [e]) == a + b + [e]
  {
  }

  lemma AssociateHead(a: seq<Event>, e: Event, b: seq<Event>)
    ensures a + ([e] + b) == a + [e] + b
  {
  }

  function Dequeued(flow: Flow): Flow
    requires flow.ahead != []
  {
    flow.(ahead := flow.ahead[1..])
  }

  lemma ConservedDispatch(es: seq<Event>, flow: Flow, ms: seq<Msg>)
    requires Conserved(es, flow, ms) && flow.ahead != []
    ensures Conserved(es + [ToEvent(flow.ahead[0])], Dequeued(flow), ms)
  {
    assert flow.All()[0] == flow.ahead[0] && flow.All()[1..] == Dequeued(flow).All();
    ToEventsHead(flow.All());
    AssociateHead(es, ToEvent(flow.ahead[0]), ToEvents(Dequeued(flow).All()));
  }

  lemma NoExitPush(es: seq<Event>, e: Event)
    ensures NoExit(es + [e]) <==> NoExit(es) && !e.Exit?
  {
    assert (es + [e])[|es|] == e;
    if NoExit(es + [e]) {
      forall j | 0 <= j < |es|
        ensures !es[j].Exit?
      {
        assert (es + [e])[j] == es[j];
      }
    }
  }

  lemma MissedGrows(es: seq<Event>, sent: seq<Msg>, msg: Msg, n: nat)
    requires Missed(es, sent, n)
    ensures Missed(es, sent + [msg], n)
  {
    assert (sent + [msg])[..n] == sent[..n];
  }

  lemma MissedEvent(es: seq<Event>, sent: seq<Msg>, e: Event, n: nat)
    requires Missed(es, sent, n) && !HasNumber(e, n)
    ensures Missed(es + [e], sent, n)
  {
  }

  lemma ConservedAt(es: seq<Event>, all: seq<Msg>, sent: seq<Msg>, j: nat)
    requires es + ToEvents(all) == ToEvents(sent)
    ensures |sent| == |es| + |all|
    ensures j < |es| ==> es[j] == ToEvent(sent[j])
    ensures j < |all| ==> all[j] == sent[|es| + j]
  {
    var whole := es + ToEvents(all);
    assert j < |es| ==> whole[j] == es[j];
    assert j < |all| ==> whole[|es| + j] == ToEvent(all[j]);
  }

  /** Without a farewell emitted or queued, the first message posted is one that comes no
      later than the farewell and is found nowhere else. */
  lemma FirstPost(es: seq<Event>, ahead: seq<Msg>, posts: seq<Msg>, sent: seq<Msg>)
    requires es + ToEvents(ahead + posts) == ToEvents(sent) && Numbered(sent)
    requires NoExit(es) && NoFarewell(ahead) && posts != []
    ensures var n := posts[0].n; Missed(es, sent, n) && Absent(ahead, n) && Absent(posts[1..], n)
  {
    var all := ahead + posts;
    forall j: nat | j < |all|
      ensures all[j] == sent[|es| + j] && all[j].n == |es| + j
    {
      ConservedAt(es, all, sent, j);
    }
    forall j: nat | j < |es|
      ensures es[j] == ToEvent(sent[j]) && sent[j].n == j
    {
      ConservedAt(es, all, sent, j);
    }
    var at := |es| + |ahead|;
    assert posts[0] == all[|ahead|];
    forall j | 0 <= j < at
      ensures !sent[j].Farewell?
    {
      if j >= |es| {
        assert sent[j] == all[j - |es|] == ahead[j - |es|];
      }
    }
    forall j | 0 <= j < |posts[1..]|
      ensures posts[1..][j].n != at
    {
      assert posts[1..][j] == all[|ahead| + 1 + j];
    }
    assert forall j :: 0 <= j < |ahead| ==> ahead[j] == all[j];
  }

  lemma ViewAgentExit(v: View)
    requires ViewInv(v) && v.life.running
    ensures ViewInv(v.(life := Life(false, false, v.life.exited || !v.life.alive)))
  {
    var v' := v.(life := Life(false, false, v.life.exited || !v.life.alive));
    if v.track.tracked && v.harmed {
      var n: nat :| WillMiss(v, n);
      assert WillMiss(v', n);
    }
  }

  function Posted(v: View, msg: Msg): View {
    v.(flow := v.flow.(posts := v.flow.posts + [msg]), log := v.log.(sent := v.log.sent + [msg]))
  }

  lemma WillMissPosted(v: View, msg: Msg, n: nat)
    requires WillMiss(v, n) && msg.n == |v.log.sent|
    ensures WillMiss(Posted(v, msg), n)
  {
    MissedGrows(v.log.events, v.log.sent, msg, n);
    assert Posted(v, msg).flow.Later() == v.flow.Later() + [msg];
  }

  lemma RegisteredPost(v: View, msg: Msg)
    requires RegisteredInv(v) && v.life.running && v.log.ready && msg.n == |v.log.sent|
    ensures RegisteredInv(Posted(v, msg))
  {
    assert Posted(v, msg).flow.All() == v.flow.All() + [msg];
  }

  lemma SoundPost(v: View, msg: Msg)
    requires RegisteredInv(v) && Sound(v) && v.life.running
    ensures Sound(Posted(v, msg))
  {
    ToEventsPush(v.log.sent, msg);
    if NoFarewell(v.flow.ahead) {
      ConservedPost(v.log.events, v.flow, v.log.sent, msg);
    }
  }

  lemma ViewAgentPost(v: View, msg: Msg)
    requires ViewInv(v) && v.life.running && v.log.ready && msg.n == |v.log.sent|
    ensures ViewInv(Posted(v, msg))
  {
    var es, sent := v.log.events, v.log.sent;
    if v.track.tracked {
      RegisteredPost(v, msg);
      if v.harmed {
        var n: nat :| WillMiss(v, n);
        WillMissPosted(v, msg, n);
      } else {
        SoundPost(v, msg);
      }
    } else {
      if v.log.released == 1 {
        LastStays(es, sent, msg);
      }
      if !v.harmed {
        StillInStep(es, sent, msg);
      } else if v.log.released == 1 {
        var n: nat :| Missed(es, sent, n);
        MissedGrows(es, sent, msg, n);
      }
    }
  }

  lemma LastStays(es: seq<Event>, sent: seq<Msg>, msg: Msg)
    requires ExitLast(es, sent, true)
    ensures ExitLast(es, sent + [msg], true)
  {
  }

  lemma StillInStep(es: seq<Event>, sent: seq<Msg>, msg: Msg)
    requires InStep(es, sent) && (NoExit(es) || ExitLast(es, sent, true))
    ensures InStep(es, sent + [msg])
  {
    ToEventsPush(sent, msg);
    if es == ToEvents(sent) + [CRASH] {
      LastIsCrash(es, sent);
    }
  }

  lemma LastIsCrash(es: seq<Event>, sent: seq<Msg>)
    requires es == ToEvents(sent) + [CRASH]
    ensures es[|es| - 1] == CRASH && !NoExit(es)
  {
  }

  lemma {:induction false} UpToPush(ms: seq<Msg>, m: Msg)
    ensures !NoFarewell(ms) ==> UpToFarewell(ms + [m]) == UpToFarewell(ms)
    ensures NoFarewell(ms) ==> UpToFarewell(ms + [m]) == ms + [m] && UpToFarewell(ms) == ms
  {
    if ms != [] {
      assert (ms + [m])[1..] == ms[1..] + [m] && (ms + [m])[0] == ms[0];
      assert !ms[0].Farewell? && NoFarewell(ms[1..]) ==> NoFarewell(ms);
      UpToPush(ms[1..], m);
    }
  }

  /** Messages moving on towards the loop's queue, in order. */
  lemma ViewLater(v: View, hand: seq<Msg>, behind: seq<Msg>, posts: seq<Msg>)
    requires ViewInv(v) && v.track.tracked && behind + hand + posts == v.flow.Later()
    requires (v.track.todo || v.track.reap ==> hand == []) && (behind != [] ==> v.track.crash)
    requires !v.track.todo && (behind != v.flow.behind ==> v.flow.hand != [])
    requires v.track.reaping && v.flow.Later() == [] ==> hand == [] && posts == []
    ensures ViewInv(v.(flow := Flow(v.flow.ahead, behind, hand, posts)))
  {
    var v' := v.(flow := Flow(v.flow.ahead, behind, hand, posts));
    assert v'.flow.All() == v.flow.All();
    if v.harmed {
      var n: nat :| WillMiss(v, n);
      assert WillMiss(v', n);
    } else if NoFarewell(v.flow.ahead) && v.track.reaping {
      assert v.flow.Later() == [];
    }
  }

  lemma AbsentSub(ms: seq<Msg>, part: seq<Msg>, n: nat)
    requires Absent(ms, n) && forall m :: m in part ==> m in ms
    ensures Absent(part, n)
  {
    assert forall j :: 0 <= j < |part| ==> part[j] in part;
  }

  lemma NoFarewellPush(ms: seq<Msg>, m: Msg)
    ensures NoFarewell(ms + [m]) <==> NoFarewell(ms) && !m.Farewell?
  {
    assert (ms + [m])[|ms|] == m;
    assert forall j :: 0 <= j < |ms| ==> (ms + [m])[j] == ms[j];
  }

  lemma ConservedPrefix(es: seq<Event>, a: seq<Msg>, b: seq<Msg>, sent: seq<Msg>)
    requires es + ToEvents(a + b) == ToEvents(sent)
    ensures es + ToEvents(a) <= ToEvents(sent)
  {
    assert ToEvents(a + b) == ToEvents(a) + ToEvents(b);
    assert es + ToEvents(a) + ToEvents(b) == es + (ToEvents(a) + ToEvents(b));
  }

  /** A message routed to a queue with no crash task for the worker. */
  lemma ViewRouted(v: View, m: Msg)
    requires ViewInv(v) && v.track.tracked && v.flow.hand == [m] && !v.track.crash
    ensures ViewInv(v.(flow := Flow(v.flow.ahead + [m], [], [], v.flow.posts)))
  {
    var flow := Flow(v.flow.ahead + [m], [], [], v.flow.posts);
    var v' := v.(flow := flow);
    assert flow.All() == v.flow.All();
    if v.harmed {
      var n: nat :| WillMiss(v, n);
      assert v.flow.Later() == [m] + v.flow.posts && flow.Later() == v.flow.posts;
      AbsentSub(v.flow.Later(), flow.Later(), n);
      assert v.flow.Later()[0] == m;
      assert WillMiss(v', n);
    } else {
      SoundRouted(v, m);
    }
  }

  lemma SoundRouted(v: View, m: Msg)
    requires RegisteredInv(v) && Sound(v) && v.flow.hand == [m] && !v.track.crash
    ensures Sound(v.(flow := Flow(v.flow.ahead + [m], [], [], v.flow.posts)))
  {
    UpToPush(v.flow.ahead, m);
    NoFarewellPush(v.flow.ahead, m);
    if NoFarewell(v.flow.ahead) {
      ConservedRouted(v.log.events, v.flow, m, v.log.sent);
    }
  }

  lemma ConservedRouted(es: seq<Event>, f: Flow, m: Msg, sent: seq<Msg>)
    requires Conserved(es, f, sent) && f.behind == [] && f.hand == [m]
    ensures Conserved(es, Flow(f.ahead + [m], [], [], f.posts), sent)
    ensures es + ToEvents(f.ahead + [m]) <= ToEvents(sent)
  {
    var flow := Flow(f.ahead + [m], [], [], f.posts);
    assert flow.All() == f.All() && flow.All() == flow.ahead + flow.posts;
    ConservedPrefix(es, flow.ahead, flow.posts, sent);
  }

  /** A worker without instance does not notice what becomes of its messages. */
  lemma ViewDropped(v: View, flow: Flow, track: Track)
    requires ViewInv(v) && v.stage == Settled && !v.track.tracked && !track.tracked
    requires |flow.All()| <= |v.flow.All()|
    ensures ViewInv(v.(flow := flow, track := track))
  {
  }

  /** Dispatching an ordinary message of a registered worker. */
  lemma ViewMessage(v: View, m: Msg)
    requires ViewInv(v) && v.track.tracked && v.flow.ahead != [] && v.flow.ahead[0] == m && m.Data?
    ensures ViewInv(v.(flow := Dequeued(v.flow), log := v.log.(events := v.log.events + [ToEvent(m)])))
  {
    var v' := v.(flow := Dequeued(v.flow), log := v.log.(events := v.log.events + [ToEvent(m)]));
    NoExitPush(v.log.events, ToEvent(m));
    assert v'.flow.All() == v.flow.All()[1..];
    if v.harmed {
      var n: nat :| WillMiss(v, n);
      MissedEvent(v.log.events, v.log.sent, ToEvent(m), n);
      assert WillMiss(v', n);
    } else {
      SoundMessage(v, m);
    }
  }

  lemma SoundMessage(v: View, m: Msg)
    requires RegisteredInv(v) && Sound(v) && v.flow.ahead != [] && v.flow.ahead[0] == m && m.Data?
    ensures Sound(v.(flow := Dequeued(v.flow), log := v.log.(events := v.log.events + [ToEvent(m)])))
  {
    var ahead := v.flow.ahead;
    assert NoFarewell(ahead) <==> NoFarewell(ahead[1..]) by {
      assert forall j :: 1 <= j < |ahead| ==> ahead[j] == ahead[1..][j - 1];
    }
    if NoFarewell(ahead) {
      ConservedDispatch(v.log.events, v.flow, v.log.sent);
    } else {
      ToEventsHead(UpToFarewell(ahead));
      assert UpToFarewell(ahead)[1..] == UpToFarewell(ahead[1..]);
      AssociateHead(v.log.events, ToEvent(m), ToEvents(UpToFarewell(ahead[1..])));
    }
  }

  /** Dispatching the farewell of a registered worker. */
  lemma ViewFarewell(v: View, m: Msg, flow: Flow, track: Track)
    requires ViewInv(v) && v.stage == Settled && v.track.tracked && !track.tracked
    requires v.flow.ahead != [] && v.flow.ahead[0] == m && m.Farewell?
    ensures ViewInv(v.(flow := flow, log := ExitLog(v.log, ToEvent(m)), track := track))
  {
    hide ToEvents, NoFarewell;
    var es := v.log.events;
    NoExitPush(es, ToEvent(m));
    assert (es + [ToEvent(m)])[..|es|] == es;
    assert v.flow.All()[0] == m;
    if v.harmed {
      var n: nat :| WillMiss(v, n);
      MissedEvent(es, v.log.sent, ToEvent(m), n);
    } else {
      assert UpToFarewell(v.flow.ahead) == [m] && ToEvents([m]) == [ToEvent(m)];
    }
  }

  /** The crash task of a registered worker. */
  lemma ViewCrash(v: View, flow: Flow, track: Track)
    requires ViewInv(v) && v.stage == Settled && v.track.tracked && v.track.crash && !track.tracked
    requires v.flow.ahead == []
    ensures ViewInv(v.(flow := flow, log := ExitLog(v.log, CRASH), track := track))
  {
    var es := v.log.events;
    NoExitPush(es, CRASH);
    assert (es + [CRASH])[..|es|] == es;
    if v.harmed {
      var n: nat :| WillMiss(v, n);
      MissedEvent(es, v.log.sent, CRASH, n);
    } else {
      assert v.flow.All() == [];
    }
  }

  lemma ViewClose(v: View)
    requires ViewInv(v) && (v.stage == Settled || v.stage == Unborn)
    ensures v.track.tracked ==>
              ViewInv(v.(closed := true, track := v.track.(tracked := false), log := v.log.(freed := v.log.freed + 1)))
    ensures !v.track.tracked ==> ViewInv(v.(closed := true))
  {
    if v.track.tracked && !v.harmed {
      SoundInStep(v);
    }
  }

  lemma SoundInStep(v: View)
    requires Sound(v)
    ensures v.log.events <= ToEvents(v.log.sent)
  {
  }

  /** An empty poll begins a scan. */
  lemma ViewEmpty(v: View)
    requires ViewInv(v) && v.flow.hand == [] && v.flow.posts == [] && !v.track.todo && !v.track.reap
    ensures ViewInv(v.(track := v.track.(todo := v.track.tracked)))
  {
    if v.track.tracked && v.harmed {
      var n: nat :| WillMiss(v, n);
      assert WillMiss(v.(track := v.track.(todo := true)), n);
    }
  }

  /** The view behind a failed Receive: own says that the message dropped was the worker's,
      and rest what is left of its posts. */
  function FailedView(v: View, own: bool, rest: seq<Msg>): View {
    v.(flow := v.flow.(posts := rest), track := v.track.(todo := v.track.tracked),
       harmed := v.harmed
                 || (v.track.tracked && NoFarewell(v.flow.ahead + v.flow.behind)
                     && (own || (v.track.dead > 0 && rest != []))))
  }

  lemma ViewFails(v: View, own: bool, rest: seq<Msg>)
    requires ViewInv(v) && v.flow.hand == [] && !v.track.todo && !v.track.reap
    requires own ==> v.flow.posts != [] && rest == v.flow.posts[1..]
    requires !own ==> rest == v.flow.posts
    ensures ViewInv(FailedView(v, own, rest))
  {
    var v' := FailedView(v, own, rest);
    if v.track.tracked {
      FailsRegistered(v, own, rest);
      if v.harmed {
        var n: nat :| WillMiss(v, n);
        if Absent(v.flow.Later(), n) {
          assert own ==> v.flow.posts == [v.flow.posts[0]] + rest;
          AbsentSub(v.flow.Later(), v'.flow.Later(), n);
        }
        assert WillMiss(v', n);
      } else if v'.harmed {
        HarmDone(v, own, rest);
      } else {
        HarmNotDone(v, own, rest);
      }
    }
  }

  lemma FailsRegistered(v: View, own: bool, rest: seq<Msg>)
    requires RegisteredInv(v) && v.track.tracked && v.flow.hand == []
    requires own ==> v.flow.posts != [] && rest == v.flow.posts[1..]
    requires !own ==> rest == v.flow.posts
    ensures RegisteredInv(FailedView(v, own, rest))
  {
    var all, all' := v.flow.All(), FailedView(v, own, rest).flow.All();
    forall j | 0 <= j < |all'|
      ensures all'[j] in all
    {
      if own && j >= |all| - |v.flow.posts| {
        assert all'[j] == all[j + 1];
      } else {
        assert all'[j] == all[j];
      }
    }
  }

  /** A message that comes no later than the farewell is lost, or will be overtaken. */
  lemma HarmDone(v: View, own: bool, rest: seq<Msg>)
    requires RegisteredInv(v) && Sound(v) && v.track.tracked && !v.harmed && v.flow.hand == []
    requires own ==> v.flow.posts != [] && rest == v.flow.posts[1..]
    requires !own ==> rest == v.flow.posts
    requires FailedView(v, own, rest).harmed
    ensures WillMissOne(FailedView(v, own, rest))
  {
    var v', flow := FailedView(v, own, rest), v.flow;
    assert forall j :: 0 <= j < |flow.ahead| ==> (flow.ahead + flow.behind)[j] == flow.ahead[j];
    assert flow.All() == flow.ahead + flow.posts;
    FirstPost(v.log.events, flow.ahead, flow.posts, v.log.sent);
    assert v'.flow.Later() == rest;
    assert WillMiss(v', flow.posts[0].n);
  }

  lemma HarmNotDone(v: View, own: bool, rest: seq<Msg>)
    requires RegisteredInv(v) && Sound(v) && v.track.tracked && !v.harmed && v.flow.hand == []
    requires !own ==> rest == v.flow.posts
    requires !FailedView(v, own, rest).harmed
    ensures Sound(FailedView(v, own, rest))
  {
    var v' := FailedView(v, own, rest);
    if NoFarewell(v.flow.ahead) {
      assert v.flow.ahead + v.flow.behind == v.flow.ahead;
      assert v'.flow == v.flow;
    }
  }

  lemma ViewScanned(v: View)
    requires ViewInv(v) && v.track.todo && v.track.tracked
    ensures ViewInv(v.(track := Scanned(v.track, v.life.alive)))
  {
    var v' := v.(track := Scanned(v.track, v.life.alive));
    if v.harmed {
      var n: nat :| WillMiss(v, n);
      assert WillMiss(v', n);
    }
  }

  function Scanned(t: Track, alive: bool): Track {
    if alive then t.(dead := 0, todo := false)
    else
      var reaps := t.dead + 1 >= 2 && !t.reaping;
      t.(dead := t.dead + 1, todo := false, reaping := t.reaping || reaps, reap := t.reap || reaps)
  }

  // ------------------------------------------------------------ how the steps act on the view of a worker

  lemma SpawnStartView(s: State, id: Id)
    requires s.spawn.NotSpawning?
    ensures var v := ViewOf(s, id);
            ViewOf(DoSpawnStart(s), id)
            == if id == s.next then v.(stage := AtStart, life := v.life.(running := true)) else v
  {
  }

  lemma SpawnBookView(s: State, id: Id)
    requires s.spawn.Starting? && s.spawn.id < s.next && Cluster(StageOf(s, id), LifeOf(s.agents, id))
    ensures var v := ViewOf(s, id);
            ViewOf(DoSpawnBook(s), id)
            == if id == s.spawn.id then v.(stage := AtBooked, life := Life(v.life.running, !v.life.exited, false))
               else v
  {
  }

  lemma RegisterView(s: State, id: Id)
    requires s.spawn.Booked? && s.spawn.id < s.next
    ensures var v := ViewOf(s, id);
            ViewOf(DoRegister(s), id)
            == if id == s.spawn.id then v.(stage := AtRegistered, track := v.track.(tracked := true)) else v
  {
  }

  lemma SendInitView(s: State, id: Id)
    requires s.spawn.Registered? && s.spawn.id < s.next
    ensures var v := ViewOf(s, id);
            ViewOf(DoSendInit(s), id)
            == if id == s.spawn.id then v.(stage := AtSent, log := v.log.(ready := true)) else v
  {
  }

  lemma SendInitFailsView(s: State, id: Id)
    requires s.spawn.Registered? && s.spawn.id < s.next
    ensures var v := ViewOf(s, id);
            ViewOf(DoSendInitFails(s), id)
            == if id == s.spawn.id then
                 v.(stage := Settled, track := v.track.(tracked := false),
                    log := v.log.(failed := true, freed := v.log.freed + 1))
               else v
  {
  }

  lemma AddPendingView(s: State, id: Id)
    requires s.spawn.Sent? && s.spawn.id < s.next
    ensures var v := ViewOf(s, id);
            ViewOf(DoAddPending(s), id)
            == if id == s.spawn.id then v.(stage := AtCounted, log := v.log.(added := v.log.added + 1)) else v
  {
  }

  lemma PostOnlineView(s: State, id: Id)
    requires s.spawn.Counted? && s.spawn.id < s.next
    ensures var v := ViewOf(s, id);
            ViewOf(DoPostOnline(s), id) == if id == s.spawn.id then v.(stage := Settled) else v
  {
    QueuePush(s.queue, EmitOnline(s.spawn.id), id);
    BehindNeedsCrash(s.queue, id);
  }

  lemma AgentPostView(s: State, from: Id, msg: Msg, id: Id)
    ensures var v := ViewOf(s, id);
            ViewOf(DoAgentPost(s, from, msg), id)
            == if id == from then
                 v.(flow := v.flow.(posts := v.flow.posts + [msg]), log := v.log.(sent := v.log.sent + [msg]))
               else v
  {
    PostsOfPush(s.agents.posts, (from, msg), id);
  }

  lemma AgentExitView(s: State, from: Id, id: Id)
    ensures var v := ViewOf(s, id);
            ViewOf(DoAgentExit(s, from), id)
            == if id == from then v.(life := Life(false, false, v.life.exited || !v.life.alive)) else v
  {
  }

  lemma ReceiveView(s: State, id: Id)
    requires s.pump.Polling? && s.agents.posts != []
    ensures var v := ViewOf(s, id);
            var p := s.agents.posts[0];
            ViewOf(DoReceive(s), id)
            == if p.0 == id then v.(flow := v.flow.(hand := [p.1], posts := PostsOf(s.agents.posts[1..], id))) else v
  {
    PostsOfPop(s.agents.posts, id);
  }

  lemma ReceiveFailsView(s: State, id: Id)
    requires s.pump.Polling? && s.agents.posts != []
    ensures ViewOf(DoReceiveFails(s), id)
         == FailedView(ViewOf(s, id), s.agents.posts[0].0 == id, PostsOf(s.agents.posts[1..], id))
  {
  }

  lemma ReceiveEmptyView(s: State, id: Id)
    requires s.pump.Polling?
    ensures var v := ViewOf(s, id);
            ViewOf(DoReceiveEmpty(s), id) == v.(track := v.track.(todo := v.track.tracked))
  {
  }

  lemma LookupView(s: State, id: Id)
    requires s.pump.Received?
    ensures var v := ViewOf(s, id);
            ViewOf(DoLookup(s), id)
            == if s.pump.id == id && id !in s.manager.insts then v.(flow := v.flow.(hand := [])) else v
  {
  }

  function RoutedFlow(f: Flow, m: Msg, crash: bool): Flow {
    if crash then Flow(f.ahead, f.behind + [m], [], f.posts) else Flow(f.ahead + [m], [], [], f.posts)
  }

  lemma RouteFlow(queue: seq<Task>, pump: Pump, posts: seq<(Id, Msg)>, id: Id)
    requires pump.Routing?
    ensures var f := FlowOf(queue, pump, posts, id);
            FlowOf(queue + [Dispatch(pump.id, pump.msg)], Polling, posts, id)
            == if pump.id == id then RoutedFlow(f, pump.msg, Crash(id) in queue) else f
  {
    QueuePush(queue, Dispatch(pump.id, pump.msg), id);
    BehindNeedsCrash(queue, id);
  }

  lemma RouteTrack(m: Manager, queue: seq<Task>, pump: Pump, id: Id)
    requires pump.Routing?
    ensures TrackOf(m, Polling, queue + [Dispatch(pump.id, pump.msg)], id) == TrackOf(m, pump, queue, id)
  {
    QueuePush(queue, Dispatch(pump.id, pump.msg), id);
  }

  lemma RouteView(s: State, id: Id)
    requires s.pump.Routing?
    ensures var v := ViewOf(s, id);
            ViewOf(DoRoute(s), id)
            == if s.pump.id == id then v.(flow := RoutedFlow(v.flow, s.pump.msg, v.track.crash)) else v
  {
    RouteFlow(s.queue, s.pump, s.agents.posts, id);
    RouteTrack(s.manager, s.queue, s.pump, id);
  }

  lemma ScanView(s: State, at: Id, id: Id)
    requires s.pump.Scanning?
    ensures var v := ViewOf(s, id);
            ViewOf(DoScan(s, at), id)
            == if id == at then v.(track := Scanned(v.track, v.life.alive)) else v
  {
  }

  lemma PumpEndView(s: State, id: Id)
    ensures s.pump.Scanning? && s.pump.todo == {} ==> ViewOf(DoScanEnd(s), id) == ViewOf(s, id)
    ensures s.pump.Posting? && s.pump.reap == [] ==> ViewOf(DoSleep(s), id) == ViewOf(s, id)
  {
  }

  lemma PostCrashView(s: State, id: Id)
    requires s.pump.Posting? && s.pump.reap != []
    ensures var v := ViewOf(s, id);
            ViewOf(DoPostCrash(s), id)
            == if id == s.pump.reap[0] then v.(track := v.track.(crash := true, reap := id in s.pump.reap[1..])) else v
  {
    CrashFlow(s.queue, s.pump, s.agents.posts, id);
    CrashTrack(s.manager, s.queue, s.pump, id);
  }

  lemma CrashTrack(m: Manager, queue: seq<Task>, pump: Pump, id: Id)
    requires pump.Posting? && pump.reap != []
    ensures var t := TrackOf(m, pump, queue, id);
            TrackOf(m, Posting(pump.reap[1..]), queue + [Crash(pump.reap[0])], id)
            == if id == pump.reap[0] then t.(crash := true, reap := id in pump.reap[1..]) else t
  {
    QueuePush(queue, Crash(pump.reap[0]), id);
    assert pump.reap == [pump.reap[0]] + pump.reap[1..];
  }

  lemma CrashFlow(queue: seq<Task>, pump: Pump, posts: seq<(Id, Msg)>, id: Id)
    requires pump.Posting? && pump.reap != []
    ensures FlowOf(queue + [Crash(pump.reap[0])], Posting(pump.reap[1..]), posts, id) == FlowOf(queue, pump, posts, id)
  {
    QueuePush(queue, Crash(pump.reap[0]), id);
    BehindNeedsCrash(queue, id);
  }

  lemma RunOtherView(s: State, id: Id)
    requires s.queue != [] && s.queue[0].id != id
    ensures ViewOf(DoRunTask(s), id) == ViewOf(s, id)
  {
    QueuePop(s.queue, id);
  }

  lemma RunMessageView(s: State, id: Id)
    requires s.queue != [] && s.queue[0].id == id && !NeedsLock(s.queue[0])
    ensures var v := ViewOf(s, id);
            ViewOf(DoRunTask(s), id)
            == v.(flow := v.flow.(ahead := Ahead(s.queue[1..], id)), log := RunLog(v.log, s.queue[0], v.track.tracked))
    ensures Ahead(s.queue, id) == Own(s.queue[0], id) + Ahead(s.queue[1..], id)
  {
    QueuePop(s.queue, id);
  }

  lemma RunExitView(s: State, id: Id)
    requires s.queue != [] && s.queue[0].id == id && NeedsLock(s.queue[0])
    ensures var v := ViewOf(s, id);
            ViewOf(DoRunTask(s), id)
            == v.(flow := TailFlow(s, id), log := RunLog(v.log, s.queue[0], v.track.tracked),
                  track := DroppedTrack(s, id))
  {
  }

  function TailFlow(s: State, id: Id): Flow
    requires s.queue != []
  {
    FlowOf(s.queue[1..], s.pump, s.agents.posts, id)
  }

  function DroppedTrack(s: State, id: Id): Track
    requires s.queue != []
  {
    Track(false, false, 0, InTodo(s.pump, id), ReapPending(s.pump, id), Crash(id) in s.queue[1..])
  }

  lemma CloseView(s: State, id: Id)
    ensures var v := ViewOf(s, id);
            ViewOf(DoClose(s), id)
            == if v.track.tracked then
                 v.(closed := true, track := v.track.(tracked := false), log := v.log.(freed := v.log.freed + 1))
               else v.(closed := true)
  {
  }

  // ------------------------------------------------------------ every step keeps the invariant

  /** What a worker's view needs to know of the rest of the state. */
  predicate Frame(s: State) {
    && (!s.spawn.NotSpawning? ==> s.spawn.id < s.next)
    && (s.pump.Scanning? ==> s.pump.todo <= s.manager.insts)
  }

  lemma WillMissSame(v: View, v': View)
    requires v'.track == v.track && v'.flow == v.flow
    requires v'.log.events == v.log.events && v'.log.sent == v.log.sent
    ensures WillMissOne(v) ==> WillMissOne(v')
  {
    if WillMissOne(v) {
      var n: nat :| WillMiss(v, n);
      assert WillMiss(v', n);
    }
  }

  lemma StartKeeps(s: State, step: Step, id: Id)
    requires Frame(s) && ViewInv(ViewOf(s, id)) && Enabled(s, step)
    requires step.SpawnStart? || step.SpawnBook? || step.Register?
    ensures ViewInv(ViewOf(Apply(s, step), id))
  {
    match step {
      case SpawnStart => SpawnStartView(s, id);
      case SpawnBook => SpawnBookView(s, id);
      case Register => RegisterView(s, id);
      case _ =>
    }
  }

  lemma HandshakeKeeps(s: State, step: Step, id: Id)
    requires Frame(s) && ViewInv(ViewOf(s, id)) && Enabled(s, step)
    requires step.SendInit? || step.SendInitFails?
    ensures ViewInv(ViewOf(Apply(s, step), id))
  {
    match step {
      case SendInit => SendInitView(s, id);
      case SendInitFails => SendInitFailsView(s, id);
      case _ =>
    }
  }

  lemma PendingKeeps(s: State, step: Step, id: Id)
    requires Frame(s) && ViewInv(ViewOf(s, id)) && Enabled(s, step)
    requires step.AddPending? || step.PostOnline?
    ensures ViewInv(ViewOf(Apply(s, step), id))
  {
    match step {
      case AddPending => AddPendingView(s, id);
      case PostOnline => PostOnlineView(s, id);
      case _ =>
    }
    WillMissSame(ViewOf(s, id), ViewOf(Apply(s, step), id));
  }

  lemma SpawnKeeps(s: State, step: Step, id: Id)
    requires Frame(s) && ViewInv(ViewOf(s, id)) && Enabled(s, step)
    requires step.SpawnStart? || step.SpawnBook? || step.Register? || step.SendInit? || step.SendInitFails?
             || step.AddPending? || step.PostOnline?
    ensures ViewInv(ViewOf(Apply(s, step), id))
  {
    if step.SpawnStart? || step.SpawnBook? || step.Register? {
      StartKeeps(s, step, id);
    } else if step.SendInit? || step.SendInitFails? {
      HandshakeKeeps(s, step, id);
    } else {
      PendingKeeps(s, step, id);
    }
  }

  lemma AgentKeeps(s: State, step: Step, id: Id)
    requires Frame(s) && ViewInv(ViewOf(s, id)) && Enabled(s, step)
    requires step.AgentPost? || step.AgentExit?
    ensures ViewInv(ViewOf(Apply(s, step), id))
  {
    match step {
      case AgentPost(from, msg) =>
        AgentPostView(s, from, msg, id);
        if id == from {
          ViewAgentPost(ViewOf(s, id), msg);
        }
      case AgentExit(from) =>
        AgentExitView(s, from, id);
        if id == from {
          ViewAgentExit(ViewOf(s, id));
        }
      case _ =>
    }
  }

  lemma ViewReceived(v: View, m: Msg, rest: seq<Msg>)
    requires ViewInv(v) && v.stage != Unborn && v.flow.posts == [m] + rest && v.flow.hand == []
    requires !v.track.todo && !v.track.reap
    ensures ViewInv(v.(flow := v.flow.(hand := [m], posts := rest)))
  {
    if v.track.tracked {
      assert v.flow.behind + [m] + rest == v.flow.Later();
      ViewLater(v, [m], v.flow.behind, rest);
    } else {
      ViewDropped(v, v.flow.(hand := [m], posts := rest), v.track);
    }
  }

  lemma ReceiveKeeps(s: State, id: Id)
    requires ViewInv(ViewOf(s, id)) && Enabled(s, Receive)
    ensures ViewInv(ViewOf(DoReceive(s), id))
  {
    ReceiveView(s, id);
    PostsOfPop(s.agents.posts, id);
    if s.agents.posts[0].0 == id {
      ViewReceived(ViewOf(s, id), s.agents.posts[0].1, PostsOf(s.agents.posts[1..], id));
    }
  }

  lemma ReceiveEndKeeps(s: State, step: Step, id: Id)
    requires ViewInv(ViewOf(s, id)) && Enabled(s, step) && (step.ReceiveFails? || step.ReceiveEmpty?)
    ensures ViewInv(ViewOf(Apply(s, step), id))
  {
    if step.ReceiveFails? {
      ReceiveFailsView(s, id);
      PostsOfPop(s.agents.posts, id);
      ViewFails(ViewOf(s, id), s.agents.posts[0].0 == id, PostsOf(s.agents.posts[1..], id));
    } else {
      ReceiveEmptyView(s, id);
      ViewEmpty(ViewOf(s, id));
    }
  }

  lemma RouteKeeps(s: State, step: Step, id: Id)
    requires ViewInv(ViewOf(s, id)) && Enabled(s, step) && (step.Lookup? || step.Route?)
    ensures ViewInv(ViewOf(Apply(s, step), id))
  {
    var v := ViewOf(s, id);
    if step.Lookup? {
      LookupView(s, id);
      if id == s.pump.id && id !in s.manager.insts {
        ViewDropped(v, v.flow.(hand := []), v.track);
      }
    } else {
      RouteView(s, id);
      if id == s.pump.id {
        BehindNeedsCrash(s.queue, id);
        ViewRoute(v, s.pump.msg);
      }
    }
  }

  lemma ViewRoute(v: View, m: Msg)
    requires ViewInv(v) && v.flow.hand == [m] && !v.track.todo && (v.flow.behind != [] ==> v.track.crash)
    ensures ViewInv(v.(flow := RoutedFlow(v.flow, m, v.track.crash)))
  {
    if !v.track.tracked {
      ViewDropped(v, RoutedFlow(v.flow, m, v.track.crash), v.track);
    } else if v.track.crash {
      assert v.flow.behind + [m] + [] + v.flow.posts == v.flow.Later();
      ViewLater(v, [], v.flow.behind + [m], v.flow.posts);
    } else {
      ViewRouted(v, m);
    }
  }

  lemma ScanKeeps(s: State, step: Step, id: Id)
    requires Frame(s) && ViewInv(ViewOf(s, id)) && Enabled(s, step)
    requires step.Scan? || step.ScanEnd? || step.Sleep?
    ensures ViewInv(ViewOf(Apply(s, step), id))
  {
    match step {
      case Scan(at) =>
        ScanView(s, at, id);
        if at == id {
          ViewScanned(ViewOf(s, id));
        }
      case _ => PumpEndView(s, id);
    }
  }

  lemma PostCrashKeeps(s: State, id: Id)
    requires ViewInv(ViewOf(s, id)) && Enabled(s, PostCrash)
    ensures ViewInv(ViewOf(DoPostCrash(s), id))
  {
    var v, v' := ViewOf(s, id), ViewOf(DoPostCrash(s), id);
    PostCrashView(s, id);
    if id == s.pump.reap[0] {
      if !v.track.tracked {
        ViewDropped(v, v.flow, v'.track);
      } else if v.harmed {
        var n: nat :| WillMiss(v, n);
        assert WillMiss(v', n);
      }
    }
  }

  lemma RunMessageKeeps(s: State, id: Id)
    requires ViewInv(ViewOf(s, id)) && Enabled(s, RunTask) && !NeedsLock(s.queue[0])
    ensures ViewInv(ViewOf(DoRunTask(s), id))
  {
    var v, t := ViewOf(s, id), s.queue[0];
    if t.id != id {
      RunOtherView(s, id);
    } else {
      RunMessageView(s, id);
      var flow := v.flow.(ahead := Ahead(s.queue[1..], id));
      if t.EmitOnline? {
        assert flow == v.flow;
      } else if v.track.tracked {
        assert flow == Dequeued(v.flow);
        ViewMessage(v, t.msg);
      } else {
        ViewDropped(v, flow, v.track);
      }
    }
  }

  lemma FarewellLog(v: View, t: Task)
    requires ViewInv(v) && t.Dispatch? && t.msg.Farewell?
    ensures RunLog(v.log, t, v.track.tracked) == if v.track.tracked then ExitLog(v.log, ToEvent(t.msg)) else v.log
  {
  }

  lemma FarewellKeeps(s: State, id: Id)
    requires ViewInv(ViewOf(s, id)) && Enabled(s, RunTask) && s.queue[0].id == id
    requires s.queue[0].Dispatch? && s.queue[0].msg.Farewell? && StageOf(s, id) == Settled
    ensures ViewInv(ViewOf(DoRunTask(s), id))
  {
    hide ViewInv, ToEvent, DoRunTask, RunLog;
    var v := ViewOf(s, id);
    RunExitView(s, id);
    QueuePop(s.queue, id);
    FarewellLog(v, s.queue[0]);
    if v.track.tracked {
      ViewFarewell(v, s.queue[0].msg, TailFlow(s, id), DroppedTrack(s, id));
    } else {
      ViewDropped(v, TailFlow(s, id), DroppedTrack(s, id));
    }
  }

  lemma CrashKeeps(s: State, id: Id)
    requires ViewInv(ViewOf(s, id)) && Enabled(s, RunTask) && s.queue[0] == Crash(id) && StageOf(s, id) == Settled
    ensures ViewInv(ViewOf(DoRunTask(s), id))
  {
    RunExitView(s, id);
    TailLength(s, id);
    if ViewOf(s, id).track.tracked {
      ViewCrash(ViewOf(s, id), TailFlow(s, id), DroppedTrack(s, id));
    } else {
      ViewDropped(ViewOf(s, id), TailFlow(s, id), DroppedTrack(s, id));
    }
  }

  lemma TailLength(s: State, id: Id)
    requires s.queue != [] && s.queue[0] == Crash(id)
    ensures Ahead(s.queue, id) == []
    ensures |TailFlow(s, id).All()| == |FlowOf(s.queue, s.pump, s.agents.posts, id).All()|
  {
    QueueCrash(s.queue, id);
  }

  lemma CloseKeeps(s: State, id: Id)
    requires ViewInv(ViewOf(s, id)) && Enabled(s, Close)
    ensures ViewInv(ViewOf(DoClose(s), id))
  {
    CloseView(s, id);
    ViewClose(ViewOf(s, id));
  }

  lemma RunTaskKeeps(s: State, id: Id)
    requires ViewInv(ViewOf(s, id)) && Enabled(s, RunTask)
    ensures ViewInv(ViewOf(DoRunTask(s), id))
  {
    var t := s.queue[0];
    if !NeedsLock(t) {
      RunMessageKeeps(s, id);
    } else if t.id != id {
      RunOtherView(s, id);
    } else {
      if t.Crash? {
        CrashKeeps(s, id);
      } else {
        QueuePop(s.queue, id);
        FarewellKeeps(s, id);
      }
    }
  }

  lemma StepKeeps(s: State, step: Step, id: Id)
    requires Frame(s) && ViewInv(ViewOf(s, id)) && Enabled(s, step)
    ensures ViewInv(ViewOf(Apply(s, step), id))
  {
    match step {
      case AgentPost(_, _) => AgentKeeps(s, step, id);
      case AgentExit(_) => AgentKeeps(s, step, id);
      case Receive => ReceiveKeeps(s, id);
      case ReceiveFails => ReceiveEndKeeps(s, step, id);
      case ReceiveEmpty => ReceiveEndKeeps(s, step, id);
      case Lookup => RouteKeeps(s, step, id);
      case Route => RouteKeeps(s, step, id);
      case Scan(_) => ScanKeeps(s, step, id);
      case ScanEnd => ScanKeeps(s, step, id);
      case Sleep => ScanKeeps(s, step, id);
      case PostCrash => PostCrashKeeps(s, id);
      case RunTask => RunTaskKeeps(s, id);
      case Close => CloseKeeps(s, id);
      case _ => SpawnKeeps(s, step, id);
    }
  }

  lemma FrameKeeps(s: State, step: Step)
    requires Frame(s) && Enabled(s, step)
    ensures Frame(Apply(s, step))
  {
  }

  /** Every schedule, every worker. */
  lemma {:induction false} Invariant(steps: seq<Step>, id: Id)
    ensures Frame(After(steps)) && ViewInv(ViewOf(After(steps), id))
    decreases |steps|
  {
    if steps != [] {
      var before := steps[..|steps| - 1];
      var s, step := After(before), steps[|steps| - 1];
      Invariant(before, id);
      if Enabled(s, step) {
        StepKeeps(s, step, id);
        FrameKeeps(s, step);
      }
    }
  }

  // ------------------------------------------------------------ the protocol's promises, over every run

  predicate FirstFarewell(ms: seq<Msg>, k: nat) {
    k < |ms| && ms[k].Farewell? && NoFarewell(ms[..k])
  }

  /** Everything the agent posted was received, routed and dispatched. */
  predicate Drained(s: State, id: Id) {
    FlowOf(s.queue, s.pump, s.agents.posts, id) == NO_FLOW
  }

  predicate WasStarted(s: State, id: Id) {
    StageOf(s, id) == Settled && !LogOf(s, id).failed && !s.closed
  }

  /** In every run, failing Receives included, a Worker emits at most one exit and nothing
      behind it. */
  lemma ExitIsLast(steps: seq<Step>, id: Id)
    ensures var es := LogOf(After(steps), id).events;
            forall j :: 0 <= j < |es| && es[j].Exit? ==> j == |es| - 1
  {
    Invariant(steps, id);
    var v := ViewOf(After(steps), id);
    if !v.track.tracked && v.log.released == 1 {
      OnlyTheLast(v.log.events);
    }
  }

  lemma OnlyTheLast(es: seq<Event>)
    requires es != [] && NoExit(es[..|es| - 1])
    ensures forall j :: 0 <= j < |es| && es[j].Exit? ==> j == |es| - 1
  {
    assert forall j :: 0 <= j < |es| - 1 ==> es[j] == es[..|es| - 1][j];
  }

  /** An agent that posted a farewell, number k: the exit its Worker emits is that one, with
      its code and exactly behind the earlier messages, if and only if no failed Receive did
      the worker harm. Unharmed, it has emitted it once the agent's posts are drained, and
      until then nothing but those messages in order. */
  lemma CleanExit(steps: seq<Step>, id: Id, k: nat)
    requires FirstFarewell(LogOf(After(steps), id).sent, k)
    ensures var s := After(steps);
            var log := LogOf(s, id);
            && (!NoExit(log.events) ==> (log.events == ToEvents(log.sent[..k + 1]) <==> id !in s.harmed))
            && (id !in s.harmed && NoExit(log.events) ==> log.events <= ToEvents(log.sent[..k]))
            && (id !in s.harmed && WasStarted(s, id) && Drained(s, id) ==> !NoExit(log.events))
            && (!NoExit(log.events) && id !in s.harmed ==>
                  && |log.events| == k + 1 && log.events[k].Exit? && log.events[k].code == log.sent[k].code
                  && forall j :: 0 <= j < k ==>
                       log.sent[j].Data? && log.events[j].Message? && log.events[j].payload == log.sent[j].payload)
  {
    hide After, ToEvents, NoExit;
    CleanEvents(After(steps), id, k);
    Invariant(steps, id);
    var v := ViewOf(After(steps), id);
    if v.track.tracked {
      CleanTracked(v, k);
    } else {
      CleanGone(v, k);
    }
  }

  lemma CleanEvents(s: State, id: Id, k: nat)
    requires FirstFarewell(LogOf(s, id).sent, k)
    ensures var log := LogOf(s, id);
            log.events == ToEvents(log.sent[..k + 1]) ==>
              && |log.events| == k + 1 && log.events[k].Exit? && log.events[k].code == log.sent[k].code
              && forall j :: 0 <= j < k ==>
                   log.sent[j].Data? && log.events[j].Message? && log.events[j].payload == log.sent[j].payload
  {
    var sent := LogOf(s, id).sent;
    forall j | 0 <= j <= k
      ensures ToEvents(sent[..k + 1])[j] == ToEvent(sent[j]) && (j < k ==> sent[j].Data?)
    {
      if j < k {
        assert !sent[..k][j].Farewell?;
      }
    }
  }

  lemma CleanTracked(v: View, k: nat)
    requires Tracked(v) && FirstFarewell(v.log.sent, k)
    ensures NoExit(v.log.events)
    ensures !v.harmed ==> v.log.events <= ToEvents(v.log.sent[..k]) && v.flow != NO_FLOW
  {
    if !v.harmed {
      SoundInStep(v);
      BeforeFarewell(v.log.events, v.log.sent, k);
      assert v.flow == NO_FLOW ==> v.flow.All() == [];
    }
  }

  lemma BeforeFarewell(es: seq<Event>, sent: seq<Msg>, k: nat)
    requires es <= ToEvents(sent) && NoExit(es) && FirstFarewell(sent, k)
    ensures es <= ToEvents(sent[..k])
  {
    if |es| > k {
      FarewellShows(es, sent, k);
    }
  }

  lemma FarewellShows(es: seq<Event>, sent: seq<Msg>, k: nat)
    requires es <= ToEvents(sent) && k < |es| && sent[k].Farewell?
    ensures !NoExit(es)
  {
    assert es[k] == ToEvents(sent)[k];
  }

  lemma NotBefore(sent: seq<Msg>, k: nat, j: nat)
    requires j < k <= |sent| && NoFarewell(sent[..k])
    ensures !sent[j].Farewell?
  {
    assert sent[..k][j] == sent[j];
  }

  lemma PrefixNoExit(es: seq<Event>, sent: seq<Msg>)
    requires es <= ToEvents(sent) && NoFarewell(sent)
    ensures NoExit(es)
  {
    assert forall j :: 0 <= j < |es| ==> es[j] == ToEvents(sent)[j];
  }

  lemma CleanGone(v: View, k: nat)
    requires Gone(v) && FirstFarewell(v.log.sent, k)
    ensures !NoExit(v.log.events) ==> (v.log.events == ToEvents(v.log.sent[..k + 1]) <==> !v.harmed)
    ensures !v.harmed && NoExit(v.log.events) ==> v.log.events <= ToEvents(v.log.sent[..k])
  {
    var es, sent := v.log.events, v.log.sent;
    if !NoExit(es) {
      if v.harmed {
        var n: nat :| Missed(es, sent, n);
        NotClean(es, sent, k, n);
      } else {
        EndsAtFarewell(es, sent, k, v.life.running);
      }
    } else if !v.harmed {
      if es == ToEvents(sent) + [CRASH] {
        LastIsCrash(es, sent);
      } else {
        BeforeFarewell(es, sent, k);
      }
    }
  }

  lemma NotClean(es: seq<Event>, sent: seq<Msg>, k: nat, n: nat)
    requires Missed(es, sent, n) && FirstFarewell(sent, k) && Numbered(sent)
    ensures es != ToEvents(sent[..k + 1])
  {
    if n > k {
      NotBefore(sent, n, k);
    } else {
      assert ToEvents(sent[..k + 1])[n] == ToEvent(sent[n]);
      assert HasNumber(ToEvent(sent[n]), n);
    }
  }

  lemma CrashNotFirst(es: seq<Event>, sent: seq<Msg>, k: nat)
    requires es == ToEvents(sent) + [CRASH] && FirstFarewell(sent, k)
    ensures !NoExit(es[..|es| - 1])
  {
    assert es[..|es| - 1][k].Exit?;
  }

  lemma EndsAtFarewell(es: seq<Event>, sent: seq<Msg>, k: nat, running: bool)
    requires InStep(es, sent) && ExitLast(es, sent, running) && FirstFarewell(sent, k)
    ensures es == ToEvents(sent[..k + 1])
  {
    if es == ToEvents(sent) + [CRASH] {
      CrashNotFirst(es, sent, k);
    } else {
      var e: nat := |es| - 1;
      BeforeFarewell(es[..e], sent, k);
      assert es[e] == ToEvents(sent)[e];
      if e < k {
        NotBefore(sent, k, e);
      }
    }
  }

  /** An agent that posted no farewell: the exit its Worker emits, if any, is a crash exit
      with code 1 of a dead agent; and it comes behind everything the agent sent if and only
      if no failed Receive did the worker harm. */
  lemma SilentExit(steps: seq<Step>, id: Id)
    requires NoFarewell(LogOf(After(steps), id).sent) && !NoExit(LogOf(After(steps), id).events)
    ensures var s := After(steps);
            var log := LogOf(s, id);
            && log.events[|log.events| - 1] == CRASH && id !in s.agents.running
            && (log.events == ToEvents(log.sent) + [CRASH] <==> id !in s.harmed)
            && log.events[|log.events| - 1].Exit? && log.events[|log.events| - 1].code == 1
            && (id !in s.harmed ==>
                  && |log.events| == |log.sent| + 1
                  && forall j :: 0 <= j < |log.sent| ==>
                       log.sent[j].Data? && log.events[j].Message? && log.events[j].payload == log.sent[j].payload)
  {
    hide After, ToEvents;
    Invariant(steps, id);
    SilentGone(ViewOf(After(steps), id));
    SilentEvents(LogOf(After(steps), id));
  }

  lemma SilentEvents(log: Log)
    requires NoFarewell(log.sent)
    ensures log.events == ToEvents(log.sent) + [CRASH] ==>
              && |log.events| == |log.sent| + 1
              && forall j :: 0 <= j < |log.sent| ==>
                   log.sent[j].Data? && log.events[j].Message? && log.events[j].payload == log.sent[j].payload
  {
    forall j | 0 <= j < |log.sent|
      ensures (ToEvents(log.sent) + [CRASH])[j] == ToEvent(log.sent[j]) && log.sent[j].Data?
    {
    }
  }

  lemma SilentGone(v: View)
    requires Gone(v) && NoFarewell(v.log.sent) && !NoExit(v.log.events)
    ensures v.log.events[|v.log.events| - 1] == CRASH && !v.life.running
    ensures v.log.events == ToEvents(v.log.sent) + [CRASH] <==> !v.harmed
  {
    var es, sent := v.log.events, v.log.sent;
    if v.harmed {
      var n: nat :| Missed(es, sent, n);
      assert (ToEvents(sent) + [CRASH])[n] == ToEvent(sent[n]);
      assert HasNumber(ToEvent(sent[n]), n);
    } else {
      if es <= ToEvents(sent) {
        PrefixNoExit(es, sent);
      }
    }
  }

  /** The instance handle is freed and the loop's pending released at most once,
      even when Receives fail; before the manager closes, both happen together
      with the exit event, and the worker leaves the table then. */
  lemma ReleasedOnce(steps: seq<Step>, id: Id)
    ensures var s := After(steps);
            var log := LogOf(s, id);
            && log.freed <= 1 && log.released <= log.added <= 1
            && (log.released == 1 <==> !NoExit(log.events))
            && (log.freed == 1 ==> id !in s.manager.insts)
            && (!s.closed && !log.failed ==> log.freed == log.released)
            && (WasStarted(s, id) ==> (log.freed == 1 <==> id !in s.manager.insts))
  {
    Invariant(steps, id);
  }

  /** Whatever the order of Spawn's bookkeeping and the agent's exit, an agent
      that has exited ends in neither of the cluster's tables. */
  lemma ExitedAgentForgotten(steps: seq<Step>, id: Id)
    requires var s := After(steps); StageOf(s, id) == Settled && id !in s.agents.running
    ensures var s := After(steps); id !in s.agents.alive && id !in s.agents.exited
  {
    Invariant(steps, id);
  }

  lemma AfterPush(steps: seq<Step>, step: Step)
    ensures After(steps + [step]) == if Enabled(After(steps), step) then Apply(After(steps), step) else After(steps)
  {
    assert (steps + [step])[..|steps|] == steps;
  }

  // A schedule with one failing Receive, spelled out.

  function OneWorker(a: Agents, m: Manager, queue: seq<Task>, pump: Pump, log: Log, harmed: set<Id>): State {
    State(a, m, queue, pump, NotSpawning, 1, map[0 := log], false, harmed)
  }

  const QUIET := Log(true, false, [], [], 0, 1, 0)
  const SAID_BYE := Log(true, false, [Data(7, 0), Farewell(0, 1)], [], 0, 1, 0)

  const STARTED := OneWorker(Agents({0}, {0}, {}, []), Manager({0}, map[], {}), [EmitOnline(0)], Polling, QUIET, {})
  const LEFT := OneWorker(Agents({}, {}, {}, [(0, Data(7, 0)), (0, Farewell(0, 1))]),
                          Manager({0}, map[], {}), [EmitOnline(0)],
                          Scanning({0}, []), SAID_BYE, {})
  const SEEN_DEAD := OneWorker(Agents({}, {}, {}, [(0, Data(7, 0)), (0, Farewell(0, 1))]),
                               Manager({0}, map[0 := 1], {}), [EmitOnline(0)],
                               Polling, SAID_BYE, {})
  const REAPED := OneWorker(Agents({}, {}, {}, [(0, Farewell(0, 1))]), Manager({0}, map[0 := 2], {0}), [EmitOnline(0)],
                            Scanning({}, [0]), SAID_BYE, {0})

  lemma StartOne()
    ensures DoPostOnline(DoAddPending(DoSendInit(DoRegister(DoSpawnBook(DoSpawnStart(INIT)))))) == STARTED
  {
    assert DoAddPending(DoSendInit(DoRegister(DoSpawnBook(DoSpawnStart(INIT))))).logs == map[0 := QUIET];
  }

  lemma LeaveWhileScanned()
    ensures DoAgentExit(DoAgentPost(DoAgentPost(DoReceiveEmpty(STARTED), 0, Data(7, 0)), 0, Farewell(0, 1)), 0) == LEFT
  {
    var s := DoAgentPost(DoReceiveEmpty(STARTED), 0, Data(7, 0));
    assert LogOf(s, 0) == Log(true, false, [Data(7, 0)], [], 0, 1, 0);
    assert [Data(7, 0)] + [Farewell(0, 1)] == [Data(7, 0), Farewell(0, 1)];
    assert LogOf(DoAgentPost(s, 0, Farewell(0, 1)), 0) == SAID_BYE;
    assert DoAgentPost(s, 0, Farewell(0, 1)).logs == map[0 := SAID_BYE];
  }

  lemma SeeDead()
    ensures DoSleep(DoScanEnd(DoScan(LEFT, 0))) == SEEN_DEAD
  {
    assert DoScan(LEFT, 0).manager == Manager({0}, map[0 := 1], {});
  }

  lemma FailAndReap()
    ensures DoScan(DoReceiveFails(SEEN_DEAD), 0) == REAPED
  {
    var s := DoReceiveFails(SEEN_DEAD);
    assert s.agents.posts == [(0, Farewell(0, 1))] && Reaps(s, 0);
    assert DoScan(s, 0).manager == Manager({0}, map[0 := 2], {0});
    assert DoScan(s, 0).pump == Scanning({}, [0]);
  }

  lemma CrashReported()
    ensures DoPostCrash(DoScanEnd(REAPED)).queue == [EmitOnline(0), Crash(0)]
    ensures DoRunTask(DoPostCrash(DoScanEnd(REAPED))).queue == [Crash(0)]
    ensures LogOf(DoRunTask(DoRunTask(DoPostCrash(DoScanEnd(REAPED)))), 0) == ExitLog(SAID_BYE, CRASH)
  {
    var s := DoRunTask(DoPostCrash(DoScanEnd(REAPED)));
    assert LogOf(s, 0) == SAID_BYE && 0 in s.manager.insts;
  }

  lemma Extend(steps: seq<Step>, step: Step, s: State) returns (longer: seq<Step>)
    requires After(steps) == s && Enabled(s, step)
    ensures After(longer) == Apply(s, step)
  {
    longer := steps + [step];
    AfterPush(steps, step);
  }

  /** A schedule that starts one worker. */
  lemma ReachStarted() returns (steps: seq<Step>)
    ensures After(steps) == STARTED
  {
    var s1 := DoSpawnStart(INIT);
    var s2 := DoSpawnBook(s1);
    var s3 := DoRegister(s2);
    var s4 := DoSendInit(s3);
    var s5 := DoAddPending(s4);
    steps := Extend([], SpawnStart, INIT);
    steps := Extend(steps, SpawnBook, s1);
    steps := Extend(steps, Register, s2);
    steps := Extend(steps, SendInit, s3);
    steps := Extend(steps, AddPending, s4);
    steps := Extend(steps, PostOnline, s5);
    StartOne();
  }

  lemma ReachSeenDead() returns (steps: seq<Step>)
    ensures After(steps) == SEEN_DEAD
  {
    steps := ReachStarted();
    var s1 := DoReceiveEmpty(STARTED);
    var s2 := DoAgentPost(s1, 0, Data(7, 0));
    var s3 := DoAgentPost(s2, 0, Farewell(0, 1));
    steps := Extend(steps, ReceiveEmpty, STARTED);
    steps := Extend(steps, AgentPost(0, Data(7, 0)), s1);
    steps := Extend(steps, AgentPost(0, Farewell(0, 1)), s2);
    steps := Extend(steps, AgentExit(0), s3);
    LeaveWhileScanned();
    steps := Extend(steps, Scan(0), LEFT);
    steps := Extend(steps, ScanEnd, DoScan(LEFT, 0));
    steps := Extend(steps, Sleep, DoScanEnd(DoScan(LEFT, 0)));
    SeeDead();
  }

  lemma ReachReaped() returns (steps: seq<Step>)
    ensures After(steps) == REAPED
  {
    steps := ReachSeenDead();
    steps := Extend(steps, ReceiveFails, SEEN_DEAD);
    steps := Extend(steps, Scan(0), DoReceiveFails(SEEN_DEAD));
    FailAndReap();
  }

  lemma ReachQueued() returns (steps: seq<Step>)
    ensures After(steps) == DoPostCrash(DoScanEnd(REAPED))
  {
    steps := ReachReaped();
    steps := Extend(steps, ScanEnd, REAPED);
    steps := Extend(steps, PostCrash, DoScanEnd(REAPED));
  }

  /** The condition on Receive cannot be dropped: one failed Receive is enough to
      report a clean exit as a crash. */
  lemma FailedReceiveBreaksCleanExit() returns (steps: seq<Step>)
    ensures LogOf(After(steps), 0).sent == [Data(7, 0), Farewell(0, 1)] && LogOf(After(steps), 0).events == [CRASH]
  {
    var s := DoPostCrash(DoScanEnd(REAPED));
    steps := ReachQueued();
    CrashReported();
    steps := Extend(steps, RunTask, s);
    steps := Extend(steps, RunTask, DoRunTask(s));
  }
}
