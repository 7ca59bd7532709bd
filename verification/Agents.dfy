/** The agent cluster's custody of clone handles. Every critical section under the
    cluster's lock is one step, and so is each half of a call that works outside it;
    a run is any sequence of steps. */
module Agents {

  /** Where a clone handle is. The first three, Reading and Freeing are handles held by a
      call in progress; Delivered is owned by the agent, Freed has been given to CloneFree,
      Lost and Superseded are never freed by the cluster. */
  datatype Place =
    | Sending(to: nat) | Posting(agent: nat) | Announcing
    | Queued(to: nat) | Posted | Orphaned | Latched | Superseded
    | Reading | Freeing
    | Delivered(to: nat) | Freed | Lost

  datatype Post = Post(agent: nat, clone: nat)

  datatype Message = Message(to: nat, clone: nat)

  /** running is the engine's own threads; starting the Spawn calls between AgentSpawn's
      return and their bookkeeping; alive and exited are the cluster's two sets. */
  datatype Life = Life(next: nat, running: set<nat>, starting: set<nat>, alive: set<nat>, exited: set<nat>)

  /** What has happened, in order: handles appended to inboxes, popped by agents, appended to
      posts, popped by Receive, latched as the broadcast before close, and freed; early are
      those appended to an inbox or to posts before close. */
  datatype History = History(
    sent: seq<Message>, delivered: seq<Message>, posted: seq<Post>, popped: seq<Post>,
    latched: seq<nat>, freed: seq<nat>, early: set<nat>)

  datatype State = State(
    inboxes: map<nat, seq<nat>>,
    posts: seq<Post>,
    orphaned: seq<nat>,
    broadcast: nat,
    closed: bool,
    free: seq<nat>,
    next: nat,
    place: map<nat, Place>,
    life: Life,
    past: History)

  const INIT := State(map[], [], [], 0, false, [], 1, map[],
                      Life(1, {}, {}, {}, {}), History([], [], [], [], [], [], {}))

  function Inbox(s: State, id: nat): seq<nat> {
    if id in s.inboxes then s.inboxes[id] else []
  }

  predicate IsAt(place: map<nat, Place>, h: nat, p: Place) {
    h in place && place[h] == p
  }

  function Clones(posts: seq<Post>): seq<nat> {
    seq(|posts|, i requires 0 <= i < |posts| => posts[i].clone)
  }

  function To(log: seq<Message>, id: nat): seq<nat> {
    if log == [] then []
    else
      var last := log[|log| - 1];
      To(log[..|log| - 1], id) + if last.to == id then [last.clone] else []
  }

  /** An agent whose thread has ended. */
  predicate Ended(s: State, id: nat) {
    id < s.life.next && id !in s.life.running
  }

  // ---------------------------------------------------------------- the steps

  datatype Step =
    | SendWrite(to: nat) | SendAppend(clone: nat)
    | BroadcastWrite | BroadcastLatch(clone: nat)
    | InboxTake(id: nat)
    | PostWrite(id: nat) | PostAppend(clone: nat)
    | ReceivePop | ReceiveFree(clone: nat) | ReceiveFail(clone: nat)
    | SpawnThread | SpawnBook(id: nat) | Exit(id: nat)
    | Close(order: seq<nat>) | CloseFree

  predicate Distinct(q: seq<nat>) {
    forall i, j :: 0 <= i < j < |q| ==> q[i] != q[j]
  }

  /** The inboxes ranged over in some order, each once. */
  predicate IsOrder(s: State, order: seq<nat>) {
    Distinct(order) && (set id | id in order) == s.inboxes.Keys
  }

  predicate Enabled(s: State, step: Step) {
    match step
    case SendAppend(h) => h in s.place && s.place[h].Sending?
    case BroadcastLatch(h) => IsAt(s.place, h, Announcing)
    case InboxTake(id) => id in s.life.running && !s.closed && Inbox(s, id) != []
    case PostWrite(id) => id in s.life.running
    case PostAppend(h) => h in s.place && s.place[h].Posting? && s.place[h].agent in s.life.running
    case ReceivePop => s.posts != []
    case ReceiveFree(h) => IsAt(s.place, h, Reading)
    case ReceiveFail(h) => IsAt(s.place, h, Reading)
    case SpawnBook(id) => id in s.life.starting
    case Exit(id) => id in s.life.running
    case Close(order) => !s.closed && IsOrder(s, order)
    case CloseFree => s.free != []
    case _ => true
  }

  /** CloneWrite: a new handle, held by the call that made it. */
  function DoWrite(s: State, p: Place): State {
    s.(next := s.next + 1, place := s.place[s.next := p])
  }

  function NoteEarly(s: State, h: nat): set<nat> {
    if s.closed then s.past.early else s.past.early + {h}
  }

  function DoSendAppend(s: State, h: nat, to: nat): State {
    s.(inboxes := s.inboxes[to := Inbox(s, to) + [h]],
       place := s.place[h := Queued(to)],
       past := s.past.(sent := s.past.sent + [Message(to, h)], early := NoteEarly(s, h)))
  }

  function DoLatch(s: State, h: nat): State {
    s.(broadcast := h,
       place := (if s.broadcast != 0 then s.place[s.broadcast := Superseded] else s.place)[h := Latched],
       past := if s.closed then s.past else s.past.(latched := s.past.latched + [h]))
  }

  function DoInboxTake(s: State, id: nat): State
    requires Inbox(s, id) != []
  {
    var h := Inbox(s, id)[0];
    s.(inboxes := s.inboxes[id := Inbox(s, id)[1..]],
       place := s.place[h := Delivered(id)],
       past := s.past.(delivered := s.past.delivered + [Message(id, h)]))
  }

  function DoPostAppend(s: State, h: nat, id: nat): State {
    s.(posts := s.posts + [Post(id, h)],
       place := s.place[h := Posted],
       past := s.past.(posted := s.past.posted + [Post(id, h)], early := NoteEarly(s, h)))
  }

  function DoReceivePop(s: State): State
    requires s.posts != []
  {
    s.(posts := s.posts[1..], place := s.place[s.posts[0].clone := Reading],
       past := s.past.(popped := s.past.popped + [s.posts[0]]))
  }

  function DoReceiveFree(s: State, h: nat): State {
    s.(place := s.place[h := Freed], past := s.past.(freed := s.past.freed + [h]))
  }

  function DoSpawnThread(s: State): State {
    var l := s.life;
    s.(life := l.(next := l.next + 1, running := l.running + {l.next}, starting := l.starting + {l.next}))
  }

  function DoSpawnBook(s: State, id: nat): State {
    var l := s.life.(starting := s.life.starting - {id});
    s.(life := if id in l.exited then l.(exited := l.exited - {id}) else l.(alive := l.alive + {id}))
  }

  /** All of hs put in one place. */
  function PutAll(place: map<nat, Place>, hs: seq<nat>, p: Place): map<nat, Place> {
    map h | h in place.Keys + (set x | x in hs) :: if h in hs then p else place[h]
  }

  function DoExit(s: State, id: nat): State {
    var l := s.life.(running := s.life.running - {id});
    s.(orphaned := s.orphaned + Inbox(s, id),
       inboxes := s.inboxes - {id},
       place := PutAll(s.place, Inbox(s, id), Orphaned),
       life := if id in l.alive then l.(alive := l.alive - {id}) else l.(exited := l.exited + {id}))
  }

  function Gathered(s: State, order: seq<nat>): seq<nat> {
    if order == [] then []
    else Gathered(s, order[..|order| - 1]) + Inbox(s, order[|order| - 1])
  }

  function Owned(s: State, order: seq<nat>): seq<nat> {
    s.orphaned + (if s.broadcast != 0 then [s.broadcast] else []) + Gathered(s, order) + Clones(s.posts)
  }

  function DoClose(s: State, order: seq<nat>): State {
    s.(closed := true, free := Owned(s, order),
       orphaned := [], broadcast := 0, inboxes := map[], posts := [],
       place := PutAll(s.place, Owned(s, order), Freeing))
  }

  function DoCloseFree(s: State): State
    requires s.free != []
  {
    s.(free := s.free[1..], place := s.place[s.free[0] := Freed],
       past := s.past.(freed := s.past.freed + [s.free[0]]))
  }

  function Apply(s: State, step: Step): State
    requires Enabled(s, step)
  {
    match step
    case SendWrite(to) => DoWrite(s, Sending(to))
    case SendAppend(h) => DoSendAppend(s, h, s.place[h].to)
    case BroadcastWrite => DoWrite(s, Announcing)
    case BroadcastLatch(h) => DoLatch(s, h)
    case InboxTake(id) => DoInboxTake(s, id)
    case PostWrite(id) => DoWrite(s, Posting(id))
    case PostAppend(h) => DoPostAppend(s, h, s.place[h].agent)
    case ReceivePop => DoReceivePop(s)
    case ReceiveFree(h) => DoReceiveFree(s, h)
    case ReceiveFail(h) => s.(place := s.place[h := Lost])
    case SpawnThread => DoSpawnThread(s)
    case SpawnBook(id) => DoSpawnBook(s, id)
    case Exit(id) => DoExit(s, id)
    case Close(order) => DoClose(s, order)
    case CloseFree => DoCloseFree(s)
  }

  /** Every run; a step that cannot be taken is passed over. */
  function After(steps: seq<Step>): State {
    if steps == [] then INIT
    else
      var s, step := After(steps[..|steps| - 1]), steps[|steps| - 1];
      if Enabled(s, step) then Apply(s, step) else s
  }

  // ---------------------------------------------------------------- custody

  /** q holds exactly the handles in place p, each once. */
  ghost predicate Holds(place: map<nat, Place>, q: seq<nat>, p: Place) {
    Distinct(q) && forall h :: h in q <==> IsAt(place, h, p)
  }

  ghost predicate InboxesHold(s: State) {
    forall id :: Holds(s.place, Inbox(s, id), Queued(id))
  }

  function Latch(s: State): seq<nat> {
    if s.broadcast != 0 then [s.broadcast] else []
  }

  /** Every handle the cluster refers to is in the one place that says so. */
  ghost predicate Custody(s: State) {
    && s.next >= 1 && (forall h :: h in s.place <==> 1 <= h < s.next)
    && (!s.closed ==> s.free == [])
    && InboxesHold(s)
    && Holds(s.place, Clones(s.posts), Posted)
    && Holds(s.place, s.orphaned, Orphaned)
    && Holds(s.place, Latch(s), Latched)
    && Holds(s.place, s.free, Freeing)
    && Holds(s.place, s.past.freed, Freed)
  }

  /** A handle moving between other places does not matter to p. */
  lemma Kept(place: map<nat, Place>, q: seq<nat>, p: Place, h: nat, p': Place)
    requires Holds(place, q, p) && !IsAt(place, h, p) && p' != p
    ensures Holds(place[h := p'], q, p)
  {
    forall x
      ensures IsAt(place[h := p'], x, p) <==> IsAt(place, x, p)
    {
    }
  }

  lemma Pushed(place: map<nat, Place>, q: seq<nat>, p: Place, h: nat)
    requires Holds(place, q, p) && !IsAt(place, h, p)
    ensures Holds(place[h := p], q + [h], p)
  {
    assert h !in q;
    forall x
      ensures x in q + [h] <==> IsAt(place[h := p], x, p)
    {
      assert x in q <==> IsAt(place, x, p);
    }
  }

  lemma Popped(place: map<nat, Place>, q: seq<nat>, p: Place, p': Place)
    requires Holds(place, q, p) && q != [] && p' != p
    ensures IsAt(place, q[0], p) && Holds(place[q[0] := p'], q[1..], p)
  {
    assert q[0] in q && q == [q[0]] + q[1..];
    forall x
      ensures x in q[1..] <==> IsAt(place[q[0] := p'], x, p)
    {
      assert x in q <==> IsAt(place, x, p);
    }
  }

  /** The clauses of Custody that a change of one handle's place does not touch. */
  ghost predicate OthersKept(s: State, h: nat, p: Place, p': Place) {
    var place' := s.place[h := p'];
    && (forall id :: Queued(id) != p && Queued(id) != p' ==> Holds(place', Inbox(s, id), Queued(id)))
    && (Posted != p && Posted != p' ==> Holds(place', Clones(s.posts), Posted))
    && (Orphaned != p && Orphaned != p' ==> Holds(place', s.orphaned, Orphaned))
    && (Latched != p && Latched != p' ==> Holds(place', Latch(s), Latched))
    && (Freeing != p && Freeing != p' ==> Holds(place', s.free, Freeing))
    && (Freed != p && Freed != p' ==> Holds(place', s.past.freed, Freed))
  }

  lemma KeepOthers(s: State, h: nat, p: Place, p': Place)
    requires Custody(s) && (h !in s.place || s.place[h] == p)
    ensures OthersKept(s, h, p, p')
  {
    var place' := s.place[h := p'];
    forall id | Queued(id) != p && Queued(id) != p'
      ensures Holds(place', Inbox(s, id), Queued(id))
    {
      Kept(s.place, Inbox(s, id), Queued(id), h, p');
    }
    if Posted != p && Posted != p' { Kept(s.place, Clones(s.posts), Posted, h, p'); }
    if Orphaned != p && Orphaned != p' { Kept(s.place, s.orphaned, Orphaned, h, p'); }
    if Latched != p && Latched != p' { Kept(s.place, Latch(s), Latched, h, p'); }
    if Freeing != p && Freeing != p' { Kept(s.place, s.free, Freeing, h, p'); }
    if Freed != p && Freed != p' { Kept(s.place, s.past.freed, Freed, h, p'); }
  }

  /** A handle held by a call in progress. */
  predicate InCall(p: Place) {
    p.Sending? || p.Posting? || p.Announcing? || p.Reading? || p.Lost?
  }

  lemma WriteKeeps(s: State, p: Place)
    requires Custody(s) && InCall(p)
    ensures Custody(DoWrite(s, p))
  {
    KeepOthers(s, s.next, p, p);
  }

  lemma FailKeeps(s: State, h: nat)
    requires Custody(s) && IsAt(s.place, h, Reading)
    ensures Custody(s.(place := s.place[h := Lost]))
  {
    KeepOthers(s, h, Reading, Lost);
  }

  lemma SendAppendKeeps(s: State, h: nat, to: nat)
    requires Custody(s) && IsAt(s.place, h, Sending(to))
    ensures Custody(DoSendAppend(s, h, to))
  {
    KeepOthers(s, h, Sending(to), Queued(to));
    Pushed(s.place, Inbox(s, to), Queued(to), h);
  }

  lemma LatchKeeps(s: State, h: nat)
    requires Custody(s) && IsAt(s.place, h, Announcing)
    ensures Custody(DoLatch(s, h))
  {
    var mid := if s.broadcast != 0 then s.(broadcast := 0, place := s.place[s.broadcast := Superseded]) else s;
    if s.broadcast != 0 {
      assert s.broadcast in Latch(s);
      KeepOthers(s, s.broadcast, Latched, Superseded);
      Popped(s.place, Latch(s), Latched, Superseded);
    }
    assert Custody(mid);
    KeepOthers(mid, h, Announcing, Latched);
    Pushed(mid.place, [], Latched, h);
  }

  lemma InboxTakeKeeps(s: State, id: nat)
    requires Custody(s) && Inbox(s, id) != []
    ensures Custody(DoInboxTake(s, id))
  {
    var h := Inbox(s, id)[0];
    Popped(s.place, Inbox(s, id), Queued(id), Delivered(id));
    KeepOthers(s, h, Queued(id), Delivered(id));
  }

  lemma ClonesOf(posts: seq<Post>, x: Post)
    ensures Clones(posts + [x]) == Clones(posts) + [x.clone]
    ensures posts != [] ==> Clones(posts[1..]) == Clones(posts)[1..]
  {
  }

  lemma PostAppendKeeps(s: State, h: nat, id: nat)
    requires Custody(s) && IsAt(s.place, h, Posting(id))
    ensures Custody(DoPostAppend(s, h, id))
  {
    KeepOthers(s, h, Posting(id), Posted);
    Pushed(s.place, Clones(s.posts), Posted, h);
    ClonesOf(s.posts, Post(id, h));
  }

  lemma ReceivePopKeeps(s: State)
    requires Custody(s) && s.posts != []
    ensures Custody(DoReceivePop(s))
  {
    Popped(s.place, Clones(s.posts), Posted, Reading);
    KeepOthers(s, s.posts[0].clone, Posted, Reading);
    ClonesOf(s.posts, s.posts[0]);
  }

  lemma ReceiveFreeKeeps(s: State, h: nat)
    requires Custody(s) && IsAt(s.place, h, Reading)
    ensures Custody(DoReceiveFree(s, h))
  {
    KeepOthers(s, h, Reading, Freed);
    Pushed(s.place, s.past.freed, Freed, h);
  }

  lemma CloseFreeKeeps(s: State)
    requires Custody(s) && s.free != []
    ensures Custody(DoCloseFree(s))
  {
    Popped(s.place, s.free, Freeing, Freed);
    KeepOthers(s, s.free[0], Freeing, Freed);
    Pushed(s.place, s.past.freed, Freed, s.free[0]);
  }

  // ---------------------------------------------------------------- moving many handles at once

  lemma AllKept(place: map<nat, Place>, q: seq<nat>, p: Place, hs: seq<nat>, p': Place)
    requires Holds(place, q, p) && p' != p
    requires forall h :: h in hs ==> !IsAt(place, h, p)
    ensures Holds(PutAll(place, hs, p'), q, p)
  {
    forall x
      ensures IsAt(PutAll(place, hs, p'), x, p) <==> IsAt(place, x, p)
    {
    }
  }

  lemma DistinctConcat(a: seq<nat>, b: seq<nat>)
    requires Distinct(a) && Distinct(b) && forall h :: h in b ==> h !in a
    ensures Distinct(a + b)
  {
    var q := a + b;
    forall i, j | 0 <= i < j < |q|
      ensures q[i] != q[j]
    {
      if i < |a| <= j {
        assert q[i] in a && q[j] == b[j - |a|] && q[j] in b;
      }
    }
  }

  lemma AllPushed(place: map<nat, Place>, q: seq<nat>, p: Place, hs: seq<nat>)
    requires Holds(place, q, p) && Distinct(hs)
    requires forall h :: h in hs ==> !IsAt(place, h, p)
    ensures Holds(PutAll(place, hs, p), q + hs, p)
  {
    DistinctConcat(q, hs);
    forall x
      ensures x in q + hs <==> IsAt(PutAll(place, hs, p), x, p)
    {
      assert x in q <==> IsAt(place, x, p);
    }
  }

  lemma ExitKeeps(s: State, id: nat)
    requires Custody(s)
    ensures Custody(DoExit(s, id))
  {
    var hs := Inbox(s, id);
    assert forall h :: h in hs ==> IsAt(s.place, h, Queued(id));
    AllPushed(s.place, s.orphaned, Orphaned, hs);
    AllKept(s.place, Clones(s.posts), Posted, hs, Orphaned);
    AllKept(s.place, Latch(s), Latched, hs, Orphaned);
    AllKept(s.place, s.free, Freeing, hs, Orphaned);
    AllKept(s.place, s.past.freed, Freed, hs, Orphaned);
    forall other
      ensures Holds(PutAll(s.place, hs, Orphaned), Inbox(DoExit(s, id), other), Queued(other))
    {
      if other != id {
        AllKept(s.place, Inbox(s, other), Queued(other), hs, Orphaned);
      }
    }
  }

  lemma {:induction false} GatheredHolds(s: State, order: seq<nat>)
    requires InboxesHold(s) && Distinct(order)
    ensures Distinct(Gathered(s, order))
    ensures forall h :: h in Gathered(s, order) <==> h in s.place && s.place[h].Queued? && s.place[h].to in order
  {
    if order != [] {
      var init, id := order[..|order| - 1], order[|order| - 1];
      assert order == init + [id] && id !in init;
      GatheredHolds(s, init);
      var box := Inbox(s, id);
      assert Holds(s.place, box, Queued(id));
      forall h | h in box
        ensures h !in Gathered(s, init)
      {
        assert IsAt(s.place, h, Queued(id));
      }
      DistinctConcat(Gathered(s, init), box);
      forall h
        ensures h in box <==> h in s.place && s.place[h].Queued? && s.place[h].to == id
      {
        assert h in box <==> IsAt(s.place, h, Queued(id));
      }
    }
  }

  /** The places close takes handles from. */
  predicate Takeable(p: Place) {
    p.Queued? || p.Posted? || p.Orphaned? || p.Latched?
  }

  lemma OwnedHolds(s: State, order: seq<nat>)
    requires Custody(s) && IsOrder(s, order)
    ensures Distinct(Owned(s, order))
    ensures forall h :: h in Owned(s, order) <==> h in s.place && Takeable(s.place[h])
  {
    GatheredHolds(s, order);
    forall h | h in s.place && s.place[h].Queued?
      ensures s.place[h].to in order
    {
      assert h in Inbox(s, s.place[h].to) <==> IsAt(s.place, h, Queued(s.place[h].to));
    }
    var a, b, c, d := s.orphaned, Latch(s), Gathered(s, order), Clones(s.posts);
    DistinctConcat(a, b);
    DistinctConcat(a + b, c);
    DistinctConcat(a + b + c, d);
    forall h
      ensures h in Owned(s, order) <==> h in s.place && Takeable(s.place[h])
    {
      assert h in a <==> IsAt(s.place, h, Orphaned);
      assert h in b <==> IsAt(s.place, h, Latched);
      assert h in d <==> IsAt(s.place, h, Posted);
    }
  }

  lemma CloseKeeps(s: State, order: seq<nat>)
    requires Custody(s) && !s.closed && IsOrder(s, order)
    ensures Custody(DoClose(s, order))
  {
    var hs := Owned(s, order);
    OwnedHolds(s, order);
    AllPushed(s.place, [], Freeing, hs);
    AllKept(s.place, s.past.freed, Freed, hs, Freeing);
    assert [] + hs == hs;
    forall h
      ensures h in PutAll(s.place, hs, Freeing) ==> !Takeable(PutAll(s.place, hs, Freeing)[h])
    {
    }
  }

  lemma StepKeeps(s: State, step: Step)
    requires Custody(s) && Enabled(s, step)
    ensures Custody(Apply(s, step))
  {
    match step
    case SendWrite(to) => WriteKeeps(s, Sending(to));
    case SendAppend(h) => SendAppendKeeps(s, h, s.place[h].to);
    case BroadcastWrite => WriteKeeps(s, Announcing);
    case BroadcastLatch(h) => LatchKeeps(s, h);
    case InboxTake(id) => InboxTakeKeeps(s, id);
    case PostWrite(id) => WriteKeeps(s, Posting(id));
    case PostAppend(h) => PostAppendKeeps(s, h, s.place[h].agent);
    case ReceivePop => ReceivePopKeeps(s);
    case ReceiveFree(h) => ReceiveFreeKeeps(s, h);
    case ReceiveFail(h) => FailKeeps(s, h);
    case SpawnThread =>
    case SpawnBook(id) =>
    case Exit(id) => ExitKeeps(s, id);
    case Close(order) => CloseKeeps(s, order);
    case CloseFree => CloseFreeKeeps(s);
  }

  /** In every run, every handle the cluster refers to is held once and in one place. */
  lemma {:induction false} Invariant(steps: seq<Step>)
    ensures Custody(After(steps))
  {
    if steps != [] {
      var s, step := After(steps[..|steps| - 1]), steps[|steps| - 1];
      Invariant(steps[..|steps| - 1]);
      if Enabled(s, step) {
        StepKeeps(s, step);
      }
    }
  }

  // ---------------------------------------------------------------- where handles end

  predicate SentPlace(p: Place, to: nat) {
    p == Queued(to) || p == Delivered(to) || p.Orphaned? || p.Freeing? || p.Freed?
  }

  predicate PostPlace(p: Place) {
    p.Posted? || p.Reading? || p.Freeing? || p.Freed? || p.Lost?
  }

  /** Not yet with the cluster. */
  predicate Pending(p: Place) {
    p.Sending? || p.Posting? || p.Announcing?
  }

  predicate EarlyPlace(p: Place, closed: bool) {
    !Pending(p) && (closed ==> !Takeable(p))
  }

  /** Where each handle of the history can be by now. */
  ghost predicate Trails(place: map<nat, Place>, past: History, closed: bool) {
    && (forall m :: m in past.sent ==> m.clone in place && SentPlace(place[m.clone], m.to))
    && (forall x :: x in past.posted ==> x.clone in place && PostPlace(place[x.clone]))
    && (forall m :: m in past.delivered ==> IsAt(place, m.clone, Delivered(m.to)))
    && (forall i, j :: 0 <= i < j < |past.delivered| ==> past.delivered[i].clone != past.delivered[j].clone)
    && (forall h :: h in past.early ==> h in place && EarlyPlace(place[h], closed))
  }

  ghost predicate Trail(s: State) {
    Trails(s.place, s.past, s.closed)
  }

  /** The only moves a handle makes. */
  predicate Onward(p: Place, p': Place) {
    match p
    case Sending(to) => p' == Queued(to)
    case Posting(_) => p'.Posted?
    case Announcing => p'.Latched?
    case Queued(to) => p' == Delivered(to) || p'.Orphaned? || p'.Freeing?
    case Posted => p'.Reading? || p'.Freeing?
    case Orphaned => p'.Freeing?
    case Latched => p'.Superseded? || p'.Freeing?
    case Reading => p'.Freed? || p'.Lost?
    case Freeing => p'.Freed?
    case _ => false
  }

  predicate Follows(p: Place, p': Place) {
    p' == p || Onward(p, p')
  }

  lemma FollowsTrail(p: Place, p': Place, to: nat, closed: bool)
    requires Follows(p, p')
    ensures SentPlace(p, to) ==> SentPlace(p', to)
    ensures PostPlace(p) ==> PostPlace(p')
    ensures p == Delivered(to) ==> p' == p
    ensures EarlyPlace(p, closed) ==> EarlyPlace(p', closed)
  {
  }

  ghost predicate AllFollow(place: map<nat, Place>, place': map<nat, Place>) {
    forall h :: h in place ==> h in place' && Follows(place[h], place'[h])
  }

  lemma TrailFollows(place: map<nat, Place>, place': map<nat, Place>, past: History, closed: bool)
    requires Trails(place, past, closed) && AllFollow(place, place')
    ensures Trails(place', past, closed)
  {
    forall m | m in past.sent
      ensures m.clone in place' && SentPlace(place'[m.clone], m.to)
    {
      FollowsTrail(place[m.clone], place'[m.clone], m.to, closed);
    }
    forall x | x in past.posted
      ensures x.clone in place' && PostPlace(place'[x.clone])
    {
      FollowsTrail(place[x.clone], place'[x.clone], 0, closed);
    }
    forall m | m in past.delivered
      ensures IsAt(place', m.clone, Delivered(m.to))
    {
      FollowsTrail(place[m.clone], place'[m.clone], m.to, closed);
    }
    forall h | h in past.early
      ensures h in place' && EarlyPlace(place'[h], closed)
    {
      FollowsTrail(place[h], place'[h], 0, closed);
    }
  }

  lemma TrailMoves(place: map<nat, Place>, past: History, closed: bool, h: nat, p': Place)
    requires Trails(place, past, closed) && (h in place ==> Onward(place[h], p'))
    ensures Trails(place[h := p'], past, closed)
  {
    TrailFollows(place, place[h := p'], past, closed);
  }

  lemma TrailMovesAll(place: map<nat, Place>, past: History, closed: bool, hs: seq<nat>, p': Place)
    requires Trails(place, past, closed) && forall h :: h in hs ==> h in place && Onward(place[h], p')
    ensures Trails(PutAll(place, hs, p'), past, closed)
  {
    TrailFollows(place, PutAll(place, hs, p'), past, closed);
  }

  lemma SendAppendTrail(s: State, h: nat, to: nat)
    requires Trail(s) && IsAt(s.place, h, Sending(to))
    ensures Trail(DoSendAppend(s, h, to))
  {
    TrailMoves(s.place, s.past, s.closed, h, Queued(to));
  }

  lemma InboxTakeTrail(s: State, id: nat)
    requires Custody(s) && Trail(s) && Inbox(s, id) != []
    ensures Trail(DoInboxTake(s, id))
  {
    var h := Inbox(s, id)[0];
    Popped(s.place, Inbox(s, id), Queued(id), Delivered(id));
    TrailMoves(s.place, s.past, s.closed, h, Delivered(id));
    forall m | m in s.past.delivered
      ensures m.clone != h
    {
      assert IsAt(s.place, m.clone, Delivered(m.to));
    }
  }

  lemma PostAppendTrail(s: State, h: nat, id: nat)
    requires Trail(s) && IsAt(s.place, h, Posting(id))
    ensures Trail(DoPostAppend(s, h, id))
  {
    TrailMoves(s.place, s.past, s.closed, h, Posted);
  }

  lemma LatchTrail(s: State, h: nat)
    requires Custody(s) && Trail(s) && IsAt(s.place, h, Announcing)
    ensures Trail(DoLatch(s, h))
  {
    if s.broadcast != 0 {
      assert s.broadcast in Latch(s);
      TrailMoves(s.place, s.past, s.closed, s.broadcast, Superseded);
      TrailMoves(s.place[s.broadcast := Superseded], s.past, s.closed, h, Latched);
    } else {
      TrailMoves(s.place, s.past, s.closed, h, Latched);
    }
  }

  lemma ExitTrail(s: State, id: nat)
    requires Custody(s) && Trail(s)
    ensures Trail(DoExit(s, id))
  {
    assert Holds(s.place, Inbox(s, id), Queued(id));
    TrailMovesAll(s.place, s.past, s.closed, Inbox(s, id), Orphaned);
  }

  lemma CloseTrail(s: State, order: seq<nat>)
    requires Custody(s) && Trail(s) && IsOrder(s, order)
    ensures Trail(DoClose(s, order))
  {
    OwnedHolds(s, order);
    TrailMovesAll(s.place, s.past, s.closed, Owned(s, order), Freeing);
  }

  lemma CloseFreeTrail(s: State)
    requires Custody(s) && Trail(s) && s.free != []
    ensures Trail(DoCloseFree(s))
  {
    Popped(s.place, s.free, Freeing, Freed);
    TrailMoves(s.place, s.past, s.closed, s.free[0], Freed);
  }

  lemma ReceiveTrail(s: State, step: Step)
    requires Custody(s) && Trail(s) && Enabled(s, step) && (step.ReceivePop? || step.ReceiveFree? || step.ReceiveFail?)
    ensures Trail(Apply(s, step))
  {
    if step.ReceivePop? {
      Popped(s.place, Clones(s.posts), Posted, Reading);
      TrailMoves(s.place, s.past, s.closed, s.posts[0].clone, Reading);
    } else {
      TrailMoves(s.place, s.past, s.closed, step.clone, if step.ReceiveFree? then Freed else Lost);
    }
  }

  lemma WriteTrail(s: State, p: Place)
    requires Custody(s) && Trail(s)
    ensures Trail(DoWrite(s, p))
  {
    TrailMoves(s.place, s.past, s.closed, s.next, p);
  }

  lemma StepTrail(s: State, step: Step)
    requires Custody(s) && Trail(s) && Enabled(s, step)
    ensures Trail(Apply(s, step))
  {
    match step
    case SendWrite(to) => WriteTrail(s, Sending(to));
    case SendAppend(h) => SendAppendTrail(s, h, s.place[h].to);
    case BroadcastWrite => WriteTrail(s, Announcing);
    case BroadcastLatch(h) => LatchTrail(s, h);
    case InboxTake(id) => InboxTakeTrail(s, id);
    case PostWrite(id) => WriteTrail(s, Posting(id));
    case PostAppend(h) => PostAppendTrail(s, h, s.place[h].agent);
    case ReceivePop => ReceiveTrail(s, step);
    case ReceiveFree(h) => ReceiveTrail(s, step);
    case ReceiveFail(h) => ReceiveTrail(s, step);
    case SpawnThread =>
    case SpawnBook(id) =>
    case Exit(id) => ExitTrail(s, id);
    case Close(order) => CloseTrail(s, order);
    case CloseFree => CloseFreeTrail(s);
  }

  lemma {:induction false} TrailInvariant(steps: seq<Step>)
    ensures Trail(After(steps))
  {
    if steps != [] {
      var s, step := After(steps[..|steps| - 1]), steps[|steps| - 1];
      Invariant(steps[..|steps| - 1]);
      TrailInvariant(steps[..|steps| - 1]);
      if Enabled(s, step) {
        StepTrail(s, step);
      }
    }
  }

  // ---------------------------------------------------------------- the theorems on custody

  /** No handle is freed twice; and one that an agent was handed, it was handed once, and
      the cluster neither frees it nor keeps it. */
  lemma DeliveredIsTheAgents(steps: seq<Step>, i: nat)
    requires i < |After(steps).past.delivered|
    ensures var s := After(steps);
      && Distinct(s.past.freed)
      && !Refers(s, s.past.delivered[i].clone) && s.past.delivered[i].clone !in s.past.freed
      && (forall j :: 0 <= j < |s.past.delivered| && j != i ==>
            s.past.delivered[j].clone != s.past.delivered[i].clone)
  {
    var s := After(steps);
    Invariant(steps);
    TrailInvariant(steps);
    var m := s.past.delivered[i];
    assert m in s.past.delivered;
    ReferredPlace(s, m.clone);
  }

  /** The cluster still has the handle somewhere. */
  ghost predicate Refers(s: State, h: nat) {
    || (exists id :: h in Inbox(s, id)) || h in Clones(s.posts) || h in s.orphaned
    || h in Latch(s) || h in s.free
  }

  lemma ReferredPlace(s: State, h: nat)
    requires Custody(s)
    ensures Refers(s, h) <==> h in s.place && (Takeable(s.place[h]) || s.place[h].Freeing?)
    ensures h in s.past.freed <==> IsAt(s.place, h, Freed)
  {
    if h in s.place && s.place[h].Queued? {
      assert Holds(s.place, Inbox(s, s.place[h].to), Queued(s.place[h].to));
    }
    if id :| h in Inbox(s, id) {
      assert Holds(s.place, Inbox(s, id), Queued(id));
    }
    assert h in Clones(s.posts) <==> IsAt(s.place, h, Posted);
    assert h in s.orphaned <==> IsAt(s.place, h, Orphaned);
    assert h in Latch(s) <==> IsAt(s.place, h, Latched);
    assert h in s.free <==> IsAt(s.place, h, Freeing);
  }

  /** Once close has freed what it took, a handle that was sent before it was either
      delivered, to its addressee, or freed, and never both. */
  lemma SentIsSettled(steps: seq<Step>, m: Message)
    requires var s := After(steps); s.closed && s.free == [] && m in s.past.sent && m.clone in s.past.early
    ensures var s := After(steps); m in s.past.delivered <==> m.clone !in s.past.freed
  {
    var s := After(steps);
    Invariant(steps);
    TrailInvariant(steps);
    DeliveredInvariant(steps);
    ReferredPlace(s, m.clone);
    assert m.clone in s.free <==> IsAt(s.place, m.clone, Freeing);
  }

  /** Likewise a handle posted before close: freed, once no Receive is still reading it and
      unless one failed to. */
  lemma PostIsSettled(steps: seq<Step>, x: Post)
    requires var s := After(steps); s.closed && s.free == [] && x in s.past.posted && x.clone in s.past.early
    ensures var s := After(steps);
      && x.clone in s.place
      && (x.clone in s.past.freed <==> !s.place[x.clone].Reading? && !s.place[x.clone].Lost?)
  {
    var s := After(steps);
    Invariant(steps);
    TrailInvariant(steps);
    assert x.clone in s.free <==> IsAt(s.place, x.clone, Freeing);
    assert x.clone in s.past.freed <==> IsAt(s.place, x.clone, Freed);
  }

  /** What is in the agent's hands was delivered to it. */
  ghost predicate DeliveredLogged(s: State) {
    forall h :: h in s.place && s.place[h].Delivered? ==> Message(s.place[h].to, h) in s.past.delivered
  }

  lemma {:induction false} DeliveredInvariant(steps: seq<Step>)
    ensures DeliveredLogged(After(steps))
  {
    if steps != [] {
      DeliveredInvariant(steps[..|steps| - 1]);
      var s, step := After(steps[..|steps| - 1]), steps[|steps| - 1];
      if Enabled(s, step) {
        DeliveredStep(s, step);
      }
    }
  }

  lemma DeliveredStep(s: State, step: Step)
    requires DeliveredLogged(s) && Enabled(s, step)
    ensures DeliveredLogged(Apply(s, step))
  {
    if step.InboxTake? {
      var h := Inbox(s, step.id)[0];
      var d := s.past.delivered;
      assert (d + [Message(step.id, h)])[|d|] == Message(step.id, h);
    }
  }

  // ---------------------------------------------------------------- broadcasts

  /** Of the handles latched before close only the last is not superseded; it is the
      broadcast until close, which then takes it to be freed. */
  ghost predicate Latches(s: State) {
    var q := s.past.latched;
    && (forall i :: 0 <= i < |q| - 1 ==> IsAt(s.place, q[i], Superseded))
    && (!s.closed ==> s.broadcast == if q == [] then 0 else q[|q| - 1])
    && (q != [] ==>
          && q[|q| - 1] in s.place
          && var p := s.place[q[|q| - 1]]; if s.closed then p.Freeing? || p.Freed? else p.Latched?)
  }

  lemma LatchLatches(s: State, h: nat)
    requires Custody(s) && Latches(s) && IsAt(s.place, h, Announcing)
    ensures Latches(DoLatch(s, h))
  {
    if s.broadcast != 0 {
      assert s.broadcast in Latch(s);
    }
    var q, q' := s.past.latched, DoLatch(s, h).past.latched;
    if s.closed {
      assert forall i :: 0 <= i < |q| ==> q[i] != s.broadcast && q[i] != h;
    } else {
      assert forall i :: 0 <= i < |q'| - 1 ==> q'[i] == q[i];
    }
  }

  lemma CloseLatches(s: State, order: seq<nat>)
    requires Custody(s) && Latches(s) && !s.closed && IsOrder(s, order)
    ensures Latches(DoClose(s, order))
  {
    OwnedHolds(s, order);
  }

  lemma CloseFreeLatches(s: State)
    requires Custody(s) && Latches(s) && s.free != []
    ensures Latches(DoCloseFree(s))
  {
    Popped(s.place, s.free, Freeing, Freed);
  }

  lemma ExitLatches(s: State, id: nat)
    requires Custody(s) && Latches(s)
    ensures Latches(DoExit(s, id))
  {
    assert Holds(s.place, Inbox(s, id), Queued(id));
  }

  /** Steps that move one handle from a place that no latched handle is in. */
  lemma OneMoveLatches(s: State, s': State, h: nat, p: Place)
    requires Latches(s) && s'.place == s.place[h := p] && (h in s.place ==> !Broadcasts(s.place[h]))
    requires s'.past.latched == s.past.latched && s'.closed == s.closed && s'.broadcast == s.broadcast
    ensures Latches(s')
  {
  }

  predicate Broadcasts(p: Place) {
    p.Latched? || p.Superseded? || p.Freeing? || p.Freed?
  }

  lemma StepLatches(s: State, step: Step)
    requires Custody(s) && Latches(s) && Enabled(s, step)
    ensures Latches(Apply(s, step))
  {
    var s' := Apply(s, step);
    match step
    case SendWrite(to) => OneMoveLatches(s, s', s.next, Sending(to));
    case SendAppend(h) => OneMoveLatches(s, s', h, Queued(s.place[h].to));
    case BroadcastWrite => OneMoveLatches(s, s', s.next, Announcing);
    case BroadcastLatch(h) => LatchLatches(s, h);
    case InboxTake(id) =>
      Popped(s.place, Inbox(s, id), Queued(id), Delivered(id));
      OneMoveLatches(s, s', Inbox(s, id)[0], Delivered(id));
    case PostWrite(id) => OneMoveLatches(s, s', s.next, Posting(id));
    case PostAppend(h) => OneMoveLatches(s, s', h, Posted);
    case ReceivePop =>
      Popped(s.place, Clones(s.posts), Posted, Reading);
      OneMoveLatches(s, s', s.posts[0].clone, Reading);
    case ReceiveFree(h) => OneMoveLatches(s, s', h, Freed);
    case ReceiveFail(h) => OneMoveLatches(s, s', h, Lost);
    case SpawnThread =>
    case SpawnBook(id) =>
    case Exit(id) => ExitLatches(s, id);
    case Close(order) => CloseLatches(s, order);
    case CloseFree => CloseFreeLatches(s);
  }

  lemma {:induction false} LatchInvariant(steps: seq<Step>)
    ensures Latches(After(steps))
  {
    if steps != [] {
      var s, step := After(steps[..|steps| - 1]), steps[|steps| - 1];
      Invariant(steps[..|steps| - 1]);
      LatchInvariant(steps[..|steps| - 1]);
      if Enabled(s, step) {
        StepLatches(s, step);
      }
    }
  }

  /** Once close has freed what it took, a broadcast latched before it was freed exactly when
      no later one superseded it before the close. */
  lemma OnlyLastBroadcastFreed(steps: seq<Step>, i: nat)
    requires var s := After(steps); s.closed && s.free == [] && i < |s.past.latched|
    ensures var s := After(steps); s.past.latched[i] in s.past.freed <==> i == |s.past.latched| - 1
  {
    var s := After(steps);
    Invariant(steps);
    LatchInvariant(steps);
    var h := s.past.latched[i];
    assert h in s.past.freed <==> IsAt(s.place, h, Freed);
    assert h in s.free <==> IsAt(s.place, h, Freeing);
  }

  lemma {:induction false} SupersededForever(steps: seq<Step>, more: seq<Step>, h: nat)
    requires IsAt(After(steps).place, h, Superseded)
    ensures IsAt(After(steps + more).place, h, Superseded)
    decreases |more|
  {
    if more == [] {
      assert steps + more == steps;
    } else {
      var before, step := steps + more[..|more| - 1], more[|more| - 1];
      SupersededForever(steps, more[..|more| - 1], h);
      assert steps + more == before + [step];
      Invariant(before);
      if Enabled(After(before), step) {
        SupersededStays(After(before), step, h);
        AfterPush(before, step);
      } else {
        AfterSkip(before, step);
      }
    }
  }

  /** Superseded, a handle is freed at no time. */
  lemma SupersededNeverFreed(steps: seq<Step>, more: seq<Step>, h: nat)
    requires IsAt(After(steps).place, h, Superseded)
    ensures h !in After(steps + more).past.freed
  {
    SupersededForever(steps, more, h);
    NotFreed(steps + more, h);
  }

  lemma NotFreed(steps: seq<Step>, h: nat)
    requires IsAt(After(steps).place, h, Superseded)
    ensures h !in After(steps).past.freed
  {
    Invariant(steps);
    assert h in After(steps).past.freed <==> IsAt(After(steps).place, h, Freed);
  }

  lemma SupersededStays(s: State, step: Step, h: nat)
    requires Custody(s) && Enabled(s, step) && IsAt(s.place, h, Superseded)
    ensures IsAt(Apply(s, step).place, h, Superseded)
  {
    match step
    case InboxTake(id) => Popped(s.place, Inbox(s, id), Queued(id), Delivered(id));
    case ReceivePop => Popped(s.place, Clones(s.posts), Posted, Reading);
    case Exit(id) => assert Holds(s.place, Inbox(s, id), Queued(id));
    case Close(order) => OwnedHolds(s, order);
    case CloseFree => Popped(s.place, s.free, Freeing, Freed);
    case BroadcastLatch(x) =>
      if s.broadcast != 0 {
        assert s.broadcast in Latch(s);
      }
    case _ =>
  }

  lemma AfterPush(steps: seq<Step>, step: Step)
    requires Enabled(After(steps), step)
    ensures After(steps + [step]) == Apply(After(steps), step)
  {
    assert (steps + [step])[..|steps|] == steps;
  }

  lemma AfterSkip(steps: seq<Step>, step: Step)
    requires !Enabled(After(steps), step)
    ensures After(steps + [step]) == After(steps)
  {
    assert (steps + [step])[..|steps|] == steps;
  }

  /** Two broadcasts and a close: the first is never freed. */
  lemma FirstBroadcastNotFreed() returns (steps: seq<Step>)
    ensures var s := After(steps);
      s.closed && s.free == [] && s.past.latched == [1, 2] && 1 !in s.past.freed && 2 in s.past.freed
  {
    steps := LatchTwo();
    var s := After(steps);
    assert IsOrder(s, []);
    AfterPush(steps, Close([]));
    steps := steps + [Close([])];
    assert Gathered(s, []) == [] && Owned(s, []) == [2];
    AfterPush(steps, CloseFree);
    steps := steps + [CloseFree];
    OnlyLastBroadcastFreed(steps, 0);
    OnlyLastBroadcastFreed(steps, 1);
  }

  lemma LatchTwo() returns (steps: seq<Step>)
    ensures var s := After(steps);
      !s.closed && s.past.latched == [1, 2] && s.broadcast == 2 && s.free == []
      && s.inboxes == map[] && s.orphaned == [] && s.posts == []
  {
    AfterPush([], BroadcastWrite);
    AfterPush([] + [BroadcastWrite], BroadcastLatch(1));
    steps := [] + [BroadcastWrite] + [BroadcastLatch(1)];
    AfterPush(steps, BroadcastWrite);
    steps := steps + [BroadcastWrite];
    AfterPush(steps, BroadcastLatch(2));
    steps := steps + [BroadcastLatch(2)];
  }

  // ---------------------------------------------------------------- order and lifetimes

  lemma ToGrows(log: seq<Message>, m: Message, id: nat)
    ensures To(log + [m], id) == To(log, id) + if m.to == id then [m.clone] else []
  {
    assert (log + [m])[..|log|] == log;
  }

  ghost predicate InboxOrder(s: State, id: nat) {
    && To(s.past.delivered, id) <= To(s.past.sent, id)
    && (!s.closed && !Ended(s, id) ==> To(s.past.delivered, id) + Inbox(s, id) == To(s.past.sent, id))
  }

  ghost predicate LifeInv(l: Life) {
    && (forall id :: id in l.running || id in l.starting ==> id < l.next)
    && l.alive == l.running - l.starting
    && l.exited == l.starting - l.running
  }

  lemma SendAppendOrder(s: State, h: nat, to: nat, id: nat)
    requires InboxOrder(s, id)
    ensures InboxOrder(DoSendAppend(s, h, to), id)
  {
    ToGrows(s.past.sent, Message(to, h), id);
  }

  lemma InboxTakeOrder(s: State, taker: nat, id: nat)
    requires InboxOrder(s, id) && Inbox(s, taker) != [] && !s.closed && !Ended(s, taker)
    ensures InboxOrder(DoInboxTake(s, taker), id)
  {
    var d, box := To(s.past.delivered, id), Inbox(s, id);
    ToGrows(s.past.delivered, Message(taker, Inbox(s, taker)[0]), id);
    if taker == id {
      assert d + [box[0]] + box[1..] == d + box;
    }
  }

  lemma StepOrder(s: State, step: Step, id: nat)
    requires InboxOrder(s, id) && LifeInv(s.life) && Enabled(s, step)
    ensures InboxOrder(Apply(s, step), id)
  {
    if step.SendAppend? {
      SendAppendOrder(s, step.clone, s.place[step.clone].to, id);
    } else if step.InboxTake? {
      InboxTakeOrder(s, step.id, id);
    } else {
      OtherOrder(s, step, id);
    }
  }

  lemma OtherOrder(s: State, step: Step, id: nat)
    requires InboxOrder(s, id) && LifeInv(s.life) && Enabled(s, step) && !step.SendAppend? && !step.InboxTake?
    ensures InboxOrder(Apply(s, step), id)
  {
    var s' := Apply(s, step);
    assert s'.past.sent == s.past.sent && s'.past.delivered == s.past.delivered;
    assert Ended(s, id) ==> Ended(s', id);
    assert s'.closed || Ended(s', id) || Inbox(s', id) == Inbox(s, id);
  }

  lemma StepLife(s: State, step: Step)
    requires LifeInv(s.life) && Enabled(s, step)
    ensures LifeInv(Apply(s, step).life)
  {
  }

  lemma {:induction false} LifeInvariant(steps: seq<Step>)
    ensures LifeInv(After(steps).life)
  {
    if steps != [] {
      LifeInvariant(steps[..|steps| - 1]);
      var s, step := After(steps[..|steps| - 1]), steps[|steps| - 1];
      if Enabled(s, step) {
        StepLife(s, step);
      }
    }
  }

  /** First in, first out: until an agent ends or the cluster closes, what it has taken and
      what waits for it make up what was sent to it; and what it took is always a prefix. */
  lemma {:induction false} DeliveredInOrder(steps: seq<Step>, id: nat)
    ensures InboxOrder(After(steps), id)
  {
    if steps != [] {
      DeliveredInOrder(steps[..|steps| - 1], id);
      LifeInvariant(steps[..|steps| - 1]);
      var s, step := After(steps[..|steps| - 1]), steps[|steps| - 1];
      if Enabled(s, step) {
        StepOrder(s, step, id);
      }
    }
  }

  /** Until close, Receive has popped the posts in the order they were made, with their
      senders, and the rest wait. */
  lemma {:induction false} PostsInOrder(steps: seq<Step>)
    ensures var s := After(steps); !s.closed ==> s.past.popped + s.posts == s.past.posted
  {
    if steps != [] {
      PostsInOrder(steps[..|steps| - 1]);
      var s, step := After(steps[..|steps| - 1]), steps[|steps| - 1];
      if Enabled(s, step) && step.PostAppend? {
        var x := Post(s.place[step.clone].agent, step.clone);
        assert s.past.popped + (s.posts + [x]) == s.past.popped + s.posts + [x];
      } else if Enabled(s, step) && step.ReceivePop? {
        assert s.past.popped + [s.posts[0]] + s.posts[1..] == s.past.popped + s.posts;
      }
    }
  }

  /** Whichever of Spawn's bookkeeping and the agent's exit comes first, an agent that has
      ended and whose Spawn has returned is in neither set; one that runs is alive exactly
      when its Spawn has returned. */
  lemma SpawnAndExitAgree(steps: seq<Step>, id: nat)
    requires id < After(steps).life.next && id !in After(steps).life.starting
    ensures var l := After(steps).life;
      id !in l.exited && (id in l.alive <==> id in l.running)
  {
    LifeInvariant(steps);
  }
}
