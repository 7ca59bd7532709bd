/** The host key table of SubtleCrypto: a map of keys, a map of list elements and a
    recency list, evicting the least recently used key over the cap. */
module KeyTable {
  import opened Options

  const MAX_KEYS := 1024

  /** Ids are 52 bits, so that they survive a JavaScript number. */
  const ID_SPACE := 0x10_0000_0000_0000

  // -------------------------------------------------- what the table is for, on its history

  /** A use of a key since the last reset: put, or got with success. */
  datatype Use<K> = Put(id: int, key: K) | Got(id: int)

  /** q without id. */
  function Drop(q: seq<int>, id: int): seq<int> {
    if q == [] then []
    else if q[0] == id then Drop(q[1..], id)
    else [q[0]] + Drop(q[1..], id)
  }

  lemma {:induction false} DropIs(q: seq<int>, id: int)
    ensures forall x :: x in Drop(q, id) <==> x in q && x != id
    ensures id !in q ==> Drop(q, id) == q
  {
    if q != [] {
      assert q == [q[0]] + q[1..];
      DropIs(q[1..], id);
    }
  }

  /** The ids used, the latest first, each once. */
  function Recent<K>(uses: seq<Use<K>>): seq<int> {
    if uses == [] then []
    else
      var last := uses[|uses| - 1].id;
      [last] + Drop(Recent(uses[..|uses| - 1]), last)
  }

  function Top(q: seq<int>, cap: nat): seq<int> {
    if |q| <= cap then q else q[..cap]
  }

  /** The key last put under id. */
  function KeyOf<K>(uses: seq<Use<K>>, id: int): Option<K> {
    if uses == [] then None
    else
      var u := uses[|uses| - 1];
      if u.Put? && u.id == id then Some(u.key) else KeyOf(uses[..|uses| - 1], id)
  }

  predicate Distinct(q: seq<int>) {
    forall i, j :: 0 <= i < j < |q| ==> q[i] != q[j]
  }

  lemma {:induction false} DropDistinct(q: seq<int>, id: int)
    requires Distinct(q)
    ensures Distinct(Drop(q, id))
    ensures |Drop(q, id)| == |q| - if id in q then 1 else 0
  {
    if q != [] {
      assert q == [q[0]] + q[1..];
      DropDistinct(q[1..], id);
      DropIs(q[1..], id);
      assert forall j :: 0 < j < |q| ==> q[0] != q[j];
      assert q[0] !in Drop(q[1..], id);
    }
  }

  /** Dropping from a part is dropping from the whole, up to the part's end. */
  lemma {:induction false} DropTake(q: seq<int>, id: int, n: nat)
    requires n <= |q| && id !in q[..n]
    ensures |Drop(q, id)| >= n && Drop(q, id)[..n] == q[..n]
  {
    if n > 0 {
      assert q[..n] == [q[0]] + q[1..][..n - 1];
      DropTake(q[1..], id, n - 1);
    }
  }

  lemma {:induction false} DropConcat(a: seq<int>, b: seq<int>, id: int)
    ensures Drop(a + b, id) == Drop(a, id) + Drop(b, id)
  {
    if a == [] {
      assert a + b == b;
    } else {
      assert (a + b)[1..] == a[1..] + b;
      DropConcat(a[1..], b, id);
    }
  }

  lemma {:induction false} RecentDistinct<K>(uses: seq<Use<K>>)
    ensures Distinct(Recent(uses))
  {
    if uses != [] {
      RecentDistinct(uses[..|uses| - 1]);
      DropDistinct(Recent(uses[..|uses| - 1]), uses[|uses| - 1].id);
      DropIs(Recent(uses[..|uses| - 1]), uses[|uses| - 1].id);
    }
  }

  lemma RecentGrows<K>(uses: seq<Use<K>>, u: Use<K>)
    ensures Recent(uses + [u]) == [u.id] + Drop(Recent(uses), u.id)
    ensures forall id :: KeyOf(uses + [u], id) == if u.Put? && u.id == id then Some(u.key) else KeyOf(uses, id)
  {
    assert (uses + [u])[..|uses|] == uses;
  }

  /** A use of an id on top keeps the others that were there. */
  lemma TopOfGot(q: seq<int>, id: int, cap: nat)
    requires Distinct(q) && id in Top(q, cap)
    ensures Top([id] + Drop(q, id), cap) == [id] + Drop(Top(q, cap), id)
  {
    var top := Top(q, cap);
    var rest := q[|top|..];
    assert q == top + rest;
    DropConcat(top, rest, id);
    DropDistinct(top, id);
    assert id !in rest;
    DropIs(rest, id);
  }

  /** A use of an id that was not pushes the last one out, if full. */
  lemma TopOfPut(q: seq<int>, id: int, cap: nat)
    requires cap > 0 && id !in Top(q, cap)
    ensures Top([id] + Drop(q, id), cap) ==
            [id] + if |Top(q, cap)| < cap then Top(q, cap) else Top(q, cap)[..cap - 1]
  {
    var r := [id] + Drop(q, id);
    if |q| < cap {
      DropIs(q, id);
    } else {
      assert q[..cap - 1] == Top(q, cap)[..cap - 1];
      DropTake(q, id, cap - 1);
      assert r[..cap] == [id] + Drop(q, id)[..cap - 1];
    }
  }

  function Ids<K>(uses: seq<Use<K>>): set<int> {
    set i | 0 <= i < |uses| :: uses[i].id
  }

  /** Of the uses after the last one of id: they are what stands before it in Recent. */
  lemma {:induction false} BeforeInRecent<K>(uses: seq<Use<K>>, i: nat) returns (p: nat)
    requires i < |uses| && uses[i].id !in Ids(uses[i + 1..])
    ensures p < |Recent(uses)| && Recent(uses)[p] == uses[i].id
    ensures forall x :: x in Recent(uses)[..p] <==> x in Ids(uses[i + 1..])
    decreases |uses|
  {
    var init, last := uses[..|uses| - 1], uses[|uses| - 1].id;
    var id := uses[i].id;
    if i == |uses| - 1 {
      p := 0;
    } else {
      assert uses[i + 1..] == init[i + 1..] + [uses[|uses| - 1]];
      IdsGrow(init[i + 1..], uses[|uses| - 1]);
      var p0 := BeforeInRecent(init, i);
      var q := Recent(init);
      assert q == q[..p0] + [id] + q[p0 + 1..];
      DropConcat(q[..p0] + [id], q[p0 + 1..], last);
      DropConcat(q[..p0], [id], last);
      DropIs(q[..p0], last);
      p := 1 + |Drop(q[..p0], last)|;
      assert Recent(uses)[..p] == [last] + Drop(q[..p0], last);
    }
  }

  lemma IdsGrow<K>(uses: seq<Use<K>>, u: Use<K>)
    ensures Ids(uses + [u]) == Ids(uses) + {u.id}
  {
    var all := uses + [u];
    forall x
      ensures x in Ids(all) <==> x in Ids(uses) || x == u.id
    {
      if x in Ids(uses) {
        var i :| 0 <= i < |uses| && uses[i].id == x;
        assert all[i].id == x;
      }
      assert all[|uses|] == u;
    }
  }

  lemma {:induction false} SizeOfDistinct(q: seq<int>, s: set<int>)
    requires Distinct(q) && forall x :: x in q <==> x in s
    ensures |s| == |q|
  {
    if q == [] {
      assert forall x :: x in s ==> x in q;
      assert s == {};
    } else {
      assert q == [q[0]] + q[1..];
      SizeOfDistinct(q[1..], s - {q[0]});
    }
  }

  /** A key is lost exactly when as many other ids as the table holds have been used since
      it last was. */
  lemma LostAfterOthers<K>(uses: seq<Use<K>>, i: nat, cap: nat)
    requires i < |uses| && uses[i].id !in Ids(uses[i + 1..])
    ensures uses[i].id in Top(Recent(uses), cap) <==> |Ids(uses[i + 1..])| < cap
  {
    var q := Recent(uses);
    RecentDistinct(uses);
    var p := BeforeInRecent(uses, i);
    SizeOfDistinct(q[..p], Ids(uses[i + 1..]));
    InTop(q, p, cap);
  }

  lemma InTop(q: seq<int>, p: nat, cap: nat)
    requires Distinct(q) && p < |q|
    ensures q[p] in Top(q, cap) <==> p < cap
  {
    if p < cap {
      assert Top(q, cap)[p] == q[p];
    }
  }

  /** Use i is the last one of id. */
  predicate LastUse<K>(uses: seq<Use<K>>, i: nat, id: int) {
    i < |uses| && uses[i].id == id && id !in Ids(uses[i + 1..])
  }

  lemma {:induction false} LastUseOf<K>(uses: seq<Use<K>>, id: int) returns (i: nat)
    requires id in Recent(uses)
    ensures LastUse(uses, i, id)
    decreases |uses|
  {
    var n := |uses| - 1;
    if uses[n].id == id {
      i := n;
    } else {
      DropIs(Recent(uses[..n]), uses[n].id);
      i := LastUseOf(uses[..n], id);
      assert uses[i + 1..] == uses[..n][i + 1..] + [uses[n]];
      IdsGrow(uses[..n][i + 1..], uses[n]);
    }
  }

  /** Fewer than cap other ids were used since the last use of id. */
  ghost predicate InReach<K(!new)>(uses: seq<Use<K>>, id: int, cap: nat) {
    exists i :: LastUse(uses, i, id) && |Ids(uses[i + 1..])| < cap
  }

  lemma TopIsReach<K(!new)>(uses: seq<Use<K>>, id: int, cap: nat)
    ensures id in Top(Recent(uses), cap) <==> InReach(uses, id, cap)
  {
    if id in Top(Recent(uses), cap) {
      assert id in Recent(uses);
      var i := LastUseOf(uses, id);
      LostAfterOthers(uses, i, cap);
    }
    if InReach(uses, id, cap) {
      var i :| LastUse(uses, i, id) && |Ids(uses[i + 1..])| < cap;
      LostAfterOthers(uses, i, cap);
    }
  }

  /** The key is that of the last put under id. */
  ghost predicate LastPut<K(!new)>(uses: seq<Use<K>>, id: int, key: K) {
    exists i :: 0 <= i < |uses| && uses[i] == Use.Put(id, key)
      && forall j :: i < j < |uses| ==> !(uses[j].Put? && uses[j].id == id)
  }

  lemma {:induction false} KeyIsLastPut<K(!new)>(uses: seq<Use<K>>, id: int)
    requires KeyOf(uses, id).Some?
    ensures LastPut(uses, id, KeyOf(uses, id).value)
    decreases |uses|
  {
    var n := |uses| - 1;
    if !(uses[n].Put? && uses[n].id == id) {
      KeyIsLastPut(uses[..n], id);
      var key := KeyOf(uses, id).value;
      var i :| 0 <= i < n && uses[..n][i] == Use.Put(id, key)
        && forall j :: i < j < n ==> !(uses[..n][j].Put? && uses[..n][j].id == id);
      assert uses[i] == Use.Put(id, key);
      forall j | i < j < |uses|
        ensures !(uses[j].Put? && uses[j].id == id)
      {
        assert j < n ==> uses[..n][j] == uses[j];
      }
    } else {
      assert uses[n] == Use.Put(id, KeyOf(uses, id).value);
    }
  }

  // -------------------------------------------------- the table

  /** A list element: its identity and the id it carries. */
  datatype Element = Element(tag: nat, id: int)

  function ListIds(lru: seq<Element>): (ids: seq<int>)
    ensures |ids| == |lru|
  {
    seq(|lru|, i requires 0 <= i < |lru| => lru[i].id)
  }

  function Unlink(lru: seq<Element>, e: Element): seq<Element> {
    if lru == [] then []
    else if lru[0] == e then lru[1..]
    else [lru[0]] + Unlink(lru[1..], e)
  }

  function MoveToFront(lru: seq<Element>, e: Element): seq<Element> {
    if e in lru then [e] + Unlink(lru, e) else lru
  }

  lemma IdOf(lru: seq<Element>, e: Element)
    requires e in lru
    ensures e.id in ListIds(lru)
  {
    var k :| 0 <= k < |lru| && lru[k] == e;
    assert ListIds(lru)[k] == e.id;
  }

  lemma ListIdsTail(lru: seq<Element>)
    requires lru != [] && Distinct(ListIds(lru))
    ensures lru == [lru[0]] + lru[1..] && ListIds(lru) == [lru[0].id] + ListIds(lru[1..])
    ensures Distinct(ListIds(lru[1..])) && lru[0].id !in ListIds(lru[1..])
    ensures lru[0] !in lru[1..]
  {
    var ids := ListIds(lru);
    assert ids[1..] == ListIds(lru[1..]);
    assert forall j :: 0 < j < |ids| ==> ids[0] != ids[j];
    if lru[0] in lru[1..] {
      IdOf(lru[1..], lru[0]);
    }
  }

  lemma {:induction false} UnlinkIds(lru: seq<Element>, e: Element)
    requires Distinct(ListIds(lru)) && e in lru
    ensures ListIds(Unlink(lru, e)) == Drop(ListIds(lru), e.id)
    ensures forall x :: x in Unlink(lru, e) <==> x in lru && x != e
  {
    ListIdsTail(lru);
    if lru[0] == e {
      DropIs(ListIds(lru[1..]), e.id);
    } else {
      UnlinkIds(lru[1..], e);
      IdOf(lru[1..], e);
      assert ListIds(Unlink(lru, e)) == [lru[0].id] + ListIds(Unlink(lru[1..], e));
    }
  }

  /** The element map sends exactly the ids in the list each to its own element. */
  ghost predicate Indexed(elems: map<int, Element>, lru: seq<Element>) {
    && (forall id :: id in elems ==> elems[id] in lru && elems[id].id == id)
    && (forall e :: e in lru ==> e.id in elems && elems[e.id] == e)
  }

  lemma IndexedIds(elems: map<int, Element>, lru: seq<Element>, id: int)
    requires Indexed(elems, lru)
    ensures id in elems <==> id in ListIds(lru)
  {
    var ids := ListIds(lru);
    if id in elems {
      var k :| 0 <= k < |lru| && lru[k] == elems[id];
      assert ids[k] == id;
    }
    if id in ids {
      var k :| 0 <= k < |ids| && ids[k] == id;
      assert lru[k] in lru;
    }
  }

  lemma PushedIndexed(elems: map<int, Element>, lru: seq<Element>, e: Element)
    requires Indexed(elems, lru) && e.id !in elems
    ensures Indexed(elems[e.id := e], [e] + lru)
  {
  }

  lemma UnlinkedIndexed(elems: map<int, Element>, lru: seq<Element>, e: Element)
    requires Indexed(elems, lru) && Distinct(ListIds(lru)) && e in lru
    ensures Indexed(elems - {e.id}, Unlink(lru, e))
  {
    UnlinkIds(lru, e);
  }

  lemma {:induction false} UnlinkLast(lru: seq<Element>)
    requires lru != [] && Distinct(ListIds(lru))
    ensures Unlink(lru, lru[|lru| - 1]) == lru[..|lru| - 1]
  {
    if |lru| > 1 {
      var ids := ListIds(lru);
      assert ListIds(lru[1..]) == ids[1..] && ids[0] != ids[|ids| - 1];
      UnlinkLast(lru[1..]);
      assert lru[..|lru| - 1] == [lru[0]] + lru[1..][..|lru| - 2];
    }
  }

  /** The first usable of the ids drawn, if any: neither zero nor taken. */
  function Drawn(draws: seq<nat>, used: set<int>): Option<int> {
    if draws == [] then None
    else if draws[0] % ID_SPACE == 0 || draws[0] % ID_SPACE in used then Drawn(draws[1..], used)
    else Some(draws[0] % ID_SPACE)
  }

  /** The low 52 bits of draw j, the first that are neither zero nor an id in use. */
  predicate IsDraw(draws: seq<nat>, used: set<int>, j: nat, id: int) {
    && j < |draws| && id == draws[j] % 0x10_0000_0000_0000 && id != 0 && id !in used
    && forall l :: 0 <= l < j ==> draws[l] % 0x10_0000_0000_0000 == 0 || draws[l] % 0x10_0000_0000_0000 in used
  }

  lemma {:induction false} DrawnIs(draws: seq<nat>, used: set<int>)
    ensures Drawn(draws, used).Some? ==> exists j: nat :: IsDraw(draws, used, j, Drawn(draws, used).value)
    ensures Drawn(draws, used).None? ==>
              forall l :: 0 <= l < |draws| ==>
                draws[l] % 0x10_0000_0000_0000 == 0 || draws[l] % 0x10_0000_0000_0000 in used
  {
    if draws != [] {
      if draws[0] % ID_SPACE == 0 || draws[0] % ID_SPACE in used {
        DrawnIs(draws[1..], used);
        if Drawn(draws, used).Some? {
          var j: nat :| IsDraw(draws[1..], used, j, Drawn(draws, used).value);
          forall l | 0 <= l < j + 1
            ensures draws[l] % ID_SPACE == 0 || draws[l] % ID_SPACE in used
          {
            assert l > 0 ==> draws[l] == draws[1..][l - 1];
          }
          assert IsDraw(draws, used, j + 1, Drawn(draws, used).value);
        } else {
          assert forall l :: 0 < l < |draws| ==> draws[l] == draws[1..][l - 1];
        }
      } else {
        assert IsDraw(draws, used, 0, Drawn(draws, used).value);
      }
    }
  }

  /** The list is of the most recently used ids there is room for. */
  predicate Listed<K>(lru: seq<Element>, uses: seq<Use<K>>, cap: nat) {
    ListIds(lru) == Top(Recent(uses), cap)
  }

  ghost predicate Stored<K(!new)>(keys: map<int, K>, uses: seq<Use<K>>) {
    forall id :: id in keys ==> KeyOf(uses, id) == Some(keys[id])
  }

  /** The three structures agree. */
  ghost predicate Agree<K(!new)>(
    keys: map<int, K>, elems: map<int, Element>, lru: seq<Element>, uses: seq<Use<K>>, cap: nat)
  {
    keys.Keys == elems.Keys && Indexed(elems, lru) && Listed(lru, uses, cap) && Stored(keys, uses)
  }

  lemma ListedDistinct<K>(lru: seq<Element>, uses: seq<Use<K>>, cap: nat)
    requires Listed(lru, uses, cap)
    ensures Distinct(ListIds(lru)) && |lru| <= cap
  {
    RecentDistinct(uses);
    assert |ListIds(lru)| == |lru|;
  }

  lemma AgreeSizes<K(!new)>(
    keys: map<int, K>, elems: map<int, Element>, lru: seq<Element>, uses: seq<Use<K>>, cap: nat)
    requires Agree(keys, elems, lru, uses, cap)
    ensures Distinct(ListIds(lru)) && |keys| == |lru| <= cap
    ensures forall id :: id in keys <==> id in ListIds(lru)
  {
    ListedDistinct(lru, uses, cap);
    forall id
      ensures id in keys <==> id in ListIds(lru)
    {
      IndexedIds(elems, lru, id);
    }
    SizeOfDistinct(ListIds(lru), keys.Keys);
    assert |keys| == |keys.Keys|;
  }

  lemma StoredGrows<K(!new)>(keys: map<int, K>, uses: seq<Use<K>>, id: int, key: K)
    requires Stored(keys, uses)
    ensures Stored(keys[id := key], uses + [Use.Put(id, key)])
    ensures Stored(keys, uses + [Use.Got(id)])
  {
    RecentGrows(uses, Use.Put(id, key));
    RecentGrows(uses, Use.Got(id));
  }

  /** The list after a new id is pushed and, over the cap, the last dropped. */
  function PushedList(lru: seq<Element>, e: Element, cap: nat): seq<Element> {
    if |lru| < cap then [e] + lru else ([e] + lru)[..|lru|]
  }

  lemma PutListed<K>(lru: seq<Element>, uses: seq<Use<K>>, e: Element, key: K, cap: nat)
    requires Listed(lru, uses, cap) && e.id !in ListIds(lru) && cap > 0
    ensures Listed(PushedList(lru, e, cap), uses + [Use.Put(e.id, key)], cap)
  {
    ListedDistinct(lru, uses, cap);
    RecentGrows(uses, Use.Put(e.id, key));
    TopOfPut(Recent(uses), e.id, cap);
    assert ListIds([e] + lru) == [e.id] + ListIds(lru);
    assert ListIds(([e] + lru)[..|lru|]) == ListIds([e] + lru)[..|lru|];
  }

  lemma GotListed<K>(lru: seq<Element>, uses: seq<Use<K>>, e: Element, cap: nat)
    requires Listed(lru, uses, cap) && e in lru
    ensures Listed(MoveToFront(lru, e), uses + [Use.Got(e.id)], cap)
  {
    ListedDistinct(lru, uses, cap);
    RecentGrows(uses, Use.Got(e.id));
    RecentDistinct(uses);
    IdOf(lru, e);
    TopOfGot(Recent(uses), e.id, cap);
    UnlinkIds(lru, e);
    assert ListIds([e] + Unlink(lru, e)) == [e.id] + ListIds(Unlink(lru, e));
  }

  lemma LastDropped(elems: map<int, Element>, lru: seq<Element>, e: Element)
    requires Indexed(elems, lru) && Distinct(ListIds(lru)) && e.id !in ListIds(lru)
    ensures var lru' := [e] + lru; Indexed(elems[e.id := e] - {lru'[|lru|].id}, lru'[..|lru|])
  {
    var lru' := [e] + lru;
    IndexedIds(elems, lru, e.id);
    PushedIndexed(elems, lru, e);
    assert ListIds(lru') == [e.id] + ListIds(lru);
    UnlinkedIndexed(elems[e.id := e], lru', lru'[|lru|]);
    UnlinkLast(lru');
  }

  lemma MovedIndexed(elems: map<int, Element>, lru: seq<Element>, e: Element)
    requires Indexed(elems, lru) && Distinct(ListIds(lru)) && e in lru
    ensures Indexed(elems, MoveToFront(lru, e))
  {
    UnlinkIds(lru, e);
  }

  lemma StoreKeeps<K(!new)>(keys: map<int, K>, elems: map<int, Element>, lru: seq<Element>, uses: seq<Use<K>>,
                            e: Element, key: K, cap: nat)
    requires Agree(keys, elems, lru, uses, cap) && e.id !in keys && cap > 0
    ensures var lru' := [e] + lru;
      var keys', elems', uses' := keys[e.id := key], elems[e.id := e], uses + [Use.Put(e.id, key)];
      && |keys'| == |lru| + 1 <= cap + 1
      && (|keys'| <= cap ==> Agree(keys', elems', lru', uses', cap))
      && (|keys'| > cap ==>
            Agree(keys' - {lru'[|lru|].id}, elems' - {lru'[|lru|].id}, lru'[..|lru|], uses', cap))
  {
    AgreeSizes(keys, elems, lru, uses, cap);
    StoredGrows(keys, uses, e.id, key);
    PutListed(lru, uses, e, key, cap);
    PushedIndexed(elems, lru, e);
    LastDropped(elems, lru, e);
  }

  class SubtleKeys<K(!new)> {
    var keys: map<int, K>
    var elems: map<int, Element>
    var lru: seq<Element>
    var elements: nat
    ghost var uses: seq<Use<K>>

    ghost predicate Valid()
      reads this
    {
      Agree(keys, elems, lru, uses, MAX_KEYS)
    }

    constructor ()
      ensures Valid() && uses == []
    {
      keys, elems, lru, elements, uses := map[], map[], [], 0, [];
    }

    /** Stores a key under a fresh id; without a usable draw the source would still be
        drawing. */
    method Put(key: K, draws: seq<nat>) returns (id: Option<int>)
      requires Valid()
      modifies this
      ensures Valid()
      ensures id == Drawn(draws, old(keys).Keys)
      ensures id.None? ==> uses == old(uses) && keys == old(keys)
      ensures id.Some? ==> exists j: nat :: IsDraw(draws, old(keys).Keys, j, id.value)
      ensures id.Some? ==> uses == old(uses) + [Use.Put(id.value, key)] && id.value !in old(keys)
    {
      DrawnIs(draws, keys.Keys);
      var i := 0;
      while i < |draws|
        invariant 0 <= i <= |draws| && keys == old(keys) && uses == old(uses) && Valid()
        invariant Drawn(draws, old(keys).Keys) == Drawn(draws[i..], old(keys).Keys)
      {
        var x := draws[i] % ID_SPACE;
        if x == 0 || x in keys {
          i := i + 1;
          continue;
        }
        Store(key, x);
        return Some(x);
      }
      id := None;
    }

    /** The body of Put's loop once the id is chosen. */
    method Store(key: K, id: int)
      requires Valid() && id !in keys
      modifies this
      ensures Valid() && uses == old(uses) + [Use.Put(id, key)]
    {
      var e := Element(elements, id);
      StoreKeeps(keys, elems, lru, uses, e, key, MAX_KEYS);
      keys := keys[id := key];
      elements := elements + 1;
      lru := [e] + lru;
      elems := elems[id := e];
      uses := uses + [Use.Put(id, key)];
      if |keys| > MAX_KEYS {
        var back := lru[|lru| - 1];
        lru := lru[..|lru| - 1];
        keys := keys - {back.id};
        elems := elems - {back.id};
      }
    }

    /** Finds exactly the ids among the most recently used, and counts as a use of them. */
    method Get(id: int) returns (key: Option<K>)
      requires Valid()
      modifies this
      ensures Valid() && keys == old(keys)
      ensures key.Some? <==> id in Top(Recent(old(uses)), MAX_KEYS)
      ensures key.Some? <==> InReach(old(uses), id, 1024)
      ensures key.Some? ==> LastPut(old(uses), id, key.value)
      ensures key.Some? ==> key == KeyOf(old(uses), id) && uses == old(uses) + [Use.Got(id)]
      ensures key.None? ==> uses == old(uses)
    {
      AgreeSizes(keys, elems, lru, uses, MAX_KEYS);
      TopIsReach(uses, id, MAX_KEYS);
      if id !in keys {
        return None;
      }
      KeyIsLastPut(uses, id);
      GotListed(lru, uses, elems[id], MAX_KEYS);
      MovedIndexed(elems, lru, elems[id]);
      StoredGrows(keys, uses, id, keys[id]);
      key := Some(keys[id]);
      lru := MoveToFront(lru, elems[id]);
      uses := uses + [Use.Got(id)];
    }

    method Reset()
      modifies this
      ensures Valid() && uses == [] && keys == map[]
    {
      keys, elems, lru, uses := map[], map[], [], [];
    }
  }
}
