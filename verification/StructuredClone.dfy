/** structuredClone's graph copy (compat/web/js/extended.js, fullClone) over an
    explicit heap: objects are numbered, references may be shared and cyclic. */
module StructuredClone {

  datatype Primitive = Undefined | Null | Boolean(b: bool) | Number(n: real) | BigInt(i: int) | Text(s: string)

  /** Uncloneable stands for a function or a symbol. */
  datatype Value = Prim(p: Primitive) | Ref(r: nat) | Uncloneable

  datatype LeafKind = Date | RegExp | ArrayBuffer | Blob

  /** The fields of an Error are its cause, if it has one, and its other own properties.
      A String object is what `new Object(message)` makes; in a source graph it counts as a
      plain object. */
  datatype Node =
    | Leaf(kind: LeafKind, data: seq<int>)
    | View(ctor: string, buffer: nat, offset: nat, length: nat)
    | MapNode(entries: seq<(Value, Value)>)
    | SetNode(members: seq<Value>)
    | ArrayNode(items: seq<Value>)
    | ErrorNode(name: string, message: string, stack: string, fields: seq<(string, Value)>)
    | PlainNode(props: seq<(string, Value)>)
    | StringNode(text: string, props: seq<(string, Value)>)

  type Heap = map<nat, Node>

  datatype Result = Cloned(v: Value) | DataCloneError | TypeError

  // ------------------------------------------------------------ the shape of a node

  function PairAt(cs: seq<Value>, j: nat): (Value, Value)
    requires 2 * j + 1 < |cs|
  {
    (cs[2 * j], cs[2 * j + 1])
  }

  function Flatten(entries: seq<(Value, Value)>): (cs: seq<Value>)
    ensures |cs| == 2 * |entries|
    ensures forall j :: 0 <= j < |entries| ==> PairAt(cs, j) == entries[j]
  {
    if entries == [] then []
    else
      var last := entries[|entries| - 1];
      Flatten(entries[..|entries| - 1]) + [last.0, last.1]
  }

  function PropValues(props: seq<(string, Value)>): (cs: seq<Value>)
    ensures |cs| == |props|
    ensures forall j :: 0 <= j < |props| ==> cs[j] == props[j].1
  {
    if props == [] then [] else PropValues(props[..|props| - 1]) + [props[|props| - 1].1]
  }

  /** The values a node refers to, in the order the clone visits them. */
  function Children(node: Node): seq<Value> {
    match node
    case Leaf(_, _) => []
    case View(_, buffer, _, _) => [Ref(buffer)]
    case MapNode(entries) => Flatten(entries)
    case SetNode(members) => members
    case ArrayNode(items) => items
    case ErrorNode(_, _, _, fields) => PropValues(fields)
    case PlainNode(props) => PropValues(props)
    case StringNode(_, props) => PropValues(props)
  }

  // ------------------------------------------------------------ Errors

  /** The keys that the table of constructors inherits and that are no constructors: looking
      up such a name and calling `new` throws. */
  const INHERITED := {"toString", "toLocaleString", "valueOf", "hasOwnProperty", "isPrototypeOf",
                      "propertyIsEnumerable", "__proto__", "__defineGetter__", "__defineSetter__",
                      "__lookupGetter__", "__lookupSetter__"}

  /** `new Ctor` throws. */
  predicate Refused(node: Node) {
    node.ErrorNode? && node.name in INHERITED
  }

  /** The inherited key that is one: `new Object(message)` makes no Error. */
  predicate NoError(node: Node) {
    node.ErrorNode? && node.name == "constructor"
  }

  /** A field that assignment gives to the prototype's setter. */
  predicate SetsPrototype(node: Node) {
    node.ErrorNode? && exists j :: 0 <= j < |node.fields| && node.fields[j].0 == "__proto__"
  }

  /** An Error that is not copied as one, or not with all its fields. */
  predicate Awkward(node: Node) {
    Refused(node) || NoError(node) || SetsPrototype(node)
  }

  datatype Trouble = AwkwardError | RefusedError

  predicate Gives(node: Node, t: Trouble) {
    if t.AwkwardError? then Awkward(node) else Refused(node)
  }

  /** Map.prototype.set on the entries in insertion order. */
  function MapSet(entries: seq<(Value, Value)>, k: Value, v: Value): seq<(Value, Value)> {
    if entries == [] then [(k, v)]
    else if entries[0].0 == k then [(k, v)] + entries[1..]
    else [entries[0]] + MapSet(entries[1..], k, v)
  }

  /** Set.prototype.add. */
  function SetAdd(members: seq<Value>, v: Value): seq<Value> {
    if v in members then members else members + [v]
  }

  /** Object.defineProperty with a data descriptor. */
  function Define(props: seq<(string, Value)>, k: string, v: Value): seq<(string, Value)> {
    if props == [] then [(k, v)]
    else if props[0].0 == k then [(k, v)] + props[1..]
    else [props[0]] + Define(props[1..], k, v)
  }

  /** `out[k] = v` on a new Error: a field called __proto__ does not become its own. */
  function Assign(props: seq<(string, Value)>, k: string, v: Value): seq<(string, Value)> {
    if k == "__proto__" then props else Define(props, k, v)
  }

  function FillMap(cs: seq<Value>, pairs: nat): seq<(Value, Value)>
    requires 2 * pairs <= |cs|
  {
    if pairs == 0 then [] else MapSet(FillMap(cs, pairs - 1), cs[2 * pairs - 2], cs[2 * pairs - 1])
  }

  function FillSet(cs: seq<Value>): seq<Value> {
    if cs == [] then [] else SetAdd(FillSet(cs[..|cs| - 1]), cs[|cs| - 1])
  }

  function FillProps(props: seq<(string, Value)>, cs: seq<Value>): seq<(string, Value)>
    requires |cs| <= |props|
  {
    if cs == [] then [] else Define(FillProps(props, cs[..|cs| - 1]), props[|cs| - 1].0, cs[|cs| - 1])
  }

  function FillFields(fields: seq<(string, Value)>, cs: seq<Value>): seq<(string, Value)>
    requires |cs| <= |fields|
  {
    if cs == [] then [] else Assign(FillFields(fields, cs[..|cs| - 1]), fields[|cs| - 1].0, cs[|cs| - 1])
  }

  predicate IsContainer(node: Node) {
    !node.Leaf? && !node.View? && !node.StringNode?
  }

  /** The new container after the clones cs of the first children were stored. What is not
      an Error gets name and stack as properties of its own. */
  function Fill(node: Node, cs: seq<Value>): Node
    requires IsContainer(node) && |cs| <= |Children(node)|
  {
    match node
    case MapNode(_) => MapNode(FillMap(cs, |cs| / 2))
    case SetNode(_) => SetNode(FillSet(cs))
    case ArrayNode(_) => ArrayNode(cs)
    case ErrorNode(name, message, stack, fields) =>
      if NoError(node) then
        StringNode(message, [("name", Prim(Text(name))), ("stack", Prim(Text(stack)))] + FillFields(fields, cs))
      else ErrorNode(name, message, stack, FillFields(fields, cs))
    case PlainNode(props) => PlainNode(FillProps(props, cs))
  }

  // ------------------------------------------------------------ images under a renaming of objects

  predicate Covers(f: map<nat, nat>, v: Value) {
    match v
    case Prim(_) => true
    case Ref(r) => r in f
    case Uncloneable => false
  }

  predicate CoversAll(f: map<nat, nat>, vs: seq<Value>) {
    forall j :: 0 <= j < |vs| ==> Covers(f, vs[j])
  }

  function Image(f: map<nat, nat>, v: Value): Value
    requires Covers(f, v)
  {
    if v.Ref? then Ref(f[v.r]) else v
  }

  function ImageAll(f: map<nat, nat>, vs: seq<Value>): (ws: seq<Value>)
    requires CoversAll(f, vs)
    ensures |ws| == |vs| && forall j :: 0 <= j < |vs| ==> ws[j] == Image(f, vs[j])
  {
    if vs == [] then [] else ImageAll(f, vs[..|vs| - 1]) + [Image(f, vs[|vs| - 1])]
  }

  function Pairs(cs: seq<Value>, n: nat): (entries: seq<(Value, Value)>)
    requires 2 * n <= |cs|
    ensures |entries| == n && forall j :: 0 <= j < n ==> entries[j] == PairAt(cs, j)
  {
    if n == 0 then [] else Pairs(cs, n - 1) + [PairAt(cs, n - 1)]
  }

  function Props(names: seq<(string, Value)>, cs: seq<Value>): (props: seq<(string, Value)>)
    requires |cs| <= |names|
    ensures |props| == |cs| && forall j :: 0 <= j < |cs| ==> props[j] == (names[j].0, cs[j])
  {
    if cs == [] then [] else Props(names, cs[..|cs| - 1]) + [(names[|cs| - 1].0, cs[|cs| - 1])]
  }

  /** The node with its children replaced and everything else kept. */
  function WithChildren(node: Node, cs: seq<Value>): Node
    requires |cs| == |Children(node)| && (node.View? ==> cs[0].Ref?)
  {
    match node
    case Leaf(_, _) => node
    case View(ctor, _, offset, length) => View(ctor, cs[0].r, offset, length)
    case MapNode(entries) => MapNode(Pairs(cs, |entries|))
    case SetNode(_) => SetNode(cs)
    case ArrayNode(_) => ArrayNode(cs)
    case ErrorNode(name, message, stack, fields) => ErrorNode(name, message, stack, Props(fields, cs))
    case PlainNode(props) => PlainNode(Props(props, cs))
    case StringNode(text, props) => StringNode(text, Props(props, cs))
  }

  /** The node with every reference renamed. */
  function ImageNode(f: map<nat, nat>, node: Node): Node
    requires CoversAll(f, Children(node))
  {
    WithChildren(node, ImageAll(f, Children(node)))
  }

  predicate Injective(f: map<nat, nat>) {
    forall a, b :: a in f && b in f && f[a] == f[b] ==> a == b
  }

  predicate Extends(f: map<nat, nat>, g: map<nat, nat>) {
    forall n :: n in f ==> n in g && g[n] == f[n]
  }

  // ------------------------------------------------------------ source graphs

  predicate InHeap(h: Heap, v: Value) {
    v.Ref? ==> v.r in h
  }

  /** What JavaScript guarantees of a single object. */
  predicate WellFormedNode(h: Heap, node: Node) {
    && (forall j :: 0 <= j < |Children(node)| ==> InHeap(h, Children(node)[j]))
    && (match node
        case View(_, buffer, _, _) => buffer in h && h[buffer].Leaf? && h[buffer].kind == ArrayBuffer
        case MapNode(es) => forall i, j :: 0 <= i < j < |es| ==> es[i].0 != es[j].0
        case SetNode(ms) => forall i, j :: 0 <= i < j < |ms| ==> ms[i] != ms[j]
        case ErrorNode(_, _, _, ps) => forall i, j :: 0 <= i < j < |ps| ==> ps[i].0 != ps[j].0
        case PlainNode(ps) => forall i, j :: 0 <= i < j < |ps| ==> ps[i].0 != ps[j].0
        case StringNode(_, _) => false
        case _ => true)
  }

  predicate WellFormed(h: Heap) {
    forall n :: n in h ==> WellFormedNode(h, h[n])
  }

  predicate Touches(s: set<nat>, v: Value) {
    v.Ref? ==> v.r in s
  }

  /** A set of objects that no reference leaves. The objects reachable from a
      value are the least such set that holds it. */
  predicate Closed(h: Heap, s: set<nat>) {
    forall n :: n in s ==> n in h && forall j :: 0 <= j < |Children(h[n])| ==> Touches(s, Children(h[n])[j])
  }

  predicate HoldsUncloneable(h: Heap, s: set<nat>, v: Value) {
    v.Uncloneable? || exists n :: n in s && n in h && Uncloneable in Children(h[n])
  }

  // ------------------------------------------------------------ images and partial copies

  lemma {:induction false} ImageAllExtends(f: map<nat, nat>, g: map<nat, nat>, vs: seq<Value>)
    requires Extends(f, g) && CoversAll(f, vs)
    ensures CoversAll(g, vs) && ImageAll(g, vs) == ImageAll(f, vs)
  {
    if vs != [] {
      ImageAllExtends(f, g, vs[..|vs| - 1]);
      assert Covers(f, vs[|vs| - 1]);
    }
  }

  lemma {:induction false} MapSetFresh(entries: seq<(Value, Value)>, k: Value, v: Value)
    requires forall j :: 0 <= j < |entries| ==> entries[j].0 != k
    ensures MapSet(entries, k, v) == entries + [(k, v)]
    decreases |entries|
  {
    if entries != [] {
      MapSetFresh(entries[1..], k, v);
    }
  }

  lemma {:induction false} DefineFresh(props: seq<(string, Value)>, k: string, v: Value)
    requires forall j :: 0 <= j < |props| ==> props[j].0 != k
    ensures Define(props, k, v) == props + [(k, v)]
    decreases |props|
  {
    if props != [] {
      DefineFresh(props[1..], k, v);
    }
  }

  lemma {:induction false} FillMapDistinct(cs: seq<Value>, pairs: nat)
    requires 2 * pairs <= |cs|
    requires forall i, j :: 0 <= i < j < pairs ==> PairAt(cs, i).0 != PairAt(cs, j).0
    ensures FillMap(cs, pairs) == Pairs(cs, pairs)
    decreases pairs
  {
    if pairs > 0 {
      FillMapDistinct(cs, pairs - 1);
      MapSetFresh(FillMap(cs, pairs - 1), PairAt(cs, pairs - 1).0, PairAt(cs, pairs - 1).1);
    }
  }

  lemma {:induction false} FillSetDistinct(cs: seq<Value>)
    requires forall i, j :: 0 <= i < j < |cs| ==> cs[i] != cs[j]
    ensures FillSet(cs) == cs
    decreases |cs|
  {
    if cs != [] {
      FillSetDistinct(cs[..|cs| - 1]);
    }
  }

  lemma {:induction false} FillPropsDistinct(props: seq<(string, Value)>, cs: seq<Value>)
    requires |cs| <= |props|
    requires forall i, j :: 0 <= i < j < |props| ==> props[i].0 != props[j].0
    ensures FillProps(props, cs) == Props(props, cs)
    decreases |cs|
  {
    if cs != [] {
      var shorter := cs[..|cs| - 1];
      FillPropsDistinct(props, shorter);
      DefineFresh(FillProps(props, shorter), props[|cs| - 1].0, cs[|cs| - 1]);
    }
  }

  lemma {:induction false} FillFieldsAll(fields: seq<(string, Value)>, cs: seq<Value>)
    requires |cs| <= |fields| && forall j :: 0 <= j < |fields| ==> fields[j].0 != "__proto__"
    ensures FillFields(fields, cs) == FillProps(fields, cs)
    decreases |cs|
  {
    if cs != [] {
      FillFieldsAll(fields, cs[..|cs| - 1]);
    }
  }

  lemma {:induction false} DefineKeys(props: seq<(string, Value)>, k: string, v: Value, key: string)
    requires k != key && forall j :: 0 <= j < |props| ==> props[j].0 != key
    ensures forall j :: 0 <= j < |Define(props, k, v)| ==> Define(props, k, v)[j].0 != key
    decreases |props|
  {
    if props != [] {
      DefineKeys(props[1..], k, v, key);
    }
  }

  lemma {:induction false} FillFieldsLose(fields: seq<(string, Value)>, cs: seq<Value>)
    requires |cs| <= |fields|
    ensures forall j :: 0 <= j < |FillFields(fields, cs)| ==> FillFields(fields, cs)[j].0 != "__proto__"
    decreases |cs|
  {
    if cs != [] {
      var shorter := cs[..|cs| - 1];
      FillFieldsLose(fields, shorter);
      if fields[|cs| - 1].0 != "__proto__" {
        DefineKeys(FillFields(fields, shorter), fields[|cs| - 1].0, cs[|cs| - 1], "__proto__");
      }
    }
  }

  /** What is made of an awkward Error is no copy of it, whatever its references become. */
  lemma FillAwkward(node: Node, cs: seq<Value>, ds: seq<Value>)
    requires Awkward(node) && !Refused(node) && |cs| == |Children(node)| == |ds|
    ensures Fill(node, cs) != WithChildren(node, ds)
  {
    if !NoError(node) {
      FillFieldsLose(node.fields, cs);
      var j :| 0 <= j < |node.fields| && node.fields[j].0 == "__proto__";
      assert WithChildren(node, ds).fields[j].0 == "__proto__";
    }
  }

  /** Different values have different images. */
  lemma ImageInjective(f: map<nat, nat>, v: Value, w: Value)
    requires Injective(f) && Covers(f, v) && Covers(f, w) && v != w
    ensures Image(f, v) != Image(f, w)
  {
  }

  lemma FillCompleteMap(f: map<nat, nat>, node: Node)
    requires node.MapNode? && forall i, j :: 0 <= i < j < |node.entries| ==> node.entries[i].0 != node.entries[j].0
    requires Injective(f) && CoversAll(f, Children(node))
    ensures Fill(node, ImageAll(f, Children(node))) == ImageNode(f, node)
  {
    hide FillMap, Pairs, Flatten, ImageAll, Image, Injective;
    var vs, entries := Children(node), node.entries;
    var cs := ImageAll(f, vs);
    forall i, j | 0 <= i < j < |entries|
      ensures PairAt(cs, i).0 != PairAt(cs, j).0
    {
      assert PairAt(vs, i) == entries[i] && PairAt(vs, j) == entries[j];
      ImageInjective(f, vs[2 * i], vs[2 * j]);
    }
    FillMapDistinct(cs, |entries|);
  }

  lemma FillCompleteSet(f: map<nat, nat>, node: Node)
    requires node.SetNode? && forall i, j :: 0 <= i < j < |node.members| ==> node.members[i] != node.members[j]
    requires Injective(f) && CoversAll(f, Children(node))
    ensures Fill(node, ImageAll(f, Children(node))) == ImageNode(f, node)
  {
    var vs := node.members;
    var cs := ImageAll(f, vs);
    forall i, j | 0 <= i < j < |vs|
      ensures cs[i] != cs[j]
    {
      ImageInjective(f, vs[i], vs[j]);
    }
    FillSetDistinct(cs);
  }

  /** Storing the clones of all children one by one yields the renamed node: no
      two keys or members collapse, because the renaming is injective. */
  lemma FillComplete(h: Heap, f: map<nat, nat>, node: Node)
    requires WellFormedNode(h, node) && IsContainer(node) && !Awkward(node)
    requires Injective(f) && CoversAll(f, Children(node))
    ensures Fill(node, ImageAll(f, Children(node))) == ImageNode(f, node)
  {
    match node {
      case MapNode(_) => FillCompleteMap(f, node);
      case SetNode(_) => FillCompleteSet(f, node);
      case ArrayNode(_) =>
      case ErrorNode(_, _, _, fields) =>
        FillFieldsAll(fields, ImageAll(f, Children(node)));
        FillPropsDistinct(fields, ImageAll(f, Children(node)));
      case PlainNode(props) => FillPropsDistinct(props, ImageAll(f, Children(node)));
    }
  }

  // ------------------------------------------------------------ states of the copy

  /** The heap allocated in so far and the map `seen`. */
  datatype State = State(heap: Heap, seen: map<nat, nat>)

  ghost predicate Sound(source: Heap, st: State) {
    && (forall n :: n in source ==> n in st.heap && st.heap[n] == source[n])
    && (forall n :: n in st.seen ==> n in source && st.seen[n] in st.heap && st.seen[n] !in source)
    && Injective(st.seen)
  }

  /** What the code makes of a node whose children are cloned. */
  function Made(f: map<nat, nat>, node: Node): Node
    requires CoversAll(f, Children(node))
  {
    if IsContainer(node) then Fill(node, ImageAll(f, Children(node))) else ImageNode(f, node)
  }

  /** The clone of n has all its children. */
  ghost predicate Copied(source: Heap, st: State, n: nat) {
    && n in source && n in st.seen && st.seen[n] in st.heap
    && CoversAll(st.seen, Children(source[n])) && !Refused(source[n])
    && st.heap[st.seen[n]] == Made(st.seen, source[n])
  }

  predicate SameObject(h: Heap, h': Heap, n: nat) {
    n in h && n in h' && h'[n] == h[n]
  }

  /** From a to b only new objects were cloned, all of them completely except
      those in open, and no older clone was written except those in open. */
  ghost predicate Grown(source: Heap, a: State, b: State, open: set<nat>) {
    && Extends(a.seen, b.seen)
    && (forall n :: n in a.seen && n !in open ==> SameObject(a.heap, b.heap, a.seen[n]))
    && (forall n :: n in b.seen && n !in a.seen && n !in open ==> Copied(source, b, n))
  }

  /** Nothing outside what v reaches was cloned. */
  ghost predicate Within(source: Heap, a: State, b: State, v: Value) {
    forall s: set<nat> :: Closed(source, s) && Touches(s, v) ==> b.seen.Keys <= a.seen.Keys + s
  }

  /** An uncloneable value can be reached from v. */
  ghost predicate ReachesUncloneable(source: Heap, v: Value) {
    forall s: set<nat> :: Closed(source, s) && Touches(s, v) ==> HoldsUncloneable(source, s, v)
  }

  ghost predicate Holds(h: Heap, s: set<nat>, t: Trouble) {
    exists n :: n in s && n in h && Gives(h[n], t)
  }

  /** Every set of objects closed around v holds one that gives this trouble. */
  ghost predicate Reaches(source: Heap, v: Value, t: Trouble) {
    forall s: set<nat> :: Closed(source, s) && Touches(s, v) ==> Holds(source, s, t)
  }

  lemma ReachesItself(source: Heap, n: nat, t: Trouble)
    requires n in source && Gives(source[n], t)
    ensures Reaches(source, Ref(n), t)
  {
  }

  lemma ReachesChild(source: Heap, n: nat, j: nat, t: Trouble)
    requires n in source && j < |Children(source[n])| && Reaches(source, Children(source[n])[j], t)
    ensures Reaches(source, Ref(n), t)
  {
    forall s: set<nat> | Closed(source, s) && Touches(s, Ref(n))
      ensures Holds(source, s, t)
    {
      assert Touches(s, Children(source[n])[j]);
    }
  }

  lemma CopiedStays(source: Heap, a: State, b: State, n: nat)
    requires Copied(source, a, n) && Extends(a.seen, b.seen)
    requires a.seen[n] in b.heap && b.heap[a.seen[n]] == a.heap[a.seen[n]]
    ensures Copied(source, b, n)
  {
    ImageAllExtends(a.seen, b.seen, Children(source[n]));
  }

  lemma GrownTrans(source: Heap, a: State, b: State, c: State, open: set<nat>)
    requires Grown(source, a, b, open) && Grown(source, b, c, {})
    ensures Grown(source, a, c, open)
  {
    forall n | n in c.seen && n !in a.seen && n !in open
      ensures Copied(source, c, n)
    {
      if n in b.seen {
        CopiedStays(source, b, c, n);
      }
    }
  }

  function Registered(st: State, n: nat, out: nat, node: Node): State {
    State(st.heap[out := node], st.seen[n := out])
  }

  lemma RegisterGrows(source: Heap, st: State, n: nat, out: nat, node: Node)
    requires Sound(source, st) && n in source && n !in st.seen && out !in st.heap
    ensures Sound(source, Registered(st, n, out, node))
    ensures Grown(source, st, Registered(st, n, out, node), {n})
    ensures Within(source, st, Registered(st, n, out, node), Ref(n))
  {
  }

  function Stored(b: State, n: nat, node: Node): State
    requires n in b.seen
  {
    State(b.heap[b.seen[n] := node], b.seen)
  }

  lemma StoreSound(source: Heap, b: State, n: nat, node: Node)
    requires Sound(source, b) && n in b.seen
    ensures Sound(source, Stored(b, n, node))
  {
  }

  /** Another object's clone is another object. */
  lemma OtherClone(source: Heap, b: State, n: nat, node: Node, m: nat)
    requires Sound(source, b) && n in b.seen && m in b.seen && m != n
    ensures SameObject(b.heap, Stored(b, n, node).heap, b.seen[m])
  {
  }

  /** Overwriting the clone of the one open object. */
  lemma StoreGrows(source: Heap, a: State, b: State, n: nat, node: Node)
    requires Sound(source, b) && Grown(source, a, b, {n}) && n in b.seen
    ensures Grown(source, a, Stored(b, n, node), {n})
  {
    var c := Stored(b, n, node);
    forall m | m in a.seen && m !in {n}
      ensures SameObject(a.heap, c.heap, a.seen[m])
    {
      OtherClone(source, b, n, node, m);
    }
    forall m | m in c.seen && m !in a.seen && m !in {n}
      ensures Copied(source, c, m)
    {
      OtherClone(source, b, n, node, m);
      CopiedStays(source, b, c, m);
    }
  }

  lemma CloseOpen(source: Heap, a: State, b: State, n: nat)
    requires Grown(source, a, b, {n}) && n !in a.seen && Copied(source, b, n)
    ensures Grown(source, a, b, {})
  {
  }

  lemma WithinChild(source: Heap, a: State, b: State, c: State, n: nat, j: nat)
    requires n in source && j < |Children(source[n])|
    requires Within(source, a, b, Ref(n)) && Within(source, b, c, Children(source[n])[j])
    ensures Within(source, a, c, Ref(n))
  {
    forall s: set<nat> | Closed(source, s) && Touches(s, Ref(n))
      ensures c.seen.Keys <= a.seen.Keys + s
    {
      assert Touches(s, Children(source[n])[j]);
    }
  }

  lemma UncloneableChild(source: Heap, n: nat, j: nat)
    requires n in source && j < |Children(source[n])| && ReachesUncloneable(source, Children(source[n])[j])
    ensures ReachesUncloneable(source, Ref(n))
  {
    var v := Children(source[n])[j];
    forall s: set<nat> | Closed(source, s) && Touches(s, Ref(n))
      ensures HoldsUncloneable(source, s, Ref(n))
    {
      assert Touches(s, v);
      assert HoldsUncloneable(source, s, v);
      if v.Uncloneable? {
        assert Uncloneable in Children(source[n]);
      }
    }
  }

  /** The clones of the first j children, under the renaming so far. */
  ghost predicate Prefix(seen: map<nat, nat>, node: Node, stored: seq<Value>, j: nat) {
    && j <= |Children(node)| && CoversAll(seen, Children(node)[..j])
    && stored == ImageAll(seen, Children(node)[..j])
  }

  ghost predicate Opened(source: Heap, start: State, st: State, n: nat) {
    && Sound(source, start) && n in source && n !in start.seen && n in st.seen
    && Grown(source, start, st, {n}) && Within(source, start, st, Ref(n))
  }

  /** The clone out of n holds the clones of its first j children. */
  ghost predicate Filling(source: Heap, start: State, st: State, n: nat, out: nat, node: Node,
                          stored: seq<Value>, j: nat)
    requires IsContainer(node)
  {
    && Opened(source, start, st, n) && Prefix(st.seen, node, stored, j)
    && source[n] == node && st.seen[n] == out && out in st.heap && st.heap[out] == Fill(node, stored)
  }

  lemma PrefixStep(f: map<nat, nat>, g: map<nat, nat>, node: Node, stored: seq<Value>, j: nat)
    requires Prefix(f, node, stored, j) && j < |Children(node)| && Extends(f, g) && Covers(g, Children(node)[j])
    ensures |stored| == j && Prefix(g, node, stored + [Image(g, Children(node)[j])], j + 1)
  {
    var children := Children(node);
    ImageAllExtends(f, g, children[..j]);
    assert children[..j + 1] == children[..j] + [children[j]];
  }

  lemma OpenedStep(source: Heap, start: State, before: State, after: State, n: nat, node: Node, j: nat)
    requires Opened(source, start, before, n) && j < |Children(source[n])|
    requires Sound(source, after) && Grown(source, before, after, {})
    requires Within(source, before, after, Children(source[n])[j])
    ensures Sound(source, State(after.heap[after.seen[n] := node], after.seen))
    ensures Opened(source, start, State(after.heap[after.seen[n] := node], after.seen), n)
  {
    WithinChild(source, start, before, after, n, j);
    GrownTrans(source, start, before, after, {n});
    StoreGrows(source, start, after, n, node);
    StoreSound(source, after, n, node);
  }

  lemma FillStep(source: Heap, start: State, before: State, after: State, n: nat, out: nat, node: Node,
                 stored: seq<Value>, j: nat, c: Value)
    requires IsContainer(node) && Filling(source, start, before, n, out, node, stored, j) && j < |Children(node)|
    requires Sound(source, after) && Grown(source, before, after, {})
    requires Within(source, before, after, Children(node)[j])
    requires Covers(after.seen, Children(node)[j]) && c == Image(after.seen, Children(node)[j])
    ensures |stored| == j && Sound(source, State(after.heap[out := Fill(node, stored + [c])], after.seen))
    ensures Filling(source, start, State(after.heap[out := Fill(node, stored + [c])], after.seen),
                    n, out, node, stored + [c], j + 1)
  {
    PrefixStep(before.seen, after.seen, node, stored, j);
    OpenedStep(source, start, before, after, n, Fill(node, stored + [c]), j);
  }

  lemma ChildInHeap(source: Heap, n: nat, j: nat)
    requires WellFormed(source) && n in source && j < |Children(source[n])|
    ensures InHeap(source, Children(source[n])[j])
  {
  }

  lemma FillEnd(source: Heap, start: State, st: State, n: nat, out: nat, node: Node, stored: seq<Value>)
    requires Sound(source, st) && IsContainer(node) && !Refused(node)
    requires Filling(source, start, st, n, out, node, stored, |Children(node)|)
    ensures Grown(source, start, st, {})
  {
    assert Children(node)[..|Children(node)|] == Children(node);
    CloseOpen(source, start, st, n);
  }

  lemma ViewCopied(source: Heap, mid: State, n: nat, out: nat, node: Node)
    requires n in source && source[n] == node && node.View? && n !in mid.seen && node.buffer in mid.seen
    ensures Copied(source, Registered(mid, n, out, View(node.ctor, mid.seen[node.buffer], node.offset, node.length)), n)
  {
  }

  /** Registering a view over the cloned buffer completes it. */
  lemma ViewEnd(source: Heap, start: State, mid: State, n: nat, out: nat, node: Node)
    requires Sound(source, mid) && Grown(source, start, mid, {})
    requires n in source && source[n] == node && node.View? && n !in mid.seen && out !in mid.heap
    requires node.buffer in mid.seen
    ensures Grown(source, start,
                  Registered(mid, n, out, View(node.ctor, mid.seen[node.buffer], node.offset, node.length)), {})
  {
    hide Grown, Copied, Sound;
    var st := Registered(mid, n, out, View(node.ctor, mid.seen[node.buffer], node.offset, node.length));
    RegisterGrows(source, mid, n, out, st.heap[out]);
    ViewCopied(source, mid, n, out, node);
    CloseOpen(source, mid, st, n);
    GrownTrans(source, start, mid, st, {});
  }

  lemma BufferOnly(source: Heap, a: State, b: State, n: nat)
    requires WellFormed(source) && n in source && source[n].View? && n !in a.seen
    requires Within(source, a, b, Ref(source[n].buffer))
    ensures n !in b.seen
  {
    var buffer := source[n].buffer;
    assert Closed(source, {buffer}) && Touches({buffer}, Ref(buffer));
  }

  // ------------------------------------------------------------ the cloner

  class Cloner {
    ghost const source: Heap
    var heap: Heap
    var seen: map<nat, nat>
    var next: nat

    ghost function St(): State
      reads this
    {
      State(heap, seen)
    }

    ghost predicate Valid()
      reads this
    {
      WellFormed(source) && Sound(source, St()) && forall n :: n in heap ==> n < next
    }

    constructor (h: Heap, limit: nat)
      requires WellFormed(h) && forall n :: n in h ==> n < limit
      ensures Valid() && source == h && heap == h && seen == map[] && next == limit
    {
      source, heap, seen, next := h, h, map[], limit;
    }

    /** `const out = ...; seen.set(value, out)`. */
    method Register(n: nat, node: Node) returns (out: nat)
      requires Valid() && n in source && n !in seen
      modifies this
      ensures Valid() && n in seen && seen[n] == out
      ensures out == old(next) && St() == Registered(old(St()), n, out, node)
      ensures Grown(source, old(St()), St(), {n}) && Within(source, old(St()), St(), Ref(n))
    {
      out := next;
      RegisterGrows(source, St(), n, out, node);
      heap := heap[out := node];
      seen := seen[n := out];
      next := next + 1;
    }

    method FullClone(v: Value) returns (r: Result)
      requires Valid() && InHeap(source, v)
      modifies this
      ensures Valid()
      ensures r.Cloned? ==> Grown(source, old(St()), St(), {}) && Within(source, old(St()), St(), v)
      ensures r.Cloned? ==> Covers(seen, v) && r.v == Image(seen, v)
      ensures r.DataCloneError? ==> ReachesUncloneable(source, v)
      ensures r.TypeError? ==> Reaches(source, v, AwkwardError)
      decreases source.Keys - seen.Keys, if v.Ref? && v.r in source && source[v.r].View? then 3 else 1
    {
      if v.Uncloneable? {
        return DataCloneError;
      }
      if v.Prim? {
        return Cloned(v);
      }
      if v.r in seen {
        return Cloned(Ref(seen[v.r]));
      }
      var node := heap[v.r];
      if node.Leaf? {
        r := CloneLeaf(v.r, node);
      } else if node.View? {
        r := CloneView(v.r, node);
      } else {
        r := CloneContainer(v.r, node);
      }
    }

    method CloneLeaf(n: nat, node: Node) returns (r: Result)
      requires Valid() && n in source && n !in seen && source[n] == node && node.Leaf?
      modifies this
      ensures Valid() && Within(source, old(St()), St(), Ref(n)) && Grown(source, old(St()), St(), {})
      ensures r.Cloned? && n in seen && r.v == Ref(seen[n])
    {
      var out := Register(n, node);
      assert Copied(source, St(), n);
      CloseOpen(source, old(St()), St(), n);
      r := Cloned(Ref(out));
    }

    /** A view clones its buffer through the same path, then wraps the copy. */
    method CloneView(n: nat, node: Node) returns (r: Result)
      requires Valid() && n in source && n !in seen && source[n] == node && node.View?
      modifies this
      ensures Valid()
      ensures r.Cloned? ==> Grown(source, old(St()), St(), {}) && Within(source, old(St()), St(), Ref(n))
      ensures r.Cloned? ==> n in seen && r.v == Ref(seen[n])
      ensures r.DataCloneError? ==> ReachesUncloneable(source, Ref(n))
      ensures r.TypeError? ==> Reaches(source, Ref(n), AwkwardError)
      decreases source.Keys - seen.Keys, 2
    {
      assert InHeap(source, Children(node)[0]);
      var buffer := FullClone(Ref(node.buffer));
      if !buffer.Cloned? {
        FailureRises(n, 0, buffer);
        return buffer;
      }
      WithinChild(source, old(St()), old(St()), St(), n, 0);
      BufferOnly(source, old(St()), St(), n);
      ViewEnd(source, old(St()), St(), n, next, node);
      var out := Register(n, View(node.ctor, buffer.v.r, node.offset, node.length));
      r := Cloned(Ref(out));
    }

    lemma FailureRises(n: nat, j: nat, r: Result)
      requires n in source && j < |Children(source[n])| && !r.Cloned?
      requires r.DataCloneError? ==> ReachesUncloneable(source, Children(source[n])[j])
      requires r.TypeError? ==> Reaches(source, Children(source[n])[j], AwkwardError)
      ensures r.DataCloneError? ==> ReachesUncloneable(source, Ref(n))
      ensures r.TypeError? ==> Reaches(source, Ref(n), AwkwardError)
    {
      if r.DataCloneError? {
        UncloneableChild(source, n, j);
      } else {
        ReachesChild(source, n, j, AwkwardError);
      }
    }

    /** One turn of a container's loop. An assignment can throw on what is no Error, and on
        and behind a change of the prototype, which may be refused or bring in setters and
        properties that cannot be written; whether it does is left open. */
    method CloneChild(n: nat, out: nat, node: Node, stored: seq<Value>, j: nat, ghost start: State)
      returns (r: Result, stored': seq<Value>)
      requires IsContainer(node) && Valid() && Filling(source, start, St(), n, out, node, stored, j)
      requires j < |Children(node)|
      modifies this
      ensures Valid()
      ensures r.DataCloneError? ==> ReachesUncloneable(source, Ref(n))
      ensures r.TypeError? ==> Reaches(source, Ref(n), AwkwardError)
      ensures r.Cloned? ==> Filling(source, start, St(), n, out, node, stored', j + 1)
      decreases source.Keys - seen.Keys, 4
    {
      ghost var before := St();
      ChildInHeap(source, n, j);
      stored' := stored;
      r := FullClone(Children(node)[j]);
      if !r.Cloned? {
        FailureRises(n, j, r);
        return;
      }
      if Awkward(node) {
        var refused: bool := *;
        if refused {
          ReachesItself(source, n, AwkwardError);
          return TypeError, stored;
        }
      }
      stored' := StoreChild(n, out, node, stored, j, r.v, before, start);
    }

    /** The clone c of child j goes into the container. */
    method StoreChild(n: nat, out: nat, node: Node, stored: seq<Value>, j: nat, c: Value,
                      ghost before: State, ghost start: State)
      returns (stored': seq<Value>)
      requires Valid() && IsContainer(node) && Filling(source, start, before, n, out, node, stored, j)
      requires j < |Children(node)| && Grown(source, before, St(), {})
      requires Within(source, before, St(), Children(node)[j])
      requires Covers(seen, Children(node)[j]) && c == Image(seen, Children(node)[j])
      modifies this
      ensures Valid() && |stored'| > j && Filling(source, start, St(), n, out, node, stored', j + 1)
      ensures seen == old(seen)
    {
      FillStep(source, start, before, St(), n, out, node, stored, j, c);
      stored' := stored + [c];
      Store(out, Fill(node, stored'), start, n, node, stored', j + 1);
    }

    method Store(out: nat, filled: Node, ghost start: State, ghost n: nat, ghost node: Node,
                 ghost stored: seq<Value>, ghost j: nat)
      requires Valid() && out in heap && Sound(source, State(heap[out := filled], seen)) && IsContainer(node)
      requires Filling(source, start, State(heap[out := filled], seen), n, out, node, stored, j)
      modifies this`heap
      ensures Valid() && St() == State(old(heap)[out := filled], seen)
      ensures Filling(source, start, St(), n, out, node, stored, j)
    {
      heap := heap[out := filled];
    }

    /** Map, Set, array, Error and plain object: register the empty clone, then store
        the clones of the children one by one. */
    method CloneContainer(n: nat, node: Node) returns (r: Result)
      requires Valid() && n in source && n !in seen && source[n] == node && IsContainer(node)
      modifies this
      ensures Valid()
      ensures r.Cloned? ==> Grown(source, old(St()), St(), {}) && Within(source, old(St()), St(), Ref(n))
      ensures r.Cloned? ==> n in seen && r.v == Ref(seen[n])
      ensures r.DataCloneError? ==> ReachesUncloneable(source, Ref(n))
      ensures r.TypeError? ==> Reaches(source, Ref(n), AwkwardError)
      decreases source.Keys - seen.Keys, 0
    {
      if Refused(node) {
        ReachesItself(source, n, AwkwardError);
        return TypeError;
      }
      var children := Children(node);
      var out := Register(n, Fill(node, []));
      var stored: seq<Value> := [];
      assert children[..0] == [];
      for j := 0 to |children|
        invariant Valid() && Filling(source, old(St()), St(), n, out, node, stored, j)
      {
        r, stored := CloneChild(n, out, node, stored, j, old(St()));
        if !r.Cloned? {
          return;
        }
      }
      FillEnd(source, old(St()), St(), n, out, node, stored);
      r := Cloned(Ref(out));
    }
  }

  // ------------------------------------------------------------ structuredClone

  /** The object f[n] is the copy of n. */
  ghost predicate Renamed(h: Heap, h': Heap, f: map<nat, nat>, n: nat) {
    && n in h && n in f && f[n] in h' && CoversAll(f, Children(h[n]))
    && h'[f[n]] == ImageNode(f, h[n])
  }

  /** f renames exactly the objects reachable from v to objects of h' that did
      not exist in h, one to one, keeping every label and every edge; the objects
      of h themselves are untouched. */
  ghost predicate Isomorphic(h: Heap, h': Heap, f: map<nat, nat>, v: Value) {
    && Covers(f, v) && Closed(h, f.Keys)
    && (forall s: set<nat> :: Closed(h, s) && Touches(s, v) ==> f.Keys <= s)
    && Injective(f)
    && (forall n :: n in f ==> f[n] !in h && Renamed(h, h', f, n))
    && (forall n :: n in h ==> SameObject(h, h', n))
  }

  lemma CopiedClosed(h: Heap, st: State)
    requires forall n :: n in st.seen ==> Copied(h, st, n)
    ensures Closed(h, st.seen.Keys)
    ensures forall n :: n in st.seen ==> Uncloneable !in Children(h[n])
  {
    forall n, j | n in st.seen && 0 <= j < |Children(h[n])|
      ensures Touches(st.seen.Keys, Children(h[n])[j]) && Children(h[n])[j] != Uncloneable
    {
      assert Covers(st.seen, Children(h[n])[j]);
    }
  }

  /** What the cloner leaves when it returns a value: everything reachable is copied as far
      as the code copies it, and nothing else is. */
  ghost predicate Finished(h: Heap, st: State, v: Value) {
    && Sound(h, st) && Covers(st.seen, v) && Closed(h, st.seen.Keys)
    && (forall n :: n in st.seen ==> Copied(h, st, n))
    && (forall s: set<nat> :: Closed(h, s) && Touches(s, v) ==> st.seen.Keys <= s)
  }

  lemma CloneFinished(h: Heap, start: State, st: State, v: Value)
    requires start == State(h, map[]) && Sound(h, st) && Covers(st.seen, v)
    requires Grown(h, start, st, {}) && Within(h, start, st, v)
    ensures Finished(h, st, v) && !ReachesUncloneable(h, v) && !Reaches(h, v, RefusedError)
  {
    CopiedClosed(h, st);
    assert Touches(st.seen.Keys, v) && !HoldsUncloneable(h, st.seen.Keys, v);
    assert start.seen.Keys == {};
  }

  lemma MadeIsImage(h: Heap, f: map<nat, nat>, node: Node)
    requires WellFormedNode(h, node) && Injective(f) && CoversAll(f, Children(node)) && !Awkward(node)
    ensures Made(f, node) == ImageNode(f, node)
  {
    if IsContainer(node) {
      FillComplete(h, f, node);
    }
  }

  lemma CopiedIsRenamed(h: Heap, st: State, n: nat)
    requires WellFormed(h) && Injective(st.seen) && Copied(h, st, n) && !Awkward(h[n])
    ensures Renamed(h, st.heap, st.seen, n)
  {
    hide Made, ImageNode, Awkward, WellFormedNode;
    MadeIsImage(h, st.seen, h[n]);
  }

  /** Without awkward Errors it is an isomorphic copy. */
  lemma CloneIsomorphic(h: Heap, st: State, v: Value)
    requires WellFormed(h) && Finished(h, st, v) && !Reaches(h, v, AwkwardError)
    ensures Isomorphic(h, st.heap, st.seen, v)
  {
    hide Awkward, Copied, Renamed, WellFormed, Touches;
    var s: set<nat> :| Closed(h, s) && Touches(s, v) && !Holds(h, s, AwkwardError);
    forall n | n in st.seen
      ensures Renamed(h, st.heap, st.seen, n)
    {
      assert n in s && Copied(h, st, n) && !Gives(h[n], AwkwardError);
      CopiedIsRenamed(h, st, n);
    }
  }

  /** The value found by following child positions from v, if there is one. */
  function Walk(h: Heap, v: Value, path: seq<nat>): (bool, Value)
    decreases |path|
  {
    if path == [] then (true, v)
    else if v.Ref? && v.r in h && path[0] < |Children(h[v.r])| then Walk(h, Children(h[v.r])[path[0]], path[1..])
    else (false, v)
  }

  lemma {:induction false} FlattenPairs(cs: seq<Value>, n: nat)
    requires 2 * n <= |cs|
    ensures Flatten(Pairs(cs, n)) == cs[..2 * n]
    decreases n
  {
    if n > 0 {
      FlattenPairs(cs, n - 1);
      assert Pairs(cs, n)[..n - 1] == Pairs(cs, n - 1);
    }
  }

  lemma PropsValues(names: seq<(string, Value)>, cs: seq<Value>)
    requires |cs| == |names|
    ensures PropValues(Props(names, cs)) == cs
  {
    hide PropValues, Props;
  }

  lemma ChildrenReplaced(node: Node, cs: seq<Value>)
    requires |cs| == |Children(node)| && (node.View? ==> cs[0].Ref?)
    ensures Children(WithChildren(node, cs)) == cs
  {
    hide Flatten, Pairs, PropValues, Props;
    match node {
      case Leaf(_, _) =>
      case View(_, _, _, _) =>
      case MapNode(entries) =>
        FlattenPairs(cs, |entries|);
        assert cs[..|cs|] == cs;
      case SetNode(_) =>
      case ArrayNode(_) =>
      case ErrorNode(_, _, _, fields) => PropsValues(fields, cs);
      case PlainNode(props) => PropsValues(props, cs);
      case StringNode(_, props) => PropsValues(props, cs);
    }
  }

  lemma ChildrenOfImage(f: map<nat, nat>, node: Node)
    requires CoversAll(f, Children(node))
    ensures Children(ImageNode(f, node)) == ImageAll(f, Children(node))
  {
    hide ImageAll;
    ChildrenReplaced(node, ImageAll(f, Children(node)));
  }

  /** No path tells the copy from the original: it exists in both or in neither,
      and ends at corresponding values. Two paths that meet in the original meet
      in the copy and conversely, so sharing and cycles are kept. */
  lemma {:induction false} WalkCommutes(h: Heap, h': Heap, f: map<nat, nat>, root: Value, v: Value, path: seq<nat>)
    requires Isomorphic(h, h', f, root) && Covers(f, v)
    ensures Walk(h', Image(f, v), path).0 == Walk(h, v, path).0
    ensures Walk(h, v, path).0 ==>
              Covers(f, Walk(h, v, path).1) && Walk(h', Image(f, v), path).1 == Image(f, Walk(h, v, path).1)
    decreases |path|
  {
    if path != [] && v.Ref? {
      assert Renamed(h, h', f, v.r);
      var cs := Children(h[v.r]);
      ChildrenOfImage(f, h[v.r]);
      if path[0] < |cs| {
        assert Covers(f, cs[path[0]]);
        WalkCommutes(h, h', f, root, cs[path[0]], path[1..]);
      }
    }
  }

  lemma SharingKept(h: Heap, h': Heap, f: map<nat, nat>, v: Value, p: seq<nat>, q: seq<nat>)
    requires Isomorphic(h, h', f, v) && Walk(h, v, p).0 && Walk(h, v, q).0
    ensures Walk(h', Image(f, v), p).1 == Walk(h', Image(f, v), q).1 <==> Walk(h, v, p).1 == Walk(h, v, q).1
  {
    WalkCommutes(h, h', f, v, v, p);
    WalkCommutes(h, h', f, v, v, q);
    if Walk(h, v, p).1 != Walk(h, v, q).1 {
      ImageInjective(f, Walk(h, v, p).1, Walk(h, v, q).1);
    }
  }

  lemma {:induction false} PathReaches(h: Heap, v: Value, path: seq<nat>)
    requires Walk(h, v, path).0 && Walk(h, v, path).1.Uncloneable?
    ensures ReachesUncloneable(h, v)
    decreases |path|
  {
    if path != [] {
      PathReaches(h, Children(h[v.r])[path[0]], path[1..]);
      UncloneableChild(h, v.r, path[0]);
    }
  }

  ghost predicate PathTo(h: Heap, v: Value, w: Value) {
    exists path: seq<nat> :: Walk(h, v, path) == (true, w)
  }

  lemma {:induction false} WalkOn(h: Heap, v: Value, path: seq<nat>, n: nat, j: nat)
    requires Walk(h, v, path) == (true, Ref(n)) && n in h && j < |Children(h[n])|
    ensures Walk(h, v, path + [j]) == (true, Children(h[n])[j])
    decreases |path|
  {
    if path == [] {
      assert path + [j] == [j] && [j][1..] == [];
    } else {
      assert (path + [j])[1..] == path[1..] + [j];
      WalkOn(h, Children(h[v.r])[path[0]], path[1..], n, j);
    }
  }

  lemma PathToChild(h: Heap, v: Value, n: nat, j: nat)
    requires PathTo(h, v, Ref(n)) && n in h && j < |Children(h[n])|
    ensures PathTo(h, v, Children(h[n])[j])
  {
    var path: seq<nat> :| Walk(h, v, path) == (true, Ref(n));
    WalkOn(h, v, path, n, j);
  }

  /** Cloning fails exactly when a path leads to a function or symbol: the least closed set
      of objects around a value is what paths from it reach. */
  lemma ReachesByPath(h: Heap, v: Value)
    requires WellFormed(h) && InHeap(h, v)
    ensures ReachesUncloneable(h, v) <==> PathTo(h, v, Uncloneable)
  {
    assert Walk(h, v, []) == (true, v);
    if PathTo(h, v, Uncloneable) {
      var path: seq<nat> :| Walk(h, v, path) == (true, Uncloneable);
      PathReaches(h, v, path);
    } else if ReachesUncloneable(h, v) {
      NothingHeld(h, v);
    }
  }

  lemma NothingHeld(h: Heap, v: Value)
    requires WellFormed(h) && InHeap(h, v) && !PathTo(h, v, Uncloneable)
    ensures !ReachesUncloneable(h, v)
  {
    assert Walk(h, v, []) == (true, v);
    var s := set n | n in h && PathTo(h, v, Ref(n));
    forall n, j | n in s && 0 <= j < |Children(h[n])|
      ensures Touches(s, Children(h[n])[j]) && Children(h[n])[j] != Uncloneable
    {
      PathToChild(h, v, n, j);
      ChildInHeap(h, n, j);
    }
    assert Closed(h, s) && Touches(s, v) && !HoldsUncloneable(h, s, v);
  }

  // ------------------------------------------------------------ what a copy is, field by field

  predicate Corresponds(f: map<nat, nat>, v: Value, w: Value) {
    match v
    case Prim(_) => w == v
    case Ref(r) => r in f && w == Ref(f[r])
    case Uncloneable => false
  }

  /** The same names in the same order, with corresponding values. */
  predicate SameProps(f: map<nat, nat>, props: seq<(string, Value)>, copy: seq<(string, Value)>) {
    && |copy| == |props|
    && forall j :: 0 <= j < |props| ==> copy[j].0 == props[j].0 && Corresponds(f, props[j].1, copy[j].1)
  }

  predicate SameValues(f: map<nat, nat>, vs: seq<Value>, copy: seq<Value>) {
    |copy| == |vs| && forall j :: 0 <= j < |vs| ==> Corresponds(f, vs[j], copy[j])
  }

  predicate SameEntries(f: map<nat, nat>, es: seq<(Value, Value)>, copy: seq<(Value, Value)>) {
    && |copy| == |es|
    && forall j :: 0 <= j < |es| ==> Corresponds(f, es[j].0, copy[j].0) && Corresponds(f, es[j].1, copy[j].1)
  }

  /** An object of the same kind with the same data, and with corresponding values in the
      same places. */
  predicate IsCopyOf(f: map<nat, nat>, node: Node, copy: Node) {
    match node
    case Leaf(kind, data) => copy.Leaf? && copy.kind == kind && copy.data == data
    case View(ctor, buffer, offset, length) =>
      && copy.View? && copy.ctor == ctor && copy.offset == offset && copy.length == length
      && buffer in f && copy.buffer == f[buffer]
    case MapNode(entries) => copy.MapNode? && SameEntries(f, entries, copy.entries)
    case SetNode(members) => copy.SetNode? && SameValues(f, members, copy.members)
    case ArrayNode(items) => copy.ArrayNode? && SameValues(f, items, copy.items)
    case ErrorNode(name, message, stack, fields) =>
      && copy.ErrorNode? && copy.name == name && copy.message == message && copy.stack == stack
      && SameProps(f, fields, copy.fields)
    case PlainNode(props) => copy.PlainNode? && SameProps(f, props, copy.props)
    case StringNode(text, props) => copy.StringNode? && copy.text == text && SameProps(f, props, copy.props)
  }

  lemma PropsSame(f: map<nat, nat>, props: seq<(string, Value)>)
    requires CoversAll(f, PropValues(props))
    ensures SameProps(f, props, Props(props, ImageAll(f, PropValues(props))))
  {
    hide PropValues, Props, ImageAll;
    var vs := PropValues(props);
    forall j | 0 <= j < |props|
      ensures Corresponds(f, props[j].1, ImageAll(f, vs)[j])
    {
      assert Covers(f, vs[j]);
    }
  }

  lemma EntriesSame(f: map<nat, nat>, es: seq<(Value, Value)>)
    requires CoversAll(f, Flatten(es))
    ensures SameEntries(f, es, Pairs(ImageAll(f, Flatten(es)), |es|))
  {
    hide Flatten, Pairs, ImageAll;
    var vs := Flatten(es);
    var cs := ImageAll(f, vs);
    forall j | 0 <= j < |es|
      ensures Corresponds(f, es[j].0, PairAt(cs, j).0) && Corresponds(f, es[j].1, PairAt(cs, j).1)
    {
      assert PairAt(vs, j) == es[j] && Covers(f, vs[2 * j]) && Covers(f, vs[2 * j + 1]);
    }
  }

  lemma ImageIsCopyOf(f: map<nat, nat>, node: Node)
    requires CoversAll(f, Children(node))
    ensures IsCopyOf(f, node, ImageNode(f, node))
  {
    hide Flatten, Pairs, PropValues, Props, ImageAll, SameProps, SameEntries;
    match node {
      case Leaf(_, _) =>
      case View(_, buffer, _, _) => assert Covers(f, Children(node)[0]);
      case MapNode(entries) => EntriesSame(f, entries);
      case SetNode(members) => assert forall j :: 0 <= j < |members| ==> Covers(f, members[j]);
      case ArrayNode(items) => assert forall j :: 0 <= j < |items| ==> Covers(f, items[j]);
      case ErrorNode(_, _, _, fields) => PropsSame(f, fields);
      case PlainNode(props) => PropsSame(f, props);
      case StringNode(_, props) => PropsSame(f, props);
    }
  }

  lemma CorrespondsIsImage(f: map<nat, nat>, v: Value, w: Value)
    requires Corresponds(f, v, w)
    ensures Covers(f, v) && w == Image(f, v)
  {
  }

  lemma SamePropsIs(f: map<nat, nat>, props: seq<(string, Value)>, copy: seq<(string, Value)>)
    requires SameProps(f, props, copy)
    ensures CoversAll(f, PropValues(props)) && copy == Props(props, ImageAll(f, PropValues(props)))
  {
    hide PropValues, Props, ImageAll;
    forall j | 0 <= j < |props|
      ensures Covers(f, PropValues(props)[j]) && copy[j] == (props[j].0, Image(f, props[j].1))
    {
      CorrespondsIsImage(f, props[j].1, copy[j].1);
    }
  }

  lemma SameValuesIs(f: map<nat, nat>, vs: seq<Value>, copy: seq<Value>)
    requires SameValues(f, vs, copy)
    ensures CoversAll(f, vs) && copy == ImageAll(f, vs)
  {
    hide ImageAll;
    forall j | 0 <= j < |vs|
      ensures Covers(f, vs[j]) && copy[j] == Image(f, vs[j])
    {
      CorrespondsIsImage(f, vs[j], copy[j]);
    }
  }

  lemma SameEntriesIs(f: map<nat, nat>, es: seq<(Value, Value)>, copy: seq<(Value, Value)>)
    requires SameEntries(f, es, copy)
    ensures CoversAll(f, Flatten(es)) && copy == Pairs(ImageAll(f, Flatten(es)), |es|)
  {
    hide Flatten, Pairs, ImageAll;
    var vs := Flatten(es);
    forall i | 0 <= i < |vs|
      ensures Covers(f, vs[i])
    {
      var j := i / 2;
      assert PairAt(vs, j) == es[j] && (i == 2 * j || i == 2 * j + 1);
      CorrespondsIsImage(f, es[j].0, copy[j].0);
      CorrespondsIsImage(f, es[j].1, copy[j].1);
    }
    forall j | 0 <= j < |es|
      ensures copy[j] == PairAt(ImageAll(f, vs), j)
    {
      assert PairAt(vs, j) == es[j];
      CorrespondsIsImage(f, es[j].0, copy[j].0);
      CorrespondsIsImage(f, es[j].1, copy[j].1);
    }
  }

  /** And nothing else is the image: a copy is determined field by field. */
  lemma CopyOfIsImage(f: map<nat, nat>, node: Node, copy: Node)
    requires IsCopyOf(f, node, copy)
    ensures CoversAll(f, Children(node)) && copy == ImageNode(f, node)
  {
    hide Flatten, Pairs, PropValues, Props, ImageAll, SameProps, SameEntries, SameValues;
    match node {
      case Leaf(_, _) =>
      case View(_, buffer, _, _) => assert Children(node) == [Ref(buffer)];
      case MapNode(entries) => SameEntriesIs(f, entries, copy.entries);
      case SetNode(members) => SameValuesIs(f, members, copy.members);
      case ArrayNode(items) => SameValuesIs(f, items, copy.items);
      case ErrorNode(_, _, _, fields) => SamePropsIs(f, fields, copy.fields);
      case PlainNode(props) => SamePropsIs(f, props, copy.props);
      case StringNode(_, props) => SamePropsIs(f, props, copy.props);
    }
  }

  /** Every object reached has an object of its own in the copy that agrees with it in kind,
      data, names and order, and whose references lead to the corresponding objects. */
  lemma IsomorphicFields(h: Heap, h': Heap, f: map<nat, nat>, v: Value)
    requires Isomorphic(h, h', f, v)
    ensures forall n :: n in f ==> n in h && f[n] in h' && IsCopyOf(f, h[n], h'[f[n]])
  {
    hide IsCopyOf, ImageNode;
    forall n | n in f
      ensures n in h && f[n] in h' && IsCopyOf(f, h[n], h'[f[n]])
    {
      assert Renamed(h, h', f, n);
      ImageIsCopyOf(f, h[n]);
    }
  }

  // ------------------------------------------------------------ awkward Errors

  lemma ReachedByPath(h: Heap, st: State, v: Value, n: nat)
    requires WellFormed(h) && InHeap(h, v) && Finished(h, st, v) && n in st.seen
    ensures PathTo(h, v, Ref(n))
  {
    assert Walk(h, v, []) == (true, v);
    var s := set m | m in h && PathTo(h, v, Ref(m));
    forall m, j | m in s && 0 <= j < |Children(h[m])|
      ensures Touches(s, Children(h[m])[j])
    {
      PathToChild(h, v, m, j);
      ChildInHeap(h, m, j);
    }
    assert Closed(h, s) && Touches(s, v);
  }

  lemma AwkwardDiffers(h: Heap, st: State, g: map<nat, nat>, m: nat)
    requires Copied(h, st, m) && Renamed(h, st.heap, g, m) && Awkward(h[m])
    ensures st.seen[m] != g[m]
  {
    hide Fill, WithChildren, ImageAll;
    FillAwkward(h[m], ImageAll(st.seen, Children(h[m])), ImageAll(g, Children(h[m])));
  }

  lemma ChildCovered(h: Heap, st: State, g: map<nat, nat>, m: nat, j: nat)
    requires Copied(h, st, m) && Renamed(h, st.heap, g, m) && j < |Children(h[m])|
    ensures Covers(st.seen, Children(h[m])[j]) && Covers(g, Children(h[m])[j])
  {
  }

  lemma ChildDiffers(h: Heap, st: State, g: map<nat, nat>, m: nat, j: nat)
    requires m in h && WellFormed(h) && Injective(st.seen) && !Awkward(h[m])
    requires Copied(h, st, m) && Renamed(h, st.heap, g, m) && j < |Children(h[m])|
    requires Covers(st.seen, Children(h[m])[j]) && Covers(g, Children(h[m])[j])
    requires Image(st.seen, Children(h[m])[j]) != Image(g, Children(h[m])[j])
    ensures st.seen[m] != g[m]
  {
    hide Made, ImageNode, Awkward, Injective, WellFormedNode;
    MadeIsImage(h, st.seen, h[m]);
    ChildrenOfImage(st.seen, h[m]);
    ChildrenOfImage(g, h[m]);
    assert ImageAll(st.seen, Children(h[m]))[j] != ImageAll(g, Children(h[m]))[j];
  }

  /** Down a path to an awkward Error, the copy that was made and an isomorphic one agree
      until the first such Error, and there they cannot. */
  lemma {:induction false} NoIsomorphism(h: Heap, st: State, g: map<nat, nat>, root: Value, v: Value,
                                         path: seq<nat>, n: nat)
    requires WellFormed(h) && Finished(h, st, root) && Isomorphic(h, st.heap, g, root)
    requires Walk(h, v, path) == (true, Ref(n)) && n in h && Awkward(h[n])
    requires Covers(st.seen, v) && Covers(g, v)
    ensures Image(st.seen, v) != Image(g, v)
    decreases |path|
  {
    hide Copied, Renamed, Awkward, Injective, Closed;
    var m := v.r;
    assert Copied(h, st, m) && Renamed(h, st.heap, g, m);
    if Awkward(h[m]) {
      AwkwardDiffers(h, st, g, m);
    } else {
      var j := path[0];
      ChildCovered(h, st, g, m, j);
      NoIsomorphism(h, st, g, root, Children(h[m])[j], path[1..], n);
      ChildDiffers(h, st, g, m, j);
    }
  }

  /** With one no renaming makes the result a copy. */
  lemma AwkwardIsNoCopy(h: Heap, st: State, v: Value, g: map<nat, nat>)
    requires WellFormed(h) && InHeap(h, v) && Finished(h, st, v) && Reaches(h, v, AwkwardError)
    requires Isomorphic(h, st.heap, g, v)
    ensures Image(st.seen, v) != Image(g, v)
  {
    assert Touches(st.seen.Keys, v);
    var n :| n in st.seen.Keys && n in h && Gives(h[n], AwkwardError);
    ReachedByPath(h, st, v, n);
    var path: seq<nat> :| Walk(h, v, path) == (true, Ref(n));
    NoIsomorphism(h, st, g, v, v, path, n);
  }

  /** A renaming under which the result is an isomorphic copy. */
  ghost predicate IsCopy(h: Heap, h': Heap, v: Value, r: Value) {
    exists g: map<nat, nat> :: Isomorphic(h, h', g, v) && r == Image(g, v)
  }

  /** `structuredClone(value)` without a transfer list. It returns an isomorphic copy exactly
      when no function or symbol and no awkward Error can be reached. It throws a
      DataCloneError only when a function or symbol can be reached, and, without awkward
      Errors, always then; it throws a TypeError only for an awkward Error, and never returns
      when one is refused. */
  method Clone(h: Heap, limit: nat, v: Value) returns (r: Result, h': Heap, f: map<nat, nat>)
    requires WellFormed(h) && InHeap(h, v) && forall n :: n in h ==> n < limit
    ensures r.Cloned? && IsCopy(h, h', v, r.v) <==> !ReachesUncloneable(h, v) && !Reaches(h, v, AwkwardError)
    ensures r.DataCloneError? ==> ReachesUncloneable(h, v)
    ensures r.TypeError? ==> Reaches(h, v, AwkwardError)
    ensures r.Cloned? ==> !ReachesUncloneable(h, v) && !Reaches(h, v, RefusedError)
    ensures r.Cloned? && !Reaches(h, v, AwkwardError) ==> Isomorphic(h, h', f, v) && r.v == Image(f, v)
    ensures r.Cloned? && !Reaches(h, v, AwkwardError) ==> Corresponds(f, v, r.v)
    ensures r.Cloned? && !Reaches(h, v, AwkwardError) ==>
              forall n :: n in f ==> n in h && f[n] in h' && IsCopyOf(f, h[n], h'[f[n]])
    ensures forall n :: n in h ==> SameObject(h, h', n)
  {
    var cloner := new Cloner(h, limit);
    ghost var start := cloner.St();
    r := cloner.FullClone(v);
    h', f := cloner.heap, cloner.seen;
    if r.Cloned? {
      ghost var st := State(h', f);
      CloneFinished(h, start, st, v);
      if Reaches(h, v, AwkwardError) {
        forall g: map<nat, nat> | Isomorphic(h, h', g, v)
          ensures r.v != Image(g, v)
        {
          AwkwardIsNoCopy(h, st, v, g);
        }
      } else {
        CloneIsomorphic(h, st, v);
        IsomorphicFields(h, h', f, v);
      }
    }
  }

  /** An Error with one of these names throws, although nothing uncloneable is there. */
  method CloneInherited(name: string, message: string, stack: string) returns (r: Result)
    requires name == "toString" || name == "toLocaleString" || name == "valueOf" || name == "hasOwnProperty"
             || name == "isPrototypeOf" || name == "propertyIsEnumerable" || name == "__proto__"
             || name == "__defineGetter__" || name == "__defineSetter__" || name == "__lookupGetter__"
             || name == "__lookupSetter__"
    ensures r == TypeError
  {
    var h: Heap := map[0 := ErrorNode(name, message, stack, [])];
    var h', f;
    assert Closed(h, {0}) && Touches({0}, Ref(0)) && !HoldsUncloneable(h, {0}, Ref(0));
    ReachesItself(h, 0, RefusedError);
    r, h', f := Clone(h, 1, Ref(0));
  }

  /** One called constructor becomes a String object, and a field called __proto__ is lost. */
  lemma AwkwardExamples(message: string, stack: string)
    ensures Fill(ErrorNode("constructor", message, stack, []), []).StringNode?
    ensures Fill(ErrorNode("Error", message, stack, [("__proto__", Prim(Null))]), [Prim(Null)])
            == ErrorNode("Error", message, stack, [])
  {
    assert [Prim(Null)][..0] == [];
  }
}
