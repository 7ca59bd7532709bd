/** The in-memory file system: one flat table from path strings to nodes, which
    every operation keeps a tree. */
module MemFS {
  import opened Options
  import opened Paths

  datatype Node = Node(isDir: bool, perm: nat, data: seq<bv8>, modTime: int)

  type Nodes = map<string, Node>

  datatype Error = NoError | ErrInvalid | ErrExist | ErrNotExist | ErrNotDirectory

  /** The permission bits of a mode. */
  function PermBits(mode: nat): nat {
    mode % 512
  }

  predicate IsDirAt(m: Nodes, p: string) {
    p in m && m[p].isDir
  }

  /** The table is a tree: the root is a directory, every other key is a clean path,
      and its parent is there and is a directory. */
  predicate Tree(m: Nodes) {
    && IsDirAt(m, ".")
    && (forall p {:trigger Dir(p)} :: p in m && p != "." ==> IsName(p) && IsDirAt(m, Dir(p)))
  }

  /** Every directory above a node of a tree is in it. */
  lemma {:induction false} AncestorPresent(m: Nodes, p: string, d: string)
    requires Tree(m) && p in m && Below(p, d)
    ensures IsDirAt(m, d)
    decreases |p|
  {
    DirBelow(p, d);
    if Dir(p) != d {
      AncestorPresent(m, Dir(p), d);
    }
  }

  lemma NothingBelowFile(m: Nodes, d: string)
    requires Tree(m) && !IsDirAt(m, d)
    ensures forall p :: p in m ==> !Below(p, d)
  {
    forall p | p in m
      ensures !Below(p, d)
    {
      if Below(p, d) {
        AncestorPresent(m, p, d);
      }
    }
  }

  // -------------------------------------------------------------- renaming, as a relation

  /** What a rename leaves at q: what was at q's place in the old subtree, or else what
      was at q outside it. */
  function NodeAfterRename(m: Nodes, from: string, to: string, q: string): Option<Node> {
    if Under(q, to) && Moved(q, to, from) in m then Some(m[Moved(q, to, from)])
    else if q in m && !Under(q, from) then Some(m[q])
    else None
  }

  ghost predicate Relocated(m: Nodes, from: string, to: string, m': Nodes) {
    forall q :: NodeAfterRename(m, from, to, q) == if q in m' then Some(m'[q]) else None
  }

  /** A rename that can go ahead without moving a directory beneath itself. */
  predicate Renamable(m: Nodes, from: string, to: string) {
    && IsName(from) && IsName(to) && from in m && !IsDirAt(m, to) && IsDirAt(m, Dir(to))
    && !Below(to, from)
  }

  /** The two names are not above one another. */
  lemma RenamableApart(m: Nodes, from: string, to: string)
    requires Tree(m) && Renamable(m, from, to)
    ensures !Below(from, to) && !Below(to, from)
    ensures m[from].isDir ==> from != to
    ensures forall q :: Under(q, to) && Under(q, from) ==> from == to
  {
    NothingBelowFile(m, to);
    forall q | Under(q, to) && Under(q, from)
      ensures from == to
    {
      Comparable(q, to, from);
    }
  }

  lemma DirOutside(q: string, from: string)
    requires IsName(q) && IsName(from) && !Below(q, from)
    ensures !Under(Dir(q), from)
  {
    DirBelow(q, from);
  }

  /** The moved subtree hangs together, and so does what it was taken out of. */
  lemma RelocatedTree(m: Nodes, from: string, to: string, m': Nodes)
    requires Tree(m) && Renamable(m, from, to) && Relocated(m, from, to, m')
    ensures Tree(m')
  {
    NothingBelowFile(m, to);
    RenamableApart(m, from, to);
    DirOfName(to);
    DirOutside(to, from);
    RootStays(m, from, to, m');
    forall q | q in m' && q != "."
      ensures IsName(q) && IsDirAt(m', Dir(q))
    {
      assert NodeAfterRename(m, from, to, q) == Some(m'[q]);
      assert NodeAfterRename(m, from, to, Dir(q)) == if Dir(q) in m' then Some(m'[Dir(q)]) else None;
      if Below(q, to) {
        RelocatedBelow(m, from, to, q);
      } else if q == to {
        DirBelow(to, to);
      } else {
        DirOutside(q, from);
        DirOutside(q, to);
      }
    }
  }

  lemma RootStays(m: Nodes, from: string, to: string, m': Nodes)
    requires Tree(m) && Renamable(m, from, to) && Relocated(m, from, to, m')
    ensures IsDirAt(m', ".")
  {
    assert !Under(".", from) && !Under(".", to);
    assert NodeAfterRename(m, from, to, ".") == if "." in m' then Some(m'["."]) else None;
  }

  lemma RelocatedBelow(m: Nodes, from: string, to: string, q: string)
    requires Tree(m) && Renamable(m, from, to)
    requires NodeAfterRename(m, from, to, q).Some? && Below(q, to)
    ensures IsName(q)
    ensures NodeAfterRename(m, from, to, Dir(q)).Some? && NodeAfterRename(m, from, to, Dir(q)).value.isDir
  {
    NothingBelowFile(m, to);
    var p := Moved(q, to, from);
    MovedBack(q, to, from);
    MovedDir(q, to, from);
    MovedName(p, from, to);
  }

  /** Renaming back where nothing was replaced restores every node. */
  lemma RenameBack(m: Nodes, from: string, to: string, m': Nodes, m'': Nodes)
    requires Tree(m) && Renamable(m, from, to) && to !in m
    requires Relocated(m, from, to, m') && Relocated(m', to, from, m'')
    ensures Renamable(m', to, from) && m'' == m
  {
    NothingBelowFile(m, to);
    RenamableApart(m, from, to);
    AfterIs(m, from, to, m', from);
    AfterIs(m, from, to, m', to);
    assert Moved(to, to, from) == from;
    DirOfName(from);
    DirOutside(from, to);
    DirBelow(from, from);
    AfterIs(m, from, to, m', Dir(from));
    forall q
      ensures q in m'' <==> q in m
      ensures q in m ==> m''[q] == m[q]
    {
      BackAt(m, from, to, m', m'', q);
    }
  }

  lemma AfterIs(m: Nodes, from: string, to: string, m': Nodes, q: string)
    requires Relocated(m, from, to, m')
    ensures NodeAfterRename(m, from, to, q) == if q in m' then Some(m'[q]) else None
  {
  }

  lemma BackAt(m: Nodes, from: string, to: string, m': Nodes, m'': Nodes, q: string)
    requires Tree(m) && Renamable(m, from, to) && to !in m
    requires Relocated(m, from, to, m') && Relocated(m', to, from, m'')
    ensures q in m'' <==> q in m
    ensures q in m ==> m''[q] == m[q]
  {
    NothingBelowFile(m, to);
    RenamableApart(m, from, to);
    AfterIs(m, from, to, m', q);
    AfterIs(m', to, from, m'', q);
    if Under(q, from) {
      var p := Moved(q, from, to);
      MovedBack(q, from, to);
      AfterIs(m, from, to, m', p);
    } else if Under(q, to) {
      MovedBack(q, to, from);
    }
  }

  /** Whatever order the table was ranged over in, the outcome is the same. */
  lemma RelocatedUnique(m: Nodes, from: string, to: string, m': Nodes, m'': Nodes)
    requires Relocated(m, from, to, m') && Relocated(m, from, to, m'')
    ensures m' == m''
  {
    forall q
      ensures q in m' <==> q in m''
      ensures q in m' ==> m'[q] == m''[q]
    {
      AfterIs(m, from, to, m', q);
      AfterIs(m, from, to, m'', q);
    }
  }

  // -------------------------------------------------------------- the rename loop

  /** What is at q once from and the paths in moved have gone to their new places. */
  function NodeDuring(m: Nodes, from: string, to: string, moved: set<string>, q: string): Option<Node>
    requires from in m && moved <= m.Keys
  {
    if Under(q, to) && (Moved(q, to, from) == from || Moved(q, to, from) in moved) then
      Some(m[Moved(q, to, from)])
    else if q in m && q != from && q != to && q !in moved then Some(m[q])
    else None
  }

  ghost predicate Moving(m: Nodes, from: string, to: string, moved: set<string>, cur: Nodes) {
    && from in m && moved <= m.Keys
    && (forall p :: p in moved ==> Below(p, from))
    && (forall q :: NodeDuring(m, from, to, moved, q) == if q in cur then Some(cur[q]) else None)
  }

  lemma MovingStart(m: Nodes, from: string, to: string)
    requires from in m
    ensures Moving(m, from, to, {}, (m - {from})[to := m[from]])
  {
    var cur := (m - {from})[to := m[from]];
    assert Moved(to, to, from) == from;
    forall q
      ensures NodeDuring(m, from, to, {}, q) == if q in cur then Some(cur[q]) else None
    {
      if Under(q, to) {
        MovedBack(q, to, from);
      }
    }
  }

  /** Any path still below the old name is one of the original nodes, not yet moved. */
  lemma MovingPick(m: Nodes, from: string, to: string, moved: set<string>, cur: Nodes, p: string)
    requires Tree(m) && Renamable(m, from, to) && m[from].isDir && Moving(m, from, to, moved, cur)
    requires p in cur && Below(p, from)
    ensures p in m && cur[p] == m[p] && p !in moved && !Under(p, to)
  {
    RenamableApart(m, from, to);
    assert NodeDuring(m, from, to, moved, p) == Some(cur[p]);
  }

  lemma MovingStep(m: Nodes, from: string, to: string, moved: set<string>, cur: Nodes, p: string)
    requires Tree(m) && Renamable(m, from, to) && m[from].isDir && Moving(m, from, to, moved, cur)
    requires p in cur && Below(p, from)
    ensures p in m
    ensures Moving(m, from, to, moved + {p}, (cur - {p})[Moved(p, from, to) := cur[p]])
  {
    MovingPick(m, from, to, moved, cur, p);
    var next := (cur - {p})[Moved(p, from, to) := cur[p]];
    forall q
      ensures NodeDuring(m, from, to, moved + {p}, q) == if q in next then Some(next[q]) else None
    {
      MovingStepAt(m, from, to, moved, cur, p, q);
    }
  }

  lemma MovingStepAt(m: Nodes, from: string, to: string, moved: set<string>, cur: Nodes, p: string, q: string)
    requires from in m && p in m && moved <= m.Keys && Below(p, from) && !Under(p, to)
    requires p in cur && cur[p] == m[p]
    requires NodeDuring(m, from, to, moved, q) == if q in cur then Some(cur[q]) else None
    ensures var next := (cur - {p})[Moved(p, from, to) := cur[p]];
      NodeDuring(m, from, to, moved + {p}, q) == if q in next then Some(next[q]) else None
  {
    MovedBack(p, from, to);
    if Under(q, to) {
      MovedBack(q, to, from);
    }
  }

  lemma MovingEnd(m: Nodes, from: string, to: string, moved: set<string>, cur: Nodes)
    requires Tree(m) && Renamable(m, from, to) && Moving(m, from, to, moved, cur)
    requires forall p :: p in m && Below(p, from) ==> p in moved
    ensures Relocated(m, from, to, cur)
  {
    forall q
      ensures NodeAfterRename(m, from, to, q) == if q in cur then Some(cur[q]) else None
    {
      assert NodeDuring(m, from, to, moved, q) == if q in cur then Some(cur[q]) else None;
      if Under(q, to) {
        MovedBack(q, to, from);
      }
    }
  }

  /** A table that lost a name but keeps something below it is not a tree. */
  lemma Orphaned(m: Nodes, d: string, p: string)
    requires d !in m && p in m && Below(p, d)
    ensures !Tree(m)
  {
    if Tree(m) {
      AncestorPresent(m, p, d);
    }
  }

  lemma StaysOrphaned(m: Nodes, d: string)
    requires d !in m && HasBelow(m, d)
    ensures !Tree(m)
  {
    var p :| p in m && Below(p, d);
    Orphaned(m, d, p);
  }

  predicate HasBelow(m: Nodes, d: string) {
    exists p :: p in m && Below(p, d)
  }

  // -------------------------------------------------------------- children

  predicate ChildOf(p: string, dir: string) {
    p != "." && Dir(p) == dir
  }

  /** p is dir or lies somewhere in it. */
  predicate Within(p: string, dir: string) {
    dir == "." || Under(p, dir)
  }

  function Subtree(m: Nodes, dir: string): set<string> {
    set p | p in m && Within(p, dir)
  }

  predicate InChild(m: Nodes, p: string, dir: string, c: string) {
    c in m && ChildOf(c, dir) && Under(p, c)
  }

  /** Whatever lies in a directory lies in one of its children. */
  lemma {:induction false} ChildAbove(m: Nodes, p: string, dir: string) returns (c: string)
    requires Tree(m) && p in m && p != dir && p != "." && Within(p, dir)
    ensures InChild(m, p, dir, c)
    decreases |p|
  {
    DirOfName(p);
    if Dir(p) == dir {
      c := p;
    } else {
      DirBelow(p, dir);
      assert Dir(p) != ".";
      c := ChildAbove(m, Dir(p), dir);
      DirBelow(p, c);
    }
  }

  lemma ChildInside(p: string, c: string, dir: string)
    requires IsName(c) && ChildOf(c, dir) && Under(p, c)
    ensures Within(p, dir) && p != dir
  {
    DirOfName(c);
    if dir != "." {
      BelowTrans(p, c, dir);
    }
  }

  lemma SiblingsApart(c: string, d: string, dir: string, p: string)
    requires IsName(c) && IsName(d) && ChildOf(c, dir) && ChildOf(d, dir) && c != d
    requires Under(p, c)
    ensures !Under(p, d)
  {
    if Under(p, d) {
      Comparable(p, c, d);
      var a, b := if Below(c, d) then c else d, if Below(c, d) then d else c;
      DirBelow(a, b);
      DirOfName(b);
      DirOfName(a);
    }
  }

  function Without(m: Nodes, dir: string): Nodes {
    map p | p in m && !Under(p, dir) :: m[p]
  }

  // -------------------------------------------------------------- the operations

  /** The open flags that decide anything here. */
  datatype Flags = Flags(writeOnly: bool, readWrite: bool, append: bool, create: bool, excl: bool, trunc: bool)
  {
    predicate Writes() {
      writeOnly || readWrite || append || create || trunc
    }
  }

  datatype DirEntry = DirEntry(name: string, isDir: bool)

  /** Why nothing can be created at name, if so. */
  function ParentError(m: Nodes, name: string): Error {
    if Dir(name) !in m then ErrNotExist
    else if !m[Dir(name)].isDir then ErrInvalid
    else NoError
  }

  function OpenError(m: Nodes, name: string, flags: Flags): Error {
    if !flags.Writes() then
      if !ValidPath(name) then ErrInvalid else if name !in m then ErrNotExist else NoError
    else if !IsName(name) then ErrInvalid
    else if name in m then
      if m[name].isDir then ErrInvalid else if flags.create && flags.excl then ErrExist else NoError
    else if !flags.create then ErrNotExist
    else ParentError(m, name)
  }

  function MkdirError(m: Nodes, name: string): Error {
    if !IsName(name) then ErrInvalid
    else if name in m then ErrExist
    else ParentError(m, name)
  }

  function RenameError(m: Nodes, from: string, to: string): Error {
    if !IsName(from) || !IsName(to) then ErrInvalid
    else if from !in m then ErrNotExist
    else if IsDirAt(m, to) then ErrExist
    else ParentError(m, to)
  }

  /** A rename beneath oneself that goes ahead is of a directory. */
  lemma ParentIsDirectory(m: Nodes, from: string, to: string)
    requires Tree(m) && IsName(from) && Below(to, from) && ParentError(m, to) == NoError
    ensures IsDirAt(m, from)
  {
    DirBelow(to, from);
    if Dir(to) != from {
      AncestorPresent(m, Dir(to), from);
    }
  }

  /** Such a rename is accepted: a directory a with nothing in it, renamed to a/b. */
  lemma RenameBeneathAccepted(now: int)
    ensures var m := map["." := Node(true, 0x1ed, [], now), "a" := Node(true, 0x1ed, [], now)];
      Tree(m) && RenameError(m, "a", "a/b") == NoError && Below("a/b", "a")
  {
    assert LastSlash("a") == -1 && Dir("a") == "." && Element("a") && IsName("a");
    LastSlashUnique("a/b", 1);
    assert "a/b"[..1] == "a" && "a/b"[2..] == "b" && Element("b");
    assert IsName("a/b") && Dir("a/b") == "a";
  }

  lemma ChildlessRemoved(m: Nodes, name: string)
    requires Tree(m) && IsName(name) && !HasChild(m, name)
    ensures Tree(m - {name})
  {
    forall p | p in m && p != "."
      ensures Dir(p) != name
    {
      assert ChildOf(p, Dir(p));
    }
  }

  ghost predicate HasChild(m: Nodes, dir: string) {
    exists p :: p in m && ChildOf(p, dir)
  }

  ghost function RemoveError(m: Nodes, name: string): Error {
    if !IsName(name) then ErrInvalid
    else if name !in m then ErrNotExist
    else if HasChild(m, name) then ErrInvalid
    else NoError
  }

  lemma SameKindTree(m: Nodes, name: string, n: Node)
    requires Tree(m) && name in m && m[name].isDir == n.isDir
    ensures Tree(m[name := n])
  {
    forall p | p in m && p != "."
      ensures IsName(p) && IsDirAt(m[name := n], Dir(p))
    {
      assert IsDirAt(m, Dir(p));
    }
  }

  lemma PutTree(m: Nodes, name: string, n: Node)
    requires Tree(m) && IsName(name) && ParentError(m, name) == NoError
    requires name in m ==> m[name].isDir == n.isDir
    ensures Tree(m[name := n])
  {
    DirOfName(name);
    forall p | p in m && p != "."
      ensures IsName(p) && IsDirAt(m[name := n], Dir(p))
    {
      assert IsDirAt(m, Dir(p));
    }
  }

  ghost predicate BlockedByFile(m: Nodes, name: string) {
    exists p :: p in m && Under(name, p) && !m[p].isDir
  }

  /** m' is m with name a directory: every node kept, and new directories on the way only. */
  ghost predicate MadeAll(m: Nodes, name: string, made: Node, m': Nodes) {
    && Tree(m') && IsDirAt(m', name) && m.Keys <= m'.Keys
    && (forall p :: p in m' ==> if p in m then m'[p] == m[p] else Under(name, p) && m'[p] == made)
  }

  lemma MadeAllNotBlocked(m: Nodes, name: string, made: Node, m': Nodes)
    requires MadeAll(m, name, made, m')
    ensures !BlockedByFile(m, name)
  {
    forall p | p in m && Under(name, p)
      ensures m[p].isDir
    {
      if p != name {
        AncestorPresent(m', name, p);
      }
    }
  }

  lemma BlockedAbove(m: Nodes, name: string)
    requires IsName(name) && Dir(name) != "." && BlockedByFile(m, Dir(name))
    ensures BlockedByFile(m, name)
  {
    DirOfName(name);
    var p :| p in m && Under(Dir(name), p) && !m[p].isDir;
    DirBelow(name, p);
  }

  /** The last step, with every directory above name made. */
  lemma MadeAllStep(m: Nodes, name: string, made: Node, mid: Nodes)
    requires Tree(m) && IsName(name) && made.isDir && MadeAll(m, Dir(name), made, mid)
    ensures name !in mid ==> MkdirError(mid, name) == NoError && MadeAll(m, name, made, mid[name := made])
    ensures IsDirAt(mid, name) ==> MadeAll(m, name, made, mid)
  {
    DirOfName(name);
    forall p | p in mid && p !in m
      ensures Under(name, p)
    {
      DirBelow(name, p);
    }
    if name !in mid {
      PutTree(mid, name, made);
    }
  }

  /** A file at name itself: then everything above it was there already. */
  lemma MadeAllFile(m: Nodes, name: string, made: Node, mid: Nodes)
    requires Tree(m) && IsName(name) && made.isDir && MadeAll(m, Dir(name), made, mid)
    requires name in mid && !mid[name].isDir
    ensures mid == m && BlockedByFile(m, name)
  {
    forall p | p in mid
      ensures p in m
    {
      if p !in m {
        DirBelow(name, p);
        AncestorPresent(m, name, p);
      }
    }
  }

  class FileSystem {
    var nodes: Nodes

    constructor (now: int)
      ensures Tree(nodes) && nodes.Keys == {"."}
    {
      nodes := map["." := Node(true, 0x1ed, [], now)];
    }

    /** Opening writes only the node opened, and only a file. */
    method OpenFile(name: string, flags: Flags, perm: nat, now: int) returns (err: Error)
      requires Tree(nodes)
      modifies this
      ensures Tree(nodes)
      ensures err == OpenError(old(nodes), name, flags)
      ensures err != NoError || !flags.Writes() ==> nodes == old(nodes)
      ensures name in old(nodes) && !old(nodes)[name].isDir && flags.create && flags.excl ==>
                err == ErrExist && nodes == old(nodes)
      ensures IsDirAt(old(nodes), name) && flags.Writes() ==> err == ErrInvalid
      ensures ValidPath(name) && name !in old(nodes) ==>
                (err == NoError <==> flags.create && IsDirAt(old(nodes), Dir(name)))
      ensures err == NoError && flags.Writes() ==>
                && name in nodes && !nodes[name].isDir && nodes - {name} == old(nodes) - {name}
                && nodes[name].modTime == now
                && nodes[name].data == (if name in old(nodes) && !flags.trunc then old(nodes)[name].data else [])
                && nodes[name].perm == (if name in old(nodes) then old(nodes)[name].perm else perm % 0x200)
    {
      if !flags.Writes() {
        return if !ValidPath(name) then ErrInvalid else if name !in nodes then ErrNotExist else NoError;
      }
      if !ValidPath(name) || name == "." {
        return ErrInvalid;
      }
      var n: Node;
      if name in nodes {
        n := nodes[name];
        if n.isDir {
          return ErrInvalid;
        }
        if flags.create && flags.excl {
          return ErrExist;
        }
        if flags.trunc {
          n := n.(data := []);
        }
      } else if !flags.create {
        return ErrNotExist;
      } else {
        err := ParentError(nodes, name);
        if err != NoError {
          return;
        }
        n := Node(false, PermBits(perm), [], now);
      }
      PutTree(nodes, name, n.(modTime := now));
      nodes := nodes[name := n.(modTime := now)];
      err := NoError;
    }

    method Mkdir(name: string, perm: nat, now: int) returns (err: Error)
      requires Tree(nodes)
      modifies this
      ensures Tree(nodes)
      ensures err == MkdirError(old(nodes), name)
      ensures nodes == if err == NoError then old(nodes)[name := Node(true, perm % 0x200, [], now)] else old(nodes)
    {
      if !ValidPath(name) || name == "." {
        return ErrInvalid;
      }
      if name in nodes {
        return ErrExist;
      }
      err := ParentError(nodes, name);
      if err == NoError {
        PutTree(nodes, name, Node(true, PermBits(perm), [], now));
        nodes := nodes[name := Node(true, PermBits(perm), [], now)];
      }
    }

    /** Creates exactly the missing directories on the way, or nothing: it fails just when
        a file is in the way. */
    method MkdirAll(name: string, perm: nat, now: int) returns (err: Error)
      requires Tree(nodes)
      modifies this
      ensures !ValidPath(name) ==> err == ErrInvalid
      ensures ValidPath(name) ==> (err != NoError <==> BlockedByFile(old(nodes), name))
      ensures err != NoError ==> nodes == old(nodes)
      ensures err == NoError ==> MadeAll(old(nodes), name, Node(true, perm % 0x200, [], now), nodes)
      decreases |name|
    {
      if !ValidPath(name) {
        return ErrInvalid;
      }
      ghost var made := Node(true, PermBits(perm), [], now);
      if name == "." {
        MadeAllNotBlocked(nodes, ".", made, nodes);
        return NoError;
      }
      DirOfName(name);
      if Dir(name) != "." {
        err := MkdirAll(Dir(name), perm, now);
        if err != NoError {
          BlockedAbove(old(nodes), name);
          return;
        }
      }
      MadeAllStep(old(nodes), name, made, nodes);
      if name in nodes && !nodes[name].isDir {
        MadeAllFile(old(nodes), name, made, nodes);
      }
      err := Mkdir(name, perm, now);
      if err != NoError && name in nodes && nodes[name].isDir {
        err := NoError;
      }
      if err == NoError {
        MadeAllNotBlocked(old(nodes), name, made, nodes);
      }
    }

    /** Removes one file or one directory with nothing in it. */
    method Remove(name: string) returns (err: Error)
      requires Tree(nodes)
      modifies this
      ensures Tree(nodes)
      ensures err == RemoveError(old(nodes), name)
      ensures nodes == if err == NoError then old(nodes) - {name} else old(nodes)
    {
      if !ValidPath(name) || name == "." {
        return ErrInvalid;
      }
      if name !in nodes {
        return ErrNotExist;
      }
      if nodes[name].isDir {
        var todo := nodes.Keys;
        while todo != {}
          invariant todo <= nodes.Keys && nodes == old(nodes)
          invariant forall p :: p in nodes && p !in todo ==> Dir(p) != name
        {
          var p :| p in todo;
          todo := todo - {p};
          if Dir(p) == name {
            assert ChildOf(p, name);
            return ErrInvalid;
          }
        }
      }
      assert !HasChild(nodes, name);
      ChildlessRemoved(nodes, name);
      nodes := nodes - {name};
      err := NoError;
    }

    /** The loop of Rename, once the directory itself has moved. */
    method MoveSubtree(ghost m: Nodes, oldname: string, newname: string, again: nat) returns (ghost moved: set<string>)
      requires Tree(m) && IsName(oldname) && IsName(newname) && IsDirAt(m, oldname)
      requires !IsDirAt(m, newname) && IsDirAt(m, Dir(newname))
      requires nodes == (m - {oldname})[newname := m[oldname]]
      modifies this
      ensures Below(newname, oldname) ==> oldname !in nodes && HasBelow(nodes, oldname)
      ensures !Below(newname, oldname) ==>
                && Moving(m, oldname, newname, moved, nodes)
                && forall p :: p in m && Below(p, oldname) ==> p in moved
    {
      moved := {};
      MovingStart(m, oldname, newname);
      if Below(newname, oldname) {
        assert HasBelow(nodes, oldname);
      }
      var todo, revisits := nodes.Keys, again;
      while todo != {}
        invariant Below(newname, oldname) ==> oldname !in nodes && HasBelow(nodes, oldname)
        invariant !Below(newname, oldname) ==>
                    && Moving(m, oldname, newname, moved, nodes)
                    && forall p :: p in m && Below(p, oldname) && p !in moved ==> p in todo && p in nodes
        decreases revisits, |todo|
      {
        var p :| p in todo;
        todo := todo - {p};
        if p in nodes && Below(p, oldname) {
          var child, place := nodes[p], Moved(p, oldname, newname);
          MovedBack(p, oldname, newname);
          if Below(newname, oldname) {
            BelowTrans(place, newname, oldname);
          } else {
            MovingStep(m, oldname, newname, moved, nodes, p);
          }
          nodes := nodes - {p};
          nodes := nodes[place := child];
          moved := moved + {p};
          assert Below(place, oldname) ==> HasBelow(nodes, oldname);
          if revisits > 0 {
            if * {
              todo, revisits := todo + {place}, revisits - 1;
            }
          }
        }
      }
    }

    /** Moves a node and all below it. The range over the table visits the keys it started
        with in any order, and may visit any it inserts: again counts how often it does. */
    method Rename(oldname: string, newname: string, again: nat) returns (err: Error)
      requires Tree(nodes)
      modifies this
      ensures err == RenameError(old(nodes), oldname, newname)
      ensures err != NoError ==> nodes == old(nodes)
      ensures err == NoError && !Below(newname, oldname) ==> Relocated(old(nodes), oldname, newname, nodes)
      ensures err == NoError ==> (Tree(nodes) <==> !Below(newname, oldname))
    {
      if !ValidPath(oldname) || oldname == "." || !ValidPath(newname) || newname == "." {
        return ErrInvalid;
      }
      if oldname !in nodes {
        return ErrNotExist;
      }
      var n := nodes[oldname];
      if newname in nodes && nodes[newname].isDir {
        return ErrExist;
      }
      err := ParentError(nodes, newname);
      if err != NoError {
        return;
      }
      MovingStart(nodes, oldname, newname);
      nodes := nodes - {oldname};
      nodes := nodes[newname := n];
      if Below(newname, oldname) {
        ParentIsDirectory(old(nodes), oldname, newname);
      }
      ghost var moved := {};
      if n.isDir {
        moved := MoveSubtree(old(nodes), oldname, newname, again);
      } else {
        NothingBelowFile(old(nodes), oldname);
      }
      if Below(newname, oldname) {
        StaysOrphaned(nodes, oldname);
      } else {
        MovingEnd(old(nodes), oldname, newname, moved, nodes);
        RelocatedTree(old(nodes), oldname, newname, nodes);
      }
    }

    /** Keeps what a node is and what it holds. */
    method Chmod(name: string, mode: nat) returns (err: Error)
      requires Tree(nodes)
      modifies this
      ensures Tree(nodes)
      ensures err == if !ValidPath(name) then ErrInvalid else if name !in old(nodes) then ErrNotExist else NoError
      ensures err != NoError ==> nodes == old(nodes)
      ensures err == NoError ==>
                && nodes.Keys == old(nodes).Keys && nodes - {name} == old(nodes) - {name}
                && nodes[name] == old(nodes)[name].(perm := mode % 0x200)
    {
      if !ValidPath(name) {
        return ErrInvalid;
      }
      if name !in nodes {
        return ErrNotExist;
      }
      SameKindTree(nodes, name, nodes[name].(perm := PermBits(mode)));
      nodes := nodes[name := nodes[name].(perm := PermBits(mode))];
      err := NoError;
    }

    /** Every child of a directory, once and in the order of the names. */
    method Entries(dir: string) returns (entries: seq<DirEntry>)
      requires Tree(nodes) && ValidPath(dir)
      ensures Listing(nodes, dir, entries) && SortedByName(entries)
    {
      entries := [];
      var todo := nodes.Keys;
      while todo != {}
        invariant todo <= nodes.Keys
        invariant ListingOf(nodes, dir, nodes.Keys - todo, entries)
      {
        var p :| p in todo;
        ghost var done := nodes.Keys - todo;
        todo := todo - {p};
        assert nodes.Keys - todo == done + {p};
        if p != "." && Dir(p) == dir {
          ListingGrows(nodes, dir, done, entries, p);
          entries := entries + [DirEntry(Base(p), nodes[p].isDir)];
        } else {
          ListingSkips(nodes, dir, done, entries, p);
        }
      }
      assert nodes.Keys - todo == nodes.Keys;
      ghost var found := entries;
      NamesApart(dir, entries);
      entries := SortByName(entries);
      SortedListing(nodes, dir, found, entries);
    }

    /** Deletes a subtree depth-first: exactly the directory and all in it go. At the root
        everything in it goes and the removal of the root itself is the error. */
    method RemoveAll(dir: string) returns (err: Error)
      requires Tree(nodes)
      modifies this
      ensures Tree(nodes)
      ensures err == (if !ValidPath(dir) then ErrInvalid
                      else if dir !in old(nodes) then ErrNotExist
                      else if !old(nodes)[dir].isDir then ErrNotDirectory
                      else if dir == "." then ErrInvalid
                      else NoError)
      ensures err == NoError ==> nodes == Without(old(nodes), dir)
      ensures dir == "." ==> nodes == map["." := old(nodes)["."]]
      ensures err != NoError && dir != "." ==> nodes == old(nodes)
      decreases Subtree(nodes, dir), 1
    {
      if !ValidPath(dir) {
        return ErrInvalid;
      }
      if dir !in nodes {
        return ErrNotExist;
      }
      if !nodes[dir].isDir {
        return ErrNotDirectory;
      }
      var entries := Entries(dir);
      ghost var left := Turns(nodes, dir, entries);
      err := RemoveChildren(dir, entries, Subtree(nodes, dir), left);
      if err == NoError {
        err := Remove(dir);
      }
    }

    /** The loop of RemoveAll over the entries read; left gives the table before each turn. */
    method RemoveChildren(dir: string, entries: seq<DirEntry>, ghost all: set<string>, ghost left: nat -> Nodes)
      returns (err: Error)
      requires Tree(nodes) && nodes == left(0)
      requires forall i :: 0 <= i < |entries| ==> Turn(Join(dir, entries[i].name), entries[i].isDir, all, left, i)
      modifies this
      ensures Tree(nodes) && err == NoError && nodes == left(|entries|)
      decreases all, 0
    {
      err := NoError;
      var i := 0;
      while i < |entries|
        invariant 0 <= i <= |entries| && Tree(nodes) && err == NoError && nodes == left(i)
      {
        var child := Join(dir, entries[i].name);
        assert Turn(child, entries[i].isDir, all, left, i);
        err := RemoveEntry(child, entries[i].isDir);
        if err != NoError {
          return;
        }
        i := i + 1;
      }
    }

    /** One turn of the loop: a directory is emptied and removed, a file removed. */
    method RemoveEntry(child: string, isDir: bool) returns (err: Error)
      requires Tree(nodes) && IsName(child) && child in nodes && nodes[child].isDir == isDir
      modifies this
      ensures Tree(nodes) && err == NoError && nodes == Without(old(nodes), child)
      decreases Subtree(nodes, child), 2
    {
      if isDir {
        err := RemoveAll(child);
      } else {
        FileAlone(nodes, child);
        err := Remove(child);
      }
    }
  }

  /** The entries name exactly the children of dir that are in seen, each once. */
  ghost predicate ListingOf(m: Nodes, dir: string, seen: set<string>, entries: seq<DirEntry>) {
    EachNames(m, dir, seen, entries) && AllNamed(m, dir, seen, entries) && NamedOnce(dir, entries)
  }

  ghost predicate EachNames(m: Nodes, dir: string, seen: set<string>, entries: seq<DirEntry>) {
    forall k :: 0 <= k < |entries| ==> EntryNames(m, dir, seen, entries[k])
  }

  ghost predicate AllNamed(m: Nodes, dir: string, seen: set<string>, entries: seq<DirEntry>) {
    forall p :: p in seen && p in m && ChildOf(p, dir) ==> Named(dir, entries, p)
  }

  ghost predicate NamedOnce(dir: string, entries: seq<DirEntry>) {
    forall j, k :: 0 <= j < k < |entries| ==> Join(dir, entries[j].name) != Join(dir, entries[k].name)
  }

  predicate EntryNames(m: Nodes, dir: string, seen: set<string>, e: DirEntry) {
    var p := Join(dir, e.name);
    p in seen && p in m && ChildOf(p, dir) && m[p].isDir == e.isDir
  }

  ghost predicate Named(dir: string, entries: seq<DirEntry>, p: string) {
    exists k :: 0 <= k < |entries| && Join(dir, entries[k].name) == p
  }

  ghost predicate Listing(m: Nodes, dir: string, entries: seq<DirEntry>) {
    ListingOf(m, dir, m.Keys, entries)
  }

  lemma ListingGrows(m: Nodes, dir: string, seen: set<string>, entries: seq<DirEntry>, p: string)
    requires Tree(m) && ListingOf(m, dir, seen, entries) && p in m && p !in seen && ChildOf(p, dir)
    ensures ListingOf(m, dir, seen + {p}, entries + [DirEntry(Base(p), m[p].isDir)])
  {
    var e := DirEntry(Base(p), m[p].isDir);
    DirOfName(p);
    AllNamedGrows(m, dir, seen, entries, e);
    NamedOnceGrows(m, dir, seen, entries, e);
  }

  lemma AllNamedGrows(m: Nodes, dir: string, seen: set<string>, entries: seq<DirEntry>, e: DirEntry)
    requires AllNamed(m, dir, seen, entries)
    ensures AllNamed(m, dir, seen + {Join(dir, e.name)}, entries + [e])
  {
    forall q | q in seen + {Join(dir, e.name)} && q in m && ChildOf(q, dir)
      ensures Named(dir, entries + [e], q)
    {
      NamedGrows(dir, entries, e, q);
    }
  }

  lemma NamedOnceGrows(m: Nodes, dir: string, seen: set<string>, entries: seq<DirEntry>, e: DirEntry)
    requires NamedOnce(dir, entries) && EachNames(m, dir, seen, entries) && Join(dir, e.name) !in seen
    ensures NamedOnce(dir, entries + [e])
  {
  }

  lemma NamedGrows(dir: string, entries: seq<DirEntry>, e: DirEntry, q: string)
    requires Named(dir, entries, q) || Join(dir, e.name) == q
    ensures Named(dir, entries + [e], q)
  {
    var entries' := entries + [e];
    if Named(dir, entries, q) {
      var k :| 0 <= k < |entries| && Join(dir, entries[k].name) == q;
      assert entries'[k] == entries[k];
    } else {
      assert entries'[|entries|] == e;
    }
  }

  lemma ListingSkips(m: Nodes, dir: string, seen: set<string>, entries: seq<DirEntry>, p: string)
    requires ListingOf(m, dir, seen, entries) && !ChildOf(p, dir)
    ensures ListingOf(m, dir, seen + {p}, entries)
  {
  }

  // -------------------------------------------------------------- sorting the entries

  predicate SortedByName(entries: seq<DirEntry>) {
    forall i, j :: 0 <= i < j < |entries| ==> Before(entries[i].name, entries[j].name)
  }

  predicate DistinctNames(entries: seq<DirEntry>) {
    forall i, j :: 0 <= i < j < |entries| ==> entries[i].name != entries[j].name
  }

  ghost predicate SameEntries(entries: seq<DirEntry>, sorted: seq<DirEntry>) {
    forall e :: e in entries <==> e in sorted
  }

  function InsertByName(sorted: seq<DirEntry>, e: DirEntry): seq<DirEntry> {
    if sorted == [] || Before(e.name, sorted[0].name) then [e] + sorted
    else [sorted[0]] + InsertByName(sorted[1..], e)
  }

  lemma {:induction false} InsertedByName(sorted: seq<DirEntry>, e: DirEntry)
    requires SortedByName(sorted) && forall x :: x in sorted ==> x.name != e.name
    ensures SortedByName(InsertByName(sorted, e))
    ensures forall x :: x in InsertByName(sorted, e) <==> x in sorted || x == e
  {
    if sorted != [] {
      assert sorted == [sorted[0]] + sorted[1..] && sorted[0] in sorted;
      if Before(e.name, sorted[0].name) {
        forall j | 0 < j < |sorted|
          ensures Before(e.name, sorted[j].name)
        {
          BeforeTrans(e.name, sorted[0].name, sorted[j].name);
        }
      } else {
        BeforeTotal(e.name, sorted[0].name);
        InsertedByName(sorted[1..], e);
        HeadBefore(sorted, e);
      }
    }
  }

  lemma HeadBefore(sorted: seq<DirEntry>, e: DirEntry)
    requires sorted != [] && SortedByName(sorted) && Before(sorted[0].name, e.name)
    requires SortedByName(InsertByName(sorted[1..], e))
    requires forall x :: x in InsertByName(sorted[1..], e) <==> x in sorted[1..] || x == e
    ensures SortedByName([sorted[0]] + InsertByName(sorted[1..], e))
  {
    var rest := InsertByName(sorted[1..], e);
    forall j | 0 <= j < |rest|
      ensures Before(sorted[0].name, rest[j].name)
    {
      assert rest[j] in rest;
      if rest[j] in sorted[1..] {
        var k :| 0 <= k < |sorted[1..]| && sorted[1..][k] == rest[j];
        assert sorted[k + 1] == rest[j];
      }
    }
  }

  method SortByName(entries: seq<DirEntry>) returns (sorted: seq<DirEntry>)
    requires DistinctNames(entries)
    ensures SortedByName(sorted) && SameEntries(entries, sorted)
  {
    sorted := [];
    for i := 0 to |entries|
      invariant SortedByName(sorted) && SameEntries(entries[..i], sorted)
    {
      forall x | x in sorted
        ensures x.name != entries[i].name
      {
        assert x in entries[..i];
      }
      InsertedByName(sorted, entries[i]);
      assert entries[..i + 1] == entries[..i] + [entries[i]];
      sorted := InsertByName(sorted, entries[i]);
    }
    assert entries[..|entries|] == entries;
  }

  lemma NamesApart(dir: string, entries: seq<DirEntry>)
    requires NamedOnce(dir, entries)
    ensures DistinctNames(entries)
  {
    assert forall i, j :: 0 <= i < j < |entries| ==> Join(dir, entries[i].name) != Join(dir, entries[j].name);
  }

  lemma SortedListing(m: Nodes, dir: string, entries: seq<DirEntry>, sorted: seq<DirEntry>)
    requires Listing(m, dir, entries) && SortedByName(sorted) && SameEntries(entries, sorted)
    ensures Listing(m, dir, sorted)
  {
    forall k | 0 <= k < |sorted|
      ensures EntryNames(m, dir, m.Keys, sorted[k])
    {
      assert sorted[k] in entries;
    }
    forall p | p in m && ChildOf(p, dir)
      ensures Named(dir, sorted, p)
    {
      SortedNames(dir, entries, sorted, p);
    }
    forall j, k | 0 <= j < k < |sorted|
      ensures Join(dir, sorted[j].name) != Join(dir, sorted[k].name)
    {
      BeforeTotal(sorted[j].name, sorted[k].name);
      if Join(dir, sorted[j].name) == Join(dir, sorted[k].name) {
        JoinInjective(dir, sorted[j].name, sorted[k].name);
      }
    }
  }

  lemma SortedNames(dir: string, entries: seq<DirEntry>, sorted: seq<DirEntry>, p: string)
    requires SameEntries(entries, sorted) && Named(dir, entries, p)
    ensures Named(dir, sorted, p)
  {
    var k :| 0 <= k < |entries| && Join(dir, entries[k].name) == p;
    assert entries[k] in sorted;
  }

  // -------------------------------------------------------------- removing a subtree

  /** p is in one of the first i children listed. */
  ghost predicate InListed(dir: string, entries: seq<DirEntry>, i: nat, p: string) {
    exists k :: 0 <= k < i && k < |entries| && Under(p, Join(dir, entries[k].name))
  }

  /** The table after the first i children are removed one after the other. */
  function Gone(m: Nodes, dir: string, entries: seq<DirEntry>, i: nat): Nodes
  {
    if i == 0 || i > |entries| then m else Without(Gone(m, dir, entries, i - 1), Join(dir, entries[i - 1].name))
  }

  /** What is left of m once the first i children and all in them are gone. */
  ghost predicate Pruned(m: Nodes, dir: string, entries: seq<DirEntry>, i: nat, m': Nodes) {
    forall p :: (p in m' <==> p in m && !InListed(dir, entries, i, p)) && (p in m' ==> m'[p] == m[p])
  }

  lemma FileAlone(m: Nodes, p: string)
    requires Tree(m) && p in m && !m[p].isDir
    ensures !HasChild(m, p) && Without(m, p) == m - {p}
  {
    NothingBelowFile(m, p);
    forall c | c in m && c != "."
      ensures Dir(c) != p
    {
      assert IsDirAt(m, Dir(c));
    }
  }

  /** A child's subtree is smaller. */
  lemma SmallerSubtree(m: Nodes, m': Nodes, dir: string, c: string)
    requires Tree(m) && dir in m && m'.Keys <= m.Keys && IsName(c) && ChildOf(c, dir)
    ensures Subtree(m', c) < Subtree(m, dir)
  {
    var inner, outer := Subtree(m', c), Subtree(m, dir);
    forall p | p in inner
      ensures p in outer && p != dir
    {
      ChildInside(p, c, dir);
    }
    assert dir in outer;
  }

  lemma ListedChild(m: Nodes, dir: string, entries: seq<DirEntry>, k: nat)
    requires Tree(m) && Listing(m, dir, entries) && k < |entries|
    ensures var c := Join(dir, entries[k].name);
      IsName(c) && ChildOf(c, dir) && c in m && m[c].isDir == entries[k].isDir
  {
    assert EntryNames(m, dir, m.Keys, entries[k]);
  }

  lemma ListedApart(m: Nodes, dir: string, entries: seq<DirEntry>, i: nat)
    requires Tree(m) && Listing(m, dir, entries) && i < |entries|
    ensures !InListed(dir, entries, i, Join(dir, entries[i].name))
  {
    var c := Join(dir, entries[i].name);
    forall k: nat | k < i
      ensures !Under(c, Join(dir, entries[k].name))
    {
      ListedChild(m, dir, entries, i);
      ListedChild(m, dir, entries, k);
      SiblingsApart(c, Join(dir, entries[k].name), dir, c);
    }
  }

  lemma ListedInside(m: Nodes, dir: string, entries: seq<DirEntry>, i: nat, p: string)
    requires Tree(m) && Listing(m, dir, entries) && InListed(dir, entries, i, p)
    ensures Within(p, dir) && p != dir
  {
    var k :| 0 <= k < i && k < |entries| && Under(p, Join(dir, entries[k].name));
    ListedChild(m, dir, entries, k);
    ChildInside(p, Join(dir, entries[k].name), dir);
  }

  lemma {:induction false} GonePruned(m: Nodes, dir: string, entries: seq<DirEntry>, i: nat)
    requires i <= |entries|
    ensures Pruned(m, dir, entries, i, Gone(m, dir, entries, i))
  {
    if i > 0 {
      GonePruned(m, dir, entries, i - 1);
      forall p
        ensures InListed(dir, entries, i, p) <==>
                InListed(dir, entries, i - 1, p) || Under(p, Join(dir, entries[i - 1].name))
      {
        OneMoreListed(dir, entries, i, p);
      }
    }
  }

  lemma OneMoreListed(dir: string, entries: seq<DirEntry>, i: nat, p: string)
    requires 0 < i <= |entries|
    ensures InListed(dir, entries, i, p) <==>
            InListed(dir, entries, i - 1, p) || Under(p, Join(dir, entries[i - 1].name))
  {
    if InListed(dir, entries, i - 1, p) {
      var k :| 0 <= k < i - 1 && k < |entries| && Under(p, Join(dir, entries[k].name));
      assert k < i;
    }
  }

  /** A turn of the loop has its child still there, as it was listed, with less in it than
      the whole, and leaves the table without it. */
  ghost predicate Turn(c: string, isDir: bool, all: set<string>, left: nat -> Nodes, i: nat) {
    && IsName(c) && c in left(i) && left(i)[c].isDir == isDir
    && Subtree(left(i), c) < all
    && left(i + 1) == Without(left(i), c)
  }

  lemma Turns(m: Nodes, dir: string, entries: seq<DirEntry>) returns (left: nat -> Nodes)
    requires Tree(m) && IsDirAt(m, dir) && Listing(m, dir, entries)
    ensures left(0) == m && left(|entries|) == Emptied(m, dir) && !HasChild(Emptied(m, dir), dir)
    ensures forall i :: 0 <= i < |entries| ==>
        Turn(Join(dir, entries[i].name), entries[i].isDir, Subtree(m, dir), left, i)
  {
    left := (i: nat) => Gone(m, dir, entries, i);
    EveryTurn(m, dir, entries, left);
    AllGone(m, dir, entries);
  }

  lemma EveryTurn(m: Nodes, dir: string, entries: seq<DirEntry>, left: nat -> Nodes)
    requires Tree(m) && IsDirAt(m, dir) && Listing(m, dir, entries)
    requires forall i :: left(i) == Gone(m, dir, entries, i)
    ensures forall i :: 0 <= i < |entries| ==>
        Turn(Join(dir, entries[i].name), entries[i].isDir, Subtree(m, dir), left, i)
  {
    forall i | 0 <= i < |entries|
      ensures Turn(Join(dir, entries[i].name), entries[i].isDir, Subtree(m, dir), left, i)
    {
      TurnAt(m, dir, entries, left, i);
    }
  }

  lemma TurnAt(m: Nodes, dir: string, entries: seq<DirEntry>, left: nat -> Nodes, i: nat)
    requires Tree(m) && IsDirAt(m, dir) && Listing(m, dir, entries) && i < |entries|
    requires left(i) == Gone(m, dir, entries, i) && left(i + 1) == Gone(m, dir, entries, i + 1)
    ensures Turn(Join(dir, entries[i].name), entries[i].isDir, Subtree(m, dir), left, i)
  {
    NextChild(m, dir, entries, i);
  }

  lemma NextChild(m: Nodes, dir: string, entries: seq<DirEntry>, i: nat)
    requires Tree(m) && IsDirAt(m, dir) && Listing(m, dir, entries) && i < |entries|
    ensures var c, cur := Join(dir, entries[i].name), Gone(m, dir, entries, i);
      IsName(c) && c in cur && cur[c].isDir == entries[i].isDir && Subtree(cur, c) < Subtree(m, dir)
  {
    ListedChild(m, dir, entries, i);
    ListedApart(m, dir, entries, i);
    GonePruned(m, dir, entries, i);
    SmallerSubtree(m, Gone(m, dir, entries, i), dir, Join(dir, entries[i].name));
  }

  lemma AllGone(m: Nodes, dir: string, entries: seq<DirEntry>)
    requires Tree(m) && IsDirAt(m, dir) && Listing(m, dir, entries)
    ensures var left := Gone(m, dir, entries, |entries|); left == Emptied(m, dir) && !HasChild(left, dir)
  {
    GonePruned(m, dir, entries, |entries|);
    ListedHoldsAll(m, dir, entries);
    PrunedAll(m, dir, entries, Gone(m, dir, entries, |entries|));
  }

  /** The children listed hold between them all that is in the directory. */
  lemma ListedAll(m: Nodes, dir: string, entries: seq<DirEntry>, p: string)
    requires Tree(m) && IsDirAt(m, dir) && Listing(m, dir, entries) && p in m
    ensures InListed(dir, entries, |entries|, p) <==> p != dir && Within(p, dir)
    ensures ChildOf(p, dir) ==> p != dir && Within(p, dir)
  {
    if p != dir && Within(p, dir) {
      InSomeChild(m, dir, entries, p);
    }
    if InListed(dir, entries, |entries|, p) {
      ListedInside(m, dir, entries, |entries|, p);
    }
    if ChildOf(p, dir) {
      ChildInside(p, p, dir);
    }
  }

  lemma ListedHoldsAll(m: Nodes, dir: string, entries: seq<DirEntry>)
    requires Tree(m) && IsDirAt(m, dir) && Listing(m, dir, entries)
    ensures ListedHold(m, dir, entries)
  {
    forall p | p in m
      ensures InListed(dir, entries, |entries|, p) <==> p != dir && Within(p, dir)
      ensures ChildOf(p, dir) ==> p != dir && Within(p, dir)
    {
      ListedAll(m, dir, entries, p);
    }
  }

  ghost predicate ListedHold(m: Nodes, dir: string, entries: seq<DirEntry>) {
    forall p :: p in m ==>
      && (InListed(dir, entries, |entries|, p) <==> p != dir && Within(p, dir))
      && (ChildOf(p, dir) ==> p != dir && Within(p, dir))
  }

  /** With every child gone, what is left is the directory and what was outside it. */
  lemma PrunedAll(m: Nodes, dir: string, entries: seq<DirEntry>, m': Nodes)
    requires ListedHold(m, dir, entries) && Pruned(m, dir, entries, |entries|, m')
    ensures m' == Emptied(m, dir) && !HasChild(m', dir)
  {
  }

  /** The directory's contents gone, the directory left. */
  function Emptied(m: Nodes, dir: string): Nodes {
    map p | p in m && (p == dir || !Within(p, dir)) :: m[p]
  }

  lemma InSomeChild(m: Nodes, dir: string, entries: seq<DirEntry>, p: string)
    requires Tree(m) && IsDirAt(m, dir) && Listing(m, dir, entries)
    requires p in m && p != dir && Within(p, dir)
    ensures InListed(dir, entries, |entries|, p)
  {
    if p == "." {
      assert false;
    }
    var c := ChildAbove(m, p, dir);
    assert Named(dir, entries, c);
    var k :| 0 <= k < |entries| && Join(dir, entries[k].name) == c;
    assert Under(p, Join(dir, entries[k].name));
  }
}
