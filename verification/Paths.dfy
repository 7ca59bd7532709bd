/** Slash-separated unrooted paths as io/fs has them: "." is the root. */
module Paths {

  /** The index of the last slash, or -1. */
  function LastSlash(p: string): (k: int)
    ensures -1 <= k < |p|
  {
    if p == "" then -1
    else if p[|p| - 1] == '/' then |p| - 1
    else LastSlash(p[..|p| - 1])
  }

  lemma {:induction false} LastSlashIs(p: string)
    ensures LastSlash(p) >= 0 ==> p[LastSlash(p)] == '/'
    ensures forall j :: LastSlash(p) < j < |p| ==> p[j] != '/'
  {
    if p != "" && p[|p| - 1] != '/' {
      LastSlashIs(p[..|p| - 1]);
    }
  }

  predicate Element(e: string) {
    e != "" && e != "." && e != ".." && '/' !in e
  }

  /** A valid path other than ".". */
  predicate IsName(p: string) {
    var k := LastSlash(p);
    if k < 0 then Element(p) else Element(p[k + 1..]) && IsName(p[..k])
  }

  predicate ValidPath(p: string) {
    p == "." || IsName(p)
  }

  /** path.Dir of a valid path. */
  function Dir(p: string): string {
    var k := LastSlash(p);
    if k < 0 then "." else p[..k]
  }

  /** path.Base of a valid path. */
  function Base(p: string): string {
    p[LastSlash(p) + 1..]
  }

  /** path.Join of a valid path and an element. */
  function Join(dir: string, name: string): string {
    if dir == "." then name else dir + "/" + name
  }

  /** strings.HasPrefix(p, d + "/"). */
  predicate Below(p: string, d: string) {
    |d| < |p| && p[..|d|] == d && p[|d|] == '/'
  }

  predicate Under(p: string, d: string) {
    p == d || Below(p, d)
  }

  lemma LastSlashUnique(p: string, k: nat)
    requires k < |p| && p[k] == '/' && forall j :: k < j < |p| ==> p[j] != '/'
    ensures LastSlash(p) == k
  {
    LastSlashIs(p);
  }

  lemma DirOfName(p: string)
    requires IsName(p)
    ensures ValidPath(Dir(p)) && Dir(p) != p && Join(Dir(p), Base(p)) == p && Element(Base(p))
    ensures Dir(p) != "." ==> Below(p, Dir(p)) && |Dir(p)| < |p|
  {
    var k := LastSlash(p);
    LastSlashIs(p);
    if k >= 0 {
      assert p == p[..k] + "/" + p[k + 1..];
    }
  }

  function JoinAll(elements: seq<string>): string
    requires elements != []
  {
    if |elements| == 1 then elements[0]
    else JoinAll(elements[..|elements| - 1]) + "/" + elements[|elements| - 1]
  }

  predicate AllElements(elements: seq<string>) {
    elements != [] && forall j :: 0 <= j < |elements| ==> Element(elements[j])
  }

  lemma JoinTwo(front: string, e: string)
    requires Element(e)
    ensures var p := front + "/" + e;
            LastSlash(p) == |front| && p[..LastSlash(p)] == front && p[LastSlash(p) + 1..] == e
  {
    hide LastSlash;
    var p := front + "/" + e;
    assert forall j :: |front| < j < |p| ==> p[j] == e[j - |front| - 1];
    LastSlashUnique(p, |front|);
  }

  lemma LastJoined(elements: seq<string>)
    requires AllElements(elements)
    ensures var p, n := JoinAll(elements), |elements| - 1;
            if n == 0 then LastSlash(p) == -1 && p == elements[0]
            else
              && LastSlash(p) >= 0 && p[..LastSlash(p)] == JoinAll(elements[..n])
              && p[LastSlash(p) + 1..] == elements[n]
  {
    hide LastSlash;
    var n := |elements| - 1;
    if n > 0 {
      JoinTwo(JoinAll(elements[..n]), elements[n]);
    } else {
      LastSlashIs(elements[0]);
      assert Element(elements[0]);
    }
  }

  lemma {:induction false} JoinedIsName(elements: seq<string>)
    requires AllElements(elements)
    ensures IsName(JoinAll(elements))
    decreases |elements|
  {
    LastJoined(elements);
    if |elements| > 1 {
      JoinedIsName(elements[..|elements| - 1]);
    }
  }

  lemma {:induction false} NameJoins(p: string) returns (elements: seq<string>)
    requires IsName(p)
    ensures AllElements(elements) && JoinAll(elements) == p
    decreases |p|
  {
    var k := LastSlash(p);
    LastSlashIs(p);
    if k < 0 {
      elements := [p];
    } else {
      var front := NameJoins(p[..k]);
      elements := front + [p[k + 1..]];
      assert elements[..|front|] == front;
      assert p == p[..k] + "/" + p[k + 1..];
    }
  }

  /** A valid path is "." or elements joined by slashes, none of them empty, "." or "..". */
  lemma ValidPathMeans(p: string)
    ensures ValidPath(p) <==> p == "." || exists elements :: AllElements(elements) && p == JoinAll(elements)
  {
    if IsName(p) {
      var elements := NameJoins(p);
    }
    if elements :| AllElements(elements) && p == JoinAll(elements) {
      JoinedIsName(elements);
    }
  }

  /** What is below d hangs on d or on something below d. */
  lemma DirBelow(p: string, d: string)
    ensures LastSlash(p) >= 0 ==> (Below(p, d) <==> Under(Dir(p), d))
    ensures Below(p, d) ==> LastSlash(p) >= |d|
  {
    var k := LastSlash(p);
    LastSlashIs(p);
    if Below(p, d) && k > |d| {
      assert p[..k][..|d|] == d;
    }
    if k >= 0 && Below(p[..k], d) {
      assert p[..|d|] == p[..k][..|d|];
    }
  }

  lemma BelowTrans(p: string, d: string, e: string)
    requires Under(p, d) && Below(d, e)
    ensures Below(p, e)
  {
    if p != d {
      assert p[..|e|] == p[..|d|][..|e|];
    }
  }

  /** Two directories above the same path are above one another. */
  lemma Comparable(p: string, d: string, e: string)
    requires Under(p, d) && Under(p, e)
    ensures Under(d, e) || Under(e, d)
  {
    if |d| < |e| {
      assert p[..|e|][..|d|] == d;
      assert e == p[..|e|];
    } else {
      assert p[..|d|][..|e|] == e;
      assert d == p[..|d|];
    }
  }

  // ------------------------------------------------------------ moving a subtree

  /** What follows a directory in the path of something in it: empty or from a slash on. */
  predicate IsRest(t: string) {
    t == "" || t[0] == '/'
  }

  predicate ElementsIn(t: string) {
    var k := LastSlash(t);
    k >= 0 ==> Element(t[k + 1..]) && ElementsIn(t[..k])
  }

  lemma AppendDir(d: string, t: string)
    requires t != "" && IsRest(t)
    ensures var k := LastSlash(t); k >= 0 && LastSlash(d + t) == |d| + k
                                   && Dir(d + t) == d + t[..k] && Base(d + t) == t[k + 1..] && IsRest(t[..k])
  {
    var k, p := LastSlash(t), d + t;
    LastSlashIs(t);
    assert p[|d|..] == t;
    assert forall j :: |d| + k < j < |p| ==> p[j] == t[j - |d|];
    LastSlashUnique(p, |d| + k);
    assert p[..|d| + k] == d + t[..k];
    assert p[|d| + k + 1..] == t[k + 1..];
  }

  lemma {:induction false} AppendName(d: string, t: string)
    requires IsRest(t)
    ensures IsName(d + t) <==> IsName(d) && ElementsIn(t)
    decreases |t|
  {
    if t == "" {
      assert d + t == d;
    } else {
      AppendDir(d, t);
      AppendName(d, t[..LastSlash(t)]);
    }
  }

  /** The place of p, which is d or below it, when d becomes e. */
  function Moved(p: string, d: string, e: string): string
    requires |d| <= |p|
  {
    e + p[|d|..]
  }

  lemma UnderRest(p: string, d: string)
    requires Under(p, d)
    ensures IsRest(p[|d|..]) && p == d + p[|d|..] && (p[|d|..] == "" <==> p == d)
  {
  }

  lemma MovedBack(p: string, d: string, e: string)
    requires Under(p, d)
    ensures Under(Moved(p, d, e), e) && Moved(Moved(p, d, e), e, d) == p
    ensures Moved(p, d, e) == e <==> p == d
  {
    var q := Moved(p, d, e);
    assert q[..|e|] == e && q[|e|..] == p[|d|..];
    UnderRest(p, d);
  }

  /** Moving commutes with taking the parent, below the moved directory. */
  lemma MovedDir(p: string, d: string, e: string)
    requires Below(p, d)
    ensures Under(Dir(p), d) && Dir(Moved(p, d, e)) == Moved(Dir(p), d, e)
    ensures Base(Moved(p, d, e)) == Base(p)
  {
    UnderRest(p, d);
    AppendDir(d, p[|d|..]);
    AppendDir(e, p[|d|..]);
    DirBelow(p, d);
  }

  lemma MovedName(p: string, d: string, e: string)
    requires IsName(p) && Under(p, d) && IsName(e)
    ensures IsName(Moved(p, d, e))
  {
    UnderRest(p, d);
    AppendName(d, p[|d|..]);
    AppendName(e, p[|d|..]);
  }

  // ------------------------------------------------------------ the order of names

  /** Go's order of strings. */
  predicate Before(a: string, b: string) {
    b != "" && (a == "" || a[0] < b[0] || (a[0] == b[0] && Before(a[1..], b[1..])))
  }

  /** The shorter of two strings that agree as far as it goes, or the one with the smaller
      character where they first differ. */
  lemma {:induction false} BeforeMeans(a: string, b: string)
    ensures Before(a, b) <==>
              exists k :: 0 <= k <= |a| && k < |b| && a[..k] == b[..k] && (k == |a| || a[k] < b[k])
    decreases |a|
  {
    if a == "" {
      assert b != "" ==> a[..0] == b[..0];
    } else if b != "" {
      BeforeMeans(a[1..], b[1..]);
      if a[0] == b[0] && Before(a[1..], b[1..]) {
        var k :| 0 <= k <= |a[1..]| && k < |b[1..]| && a[1..][..k] == b[1..][..k]
          && (k == |a[1..]| || a[1..][k] < b[1..][k]);
        assert a[..k + 1] == [a[0]] + a[1..][..k] && b[..k + 1] == [b[0]] + b[1..][..k];
      } else if a[0] < b[0] {
        assert a[..0] == b[..0];
      }
      if k :| 0 < k <= |a| && k < |b| && a[..k] == b[..k] && (k == |a| || a[k] < b[k]) {
        assert a[0] == a[..k][0] && b[0] == b[..k][0];
        assert a[1..][..k - 1] == a[..k][1..] && b[1..][..k - 1] == b[..k][1..];
      }
    }
  }

  lemma {:induction false} BeforeTotal(a: string, b: string)
    ensures a == b || Before(a, b) || Before(b, a)
    ensures !(Before(a, b) && Before(b, a)) && !Before(a, a)
    decreases |a|
  {
    if a != "" {
      BeforeTotal(a[1..], if b == "" then "" else b[1..]);
      BeforeTotal(a[1..], a[1..]);
      assert a == [a[0]] + a[1..] && (b != "" ==> b == [b[0]] + b[1..]);
    }
  }

  lemma {:induction false} BeforeTrans(a: string, b: string, c: string)
    requires Before(a, b) && Before(b, c)
    ensures Before(a, c)
    decreases |a|
  {
    if a != "" && a[0] == b[0] && b[0] == c[0] {
      BeforeTrans(a[1..], b[1..], c[1..]);
    }
  }

  lemma JoinInjective(dir: string, a: string, b: string)
    requires Join(dir, a) == Join(dir, b)
    ensures a == b
  {
    if dir != "." {
      var n := |dir| + 1;
      assert (dir + "/" + a)[n..] == a && (dir + "/" + b)[n..] == b;
    }
  }
}
