/** Choosing an entry of a package's "exports" or "imports" map for a subpath. */
module Subpaths {
  import opened Options

  datatype Result = Ok(target: string) | NoEntry | InvalidSubpath | NoTarget

  // ------------------------------------------------------------ patterns

  /** strings.IndexByte(s, c), with |s| for none. */
  function IndexOf(s: string, c: char): (i: nat)
    ensures i <= |s| && (i < |s| ==> s[i] == c)
    ensures forall k :: 0 <= k < i ==> s[k] != c
  {
    if s == "" || s[0] == c then 0 else 1 + IndexOf(s[1..], c)
  }

  predicate IsPattern(pat: string) {
    var star := IndexOf(pat, '*');
    star < |pat| && '*' !in pat[star + 1..]
  }

  function Prefix(pat: string): string {
    pat[..IndexOf(pat, '*')]
  }

  function Suffix(pat: string): string
    requires IsPattern(pat)
  {
    pat[IndexOf(pat, '*') + 1..]
  }

  predicate HasSuffix(s: string, suffix: string) {
    |suffix| <= |s| && s[|s| - |suffix|..] == suffix
  }

  /** pat is a pattern with one star, which stands for a part of key that is not empty. */
  predicate Matches(pat: string, key: string) {
    && IsPattern(pat) && Prefix(pat) <= key && HasSuffix(key, Suffix(pat))
    && |key| > |Prefix(pat)| + |Suffix(pat)|
  }

  function Capture(pat: string, key: string): string
    requires Matches(pat, key)
  {
    key[|Prefix(pat)|..|key| - |Suffix(pat)|]
  }

  /** The order of preference: the longer prefix, then the longer suffix. */
  predicate Better(p: string, q: string)
    requires IsPattern(p) && IsPattern(q)
  {
    || |Prefix(p)| > |Prefix(q)|
    || (|Prefix(p)| == |Prefix(q)| && |Suffix(p)| > |Suffix(q)|)
  }

  lemma PatternParts(pat: string)
    requires IsPattern(pat)
    ensures pat == Prefix(pat) + "*" + Suffix(pat)
  {
  }

  /** The key is the pattern with the capture in the star's place. */
  lemma CaptureFills(pat: string, key: string)
    requires Matches(pat, key)
    ensures key == Prefix(pat) + Capture(pat, key) + Suffix(pat) && Capture(pat, key) != ""
  {
    assert key == key[..|Prefix(pat)|] + Capture(pat, key) + key[|key| - |Suffix(pat)|..];
  }

  /** The pattern pre, star, suf has its one star there. */
  lemma StarAt(pat: string, i: nat)
    requires i < |pat| && pat[i] == '*' && '*' !in pat[..i] && '*' !in pat[i + 1..]
    ensures IndexOf(pat, '*') == i && IsPattern(pat) && Prefix(pat) == pat[..i] && Suffix(pat) == pat[i + 1..]
  {
    assert forall k :: 0 <= k < i ==> pat[k] == pat[..i][k];
  }

  /** What matching is: the pattern has one star, and the key has something in its place. */
  ghost predicate IsFilling(pat: string, key: string, pre: string, capture: string, suf: string) {
    && '*' !in pre && '*' !in suf && capture != "" && pat == pre + "*" + suf && key == pre + capture + suf
  }

  lemma MatchesMeans(pat: string, key: string)
    ensures Matches(pat, key) <==> exists pre, capture, suf :: IsFilling(pat, key, pre, capture, suf)
    ensures forall pre, capture, suf :: IsFilling(pat, key, pre, capture, suf) ==>
              Matches(pat, key) && Prefix(pat) == pre && Capture(pat, key) == capture && Suffix(pat) == suf
  {
    if Matches(pat, key) {
      CaptureFills(pat, key);
      PatternParts(pat);
      assert IsFilling(pat, key, Prefix(pat), Capture(pat, key), Suffix(pat));
    }
    forall pre, capture, suf | IsFilling(pat, key, pre, capture, suf)
      ensures Matches(pat, key) && Prefix(pat) == pre && Capture(pat, key) == capture && Suffix(pat) == suf
    {
      FillingMatches(pat, key, pre, capture, suf);
    }
  }

  lemma FillingMatches(pat: string, key: string, pre: string, capture: string, suf: string)
    requires IsFilling(pat, key, pre, capture, suf)
    ensures Matches(pat, key) && Prefix(pat) == pre && Capture(pat, key) == capture && Suffix(pat) == suf
  {
    assert pat[..|pre|] == pre && pat[|pre| + 1..] == suf;
    StarAt(pat, |pre|);
    assert key[|key| - |suf|..] == suf && key[..|pre|] == pre;
  }

  /** Two patterns that match with parts of the same lengths are the same. */
  lemma SameParts(p: string, q: string, key: string)
    requires Matches(p, key) && Matches(q, key)
    requires |Prefix(p)| == |Prefix(q)| && |Suffix(p)| == |Suffix(q)|
    ensures p == q
  {
    PatternParts(p);
    PatternParts(q);
    assert Prefix(p) == key[..|Prefix(p)|] == Prefix(q);
  }

  lemma MatchesCompare(p: string, q: string, key: string)
    requires Matches(p, key) && Matches(q, key) && p != q
    ensures Better(p, q) || Better(q, p)
  {
    if |Prefix(p)| == |Prefix(q)| && |Suffix(p)| == |Suffix(q)| {
      SameParts(p, q, key);
    }
  }

  /** pat is the best match of key among some keys of a map. */
  ghost predicate BestIn(keys: set<string>, key: string, pat: string) {
    && pat in keys && Matches(pat, key)
    && (forall q :: q in keys && q != pat && Matches(q, key) ==> Better(pat, q))
  }

  ghost predicate NoneIn(keys: set<string>, key: string) {
    forall q :: q in keys ==> !Matches(q, key)
  }

  /** There is one best match or no match at all, whatever order one looks in. */
  lemma BestUnique(keys: set<string>, key: string, p: string, q: string)
    requires BestIn(keys, key, p) && BestIn(keys, key, q)
    ensures p == q && !NoneIn(keys, key)
  {
  }

  lemma NextBest(seen: set<string>, key: string, best: string, pat: string)
    requires BestIn(seen, key, best) && pat !in seen && Matches(pat, key)
    ensures Better(pat, best) ==> BestIn(seen + {pat}, key, pat)
    ensures !Better(pat, best) ==> BestIn(seen + {pat}, key, best)
  {
    MatchesCompare(pat, best, key);
  }

  lemma NextSkipped(seen: set<string>, key: string, best: string, pat: string)
    requires !Matches(pat, key)
    ensures BestIn(seen, key, best) ==> BestIn(seen + {pat}, key, best)
    ensures NoneIn(seen, key) ==> NoneIn(seen + {pat}, key)
  {
  }

  // ------------------------------------------------------------ captures and targets

  /** strings.Split(s, "/"). */
  function Split(s: string): (segs: seq<string>)
    ensures segs != []
  {
    if s == "" then [""]
    else if s[0] == '/' then [""] + Split(s[1..])
    else
      var rest := Split(s[1..]);
      [[s[0]] + rest[0]] + rest[1..]
  }

  predicate BadSegment(seg: string) {
    seg == "." || seg == ".." || '\\' in seg
  }

  predicate BadCapture(c: string) {
    exists k :: 0 <= k < |Split(c)| && BadSegment(Split(c)[k])
  }

  /** strings.ReplaceAll(t, "*", c). */
  function ReplaceStars(t: string, c: string): string {
    if t == "" then "" else (if t[0] == '*' then c else [t[0]]) + ReplaceStars(t[1..], c)
  }

  /** What a map means for a key: an exact entry, or else the best pattern's target with the
      capture put in, unless the capture is bad. */
  ghost predicate Resolves<V(!new)>(m: map<string, V>, key: string, conditions: V -> Option<string>, r: Result) {
    if key in m then r == Direct(conditions(m[key]))
    else
      || (NoneIn(m.Keys, key) && r == NoEntry)
      || (exists pat :: BestIn(m.Keys, key, pat) && r == Filled(conditions(m[pat]), Capture(pat, key)))
  }

  function Direct(target: Option<string>): Result {
    if target.Some? then Ok(target.value) else NoTarget
  }

  function Filled(target: Option<string>, capture: string): Result {
    if BadCapture(capture) then InvalidSubpath
    else if target.None? then NoTarget
    else Ok(ReplaceStars(target.value, capture))
  }

  /** The result and the failure depend on the map and the key alone. */
  lemma ResolvesUnique<V(!new)>(m: map<string, V>, key: string, conditions: V -> Option<string>, r: Result, r': Result)
    requires Resolves(m, key, conditions, r) && Resolves(m, key, conditions, r')
    ensures r == r'
  {
    if key !in m && !NoneIn(m.Keys, key) {
      var p :| BestIn(m.Keys, key, p) && r == Filled(conditions(m[p]), Capture(p, key));
      var q :| BestIn(m.Keys, key, q) && r' == Filled(conditions(m[q]), Capture(q, key));
      BestUnique(m.Keys, key, p, q);
    } else if key !in m {
      assert forall p :: !BestIn(m.Keys, key, p);
    }
  }

  method ResolveSubpathMap<V(!new)>(m: map<string, V>, key: string, conditions: V -> Option<string>)
    returns (r: Result)
    ensures Resolves(m, key, conditions, r)
  {
    if key in m {
      return Direct(conditions(m[key]));
    }
    var best, capture := ChoosePattern(m.Keys, key);
    if best == "" {
      return NoEntry;
    }
    assert BestIn(m.Keys, key, best);
    var bad := CheckCapture(capture);
    if bad {
      return InvalidSubpath;
    }
    var target := conditions(m[best]);
    if target.None? {
      return NoTarget;
    }
    r := Ok(ReplaceStars(target.value, capture));
  }

  /** The loop over the map's keys, in whatever order they come. */
  method ChoosePattern(keys: set<string>, key: string) returns (best: string, capture: string)
    ensures best == "" ==> NoneIn(keys, key)
    ensures best != "" ==> BestIn(keys, key, best) && capture == Capture(best, key)
    ensures best != "" ==> forall q :: q in keys && Matches(q, key) ==>
              |Prefix(q)| <= |Prefix(best)| && (|Prefix(q)| == |Prefix(best)| ==> |Suffix(q)| <= |Suffix(best)|)
  {
    best, capture := "", "";
    var prefixLen, suffixLen := -1, -1;
    var todo := keys;
    while todo != {}
      invariant todo <= keys
      invariant best == "" ==> NoneIn(keys - todo, key) && prefixLen == suffixLen == -1
      invariant best != "" ==> BestIn(keys - todo, key, best) && capture == Capture(best, key)
      invariant best != "" ==> prefixLen == |Prefix(best)| && suffixLen == |Suffix(best)|
    {
      var pat :| pat in todo;
      ghost var seen := keys - todo;
      todo := todo - {pat};
      assert keys - todo == seen + {pat};
      if Matches(pat, key) {
        var pl, sl := |Prefix(pat)|, |Suffix(pat)|;
        if best != "" {
          NextBest(seen, key, best, pat);
        }
        if pl > prefixLen || (pl == prefixLen && sl > suffixLen) {
          best, capture := pat, key[pl..|key| - sl];
          prefixLen, suffixLen := pl, sl;
        }
      } else {
        NextSkipped(seen, key, best, pat);
      }
    }
    assert keys - todo == keys;
  }

  method CheckCapture(capture: string) returns (bad: bool)
    ensures bad == BadCapture(capture)
  {
    var segs := Split(capture);
    var i := 0;
    while i < |segs|
      invariant 0 <= i <= |segs|
      invariant forall k :: 0 <= k < i ==> !BadSegment(segs[k])
    {
      if segs[i] == "." || segs[i] == ".." || '\\' in segs[i] {
        assert BadSegment(segs[i]);
        return true;
      }
      i := i + 1;
    }
    bad := false;
  }

  // ------------------------------------------------------------ no climbing out

  /** How a segment reads so far: empty, a dot, two dots, or anything else. */
  function Next(state: nat, c: char): nat {
    if c == '.' && state < 3 then state + 1 else 3
  }

  function Reading(seg: string, state: nat): nat {
    if seg == "" then state else Reading(seg[1..], Next(state, seg[0]))
  }

  /** Some segment of s, of which state has been read already, ends in a state of bad. */
  predicate Hits(s: string, state: nat, bad: set<nat>) {
    if s == "" then state in bad
    else if s[0] == '/' then state in bad || Hits(s[1..], 0, bad)
    else Hits(s[1..], Next(state, s[0]), bad)
  }

  lemma {:induction false} ReadingOthers(seg: string)
    ensures Reading(seg, 3) == 3
  {
    if seg != "" {
      ReadingOthers(seg[1..]);
    }
  }

  lemma ReadingIs(seg: string)
    ensures Reading(seg, 0) == 1 <==> seg == "."
    ensures Reading(seg, 0) == 2 <==> seg == ".."
  {
    if |seg| == 1 {
      assert seg[1..] == "";
    } else if |seg| == 2 {
      assert Reading(seg[1..][1..], Next(Next(0, seg[0]), seg[1])) == Next(Next(0, seg[0]), seg[1]);
      assert Reading(seg[1..], Next(0, seg[0])) == Next(Next(0, seg[0]), seg[1]);
    } else if |seg| >= 3 {
      assert seg[1..][1..] == seg[2..] && seg[2..][1..] == seg[3..];
      assert Reading(seg[2..], Next(Next(0, seg[0]), seg[1])) == Reading(seg[3..], 3);
      ReadingOthers(seg[3..]);
    }
  }

  /** Hits in terms of the segments: the first goes on from state, the others are whole. */
  lemma {:induction false} HitsSegments(s: string, state: nat, bad: set<nat>)
    ensures Hits(s, state, bad) <==>
            Reading(Split(s)[0], state) in bad || exists k :: 1 <= k < |Split(s)| && Reading(Split(s)[k], 0) in bad
  {
    if s != "" {
      var segs, rest := Split(s), Split(s[1..]);
      if s[0] == '/' {
        HitsSegments(s[1..], 0, bad);
        assert segs[1..] == rest;
        if k :| 1 <= k < |segs| && Reading(segs[k], 0) in bad {
          assert segs[k] == rest[k - 1];
          if k == 1 {
            assert Reading(rest[0], 0) in bad;
          }
        }
        if Reading(rest[0], 0) in bad {
          assert segs[1] == rest[0];
        }
        if k :| 1 <= k < |rest| && Reading(rest[k], 0) in bad {
          assert segs[k + 1] == rest[k];
        }
      } else {
        HitsSegments(s[1..], Next(state, s[0]), bad);
        assert segs[0][1..] == rest[0];
        assert forall k :: 1 <= k < |segs| ==> segs[k] == rest[k];
      }
    }
  }

  /** A string has a ".." segment exactly when reading it hits state 2. */
  lemma Climbs(s: string)
    ensures ".." in Split(s) <==> Hits(s, 0, {2})
  {
    HitsSegments(s, 0, {2});
    forall k | 0 <= k < |Split(s)|
      ensures Reading(Split(s)[k], 0) in {2} <==> Split(s)[k] == ".."
    {
      ReadingIs(Split(s)[k]);
    }
  }

  lemma GoodCapture(c: string)
    requires !BadCapture(c)
    ensures !Hits(c, 0, {1, 2})
  {
    HitsSegments(c, 0, {1, 2});
    forall k | 0 <= k < |Split(c)|
      ensures Reading(Split(c)[k], 0) !in {1, 2}
    {
      ReadingIs(Split(c)[k]);
      assert !BadSegment(Split(c)[k]);
    }
  }

  function SlashesForStars(t: string): string {
    if t == "" then "" else [if t[0] == '*' then '/' else t[0]] + SlashesForStars(t[1..])
  }

  /** Reading a good capture from a state that is not two dots passes no two dots, and
      leaves a segment that is empty or neither dot nor two dots. */
  lemma {:induction false} CapturePasses(c: string, rest: string, whole: nat, own: nat) returns (after: nat)
    requires !Hits(c, own, {1, 2}) && own <= whole <= 3
    requires own == 0 ==> whole != 2
    ensures after == 0 || after == 3 || (c == "" && after == whole)
    ensures Hits(c + rest, whole, {2}) == Hits(rest, after, {2})
    ensures c == "" && own == 3 ==> after == 3
  {
    if c == "" {
      assert c + rest == rest;
      after := whole;
    } else {
      assert (c + rest)[1..] == c[1..] + rest;
      if c[0] == '/' {
        after := CapturePasses(c[1..], rest, 0, 0);
      } else {
        after := CapturePasses(c[1..], rest, Next(whole, c[0]), Next(own, c[0]));
      }
    }
  }

  /** Reading the filled target and the target with slashes for its stars side by side. */
  lemma {:induction false} FilledPasses(t: string, c: string, whole: nat, own: nat)
    requires c != "" && !Hits(c, 0, {1, 2}) && !Hits(SlashesForStars(t), own, {2})
    requires whole <= 3 && own <= 3 && (whole == own || whole == 3)
    ensures !Hits(ReplaceStars(t, c), whole, {2})
  {
    if t != "" {
      var u, filled := SlashesForStars(t), ReplaceStars(t[1..], c);
      assert u[1..] == SlashesForStars(t[1..]);
      if t[0] == '*' {
        var after := CapturePasses(c, filled, whole, 0);
        FilledPasses(t[1..], c, after, 0);
      } else {
        assert ReplaceStars(t, c) == [t[0]] + filled && ([t[0]] + filled)[1..] == filled;
        if t[0] == '/' {
          FilledPasses(t[1..], c, 0, 0);
        } else {
          FilledPasses(t[1..], c, Next(whole, t[0]), Next(own, t[0]));
        }
      }
    }
  }

  lemma {:induction false} SlashCapture(t: string)
    ensures ReplaceStars(t, "/") == SlashesForStars(t)
  {
    if t != "" {
      SlashCapture(t[1..]);
    }
  }

  lemma SlashIsGood()
    ensures !BadCapture("/")
  {
    assert "/"[1..] == "";
    assert Split("/") == ["", ""];
  }

  /** No capture that is let through makes a target climb, that is, have a ".." segment,
      exactly when none of its own parts between slashes and stars is "..". */
  lemma CannotClimb(target: string)
    ensures (forall c :: c != "" && !BadCapture(c) ==> ".." !in Split(ReplaceStars(target, c))) <==>
            ".." !in Split(SlashesForStars(target))
  {
    if ".." !in Split(SlashesForStars(target)) {
      forall c | c != "" && !BadCapture(c)
        ensures ".." !in Split(ReplaceStars(target, c))
      {
        Climbs(SlashesForStars(target));
        GoodCapture(c);
        FilledPasses(target, c, 0, 0);
        Climbs(ReplaceStars(target, c));
      }
    } else {
      SlashCapture(target);
      SlashIsGood();
    }
  }

  lemma SplitChar(c: char, rest: string)
    ensures Split([c] + rest) == if c == '/' then [""] + Split(rest) else [[c] + Split(rest)[0]] + Split(rest)[1..]
  {
    assert ([c] + rest)[1..] == rest;
  }

  lemma SplitEmpty()
    ensures Split("") == [""]
  {
  }

  lemma SplitClimbing()
    ensures Split("./x/..") == [".", "x", ".."]
  {
    hide Split;
    SplitEmpty();
    SplitChar('.', "");
    assert ['.'] + "" == "." && Split(".") == ["."];
    SplitChar('.', ".");
    assert ['.'] + "." == ".." && Split("..") == [".."];
    SplitChar('/', "..");
    assert ['/'] + ".." == "/.." && Split("/..") == ["", ".."];
    SplitChar('x', "/..");
    assert ['x'] + "" == "x" && ['x'] + "/.." == "x/.." && Split("x/..") == ["x", ".."];
    SplitChar('/', "x/..");
    assert ['/'] + "x/.." == "/x/.." && Split("/x/..") == ["", "x", ".."];
    SplitChar('.', "/x/..");
    assert ['.'] + "/x/.." == "./x/..";
  }

  lemma StarsChar(c: char, rest: string, capture: string)
    ensures ReplaceStars([c] + rest, capture) == (if c == '*' then capture else [c]) + ReplaceStars(rest, capture)
  {
    assert ([c] + rest)[1..] == rest;
  }

  lemma FilledClimbing()
    ensures ReplaceStars("./x*..", "/") == "./x/.."
  {
    StarsChar('.', "/x*..", "/");
    StarsChar('/', "x*..", "/");
    StarsChar('x', "*..", "/");
    StarsChar('*', "..", "/");
    StarsChar('.', ".", "/");
    StarsChar('.', "", "/");
  }

  /** A map and a key that do climb: the target's last part is "..", and the capture is a
      slash. */
  lemma ClimbingEntry(conditions: string -> Option<string>)
    requires conditions("./x*..") == Some("./x*..")
    ensures Resolves(map["./f*" := "./x*.."], "./f/", conditions, Ok("./x/..")) && ".." in Split("./x/..")
  {
    var m, pat, key := map["./f*" := "./x*.."], "./f*", "./f/";
    hide IndexOf, Split, ReplaceStars, BadCapture, IsPattern, Prefix, Suffix;
    StarAt(pat, 3);
    assert Matches(pat, key) && Capture(pat, key) == "/";
    SlashIsGood();
    FilledClimbing();
    SplitClimbing();
    assert BestIn(m.Keys, key, pat);
  }
}
