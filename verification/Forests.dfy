/** Post-order over whatever a children function gives: what the recursion of walk_block visits,
    and when that is every block once. */
module Forests {
  import opened Sequences


  type Path = string

  /** `height` is the measure that makes the recursion end. */
  datatype Forest = Forest(children: Path -> seq<Path>, height: Path -> nat)
  {
    /** Children are lower. */
    ghost predicate Acyclic()
    {
      forall p, c :: IsChild(p, c) ==> height(c) < height(p)
    }

    /** And they are listed once, and below one parent only. */
    ghost predicate Sound()
    {
      && Acyclic()
      && (forall p :: Distinct(children(p)))
      && (forall p, q, c :: IsChild(p, c) && IsChild(q, c) ==> p == q)
    }

    predicate IsChild(p: Path, c: Path)
    {
      c in children(p)
    }
  }

  predicate Distinct(s: seq<Path>)
  {
    forall i, j :: 0 <= i < j < |s| ==> s[i] != s[j]
  }

  datatype Visit = Visit(path: Path, isLeaf: bool)

  ghost function PostOrder(f: Forest, p: Path): (r: seq<Visit>)
    requires f.Acyclic()
    ensures |r| > 0 && r[|r| - 1].path == p
    decreases f.height(p), |f.children(p)| + 1
  {
    PostOrderAll(f, p, f.children(p)) + [Visit(p, f.children(p) == [])]
  }

  ghost function PostOrderAll(f: Forest, p: Path, cs: seq<Path>): seq<Visit>
    requires f.Acyclic() && forall c :: c in cs ==> f.IsChild(p, c)
    decreases f.height(p), |cs|
  {
    if cs == [] then [] else
      assert f.IsChild(p, cs[0]);
      PostOrder(f, cs[0]) + PostOrderAll(f, p, cs[1..])
  }

  function Paths(vs: seq<Visit>): (r: seq<Path>)
    ensures |r| == |vs|
    ensures forall i :: 0 <= i < |vs| ==> r[i] == vs[i].path
  {
    seq(|vs|, i requires 0 <= i < |vs| => vs[i].path)
  }

  /** A chain of children. */
  predicate IsChain(f: Forest, chain: seq<Path>)
  {
    chain != [] && forall i :: 0 <= i < |chain| - 1 ==> f.IsChild(chain[i], chain[i + 1])
  }

  /** `x` is `p` or lies below it. */
  ghost predicate Below(f: Forest, p: Path, x: Path)
  {
    exists chain: seq<Path> :: IsChain(f, chain) && chain[0] == p && chain[|chain| - 1] == x
  }

  lemma {:induction false} PathsConcat(a: seq<Visit>, b: seq<Visit>)
    ensures Paths(a + b) == Paths(a) + Paths(b)
  {
  }

  lemma InPathsConcat(a: seq<Visit>, b: seq<Visit>, x: Path)
    ensures x in Paths(a + b) <==> x in Paths(a) || x in Paths(b)
  {
    PathsConcat(a, b);
  }

  ghost predicate VisitedFrom(f: Forest, c: Path, x: Path)
    requires f.Acyclic()
  {
    x in Paths(PostOrder(f, c))
  }

  lemma {:induction false} VisitedByOneChild(f: Forest, p: Path, cs: seq<Path>, x: Path)
    requires f.Acyclic() && forall c :: c in cs ==> f.IsChild(p, c)
    ensures x in Paths(PostOrderAll(f, p, cs)) <==> exists c :: c in cs && VisitedFrom(f, c, x)
  {
    if cs != [] {
      VisitedByOneChild(f, p, cs[1..], x);
      InPathsConcat(PostOrder(f, cs[0]), PostOrderAll(f, p, cs[1..]), x);
      assert cs[0] in cs;
      if x in Paths(PostOrder(f, cs[0])) {
        assert VisitedFrom(f, cs[0], x);
      }
    }
  }

  lemma {:induction false} VisitedCases(f: Forest, p: Path, x: Path)
    requires f.Acyclic()
    ensures VisitedFrom(f, p, x) <==> x == p || exists c :: f.IsChild(p, c) && VisitedFrom(f, c, x)
  {
    var cs := f.children(p);
    VisitedByOneChild(f, p, cs, x);
    InPathsConcat(PostOrderAll(f, p, cs), [Visit(p, cs == [])], x);
    assert Paths([Visit(p, cs == [])]) == [p];
  }

  /** Everything visited is lower than the start, which is visited last and never again. */
  lemma {:induction false} VisitedIsLower(f: Forest, p: Path, x: Path)
    requires f.Acyclic() && VisitedFrom(f, p, x)
    ensures x == p || f.height(x) < f.height(p)
    ensures x != p ==> exists q :: VisitedFrom(f, p, q) && f.IsChild(q, x)
    decreases f.height(p)
  {
    VisitedCases(f, p, x);
    if x != p {
      var c :| f.IsChild(p, c) && VisitedFrom(f, c, x);
      VisitedIsLower(f, c, x);
      VisitedCases(f, p, p);
      if x != c {
        var q :| VisitedFrom(f, c, q) && f.IsChild(q, x);
        VisitedCases(f, p, q);
      }
    }
  }

  /** The subtrees of two children have no block in common. */
  lemma {:induction false} SubtreesDisjoint(f: Forest, p: Path, c: Path, d: Path, x: Path)
    requires f.Sound() && f.IsChild(p, c) && f.IsChild(p, d) && c != d
    requires VisitedFrom(f, c, x)
    ensures !VisitedFrom(f, d, x)
    decreases f.height(p) - f.height(x)
  {
    if VisitedFrom(f, d, x) {
      VisitedIsLower(f, c, x);
      VisitedIsLower(f, d, x);
      if x == c || x == d {
        // the parent of the visited child is p itself, which is too high to be visited
        var e := if x == c then d else c;
        var q :| VisitedFrom(f, e, q) && f.IsChild(q, x);
        VisitedIsLower(f, e, p);
      } else {
        var q :| VisitedFrom(f, c, q) && f.IsChild(q, x);
        var r :| VisitedFrom(f, d, r) && f.IsChild(r, x);
        VisitedIsLower(f, c, q);
        SubtreesDisjoint(f, p, c, d, q);
      }
      assert false;
    }
  }

  lemma {:induction false} DistinctConcat(a: seq<Path>, b: seq<Path>)
    requires Distinct(a) && Distinct(b) && forall x :: x in a ==> x !in b
    ensures Distinct(a + b)
  {
    var s := a + b;
    forall i, j | 0 <= i < j < |s| ensures s[i] != s[j] {
      if i < |a| {
        assert a[i] in a && a[i] !in b;
      }
    }
  }

  lemma {:induction false} AllVisitedOnce(f: Forest, p: Path, cs: seq<Path>)
    requires f.Sound() && Distinct(cs) && forall c :: c in cs ==> f.IsChild(p, c)
    ensures Distinct(Paths(PostOrderAll(f, p, cs)))
    decreases f.height(p), |cs|
  {
    if cs != [] {
      assert f.IsChild(p, cs[0]);
      VisitedOnce(f, cs[0]);
      AllVisitedOnce(f, p, cs[1..]);
      var a, b := PostOrder(f, cs[0]), PostOrderAll(f, p, cs[1..]);
      PathsConcat(a, b);
      forall x | x in Paths(a) ensures x !in Paths(b) {
        VisitedByOneChild(f, p, cs[1..], x);
        forall d | d in cs[1..] ensures !VisitedFrom(f, d, x) {
          SubtreesDisjoint(f, p, cs[0], d, x);
        }
      }
      DistinctConcat(Paths(a), Paths(b));
    }
  }

  /** No block is visited twice. */
  lemma {:induction false} VisitedOnce(f: Forest, p: Path)
    requires f.Sound()
    ensures Distinct(Paths(PostOrder(f, p)))
    decreases f.height(p), |f.children(p)| + 1
  {
    var cs := f.children(p);
    AllVisitedOnce(f, p, cs);
    var all := PostOrderAll(f, p, cs);
    PathsConcat(all, [Visit(p, cs == [])]);
    VisitedByOneChild(f, p, cs, p);
    forall c | c in cs ensures !VisitedFrom(f, c, p) {
      if VisitedFrom(f, c, p) {
        VisitedIsLower(f, c, p);
      }
    }
    DistinctConcat(Paths(all), [p]);
  }

  lemma {:induction false} ChainIsVisited(f: Forest, chain: seq<Path>)
    requires f.Acyclic() && IsChain(f, chain)
    ensures VisitedFrom(f, chain[0], chain[|chain| - 1])
    decreases |chain|
  {
    VisitedCases(f, chain[0], chain[|chain| - 1]);
    if |chain| > 1 {
      assert f.IsChild(chain[0], chain[1]);
      assert forall i :: 0 <= i < |chain[1..]| ==> chain[1..][i] == chain[i + 1];
      ChainIsVisited(f, chain[1..]);
    }
  }

  lemma {:induction false} VisitedHasChain(f: Forest, p: Path, x: Path) returns (chain: seq<Path>)
    requires f.Acyclic() && VisitedFrom(f, p, x)
    ensures IsChain(f, chain) && chain[0] == p && chain[|chain| - 1] == x
    decreases f.height(p)
  {
    VisitedCases(f, p, x);
    if x == p {
      chain := [p];
    } else {
      var c :| f.IsChild(p, c) && VisitedFrom(f, c, x);
      var rest := VisitedHasChain(f, c, x);
      chain := [p] + rest;
      forall i | 0 <= i < |chain| - 1 ensures f.IsChild(chain[i], chain[i + 1]) {
        assert chain[i + 1] == rest[i];
        if i > 0 {
          assert f.IsChild(rest[i - 1], rest[i]);
        }
      }
    }
  }

  /** The walk visits exactly the blocks at or below its start. */
  lemma {:induction false} VisitsExactlyTheTree(f: Forest, p: Path, x: Path)
    requires f.Acyclic()
    ensures VisitedFrom(f, p, x) <==> Below(f, p, x)
  {
    if VisitedFrom(f, p, x) {
      var chain := VisitedHasChain(f, p, x);
    }
    if Below(f, p, x) {
      var chain: seq<Path> :| IsChain(f, chain) && chain[0] == p && chain[|chain| - 1] == x;
      ChainIsVisited(f, chain);
    }
  }

  /** Every child comes before its parent. */
  ghost predicate ChildrenFirst(f: Forest, s: seq<Path>)
  {
    forall i, j :: 0 <= i < |s| && 0 <= j < |s| && f.IsChild(s[i], s[j]) ==> j < i
  }

  lemma {:induction false} ChildrenFirstConcat(f: Forest, a: seq<Path>, b: seq<Path>)
    requires ChildrenFirst(f, a) && ChildrenFirst(f, b) && Distinct(a + b)
    requires forall x, y :: x in a && y in b ==> !f.IsChild(x, y)
    ensures ChildrenFirst(f, a + b)
  {
    var s := a + b;
    assert forall i :: 0 <= i < |a| ==> s[i] in a;
    assert forall j :: |a| <= j < |s| ==> s[j] in b;
    forall i, j | 0 <= i < |s| && 0 <= j < |s| && f.IsChild(s[i], s[j]) ensures j < i {
    }
  }

  lemma {:induction false} AllChildrenFirst(f: Forest, p: Path, cs: seq<Path>)
    requires f.Sound() && Distinct(cs) && forall c :: c in cs ==> f.IsChild(p, c)
    ensures ChildrenFirst(f, Paths(PostOrderAll(f, p, cs)))
    decreases f.height(p), |cs|
  {
    if cs != [] {
      assert f.IsChild(p, cs[0]);
      PostOrderChildrenFirst(f, cs[0]);
      AllChildrenFirst(f, p, cs[1..]);
      AllVisitedOnce(f, p, cs);
      var a, b := PostOrder(f, cs[0]), PostOrderAll(f, p, cs[1..]);
      PathsConcat(a, b);
      forall x, y | x in Paths(a) && y in Paths(b) ensures !f.IsChild(x, y) {
        if f.IsChild(x, y) {
          ChildOfVisitedIsVisited(f, cs[0], x, y);
          VisitedByOneChild(f, p, cs[1..], y);
          var d :| d in cs[1..] && VisitedFrom(f, d, y);
          SubtreesDisjoint(f, p, cs[0], d, y);
        }
      }
      ChildrenFirstConcat(f, Paths(a), Paths(b));
    }
  }

  lemma {:induction false} ChildOfVisitedIsVisited(f: Forest, p: Path, x: Path, y: Path)
    requires f.Acyclic()
    requires VisitedFrom(f, p, x) && f.IsChild(x, y)
    ensures VisitedFrom(f, p, y)
    decreases f.height(p)
  {
    VisitedCases(f, p, x);
    VisitedCases(f, p, y);
    VisitedCases(f, y, y);
    if x != p {
      var c :| f.IsChild(p, c) && VisitedFrom(f, c, x);
      ChildOfVisitedIsVisited(f, c, x, y);
    }
  }

  lemma {:induction false} PostOrderChildrenFirst(f: Forest, p: Path)
    requires f.Sound()
    ensures ChildrenFirst(f, Paths(PostOrder(f, p)))
    decreases f.height(p), |f.children(p)| + 1
  {
    var cs := f.children(p);
    AllChildrenFirst(f, p, cs);
    VisitedOnce(f, p);
    var all := PostOrderAll(f, p, cs);
    PathsConcat(all, [Visit(p, cs == [])]);
    assert Paths([Visit(p, cs == [])]) == [p];
    forall x | x in Paths(all) ensures !f.IsChild(x, p) {
      VisitedByOneChild(f, p, cs, x);
      var c :| c in cs && VisitedFrom(f, c, x);
      NotAboveParent(f, p, c, x);
    }
    NotOwnChild(f, p);
    ChildrenFirstConcat(f, Paths(all), [p]);
  }

  lemma NotOwnChild(f: Forest, p: Path)
    requires f.Acyclic()
    ensures !f.IsChild(p, p)
  {
  }

  lemma NotAboveParent(f: Forest, p: Path, c: Path, x: Path)
    requires f.Acyclic() && f.IsChild(p, c) && VisitedFrom(f, c, x)
    ensures !f.IsChild(x, p)
  {
    VisitedIsLower(f, c, x);
  }

  lemma {:induction false} AllLeavesFlagged(f: Forest, p: Path, cs: seq<Path>)
    requires f.Acyclic() && forall c :: c in cs ==> f.IsChild(p, c)
    ensures forall v :: v in PostOrderAll(f, p, cs) ==> v.isLeaf == (f.children(v.path) == [])
    decreases f.height(p), |cs|
  {
    if cs != [] {
      assert f.IsChild(p, cs[0]);
      LeavesFlagged(f, cs[0]);
      AllLeavesFlagged(f, p, cs[1..]);
    }
  }

  /** `is_leaf` is true exactly for childless blocks. */
  lemma {:induction false} LeavesFlagged(f: Forest, p: Path)
    requires f.Acyclic()
    ensures forall v :: v in PostOrder(f, p) ==> v.isLeaf == (f.children(v.path) == [])
    decreases f.height(p), |f.children(p)| + 1
  {
    AllLeavesFlagged(f, p, f.children(p));
  }

  /** The walk over an unchanging tree: every block at or below the start exactly once, children
      before their parents, the start last, and leaves told apart from the rest. */
  lemma {:induction false} WalkIsPostOrder(f: Forest, p: Path)
    requires f.Sound()
    ensures var v := PostOrder(f, p);
            && (forall x :: x in Paths(v) <==> Below(f, p, x))
            && Distinct(Paths(v))
            && ChildrenFirst(f, Paths(v))
            && Paths(v)[|v| - 1] == p
            && (forall i :: 0 <= i < |v| ==> (v[i].isLeaf <==> forall c :: !f.IsChild(v[i].path, c)))
  {
    var v := PostOrder(f, p);
    forall x ensures x in Paths(v) <==> Below(f, p, x) {
      VisitsExactlyTheTree(f, p, x);
    }
    VisitedOnce(f, p);
    PostOrderChildrenFirst(f, p);
    LeavesFlagged(f, p);
    forall i | 0 <= i < |v| ensures v[i].isLeaf <==> forall c :: !f.IsChild(v[i].path, c) {
      assert v[i] in v && Paths(v)[i] == v[i].path;
      VisitedIsLower(f, p, v[i].path);
      if f.children(v[i].path) != [] {
        assert f.IsChild(v[i].path, f.children(v[i].path)[0]);
      }
    }
  }

  // ----- without the forest hypotheses -----

  /** Every block at or below `p` lists its children once, and none of them is below another one. */
  ghost predicate SoundBelow(f: Forest, p: Path)
  {
    && (forall q :: Below(f, p, q) ==> Distinct(f.children(q)))
    && (forall q, r, c :: Below(f, p, q) && Below(f, p, r) && f.IsChild(q, c) && f.IsChild(r, c) ==> q == r)
  }

  /** The part of a forest at and below `p`. */
  ghost function Part(f: Forest, p: Path): Forest
  {
    f.(children := x => if Below(f, p, x) then f.children(x) else [])
  }

  lemma {:induction false} ChildIsBelow(f: Forest, p: Path, q: Path, c: Path)
    requires f.Acyclic() && Below(f, p, q) && f.IsChild(q, c)
    ensures Below(f, p, c)
  {
    VisitsExactlyTheTree(f, p, q);
    VisitsExactlyTheTree(f, p, c);
    ChildOfVisitedIsVisited(f, p, q, c);
  }

  lemma {:induction false} SelfIsBelow(f: Forest, p: Path)
    ensures Below(f, p, p)
  {
    assert IsChain(f, [p]);
  }

  lemma {:induction false} PartIsSound(f: Forest, p: Path)
    requires f.Acyclic() && SoundBelow(f, p)
    ensures Part(f, p).Sound()
  {
    var g := Part(f, p);
    assert forall q, c :: g.IsChild(q, c) ==> f.IsChild(q, c) && Below(f, p, q);
  }

  lemma {:induction false} PartHasSameWalk(f: Forest, p: Path, q: Path)
    requires f.Acyclic() && Part(f, p).Acyclic() && Below(f, p, q)
    ensures PostOrder(Part(f, p), q) == PostOrder(f, q)
    decreases f.height(q), |f.children(q)| + 1
  {
    PartHasSameWalks(f, p, q, f.children(q));
  }

  lemma {:induction false} PartHasSameWalks(f: Forest, p: Path, q: Path, cs: seq<Path>)
    requires f.Acyclic() && Part(f, p).Acyclic() && Below(f, p, q)
    requires forall c :: c in cs ==> f.IsChild(q, c)
    ensures forall c :: c in cs ==> Part(f, p).IsChild(q, c)
    ensures PostOrderAll(Part(f, p), q, cs) == PostOrderAll(f, q, cs)
    decreases f.height(q), |cs|
  {
    if cs != [] {
      assert f.IsChild(q, cs[0]);
      ChildIsBelow(f, p, q, cs[0]);
      PartHasSameWalk(f, p, cs[0]);
      PartHasSameWalks(f, p, q, cs[1..]);
    }
  }

  lemma {:induction false} DistinctParts(a: seq<Path>, b: seq<Path>)
    requires Distinct(a + b)
    ensures Distinct(a) && Distinct(b) && forall x :: x in a ==> x !in b
  {
    var s := a + b;
    assert forall i :: 0 <= i < |a| ==> s[i] == a[i];
    assert forall i :: 0 <= i < |b| ==> s[|a| + i] == b[i];
  }

  /** What no repetition among the blocks below several children says about them. */
  lemma {:induction false} DistinctWalks(f: Forest, p: Path, cs: seq<Path>)
    requires f.Acyclic() && forall c :: c in cs ==> f.IsChild(p, c)
    requires Distinct(Paths(PostOrderAll(f, p, cs)))
    ensures Distinct(cs)
    ensures forall c :: c in cs ==> Distinct(Paths(PostOrder(f, c)))
    ensures forall c, d, x :: c in cs && d in cs && VisitedFrom(f, c, x) && VisitedFrom(f, d, x) ==> c == d
  {
    if cs != [] {
      var a, b := PostOrder(f, cs[0]), PostOrderAll(f, p, cs[1..]);
      PathsConcat(a, b);
      DistinctParts(Paths(a), Paths(b));
      DistinctWalks(f, p, cs[1..]);
      forall d, x | d in cs[1..] && VisitedFrom(f, d, x) ensures !VisitedFrom(f, cs[0], x) {
        VisitedByOneChild(f, p, cs[1..], x);
      }
      VisitedCases(f, cs[0], cs[0]);
      assert cs[0] !in cs[1..] by {
        VisitedByOneChild(f, p, cs[1..], cs[0]);
      }
      assert cs == [cs[0]] + cs[1..];
      DistinctConcat([cs[0]], cs[1..]);
    }
  }

  lemma {:induction false} OnceHasOneParent(f: Forest, p: Path, q: Path, r: Path, c: Path)
    requires f.Acyclic() && Distinct(Paths(PostOrder(f, p)))
    requires VisitedFrom(f, p, q) && VisitedFrom(f, p, r) && f.IsChild(q, c) && f.IsChild(r, c)
    ensures q == r
    decreases f.height(p)
  {
    OnceBelow(f, p);
    var cs := f.children(p);
    VisitedCases(f, p, q);
    VisitedCases(f, p, r);
    VisitedCases(f, c, c);
    if q != p && r != p {
      var d :| d in cs && VisitedFrom(f, d, q);
      var e :| e in cs && VisitedFrom(f, e, r);
      assert f.IsChild(p, d) && f.IsChild(p, e);
      ChildOfVisitedIsVisited(f, d, q, c);
      ChildOfVisitedIsVisited(f, e, r, c);
      OnceHasOneParent(f, d, q, r, c);
    } else if q != p {
      NoSecondWayDown(f, p, q, c);
    } else if r != p {
      NoSecondWayDown(f, p, r, c);
    }
  }

  lemma {:induction false} OnceBelow(f: Forest, p: Path)
    requires f.Acyclic() && Distinct(Paths(PostOrder(f, p)))
    ensures Distinct(f.children(p))
    ensures forall c :: c in f.children(p) ==> Distinct(Paths(PostOrder(f, c)))
    ensures forall c, d, x ::
              c in f.children(p) && d in f.children(p) && VisitedFrom(f, c, x) && VisitedFrom(f, d, x) ==> c == d
  {
    var cs := f.children(p);
    PathsConcat(PostOrderAll(f, p, cs), [Visit(p, cs == [])]);
    DistinctParts(Paths(PostOrderAll(f, p, cs)), Paths([Visit(p, cs == [])]));
    DistinctWalks(f, p, cs);
  }

  /** A child of the start is not also below another visited block. */
  lemma {:induction false} NoSecondWayDown(f: Forest, p: Path, r: Path, c: Path)
    requires f.Acyclic() && Distinct(Paths(PostOrder(f, p)))
    requires VisitedFrom(f, p, r) && r != p && f.IsChild(p, c)
    ensures !f.IsChild(r, c)
  {
    if f.IsChild(r, c) {
      OnceBelow(f, p);
      VisitedCases(f, p, r);
      VisitedCases(f, c, c);
      var e :| f.IsChild(p, e) && VisitedFrom(f, e, r);
      ChildOfVisitedIsVisited(f, e, r, c);
      assert e == c;
      VisitedIsLower(f, c, r);
    }
  }

  lemma {:induction false} OnceListsOnce(f: Forest, p: Path, q: Path)
    requires f.Acyclic() && Distinct(Paths(PostOrder(f, p))) && VisitedFrom(f, p, q)
    ensures Distinct(f.children(q))
    decreases f.height(p)
  {
    OnceBelow(f, p);
    VisitedCases(f, p, q);
    if q != p {
      var c :| f.IsChild(p, c) && VisitedFrom(f, c, q);
      OnceListsOnce(f, c, q);
    }
  }

  /** If only the recursion ends, the walk visits no block twice if and only if no block below the
      start is a child of two of the blocks there, or twice of one. */
  lemma {:induction false} VisitedOnceExactly(f: Forest, p: Path)
    requires f.Acyclic()
    ensures Distinct(Paths(PostOrder(f, p))) <==> SoundBelow(f, p)
  {
    if SoundBelow(f, p) {
      PartIsSound(f, p);
      SelfIsBelow(f, p);
      PartHasSameWalk(f, p, p);
      VisitedOnce(Part(f, p), p);
    }
    if Distinct(Paths(PostOrder(f, p))) {
      forall q | Below(f, p, q) ensures Distinct(f.children(q)) {
        VisitsExactlyTheTree(f, p, q);
        OnceListsOnce(f, p, q);
      }
      forall q, r, c | Below(f, p, q) && Below(f, p, r) && f.IsChild(q, c) && f.IsChild(r, c) ensures q == r {
        VisitsExactlyTheTree(f, p, q);
        VisitsExactlyTheTree(f, p, r);
        OnceHasOneParent(f, p, q, r, c);
      }
    }
  }

  lemma {:induction false} PostOrderAllConcat(f: Forest, p: Path, a: seq<Path>, b: seq<Path>)
    requires f.Acyclic() && forall c :: c in a + b ==> f.IsChild(p, c)
    requires forall c :: c in a ==> f.IsChild(p, c)
    requires forall c :: c in b ==> f.IsChild(p, c)
    ensures PostOrderAll(f, p, a + b) == PostOrderAll(f, p, a) + PostOrderAll(f, p, b)
  {
    if a == [] {
      assert a + b == b;
    } else {
      assert (a + b)[1..] == a[1..] + b;
      PostOrderAllConcat(f, p, a[1..], b);
      Assoc(PostOrder(f, a[0]), PostOrderAll(f, p, a[1..]), PostOrderAll(f, p, b));
    }
  }

  lemma {:induction false} PostOrderAllOne(f: Forest, p: Path, c: Path)
    requires f.Acyclic() && f.IsChild(p, c)
    ensures PostOrderAll(f, p, [c]) == PostOrder(f, c)
  {
    assert [c][1..] == [];
  }

  lemma {:induction false} WalkOfOneWay(f: Forest, b: Path, c: Path)
    requires f.Acyclic() && f.children(b) == [c] && f.children(c) == []
    ensures PostOrder(f, c) == [Visit(c, true)] && PostOrder(f, b) == [Visit(c, true), Visit(b, false)]
  {
    assert f.IsChild(b, c);
    PostOrderAllOne(f, b, c);
    assert PostOrder(f, c) == [Visit(c, true)];
  }

  lemma {:induction false} TwoWaysDescend(f: Forest, a: Path, b: Path, c: Path)
    requires f.children(a) == [b, c] && f.children(b) == [c] && forall p :: p != a && p != b ==> f.children(p) == []
    requires f.height(c) < f.height(b) < f.height(a)
    ensures f.Acyclic()
  {
  }

  /** A block below another one and below the start is visited by both ways. */
  lemma {:induction false} WalkOfTwoWays(f: Forest, a: Path, b: Path, c: Path)
    requires f.Acyclic() && f.children(a) == [b, c] && f.children(b) == [c] && f.children(c) == []
    ensures Paths(PostOrder(f, a)) == [c, b, c, a]
  {
    assert f.IsChild(a, b) && f.IsChild(a, c);
    WalkOfOneWay(f, b, c);
    PostOrderAllOne(f, a, c);
    assert [b, c][1..] == [c];
    var all := PostOrderAll(f, a, [b, c]);
    assert all == PostOrder(f, b) + PostOrder(f, c);
    assert PostOrder(f, a) == all + [Visit(a, false)];
  }
}
