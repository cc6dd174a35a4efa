/**
 What a reader of a structural forest may rely on: walking it depth-first visits the statements in
 document order, a subtree is one stretch of the document, and the depth limit only re-hangs
 statements on an ancestor they already had.
 */
module DocumentOrder {
  import opened Common
  import opened StructuralForest

  /** Child lists are ascending and point forward, so a walk ends. */
  ghost predicate Walkable(nodes: seq<Node>) {
    forall i :: 0 <= i < |nodes| ==> ListedAfter(nodes[i].children, i, |nodes|)
  }

  ghost predicate ListedAfter(ids: seq<nat>, i: int, n: nat) {
    Ascending(ids) && forall k :: 0 <= k < |ids| ==> i < ids[k] < n
  }

  /** Depth-first: each node, then its children, then its later siblings. */
  ghost function Walk(nodes: seq<Node>, ids: seq<nat>): seq<nat>
    requires Walkable(nodes) && ListedAfter(ids, -1, |nodes|)
    decreases if ids == [] then 0 else |nodes| - ids[0]
  {
    if ids == [] then []
    else
      var i := ids[0];
      assert ListedAfter(nodes[i].children, i, |nodes|);
      [i] + Walk(nodes, nodes[i].children) + Walk(nodes, ids[1..])
  }

  function Range(lo: nat, hi: nat): seq<nat>
    requires lo <= hi
  {
    seq(hi - lo, k requires 0 <= k => lo + k)
  }

  /** `ids` lists the statements of `[lo, hi)` whose path is `path`. */
  ghost predicate Siblings(log: seq<Entry>, limit: nat, path: seq<nat>, lo: nat, hi: nat, ids: seq<nat>)
    requires hi <= |log|
  {
    Ascending(ids) && forall k: nat :: k in ids <==> lo <= k < hi && Path(log, limit, k) == path
  }

  /** Everything in `[lo, hi)` lies below `path`, starts there, and nothing from `hi` on continues it. */
  ghost predicate Stretch(log: seq<Entry>, limit: nat, path: seq<nat>, lo: nat, hi: nat)
    requires lo <= hi <= |log|
  {
    && (forall k :: lo <= k < hi ==> path <= Path(log, limit, k))
    && (lo < hi ==> Path(log, limit, lo) == path)
    && (hi < |log| ==> |Path(log, limit, hi)| <= |path|)
  }

  // ---------------------------------------------------------------- paths are stable over a stretch

  /** An ancestor of `k` is an ancestor, at the same rank, of everything between it and `k`. */
  lemma AncestorOfStretch(log: seq<Entry>, limit: nat, r: nat, m: nat, k: nat)
    requires m <= k < |log| && r < |Path(log, limit, k)| && Path(log, limit, k)[r] < m
    ensures r < |Path(log, limit, m)| && Path(log, limit, m)[r] == Path(log, limit, k)[r]
  {
    var z := Path(log, limit, k)[r];
    EnclosersMembers(log, k);
    EnclosersMembers(log, m);
    assert z in Enclosers(log, k);
    assert z in Enclosers(log, m) by {
      assert Encloses(log, z, k);
    }
    var s :| 0 <= s < |Enclosers(log, m)| && Enclosers(log, m)[s] == z;
    EncloserRank(log, k, r);
    EncloserRank(log, m, s);
    assert |Enclosers(log, z)| == r == s;
  }

  /** Ranks of a path ascend. */
  lemma PathAscends(log: seq<Entry>, limit: nat, k: nat)
    requires k < |log|
    ensures Ascending(Path(log, limit, k))
  {
    EnclosersMembers(log, k);
  }

  /** Between two siblings everything hangs below the first. */
  lemma BelowFirstSibling(log: seq<Entry>, limit: nat, path: seq<nat>, lo: nat, hi: nat, k: nat)
    requires lo < k < hi <= |log| && Stretch(log, limit, path, lo, hi)
    requires forall j :: lo < j <= k ==> Path(log, limit, j) != path
    ensures path + [lo] <= Path(log, limit, k)
  {
    hide Path;
    var p := Path(log, limit, k);
    var z := p[|path|];
    PathOfAncestor(log, limit, k, |path|);
    assert Path(log, limit, z) == path;
    if z < lo {
      AncestorOfStretch(log, limit, |path|, lo, k);
    }
    assert z == lo;
  }

  /** Below the first sibling lies a stretch of its own. */
  lemma InnerStretch(log: seq<Entry>, limit: nat, path: seq<nat>, lo: nat, y: nat, hi: nat)
    requires lo < y <= hi <= |log| && Stretch(log, limit, path, lo, hi)
    requires forall j :: lo < j < y ==> Path(log, limit, j) != path
    requires y < |log| ==> |Path(log, limit, y)| <= |path|
    ensures Stretch(log, limit, path + [lo], lo + 1, y)
  {
    hide Path;
    var next := if lo + 1 < y then Path(log, limit, lo + 1) else [];
    assert Ascending(next) by {
      if lo + 1 < y {
        PathAscends(log, limit, lo + 1);
      }
    }
    assert |next| > |path| + 1 ==> next[|path|] < next[|path| + 1];
    forall k | lo + 1 <= k < y
      ensures path + [lo] <= Path(log, limit, k)
    {
      BelowFirstSibling(log, limit, path, lo, hi, k);
    }
    assert lo + 1 < y ==> next[|path|] == lo && |next| == |path| + 1;
  }

  /** The children of the first sibling are the siblings one level down before the next sibling. */
  lemma ChildrenOfFirst(log: seq<Entry>, limit: nat, path: seq<nat>, lo: nat, y: nat)
    requires lo < y <= |log| && Path(log, limit, lo) == path
    requires y < |log| ==> |Path(log, limit, y)| <= |path|
    ensures Siblings(log, limit, path + [lo], lo + 1, y, HungOn(log, limit, Some(lo), |log|))
  {
    hide Path;
    HungOnMembers(log, limit, Some(lo), |log|);
    forall k: nat
      ensures k in HungOn(log, limit, Some(lo), |log|) <==> lo + 1 <= k < y && Path(log, limit, k) == path + [lo]
    {
      if k < |log| {
        var p := Path(log, limit, k);
        if Parent(log, limit, k) == Some(lo) {
          PathOfAncestor(log, limit, k, |p| - 1);
          assert p == path + [lo];
          if y <= k {
            AncestorOfStretch(log, limit, |path|, y, k);
          }
        }
      }
    }
  }

  /** Walking the siblings of a stretch visits the stretch in order. */
  lemma {:induction false} WalkStretch(
      log: seq<Entry>, limit: nat, nodes: seq<Node>, roots: seq<nat>, path: seq<nat>, lo: nat, hi: nat, ids: seq<nat>)
    requires IsForest(log, limit, nodes, roots) && Walkable(nodes)
    requires lo <= hi <= |log| && Stretch(log, limit, path, lo, hi) && Siblings(log, limit, path, lo, hi, ids)
    ensures ListedAfter(ids, -1, |nodes|) && Walk(nodes, ids) == Range(lo, hi)
    decreases hi - lo
  {
    hide Path, Parent, IsForest, IsNode, Stretch, Siblings, HungOn;
    assert |nodes| == |log| by { ForestShape(log, limit, nodes, roots); }
    EmptyStretch(log, limit, path, lo, hi, ids);
    if lo < hi {
      var y := SplitStretch(log, limit, path, lo, hi, ids);
      var children := HungOn(log, limit, Some(lo), |log|);
      assert nodes[lo].children == children by { ForestNode(log, limit, nodes, roots, lo); }
      WalkStretch(log, limit, nodes, roots, path + [lo], lo + 1, y, children);
      WalkStretch(log, limit, nodes, roots, path, y, hi, ids[1..]);
      RangeJoins(lo, y, hi);
    }
  }

  lemma EmptyStretch(log: seq<Entry>, limit: nat, path: seq<nat>, lo: nat, hi: nat, ids: seq<nat>)
    requires lo <= hi <= |log| && Siblings(log, limit, path, lo, hi, ids)
    ensures ListedAfter(ids, -1, |log|) && (lo == hi ==> ids == [])
  {
    SiblingsInRange(log, limit, path, lo, hi, ids);
    assert ids != [] ==> lo <= ids[0] < hi;
  }

  /** A stretch is its first statement, the stretch below it, and the stretch from the next sibling on. */
  lemma SplitStretch(log: seq<Entry>, limit: nat, path: seq<nat>, lo: nat, hi: nat, ids: seq<nat>) returns (y: nat)
    requires lo < hi <= |log| && Stretch(log, limit, path, lo, hi) && Siblings(log, limit, path, lo, hi, ids)
    ensures ids != [] && ids[0] == lo && lo < y <= hi
    ensures Stretch(log, limit, path + [lo], lo + 1, y)
    ensures Siblings(log, limit, path + [lo], lo + 1, y, HungOn(log, limit, Some(lo), |log|))
    ensures Stretch(log, limit, path, y, hi) && Siblings(log, limit, path, y, hi, ids[1..])
  {
    hide Path;
    assert lo in ids;
    FirstIsLeast(ids, lo);
    SiblingsInRange(log, limit, path, lo, hi, ids);
    y := if |ids| > 1 then ids[1] else hi;
    ChildrenOfFirst(log, limit, path, lo, y);
    SecondIsNext(ids, y);
    forall j | lo < j < y
      ensures Path(log, limit, j) != path
    {
      assert Path(log, limit, j) == path ==> j in ids;
    }
    InnerStretch(log, limit, path, lo, y, hi);
    TailSiblings(ids, lo, y);
  }

  lemma RangeJoins(lo: nat, y: nat, hi: nat)
    requires lo < y <= hi
    ensures [lo] + Range(lo + 1, y) + Range(y, hi) == Range(lo, hi)
  {
  }

  lemma FirstIsLeast(ids: seq<nat>, lo: nat)
    requires Ascending(ids) && lo in ids && forall k: nat :: k in ids ==> lo <= k
    ensures ids[0] == lo
  {
    assert ids[0] in ids;
  }

  lemma SiblingsInRange(log: seq<Entry>, limit: nat, path: seq<nat>, lo: nat, hi: nat, ids: seq<nat>)
    requires hi <= |log| && Siblings(log, limit, path, lo, hi, ids)
    ensures forall k :: 0 <= k < |ids| ==> lo <= ids[k] < hi && Path(log, limit, ids[k]) == path
  {
    assert forall k :: 0 <= k < |ids| ==> ids[k] in ids;
  }

  lemma SecondIsNext(ids: seq<nat>, y: nat)
    requires Ascending(ids) && ids != [] && (|ids| > 1 ==> y == ids[1])
    ensures forall j: nat :: j in ids && j > ids[0] ==> (|ids| > 1 && y <= j)
  {
  }

  lemma TailSiblings(ids: seq<nat>, lo: nat, y: nat)
    requires Ascending(ids) && ids != [] && ids[0] == lo
    requires |ids| > 1 ==> y == ids[1]
    ensures Ascending(ids[1..]) && forall k: nat :: k in ids[1..] <==> k in ids && k != lo
    ensures forall k: nat :: k in ids[1..] ==> y <= k
  {
    forall k: nat
      ensures k in ids[1..] <==> k in ids && k != lo
    {
      if k in ids && k != lo {
        var i :| 0 <= i < |ids| && ids[i] == k;
        assert ids[1..][i - 1] == k;
      }
    }
  }

  lemma ForestShape(log: seq<Entry>, limit: nat, nodes: seq<Node>, roots: seq<nat>)
    requires IsForest(log, limit, nodes, roots)
    ensures |nodes| == |log| && roots == HungOn(log, limit, None, |log|)
  {
  }

  lemma ForestNode(log: seq<Entry>, limit: nat, nodes: seq<Node>, roots: seq<nat>, i: nat)
    requires IsForest(log, limit, nodes, roots) && i < |log|
    ensures nodes[i].children == HungOn(log, limit, Some(i), |log|)
    ensures nodes[i].contextPath == Path(log, limit, i)
  {
    assert IsNode(log, limit, i, nodes[i]);
  }

  lemma ForestIsWalkable(log: seq<Entry>, limit: nat, nodes: seq<Node>, roots: seq<nat>)
    requires IsForest(log, limit, nodes, roots)
    ensures Walkable(nodes) && ListedAfter(roots, -1, |nodes|)
  {
    hide IsForest, IsNode, Parent;
    ForestShape(log, limit, nodes, roots);
    HungOnMembers(log, limit, None, |log|);
    forall i | 0 <= i < |nodes|
      ensures ListedAfter(nodes[i].children, i, |nodes|)
    {
      ForestNode(log, limit, nodes, roots, i);
      ForwardChildren(log, limit, i);
    }
  }

  lemma ForwardChildren(log: seq<Entry>, limit: nat, i: nat)
    requires i < |log|
    ensures ListedAfter(HungOn(log, limit, Some(i), |log|), i, |log|)
  {
    var children := HungOn(log, limit, Some(i), |log|);
    HungOnMembers(log, limit, Some(i), |log|);
    forall k | 0 <= k < |children|
      ensures i < children[k] < |log|
    {
      assert children[k] in children;
      assert Parent(log, limit, children[k]) == Some(i);
    }
  }

  // ---------------------------------------------------------------- main results

  /** Walking the roots depth-first visits every statement once, in document order. */
  lemma WalkIsDocumentOrder(log: seq<Entry>, limit: nat, nodes: seq<Node>, roots: seq<nat>)
    requires IsForest(log, limit, nodes, roots)
    ensures Walkable(nodes) && ListedAfter(roots, -1, |nodes|)
    ensures Walk(nodes, roots) == Range(0, |nodes|)
  {
    ForestIsWalkable(log, limit, nodes, roots);
    ForestShape(log, limit, nodes, roots);
    HungOnMembers(log, limit, None, |log|);
    forall k: nat | k < |log|
      ensures Parent(log, limit, k) == None <==> Path(log, limit, k) == []
    {
    }
    WalkStretch(log, limit, nodes, roots, [], 0, |log|, roots);
  }

  /** Where the subtree of `i` ends. */
  function SubtreeEnd(log: seq<Entry>, limit: nat, i: nat, m: nat): (end: nat)
    requires i < m <= |log|
    ensures m <= end <= |log|
    ensures end < |log| ==> |Path(log, limit, end)| <= |Path(log, limit, i)|
    ensures forall k :: m <= k < end ==> |Path(log, limit, k)| > |Path(log, limit, i)|
    decreases |log| - m
  {
    if m == |log| || |Path(log, limit, m)| <= |Path(log, limit, i)| then m
    else SubtreeEnd(log, limit, i, m + 1)
  }

  lemma {:induction false} DeepMeansBelow(log: seq<Entry>, limit: nat, i: nat, end: nat, k: nat)
    requires i < k < end <= |log|
    requires forall j :: i < j < end ==> |Path(log, limit, j)| > |Path(log, limit, i)|
    ensures i in Path(log, limit, k) && Path(log, limit, i) <= Path(log, limit, k)
    decreases k
  {
    hide Path;
    var p, q := Path(log, limit, k), Path(log, limit, i);
    var r := |p| - 1;
    var z := p[r];
    PathOfAncestor(log, limit, k, r);
    if z == i {
      assert q == p[..r];
    } else if z > i {
      DeepMeansBelow(log, limit, i, end, z);
      assert Path(log, limit, z) == p[..r];
      assert forall x: nat :: x in p[..r] ==> x in p;
    } else {
      AncestorOfStretch(log, limit, r, i, k);
      assert false;
    }
  }

  /** The subtree of `i` is one stretch of the document, and the walk below `i` is that stretch. */
  lemma SubtreeIsAStretch(log: seq<Entry>, limit: nat, nodes: seq<Node>, roots: seq<nat>, i: nat)
    requires IsForest(log, limit, nodes, roots) && i < |nodes|
    ensures var end := SubtreeEnd(log, limit, i, i + 1);
            && (forall k :: 0 <= k < |nodes| ==> (k == i || i in nodes[k].contextPath <==> i <= k < end))
            && Walkable(nodes) && Walk(nodes, [i]) == Range(i, end)
  {
    hide Path, IsForest, IsNode;
    ForestShape(log, limit, nodes, roots);
    var end := SubtreeEnd(log, limit, i, i + 1);
    var path := Path(log, limit, i);
    forall k | i < k < end
      ensures i in Path(log, limit, k) && path <= Path(log, limit, k)
    {
      DeepMeansBelow(log, limit, i, end, k);
    }
    forall k | 0 <= k < |nodes|
      ensures k == i || i in nodes[k].contextPath <==> i <= k < end
    {
      ForestNode(log, limit, nodes, roots, k);
      if i in Path(log, limit, k) {
        var r :| 0 <= r < |Path(log, limit, k)| && Path(log, limit, k)[r] == i;
        PathOfAncestor(log, limit, k, r);
        if end <= k {
          AncestorOfStretch(log, limit, r, end, k);
        }
      }
    }
    ForestIsWalkable(log, limit, nodes, roots);
    assert Siblings(log, limit, path, i, end, [i]);
    WalkStretch(log, limit, nodes, roots, path, i, end, [i]);
  }

  /**
   The limited forest is the unlimited one with every too deep statement re-hung on its ancestor just
   above the limit; in the unlimited forest the parent is the nearest statement that encloses.
   */
  lemma LimitRehangs(
    log: seq<Entry>, limit: nat, nodes: seq<Node>, roots: seq<nat>, free: seq<Node>, freeRoots: seq<nat>, i: nat)
    requires IsForest(log, limit, nodes, roots) && IsForest(log, |log|, free, freeRoots) && i < |log|
    ensures nodes[i].depth == Min(limit, free[i].depth)
    ensures nodes[i].contextPath == free[i].contextPath[..nodes[i].depth]
    ensures nodes[i].parent ==
            if free[i].depth <= limit then free[i].parent
            else if limit == 0 then None
            else Some(free[i].contextPath[limit - 1])
    ensures match free[i].parent
            case None => forall j: nat :: j < i ==> !Encloses(log, j, i)
            case Some(p) => Encloses(log, p, i) && forall j: nat :: p < j < i ==> !Encloses(log, j, i)
  {
    hide Encloses, Raised, HungOn;
    assert IsNode(log, limit, i, nodes[i]) && IsNode(log, |log|, i, free[i]);
    UnlimitedPath(log, i);
    NearestEncloser(log, i);
  }

  lemma UnlimitedPath(log: seq<Entry>, i: nat)
    requires i < |log|
    ensures Path(log, |log|, i) == Enclosers(log, i)
  {
    EnclosersMembers(log, i);
    AscendingIsShort(Enclosers(log, i), i);
  }

  lemma NearestEncloser(log: seq<Entry>, i: nat)
    requires i < |log|
    ensures match LastOf(Enclosers(log, i))
            case None => forall j: nat :: j < i ==> !Encloses(log, j, i)
            case Some(p) => Encloses(log, p, i) && forall j: nat :: p < j < i ==> !Encloses(log, j, i)
  {
    hide Encloses, Enclosers;
    var all := Enclosers(log, i);
    EnclosersMembers(log, i);
    assert all != [] ==> all[|all| - 1] in all;
    forall j: nat | j < i && Encloses(log, j, i)
      ensures all != [] && j <= all[|all| - 1]
    {
      LastIsGreatest(all, j);
    }
  }

  lemma {:induction false} AscendingIsShort(s: seq<nat>, n: nat)
    requires Ascending(s) && forall k :: 0 <= k < |s| ==> s[k] < n
    ensures |s| <= n
  {
    if s != [] {
      AscendingIsShort(s[..|s| - 1], s[|s| - 1]);
    }
  }

  // ---------------------------------------------------------------- what the diagnostics miss

  /**
   The limit is reported for a statement exactly when the statement just before it encloses it and
   already sits at the limit; the statement is re-hung whenever its enclosers exceed the limit.
   */
  lemma LimitReportedIff(log: seq<Entry>, limit: nat, i: nat)
    requires 0 < i < |log|
    ensures MaximumDepthReached in Raised(log[..i + 1], limit) <==>
            Encloses(log, i - 1, i) && |Path(log, limit, i - 1)| == limit
    ensures Bounded(log, limit, i) && !Encloses(log, i - 1, i) ==> MaximumDepthReached !in Raised(log[..i + 1], limit)
  {
    var upTo := log[..i + 1];
    EnclosersOfSlice(log, i, i);
    assert Encloses(upTo, i - 1, i) == Encloses(log, i - 1, i) by {
      assert forall k :: 0 <= k <= i ==> upTo[k] == log[k];
    }
    if Encloses(log, i - 1, i) {
      EnclosersBelowEncloser(log, i - 1, i - 1, i);
      assert Enclosers(log, i) == Enclosers(log, i - 1) + [i - 1];
    }
  }

  lemma {:induction false} EnclosersOfSlice(log: seq<Entry>, i: nat, n: nat)
    requires n <= i < |log|
    ensures EnclosersBelow(log[..i + 1], i, n) == EnclosersBelow(log, i, n)
  {
    if n > 0 {
      EnclosersOfSlice(log, i, n - 1);
      assert forall k :: 0 <= k <= i ==> log[..i + 1][k] == log[k];
    }
  }

  /** An open level at which a statement is indented as `indent`. */
  ghost predicate LevelAt(log: seq<Entry>, levels: seq<nat>, from: nat, indent: int)
    requires forall k :: 0 <= k < |levels| ==> levels[k] < |log|
  {
    exists r :: from <= r < |levels| && log[levels[r]].statement.indent == indent
  }

  /**
   A dedent below a statement that may be a parent is reported exactly when an unlimited builder would
   report it or it returns to a level the limit has forgotten.
   */
  lemma DedentReportedIff(log: seq<Entry>, limit: nat, s: Statement)
    requires log != [] && log[|log| - 1].statement.canParent
    requires !Rooted(s) && s.indent < log[|log| - 1].statement.indent
    ensures UnmatchedDedent(log, limit, s, log[|log| - 1].epoch) <==>
            || UnmatchedDedent(log, |log|, s, log[|log| - 1].epoch)
            || LevelAt(log, Enclosers(log, |log| - 1), limit, s.indent)
  {
    var last := |log| - 1;
    var all := Enclosers(log, last);
    EnclosersMembers(log, last);
    AscendingIsShort(all, last);
    LevelsGrow(log, last);
    MatchedLevels(log, limit, s);
    MatchedLevels(log, |log|, s);
    if r :| 0 <= r < |all| && log[all[r]].statement.indent == s.indent {
      assert all[r] == all[r];
    }
  }

  lemma LevelsGrow(log: seq<Entry>, i: nat)
    requires i < |log|
    ensures var all := Enclosers(log, i);
            forall a, b :: 0 <= a < b < |all| ==> log[all[a]].statement.indent < log[all[b]].statement.indent
  {
    var all := Enclosers(log, i);
    EnclosersMembers(log, i);
    forall a, b | 0 <= a < b < |all|
      ensures log[all[a]].statement.indent < log[all[b]].statement.indent
    {
      assert all[a] in all && all[b] in all;
    }
  }

  lemma MatchedLevels(log: seq<Entry>, limit: nat, s: Statement)
    requires log != [] && log[|log| - 1].statement.canParent
    requires !Rooted(s) && s.indent < log[|log| - 1].statement.indent
    ensures var last := |log| - 1;
            var all := Enclosers(log, last);
            UnmatchedDedent(log, limit, s, log[last].epoch) <==>
            forall r :: 0 <= r < Min(limit, |all|) ==> log[all[r]].statement.indent != s.indent
  {
    var last := |log| - 1;
    var all, open := Enclosers(log, last), Open(log, limit, log[last].epoch);
    var m := Min(limit, |all|);
    assert |open| == m + 1 && open[m] == last && forall r :: 0 <= r < m ==> open[r] == all[r];
  }

  /** Ordinary statements of one context, indented as listed. */
  predicate IndentedAs(log: seq<Entry>, indents: seq<nat>) {
    && |log| == |indents|
    && forall i :: 0 <= i < |log| ==>
         && log[i].epoch == 0 && log[i].statement.indent == indents[i]
         && log[i].statement.canParent && !log[i].statement.forceRoot
  }

  /** Two siblings below the limit: both are re-hung, only the first is reported. */
  lemma SecondSiblingIsSilent(log: seq<Entry>)
    requires IndentedAs(log, [0, 1, 2, 2])
    ensures Bounded(log, 1, 2) && Bounded(log, 1, 3)
    ensures Raised(log[..3], 1) == [MaximumDepthReached] && Raised(log, 1) == []
  {
    hide Enclosers, Encloses, UnmatchedDedent;
    FourLines(log);
    FirstThree(log);
    NoDedent(log[..3], 1, log[3]);
    NoDedent(log[..3][..2], 1, log[2]);
  }

  lemma FourLines(log: seq<Entry>)
    requires IndentedAs(log, [0, 1, 2, 2])
    ensures Enclosers(log, 2) == [0, 1] && Enclosers(log, 3) == [0, 1]
    ensures Encloses(log, 1, 2) && !Encloses(log, 2, 3)
  {
    assert Encloses(log, 0, 2) && Encloses(log, 1, 2) && Encloses(log, 0, 3) && Encloses(log, 1, 3);
    assert !Deeper(log[2], log[3]);
    assert !Encloses(log, 2, 3);
    assert EnclosersBelow(log, 2, 0) == [] && EnclosersBelow(log, 2, 1) == [0];
    assert EnclosersBelow(log, 3, 0) == [] && EnclosersBelow(log, 3, 1) == [0] && EnclosersBelow(log, 3, 2) == [0, 1];
  }

  lemma FirstThree(log: seq<Entry>)
    requires IndentedAs(log, [0, 1, 2, 2])
    ensures Enclosers(log[..3], 2) == [0, 1] && Encloses(log[..3], 1, 2)
  {
    FourLines(log);
    EnclosersOfSlice(log, 2, 2);
  }

  /** A statement indented no less than the parent just before it returns to no level. */
  lemma NoDedent(log: seq<Entry>, limit: nat, e: Entry)
    requires log != [] && log[|log| - 1].statement.canParent && log[|log| - 1].epoch == e.epoch
    requires log[|log| - 1].statement.indent <= e.statement.indent
    ensures !UnmatchedDedent(log, limit, e.statement, e.epoch)
  {
    var open := Open(log, limit, e.epoch);
    assert open[|open| - 1] == |log| - 1;
  }
}
