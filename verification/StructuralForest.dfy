/**
 What the indentation forest of a configuration is, said without a stack.

 A log is the sequence of statements accepted so far, each with the number of context resets before
 it.  Statement `j` encloses statement `i` when `j` may be a parent and every statement after `j` up
 to `i` is indented deeper than `j`, with no reset and no root between them.  Under a depth limit a
 statement hangs below the first `limit` of its enclosers.
 */
module StructuralForest {
  import opened Common

  datatype ParseStatus = Parsed | Opaque | Partial | Unresolved

  datatype DiagnosticCode = InconsistentDedent | OrphanIndentation | MaximumDepthReached

  datatype Diagnostic = Diagnostic(code: DiagnosticCode, sourceStart: nat, sourceEnd: nat)

  datatype NodeKind = StatementNode | CommentNode | OpaqueNode

  /** One call of `add_node`; the builder only passes the text and its tokens through. */
  datatype Statement = Statement(
    text: string, kind: NodeKind, command: Option<string>, arguments: seq<string>, negated: bool,
    indent: int, sourceStart: nat, sourceEnd: nat, status: ParseStatus, forceRoot: bool, canParent: bool)

  /** A statement and the number of resets before it. */
  datatype Entry = Entry(statement: Statement, epoch: nat)

  /** A node is named by its position; the source's identifier hashes that position. */
  datatype Node = Node(
    statement: Statement, parent: Option<nat>, children: seq<nat>,
    depth: nat, contextPath: seq<nat>, status: ParseStatus)

  predicate Rooted(s: Statement) {
    s.forceRoot || s.indent == 0
  }

  /** `e` does not leave the context that `outer` may have opened. */
  predicate Deeper(outer: Entry, e: Entry) {
    !Rooted(e.statement) && outer.epoch == e.epoch && outer.statement.indent < e.statement.indent
  }

  predicate Encloses(log: seq<Entry>, j: int, i: int)
    requires i < |log|
  {
    && 0 <= j < i
    && log[j].statement.canParent
    && forall k :: j < k <= i ==> Deeper(log[j], log[k])
  }

  predicate Ascending(s: seq<nat>) {
    forall a, b :: 0 <= a < b < |s| ==> s[a] < s[b]
  }

  lemma Snoc(s: seq<nat>, n: nat, add: bool)
    requires Ascending(s) && forall a :: 0 <= a < |s| ==> s[a] < n
    ensures var r := s + if add then [n] else [];
            Ascending(r) && forall x: nat :: x in r <==> x in s || (add && x == n)
  {
  }

  /** The enclosers of `i` below position `n`, outermost first. */
  function EnclosersBelow(log: seq<Entry>, i: nat, n: nat): (r: seq<nat>)
    requires n <= i < |log|
    ensures forall a :: 0 <= a < |r| ==> r[a] < n
  {
    if n == 0 then []
    else EnclosersBelow(log, i, n - 1) + (if Encloses(log, n - 1, i) then [n - 1] else [])
  }

  lemma {:induction false} EnclosersBelowMembers(log: seq<Entry>, i: nat, n: nat)
    requires n <= i < |log|
    ensures Ascending(EnclosersBelow(log, i, n))
    ensures forall j: nat :: j in EnclosersBelow(log, i, n) <==> j < n && Encloses(log, j, i)
  {
    if n > 0 {
      EnclosersBelowMembers(log, i, n - 1);
      Snoc(EnclosersBelow(log, i, n - 1), n - 1, Encloses(log, n - 1, i));
    }
  }

  function Enclosers(log: seq<Entry>, i: nat): (r: seq<nat>)
    requires i < |log|
    ensures forall a :: 0 <= a < |r| ==> r[a] < i
  {
    EnclosersBelow(log, i, i)
  }

  lemma EnclosersMembers(log: seq<Entry>, i: nat)
    requires i < |log|
    ensures Ascending(Enclosers(log, i))
    ensures forall j: nat :: j in Enclosers(log, i) <==> j < i && Encloses(log, j, i)
  {
    EnclosersBelowMembers(log, i, i);
  }

  function Min(a: nat, b: nat): nat {
    if a < b then a else b
  }

  /** The ancestors of `i` under the limit. */
  function Path(log: seq<Entry>, limit: nat, i: nat): (r: seq<nat>)
    requires i < |log|
    ensures forall a :: 0 <= a < |r| ==> r[a] < i
  {
    var all := Enclosers(log, i);
    all[..Min(limit, |all|)]
  }

  function LastOf(path: seq<nat>): Option<nat> {
    if path == [] then None else Some(path[|path| - 1])
  }

  function Parent(log: seq<Entry>, limit: nat, i: nat): Option<nat>
    requires i < |log|
  {
    LastOf(Path(log, limit, i))
  }

  /** The statements hung on `p` (or the roots), in document order, among the first `n`. */
  function HungOn(log: seq<Entry>, limit: nat, p: Option<nat>, n: nat): (r: seq<nat>)
    requires n <= |log|
    ensures forall a :: 0 <= a < |r| ==> r[a] < n
  {
    if n == 0 then []
    else HungOn(log, limit, p, n - 1) + (if Parent(log, limit, n - 1) == p then [n - 1] else [])
  }

  lemma {:induction false} HungOnMembers(log: seq<Entry>, limit: nat, p: Option<nat>, n: nat)
    requires n <= |log|
    ensures Ascending(HungOn(log, limit, p, n))
    ensures forall k: nat :: k in HungOn(log, limit, p, n) <==> k < n && Parent(log, limit, k) == p
  {
    hide Parent;
    if n > 0 {
      HungOnMembers(log, limit, p, n - 1);
      Snoc(HungOn(log, limit, p, n - 1), n - 1, Parent(log, limit, n - 1) == p);
    }
  }

  /** The open contexts a statement arriving in `epoch` finds: the last one's ancestors and itself. */
  function Open(log: seq<Entry>, limit: nat, epoch: nat): (r: seq<nat>)
    ensures forall k :: 0 <= k < |r| ==> r[k] < |log|
  {
    if log == [] || log[|log| - 1].epoch != epoch then []
    else
      var last := |log| - 1;
      Path(log, limit, last) + Itself(log, last)
  }

  predicate UnmatchedDedent(log: seq<Entry>, limit: nat, s: Statement, epoch: nat) {
    var open := Open(log, limit, epoch);
    && !Rooted(s)
    && open != []
    && s.indent < log[open[|open| - 1]].statement.indent
    && forall k :: 0 <= k < |open| ==> log[open[k]].statement.indent != s.indent
  }

  /** No open context is left for `i`; without any depth only the statement just before `i` is open. */
  predicate Orphan(log: seq<Entry>, limit: nat, i: nat)
    requires i < |log|
  {
    !Rooted(log[i].statement) && if limit == 0 then !Encloses(log, i - 1, i) else Enclosers(log, i) == []
  }

  /** The limit shortens the path of `i`. */
  predicate Bounded(log: seq<Entry>, limit: nat, i: nat)
    requires i < |log|
  {
    limit < |Enclosers(log, i)|
  }

  /** The limit shortens the path of `i` and the statement just before `i` is one of its enclosers. */
  predicate BoundedByPredecessor(log: seq<Entry>, limit: nat, i: nat)
    requires i < |log|
  {
    Bounded(log, limit, i) && Encloses(log, i - 1, i)
  }

  /** The diagnostics the arrival of the last statement of `log` causes, in order. */
  function Raised(log: seq<Entry>, limit: nat): seq<DiagnosticCode>
    requires log != []
  {
    var i := |log| - 1;
    (if UnmatchedDedent(log[..i], limit, log[i].statement, log[i].epoch) then [InconsistentDedent] else [])
    + (if Orphan(log, limit, i) then [OrphanIndentation] else [])
    + (if BoundedByPredecessor(log, limit, i) then [MaximumDepthReached] else [])
  }

  function At(codes: seq<DiagnosticCode>, s: Statement): seq<Diagnostic> {
    seq(|codes|, k requires 0 <= k < |codes| => Diagnostic(codes[k], s.sourceStart, s.sourceEnd))
  }

  /** The node of statement `i`. */
  ghost predicate IsNode(log: seq<Entry>, limit: nat, i: nat, node: Node)
    requires i < |log|
  {
    && node.statement == log[i].statement
    && node.contextPath == Path(log, limit, i)
    && node.parent == LastOf(node.contextPath)
    && node.depth == |node.contextPath|
    && node.children == HungOn(log, limit, Some(i), |log|)
    && node.status == if Raised(log[..i + 1], limit) == [] then node.statement.status else Partial
  }

  /** Nodes and roots are those of the log. */
  ghost predicate IsForest(log: seq<Entry>, limit: nat, nodes: seq<Node>, roots: seq<nat>) {
    && |nodes| == |log|
    && (forall i :: 0 <= i < |log| ==> IsNode(log, limit, i, nodes[i]))
    && roots == HungOn(log, limit, None, |log|)
  }

  // ---------------------------------------------------------------- enclosure is a chain

  /** Two enclosers of one statement enclose each other, and enclosing is transitive. */
  lemma EnclosersNest(log: seq<Entry>, l: nat, j: nat, i: nat)
    requires i < |log| && l < j && Encloses(log, j, i)
    ensures Encloses(log, l, i) <==> Encloses(log, l, j)
  {
  }

  /** The enclosers of `i` before an encloser `j` are the enclosers of `j`. */
  lemma {:induction false} EnclosersBelowEncloser(log: seq<Entry>, n: nat, j: nat, i: nat)
    requires n <= j < i < |log| && Encloses(log, j, i)
    ensures EnclosersBelow(log, i, n) == EnclosersBelow(log, j, n)
  {
    if n > 0 {
      EnclosersBelowEncloser(log, n - 1, j, i);
      EnclosersNest(log, n - 1, j, i);
    }
  }

  lemma {:induction false} EnclosersPrefix(log: seq<Entry>, i: nat, m: nat, n: nat)
    requires m <= n <= i < |log|
    ensures EnclosersBelow(log, i, m) <= EnclosersBelow(log, i, n)
  {
    if m < n {
      EnclosersPrefix(log, i, m, n - 1);
    }
  }

  /** The encloser of rank `r` has exactly the enclosers ranked before it. */
  lemma {:induction false} EncloserRank(log: seq<Entry>, i: nat, r: nat)
    requires i < |log| && r < |Enclosers(log, i)|
    ensures Enclosers(log, i)[r] < i
    ensures Enclosers(log, Enclosers(log, i)[r]) == Enclosers(log, i)[..r]
  {
    var all := Enclosers(log, i);
    var j := all[r];
    EnclosersBelowMembers(log, i, i);
    EnclosersBelowMembers(log, i, j);
    assert j in all;
    EnclosersBelowEncloser(log, j, j, i);
    EnclosersPrefix(log, i, j, i);
    var below := EnclosersBelow(log, i, j);
    forall x: nat
      ensures x in below <==> x in all[..r]
    {
      if x in below {
        var k :| 0 <= k < |all| && all[k] == x;
        assert k < r;
        assert all[..r][k] == x;
      }
    }
    AscendingUnique(below, all[..r]);
  }

  lemma PathOfAncestor(log: seq<Entry>, limit: nat, i: nat, r: nat)
    requires i < |log| && r < |Path(log, limit, i)|
    ensures Path(log, limit, i)[r] < i
    ensures Path(log, limit, Path(log, limit, i)[r]) == Path(log, limit, i)[..r]
  {
    EncloserRank(log, i, r);
  }

  /** Along a path indentation grows, so the open contexts are strictly indented and sit at their depth. */
  lemma OpenIsStrictlyIndented(log: seq<Entry>, limit: nat, epoch: nat)
    ensures var open := Open(log, limit, epoch);
            && (forall k :: 0 <= k < |open| ==> open[k] < |log| && Path(log, limit, open[k]) == open[..k])
            && (forall a, b :: 0 <= a < b < |open| ==>
                  open[a] < open[b] && log[open[a]].statement.indent < log[open[b]].statement.indent)
  {
    var open := Open(log, limit, epoch);
    if open != [] {
      var last := |log| - 1;
      var path := Path(log, limit, last);
      EnclosersBelowMembers(log, last, last);
      forall k | 0 <= k < |open|
        ensures open[k] < |log| && Path(log, limit, open[k]) == open[..k]
      {
        if k < |path| {
          PathOfAncestor(log, limit, last, k);
          assert open[..k] == path[..k];
        }
      }
      forall a, b | 0 <= a < b < |open|
        ensures open[a] < open[b] && log[open[a]].statement.indent < log[open[b]].statement.indent
      {
        assert open[a] == path[a] && path[a] in Enclosers(log, last);
        if b < |path| {
          assert path[b] in Enclosers(log, last);
        }
      }
    }
  }

  // ---------------------------------------------------------------- one more statement

  lemma {:induction false} EnclosersOfPrefix(log: seq<Entry>, e: Entry, i: nat, n: nat)
    requires n <= i < |log|
    ensures EnclosersBelow(log + [e], i, n) == EnclosersBelow(log, i, n)
  {
    if n > 0 {
      EnclosersOfPrefix(log, e, i, n - 1);
      var j := n - 1;
      assert Encloses(log + [e], j, i) == Encloses(log, j, i) by {
        assert forall k :: j <= k <= i ==> (log + [e])[k] == log[k];
      }
    }
  }

  /** Earlier statements keep their paths. */
  lemma PathsStay(log: seq<Entry>, limit: nat, e: Entry)
    ensures forall i :: 0 <= i < |log| ==> Path(log + [e], limit, i) == Path(log, limit, i)
  {
    forall i | 0 <= i < |log|
      ensures Path(log + [e], limit, i) == Path(log, limit, i)
    {
      EnclosersOfPrefix(log, e, i, i);
    }
  }

  /** A new statement only appends to the child list of its own parent. */
  lemma {:induction false} ChildrenGrow(log: seq<Entry>, limit: nat, e: Entry, p: Option<nat>)
    ensures HungOn(log + [e], limit, p, |log| + 1) ==
            HungOn(log, limit, p, |log|) + if Parent(log + [e], limit, |log|) == p then [|log|] else []
  {
    HungOnPrefix(log, limit, e, p, |log|);
  }

  lemma {:induction false} HungOnPrefix(log: seq<Entry>, limit: nat, e: Entry, p: Option<nat>, n: nat)
    requires n <= |log|
    ensures HungOn(log + [e], limit, p, n) == HungOn(log, limit, p, n)
  {
    if n > 0 {
      HungOnPrefix(log, limit, e, p, n - 1);
      PathsStay(log, limit, e);
      assert Parent(log + [e], limit, n - 1) == Parent(log, limit, n - 1);
    }
  }

  /** Which of the statements before the new one enclose it. */
  lemma EnclosersOfNewcomer(log: seq<Entry>, e: Entry, j: nat)
    requires j < |log|
    ensures Encloses(log + [e], j, |log|) <==>
            && !Rooted(e.statement) && log[|log| - 1].epoch == e.epoch
            && log[j].statement.indent < e.statement.indent
            && (Encloses(log, j, |log| - 1) || (j == |log| - 1 && log[j].statement.canParent))
  {
    var both := log + [e];
    var n := |log|;
    assert both[n] == e && forall k :: 0 <= k < n ==> both[k] == log[k];
    if Encloses(both, j, n) && j < n - 1 {
      assert forall k :: j < k <= n - 1 ==> both[k] == log[k];
    }
  }

  /** The newcomer's enclosers are those open contexts, of an unlimited builder, indented less than it. */
  lemma NewcomerFilters(log: seq<Entry>, e: Entry, keep: nat)
    requires log != [] && !Rooted(e.statement) && log[|log| - 1].epoch == e.epoch
    requires var all := Enclosers(log, |log| - 1);
             && keep <= |all|
             && (forall k :: 0 <= k < |all| ==> all[k] < |log|)
             && (forall k :: 0 <= k < keep ==> log[all[k]].statement.indent < e.statement.indent)
             && (forall k :: keep <= k < |all| ==> e.statement.indent <= log[all[k]].statement.indent)
    ensures var n := |log|;
            Enclosers(log + [e], n) ==
            Enclosers(log, n - 1)[..keep] +
            if log[n - 1].statement.canParent && log[n - 1].statement.indent < e.statement.indent then [n - 1] else []
  {
    hide Enclosers, Encloses;
    var n := |log|;
    var all := Enclosers(log, n - 1);
    var last := log[n - 1].statement;
    var self := if last.canParent && last.indent < e.statement.indent then [n - 1] else [];
    var got := Enclosers(log + [e], n);
    var want := all[..keep] + self;
    EnclosersMembers(log, n - 1);
    EnclosersMembers(log + [e], n);
    forall j: nat
      ensures j in got <==> j in want
    {
      NewcomerKeeps(log, e, all, self, keep, j);
    }
    assert Ascending(want) by {
      assert forall k :: 0 <= k < keep ==> all[..keep][k] == all[k];
    }
    AscendingUnique(got, want);
  }

  lemma NewcomerKeeps(log: seq<Entry>, e: Entry, all: seq<nat>, self: seq<nat>, keep: nat, j: nat)
    requires log != [] && !Rooted(e.statement) && log[|log| - 1].epoch == e.epoch
    requires forall x: nat :: x in all <==> x < |log| - 1 && Encloses(log, x, |log| - 1)
    requires self == if log[|log| - 1].statement.canParent && log[|log| - 1].statement.indent < e.statement.indent
                     then [|log| - 1] else []
    requires keep <= |all| && forall k :: 0 <= k < |all| ==> all[k] < |log|
    requires forall k :: 0 <= k < keep ==> log[all[k]].statement.indent < e.statement.indent
    requires forall k :: keep <= k < |all| ==> e.statement.indent <= log[all[k]].statement.indent
    ensures j < |log| && Encloses(log + [e], j, |log|) <==> j in all[..keep] + self
  {
    assert j in all[..keep] + self <==> j in all[..keep] || j in self;
    FilteredPrefix(log, all, e.statement.indent, keep, j);
    if j < |log| {
      EnclosersOfNewcomer(log, e, j);
    }
  }

  lemma FilteredPrefix(log: seq<Entry>, all: seq<nat>, indent: int, keep: nat, j: nat)
    requires keep <= |all| && forall k :: 0 <= k < |all| ==> all[k] < |log|
    requires forall k :: 0 <= k < keep ==> log[all[k]].statement.indent < indent
    requires forall k :: keep <= k < |all| ==> indent <= log[all[k]].statement.indent
    ensures j in all[..keep] <==> j in all && log[j].statement.indent < indent
  {
    if j in all {
      var k :| 0 <= k < |all| && all[k] == j;
      if k < keep {
        assert all[..keep][k] == j;
      }
    }
  }

  lemma AllButLast(a: seq<nat>, z: nat)
    requires Ascending(a) && a != []
    ensures z in a[..|a| - 1] <==> z in a && z < a[|a| - 1]
  {
    if z in a {
      var k :| 0 <= k < |a| && a[k] == z;
      if k < |a| - 1 {
        assert a[..|a| - 1][k] == z;
      }
    }
  }

  lemma LastIsGreatest(a: seq<nat>, z: nat)
    requires Ascending(a) && z in a
    ensures z <= a[|a| - 1]
  {
  }

  /** Ascending sequences with the same members are equal. */
  lemma {:induction false} AscendingUnique(a: seq<nat>, b: seq<nat>)
    requires Ascending(a) && Ascending(b) && forall x: nat :: x in a <==> x in b
    ensures a == b
  {
    assert (|a| > 0 ==> a[0] in a) && (|b| > 0 ==> b[0] in b);
    if |a| > 0 && |b| > 0 {
      var x, y := a[|a| - 1], b[|b| - 1];
      LastIsGreatest(b, x);
      LastIsGreatest(a, y);
      var a', b' := a[..|a| - 1], b[..|b| - 1];
      forall z: nat
        ensures z in a' <==> z in b'
      {
        AllButLast(a, z);
        AllButLast(b, z);
      }
      assert Ascending(a') && Ascending(b');
      AscendingUnique(a', b');
      assert a == a' + [x] && b == b' + [y];
    }
  }

  /** The open contexts indented less than the newcomer, cut at the limit, are its path. */
  lemma Arrival(log: seq<Entry>, limit: nat, e: Entry, q: nat)
    requires !Rooted(e.statement)
    requires var open := Open(log, limit, e.epoch);
             && q <= |open|
             && (forall k :: 0 <= k < q ==> log[open[k]].statement.indent < e.statement.indent)
             && (forall k :: q <= k < |open| ==> e.statement.indent <= log[open[k]].statement.indent)
    ensures var both, n := log + [e], |log|;
            && Path(both, limit, n) == Open(log, limit, e.epoch)[..Min(limit, q)]
            && (Orphan(both, limit, n) <==> q == 0)
            && (BoundedByPredecessor(both, limit, n) <==> limit < q)
  {
    var both, n := log + [e], |log|;
    assert both[n] == e;
    if log == [] || log[n - 1].epoch != e.epoch {
      NoEnclosers(both, n);
    } else {
      var keep := NewcomerEnclosers(log, e);
      CutThenFilter(log, limit, Enclosers(log, n - 1), Itself(log, n - 1), e.statement.indent, keep, q);
    }
  }

  function Itself(log: seq<Entry>, i: nat): seq<nat>
    requires i < |log|
  {
    if log[i].statement.canParent then [i] else []
  }

  predicate Joins(log: seq<Entry>, self: seq<nat>, indent: int)
    requires forall k :: 0 <= k < |self| ==> self[k] < |log|
  {
    self != [] && log[self[0]].statement.indent < indent
  }

  lemma NewcomerEnclosers(log: seq<Entry>, e: Entry) returns (keep: nat)
    requires !Rooted(e.statement)
    requires log != [] && log[|log| - 1].epoch == e.epoch
    ensures var n, indent := |log|, e.statement.indent;
            var all, self := Enclosers(log, n - 1), Itself(log, n - 1);
            && keep <= |all|
            && (forall k :: 0 <= k < keep ==> log[all[k]].statement.indent < indent)
            && (forall k :: keep <= k < |all| ==> indent <= log[all[k]].statement.indent)
            && Enclosers(log + [e], n) == all[..keep] + (if Joins(log, self, indent) then self else [])
            && (Joins(log, self, indent) <==> Encloses(log + [e], n - 1, n))
            && (Joins(log, self, indent) ==> keep == |all|)
  {
    var n := |log|;
    var all := Enclosers(log, n - 1);
    keep := SplitAt(log, all, n - 1, e.statement.indent);
    NewcomerFilters(log, e, keep);
    EnclosersOfNewcomer(log, e, n - 1);
    EnclosersBelowMembers(log, n - 1, n - 1);
    assert forall k :: 0 <= k < |all| ==> all[k] in all && Encloses(log, all[k], n - 1);
    assert keep < |all| ==> log[all[keep]].statement.indent < log[n - 1].statement.indent;
  }

  /** Cutting the open contexts at the limit before or after dropping the deep ones gives one path. */
  lemma CutThenFilter(log: seq<Entry>, limit: nat, all: seq<nat>, self: seq<nat>, indent: int, keep: nat, q: nat)
    requires |self| <= 1 && (forall k :: 0 <= k < |self| ==> self[k] < |log|)
    requires forall k :: 0 <= k < |all| ==> all[k] < |log|
    requires keep <= |all| && (forall k :: 0 <= k < keep ==> log[all[k]].statement.indent < indent)
    requires forall k :: keep <= k < |all| ==> indent <= log[all[k]].statement.indent
    requires Joins(log, self, indent) ==> keep == |all|
    requires var open := all[..Min(limit, |all|)] + self;
             && q <= |open|
             && (forall k :: 0 <= k < q ==> log[open[k]].statement.indent < indent)
             && (forall k :: q <= k < |open| ==> indent <= log[open[k]].statement.indent)
    ensures var open := all[..Min(limit, |all|)] + self;
            var joins := Joins(log, self, indent);
            var kept := all[..keep] + if joins then self else [];
            && kept[..Min(limit, |kept|)] == open[..Min(limit, q)]
            && (limit < q <==> joins && limit < |kept|)
            && (q == 0 <==> if limit == 0 then !joins else kept == [])
  {
    var m := Min(limit, |all|);
    var open := all[..m] + self;
    assert forall k :: 0 <= k < m ==> open[k] == all[k];
    assert self != [] ==> open[m] == self[0];
    assert q < m ==> open[q] == all[q];
    assert keep < m ==> open[keep] == all[keep];
  }

  lemma NoEnclosers(both: seq<Entry>, n: nat)
    requires n < |both|
    requires Rooted(both[n].statement) || n == 0 || both[n - 1].epoch != both[n].epoch
    ensures Enclosers(both, n) == []
  {
    NoEnclosersBelow(both, n, n);
  }

  lemma {:induction false} NoEnclosersBelow(both: seq<Entry>, n: nat, m: nat)
    requires m <= n < |both|
    requires Rooted(both[n].statement) || n == 0 || both[n - 1].epoch != both[n].epoch
    ensures EnclosersBelow(both, n, m) == []
  {
    if m > 0 {
      NoEnclosersBelow(both, n, m - 1);
      assert Encloses(both, m - 1, n) ==> Deeper(both[m - 1], both[n - 1]) || m == n;
    }
  }

  /** Where the enclosers of `i` stop being indented less than `indent`. */
  lemma SplitAt(log: seq<Entry>, all: seq<nat>, i: nat, indent: int) returns (keep: nat)
    requires i < |log| && all == Enclosers(log, i)
    ensures keep <= |all| && forall k :: 0 <= k < |all| ==> all[k] < i
    ensures forall k :: 0 <= k < keep ==> log[all[k]].statement.indent < indent
    ensures forall k :: keep <= k < |all| ==> indent <= log[all[k]].statement.indent
  {
    keep := |all|;
    EnclosersBelowMembers(log, i, i);
    forall a, b | 0 <= a < b < |all|
      ensures log[all[a]].statement.indent < log[all[b]].statement.indent
    {
      assert all[a] in all && all[b] in all;
    }
    while keep > 0 && indent <= log[all[keep - 1]].statement.indent
      invariant 0 <= keep <= |all|
      invariant forall k :: keep <= k < |all| ==> indent <= log[all[k]].statement.indent
    {
      keep := keep - 1;
    }
  }
}
