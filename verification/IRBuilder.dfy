/**
 The incremental builder of the structural forest (backend/app/parsing/ir_builder.py).

 The builder keeps one stack of open contexts.  `Valid` says that its nodes, roots and stack are
 those of the log of accepted statements; `AddNode` keeps that for every statement.
 */
module StructuralBuilder {
  import opened Common
  import opened StructuralForest

  datatype StructuralIR = StructuralIR(nodes: seq<Node>, roots: seq<nat>, diagnostics: seq<Diagnostic>, truncated: bool)

  class IRBuilder {
    const maxDepth: nat
    const maxNodes: nat
    var diagnostics: seq<Diagnostic>
    var nodes: seq<Node>
    var roots: seq<nat>
    var stack: seq<nat>
    ghost var log: seq<Entry>
    ghost var epoch: nat

    ghost predicate Valid()
      reads this
    {
      && |log| <= maxNodes
      && (log != [] ==> log[|log| - 1].epoch <= epoch)
      && IsForest(log, maxDepth, nodes, roots)
      && stack == Open(log, maxDepth, epoch)
    }

    constructor (maxDepth: nat, maxNodes: nat)
      ensures Valid() && this.maxDepth == maxDepth && this.maxNodes == maxNodes
      ensures log == [] && epoch == 0 && diagnostics == []
    {
      this.maxDepth, this.maxNodes := maxDepth, maxNodes;
      diagnostics, nodes, roots, stack := [], [], [], [];
      log, epoch := [], 0;
    }

    predicate NodeLimitReached()
      requires Valid()
      reads this
      ensures NodeLimitReached() <==> |log| >= maxNodes
    {
      |nodes| >= maxNodes
    }

    /** Close the contexts not indented less than `indent`. */
    method CloseDeeper(indent: int)
      requires forall k :: 0 <= k < |stack| ==> stack[k] < |nodes|
      requires forall a, b :: 0 <= a < b < |stack| ==>
                 nodes[stack[a]].statement.indent < nodes[stack[b]].statement.indent
      modifies this`stack
      ensures |stack| <= old(|stack|) && stack == old(stack)[..|stack|]
      ensures forall k :: 0 <= k < |stack| ==> nodes[stack[k]].statement.indent < indent
      ensures forall k :: |stack| <= k < old(|stack|) ==> indent <= nodes[old(stack)[k]].statement.indent
    {
      while stack != [] && nodes[stack[|stack| - 1]].statement.indent >= indent
        invariant |stack| <= old(|stack|) && stack == old(stack)[..|stack|]
        invariant forall k :: |stack| <= k < old(|stack|) ==> indent <= nodes[old(stack)[k]].statement.indent
      {
        stack := stack[..|stack| - 1];
      }
    }

    /** Close the contexts at the depth limit. */
    method CloseAtLimit()
      requires forall k :: 0 <= k < |stack| ==> stack[k] < |nodes| && nodes[stack[k]].depth == k
      modifies this`stack
      ensures stack == old(stack)[..Min(maxDepth, |old(stack)|)]
    {
      while stack != [] && nodes[stack[|stack| - 1]].depth >= maxDepth
        invariant |stack| <= old(|stack|) && stack == old(stack)[..|stack|]
        invariant Min(maxDepth, old(|stack|)) <= |stack|
      {
        stack := stack[..|stack| - 1];
      }
    }

    /** Close the contexts the statement is not in; what stays open is its path. */
    method CloseContexts(s: Statement) returns (codes: seq<DiagnosticCode>)
      requires stack == Open(log, maxDepth, epoch) && StackShows(log, stack, nodes)
      modifies this`stack
      ensures stack == Path(log + [Entry(s, epoch)], maxDepth, |log|)
      ensures codes == Raised(log + [Entry(s, epoch)], maxDepth)
    {
      hide Open, Path, Raised;
      ghost var e := Entry(s, epoch);
      codes := [];
      if s.forceRoot || s.indent == 0 {
        stack := [];
        RootedArrival(log, maxDepth, e);
      } else {
        var unmatchedDedent :=
          && stack != []
          && s.indent < nodes[stack[|stack| - 1]].statement.indent
          && forall k :: 0 <= k < |stack| ==> nodes[stack[k]].statement.indent != s.indent;
        assert unmatchedDedent == UnmatchedDedent(log, maxDepth, s, epoch);
        CloseDeeper(s.indent);
        NestedArrival(log, maxDepth, e, |stack|);
        if unmatchedDedent {
          codes := codes + [InconsistentDedent];
        }
        if stack == [] {
          codes := codes + [OrphanIndentation];
        } else if nodes[stack[|stack| - 1]].depth >= maxDepth {
          CloseAtLimit();
          codes := codes + [MaximumDepthReached];
        }
      }
    }

    /** Append the node and list it under its parent or among the roots. */
    method Hang(s: Statement, status: ParseStatus)
      requires IsForest(log, maxDepth, nodes, roots)
      requires stack == Path(log + [Entry(s, epoch)], maxDepth, |log|)
      requires status == if Raised(log + [Entry(s, epoch)], maxDepth) == [] then s.status else Partial
      modifies this`nodes, this`roots
      ensures IsForest(log + [Entry(s, epoch)], maxDepth, nodes, roots)
    {
      hide IsNode, Path, Raised;
      var order := |nodes|;
      nodes := nodes + [Node(s, LastOf(stack), [], |stack|, stack, status)];
      match LastOf(stack) {
        case None => roots := roots + [order];
        case Some(p) => nodes := nodes[p := nodes[p].(children := nodes[p].children + [order])];
      }
      Grown(log, maxDepth, Entry(s, epoch), old(nodes), old(roots), nodes, roots);
    }

    method AddNode(s: Statement) returns (id: Option<nat>)
      requires Valid()
      modifies this
      ensures Valid() && epoch == old(epoch)
      ensures old(|log|) >= maxNodes ==>
                id == None && log == old(log) && nodes == old(nodes) && diagnostics == old(diagnostics)
      ensures old(|log|) < maxNodes ==>
                && id == Some(old(|log|))
                && log == old(log) + [Entry(s, epoch)]
                && diagnostics == old(diagnostics) + At(Raised(log, maxDepth), s)
    {
      hide IsNode, Open, Path, Raised;
      if NodeLimitReached() {
        return None;
      }
      OpenAfter(log, maxDepth, Entry(s, epoch));
      StackFacts(log, maxDepth, epoch, nodes, roots);
      var codes := CloseContexts(s);
      id := Some(|nodes|);
      Hang(s, if codes == [] then s.status else Partial);
      diagnostics := diagnostics + At(codes, s);
      if s.canParent {
        stack := stack + [id.value];
      }
      log := log + [Entry(s, epoch)];
    }

    method ResetContext()
      requires Valid()
      modifies this
      ensures Valid() && epoch == old(epoch) + 1
      ensures log == old(log) && nodes == old(nodes) && roots == old(roots) && diagnostics == old(diagnostics)
    {
      stack := [];
      epoch := epoch + 1;
    }

    method Build(truncated: bool) returns (ir: StructuralIR)
      requires Valid()
      ensures ir == StructuralIR(nodes, roots, diagnostics, truncated)
      ensures IsForest(log, maxDepth, ir.nodes, ir.roots)
    {
      ir := StructuralIR(nodes, roots, diagnostics, truncated);
    }
  }

  /** `nodes'` is `nodes` with the newcomer appended and listed under its parent or among the roots. */
  ghost predicate HungUnder(nodes: seq<Node>, roots: seq<nat>, nodes': seq<Node>, roots': seq<nat>, newcomer: Node) {
    && |nodes'| == |nodes| + 1 && nodes'[|nodes|] == newcomer
    && (forall i :: 0 <= i < |nodes| ==>
          nodes'[i] == nodes[i].(children := nodes[i].children + if newcomer.parent == Some(i) then [|nodes|] else []))
    && roots' == roots + if newcomer.parent == None then [|nodes|] else []
  }

  /** The nodes on the stack show their statements and sit at their depth, ever deeper indented. */
  ghost predicate StackShows(log: seq<Entry>, stack: seq<nat>, nodes: seq<Node>) {
    && (forall k :: 0 <= k < |stack| ==>
          && stack[k] < |nodes| && stack[k] < |log| && nodes[stack[k]].depth == k
          && nodes[stack[k]].statement == log[stack[k]].statement)
    && (forall a, b :: 0 <= a < b < |stack| ==>
          nodes[stack[a]].statement.indent < nodes[stack[b]].statement.indent)
  }

  lemma StackFacts(log: seq<Entry>, limit: nat, epoch: nat, nodes: seq<Node>, roots: seq<nat>)
    requires IsForest(log, limit, nodes, roots)
    ensures StackShows(log, Open(log, limit, epoch), nodes)
  {
    OpenIsStrictlyIndented(log, limit, epoch);
    var open := Open(log, limit, epoch);
    forall k | 0 <= k < |open|
      ensures open[k] < |nodes| && nodes[open[k]].depth == k && nodes[open[k]].statement == log[open[k]].statement
    {
      assert IsNode(log, limit, open[k], nodes[open[k]]);
    }
  }

  lemma OpenAfter(log: seq<Entry>, limit: nat, e: Entry)
    ensures Open(log + [e], limit, e.epoch) ==
            Path(log + [e], limit, |log|) + if e.statement.canParent then [|log|] else []
  {
  }

  lemma RootedArrival(log: seq<Entry>, limit: nat, e: Entry)
    requires Rooted(e.statement)
    ensures Path(log + [e], limit, |log|) == [] && Raised(log + [e], limit) == []
  {
    NoEnclosers(log + [e], |log|);
    assert (log + [e])[|log|] == e;
  }

  /** Path and diagnostics of a statement that leaves `q` contexts open before the limit is applied. */
  lemma NestedArrival(log: seq<Entry>, limit: nat, e: Entry, q: nat)
    requires !Rooted(e.statement)
    requires var open := Open(log, limit, e.epoch);
             && q <= |open|
             && (forall k :: 0 <= k < q ==> log[open[k]].statement.indent < e.statement.indent)
             && (forall k :: q <= k < |open| ==> e.statement.indent <= log[open[k]].statement.indent)
    ensures Path(log + [e], limit, |log|) == Open(log, limit, e.epoch)[..Min(limit, q)]
    ensures Raised(log + [e], limit) ==
            (if UnmatchedDedent(log, limit, e.statement, e.epoch) then [InconsistentDedent] else [])
            + (if q == 0 then [OrphanIndentation] else [])
            + (if limit < q then [MaximumDepthReached] else [])
  {
    hide Open, Path, Orphan, BoundedByPredecessor, UnmatchedDedent;
    Arrival(log, limit, e, q);
    assert (log + [e])[..|log|] == log && (log + [e])[|log|] == e;
  }

  /** Hanging a node on its parent turns the forest of a log into that of the longer log. */
  lemma Grown(
    log: seq<Entry>, limit: nat, e: Entry, nodes: seq<Node>, roots: seq<nat>, nodes': seq<Node>, roots': seq<nat>)
    requires IsForest(log, limit, nodes, roots)
    requires var path := Path(log + [e], limit, |log|);
             HungUnder(nodes, roots, nodes', roots',
                       Node(e.statement, LastOf(path), [], |path|, path,
                            if Raised(log + [e], limit) == [] then e.statement.status else Partial))
    ensures IsForest(log + [e], limit, nodes', roots')
  {
    var both, n := log + [e], |log|;
    ChildrenGrow(log, limit, e, None);
    forall i | 0 <= i <= n
      ensures IsNode(both, limit, i, nodes'[i])
    {
      if i < n {
        assert IsNode(log, limit, i, nodes[i]);
        NodeStays(log, limit, e, i, nodes[i]);
      } else {
        assert both[..n + 1] == both;
        NothingHangsOnNewcomer(both, limit, n, n + 1);
      }
    }
  }

  /** An earlier node changes at most its child list. */
  lemma NodeStays(log: seq<Entry>, limit: nat, e: Entry, i: nat, node: Node)
    requires i < |log| && IsNode(log, limit, i, node)
    ensures var parent := Parent(log + [e], limit, |log|);
            IsNode(log + [e], limit, i, node.(children := node.children + if parent == Some(i) then [|log|] else []))
  {
    hide Parent, Path, HungOn, Raised;
    PathsStay(log, limit, e);
    ChildrenGrow(log, limit, e, Some(i));
    assert (log + [e])[..i + 1] == log[..i + 1];
  }

  lemma {:induction false} NothingHangsOnNewcomer(log: seq<Entry>, limit: nat, n: nat, m: nat)
    requires m <= n + 1 <= |log|
    ensures HungOn(log, limit, Some(n), m) == []
  {
    if m > 0 {
      NothingHangsOnNewcomer(log, limit, n, m - 1);
      var path := Path(log, limit, m - 1);
      if path != [] {
        PathOfAncestor(log, limit, m - 1, |path| - 1);
      }
    }
  }
}
