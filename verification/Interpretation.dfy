/**
 Interpretation of a command-line forest by the mappings of a knowledge pack
 (backend/app/interpretation/service.py:304-435, 850-887, 978-1053).

 Vendor extractors, scope resolvers, field validation and the training matcher are taken as functions of a
 mapping and a node in its own forest.  A node is named by its place; a parent comes before its children, as
 LineVerdicts shows of every forest the reader makes.
 */
module Interpretation {
  import opened Common
  import F = StructuralForest
  import Ordering
  import Scopes

  type NodeId = nat

  type MappingId = nat

  type FieldId = string

  type Node = F.Node

  datatype Behavior = Unsupported | ResetToDefault | RemoveValue | InvertBoolean

  datatype Matcher = Matcher(
    command: string, arguments: seq<string>, parent: Option<string>, parentArguments: seq<string>,
    ancestor: Option<string>, ancestorArguments: seq<string>)

  /**
   A mapping is named by its place in the pack; a trained one matches by its definition instead.  `resets` and
   `removes` say that the mapping has versions of its own to mark a negated statement with.
   */
  datatype Mapping = Mapping(
    field: FieldId, matcher: Matcher, behavior: Behavior, trained: bool, resets: bool, removes: bool)

  /** A typed value by its canonical text, and whether it is a truth value. */
  datatype Value = Value(text: string, boolean: bool)

  datatype Extraction = Extracted(value: Value) | Refused(code: string) | Nothing

  datatype ScopeOutcome = InScope(scope: Scopes.Scope, context: Option<NodeId>) | NoScope(code: Option<string>)

  /** The parts of the system taken as given. */
  datatype Knowledge = Knowledge(
    lower: string -> string,
    trained: (Mapping, seq<Node>, NodeId) -> bool,
    extract: (Mapping, seq<Node>, NodeId) -> Extraction,
    scope: (Mapping, seq<Node>, NodeId) -> ScopeOutcome,
    inverted: Value -> Value,
    valid: (FieldId, Value, Scopes.Scope) -> bool,
    scopeAllowed: (FieldId, string) -> bool)

  datatype Diagnostic = Diagnostic(code: string, node: NodeId, mapping: MappingId)

  datatype Report = Report(
    facts: seq<(NodeId, MappingId)>, diagnostics: seq<Diagnostic>, matched: set<NodeId>, consumed: set<NodeId>,
    unresolved: seq<NodeId>)

  predicate Forest(ir: seq<Node>) {
    forall i :: 0 <= i < |ir| ==> ir[i].parent.Some? ==> ir[i].parent.value < i
  }

  // ---------------------------------------------------------------- matching

  function Lowered(k: Knowledge, words: seq<string>): seq<string> {
    seq(|words|, i requires 0 <= i < |words| => k.lower(words[i]))
  }

  /** Case is ignored in arguments, not in commands. */
  predicate HasPrefix(k: Knowledge, arguments: seq<string>, prefix: seq<string>) {
    |prefix| <= |arguments| && Lowered(k, arguments[..|prefix|]) == Lowered(k, prefix)
  }

  /** `a` is a proper ancestor of `i`. */
  ghost predicate Above(ir: seq<Node>, a: NodeId, i: NodeId)
    requires Forest(ir)
    decreases i
  {
    i < |ir| && ir[i].parent.Some? && (a == ir[i].parent.value || Above(ir, a, ir[i].parent.value))
  }

  /** The closest proper ancestor with this command. */
  ghost predicate Closest(ir: seq<Node>, i: NodeId, command: string, a: NodeId)
    requires Forest(ir)
  {
    && a < |ir| && Above(ir, a, i) && ir[a].statement.command == Some(command)
    && forall b: NodeId :: a < b < |ir| && Above(ir, b, i) ==> ir[b].statement.command != Some(command)
  }

  /** Only the closest ancestor with the command is looked at: one further up that fits does not help. */
  ghost predicate AncestorFits(k: Knowledge, ir: seq<Node>, m: Mapping, parent: NodeId)
    requires Forest(ir)
  {
    m.matcher.ancestor.None?
    || exists a: NodeId :: Closest(ir, parent, m.matcher.ancestor.value, a)
        && HasPrefix(k, ir[a].statement.arguments, m.matcher.ancestorArguments)
  }

  ghost predicate Matches(k: Knowledge, ir: seq<Node>, m: Mapping, i: NodeId)
    requires Forest(ir) && i < |ir|
  {
    if m.trained then k.trained(m, ir, i)
    else
      && ir[i].statement.command == Some(m.matcher.command)
      && HasPrefix(k, ir[i].statement.arguments, m.matcher.arguments)
      && (m.matcher.parent.Some? ==>
            && ir[i].parent.Some?
            && var p := ir[i].parent.value;
            && ir[p].statement.command == m.matcher.parent
            && HasPrefix(k, ir[p].statement.arguments, m.matcher.parentArguments)
            && AncestorFits(k, ir, m, p))
  }

  lemma {:induction false} AboveIsBefore(ir: seq<Node>, a: NodeId, i: NodeId)
    requires Forest(ir) && Above(ir, a, i)
    ensures a < i
    decreases i
  {
    if a != ir[i].parent.value {
      AboveIsBefore(ir, a, ir[i].parent.value);
    }
  }

  method MatchesNode(k: Knowledge, ir: seq<Node>, m: Mapping, i: NodeId) returns (r: bool)
    requires Forest(ir) && i < |ir|
    ensures r <==> Matches(k, ir, m, i)
  {
    if m.trained {
      return k.trained(m, ir, i);
    }
    if ir[i].statement.command != Some(m.matcher.command)
        || !HasPrefix(k, ir[i].statement.arguments, m.matcher.arguments)
    {
      return false;
    }
    if m.matcher.parent.None? {
      return true;
    }
    if ir[i].parent.None? {
      return false;
    }
    var parent := ir[i].parent.value;
    if ir[parent].statement.command != m.matcher.parent
        || !HasPrefix(k, ir[parent].statement.arguments, m.matcher.parentArguments)
    {
      return false;
    }
    if m.matcher.ancestor.None? {
      return true;
    }
    r := ClosestFits(k, ir, m, parent);
  }

  /** Walks up from the parent and stops at the first ancestor with the command. */
  method ClosestFits(k: Knowledge, ir: seq<Node>, m: Mapping, parent: NodeId) returns (r: bool)
    requires Forest(ir) && parent < |ir| && m.matcher.ancestor.Some?
    ensures r <==> AncestorFits(k, ir, m, parent)
  {
    var at: Option<NodeId> := ir[parent].parent;
    while at.Some?
      invariant at.Some? ==> at.value < |ir| && Above(ir, at.value, parent)
      invariant forall b: NodeId :: b < |ir| && Above(ir, b, parent) ==>
                  ir[b].statement.command != m.matcher.ancestor
                      || (at.Some? && (b == at.value || Above(ir, b, at.value)))
      decreases if at.Some? then at.value + 1 else 0
    {
      var a: NodeId := at.value;
      if ir[a].statement.command == m.matcher.ancestor {
        forall b: NodeId | a < b < |ir| && Above(ir, b, parent) ensures ir[b].statement.command != m.matcher.ancestor {
          if Above(ir, b, a) {
            AboveIsBefore(ir, b, a);
          }
        }
        assert Closest(ir, parent, m.matcher.ancestor.value, a);
        forall c: NodeId | Closest(ir, parent, m.matcher.ancestor.value, c) ensures c == a {
          if Above(ir, c, a) {
            AboveIsBefore(ir, c, a);
          }
        }
        return HasPrefix(k, ir[a].statement.arguments, m.matcher.ancestorArguments);
      }
      if ir[a].parent.Some? {
        AboveThrough(ir, ir[a].parent.value, a, parent);
      }
      at := ir[a].parent;
    }
    return false;
  }

  lemma {:induction false} AboveThrough(ir: seq<Node>, a: NodeId, b: NodeId, i: NodeId)
    requires Forest(ir) && Above(ir, b, i) && b < |ir| && ir[b].parent == Some(a)
    ensures Above(ir, a, i)
    decreases i
  {
    if b != ir[i].parent.value {
      AboveThrough(ir, a, b, ir[i].parent.value);
    }
  }

  // ---------------------------------------------------------------- what a mapping says of a statement

  /** The mapping takes the statement up. */
  ghost predicate TakesUp(k: Knowledge, ir: seq<Node>, pack: seq<Mapping>, i: NodeId, j: MappingId)
    requires Forest(ir)
  {
    i < |ir| && j < |pack| && ir[i].statement.kind == F.StatementNode && Matches(k, ir, pack[j], i)
  }

  /** Certain syntax, not negated, with a value and a scope that the field accepts together. */
  predicate Asserts(k: Knowledge, ir: seq<Node>, m: Mapping, i: NodeId)
    requires i < |ir|
  {
    var value, scoped := k.extract(m, ir, i), k.scope(m, ir, i);
    && !ir[i].statement.negated && ir[i].status == F.Parsed
    && value.Extracted? && scoped.InScope? && k.valid(m.field, value.value, scoped.scope)
  }

  /**
   Certain syntax, negated in a scope, that its mapping gives a bounded meaning: the bare command resets a field that
   knows the scope, a value the field accepts there is removed, a truth value is inverted.
   */
  predicate Negates(k: Knowledge, ir: seq<Node>, m: Mapping, i: NodeId)
    requires i < |ir|
  {
    var value, scoped := k.extract(m, ir, i), k.scope(m, ir, i);
    && ir[i].statement.negated && ir[i].status == F.Parsed && scoped.InScope?
    && ((m.behavior == ResetToDefault && k.scopeAllowed(m.field, scoped.scope.kind)
            && Lowered(k, ir[i].statement.arguments) == Lowered(k, m.matcher.arguments))
        || (m.behavior == RemoveValue && value.Extracted? && k.valid(m.field, value.value, scoped.scope))
        || (m.behavior == InvertBoolean && value.Extracted? && value.value.boolean))
  }

  /** A statement that is not negated and certain fails with the extractor's code, or else the scope's. */
  predicate FailsWith(k: Knowledge, ir: seq<Node>, m: Mapping, i: NodeId, code: string)
    requires i < |ir|
  {
    var value, scoped := k.extract(m, ir, i), k.scope(m, ir, i);
    || value == Refused(code)
    || (value.Extracted? && scoped == NoScope(Some(code)))
    || (value.Extracted? && scoped == NoScope(None) && code == "scope_unresolved")
  }

  /** Why a matching statement is reported. */
  predicate Causes(k: Knowledge, ir: seq<Node>, m: Mapping, i: NodeId, code: string)
    requires i < |ir|
  {
    || (ir[i].statement.negated && !Negates(k, ir, m, i) && code == "unsupported_negation")
    || (!ir[i].statement.negated && ir[i].status != F.Parsed && code == "uncertain_structural_node")
    || (!ir[i].statement.negated && ir[i].status == F.Parsed && FailsWith(k, ir, m, i, code))
  }

  /** A value in a scope that its field does not accept. */
  predicate Breaks(k: Knowledge, ir: seq<Node>, m: Mapping, i: NodeId)
    requires i < |ir|
  {
    var value, scoped := k.extract(m, ir, i), k.scope(m, ir, i);
    && !ir[i].statement.negated && ir[i].status == F.Parsed
    && value.Extracted? && scoped.InScope? && !k.valid(m.field, value.value, scoped.scope)
  }

  ghost predicate MakesFact(k: Knowledge, ir: seq<Node>, pack: seq<Mapping>, i: NodeId, j: MappingId)
    requires Forest(ir)
  {
    TakesUp(k, ir, pack, i, j) && (Asserts(k, ir, pack[j], i) || Negates(k, ir, pack[j], i))
  }

  ghost predicate Reports(k: Knowledge, ir: seq<Node>, pack: seq<Mapping>, i: NodeId, j: MappingId, code: string)
    requires Forest(ir)
  {
    TakesUp(k, ir, pack, i, j) && Causes(k, ir, pack[j], i, code)
  }

  ghost predicate Refuses(k: Knowledge, ir: seq<Node>, pack: seq<Mapping>, i: NodeId, j: MappingId)
    requires Forest(ir)
  {
    TakesUp(k, ir, pack, i, j) && Breaks(k, ir, pack[j], i)
  }

  /** The fact of another statement, not a negated one, has its scope from this node. */
  ghost predicate RestsOn(k: Knowledge, ir: seq<Node>, pack: seq<Mapping>, i: NodeId, j: MappingId, n: NodeId)
    requires Forest(ir)
  {
    && TakesUp(k, ir, pack, i, j) && Asserts(k, ir, pack[j], i)
    && k.scope(pack[j], ir, i).context == Some(n)
  }

  ghost predicate Explained(k: Knowledge, ir: seq<Node>, pack: seq<Mapping>, n: NodeId)
    requires Forest(ir)
  {
    exists j: MappingId :: MakesFact(k, ir, pack, n, j)
  }

  ghost predicate Consumed(k: Knowledge, ir: seq<Node>, pack: seq<Mapping>, n: NodeId)
    requires Forest(ir)
  {
    exists i: NodeId, j: MappingId :: RestsOn(k, ir, pack, i, j, n)
  }

  predicate IsEvidence(node: Node) {
    node.statement.kind != F.CommentNode
  }

  ghost predicate IsUnresolved(k: Knowledge, ir: seq<Node>, pack: seq<Mapping>, n: NodeId)
    requires Forest(ir)
  {
    n < |ir| && IsEvidence(ir[n]) && !Explained(k, ir, pack, n) && !Consumed(k, ir, pack, n)
  }

  /** Uncertain syntax is never explained: a mapping that takes it up reports it, and reports nothing else of it. */
  lemma UncertainIsReported(k: Knowledge, ir: seq<Node>, pack: seq<Mapping>, n: NodeId, j: MappingId)
    requires Forest(ir) && n < |ir| && ir[n].status != F.Parsed
    ensures !Explained(k, ir, pack, n) && !Refuses(k, ir, pack, n, j)
    ensures var code := if ir[n].statement.negated then "unsupported_negation" else "uncertain_structural_node";
            forall c :: Reports(k, ir, pack, n, j, c) <==> TakesUp(k, ir, pack, n, j) && c == code
  {
    hide Matches;
  }

  // ---------------------------------------------------------------- what one mapping makes of one statement

  datatype Outcome = NoMatch | Fact(context: Option<NodeId>) | NegatedFact | Diagnosed(code: string) | Quiet | Invalid

  /** A negated statement keeps a meaning only under a declared, bounded behaviour. */
  predicate NegationHolds(k: Knowledge, ir: seq<Node>, m: Mapping, i: NodeId)
    requires i < |ir|
  {
    var scoped := k.scope(m, ir, i);
    && ir[i].status == F.Parsed && scoped.InScope?
    && match m.behavior
       case Unsupported => false
       case ResetToDefault => Lowered(k, ir[i].statement.arguments) == Lowered(k, m.matcher.arguments)
           && k.scopeAllowed(m.field, scoped.scope.kind)
       case RemoveValue => k.extract(m, ir, i).Extracted? && k.valid(m.field, k.extract(m, ir, i).value, scoped.scope)
       case InvertBoolean => k.extract(m, ir, i).Extracted? && k.extract(m, ir, i).value.boolean
  }

  function Applied(k: Knowledge, ir: seq<Node>, m: Mapping, i: NodeId): Outcome
    requires i < |ir|
  {
    if ir[i].statement.negated then
      if NegationHolds(k, ir, m, i) then NegatedFact else Diagnosed("unsupported_negation")
    else if ir[i].status != F.Parsed then Diagnosed("uncertain_structural_node")
    else
      match k.extract(m, ir, i)
      case Nothing => Quiet
      case Refused(code) => Diagnosed(code)
      case Extracted(value) =>
        match k.scope(m, ir, i)
        case NoScope(code) => Diagnosed(if code.Some? then code.value else "scope_unresolved")
        case InScope(scope, context) => if k.valid(m.field, value, scope) then Fact(context) else Invalid
  }

  ghost function OutcomeOf(k: Knowledge, ir: seq<Node>, m: Mapping, i: NodeId): Outcome
    requires Forest(ir) && i < |ir|
  {
    if Matches(k, ir, m, i) then Applied(k, ir, m, i) else NoMatch
  }

  // ---------------------------------------------------------------- the whole forest

  /** The outcome of a mapping and a node, for statements of the forest and mappings of the pack only. */
  ghost function At(k: Knowledge, ir: seq<Node>, pack: seq<Mapping>, i: NodeId, j: MappingId): Outcome
    requires Forest(ir)
  {
    if i < |ir| && j < |pack| && ir[i].statement.kind == F.StatementNode then OutcomeOf(k, ir, pack[j], i) else NoMatch
  }

  predicate IsFact(outcome: Outcome) {
    outcome.Fact? || outcome.NegatedFact?
  }

  /** What the branches make of a pair is what the mapping says of the statement. */
  lemma Branches(k: Knowledge, ir: seq<Node>, pack: seq<Mapping>, i: NodeId, j: MappingId)
    requires Forest(ir)
    ensures IsFact(At(k, ir, pack, i, j)) <==> MakesFact(k, ir, pack, i, j)
    ensures At(k, ir, pack, i, j) == Invalid <==> Refuses(k, ir, pack, i, j)
    ensures forall code :: At(k, ir, pack, i, j) == Diagnosed(code) <==> Reports(k, ir, pack, i, j, code)
    ensures forall n: NodeId :: At(k, ir, pack, i, j) == Fact(Some(n)) <==> RestsOn(k, ir, pack, i, j, n)
  {
    hide Matches;
  }

  /** Pairs before `(i, j)` in the order the loops visit them. */
  predicate Visited(a: NodeId, b: MappingId, i: NodeId, j: MappingId) {
    a < i || (a == i && b < j)
  }

  predicate Ascends(facts: seq<(NodeId, MappingId)>) {
    forall x, y :: 0 <= x < y < |facts| ==> Visited(facts[x].0, facts[x].1, facts[y].0, facts[y].1)
  }

  /** What the report holds once the pairs before `(i, j)` have been visited. */
  ghost predicate FactsCover(
    k: Knowledge, ir: seq<Node>, pack: seq<Mapping>, facts: seq<(NodeId, MappingId)>, i: NodeId, j: MappingId)
    requires Forest(ir)
  {
    && Ascends(facts)
    && forall a: NodeId, b: MappingId :: (a, b) in facts <==> Visited(a, b, i, j) && IsFact(At(k, ir, pack, a, b))
  }

  ghost predicate DiagnosticsCover(
    k: Knowledge, ir: seq<Node>, pack: seq<Mapping>, ds: seq<Diagnostic>, i: NodeId, j: MappingId)
    requires Forest(ir)
  {
    && Ordering.NoRepeats(ds)
    && forall d: Diagnostic :: d in ds <==>
         Visited(d.node, d.mapping, i, j) && At(k, ir, pack, d.node, d.mapping) == Diagnosed(d.code)
  }

  ghost predicate MatchedBy(k: Knowledge, ir: seq<Node>, pack: seq<Mapping>, n: NodeId, i: NodeId, j: MappingId)
    requires Forest(ir)
  {
    exists b: MappingId :: Visited(n, b, i, j) && IsFact(At(k, ir, pack, n, b))
  }

  ghost predicate ConsumedBy(k: Knowledge, ir: seq<Node>, pack: seq<Mapping>, n: NodeId, i: NodeId, j: MappingId)
    requires Forest(ir)
  {
    exists a: NodeId, b: MappingId :: Visited(a, b, i, j) && At(k, ir, pack, a, b) == Fact(Some(n))
  }

  ghost predicate Covers(k: Knowledge, ir: seq<Node>, pack: seq<Mapping>, r: Report, i: NodeId, j: MappingId)
    requires Forest(ir)
  {
    && FactsCover(k, ir, pack, r.facts, i, j) && DiagnosticsCover(k, ir, pack, r.diagnostics, i, j)
    && (forall n: NodeId :: n in r.matched <==> MatchedBy(k, ir, pack, n, i, j))
    && (forall n: NodeId :: n in r.consumed <==> ConsumedBy(k, ir, pack, n, i, j))
  }

  ghost predicate NoneInvalid(k: Knowledge, ir: seq<Node>, pack: seq<Mapping>, i: NodeId, j: MappingId)
    requires Forest(ir)
  {
    forall a: NodeId, b: MappingId :: Visited(a, b, i, j) ==> At(k, ir, pack, a, b) != Invalid
  }

  lemma VisitedNext(a: NodeId, b: MappingId, i: NodeId, j: MappingId)
    ensures Visited(a, b, i, j + 1) <==> Visited(a, b, i, j) || (a == i && b == j)
  {
  }

  /** A pair that is no fact or diagnostic changes nothing; nor do the pairs left over at the end of a row. */
  lemma CoversOn(
    k: Knowledge, ir: seq<Node>, pack: seq<Mapping>, r: Report, i: NodeId, j: MappingId, i': NodeId, j': MappingId)
    requires Forest(ir) && Covers(k, ir, pack, r, i, j)
    requires forall a: NodeId, b: MappingId :: Visited(a, b, i, j) ==> Visited(a, b, i', j')
    requires forall a: NodeId, b: MappingId :: Visited(a, b, i', j') && !Visited(a, b, i, j) ==>
        At(k, ir, pack, a, b) in {NoMatch, Quiet, Invalid}
    ensures Covers(k, ir, pack, r, i', j')
  {
    hide At, Visited;
    forall n: NodeId ensures MatchedBy(k, ir, pack, n, i, j) <==> MatchedBy(k, ir, pack, n, i', j') {
      if MatchedBy(k, ir, pack, n, i, j) {
        var b: MappingId :| Visited(n, b, i, j) && IsFact(At(k, ir, pack, n, b));
        assert Visited(n, b, i', j');
      }
      if MatchedBy(k, ir, pack, n, i', j') {
        var b: MappingId :| Visited(n, b, i', j') && IsFact(At(k, ir, pack, n, b));
        assert Visited(n, b, i, j);
      }
    }
    forall n: NodeId ensures ConsumedBy(k, ir, pack, n, i, j) <==> ConsumedBy(k, ir, pack, n, i', j') {
      if ConsumedBy(k, ir, pack, n, i, j) {
        var a: NodeId, b: MappingId :| Visited(a, b, i, j) && At(k, ir, pack, a, b) == Fact(Some(n));
        assert Visited(a, b, i', j');
      }
      if ConsumedBy(k, ir, pack, n, i', j') {
        var a: NodeId, b: MappingId :| Visited(a, b, i', j') && At(k, ir, pack, a, b) == Fact(Some(n));
        assert Visited(a, b, i, j);
      }
    }
  }

  lemma MatchedNext(k: Knowledge, ir: seq<Node>, pack: seq<Mapping>, n: NodeId, i: NodeId, j: MappingId)
    requires Forest(ir)
    ensures MatchedBy(k, ir, pack, n, i, j + 1) <==>
        MatchedBy(k, ir, pack, n, i, j) || (n == i && IsFact(At(k, ir, pack, i, j)))
  {
    hide At;
    if MatchedBy(k, ir, pack, n, i, j) {
      var b: MappingId :| Visited(n, b, i, j) && IsFact(At(k, ir, pack, n, b));
      assert Visited(n, b, i, j + 1);
    }
    if n == i && IsFact(At(k, ir, pack, i, j)) {
      assert Visited(n, j, i, j + 1);
    }
    if MatchedBy(k, ir, pack, n, i, j + 1) {
      var b: MappingId :| Visited(n, b, i, j + 1) && IsFact(At(k, ir, pack, n, b));
      VisitedNext(n, b, i, j);
    }
  }

  lemma ConsumedNext(k: Knowledge, ir: seq<Node>, pack: seq<Mapping>, n: NodeId, i: NodeId, j: MappingId)
    requires Forest(ir)
    ensures ConsumedBy(k, ir, pack, n, i, j + 1) <==>
        ConsumedBy(k, ir, pack, n, i, j) || At(k, ir, pack, i, j) == Fact(Some(n))
  {
    hide At;
    if ConsumedBy(k, ir, pack, n, i, j) {
      var a: NodeId, b: MappingId :| Visited(a, b, i, j) && At(k, ir, pack, a, b) == Fact(Some(n));
      assert Visited(a, b, i, j + 1);
    }
    if At(k, ir, pack, i, j) == Fact(Some(n)) {
      assert Visited(i, j, i, j + 1);
    }
    if ConsumedBy(k, ir, pack, n, i, j + 1) {
      var a: NodeId, b: MappingId :| Visited(a, b, i, j + 1) && At(k, ir, pack, a, b) == Fact(Some(n));
      VisitedNext(a, b, i, j);
    }
  }

  /** What the loops do with the outcome of one pair. */
  function Recorded(r: Report, i: NodeId, j: MappingId, outcome: Outcome): Report {
    match outcome
    case Diagnosed(code) =>
      var d := Diagnostic(code, i, j);
      if d in r.diagnostics then r else r.(diagnostics := r.diagnostics + [d])
    case NegatedFact => r.(facts := r.facts + [(i, j)], matched := r.matched + {i})
    case Fact(context) =>
      r.(facts := r.facts + [(i, j)], matched := r.matched + {i},
         consumed := r.consumed + if context.Some? then {context.value} else {})
    case _ => r
  }

  lemma RecordedFacts(
    k: Knowledge, ir: seq<Node>, pack: seq<Mapping>, facts: seq<(NodeId, MappingId)>, i: NodeId, j: MappingId)
    requires Forest(ir) && FactsCover(k, ir, pack, facts, i, j)
    ensures FactsCover(k, ir, pack, if IsFact(At(k, ir, pack, i, j)) then facts + [(i, j)] else facts, i, j + 1)
  {
    hide At;
    forall x | 0 <= x < |facts| ensures Visited(facts[x].0, facts[x].1, i, j) {
      assert (facts[x].0, facts[x].1) in facts;
    }
    var facts' := if IsFact(At(k, ir, pack, i, j)) then facts + [(i, j)] else facts;
    forall a: NodeId, b: MappingId
      ensures (a, b) in facts' <==> Visited(a, b, i, j + 1) && IsFact(At(k, ir, pack, a, b))
    {
      VisitedNext(a, b, i, j);
      assert (a, b) in facts' <==> (a, b) in facts || (IsFact(At(k, ir, pack, i, j)) && (a, b) == (i, j));
    }
  }

  lemma RecordedDiagnostics(k: Knowledge, ir: seq<Node>, pack: seq<Mapping>, r: Report, i: NodeId, j: MappingId)
    requires Forest(ir) && DiagnosticsCover(k, ir, pack, r.diagnostics, i, j)
    ensures DiagnosticsCover(k, ir, pack, Recorded(r, i, j, At(k, ir, pack, i, j)).diagnostics, i, j + 1)
  {
    hide At;
    var ds := Recorded(r, i, j, At(k, ir, pack, i, j)).diagnostics;
    forall d: Diagnostic
      ensures d in ds <==>
                Visited(d.node, d.mapping, i, j + 1) && At(k, ir, pack, d.node, d.mapping) == Diagnosed(d.code)
    {
      VisitedNext(d.node, d.mapping, i, j);
      var here := At(k, ir, pack, i, j);
      assert d in ds <==> d in r.diagnostics || (here.Diagnosed? && d == Diagnostic(here.code, i, j));
    }
  }

  lemma RecordedCovers(k: Knowledge, ir: seq<Node>, pack: seq<Mapping>, r: Report, i: NodeId, j: MappingId)
    requires Forest(ir) && Covers(k, ir, pack, r, i, j)
    ensures Covers(k, ir, pack, Recorded(r, i, j, At(k, ir, pack, i, j)), i, j + 1)
  {
    hide At, MatchedBy, ConsumedBy, FactsCover, DiagnosticsCover;
    RecordedFacts(k, ir, pack, r.facts, i, j);
    RecordedDiagnostics(k, ir, pack, r, i, j);
    forall n: NodeId
      ensures MatchedBy(k, ir, pack, n, i, j + 1) <==>
          MatchedBy(k, ir, pack, n, i, j) || (n == i && IsFact(At(k, ir, pack, i, j)))
      ensures ConsumedBy(k, ir, pack, n, i, j + 1) <==>
          ConsumedBy(k, ir, pack, n, i, j) || At(k, ir, pack, i, j) == Fact(Some(n))
    {
      MatchedNext(k, ir, pack, n, i, j);
      ConsumedNext(k, ir, pack, n, i, j);
    }
  }

  /** The report says of every mapping and every statement what the mapping makes of it. */
  ghost predicate Complete(k: Knowledge, ir: seq<Node>, pack: seq<Mapping>, r: Report)
    requires Forest(ir)
  {
    && Ascends(r.facts) && Ordering.NoRepeats(r.diagnostics)
    && (forall i: NodeId, j: MappingId :: (i, j) in r.facts <==> MakesFact(k, ir, pack, i, j))
    && (forall d: Diagnostic :: d in r.diagnostics <==> Reports(k, ir, pack, d.node, d.mapping, d.code))
    && (forall n: NodeId :: n in r.matched <==> Explained(k, ir, pack, n))
    && (forall n: NodeId :: n in r.consumed <==> Consumed(k, ir, pack, n))
    && (forall n: NodeId :: n in r.unresolved <==> IsUnresolved(k, ir, pack, n))
    && forall x, y :: 0 <= x < y < |r.unresolved| ==> r.unresolved[x] < r.unresolved[y]
  }

  lemma VisitedAll(k: Knowledge, ir: seq<Node>, pack: seq<Mapping>, n: NodeId)
    requires Forest(ir)
    ensures MatchedBy(k, ir, pack, n, |ir|, 0) <==> Explained(k, ir, pack, n)
    ensures ConsumedBy(k, ir, pack, n, |ir|, 0) <==> Consumed(k, ir, pack, n)
  {
    hide At, MakesFact, RestsOn;
    forall i: NodeId, j: MappingId
      ensures IsFact(At(k, ir, pack, i, j)) <==> MakesFact(k, ir, pack, i, j)
      ensures At(k, ir, pack, i, j) == Fact(Some(n)) <==> RestsOn(k, ir, pack, i, j, n)
      ensures At(k, ir, pack, i, j) != NoMatch ==> Visited(i, j, |ir|, 0)
    {
      Branches(k, ir, pack, i, j);
      NothingOutside(k, ir, pack, i, j);
    }
    if Explained(k, ir, pack, n) {
      var b: MappingId :| MakesFact(k, ir, pack, n, b);
      assert IsFact(At(k, ir, pack, n, b));
    }
    if MatchedBy(k, ir, pack, n, |ir|, 0) {
      var b: MappingId :| Visited(n, b, |ir|, 0) && IsFact(At(k, ir, pack, n, b));
      assert MakesFact(k, ir, pack, n, b);
    }
    if Consumed(k, ir, pack, n) {
      var a: NodeId, b: MappingId :| RestsOn(k, ir, pack, a, b, n);
      assert At(k, ir, pack, a, b) == Fact(Some(n));
    }
    if ConsumedBy(k, ir, pack, n, |ir|, 0) {
      var a: NodeId, b: MappingId :| Visited(a, b, |ir|, 0) && At(k, ir, pack, a, b) == Fact(Some(n));
      assert RestsOn(k, ir, pack, a, b, n);
    }
  }

  lemma NothingOutside(k: Knowledge, ir: seq<Node>, pack: seq<Mapping>, i: NodeId, j: MappingId)
    requires Forest(ir)
    ensures At(k, ir, pack, i, j) != NoMatch ==> Visited(i, j, |ir|, 0)
  {
    hide OutcomeOf;
  }

  lemma AllRecorded(k: Knowledge, ir: seq<Node>, pack: seq<Mapping>, r: Report)
    requires Forest(ir) && Covers(k, ir, pack, r, |ir|, 0)
    ensures forall i: NodeId, j: MappingId :: (i, j) in r.facts <==> MakesFact(k, ir, pack, i, j)
    ensures forall d: Diagnostic :: d in r.diagnostics <==> Reports(k, ir, pack, d.node, d.mapping, d.code)
  {
    hide At, MakesFact, Reports, MatchedBy, ConsumedBy, Refuses, RestsOn, Visited;
    forall i: NodeId, j: MappingId ensures (i, j) in r.facts <==> MakesFact(k, ir, pack, i, j) {
      Branches(k, ir, pack, i, j);
      NothingOutside(k, ir, pack, i, j);
    }
    forall d: Diagnostic ensures d in r.diagnostics <==> Reports(k, ir, pack, d.node, d.mapping, d.code) {
      Branches(k, ir, pack, d.node, d.mapping);
      NothingOutside(k, ir, pack, d.node, d.mapping);
    }
  }

  lemma RefusedIsVisited(k: Knowledge, ir: seq<Node>, pack: seq<Mapping>, i: NodeId, j: MappingId)
    requires Forest(ir)
    ensures Refuses(k, ir, pack, i, j) ==> Visited(i, j, |ir|, 0)
  {
    hide Matches, Breaks;
  }

  lemma NothingRefused(k: Knowledge, ir: seq<Node>, pack: seq<Mapping>, i: NodeId, j: MappingId)
    requires Forest(ir) && NoneInvalid(k, ir, pack, i, j)
    ensures forall a: NodeId, b: MappingId :: Visited(a, b, i, j) ==> !Refuses(k, ir, pack, a, b)
  {
    hide At, Refuses, Visited, MakesFact, Reports, RestsOn;
    forall a: NodeId, b: MappingId | Visited(a, b, i, j) ensures !Refuses(k, ir, pack, a, b) {
      Branches(k, ir, pack, a, b);
    }
  }

  /** Interprets every statement by every mapping; a mapping whose value its field refuses aborts the whole. */
  method InterpretStructuralIR(k: Knowledge, ir: seq<Node>, pack: seq<Mapping>)
    returns (r: Result<Report, (NodeId, MappingId)>)
    requires Forest(ir)
    ensures r.Ok? ==> Complete(k, ir, pack, r.value)
    ensures r.Ok? ==> forall i: NodeId, j: MappingId :: !Refuses(k, ir, pack, i, j)
    ensures r.Err? ==> Refuses(k, ir, pack, r.error.0, r.error.1)
    ensures r.Err? ==>
              forall i: NodeId, j: MappingId :: Visited(i, j, r.error.0, r.error.1) ==> !Refuses(k, ir, pack, i, j)
  {
    hide At, Covers, MatchedBy, ConsumedBy, Refuses, Complete, MakesFact, Reports, RestsOn;
    var report := Report([], [], {}, {}, []);
    assert Covers(k, ir, pack, report, 0, 0) by {
      EmptyCovers(k, ir, pack);
    }
    for i: nat := 0 to |ir|
      invariant Covers(k, ir, pack, report, i, 0) && NoneInvalid(k, ir, pack, i, 0) && report.unresolved == []
    {
      var j: nat := 0;
      while ir[i].statement.kind == F.StatementNode && j < |pack|
        invariant j <= |pack| && Covers(k, ir, pack, report, i, j) && NoneInvalid(k, ir, pack, i, j)
        invariant report.unresolved == []
      {
        var matches := MatchesNode(k, ir, pack[j], i);
        var outcome := if matches then Applied(k, ir, pack[j], i) else NoMatch;
        AtIs(k, ir, pack, i, j);
        if outcome == Invalid {
          Branches(k, ir, pack, i, j);
          NothingRefused(k, ir, pack, i, j);
          return Err((i, j));
        }
        RecordedCovers(k, ir, pack, report, i, j);
        report := Recorded(report, i, j, outcome);
        j := j + 1;
      }
      RowIsOver(k, ir, pack, i, j);
      CoversOn(k, ir, pack, report, i, j, i + 1, 0);
    }
    var unresolved: seq<NodeId> := [];
    for i: nat := 0 to |ir|
      invariant forall n: NodeId :: n in unresolved <==>
          n < i && IsEvidence(ir[n]) && n !in report.matched && n !in report.consumed
      invariant forall x :: 0 <= x < |unresolved| ==> unresolved[x] < i
      invariant forall x, y :: 0 <= x < y < |unresolved| ==> unresolved[x] < unresolved[y]
    {
      if IsEvidence(ir[i]) && i !in report.matched && i !in report.consumed {
        unresolved := unresolved + [i];
      }
    }
    UnresolvedIs(k, ir, pack, report, unresolved);
    NothingRefused(k, ir, pack, |ir|, 0);
    forall i: NodeId, j: MappingId ensures !Refuses(k, ir, pack, i, j) {
      RefusedIsVisited(k, ir, pack, i, j);
    }
    return Ok(report.(unresolved := unresolved));
  }

  lemma EmptyCovers(k: Knowledge, ir: seq<Node>, pack: seq<Mapping>)
    requires Forest(ir)
    ensures Covers(k, ir, pack, Report([], [], {}, {}, []), 0, 0)
  {
  }

  lemma AtIs(k: Knowledge, ir: seq<Node>, pack: seq<Mapping>, i: NodeId, j: MappingId)
    requires Forest(ir) && i < |ir| && j < |pack| && ir[i].statement.kind == F.StatementNode
    ensures At(k, ir, pack, i, j) == if Matches(k, ir, pack[j], i) then Applied(k, ir, pack[j], i) else NoMatch
  {
  }

  lemma RowIsOver(k: Knowledge, ir: seq<Node>, pack: seq<Mapping>, i: NodeId, j: MappingId)
    requires Forest(ir) && i < |ir| && (ir[i].statement.kind != F.StatementNode || j == |pack|)
    ensures forall a: NodeId, b: MappingId :: Visited(a, b, i + 1, 0) && !Visited(a, b, i, j) ==>
        At(k, ir, pack, a, b) == NoMatch
  {
  }

  lemma UnresolvedIs(k: Knowledge, ir: seq<Node>, pack: seq<Mapping>, report: Report, unresolved: seq<NodeId>)
    requires Forest(ir) && Covers(k, ir, pack, report, |ir|, 0)
    requires forall n: NodeId :: n in unresolved <==>
        n < |ir| && IsEvidence(ir[n]) && n !in report.matched && n !in report.consumed
    requires forall x, y :: 0 <= x < y < |unresolved| ==> unresolved[x] < unresolved[y]
    ensures Complete(k, ir, pack, report.(unresolved := unresolved))
  {
    AllRecorded(k, ir, pack, report);
    hide At, MatchedBy, ConsumedBy, Explained, Consumed, MakesFact, Reports;
    forall n: NodeId
      ensures n in report.matched <==> Explained(k, ir, pack, n)
      ensures n in report.consumed <==> Consumed(k, ir, pack, n)
    {
      VisitedAll(k, ir, pack, n);
    }
  }
}
