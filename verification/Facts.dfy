/** Classified facts and drafts of the resolver (backend/app/effective_state/resolver.py, models.py). */
module Facts {
  import opened Common
  import opened Scopes
  import FactGraph

  datatype Operation = Assign | Reset | Remove

  /** A typed value by its canonical JSON text; a null carries nothing. */
  datatype Content = Null | Typed(json: string)

  /** `_value_key`: JSON objects start with a brace, so no two contents share a key. */
  function ValueKey(c: Content): string {
    match c
    case Null => ""
    case Typed(json) => "{" + json
  }

  datatype Fact = Fact(
    id: string, field: string, scope: Scope, content: Content, operation: Operation,
    artifact: string, line: nat, dependencies: seq<FactGraph.Reference>)

  /** The checks of `_classify` on a fact with well-formed evidence. */
  predicate Classified(f: Fact) {
    && ValidScope(f.scope)
    && (f.operation == Reset ==> f.content == Null)
    && (f.operation == Remove ==> f.content != Null)
  }

  ghost predicate DistinctIds(facts: seq<Fact>) {
    forall i, j :: 0 <= i < j < |facts| ==> facts[i].id != facts[j].id
  }

  datatype Status = Resolved | Unknown | Conflicting

  datatype Reason = MissingEvidence | UnresolvedDefault | UnknownSemantics | ConflictingEvidence

  datatype Effective = Single(content: Content) | Members(contents: seq<Content>)

  datatype Event =
    | InputFact(id: string, scopeKey: string)
    | ConflictDetected
    | DefaultMissing(id: string)
    | Unresolved
    | DuplicateCollapsed(ids: seq<string>)
    | ExplicitSelected(id: string)
    | MemberAdded(id: string)
    | MemberRemoved(id: string)
    | DependencyMissing(id: string)

  datatype Draft = Draft(
    field: string, scope: Scope, status: Status, value: Option<Effective>, sources: seq<string>,
    trace: seq<Event>, precedence: Option<string>, reason: Option<Reason>)
}
