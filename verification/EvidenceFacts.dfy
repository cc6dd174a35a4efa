/**
 The facts interpretation hands to the resolver: their operation, value, scope and place
 (backend/app/interpretation/service.py:923-1053, backend/app/effective_state/service.py:168-200,
 backend/app/effective_state/resolver.py:101-127).

 A fact carries the node it was read from and, where its scope comes from another node, that node too; the
 resolver takes the smallest line of the two for the place of the fact.
 */
module EvidenceFacts {
  import opened Common
  import opened Scopes
  import opened UnresolvedEvidence
  import opened FailClosed
  import opened Ordering
  import opened Replay
  import opened Resolver
  import opened DraftSources
  import F = Facts
  import G = FactGraph
  import I = Interpretation

  /** Identifiers of facts, by artifact, node and mapping, and of artifacts. */
  datatype Naming = Naming(fact: (nat, I.NodeId, I.MappingId) -> string, artifact: nat -> string)

  /** What the mapping version recorded with a fact makes of it; a trained mapping has one version for everything. */
  function OperationOf(m: I.Mapping, negated: bool): F.Operation {
    if !negated then F.Assign
    else
      match m.behavior
      case ResetToDefault => if m.resets || m.trained then F.Reset else F.Assign
      case RemoveValue => if m.removes then F.Remove else F.Assign
      case _ => F.Assign
  }

  function Read(extraction: I.Extraction): I.Value {
    match extraction case Extracted(value) => value case _ => I.Value("", false)
  }

  function ContentOf(k: I.Knowledge, m: I.Mapping, ir: seq<I.Node>, i: I.NodeId): F.Content
    requires i < |ir|
  {
    var value := Read(k.extract(m, ir, i));
    if !ir[i].statement.negated then F.Typed(value.text)
    else
      match m.behavior
      case ResetToDefault => F.Null
      case InvertBoolean => F.Typed(k.inverted(value).text)
      case _ => F.Typed(value.text)
  }

  function ScopeOf(k: I.Knowledge, m: I.Mapping, ir: seq<I.Node>, i: I.NodeId): Scope {
    match k.scope(m, ir, i) case InScope(scope, _) => scope case NoScope(_) => Scope("", "")
  }

  /** The node the scope was read from, if it was another. */
  function ContextOf(k: I.Knowledge, m: I.Mapping, ir: seq<I.Node>, i: I.NodeId): Option<I.NodeId> {
    match k.scope(m, ir, i) case InScope(_, context) => context case NoScope(_) => None
  }

  function Least(a: nat, b: nat): nat {
    if a < b then a else b
  }

  /** The place the resolver gives a fact: the first line of the node or of its context, whichever is smaller. */
  function PlaceOf(k: I.Knowledge, m: I.Mapping, ir: seq<I.Node>, i: I.NodeId): nat
    requires i < |ir|
  {
    var own, context := ir[i].statement.sourceStart, ContextOf(k, m, ir, i);
    if context.Some? && context.value < |ir| then Least(own, ir[context.value].statement.sourceStart) else own
  }

  function FactOf(
    k: I.Knowledge, pack: seq<I.Mapping>, names: Naming, a: nat, ir: seq<I.Node>, i: I.NodeId, j: I.MappingId): F.Fact
    requires i < |ir| && j < |pack|
  {
    var m := pack[j];
    F.Fact(names.fact(a, i, j), m.field, ScopeOf(k, m, ir, i), ContentOf(k, m, ir, i),
           OperationOf(m, ir[i].statement.negated), names.artifact(a), PlaceOf(k, m, ir, i), [])
  }

  /** The facts of a report are of nodes of its forest and mappings of the pack. */
  predicate FactsInReach(pack: seq<I.Mapping>, e: Evidence) {
    forall x :: 0 <= x < |e.report.facts| ==> e.report.facts[x].0 < |e.ir| && e.report.facts[x].1 < |pack|
  }

  predicate AllInReach(pack: seq<I.Mapping>, evidence: seq<Evidence>) {
    forall a :: 0 <= a < |evidence| ==> FactsInReach(pack, evidence[a])
  }

  function FactsOf(k: I.Knowledge, pack: seq<I.Mapping>, names: Naming, a: nat, e: Evidence): (facts: seq<F.Fact>)
    requires FactsInReach(pack, e)
  {
    seq(|e.report.facts|, x requires 0 <= x < |e.report.facts| =>
      FactOf(k, pack, names, a, e.ir, e.report.facts[x].0, e.report.facts[x].1))
  }

  /** The facts of all artifacts. */
  function AllFacts(k: I.Knowledge, pack: seq<I.Mapping>, names: Naming, evidence: seq<Evidence>): seq<F.Fact>
    requires AllInReach(pack, evidence)
  {
    if evidence == [] then []
    else
      var n := |evidence| - 1;
      AllFacts(k, pack, names, evidence[..n]) + FactsOf(k, pack, names, n, evidence[n])
  }

  lemma InterpretedFactsInReach(k: I.Knowledge, pack: seq<I.Mapping>, evidence: seq<Evidence>)
    requires Interpreted(k, pack, evidence)
    ensures AllInReach(pack, evidence)
  {
    hide I.Reports, I.Explained, I.Consumed, I.IsUnresolved, I.Asserts, I.Negates, I.Matches;
    forall a, x | 0 <= a < |evidence| && 0 <= x < |evidence[a].report.facts|
      ensures evidence[a].report.facts[x].0 < |evidence[a].ir| && evidence[a].report.facts[x].1 < |pack|
    {
      var e := evidence[a];
      var (i, j) := e.report.facts[x];
      assert (i, j) in e.report.facts;
      assert I.MakesFact(k, e.ir, pack, i, j);
    }
  }

  /** The fact is that of a node of the evidence and a mapping that makes a fact of it. */
  ghost predicate Produced(
    k: I.Knowledge, pack: seq<I.Mapping>, names: Naming, evidence: seq<Evidence>, f: F.Fact, a: nat, i: I.NodeId,
    j: I.MappingId)
  {
    && a < |evidence| && I.Forest(evidence[a].ir) && I.MakesFact(k, evidence[a].ir, pack, i, j)
    && i < |evidence[a].ir| && j < |pack| && f == FactOf(k, pack, names, a, evidence[a].ir, i, j)
  }

  /** The facts given to the resolver are exactly those of explained nodes. */
  lemma {:induction false} FactsAreProduced(
    k: I.Knowledge, pack: seq<I.Mapping>, names: Naming, evidence: seq<Evidence>, f: F.Fact)
    requires Interpreted(k, pack, evidence) && AllInReach(pack, evidence)
    ensures f in AllFacts(k, pack, names, evidence) <==>
              exists a: nat, i: I.NodeId, j: I.MappingId :: Produced(k, pack, names, evidence, f, a, i, j)
  {
    hide I.Complete, I.MakesFact, FactOf;
    if evidence != [] {
      var n := |evidence| - 1;
      var init, e := evidence[..n], evidence[n];
      assert forall a :: 0 <= a < n ==> init[a] == evidence[a];
      FactsAreProduced(k, pack, names, init, f);
      forall a: nat, i: I.NodeId, j: I.MappingId
        ensures a < n && Produced(k, pack, names, init, f, a, i, j) ==> Produced(k, pack, names, evidence, f, a, i, j)
        ensures a < n && Produced(k, pack, names, evidence, f, a, i, j) ==> Produced(k, pack, names, init, f, a, i, j)
      {
      }
      if f in FactsOf(k, pack, names, n, e) {
        var i, j := FactHasNode(k, pack, names, n, e, f);
        assert Produced(k, pack, names, evidence, f, n, i, j);
      }
      if i: I.NodeId, j: I.MappingId :| Produced(k, pack, names, evidence, f, n, i, j) {
        NodeHasFact(k, pack, names, n, e, i, j);
      }
    }
  }

  lemma FactHasNode(k: I.Knowledge, pack: seq<I.Mapping>, names: Naming, a: nat, e: Evidence, f: F.Fact)
    returns (i: I.NodeId, j: I.MappingId)
    requires I.Forest(e.ir) && I.Complete(k, e.ir, pack, e.report) && FactsInReach(pack, e)
    requires f in FactsOf(k, pack, names, a, e)
    ensures i < |e.ir| && j < |pack| && I.MakesFact(k, e.ir, pack, i, j)
    ensures f == FactOf(k, pack, names, a, e.ir, i, j)
  {
    hide I.Reports, I.Explained, I.Consumed, I.IsUnresolved, I.Asserts, I.Negates, I.Matches, FactOf;
    var x :| 0 <= x < |e.report.facts| && FactsOf(k, pack, names, a, e)[x] == f;
    i, j := e.report.facts[x].0, e.report.facts[x].1;
    assert (i, j) in e.report.facts;
  }

  lemma NodeHasFact(
    k: I.Knowledge, pack: seq<I.Mapping>, names: Naming, a: nat, e: Evidence, i: I.NodeId, j: I.MappingId)
    requires I.Forest(e.ir) && I.Complete(k, e.ir, pack, e.report) && FactsInReach(pack, e)
    requires i < |e.ir| && j < |pack| && I.MakesFact(k, e.ir, pack, i, j)
    ensures FactOf(k, pack, names, a, e.ir, i, j) in FactsOf(k, pack, names, a, e)
  {
    hide I.Reports, I.Explained, I.Consumed, I.IsUnresolved, I.Asserts, I.Negates, I.Matches, FactOf;
    assert (i, j) in e.report.facts;
    var x :| 0 <= x < |e.report.facts| && e.report.facts[x] == (i, j);
    assert FactsOf(k, pack, names, a, e)[x] == FactOf(k, pack, names, a, e.ir, i, j);
  }

  /** A place is the first line of the statement or of the one its scope was read from, and behind neither. */
  predicate PlacedAt(line: nat, ir: seq<I.Node>, i: I.NodeId, context: Option<I.NodeId>)
    requires i < |ir|
  {
    var own := ir[i].statement.sourceStart;
    if context.None? || context.value >= |ir| then line == own
    else
      var other := ir[context.value].statement.sourceStart;
      line <= own && line <= other && (line == own || line == other)
  }

  /** The fact of a statement says what was extracted from it, in the scope found for it, and where. */
  lemma FactSays(
    k: I.Knowledge, pack: seq<I.Mapping>, names: Naming, a: nat, ir: seq<I.Node>, i: I.NodeId, j: I.MappingId)
    requires I.Forest(ir) && I.MakesFact(k, ir, pack, i, j)
    ensures var f := FactOf(k, pack, names, a, ir, i, j);
            && f.field == pack[j].field && f.dependencies == []
            && f.id == names.fact(a, i, j) && f.artifact == names.artifact(a)
            && exists context ::
                 k.scope(pack[j], ir, i) == I.InScope(f.scope, context) && PlacedAt(f.line, ir, i, context)
    ensures var f := FactOf(k, pack, names, a, ir, i, j);
            !ir[i].statement.negated ==>
              f.operation == F.Assign
              && exists value :: k.extract(pack[j], ir, i) == I.Extracted(value) && f.content == F.Typed(value.text)
  {
    hide I.Matches;
    var f := FactOf(k, pack, names, a, ir, i, j);
    var scoped := k.scope(pack[j], ir, i);
    assert scoped == I.InScope(f.scope, scoped.context) && PlacedAt(f.line, ir, i, scoped.context);
    if !ir[i].statement.negated {
      var extraction := k.extract(pack[j], ir, i);
      assert extraction == I.Extracted(extraction.value);
    }
  }

  // ---------------------------------------------------------------- negated statements

  /** The fact of a negated statement is what the behaviour of its mapping declares. */
  predicate Declared(k: I.Knowledge, m: I.Mapping, ir: seq<I.Node>, i: I.NodeId, f: F.Fact)
    requires i < |ir|
  {
    var value := Read(k.extract(m, ir, i));
    match m.behavior
    case Unsupported => false
    case ResetToDefault => f.operation == F.Reset && f.content == F.Null
    case RemoveValue => f.operation == F.Remove && f.content == F.Typed(value.text)
    case InvertBoolean => f.operation == F.Assign && f.content == F.Typed(k.inverted(value).text)
  }

  /**
   A negated statement keeps its meaning exactly when its mapping has a version to say so: a removal one of its own,
   a reset one of its own or a trained definition.  So a trained mapping never removes.
   */
  lemma NegationKeptIff(
    k: I.Knowledge, pack: seq<I.Mapping>, names: Naming, a: nat, ir: seq<I.Node>, i: I.NodeId, j: I.MappingId)
    requires I.Forest(ir) && I.MakesFact(k, ir, pack, i, j) && ir[i].statement.negated
    ensures Declared(k, pack[j], ir, i, FactOf(k, pack, names, a, ir, i, j)) <==>
              && (pack[j].behavior == I.RemoveValue ==> pack[j].removes)
              && (pack[j].behavior == I.ResetToDefault ==> pack[j].resets || pack[j].trained)
  {
    hide I.Matches;
  }

  /**
   Without that version the removal adds: the value the negated statement takes away is shown as the value of the
   field, and is a member of a collection.
   */
  lemma UnmarkedRemovalAdds(
    k: I.Knowledge, pack: seq<I.Mapping>, names: Naming, a: nat, ir: seq<I.Node>, i: I.NodeId, j: I.MappingId)
    requires I.Forest(ir) && I.MakesFact(k, ir, pack, i, j) && ir[i].statement.negated
    requires pack[j].behavior == I.RemoveValue && !pack[j].removes
    ensures var f := FactOf(k, pack, names, a, ir, i, j);
            var removed := F.Typed(Read(k.extract(pack[j], ir, i)).text);
            && ScalarDraft(f.field, f.scope, [f]).value == Some(F.Single(removed))
            && RepeatableDraft(f.field, f.scope, [f]).value == Some(F.Members([removed]))
  {
    hide I.Matches;
    var f := FactOf(k, pack, names, a, ir, i, j);
    OneFactIsShown(f);
  }

  /** A fact that stands alone and assigns is shown. */
  lemma OneFactIsShown(f: F.Fact)
    requires f.operation == F.Assign
    ensures ScalarDraft(f.field, f.scope, [f]).status == F.Resolved
    ensures ScalarDraft(f.field, f.scope, [f]).value == Some(F.Single(f.content))
    ensures RepeatableDraft(f.field, f.scope, [f]).value == Some(F.Members([f.content]))
  {
    WinnerInArtifact([f]);
    assert OrderedWinner([f]).fact == f;
    hide OrderedWinner, Sources, Inputs, KeptContents, AnyUndecided, MemberEvents, MembersOf;
    OneMember(f);
  }

  lemma OneMember(f: F.Fact)
    requires f.operation == F.Assign
    ensures MembersOf([f]) == [[f]] && NonEmpty([[f]]) && !AnyUndecided([[f]]) && KeptContents([[f]]) == [f.content]
  {
    WinnerInArtifact([f]);
    OneGroup(ContentKey, f);
    assert OrderedWinner([f]).fact == f;
    hide OrderedWinner;
    assert [[f]][..0] == [] && KeptContents([[f]][..0]) == [];
  }

  lemma OneGroup<K>(key: F.Fact -> K, f: F.Fact)
    ensures GroupBy(key, [f]) == [[f]]
  {
    var n := RunLength(key, [f]);
    assert n == 1 && [f][..1] == [f] && [f][1..] == [];
    assert GroupBy(key, [f][1..]) == [];
  }

  // ---------------------------------------------------------------- the order of statements

  /** The draft of a scope from facts of one artifact, one for each listed node and mapping. */
  ghost predicate ReadFrom(
    k: I.Knowledge, pack: seq<I.Mapping>, names: Naming, a: nat, ir: seq<I.Node>, nodes: seq<I.NodeId>,
    mappings: seq<I.MappingId>, items: seq<F.Fact>)
  {
    && |nodes| == |mappings| == |items|
    && forall x :: 0 <= x < |items| ==>
         && nodes[x] < |ir| && mappings[x] < |pack|
         && items[x] == FactOf(k, pack, names, a, ir, nodes[x], mappings[x])
  }

  /**
   Where every statement of the scope takes its scope from one enclosing node, which starts before them, no statement
   is later than another: whatever their order in the text, the draft is conflicting unless they all say the same.
   */
  lemma OneBlockNeverOverrides(
    k: I.Knowledge, pack: seq<I.Mapping>, names: Naming, a: nat, ir: seq<I.Node>, nodes: seq<I.NodeId>,
    mappings: seq<I.MappingId>, items: seq<F.Fact>, field: string, scope: Scope, block: I.NodeId)
    requires ReadFrom(k, pack, names, a, ir, nodes, mappings, items) && items != [] && block < |ir|
    requires forall x :: 0 <= x < |items| ==>
               && ContextOf(k, pack[mappings[x]], ir, nodes[x]) == Some(block)
               && ir[block].statement.sourceStart <= ir[nodes[x]].statement.sourceStart
    ensures ScalarDraft(field, scope, items).status == F.Conflicting <==> !Agree(items)
  {
    hide ContextOf, ContentOf, OperationOf, ScopeOf;
    assert forall x :: 0 <= x < |items| ==> items[x].line == ir[block].statement.sourceStart;
    OnOneLine(field, scope, items);
  }

  lemma OnOneLine(field: string, scope: Scope, items: seq<F.Fact>)
    requires items != [] && OneArtifact(items) && forall x, y :: 0 <= x < y < |items| ==> items[x].line == items[y].line
    ensures ScalarDraft(field, scope, items).status == F.Conflicting <==> !Agree(items)
  {
    WinnerInArtifact(items);
    ScalarConflict(field, scope, items);
    if !Agree(items) {
      var x, y :| 0 <= x < |items| && 0 <= y < |items| && !SameVerdict(items[x], items[y]);
      assert Clash(items, x, y);
    }
  }

  lemma ScalarConflict(field: string, scope: Scope, items: seq<F.Fact>)
    requires items != []
    ensures ScalarDraft(field, scope, items).status == F.Conflicting <==> OrderedWinner(items).conflict
  {
    hide OrderedWinner, Sources, Inputs, Saying, Bounded;
  }

  /**
   Of two facts about one scope that say different things, the second wins exactly when its place is the greater; at
   equal places they conflict.  A statement whose scope is read from no other node is placed where it stands.
   */
  lemma LaterPlaceWinsIff(field: string, scope: Scope, f: F.Fact, g: F.Fact)
    requires f.artifact == g.artifact && !SameVerdict(f, g)
    ensures OrderedWinner([f, g]) == Winner(g, false) <==> f.line < g.line
    ensures ScalarDraft(field, scope, [f, g]).status == F.Conflicting <==> f.line == g.line
  {
    var items := [f, g];
    WinnerInArtifact(items);
    ScalarConflict(field, scope, items);
    assert items[0] == f && items[1] == g;
    if f.line == g.line {
      assert Clash(items, 0, 1);
    }
  }

  // ---------------------------------------------------------------- dependencies

  lemma {:induction false} NoEdges(facts: seq<G.Dependent>)
    requires forall i :: 0 <= i < |facts| ==> facts[i].dependencies == []
    ensures forall id :: id in G.GraphOf(facts) ==> G.GraphOf(facts)[id] == {}
  {
    if facts != [] {
      NoEdges(facts[..|facts| - 1]);
    }
  }

  /** Interpretation gives its facts no dependencies, so the dependency check blocks none of them. */
  lemma InterpretedFactsAreNeverBlocked(k: I.Knowledge, pack: seq<I.Mapping>, names: Naming, evidence: seq<Evidence>)
    requires AllInReach(pack, evidence)
    ensures BlockedIds(AllFacts(k, pack, names, evidence)) == {}
  {
    NoDependencies(k, pack, names, evidence);
    IndependentFactsAreNeverBlocked(AllFacts(k, pack, names, evidence));
  }

  predicate Independent(facts: seq<F.Fact>) {
    forall i :: 0 <= i < |facts| ==> facts[i].dependencies == []
  }

  lemma {:induction false} NoDependencies(
    k: I.Knowledge, pack: seq<I.Mapping>, names: Naming, evidence: seq<Evidence>)
    requires AllInReach(pack, evidence)
    ensures Independent(AllFacts(k, pack, names, evidence))
  {
    hide FactsOf;
    if evidence != [] {
      var n := |evidence| - 1;
      NoDependencies(k, pack, names, evidence[..n]);
      NoneOfOne(k, pack, names, n, evidence[n]);
    }
  }

  lemma NoneOfOne(k: I.Knowledge, pack: seq<I.Mapping>, names: Naming, a: nat, e: Evidence)
    requires FactsInReach(pack, e)
    ensures Independent(FactsOf(k, pack, names, a, e))
  {
  }

  lemma IndependentFactsAreNeverBlocked(facts: seq<F.Fact>)
    requires Independent(facts)
    ensures BlockedIds(facts) == {}
  {
    var ds := Dependents(facts);
    var g := G.GraphOf(ds);
    NoEdges(ds);
    G.GraphKeys(ds);
    forall id | id in G.Ids(ds) ensures !G.Blocked(ds, id) {
      forall p | G.PathFrom(g, id, p) ensures p == [id] {
        var second := G.At(p, 1);
      }
      assert G.Reached(g, id) <= {id};
      G.SubsetIsSmaller(G.Reached(g, id), {id});
      assert |{id}| == 1;
    }
  }

  /** A fact of a known field that stands alone, assigns and is accepted is resolved to its draft. */
  lemma OneFactIsResolved(policy: Policy, reg: Registry, f: F.Fact)
    requires F.Classified(f) && f.dependencies == [] && f.operation == F.Assign && f.scope.kind != "vty_range"
    requires f.field in policy && policy[f.field] == Scalar && AcceptedValue(reg, f.field, f.content, f.scope.kind)
    ensures Resolve(policy, reg, [f]) == Ok([ScalarDraft(f.field, f.scope, [f])])
  {
    hide ScalarDraft, F.Classified, AcceptedValue, BlockedIds, FieldGroups;
    IndependentFactsAreNeverBlocked([f]);
    OneFieldGroup(f);
    var gs: seq<seq<F.Fact>> := [[f]];
    OneFieldDraft(f);
    assert gs[..0] == [] && DraftsOf(policy, gs[..0], {}) == [];
    assert DraftsOf(policy, gs, {}) == [ScalarDraft(f.field, f.scope, [f])];
    OneDraftAccepted(reg, f);
    NoFaultIff(policy, reg, gs, {});
    var d := ScalarDraft(f.field, f.scope, [f]);
    assert Sort(DraftLe, [d]) == [d];
    assert [f][0] == f;
  }

  lemma OneFieldGroup(f: F.Fact)
    ensures FieldGroups([f]) == [[f]]
  {
    assert Sort(FieldScopeIdLe, [f]) == [f];
    OneGroup(FieldOf, f);
  }

  lemma OneFieldDraft(f: F.Fact)
    requires f.scope.kind != "vty_range"
    ensures FieldDrafts(Scalar, f.field, [f], {}) == [ScalarDraft(f.field, f.scope, [f])]
  {
    hide ScalarDraft;
    assert Sort(ScopeIdLe, [f]) == [f];
    OneGroup(ScopeKey, f);
    NobodyIsBlocked([f], {});
    GroupsAreNonEmpty(ScopeKey, [f]);
    assert ScalarField(f.field, [f]) == ScalarDrafts(f.field, [[f]]);
  }

  lemma {:induction false} NobodyIsBlocked(items: seq<F.Fact>, blocked: set<string>)
    requires blocked == {}
    ensures BlockedAmong(items, blocked) == []
  {
    if items != [] {
      NobodyIsBlocked(items[1..], blocked);
    }
  }

  lemma OneDraftAccepted(reg: Registry, f: F.Fact)
    requires f.operation == F.Assign && AcceptedValue(reg, f.field, f.content, f.scope.kind)
    ensures AllAccepted(reg, [ScalarDraft(f.field, f.scope, [f])])
  {
    hide AcceptedValue;
    OneFactIsShown(f);
    ScalarDraftShowsWinner(f.field, f.scope, [f]);
  }
}
