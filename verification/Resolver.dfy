/**
 Resolution of facts into effective-state drafts (backend/app/effective_state/resolver.py).

 The functions say what each step of the source returns; `ResolveRepeatableScope` and
 `ResolveSecurityFacts` are its loops.
 */
module Resolver {
  import opened Common
  import opened Scopes
  import opened Facts
  import opened Ordering
  import opened Replay
  import VtyPartitions
  import FactGraph

  const MAX_TRACE_ENTRIES: nat := 128

  datatype Cardinality = Scalar | Repeatable

  type Policy = map<string, Cardinality>

  datatype ResolveError = MalformedFact | UnknownField | RefusedValue

  /**
   The field registry as validation uses it: which values a field takes in a kind of scope, and the items of a
   value that is a list (an item that is no typed value reads as `None`).
   */
  datatype Registry = Registry(accepts: (string, Content, string) -> bool,
      items: Content -> Option<seq<Option<Content>>>)

  function Bounded(trace: seq<Event>): seq<Event> {
    if |trace| <= MAX_TRACE_ENTRIES then trace else trace[..MAX_TRACE_ENTRIES]
  }

  function Ids(items: seq<Fact>): seq<string> {
    Map((f: Fact) => f.id, items)
  }

  function Sources(items: seq<Fact>): seq<string> {
    Sort(TextLe, Dedupe(Ids(items)))
  }

  function Inputs(items: seq<Fact>): seq<Event> {
    Map((f: Fact) => InputFact(f.id, f.scope.key), items)
  }

  function UnknownDraft(field: string, scope: Scope, sources: seq<string>, trace: seq<Event>, reason: Reason): Draft {
    Draft(field, scope, Unknown, None, sources, Bounded(trace), None, Some(reason))
  }

  function ConflictDraft(field: string, scope: Scope, sources: seq<string>, trace: seq<Event>): Draft {
    Draft(field, scope, Conflicting, None, sources, Bounded(trace), None, Some(ConflictingEvidence))
  }

  function Saying(items: seq<Fact>, c: Content): seq<Fact> {
    Filter((f: Fact) => ValueKey(f.content) == ValueKey(c), items)
  }

  /** `_resolve_scalar_scope`. */
  function ScalarDraft(field: string, scope: Scope, items: seq<Fact>): Draft
    requires items != []
  {
    var w := OrderedWinner(items);
    var trace := Inputs(items);
    if w.conflict then ConflictDraft(field, scope, Sources(items), trace + [ConflictDetected])
    else
      match w.fact.operation
      case Reset => UnknownDraft(field, scope, Sources(items), trace + [DefaultMissing(w.fact.id)], UnresolvedDefault)
      case Remove => UnknownDraft(field, scope, Sources(items), trace + [Unresolved], UnknownSemantics)
      case Assign =>
        var equivalent := Saying(items, w.fact.content);
        var collapsed := if |equivalent| > 1 then [DuplicateCollapsed(Ids(equivalent))] else [];
        Draft(field, scope, Resolved, Some(Single(w.fact.content)), Sources(items),
              Bounded(trace + collapsed + [ExplicitSelected(w.fact.id)]),
              if |items| > 1 then Some(w.fact.id) else None, None)
  }

  function ContentKey(f: Fact): string {
    ValueKey(f.content)
  }

  /** The members of a collection, one group of facts per value. */
  function MembersOf(items: seq<Fact>): seq<seq<Fact>> {
    GroupBy(ContentKey, items)
  }

  predicate Undecided(g: seq<Fact>)
    requires g != []
  {
    OrderedWinner(g).conflict || OrderedWinner(g).fact.operation == Reset
  }

  predicate Kept(g: seq<Fact>)
    requires g != []
  {
    !OrderedWinner(g).conflict && OrderedWinner(g).fact.operation == Assign
  }

  predicate NonEmpty(gs: seq<seq<Fact>>) {
    forall i :: 0 <= i < |gs| ==> gs[i] != []
  }

  predicate AnyUndecided(gs: seq<seq<Fact>>)
    requires NonEmpty(gs)
  {
    exists i :: 0 <= i < |gs| && Undecided(gs[i])
  }

  function KeptContents(gs: seq<seq<Fact>>): seq<Content>
    requires NonEmpty(gs)
  {
    if gs == [] then []
    else
      var init, g := gs[..|gs| - 1], gs[|gs| - 1];
      KeptContents(init) + if Kept(g) then [OrderedWinner(g).fact.content] else []
  }

  function MemberEvents(gs: seq<seq<Fact>>): seq<Event>
    requires NonEmpty(gs)
  {
    if gs == [] then []
    else
      var init, w := gs[..|gs| - 1], OrderedWinner(gs[|gs| - 1]);
      MemberEvents(init) +
      if w.conflict then []
      else
        match w.fact.operation
        case Assign => [MemberAdded(w.fact.id)]
        case Remove => [MemberRemoved(w.fact.id)]
        case Reset => []
  }

  lemma {:induction false} GroupsAreNonEmpty<K>(key: Fact -> K, items: seq<Fact>)
    ensures NonEmpty(GroupBy(key, items))
  {
    if items != [] {
      GroupsAreNonEmpty(key, items[RunLength(key, items)..]);
    }
  }

  /** One scope of `_resolve_repeatable_field`; `items` are sorted by value key. */
  function RepeatableDraft(field: string, scope: Scope, items: seq<Fact>): Draft {
    GroupsAreNonEmpty(ContentKey, items);
    var gs := MembersOf(items);
    var trace := Inputs(items) + MemberEvents(gs);
    if AnyUndecided(gs) then ConflictDraft(field, scope, Sources(items), trace + [ConflictDetected])
    else
      Draft(field, scope, Resolved, Some(Members(KeptContents(gs))), Sources(items), Bounded(trace), None, None)
  }

  /** The loop over the members of one scope. */
  method ResolveRepeatableScope(field: string, scope: Scope, items: seq<Fact>) returns (draft: Draft)
    ensures draft == RepeatableDraft(field, scope, items)
  {
    hide OrderedWinner, Sources, Inputs;
    GroupsAreNonEmpty(ContentKey, items);
    var members := MembersOf(items);
    var trace := Inputs(items);
    var values: seq<Content> := [];
    var conflict := false;
    for i := 0 to |members|
      invariant values == KeptContents(members[..i])
      invariant trace == Inputs(items) + MemberEvents(members[..i])
      invariant conflict == AnyUndecided(members[..i])
    {
      var w := OrderedWinner(members[i]);
      assert members[..i + 1][..i] == members[..i];
      conflict := conflict || w.conflict;
      if !w.conflict {
        match w.fact.operation {
          case Assign =>
            values := values + [w.fact.content];
            trace := trace + [MemberAdded(w.fact.id)];
          case Remove => trace := trace + [MemberRemoved(w.fact.id)];
          case Reset => conflict := true;
        }
      }
      AnyUndecidedSnoc(members[..i + 1]);
    }
    assert members[..|members|] == members;
    if conflict {
      return ConflictDraft(field, scope, Sources(items), trace + [ConflictDetected]);
    }
    return Draft(field, scope, Resolved, Some(Members(values)), Sources(items), Bounded(trace), None, None);
  }

  lemma AnyUndecidedSnoc(gs: seq<seq<Fact>>)
    requires NonEmpty(gs) && gs != []
    ensures AnyUndecided(gs) <==> AnyUndecided(gs[..|gs| - 1]) || Undecided(gs[|gs| - 1])
  {
    var init := gs[..|gs| - 1];
    assert forall i :: 0 <= i < |init| ==> init[i] == gs[i];
  }

  // ---------------------------------------------------------------- fields

  function ScopeKey(f: Fact): seq<string> {
    [f.scope.kind, f.scope.key]
  }

  predicate ScopeIdLe(a: Fact, b: Fact) {
    KeyLe(ScopeKey(a) + [a.id], ScopeKey(b) + [b.id])
  }

  predicate ScopeValueLe(a: Fact, b: Fact) {
    KeyLe(ScopeKey(a) + [ContentKey(a)], ScopeKey(b) + [ContentKey(b)])
  }

  predicate FieldScopeIdLe(a: Fact, b: Fact) {
    KeyLe([a.field] + ScopeKey(a) + [a.id], [b.field] + ScopeKey(b) + [b.id])
  }

  predicate DraftLe(a: Draft, b: Draft) {
    KeyLe([a.field, a.scope.kind, a.scope.key], [b.field, b.scope.kind, b.scope.key])
  }

  function PieceScope(p: VtyPartitions.Piece): Scope {
    Scope("vty_range", if 0 <= p.start && 0 <= p.end then VtyKey(p.start, p.end) else "")
  }

  function ScalarDrafts(field: string, gs: seq<seq<Fact>>): seq<Draft>
    requires NonEmpty(gs)
  {
    seq(|gs|, i requires 0 <= i < |gs| => ScalarDraft(field, gs[i][0].scope, gs[i]))
  }

  function SweptDrafts(field: string, ps: seq<VtyPartitions.Piece>): seq<Draft>
    requires forall i :: 0 <= i < |ps| ==> ps[i].applicable != []
  {
    seq(|ps|, i requires 0 <= i < |ps| => ScalarDraft(field, PieceScope(ps[i]), ps[i].applicable))
  }

  function RepeatableDrafts(field: string, gs: seq<seq<Fact>>): seq<Draft>
    requires NonEmpty(gs)
  {
    seq(|gs|, i requires 0 <= i < |gs| => RepeatableDraft(field, gs[i][0].scope, gs[i]))
  }

  lemma {:induction false} PiecesAreNonEmpty(facts: seq<Fact>, bs: seq<int>)
    ensures forall i :: 0 <= i < |VtyPartitions.PiecesBetween(facts, bs)| ==>
              VtyPartitions.PiecesBetween(facts, bs)[i].applicable != []
  {
    if |bs| >= 2 {
      PiecesAreNonEmpty(facts, bs[1..]);
    }
  }

  /** `_resolve_scalar_field`: the sweep is used when the first fact is a VTY fact. */
  function ScalarField(field: string, facts: seq<Fact>): seq<Draft> {
    if facts == [] then []
    else if facts[0].scope.kind != "vty_range" then
      GroupsAreNonEmpty(ScopeKey, Sort(ScopeIdLe, facts));
      ScalarDrafts(field, GroupBy(ScopeKey, Sort(ScopeIdLe, facts)))
    else
      PiecesAreNonEmpty(facts, VtyPartitions.Boundaries(facts));
      SweptDrafts(field, VtyPartitions.Partition(facts))
  }

  /** `_resolve_repeatable_field`. */
  function RepeatableField(field: string, facts: seq<Fact>): seq<Draft> {
    GroupsAreNonEmpty(ScopeKey, Sort(ScopeValueLe, facts));
    RepeatableDrafts(field, GroupBy(ScopeKey, Sort(ScopeValueLe, facts)))
  }

  function BlockedField(field: string, blocked: seq<Fact>): seq<Draft> {
    var scopes := Dedupe(Map((f: Fact) => f.scope, blocked));
    var trace := Map((f: Fact) => DependencyMissing(f.id), blocked);
    Map((s: Scope) => UnknownDraft(field, s, Sources(blocked), trace, MissingEvidence), scopes)
  }

  function BlockedAmong(items: seq<Fact>, blocked: set<string>): seq<Fact> {
    Filter((f: Fact) => f.id in blocked, items)
  }

  function FieldDrafts(cardinality: Cardinality, field: string, items: seq<Fact>, blocked: set<string>): seq<Draft> {
    var stuck := BlockedAmong(items, blocked);
    if stuck != [] then BlockedField(field, stuck)
    else if cardinality == Scalar then ScalarField(field, items)
    else RepeatableField(field, items)
  }

  function Dependents(facts: seq<Fact>): seq<FactGraph.Dependent> {
    Map((f: Fact) => FactGraph.Dependent(f.id, f.dependencies), facts)
  }

  ghost function BlockedIds(facts: seq<Fact>): set<string> {
    set id | id in FactGraph.Ids(Dependents(facts)) && FactGraph.Blocked(Dependents(facts), id)
  }

  function FieldOf(f: Fact): string {
    f.field
  }

  function FieldGroups(facts: seq<Fact>): seq<seq<Fact>> {
    GroupBy(FieldOf, Sort(FieldScopeIdLe, facts))
  }

  lemma FieldGroupsAreNonEmpty(facts: seq<Fact>)
    ensures NonEmpty(FieldGroups(facts))
  {
    GroupsAreNonEmpty(FieldOf, Sort(FieldScopeIdLe, facts));
  }

  predicate KnownFields(policy: Policy, gs: seq<seq<Fact>>) {
    NonEmpty(gs) && forall i :: 0 <= i < |gs| ==> gs[i][0].field in policy
  }

  function DraftsOf(policy: Policy, gs: seq<seq<Fact>>, blocked: set<string>): seq<Draft>
    requires KnownFields(policy, gs)
  {
    if gs == [] then []
    else
      var init, g := gs[..|gs| - 1], gs[|gs| - 1];
      DraftsOf(policy, init, blocked) + FieldDrafts(policy[g[0].field], g[0].field, g, blocked)
  }

  // ---------------------------------------------------------------- values the registry refuses

  /** A list is taken item by item. */
  predicate AcceptedValue(reg: Registry, field: string, c: Content, kind: string) {
    match reg.items(c)
    case None => reg.accepts(field, c, kind)
    case Some(items) => forall i :: 0 <= i < |items| ==> items[i].Some? && reg.accepts(field, items[i].value, kind)
  }

  predicate Accepted(reg: Registry, d: Draft) {
    match d.value
    case None => true
    case Some(Single(c)) => AcceptedValue(reg, d.field, c, d.scope.kind)
    case Some(Members(cs)) => forall i :: 0 <= i < |cs| ==> reg.accepts(d.field, cs[i], d.scope.kind)
  }

  predicate AllAccepted(reg: Registry, ds: seq<Draft>) {
    forall i :: 0 <= i < |ds| ==> Accepted(reg, ds[i])
  }

  /** What the first group that cannot be resolved fails with. */
  function FirstFault(policy: Policy, reg: Registry, gs: seq<seq<Fact>>, blocked: set<string>): Option<ResolveError>
    requires NonEmpty(gs)
  {
    if gs == [] then None
    else
      var init, g := gs[..|gs| - 1], gs[|gs| - 1];
      var before := FirstFault(policy, reg, init, blocked);
      if before.Some? then before
      else if g[0].field !in policy then Some(UnknownField)
      else if !AllAccepted(reg, FieldDrafts(policy[g[0].field], g[0].field, g, blocked)) then Some(RefusedValue)
      else None
  }

  /** No fault means that every field is known and every draft is accepted. */
  lemma {:induction false} NoFaultIff(policy: Policy, reg: Registry, gs: seq<seq<Fact>>, blocked: set<string>)
    requires NonEmpty(gs)
    ensures FirstFault(policy, reg, gs, blocked) == None <==>
              KnownFields(policy, gs) && AllAccepted(reg, DraftsOf(policy, gs, blocked))
  {
    hide FieldDrafts, Accepted;
    if gs != [] {
      var init, g := gs[..|gs| - 1], gs[|gs| - 1];
      NoFaultIff(policy, reg, init, blocked);
      assert forall i :: 0 <= i < |init| ==> init[i] == gs[i];
      assert KnownFields(policy, gs) <==> KnownFields(policy, init) && g[0].field in policy;
      if KnownFields(policy, gs) {
        AcceptedTogether(reg, DraftsOf(policy, init, blocked), FieldDrafts(policy[g[0].field], g[0].field, g, blocked));
      }
    }
  }

  lemma AcceptedTogether(reg: Registry, a: seq<Draft>, b: seq<Draft>)
    ensures AllAccepted(reg, a + b) <==> AllAccepted(reg, a) && AllAccepted(reg, b)
  {
    hide Accepted;
    assert forall i :: 0 <= i < |a| ==> (a + b)[i] == a[i];
    assert forall i :: 0 <= i < |b| ==> (a + b)[|a| + i] == b[i];
  }

  /** `resolve_security_facts` from facts with well-formed evidence. */
  ghost function Resolve(policy: Policy, reg: Registry, facts: seq<Fact>): Result<seq<Draft>, ResolveError> {
    FieldGroupsAreNonEmpty(facts);
    if exists i :: 0 <= i < |facts| && !Classified(facts[i]) then Err(MalformedFact)
    else
      NoFaultIff(policy, reg, FieldGroups(facts), BlockedIds(facts));
      match FirstFault(policy, reg, FieldGroups(facts), BlockedIds(facts))
      case Some(error) => Err(error)
      case None => Ok(Sort(DraftLe, DraftsOf(policy, FieldGroups(facts), BlockedIds(facts))))
  }

  method ResolveRepeatableField(field: string, facts: seq<Fact>) returns (results: seq<Draft>)
    ensures results == RepeatableField(field, facts)
  {
    hide RepeatableDraft;
    var scopes: seq<seq<Fact>> := GroupBy(ScopeKey, Sort(ScopeValueLe, facts));
    GroupsAreNonEmpty(ScopeKey, Sort(ScopeValueLe, facts));
    results := [];
    for k := 0 to |scopes|
      invariant |results| == k
      invariant forall i :: 0 <= i < k ==> results[i] == RepeatableDraft(field, scopes[i][0].scope, scopes[i])
    {
      var draft := ResolveRepeatableScope(field, scopes[k][0].scope, scopes[k]);
      results := results + [draft];
    }
  }

  method ResolveField(cardinality: Cardinality, field: string, items: seq<Fact>, blocked: set<string>)
    returns (drafts: seq<Draft>)
    ensures drafts == FieldDrafts(cardinality, field, items, blocked)
  {
    hide BlockedField, ScalarField, RepeatableField, BlockedAmong;
    var stuck := BlockedAmong(items, blocked);
    if stuck != [] {
      drafts := BlockedField(field, stuck);
    } else if cardinality == Scalar {
      drafts := ScalarField(field, items);
    } else {
      drafts := ResolveRepeatableField(field, items);
    }
  }

  /** Every draft is validated as it is made; the first that is not accepted ends the call. */
  method ResolveSecurityFacts(policy: Policy, reg: Registry, facts: seq<Fact>)
    returns (r: Result<seq<Draft>, ResolveError>)
    ensures r == Resolve(policy, reg, facts)
  {
    hide FieldGroups, FieldDrafts, Classified, Accepted;
    var blocked := FactGraph.BlockedDependencyIds(Dependents(facts));
    assert blocked == BlockedIds(facts) by {
      BlockedAreIds(Dependents(facts));
    }
    if exists i :: 0 <= i < |facts| && !Classified(facts[i]) {
      return Err(MalformedFact);
    }
    var groups := FieldGroups(facts);
    FieldGroupsAreNonEmpty(facts);
    var drafts: seq<Draft> := [];
    for i := 0 to |groups|
      invariant FirstFault(policy, reg, groups[..i], blocked) == None && KnownFields(policy, groups[..i])
      invariant drafts == DraftsOf(policy, groups[..i], blocked)
    {
      var field := groups[i][0].field;
      var group := groups[i];
      assert groups[..i + 1][..i] == groups[..i];
      FaultStays(policy, reg, groups, i + 1, blocked);
      if field !in policy {
        return Err(UnknownField);
      }
      var here := ResolveField(policy[field], field, group, blocked);
      if exists d :: 0 <= d < |here| && !Accepted(reg, here[d]) {
        return Err(RefusedValue);
      }
      drafts := drafts + here;
    }
    assert groups[..|groups|] == groups;
    return Ok(Sort(DraftLe, drafts));
  }

  /** A fault among the first groups is the fault of all. */
  lemma {:induction false} FaultStays(policy: Policy, reg: Registry, gs: seq<seq<Fact>>, n: nat, blocked: set<string>)
    requires NonEmpty(gs) && n <= |gs|
    ensures FirstFault(policy, reg, gs[..n], blocked).Some? ==>
              FirstFault(policy, reg, gs, blocked) == FirstFault(policy, reg, gs[..n], blocked)
    decreases |gs| - n
  {
    hide FieldDrafts;
    if n == |gs| {
      assert gs[..n] == gs;
    } else {
      assert gs[..n + 1][..n] == gs[..n];
      FaultStays(policy, reg, gs, n + 1, blocked);
    }
  }

  lemma BlockedAreIds(facts: seq<FactGraph.Dependent>)
    ensures forall id :: FactGraph.Blocked(facts, id) ==> id in FactGraph.Ids(facts)
  {
  }

  // ---------------------------------------------------------------- order of the facts

  /** A permutation of the facts resolves to the same drafts, traces and winners included. */
  lemma ResolutionForgetsOrder(policy: Policy, reg: Registry, facts: seq<Fact>, facts': seq<Fact>)
    requires DistinctIds(facts) && multiset(facts) == multiset(facts')
    ensures Resolve(policy, reg, facts) == Resolve(policy, reg, facts')
  {
    ScheduleMembers(facts', facts);
    assert DistinctIds(facts') by { PermutedIds(facts, facts'); }
    FieldOrder();
    forall x, y | x in facts && y in facts && FieldScopeIdLe(x, y) && FieldScopeIdLe(y, x)
      ensures x == y
    {
      KeyOrder();
      var a, b := [x.field] + ScopeKey(x) + [x.id], [y.field] + ScopeKey(y) + [y.id];
      assert a == b && a[3] == x.id && b[3] == y.id;
    }
    SortForgetsOrder(FieldScopeIdLe, facts, facts');
    SameBlocked(facts, facts');
    if i :| 0 <= i < |facts| && !Classified(facts[i]) {
      assert facts[i] in facts';
    }
    if i :| 0 <= i < |facts'| && !Classified(facts'[i]) {
      assert facts'[i] in facts;
    }
  }

  lemma FieldOrder()
    ensures Total(FieldScopeIdLe)
  {
    hide KeyLe;
    KeyOrder();
  }

  lemma ScopeOrders()
    ensures Total(ScopeIdLe) && Total(ScopeValueLe)
  {
    hide KeyLe;
    KeyOrder();
  }

  lemma DraftOrder()
    ensures Total(DraftLe)
  {
    hide KeyLe;
    KeyOrder();
  }

  lemma PermutedIds(facts: seq<Fact>, facts': seq<Fact>)
    requires DistinctIds(facts) && multiset(facts) == multiset(facts')
    ensures DistinctIds(facts')
  {
    ScheduleMembers(facts', facts);
    SameMultisetNoRepeats(facts, facts');
    forall i, j | 0 <= i < j < |facts'|
      ensures facts'[i].id != facts'[j].id
    {
      assert facts'[i] in facts && facts'[j] in facts;
      var a :| 0 <= a < |facts| && facts[a] == facts'[i];
      var b :| 0 <= b < |facts| && facts[b] == facts'[j];
      assert a != b;
    }
  }

  lemma SameBlocked(facts: seq<Fact>, facts': seq<Fact>)
    requires DistinctIds(facts) && DistinctIds(facts') && forall f :: f in facts <==> f in facts'
    ensures BlockedIds(facts) == BlockedIds(facts')
  {
    var ds, ds' := Dependents(facts), Dependents(facts');
    forall d
      ensures d in ds <==> d in ds'
    {
      if d in ds {
        var i :| 0 <= i < |ds| && ds[i] == d;
        assert facts[i] in facts';
        var j :| 0 <= j < |facts'| && facts'[j] == facts[i];
        assert ds'[j] == d;
      }
      if d in ds' {
        var i :| 0 <= i < |ds'| && ds'[i] == d;
        assert facts'[i] in facts;
        var j :| 0 <= j < |facts| && facts[j] == facts'[i];
        assert ds[j] == d;
      }
    }
    forall id
      ensures id in BlockedIds(facts) <==> id in BlockedIds(facts')
    {
      FactGraph.BlockedIsOrderFree(ds, ds', id);
      BlockedAreIds(ds);
      BlockedAreIds(ds');
    }
  }
}
