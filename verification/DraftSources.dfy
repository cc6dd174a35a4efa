/**
 Where the value of a resolved draft comes from (backend/app/effective_state/resolver.py:37-64, 130-212): a fact of
 the field, within whose scope the draft lies.
 */
module DraftSources {
  import opened Common
  import opened Scopes
  import opened Facts
  import opened Ordering
  import opened Replay
  import opened Resolver
  import opened Resolution
  import opened Drafts
  import VtyPartitions

  /** One scope is the other, or a range of lines inside it. */
  predicate ScopeWithin(inner: Scope, outer: Scope) {
    || inner == outer
    || (&& inner.kind == "vty_range" && outer.kind == "vty_range"
        && VtyBounds(inner.key).Some? && VtyBounds(outer.key).Some?
        && VtyBounds(outer.key).value.0 <= VtyBounds(inner.key).value.0
        && VtyBounds(inner.key).value.1 <= VtyBounds(outer.key).value.1)
  }

  /** The draft cites the fact and lies in its scope; on a scalar field it shows what the fact assigns. */
  predicate Rests(cardinality: Cardinality, d: Draft, f: Fact) {
    && f.field == d.field && f.id in d.sources && ScopeWithin(d.scope, f.scope)
    && (cardinality == Scalar ==> f.operation == Assign && d.value == Some(Single(f.content)))
  }

  predicate Sourced(cardinality: Cardinality, d: Draft, facts: seq<Fact>) {
    d.status == Resolved ==> exists i :: 0 <= i < |facts| && Rests(cardinality, d, facts[i])
  }

  predicate AllSourced(cardinality: Cardinality, ds: seq<Draft>, facts: seq<Fact>) {
    forall i :: 0 <= i < |ds| ==> Sourced(cardinality, ds[i], facts)
  }

  lemma SourcedBy(cardinality: Cardinality, d: Draft, facts: seq<Fact>, f: Fact)
    requires f in facts && Rests(cardinality, d, f)
    ensures Sourced(cardinality, d, facts)
  {
    var i :| 0 <= i < |facts| && facts[i] == f;
  }

  lemma ScalarDraftShowsWinner(field: string, scope: Scope, items: seq<Fact>)
    requires items != []
    ensures var d, w := ScalarDraft(field, scope, items), OrderedWinner(items).fact;
            && d.field == field && d.scope == scope && d.sources == Sources(items)
            && (d.status == Resolved ==> w.operation == Assign && d.value == Some(Single(w.content)))
  {
    hide OrderedWinner, Sources, Inputs, Saying, Bounded;
  }

  lemma ScalarDraftSourced(field: string, scope: Scope, items: seq<Fact>, facts: seq<Fact>)
    requires items != [] && forall f :: f in items ==> f in facts && f.field == field && ScopeWithin(scope, f.scope)
    ensures Sourced(Scalar, ScalarDraft(field, scope, items), facts)
  {
    hide OrderedWinner, ScalarDraft, Sources, ScopeWithin, Sourced;
    var d, w := ScalarDraft(field, scope, items), OrderedWinner(items).fact;
    WinnerIsMember(items);
    SourcesAreIds(items);
    ScalarDraftShowsWinner(field, scope, items);
    if d.status == Resolved {
      SourcedBy(Scalar, d, facts, w);
    } else {
      Unresolved(Scalar, d, facts);
    }
  }

  lemma Unresolved(cardinality: Cardinality, d: Draft, facts: seq<Fact>)
    requires d.status != Resolved
    ensures Sourced(cardinality, d, facts)
  {
  }

  lemma RepeatableDraftSourced(field: string, scope: Scope, items: seq<Fact>, facts: seq<Fact>)
    requires items != [] && forall f :: f in items ==> f in facts && f.field == field && ScopeWithin(scope, f.scope)
    ensures Sourced(Repeatable, RepeatableDraft(field, scope, items), facts)
  {
    hide Sources, Inputs, Bounded, AnyUndecided, KeptContents, MemberEvents, MembersOf, ScopeWithin, Sourced;
    SourcesAreIds(items);
    assert items[0] in items;
    SourcedBy(Repeatable, RepeatableDraft(field, scope, items), facts, items[0]);
  }

  lemma PieceWithin(facts: seq<Fact>, i: nat, f: Fact)
    requires facts != [] && forall i :: 0 <= i < |facts| ==> VtyPartitions.IsVty(facts[i])
    requires i < |VtyPartitions.Partition(facts)| && f in VtyPartitions.Partition(facts)[i].applicable
    ensures f in facts && ScopeWithin(PieceScope(VtyPartitions.Partition(facts)[i]), f.scope)
  {
    hide ScalarField, ScalarDraft, VtyPartitions.Partition, VtyPartitions.On, VtyBounds;
    var p := VtyPartitions.Partition(facts)[i];
    VtyPartitions.SweepIsLineByLine(facts);
    SweptScope("", facts, i);
    VtyPartitions.OnMember(facts, p.start, f);
    VtyPartitions.OnMember(facts, p.end, f);
    var k :| 0 <= k < |facts| && facts[k] == f;
  }

  lemma SweptSourced(field: string, facts: seq<Fact>)
    requires facts != [] && forall f :: f in facts ==> VtyPartitions.IsVty(f) && f.field == field
    ensures AllSourced(Scalar, ScalarField(field, facts), facts)
  {
    hide ScalarDraft, ScalarField, VtyPartitions.Partition, VtyBounds, ValidScope, VtyPartitions.On;
    hide Sourced, ScopeWithin;
    assert forall i :: 0 <= i < |facts| ==> facts[i] in facts;
    var ps, ds := VtyPartitions.Partition(facts), ScalarField(field, facts);
    SweptField(field, facts);
    forall i | 0 <= i < |ds| ensures Sourced(Scalar, ds[i], facts) {
      forall f | f in ps[i].applicable ensures f in facts && ScopeWithin(PieceScope(ps[i]), f.scope) {
        PieceWithin(facts, i, f);
      }
      ScalarDraftSourced(field, PieceScope(ps[i]), ps[i].applicable, facts);
    }
  }

  lemma ScalarGroupsSourced(field: string, facts: seq<Fact>)
    requires facts != [] && facts[0].scope.kind != "vty_range" && forall f :: f in facts ==> f.field == field
    ensures AllSourced(Scalar, ScalarField(field, facts), facts)
  {
    hide ScalarDraft, Sort, GroupBy, ScopeSorted, Sourced;
    var gs: seq<seq<Fact>> := GroupBy(ScopeKey, Sort(ScopeIdLe, facts));
    SortedScopeFirst(facts);
    ScopeGroups(facts, Sort(ScopeIdLe, facts));
    forall i | 0 <= i < |gs| ensures Sourced(Scalar, ScalarDraft(field, gs[i][0].scope, gs[i]), facts) {
      ScalarDraftSourced(field, gs[i][0].scope, gs[i], facts);
    }
  }

  lemma RepeatableGroupsSourced(field: string, facts: seq<Fact>)
    requires forall f :: f in facts ==> f.field == field
    ensures AllSourced(Repeatable, RepeatableField(field, facts), facts)
  {
    hide RepeatableDraft, Sort, GroupBy, ScopeSorted, Sourced;
    var gs: seq<seq<Fact>> := GroupBy(ScopeKey, Sort(ScopeValueLe, facts));
    SortedScopeThenValue(facts);
    ScopeGroups(facts, Sort(ScopeValueLe, facts));
    forall i | 0 <= i < |gs| ensures Sourced(Repeatable, RepeatableDraft(field, gs[i][0].scope, gs[i]), facts) {
      RepeatableDraftSourced(field, gs[i][0].scope, gs[i], facts);
    }
  }

  lemma FieldSourced(cardinality: Cardinality, field: string, items: seq<Fact>, blocked: set<string>)
    requires items != [] && Sorted(FieldScopeIdLe, items)
    requires forall f :: f in items ==> ValidScope(f.scope) && f.field == field
    ensures AllSourced(cardinality, FieldDrafts(cardinality, field, items, blocked), items)
  {
    hide ScalarField, RepeatableField, ValidScope, Rests;
    if BlockedAmong(items, blocked) == [] {
      if cardinality == Repeatable {
        RepeatableGroupsSourced(field, items);
      } else if items[0].scope.kind == "vty_range" {
        assert items[0] in items;
        VtyFirstMeansVtyOnly(items);
        SweptSourced(field, items);
      } else {
        ScalarGroupsSourced(field, items);
      }
    }
  }

  /** Every draft is sourced in the facts, by the cardinality of its field. */
  ghost predicate EverySourced(policy: Policy, ds: seq<Draft>, facts: seq<Fact>) {
    forall i :: 0 <= i < |ds| ==> ds[i].field in policy && Sourced(policy[ds[i].field], ds[i], facts)
  }

  lemma SourcedAmongMore(cardinality: Cardinality, d: Draft, items: seq<Fact>, facts: seq<Fact>)
    requires Sourced(cardinality, d, items) && forall f :: f in items ==> f in facts
    ensures Sourced(cardinality, d, facts)
  {
    hide Rests;
    if d.status == Resolved {
      var i :| 0 <= i < |items| && Rests(cardinality, d, items[i]);
      SourcedBy(cardinality, d, facts, items[i]);
    }
  }

  lemma {:induction false} GroupsSourced(policy: Policy, gs: seq<seq<Fact>>, blocked: set<string>, facts: seq<Fact>)
    requires KnownFields(policy, gs) && FieldsApart(gs) && forall i, f :: 0 <= i < |gs| && f in gs[i] ==> f in facts
    ensures EverySourced(policy, DraftsOf(policy, gs, blocked), facts)
  {
    hide FieldDrafts, Sourced, ValidScope, FieldOk, BlockedAmong;
    if gs != [] {
      var init, g := gs[..|gs| - 1], gs[|gs| - 1];
      assert forall i :: 0 <= i < |init| ==> init[i] == gs[i];
      GroupsSourced(policy, init, blocked, facts);
      var field := g[0].field;
      var here := FieldDrafts(policy[field], field, g, blocked);
      FieldSourced(policy[field], field, g, blocked);
      FieldIsOk(policy[field], field, g, blocked);
      FieldOfDrafts(here, field, if BlockedAmong(g, blocked) == [] then g else BlockedAmong(g, blocked));
      forall i | 0 <= i < |here| ensures here[i].field in policy && Sourced(policy[here[i].field], here[i], facts) {
        SourcedAmongMore(policy[field], here[i], g, facts);
      }
    }
  }

  lemma FieldOfDrafts(ds: seq<Draft>, field: string, cited: seq<Fact>)
    requires FieldOk(ds, field, cited)
    ensures forall i :: 0 <= i < |ds| ==> ds[i].field == field
  {
  }

  /** Every resolved draft of a resolution rests on one of its facts. */
  lemma ResolvedDraftsRestOnFacts(policy: Policy, reg: Registry, facts: seq<Fact>)
    requires Resolve(policy, reg, facts).Ok?
    ensures EverySourced(policy, Resolve(policy, reg, facts).value, facts)
  {
    hide FieldGroups, DraftsOf, ValidScope, BlockedIds, AllAccepted, Sourced, DraftLe, FieldsApart, Classified;
    forall f | f in facts ensures ValidScope(f.scope) {
      var i :| 0 <= i < |facts| && facts[i] == f;
      assert Classified(facts[i]);
      ClassifiedScope(f);
    }
    var gs, blocked := FieldGroups(facts), BlockedIds(facts);
    FieldGroupsApart(facts);
    FieldGroupsAreNonEmpty(facts);
    NoFaultIff(policy, reg, gs, blocked);
    GroupsSourced(policy, gs, blocked, facts);
    var raw, ds := DraftsOf(policy, gs, blocked), Resolve(policy, reg, facts).value;
    SortMembers(DraftLe, raw);
    forall i | 0 <= i < |ds| ensures ds[i].field in policy && Sourced(policy[ds[i].field], ds[i], facts) {
      assert ds[i] in raw;
      var k :| 0 <= k < |raw| && raw[k] == ds[i];
    }
  }
}
