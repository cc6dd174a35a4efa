/**
 When the field registry refuses a draft (backend/app/effective_state/models.py:113-123,
 backend/app/effective_state/service.py:68-80): never, if it takes the values of the facts.
 */
module Acceptance {
  import opened Common
  import opened Scopes
  import opened Facts
  import opened Ordering
  import opened Replay
  import opened Resolver
  import opened Resolution
  import opened Drafts
  import VtyPartitions

  /** The field takes what the fact assigns, as it would be drafted. */
  predicate Fits(cardinality: Cardinality, reg: Registry, f: Fact) {
    f.operation == Assign ==>
      if cardinality == Scalar then AcceptedValue(reg, f.field, f.content, f.scope.kind)
      else reg.accepts(f.field, f.content, f.scope.kind)
  }

  /** The check the service makes of every fact: a null is only for a reset, any other value must be accepted. */
  predicate Validated(reg: Registry, f: Fact) {
    if f.content == Null then f.operation == Reset else reg.accepts(f.field, f.content, f.scope.kind)
  }

  /** No field takes a list. */
  ghost predicate NoListFields(reg: Registry) {
    forall field, c, kind :: reg.accepts(field, c, kind) ==> reg.items(c) == None
  }

  lemma ScalarDraftAccepted(reg: Registry, field: string, scope: Scope, items: seq<Fact>)
    requires items != []
    requires forall f :: f in items && f.operation == Assign ==> AcceptedValue(reg, field, f.content, scope.kind)
    ensures Accepted(reg, ScalarDraft(field, scope, items))
  {
    hide OrderedWinner, AcceptedValue, Sources, Inputs, Saying, Bounded;
    WinnerIsMember(items);
  }

  lemma {:induction false} KeptAreAssigned(gs: seq<seq<Fact>>, items: seq<Fact>, c: Content)
    requires NonEmpty(gs) && forall i, f :: 0 <= i < |gs| && f in gs[i] ==> f in items
    requires c in KeptContents(gs)
    ensures exists f :: f in items && f.operation == Assign && f.content == c
  {
    hide OrderedWinner;
    var init, g := gs[..|gs| - 1], gs[|gs| - 1];
    assert forall i :: 0 <= i < |init| ==> init[i] == gs[i];
    if c in KeptContents(init) {
      KeptAreAssigned(init, items, c);
    } else {
      WinnerIsMember(g);
    }
  }

  lemma {:induction false} GroupedAreItems<K>(key: Fact -> K, items: seq<Fact>)
    ensures forall i, f :: 0 <= i < |GroupBy(key, items)| && f in GroupBy(key, items)[i] ==> f in items
  {
    if items != [] {
      var n := RunLength(key, items);
      GroupedAreItems(key, items[n..]);
      forall i, f | 0 <= i < |GroupBy(key, items)| && f in GroupBy(key, items)[i] ensures f in items {
        if i == 0 {
          assert f in items[..n];
        } else {
          assert f in GroupBy(key, items[n..])[i - 1];
          assert f in items[n..];
        }
      }
    }
  }

  lemma RepeatableDraftAccepted(reg: Registry, field: string, scope: Scope, items: seq<Fact>)
    requires forall f :: f in items && f.operation == Assign ==> reg.accepts(field, f.content, scope.kind)
    ensures Accepted(reg, RepeatableDraft(field, scope, items))
  {
    hide Sources, Inputs, Bounded, AnyUndecided, KeptContents, MemberEvents, GroupBy;
    GroupsAreNonEmpty(ContentKey, items);
    GroupedAreItems(ContentKey, items);
    forall c | c in KeptContents(MembersOf(items)) ensures reg.accepts(field, c, scope.kind) {
      KeptAreAssigned(MembersOf(items), items, c);
    }
  }

  /** Pieces of swept ranges are VTY scopes like those of the facts on them. */
  lemma SweptAccepted(reg: Registry, field: string, facts: seq<Fact>)
    requires facts != []
    requires forall f :: f in facts ==> VtyPartitions.IsVty(f) && f.field == field && Fits(Scalar, reg, f)
    ensures AllAccepted(reg, ScalarField(field, facts))
  {
    hide ScalarDraft, ScalarField, VtyPartitions.Partition, VtyBounds, ValidScope, VtyPartitions.On, AcceptedValue,
      Accepted;
    assert forall i :: 0 <= i < |facts| ==> facts[i] in facts;
    var ps, ds := VtyPartitions.Partition(facts), ScalarField(field, facts);
    VtyPartitions.SweepIsLineByLine(facts);
    SweptField(field, facts);
    forall i | 0 <= i < |ds| ensures Accepted(reg, ds[i]) {
      SweptScope(field, facts, i);
      forall f | f in ps[i].applicable && f.operation == Assign
        ensures AcceptedValue(reg, field, f.content, PieceScope(ps[i]).kind)
      {
        VtyPartitions.OnMember(facts, ps[i].start, f);
      }
      ScalarDraftAccepted(reg, field, PieceScope(ps[i]), ps[i].applicable);
    }
  }

  lemma ScalarGroupsAccepted(reg: Registry, field: string, facts: seq<Fact>)
    requires facts != [] && facts[0].scope.kind != "vty_range"
    requires forall f :: f in facts ==> f.field == field && Fits(Scalar, reg, f)
    ensures AllAccepted(reg, ScalarField(field, facts))
  {
    hide ScalarDraft, Sort, GroupBy, ScopeSorted, AcceptedValue, Accepted;
    var gs: seq<seq<Fact>> := GroupBy(ScopeKey, Sort(ScopeIdLe, facts));
    SortedScopeFirst(facts);
    ScopeGroups(facts, Sort(ScopeIdLe, facts));
    forall i | 0 <= i < |gs| ensures Accepted(reg, ScalarDraft(field, gs[i][0].scope, gs[i])) {
      ScalarDraftAccepted(reg, field, gs[i][0].scope, gs[i]);
    }
  }

  lemma RepeatableGroupsAccepted(reg: Registry, field: string, facts: seq<Fact>)
    requires forall f :: f in facts ==> f.field == field && Fits(Repeatable, reg, f)
    ensures AllAccepted(reg, RepeatableField(field, facts))
  {
    hide RepeatableDraft, Sort, GroupBy, ScopeSorted, Accepted;
    var gs: seq<seq<Fact>> := GroupBy(ScopeKey, Sort(ScopeValueLe, facts));
    SortedScopeThenValue(facts);
    ScopeGroups(facts, Sort(ScopeValueLe, facts));
    forall i | 0 <= i < |gs| ensures Accepted(reg, RepeatableDraft(field, gs[i][0].scope, gs[i])) {
      RepeatableDraftAccepted(reg, field, gs[i][0].scope, gs[i]);
    }
  }

  lemma FieldAccepted(cardinality: Cardinality, reg: Registry, field: string, items: seq<Fact>, blocked: set<string>)
    requires items != [] && Sorted(FieldScopeIdLe, items)
    requires forall f :: f in items ==> ValidScope(f.scope) && f.field == field && Fits(cardinality, reg, f)
    ensures AllAccepted(reg, FieldDrafts(cardinality, field, items, blocked))
  {
    hide ScalarField, RepeatableField, ValidScope, Fits;
    if BlockedAmong(items, blocked) == [] {
      if cardinality == Repeatable {
        RepeatableGroupsAccepted(reg, field, items);
      } else if items[0].scope.kind == "vty_range" {
        assert items[0] in items;
        VtyFirstMeansVtyOnly(items);
        SweptAccepted(reg, field, items);
      } else {
        ScalarGroupsAccepted(reg, field, items);
      }
    }
  }

  lemma {:induction false} GroupsAccepted(policy: Policy, reg: Registry, gs: seq<seq<Fact>>, blocked: set<string>)
    requires KnownFields(policy, gs) && FieldsApart(gs)
    requires forall i, f :: 0 <= i < |gs| && f in gs[i] ==> Fits(policy[gs[i][0].field], reg, f)
    ensures AllAccepted(reg, DraftsOf(policy, gs, blocked))
  {
    hide FieldDrafts, Fits, Accepted, ValidScope;
    if gs != [] {
      var init, g := gs[..|gs| - 1], gs[|gs| - 1];
      assert forall i :: 0 <= i < |init| ==> init[i] == gs[i];
      GroupsAccepted(policy, reg, init, blocked);
      FieldAccepted(policy[g[0].field], reg, g[0].field, g, blocked);
      AcceptedTogether(reg, DraftsOf(policy, init, blocked), FieldDrafts(policy[g[0].field], g[0].field, g, blocked));
    }
  }

  /** Facts of known fields that fit are always resolved, their swept pieces included. */
  lemma FittingFactsAreResolved(policy: Policy, reg: Registry, facts: seq<Fact>)
    requires forall f :: f in facts ==> Classified(f) && f.field in policy && Fits(policy[f.field], reg, f)
    ensures Resolve(policy, reg, facts).Ok?
  {
    hide FieldGroups, DraftsOf, Fits, ValidScope, BlockedIds, AllAccepted;
    var gs: seq<seq<Fact>> := FieldGroups(facts);
    FieldGroupsApart(facts);
    forall i | 0 <= i < |gs| ensures gs[i][0].field in policy {
      assert gs[i][0] in gs[i];
    }
    GroupsAccepted(policy, reg, gs, BlockedIds(facts));
    NoFaultIff(policy, reg, gs, BlockedIds(facts));
    assert forall i :: 0 <= i < |facts| ==> facts[i] in facts;
  }

  /** While no field takes a list, the facts the service lets through are always resolved. */
  lemma ValidatedFactsAreResolved(policy: Policy, reg: Registry, facts: seq<Fact>)
    requires NoListFields(reg)
    requires forall f :: f in facts ==> Classified(f) && f.field in policy && Validated(reg, f)
    ensures Resolve(policy, reg, facts).Ok?
  {
    hide Classified;
    forall f | f in facts ensures Fits(policy[f.field], reg, f) {
      assert f.operation == Assign ==> reg.accepts(f.field, f.content, f.scope.kind);
    }
    FittingFactsAreResolved(policy, reg, facts);
  }
}
