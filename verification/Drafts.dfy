/**
 What every resolution returns: drafts that validate, one per field and scope, citing every fact of a
 field without blocked facts, and no resolved draft where a fact is blocked.
 */
module Drafts {
  import opened Common
  import opened Scopes
  import opened Facts
  import opened Ordering
  import opened Replay
  import opened Resolver
  import opened Resolution
  import VtyPartitions

  /**
   `validate_effective_state_draft`: scope, sources and the agreement of status, value and reason.  That the field
   takes the value in that scope is `Accepted`.
   */
  ghost predicate ValidDraft(d: Draft) {
    && ValidScope(d.scope)
    && NoRepeats(d.sources)
    && match d.status
       case Resolved => d.value.Some? && d.reason.None?
       case Unknown => d.value.None? && d.reason.Some? && d.reason.value != ConflictingEvidence
       case Conflicting => d.value.None? && d.reason == Some(ConflictingEvidence)
  }

  ghost predicate OneDraftPerScope(ds: seq<Draft>) {
    forall i, j :: 0 <= i < j < |ds| ==> ds[i].scope != ds[j].scope
  }

  ghost predicate Cites(ds: seq<Draft>, field: string, id: string) {
    exists i :: 0 <= i < |ds| && ds[i].field == field && id in ds[i].sources
  }

  lemma SourcesAreIds(items: seq<Fact>)
    ensures NoRepeats(Sources(items))
    ensures forall f :: f in items ==> f.id in Sources(items)
    ensures forall id :: id in Sources(items) ==> exists f :: f in items && f.id == id
  {
    var ids := Ids(items);
    DedupeKeeps(ids);
    SortSorts(TextLe, Dedupe(ids));
    SortMembers(TextLe, Dedupe(ids));
    SameMultisetNoRepeats(Dedupe(ids), Sources(items));
    forall f | f in items
      ensures f.id in Sources(items)
    {
      var i :| 0 <= i < |items| && items[i] == f;
      assert ids[i] == f.id;
    }
    forall id | id in Sources(items)
      ensures exists f :: f in items && f.id == id
    {
      assert id in ids;
      var i :| 0 <= i < |ids| && ids[i] == id;
      assert items[i] in items;
    }
  }

  lemma ScalarDraftIsValid(field: string, scope: Scope, items: seq<Fact>)
    requires items != [] && ValidScope(scope)
    ensures var d := ScalarDraft(field, scope, items);
            ValidDraft(d) && d.field == field && d.scope == scope && d.sources == Sources(items)
  {
    hide OrderedWinner, Sources, Inputs, Saying, Bounded, ValidScope;
    SourcesAreIds(items);
  }

  lemma RepeatableDraftIsValid(field: string, scope: Scope, items: seq<Fact>)
    requires ValidScope(scope)
    ensures var d := RepeatableDraft(field, scope, items);
            ValidDraft(d) && d.field == field && d.scope == scope && d.sources == Sources(items)
  {
    hide Sources, Inputs, Bounded, ValidScope, MembersOf, AnyUndecided, KeptContents, MemberEvents;
    SourcesAreIds(items);
  }

  // ---------------------------------------------------------------- one draft per scope

  lemma SameScopeKey(a: Fact, b: Fact)
    ensures ScopeKey(a) == ScopeKey(b) <==> a.scope == b.scope
  {
    assert ScopeKey(a)[0] == a.scope.kind && ScopeKey(a)[1] == a.scope.key;
    assert ScopeKey(b)[0] == b.scope.kind && ScopeKey(b)[1] == b.scope.key;
  }

  /** One group per scope, holding exactly the facts of the scope. */
  ghost predicate Scoped(gs: seq<seq<Fact>>, facts: seq<Fact>) {
    && NonEmpty(gs)
    && (forall i, f :: 0 <= i < |gs| && f in gs[i] ==> f in facts && f.scope == gs[i][0].scope)
    && (forall i, j :: 0 <= i < j < |gs| ==> gs[i][0].scope != gs[j][0].scope)
    && (forall f :: f in facts ==> Collected(f, gs))
  }

  ghost predicate ScopeSorted(sorted: seq<Fact>, facts: seq<Fact>) {
    (forall x :: x in sorted <==> x in facts) && SortedByKey(ScopeKey, KeyLe, sorted)
  }

  /** Grouping facts sorted scope first gives one group per scope. */
  lemma ScopeGroups(facts: seq<Fact>, sorted: seq<Fact>)
    requires ScopeSorted(sorted, facts)
    ensures Scoped(GroupBy(ScopeKey, sorted), facts)
  {
    hide KeyLe, GroupBy;
    var gs: seq<seq<Fact>> := GroupBy(ScopeKey, sorted);
    KeyOrder();
    GroupByGroups(ScopeKey, KeyLe, sorted);
    forall i, f | 0 <= i < |gs| && f in gs[i]
      ensures f in facts && f.scope == gs[i][0].scope
    {
      SameScopeKey(f, gs[i][0]);
    }
    forall i, j | 0 <= i < j < |gs|
      ensures gs[i][0].scope != gs[j][0].scope
    {
      assert Before(KeyLe, KeyOf(ScopeKey, gs[i]), KeyOf(ScopeKey, gs[j]));
    }
  }

  /** One valid draft per group, citing the group. */
  ghost predicate PerGroup(ds: seq<Draft>, gs: seq<seq<Fact>>, field: string)
    requires NonEmpty(gs)
  {
    |ds| == |gs| && forall i :: 0 <= i < |gs| ==> ForGroup(ds[i], gs[i], field)
  }

  ghost predicate ForGroup(d: Draft, g: seq<Fact>, field: string)
    requires g != []
  {
    d.field == field && d.scope == g[0].scope && d.sources == Sources(g) && ValidDraft(d)
  }

  /** The scopes of the drafts are those of the facts. */
  ghost predicate SameScopes(ds: seq<Draft>, facts: seq<Fact>) {
    && (forall i :: 0 <= i < |ds| ==> ScopeAmong(ds[i].scope, facts))
    && (forall f :: f in facts ==> DraftedScope(ds, f.scope))
  }

  ghost predicate ScopeAmong(s: Scope, facts: seq<Fact>) {
    exists k :: 0 <= k < |facts| && facts[k].scope == s
  }

  ghost predicate DraftedScope(ds: seq<Draft>, s: Scope) {
    exists i :: 0 <= i < |ds| && ds[i].scope == s
  }

  lemma DraftsOfGroups(ds: seq<Draft>, gs: seq<seq<Fact>>, facts: seq<Fact>, field: string)
    requires Scoped(gs, facts) && PerGroup(ds, gs, field)
    ensures FieldOk(ds, field, facts) && SameScopes(ds, facts)
  {
    hide ValidDraft, Sources, Cites, DraftedScope, ScopeAmong;
    forall f | f in facts
      ensures Cites(ds, field, f.id) && DraftedScope(ds, f.scope)
    {
      DraftOfFact(ds, gs, facts, field, f);
    }
    forall i | 0 <= i < |ds|
      ensures ScopeAmong(ds[i].scope, facts) && ds[i].field == field && ValidDraft(ds[i])
    {
      assert ForGroup(ds[i], gs[i], field);
      assert gs[i][0] in gs[i];
      ScopeOfFact(facts, gs[i][0]);
    }
    forall i, j | 0 <= i < j < |ds|
      ensures ds[i].scope != ds[j].scope
    {
      assert ForGroup(ds[i], gs[i], field) && ForGroup(ds[j], gs[j], field);
    }
  }

  lemma ScopeOfFact(facts: seq<Fact>, f: Fact)
    requires f in facts
    ensures ScopeAmong(f.scope, facts)
  {
    var k :| 0 <= k < |facts| && facts[k] == f;
  }

  lemma DraftOfFact(ds: seq<Draft>, gs: seq<seq<Fact>>, facts: seq<Fact>, field: string, f: Fact)
    requires Scoped(gs, facts) && PerGroup(ds, gs, field) && f in facts
    ensures Cites(ds, field, f.id) && DraftedScope(ds, f.scope)
  {
    hide ValidDraft, Sources;
    assert Collected(f, gs);
    var i :| 0 <= i < |gs| && f in gs[i];
    assert ForGroup(ds[i], gs[i], field);
    SourcesAreIds(gs[i]);
    assert f.id in ds[i].sources;
  }

  lemma SortedScopeFirst(facts: seq<Fact>)
    ensures ScopeSorted(Sort(ScopeIdLe, facts), facts)
  {
    var s := Sort(ScopeIdLe, facts);
    ScopeOrders();
    SortSorts(ScopeIdLe, facts);
    SortMembers(ScopeIdLe, facts);
    forall i, j | 0 <= i < j < |s|
      ensures KeyLe(ScopeKey(s[i]), ScopeKey(s[j]))
    {
      assert ScopeIdLe(s[i], s[j]);
      LexFront(TextLe, ScopeKey(s[i]), ScopeKey(s[j]), [s[i].id], [s[j].id]);
    }
  }

  lemma SortedScopeThenValue(facts: seq<Fact>)
    ensures ScopeSorted(Sort(ScopeValueLe, facts), facts)
  {
    var s := Sort(ScopeValueLe, facts);
    ScopeOrders();
    SortSorts(ScopeValueLe, facts);
    SortMembers(ScopeValueLe, facts);
    forall i, j | 0 <= i < j < |s|
      ensures KeyLe(ScopeKey(s[i]), ScopeKey(s[j]))
    {
      assert ScopeValueLe(s[i], s[j]);
      LexFront(TextLe, ScopeKey(s[i]), ScopeKey(s[j]), [ContentKey(s[i])], [ContentKey(s[j])]);
    }
  }

  /** What is promised of the drafts of one field. */
  ghost predicate FieldOk(ds: seq<Draft>, field: string, cited: seq<Fact>) {
    && (forall i :: 0 <= i < |ds| ==> ds[i].field == field && ValidDraft(ds[i]))
    && OneDraftPerScope(ds)
    && (forall f :: f in cited ==> Cites(ds, field, f.id))
  }

  lemma ScalarGroupsOk(field: string, facts: seq<Fact>)
    requires facts != [] && facts[0].scope.kind != "vty_range" && forall f :: f in facts ==> ValidScope(f.scope)
    ensures FieldOk(ScalarField(field, facts), field, facts) && SameScopes(ScalarField(field, facts), facts)
  {
    hide ScalarDraft, ValidScope, ForGroup, Sort, GroupBy, ScopeSorted, FieldOk, SameScopes;
    var gs: seq<seq<Fact>> := GroupBy(ScopeKey, Sort(ScopeIdLe, facts));
    var ds := ScalarField(field, facts);
    SortedScopeFirst(facts);
    ScopeGroups(facts, Sort(ScopeIdLe, facts));
    forall i | 0 <= i < |gs|
      ensures ForGroup(ds[i], gs[i], field)
    {
      assert gs[i][0] in gs[i];
      ScalarForGroup(field, gs[i]);
    }
    DraftsOfGroups(ds, gs, facts, field);
  }

  lemma ScalarForGroup(field: string, g: seq<Fact>)
    requires g != [] && ValidScope(g[0].scope)
    ensures ForGroup(ScalarDraft(field, g[0].scope, g), g, field)
  {
    hide ScalarDraft, ValidDraft, Sources, ValidScope;
    ScalarDraftIsValid(field, g[0].scope, g);
  }

  lemma RepeatableForGroup(field: string, g: seq<Fact>)
    requires g != [] && ValidScope(g[0].scope)
    ensures ForGroup(RepeatableDraft(field, g[0].scope, g), g, field)
  {
    hide RepeatableDraft, ValidDraft, Sources, ValidScope;
    RepeatableDraftIsValid(field, g[0].scope, g);
  }

  lemma RepeatableGroupsOk(field: string, facts: seq<Fact>)
    requires forall f :: f in facts ==> ValidScope(f.scope)
    ensures FieldOk(RepeatableField(field, facts), field, facts) && SameScopes(RepeatableField(field, facts), facts)
  {
    hide RepeatableDraft, ValidScope, ForGroup, Sort, GroupBy, ScopeSorted, FieldOk, SameScopes;
    var gs: seq<seq<Fact>> := GroupBy(ScopeKey, Sort(ScopeValueLe, facts));
    var ds := RepeatableField(field, facts);
    SortedScopeThenValue(facts);
    ScopeGroups(facts, Sort(ScopeValueLe, facts));
    forall i | 0 <= i < |gs|
      ensures ForGroup(ds[i], gs[i], field)
    {
      assert gs[i][0] in gs[i];
      RepeatableForGroup(field, gs[i]);
    }
    DraftsOfGroups(ds, gs, facts, field);
  }

  lemma SweptFieldOk(field: string, facts: seq<Fact>)
    requires facts != [] && forall f :: f in facts ==> VtyPartitions.IsVty(f)
    ensures FieldOk(ScalarField(field, facts), field, facts)
  {
    hide ScalarDraft, ScalarField, VtyPartitions.Partition, VtyBounds, ValidScope, VtyPartitions.On;
    assert forall i :: 0 <= i < |facts| ==> facts[i] in facts;
    var ps, ds := VtyPartitions.Partition(facts), ScalarField(field, facts);
    VtyPartitions.SweepIsLineByLine(facts);
    SweptField(field, facts);
    forall i | 0 <= i < |ds|
      ensures ds[i].field == field && ValidDraft(ds[i]) && VtyBounds(ds[i].scope.key) == Some((ps[i].start, ps[i].end))
    {
      SweptScope(field, facts, i);
      ScalarDraftIsValid(field, PieceScope(ps[i]), ps[i].applicable);
    }
    forall i, j | 0 <= i < j < |ds|
      ensures ds[i].scope != ds[j].scope
    {
      assert ps[i].start <= ps[i].end < ps[j].start;
    }
    forall f | f in facts
      ensures Cites(ds, field, f.id)
    {
      VtyRangeIsInhabited(f);
      var line := VtyPartitions.Start(f);
      VtyPartitions.OnMember(facts, line, f);
      assert VtyPartitions.Within(ps, line);
      var i :| 0 <= i < |ps| && ps[i].start <= line <= ps[i].end;
      SweptScope(field, facts, i);
      ScalarDraftScope(field, PieceScope(ps[i]), ps[i].applicable);
      SourcesAreIds(ps[i].applicable);
      assert f.id in ds[i].sources;
    }
  }

  lemma VtyRangeIsInhabited(f: Fact)
    requires VtyPartitions.IsVty(f)
    ensures VtyPartitions.Covers(f, VtyPartitions.Start(f))
  {
  }

  lemma BlockedFieldOk(field: string, stuck: seq<Fact>)
    requires stuck != [] && forall f :: f in stuck ==> ValidScope(f.scope)
    ensures FieldOk(BlockedField(field, stuck), field, stuck)
    ensures forall i :: 0 <= i < |BlockedField(field, stuck)| ==> BlockedField(field, stuck)[i].status == Unknown
  {
    hide ValidScope, Sources, Bounded;
    var all := Map((f: Fact) => f.scope, stuck);
    var scopes := Dedupe(all);
    var ds := BlockedField(field, stuck);
    DedupeKeeps(all);
    SourcesAreIds(stuck);
    forall i | 0 <= i < |ds|
      ensures ds[i].scope == scopes[i] && ValidDraft(ds[i])
    {
      assert scopes[i] in scopes && scopes[i] in all;
      var k :| 0 <= k < |all| && all[k] == scopes[i];
      assert stuck[k] in stuck;
    }
    assert all[0] in scopes;
    assert ds != [];
    forall f | f in stuck
      ensures Cites(ds, field, f.id)
    {
      assert f.id in ds[0].sources;
    }
  }

  /** VTY scopes sort last, so a group that starts with one holds nothing else. */
  lemma VtyFirstMeansVtyOnly(items: seq<Fact>)
    requires items != [] && Sorted(FieldScopeIdLe, items)
    requires forall f :: f in items ==> ValidScope(f.scope) && f.field == items[0].field
    requires items[0].scope.kind == "vty_range"
    ensures forall f :: f in items ==> VtyPartitions.IsVty(f)
  {
    forall f | f in items
      ensures f.scope.kind == "vty_range"
    {
      var i :| 0 <= i < |items| && items[i] == f;
      if i > 0 {
        var a, b := items[0], items[i];
        assert FieldScopeIdLe(a, b);
        assert ([a.field] + ScopeKey(a) + [a.id])[1..] == [a.scope.kind] + [a.scope.key, a.id];
        assert ([b.field] + ScopeKey(b) + [b.id])[1..] == [b.scope.kind] + [b.scope.key, b.id];
        LexFront(TextLe, [a.scope.kind], [b.scope.kind], [a.scope.key, a.id], [b.scope.key, b.id]);
        VtyIsLast(b.scope);
      }
    }
  }

  lemma VtyIsLast(s: Scope)
    requires ValidScope(s) && KeyLe(["vty_range"], [s.kind])
    ensures s.kind == "vty_range"
  {
    assert KeyLe(["vty_range"], [s.kind]) ==> s.kind == "vty_range" || TextLe("vty_range", s.kind);
    assert !TextLe("vty_range", "device") && !TextLe("vty_range", "interface");
    assert !TextLe("vty_range", "administrator") && !TextLe("vty_range", "management_service");
  }

  lemma FieldIsOk(cardinality: Cardinality, field: string, items: seq<Fact>, blocked: set<string>)
    requires items != [] && Sorted(FieldScopeIdLe, items)
    requires forall f :: f in items ==> ValidScope(f.scope) && f.field == field
    ensures var ds, stuck := FieldDrafts(cardinality, field, items, blocked), BlockedAmong(items, blocked);
            && FieldOk(ds, field, if stuck == [] then items else stuck)
            && (stuck != [] ==> forall i :: 0 <= i < |ds| ==> ds[i].status == Unknown)
  {
    hide ScalarField, RepeatableField, BlockedField, FieldOk, ValidScope;
    var stuck := BlockedAmong(items, blocked);
    if stuck != [] {
      forall f | f in stuck
        ensures f in items
      {
        FilterMember((g: Fact) => g.id in blocked, items, f);
      }
      BlockedFieldOk(field, stuck);
    } else if cardinality == Scalar {
      assert items[0] in items;
      if items[0].scope.kind == "vty_range" {
        VtyFirstMeansVtyOnly(items);
        SweptFieldOk(field, items);
      } else {
        ScalarGroupsOk(field, items);
      }
    } else {
      RepeatableGroupsOk(field, items);
    }
  }

  // ---------------------------------------------------------------- all fields

  /** Drafts of the fields so far. */
  ghost predicate AllOk(ds: seq<Draft>) {
    && (forall i :: 0 <= i < |ds| ==> ValidDraft(ds[i]))
    && (forall i, j :: 0 <= i < j < |ds| ==> !(ds[i].field == ds[j].field && ds[i].scope == ds[j].scope))
  }

  ghost predicate FieldsApart(gs: seq<seq<Fact>>) {
    && NonEmpty(gs)
    && (forall i :: 0 <= i < |gs| ==> Sorted(FieldScopeIdLe, gs[i]))
    && (forall i, f :: 0 <= i < |gs| && f in gs[i] ==> ValidScope(f.scope) && f.field == gs[i][0].field)
    && (forall i, j :: 0 <= i < j < |gs| ==> gs[i][0].field != gs[j][0].field)
  }

  /** The promise for one group among all drafts. */
  ghost predicate GroupOk(ds: seq<Draft>, g: seq<Fact>, blocked: set<string>)
    requires g != []
  {
    var stuck := BlockedAmong(g, blocked);
    && (forall f :: f in (if stuck == [] then g else stuck) ==> Cites(ds, g[0].field, f.id))
    && (stuck != [] ==> forall i :: 0 <= i < |ds| && ds[i].field == g[0].field ==> ds[i].status == Unknown)
  }

  ghost predicate FromGroups(ds: seq<Draft>, gs: seq<seq<Fact>>)
    requires NonEmpty(gs)
  {
    forall i :: 0 <= i < |ds| ==> exists k :: 0 <= k < |gs| && gs[k][0].field == ds[i].field
  }

  ghost predicate GroupsOk(ds: seq<Draft>, gs: seq<seq<Fact>>, blocked: set<string>)
    requires NonEmpty(gs)
  {
    forall k :: 0 <= k < |gs| ==> GroupOk(ds, gs[k], blocked)
  }

  lemma {:induction false} DraftsAreOk(policy: Policy, gs: seq<seq<Fact>>, blocked: set<string>)
    requires KnownFields(policy, gs) && FieldsApart(gs)
    ensures var ds := DraftsOf(policy, gs, blocked);
            AllOk(ds) && FromGroups(ds, gs) && GroupsOk(ds, gs, blocked)
  {
    hide FieldDrafts, ValidScope, GroupsOk, AllOk, FromGroups, FieldOk;
    if gs != [] {
      var n := |gs| - 1;
      var init, g := gs[..n], gs[n];
      assert forall k :: 0 <= k < n ==> init[k] == gs[k];
      DraftsAreOk(policy, init, blocked);
      FieldIsOk(policy[g[0].field], g[0].field, g, blocked);
      MoreDrafts(DraftsOf(policy, init, blocked), FieldDrafts(policy[g[0].field], g[0].field, g, blocked), gs, blocked);
    } else {
      NoDrafts(blocked);
    }
  }

  lemma NoDrafts(blocked: set<string>)
    ensures AllOk([]) && FromGroups([], []) && GroupsOk([], [], blocked)
  {
  }

  /** Appending the drafts of one more field. */
  lemma MoreDrafts(before: seq<Draft>, here: seq<Draft>, gs: seq<seq<Fact>>, blocked: set<string>)
    requires FieldsApart(gs) && gs != []
    requires var n := |gs| - 1;
             && AllOk(before) && FromGroups(before, gs[..n]) && GroupsOk(before, gs[..n], blocked)
             && var stuck := BlockedAmong(gs[n], blocked);
                && FieldOk(here, gs[n][0].field, if stuck == [] then gs[n] else stuck)
                && (stuck != [] ==> forall i :: 0 <= i < |here| ==> here[i].status == Unknown)
    ensures AllOk(before + here) && FromGroups(before + here, gs) && GroupsOk(before + here, gs, blocked)
  {
    hide ValidDraft, ValidScope, BlockedAmong, Cites;
    var n := |gs| - 1;
    var init, g, ds := gs[..n], gs[n], before + here;
    assert forall k :: 0 <= k < n ==> init[k] == gs[k];
    forall i | 0 <= i < |ds|
      ensures exists k :: 0 <= k < |gs| && gs[k][0].field == ds[i].field && (i < |before| ==> k < n)
    {
      if i < |before| {
        var k :| 0 <= k < n && init[k][0].field == before[i].field;
        assert gs[k][0].field == ds[i].field;
      } else {
        assert gs[n][0].field == ds[i].field;
      }
    }
    forall k | 0 <= k <= n
      ensures GroupOk(ds, gs[k], blocked)
    {
      if k < n {
        assert GroupOk(before, init[k], blocked);
        CitesMore(before, here, gs[k][0].field);
      } else {
        CitesLater(before, here, g[0].field);
      }
    }
  }

  lemma CitesMore(before: seq<Draft>, here: seq<Draft>, field: string)
    ensures forall id :: Cites(before, field, id) ==> Cites(before + here, field, id)
  {
    forall id | Cites(before, field, id)
      ensures Cites(before + here, field, id)
    {
      var i :| 0 <= i < |before| && before[i].field == field && id in before[i].sources;
      assert (before + here)[i] == before[i];
    }
  }

  lemma CitesLater(before: seq<Draft>, here: seq<Draft>, field: string)
    ensures forall id :: Cites(here, field, id) ==> Cites(before + here, field, id)
  {
    forall id | Cites(here, field, id)
      ensures Cites(before + here, field, id)
    {
      var i :| 0 <= i < |here| && here[i].field == field && id in here[i].sources;
      assert (before + here)[|before| + i] == here[i];
    }
  }

  lemma FieldGroupsApart(facts: seq<Fact>)
    requires forall f :: f in facts ==> ValidScope(f.scope)
    ensures FieldsApart(FieldGroups(facts))
    ensures forall f :: f in facts ==> exists k :: 0 <= k < |FieldGroups(facts)| && f in FieldGroups(facts)[k]
    ensures forall k, f :: 0 <= k < |FieldGroups(facts)| && f in FieldGroups(facts)[k] ==> f in facts
  {
    hide ValidScope, FieldScopeIdLe, TextLe;
    var sorted := Sort(FieldScopeIdLe, facts);
    var gs: seq<seq<Fact>> := FieldGroups(facts);
    FieldOrder();
    SortSorts(FieldScopeIdLe, facts);
    SortMembers(FieldScopeIdLe, facts);
    FieldsAscend(sorted);
    TextOrder();
    GroupByGroups(FieldOf, TextLe, sorted);
    GroupsStaySorted(FieldOf, FieldScopeIdLe, sorted);
    forall i, j | 0 <= i < j < |gs|
      ensures gs[i][0].field != gs[j][0].field
    {
      assert Before(TextLe, KeyOf(FieldOf, gs[i]), KeyOf(FieldOf, gs[j]));
    }
    forall f | f in facts
      ensures exists k :: 0 <= k < |gs| && f in gs[k]
    {
      assert Collected(f, gs);
    }
  }

  lemma FieldsAscend(s: seq<Fact>)
    requires Sorted(FieldScopeIdLe, s)
    ensures SortedByKey(FieldOf, TextLe, s)
  {
    forall i, j | 0 <= i < j < |s|
      ensures TextLe(s[i].field, s[j].field)
    {
      var a, b := s[i], s[j];
      assert FieldScopeIdLe(a, b);
      assert [a.field] + ScopeKey(a) + [a.id] == [a.field] + (ScopeKey(a) + [a.id]);
      assert [b.field] + ScopeKey(b) + [b.id] == [b.field] + (ScopeKey(b) + [b.id]);
      LexFront(TextLe, [a.field], [b.field], ScopeKey(a) + [a.id], ScopeKey(b) + [b.id]);
      TextOrder();
      assert TextLe(a.field, a.field);
    }
  }

  /** A field with a blocked fact. */
  ghost predicate FieldIsBlocked(facts: seq<Fact>, field: string) {
    exists f :: f in facts && f.field == field && f.id in BlockedIds(facts)
  }

  /**
   Every successful resolution returns drafts that validate, in order, at most one per field and scope.  Every
   fact of a field without blocked facts is cited; where a fact is blocked, it is cited and the field
   has only drafts that are unknown.
   */
  lemma ResolutionIsSound(policy: Policy, reg: Registry, facts: seq<Fact>)
    requires Resolve(policy, reg, facts).Ok?
    ensures var ds := Resolve(policy, reg, facts).value;
            && AllOk(ds) && AllAccepted(reg, ds) && Sorted(DraftLe, ds)
            && (forall f :: f in facts && (f.id in BlockedIds(facts) || !FieldIsBlocked(facts, f.field)) ==>
                 Cites(ds, f.field, f.id))
            && (forall i :: 0 <= i < |ds| && FieldIsBlocked(facts, ds[i].field) ==> ds[i].status == Unknown)
  {
    hide ValidDraft, Cites, BlockedIds, FieldGroups, DraftsOf, Classified, BlockedAmong, GroupOk, DraftLe, Accepted,
      AllOk;
    forall f | f in facts
      ensures ValidScope(f.scope)
    {
      var i :| 0 <= i < |facts| && facts[i] == f;
      assert Classified(facts[i]);
      ClassifiedScope(f);
    }
    var gs, blocked := FieldGroups(facts), BlockedIds(facts);
    FieldGroupsAreNonEmpty(facts);
    NoFaultIff(policy, reg, gs, blocked);
    var raw, ds := DraftsOf(policy, gs, blocked), Resolve(policy, reg, facts).value;
    FieldGroupsApart(facts);
    DraftsAreOk(policy, gs, blocked);
    SortedDrafts(raw);
    DraftOrder();
    SortSorts(DraftLe, raw);
    SortedStayAccepted(reg, raw, ds);
    forall f | f in facts && (f.id in blocked || !FieldIsBlocked(facts, f.field))
      ensures Cites(ds, f.field, f.id)
    {
      var k :| 0 <= k < |gs| && f in gs[k];
      assert GroupOk(raw, gs[k], blocked);
      CitedFact(facts, raw, gs[k], blocked, f);
    }
    forall i | 0 <= i < |ds| && FieldIsBlocked(facts, ds[i].field)
      ensures ds[i].status == Unknown
    {
      var f :| f in facts && f.field == ds[i].field && f.id in blocked;
      var k :| 0 <= k < |gs| && f in gs[k];
      assert GroupOk(raw, gs[k], blocked);
      assert ds[i] in ds && ds[i] in raw;
      UnknownField(raw, gs[k], blocked, f, ds[i]);
    }
  }

  lemma SortedStayAccepted(reg: Registry, raw: seq<Draft>, ds: seq<Draft>)
    requires AllAccepted(reg, raw) && forall d :: d in ds <==> d in raw
    ensures AllAccepted(reg, ds)
  {
    hide Accepted;
    forall i | 0 <= i < |ds| ensures Accepted(reg, ds[i]) {
      assert ds[i] in raw;
      var k :| 0 <= k < |raw| && raw[k] == ds[i];
    }
  }

  lemma ClassifiedScope(f: Fact)
    requires Classified(f)
    ensures ValidScope(f.scope)
  {
  }

  lemma CitedFact(facts: seq<Fact>, ds: seq<Draft>, g: seq<Fact>, blocked: set<string>, f: Fact)
    requires g != [] && f in g && GroupOk(ds, g, blocked) && forall h :: h in g ==> h in facts && h.field == g[0].field
    requires f.id in blocked || !exists h :: h in facts && h.field == f.field && h.id in blocked
    ensures Cites(ds, f.field, f.id)
  {
    hide Cites;
    var stuck := BlockedAmong(g, blocked);
    FilterMember((h: Fact) => h.id in blocked, g, f);
    if stuck != [] {
      FilterMember((h: Fact) => h.id in blocked, g, stuck[0]);
      assert stuck[0] in stuck;
      assert f in stuck;
    }
  }

  lemma UnknownField(ds: seq<Draft>, g: seq<Fact>, blocked: set<string>, f: Fact, d: Draft)
    requires g != [] && f in g && f.id in blocked && f.field == g[0].field && GroupOk(ds, g, blocked)
    requires d in ds && d.field == f.field
    ensures d.status == Unknown
  {
    hide Cites;
    FilterMember((h: Fact) => h.id in blocked, g, f);
    var i :| 0 <= i < |ds| && ds[i] == d;
  }

  /** Sorting the drafts keeps what was promised of them. */
  lemma SortedDrafts(raw: seq<Draft>)
    requires AllOk(raw)
    ensures var ds := Sort(DraftLe, raw);
            && AllOk(ds) && (forall d :: d in ds <==> d in raw)
            && forall field, id :: Cites(raw, field, id) ==> Cites(ds, field, id)
  {
    hide ValidDraft;
    var ds := Sort(DraftLe, raw);
    SortSorts(DraftLe, raw);
    SortMembers(DraftLe, raw);
    SameMultisetNoRepeats(raw, ds);
    forall i | 0 <= i < |ds|
      ensures ValidDraft(ds[i])
    {
      assert ds[i] in raw;
      var k :| 0 <= k < |raw| && raw[k] == ds[i];
    }
    forall i, j | 0 <= i < j < |ds|
      ensures !(ds[i].field == ds[j].field && ds[i].scope == ds[j].scope)
    {
      assert ds[i] in raw && ds[j] in raw;
      var a :| 0 <= a < |raw| && raw[a] == ds[i];
      var b :| 0 <= b < |raw| && raw[b] == ds[j];
      assert a != b;
    }
    forall field, id | Cites(raw, field, id)
      ensures Cites(ds, field, id)
    {
      var i :| 0 <= i < |raw| && raw[i].field == field && id in raw[i].sources;
      assert raw[i] in ds;
      var k :| 0 <= k < |ds| && ds[k] == raw[i];
    }
  }

  // ---------------------------------------------------------------- fields that mix scopes

  /** Two drafts of the field cover one line. */
  ghost predicate Overlap(ds: seq<Draft>) {
    exists i, j, line :: 0 <= i < j < |ds| && DraftCovers(ds[i], line) && DraftCovers(ds[j], line)
  }

  /** Two VTY facts of different scopes share a line. */
  ghost predicate SharedLine(facts: seq<Fact>, f: Fact, g: Fact, line: int) {
    && f in facts && g in facts && f.scope != g.scope && VtyPartitions.IsVty(f) && VtyPartitions.IsVty(g)
    && VtyPartitions.Covers(f, line) && VtyPartitions.Covers(g, line)
  }

  lemma FactCoversAsDraft(d: Draft, f: Fact, line: int)
    requires ValidScope(f.scope) && d.scope == f.scope
    ensures DraftCovers(d, line) <==> VtyPartitions.IsVty(f) && VtyPartitions.Covers(f, line)
  {
  }

  /**
   When any other scope precedes them, VTY facts are not swept: lines then have two drafts exactly when
   VTY facts of different ranges share a line.
   */
  lemma MixedFieldOverlapsIff(field: string, facts: seq<Fact>)
    requires facts != [] && facts[0].scope.kind != "vty_range" && forall f :: f in facts ==> ValidScope(f.scope)
    ensures Overlap(ScalarField(field, facts)) <==> exists f, g, line :: SharedLine(facts, f, g, line)
  {
    hide ScalarField, ValidScope, SharedLine, Overlap, SameScopes, Cites, ValidDraft;
    var ds := ScalarField(field, facts);
    ScalarGroupsOk(field, facts);
    if Overlap(ds) {
      var f, g, line := OverlapIsShared(ds, facts);
    }
    if f, g, line :| SharedLine(facts, f, g, line) {
      SharedIsOverlap(ds, facts, f, g, line);
    }
  }

  lemma OverlapIsShared(ds: seq<Draft>, facts: seq<Fact>) returns (f: Fact, g: Fact, line: int)
    requires SameScopes(ds, facts) && OneDraftPerScope(ds) && (forall f :: f in facts ==> ValidScope(f.scope))
    requires Overlap(ds)
    ensures SharedLine(facts, f, g, line)
  {
    hide ValidScope, DraftCovers, VtyPartitions.IsVty, VtyPartitions.Covers;
    var i, j, l :| 0 <= i < j < |ds| && DraftCovers(ds[i], l) && DraftCovers(ds[j], l);
    assert ScopeAmong(ds[i].scope, facts) && ScopeAmong(ds[j].scope, facts);
    var a :| 0 <= a < |facts| && facts[a].scope == ds[i].scope;
    var b :| 0 <= b < |facts| && facts[b].scope == ds[j].scope;
    f, g, line := facts[a], facts[b], l;
    FactCoversAsDraft(ds[i], f, line);
    FactCoversAsDraft(ds[j], g, line);
  }

  lemma SharedIsOverlap(ds: seq<Draft>, facts: seq<Fact>, f: Fact, g: Fact, line: int)
    requires SameScopes(ds, facts) && (forall f :: f in facts ==> ValidScope(f.scope)) && SharedLine(facts, f, g, line)
    ensures Overlap(ds)
  {
    hide ValidScope, DraftCovers, VtyPartitions.IsVty, VtyPartitions.Covers;
    assert DraftedScope(ds, f.scope) && DraftedScope(ds, g.scope);
    var i :| 0 <= i < |ds| && ds[i].scope == f.scope;
    var j :| 0 <= j < |ds| && ds[j].scope == g.scope;
    FactCoversAsDraft(ds[i], f, line);
    FactCoversAsDraft(ds[j], g, line);
    assert i < j || j < i;
  }

  /** A device-wide fact beside two overlapping VTY ranges leaves line 0 with two drafts. */
  lemma MixedFieldExample(field: string, a: Fact, b: Fact, c: Fact)
    requires a.scope == Scope("device", "device")
    requires b.scope == Scope("vty_range", VtyKey(0, 4)) && c.scope == Scope("vty_range", VtyKey(0, 15))
    ensures Overlap(ScalarField(field, [a, b, c]))
  {
    hide ScalarField, VtyBounds, VtyKey, Overlap;
    var facts := [a, b, c];
    VtyKeyReadsBack(0, 4);
    VtyKeyReadsBack(0, 15);
    assert b in facts && c in facts;
    assert SharedLine(facts, b, c, 0);
    MixedFieldOverlapsIff(field, facts);
  }
}
