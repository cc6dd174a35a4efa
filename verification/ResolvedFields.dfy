/**
 What a resolution makes of each field, said of the facts it was given and of the drafts it returns
 (backend/app/effective_state/resolver.py:37-64, 130-239).
 */
module ResolvedFields {
  import opened Common
  import opened Scopes
  import opened Facts
  import opened Ordering
  import opened Replay
  import opened Resolver
  import opened Resolution
  import opened Drafts
  import VtyPartitions

  /** The facts of a field about one scope, in the order given. */
  function Among(facts: seq<Fact>, field: string, scope: Scope): seq<Fact> {
    Filter((f: Fact) => f.field == field && f.scope == scope, facts)
  }

  function OfField(facts: seq<Fact>, field: string): seq<Fact> {
    Filter((f: Fact) => f.field == field, facts)
  }

  lemma AmongCount(facts: seq<Fact>, field: string, scope: Scope, f: Fact)
    ensures multiset(Among(facts, field, scope))[f] ==
            if f.field == field && f.scope == scope then multiset(facts)[f] else 0
  {
    FilterCount((g: Fact) => g.field == field && g.scope == scope, facts, f);
  }

  lemma OfFieldCount(facts: seq<Fact>, field: string, f: Fact)
    ensures multiset(OfField(facts, field))[f] == if f.field == field then multiset(facts)[f] else 0
  {
    FilterCount((g: Fact) => g.field == field, facts, f);
  }

  lemma SameMembers(a: seq<Fact>, b: seq<Fact>)
    requires multiset(a) == multiset(b)
    ensures (forall f :: f in a <==> f in b) && |a| == |b|
    ensures OneArtifact(a) <==> OneArtifact(b)
    ensures forall t :: Schedule(t, a) <==> Schedule(t, b)
  {
    forall f ensures f in a <==> f in b {
      assert f in a <==> f in multiset(a);
      assert f in b <==> f in multiset(b);
    }
    assert |a| == |multiset(a)| && |b| == |multiset(b)|;
    if OneArtifact(a) {
      OneArtifactWithin(a, b);
    }
    if OneArtifact(b) {
      OneArtifactWithin(b, a);
    }
  }

  // ---------------------------------------------------------------- the group of a field

  lemma SortKeepsCount(le: (Fact, Fact) -> bool, s: seq<Fact>)
    requires Total(le)
    ensures multiset(Sort(le, s)) == multiset(s)
  {
    SortSorts(le, s);
  }

  /** The group of a field holds the facts of the field, each as often as it was given. */
  lemma FieldGroupCount(facts: seq<Fact>, k: nat)
    requires k < |FieldGroups(facts)|
    ensures FieldGroups(facts)[k] != []
    ensures multiset(FieldGroups(facts)[k]) == multiset(OfField(facts, FieldGroups(facts)[k][0].field))
  {
    var sorted := Sort(FieldScopeIdLe, facts);
    FieldOrder();
    SortSorts(FieldScopeIdLe, facts);
    SortKeepsCount(FieldScopeIdLe, facts);
    FieldsAscend(sorted);
    TextOrder();
    var gs: seq<seq<Fact>> := FieldGroups(facts);
    hide FieldScopeIdLe, TextLe, OfField;
    FieldGroupsAreNonEmpty(facts);
    forall f ensures multiset(gs[k])[f] == multiset(OfField(facts, gs[k][0].field))[f] {
      GroupCount(FieldOf, TextLe, sorted, k, f);
      OfFieldCount(facts, gs[k][0].field, f);
    }
  }

  /** `d` is a draft of the group of a field. */
  ghost predicate DraftedBy(policy: Policy, g: seq<Fact>, blocked: set<string>, d: Draft) {
    g != [] && g[0].field in policy && d in FieldDrafts(policy[g[0].field], g[0].field, g, blocked)
  }

  lemma {:induction false} DraftsOfMember(policy: Policy, gs: seq<seq<Fact>>, blocked: set<string>, d: Draft)
    requires KnownFields(policy, gs)
    ensures d in DraftsOf(policy, gs, blocked) <==> exists k :: 0 <= k < |gs| && DraftedBy(policy, gs[k], blocked, d)
  {
    hide FieldDrafts;
    if gs != [] {
      var init := gs[..|gs| - 1];
      assert forall k :: 0 <= k < |init| ==> init[k] == gs[k];
      DraftsOfMember(policy, init, blocked, d);
    }
  }

  lemma ValidScopes(policy: Policy, reg: Registry, facts: seq<Fact>)
    requires Resolve(policy, reg, facts).Ok?
    ensures forall f :: f in facts ==> ValidScope(f.scope)
  {
    hide FirstFault, BlockedIds, FieldGroups, Classified, ValidScope;
    forall f | f in facts ensures ValidScope(f.scope) {
      var i :| 0 <= i < |facts| && facts[i] == f;
      assert Classified(facts[i]);
      ClassifiedScope(f);
    }
  }

  /** Among the drafts returned, those of a field are the drafts of its group, and the group holds the field's facts. */
  lemma DraftsOfField(policy: Policy, reg: Registry, facts: seq<Fact>, field: string) returns (g: seq<Fact>)
    requires Resolve(policy, reg, facts).Ok? && OfField(facts, field) != []
    ensures multiset(g) == multiset(OfField(facts, field)) && g != [] && Sorted(FieldScopeIdLe, g)
    ensures field in policy && forall f :: f in g ==> ValidScope(f.scope) && f.field == field
    ensures forall d :: d in Resolve(policy, reg, facts).value && d.field == field <==>
              d in FieldDrafts(policy[field], field, g, BlockedIds(facts))
  {
    hide ValidScope, FieldDrafts, FieldGroups, BlockedIds, DraftsOf, Classified, DraftLe, OfField, FieldScopeIdLe;
    ValidScopes(policy, reg, facts);
    FieldGroupsApart(facts);
    var gs, blocked := FieldGroups(facts), BlockedIds(facts);
    FieldGroupsAreNonEmpty(facts);
    NoFaultIff(policy, reg, gs, blocked);
    var first := OfField(facts, field)[0];
    FirstIsOfField(facts, field);
    var k :| 0 <= k < |gs| && first in gs[k];
    g := gs[k];
    FieldGroupCount(facts, k);
    var raw := DraftsOf(policy, gs, blocked);
    SortMembers(DraftLe, raw);
    forall d
      ensures d in Sort(DraftLe, raw) && d.field == field <==> d in FieldDrafts(policy[field], field, g, blocked)
    {
      DraftsOfMember(policy, gs, blocked, d);
      FieldOfGroupDrafts(policy, gs, blocked, d);
    }
  }

  lemma FirstIsOfField(facts: seq<Fact>, field: string)
    requires OfField(facts, field) != []
    ensures OfField(facts, field)[0] in facts && OfField(facts, field)[0].field == field
  {
    FilterMember((f: Fact) => f.field == field, facts, OfField(facts, field)[0]);
  }

  lemma FieldOfGroupDrafts(policy: Policy, gs: seq<seq<Fact>>, blocked: set<string>, d: Draft)
    requires KnownFields(policy, gs) && FieldsApart(gs)
    ensures forall k :: 0 <= k < |gs| && DraftedBy(policy, gs[k], blocked, d) ==> d.field == gs[k][0].field
  {
    hide FieldDrafts, FieldOk, ValidScope, BlockedAmong;
    forall k | 0 <= k < |gs| && DraftedBy(policy, gs[k], blocked, d) ensures d.field == gs[k][0].field {
      var g := gs[k];
      FieldIsOk(policy[g[0].field], g[0].field, g, blocked);
      FieldOfDraft(FieldDrafts(policy[g[0].field], g[0].field, g, blocked), g[0].field,
                   if BlockedAmong(g, blocked) == [] then g else BlockedAmong(g, blocked), d);
    }
  }

  lemma FieldOfDraft(ds: seq<Draft>, field: string, cited: seq<Fact>, d: Draft)
    requires FieldOk(ds, field, cited) && d in ds
    ensures d.field == field
  {
    var i :| 0 <= i < |ds| && ds[i] == d;
  }

  lemma NobodyBlocked(facts: seq<Fact>, field: string, g: seq<Fact>)
    requires !FieldIsBlocked(facts, field) && forall f :: f in g ==> f in facts && f.field == field
    ensures BlockedAmong(g, BlockedIds(facts)) == []
  {
    hide BlockedIds;
    var blocked := BlockedIds(facts);
    var stuck := BlockedAmong(g, blocked);
    if stuck != [] {
      assert stuck[0] in stuck;
      FilterMember((h: Fact) => h.id in blocked, g, stuck[0]);
    }
  }

  // ---------------------------------------------------------------- scalar fields

  /** The draft of a scope is the scalar draft of some listing of these facts. */
  ghost predicate ScalarOf(d: Draft, here: seq<Fact>) {
    exists items :: items != [] && multiset(items) == multiset(here) && d == ScalarDraft(d.field, d.scope, items)
  }

  ghost predicate RepeatableOf(d: Draft, here: seq<Fact>) {
    exists items :: SortedByValue(items) && multiset(items) == multiset(here)
      && d == RepeatableDraft(d.field, d.scope, items)
  }

  lemma GroupIsAmong(g: seq<Fact>, sorted: seq<Fact>, facts: seq<Fact>, field: string, i: nat)
    requires multiset(g) == multiset(OfField(facts, field)) && multiset(sorted) == multiset(g)
    requires SortedByKey(ScopeKey, KeyLe, sorted) && i < |GroupBy(ScopeKey, sorted)|
    ensures var part := GroupBy(ScopeKey, sorted)[i];
            part != [] && multiset(part) == multiset(Among(facts, field, part[0].scope))
  {
    hide KeyLe, GroupBy, Among, OfField;
    KeyOrder();
    GroupsAreNonEmpty(ScopeKey, sorted);
    var part := GroupBy(ScopeKey, sorted)[i];
    forall f ensures multiset(part)[f] == multiset(Among(facts, field, part[0].scope))[f] {
      GroupCount(ScopeKey, KeyLe, sorted, i, f);
      AmongCount(facts, field, part[0].scope, f);
      OfFieldCount(facts, field, f);
      SameScopeKey(f, part[0]);
    }
  }

  lemma ScalarFieldDrafts(g: seq<Fact>, facts: seq<Fact>, field: string, d: Draft)
    requires multiset(g) == multiset(OfField(facts, field)) && g != [] && g[0].scope.kind != "vty_range"
    requires d in ScalarField(field, g)
    ensures d.field == field && ScalarOf(d, Among(facts, field, d.scope))
  {
    hide ScalarDraft, Sort, GroupBy, ScopeSorted, Among, OfField;
    var sorted := Sort(ScopeIdLe, g);
    ScopeOrders();
    SortedScopeFirst(g);
    SortKeepsCount(ScopeIdLe, g);
    assert SortedByKey(ScopeKey, KeyLe, sorted) by { SortedIsByKey(sorted, g); }
    var gs: seq<seq<Fact>> := GroupBy(ScopeKey, sorted);
    GroupsAreNonEmpty(ScopeKey, sorted);
    var i :| 0 <= i < |ScalarField(field, g)| && ScalarField(field, g)[i] == d;
    GroupIsAmong(g, sorted, facts, field, i);
    ScalarDraftScope(field, gs[i][0].scope, gs[i]);
  }

  lemma SortedIsByKey(sorted: seq<Fact>, facts: seq<Fact>)
    requires ScopeSorted(sorted, facts)
    ensures SortedByKey(ScopeKey, KeyLe, sorted)
  {
  }

  lemma RepeatableFieldDrafts(g: seq<Fact>, facts: seq<Fact>, field: string, d: Draft)
    requires multiset(g) == multiset(OfField(facts, field)) && d in RepeatableField(field, g)
    ensures d.field == field && RepeatableOf(d, Among(facts, field, d.scope))
  {
    hide RepeatableDraft, Sort, GroupBy, ScopeSorted, Among, OfField, SortedByValue;
    var sorted := Sort(ScopeValueLe, g);
    ScopeOrders();
    SortedScopeThenValue(g);
    SortKeepsCount(ScopeValueLe, g);
    assert SortedByKey(ScopeKey, KeyLe, sorted) by { SortedIsByKey(sorted, g); }
    var gs: seq<seq<Fact>> := GroupBy(ScopeKey, sorted);
    GroupsAreNonEmpty(ScopeKey, sorted);
    var i :| 0 <= i < |RepeatableField(field, g)| && RepeatableField(field, g)[i] == d;
    GroupIsAmong(g, sorted, facts, field, i);
    GroupIsByValue(g, i);
    RepeatableDraftScope(field, gs[i][0].scope, gs[i]);
  }

  lemma RepeatableDraftScope(field: string, scope: Scope, items: seq<Fact>)
    ensures RepeatableDraft(field, scope, items).field == field && RepeatableDraft(field, scope, items).scope == scope
  {
    hide Sources, Inputs, Bounded, MembersOf, AnyUndecided, KeptContents, MemberEvents;
  }

  /** Within a scope the facts come by value. */
  lemma GroupIsByValue(g: seq<Fact>, i: nat)
    requires i < |GroupBy(ScopeKey, Sort(ScopeValueLe, g))|
    ensures SortedByValue(GroupBy(ScopeKey, Sort(ScopeValueLe, g))[i])
  {
    hide KeyLe, GroupBy, ScopeSorted;
    var sorted := Sort(ScopeValueLe, g);
    ScopeOrders();
    SortSorts(ScopeValueLe, g);
    GroupsStaySorted(ScopeKey, ScopeValueLe, sorted);
    SortedScopeThenValue(g);
    ScopeGroups(g, sorted);
    var part := GroupBy(ScopeKey, sorted)[i];
    forall a, b | 0 <= a < b < |part| ensures TextLe(ContentKey(part[a]), ContentKey(part[b])) {
      assert part[a] in part && part[b] in part && ScopeValueLe(part[a], part[b]);
      SameScopeKey(part[a], part[b]);
      SameFront(ScopeKey(part[a]), ContentKey(part[a]), ContentKey(part[b]));
    }
  }

  lemma SameFront(front: seq<string>, x: string, y: string)
    requires KeyLe(front + [x], front + [y])
    ensures TextLe(x, y)
  {
    TextOrder();
    LexBehind(TextLe, front, [x], [y]);
    assert Lex(TextLe, [x], [y]);
  }

  lemma {:induction false} LexBehind<T>(le: (T, T) -> bool, front: seq<T>, a: seq<T>, b: seq<T>)
    requires Lex(le, front + a, front + b)
    ensures Lex(le, a, b)
  {
    if front == [] {
      assert front + a == a && front + b == b;
    } else {
      assert (front + a)[1..] == front[1..] + a && (front + b)[1..] == front[1..] + b;
      LexBehind(le, front[1..], a, b);
    }
  }

  // ---------------------------------------------------------------- what a list of facts says

  /** Within one artifact two replays end differently; across artifacts the facts do not all say the same. */
  ghost predicate Disputed(items: seq<Fact>) {
    if OneArtifact(items) then
      exists t, u :: Schedule(t, items) && Schedule(u, items) && t != [] && u != [] && Outcome(t) != Outcome(u)
    else !Agree(items)
  }

  /** What every replay ends with, or every fact says. */
  ghost predicate Says(items: seq<Fact>, outcome: (Operation, Content)) {
    if OneArtifact(items) then forall t :: Schedule(t, items) && t != [] ==> Outcome(t) == outcome
    else forall f :: f in items ==> (f.operation, f.content) == outcome
  }

  lemma SameSaying(a: seq<Fact>, b: seq<Fact>)
    requires multiset(a) == multiset(b)
    ensures Disputed(a) <==> Disputed(b)
    ensures forall outcome :: Says(a, outcome) <==> Says(b, outcome)
  {
    SameMembers(a, b);
    AgreeWithin(a, b);
    AgreeWithin(b, a);
    hide Agree, OneArtifact, Schedule;
  }

  lemma AgreeWithin(a: seq<Fact>, b: seq<Fact>)
    requires forall f :: f in b ==> f in a
    ensures Agree(a) ==> Agree(b)
  {
    if Agree(a) {
      forall i, j | 0 <= i < |b| && 0 <= j < |b| ensures SameVerdict(b[i], b[j]) {
        assert b[i] in a && b[j] in a;
        var x :| 0 <= x < |a| && a[x] == b[i];
        var y :| 0 <= y < |a| && a[y] == b[j];
        assert SameVerdict(a[x], a[y]);
      }
    }
  }

  /** Undisputed facts say what their winner says, and nothing else. */
  lemma WinnerSays(items: seq<Fact>)
    requires items != []
    ensures var w := OrderedWinner(items);
            && w.fact in items && (w.conflict <==> Disputed(items))
            && (!w.conflict ==>
                  forall outcome :: Says(items, outcome) <==> outcome == (w.fact.operation, w.fact.content))
  {
    var w := OrderedWinner(items);
    WinnerIsMember(items);
    if OneArtifact(items) {
      WinnerIsReplay(items);
      SortByLine(items);
      var t := Sort(LineLe, items);
      SameMembers(t, items);
      hide OrderedWinner, Sort;
      assert Schedule(t, items) && t != [];
    } else {
      WinnerAcrossArtifacts(items);
      hide OrderedWinner;
      if !w.conflict {
        forall f | f in items ensures (f.operation, f.content) == (w.fact.operation, w.fact.content) {
          var i :| 0 <= i < |items| && items[i] == f;
          var k :| 0 <= k < |items| && items[k] == w.fact;
          assert SameVerdict(items[i], items[k]);
        }
      }
    }
  }

  // ---------------------------------------------------------------- collections

  function About(here: seq<Fact>, c: Content): seq<Fact> {
    Filter((f: Fact) => f.content == c, here)
  }

  /** Nothing settles whether the value is a member: the facts about it are disputed, or only reset it. */
  ghost predicate Unsettled(here: seq<Fact>, c: Content) {
    About(here, c) != [] && (Disputed(About(here, c)) || Says(About(here, c), (Reset, c)))
  }

  ghost predicate Added(here: seq<Fact>, c: Content) {
    About(here, c) != [] && !Disputed(About(here, c)) && Says(About(here, c), (Assign, c))
  }

  /** The draft holds the values the facts add; it conflicts when one of them is not settled. */
  ghost predicate Collects(d: Draft, here: seq<Fact>) {
    && (d.status == Conflicting <==> exists c :: Unsettled(here, c))
    && (d.status != Conflicting ==>
          && d.status == Resolved && d.value.Some? && d.value.value.Members? && NoRepeats(d.value.value.contents)
          && forall c :: c in d.value.value.contents <==> Added(here, c))
  }

  lemma GroupIsAbout(items: seq<Fact>, here: seq<Fact>, i: nat)
    requires SortedByValue(items) && multiset(items) == multiset(here) && i < |MembersOf(items)|
    ensures var g := MembersOf(items)[i];
            g != [] && multiset(g) == multiset(About(here, g[0].content)) && About(here, g[0].content) != []
            && forall f :: f in g ==> f.content == g[0].content
  {
    hide GroupBy, About;
    TextOrder();
    GroupsAreNonEmpty(ContentKey, items);
    var g := MembersOf(items)[i];
    forall f ensures multiset(g)[f] == multiset(About(here, g[0].content))[f] {
      GroupCount(ContentKey, TextLe, items, i, f);
      FilterCount((h: Fact) => h.content == g[0].content, here, f);
      AboutCount(here, g[0].content, f);
      SameKeySameContent(f, g[0]);
    }
    assert multiset(g) == multiset(About(here, g[0].content));
    SameMembers(g, About(here, g[0].content));
    forall f | f in g ensures f.content == g[0].content {
      AboutCount(here, g[0].content, f);
      assert f in multiset(g);
    }
  }

  lemma AboutCount(here: seq<Fact>, c: Content, f: Fact)
    ensures multiset(About(here, c))[f] == if f.content == c then multiset(here)[f] else 0
  {
    FilterCount((h: Fact) => h.content == c, here, f);
  }

  /** What the code decides of a group is what the facts about its value say. */
  lemma GroupDecides(items: seq<Fact>, here: seq<Fact>, i: nat)
    requires SortedByValue(items) && multiset(items) == multiset(here) && i < |MembersOf(items)|
    ensures var g := MembersOf(items)[i];
            && g != [] && OrderedWinner(g).fact.content == g[0].content
            && (Undecided(g) <==> Unsettled(here, g[0].content)) && (Kept(g) <==> Added(here, g[0].content))
  {
    hide OrderedWinner, Disputed, Says, About, MembersOf;
    GroupIsAbout(items, here, i);
    var g := MembersOf(items)[i];
    SameSaying(g, About(here, g[0].content));
    WinnerSays(g);
  }

  lemma GroupOfValue(items: seq<Fact>, here: seq<Fact>, c: Content) returns (i: nat)
    requires SortedByValue(items) && multiset(items) == multiset(here) && About(here, c) != []
    ensures i < |MembersOf(items)| && NonEmpty(MembersOf(items)) && MembersOf(items)[i][0].content == c
  {
    hide MembersOf, SortedByValue;
    var f := About(here, c)[0];
    FilterMember((h: Fact) => h.content == c, here, f);
    SameMembers(items, here);
    i := GroupIsAllAbout(items, f);
    assert MembersOf(items)[i][0] in MembersOf(items)[i];
  }

  lemma {:induction false} KeptDiffer(gs: seq<seq<Fact>>)
    requires NonEmpty(gs) && forall i :: 0 <= i < |gs| ==> OrderedWinner(gs[i]).fact.content == gs[i][0].content
    requires forall i, j :: 0 <= i < j < |gs| ==> gs[i][0].content != gs[j][0].content
    ensures NoRepeats(KeptContents(gs))
  {
    hide OrderedWinner;
    if gs != [] {
      var init, g := gs[..|gs| - 1], gs[|gs| - 1];
      assert forall i :: 0 <= i < |init| ==> init[i] == gs[i];
      KeptDiffer(init);
      KeptContentsMember(init, g[0].content);
      assert g[0].content !in KeptContents(init);
    }
  }

  lemma GroupsDiffer(items: seq<Fact>)
    requires SortedByValue(items)
    ensures NonEmpty(MembersOf(items))
    ensures var gs: seq<seq<Fact>> := MembersOf(items);
            forall i, j :: 0 <= i < j < |gs| ==> gs[i][0].content != gs[j][0].content
  {
    TextOrder();
    GroupByGroups(ContentKey, TextLe, items);
    GroupsAreNonEmpty(ContentKey, items);
    var gs: seq<seq<Fact>> := MembersOf(items);
    forall i, j | 0 <= i < j < |gs| ensures gs[i][0].content != gs[j][0].content {
      assert Before(TextLe, KeyOf(ContentKey, gs[i]), KeyOf(ContentKey, gs[j]));
    }
  }

  lemma AnyUndecidedIff(items: seq<Fact>, here: seq<Fact>)
    requires SortedByValue(items) && multiset(items) == multiset(here)
    ensures NonEmpty(MembersOf(items)) && (AnyUndecided(MembersOf(items)) <==> exists c :: Unsettled(here, c))
  {
    GroupsDiffer(items);
    var gs: seq<seq<Fact>> := MembersOf(items);
    hide MembersOf, Undecided, Kept, Unsettled, Added, OrderedWinner, SortedByValue;
    forall i | 0 <= i < |gs| ensures Undecided(gs[i]) <==> Unsettled(here, gs[i][0].content) {
      GroupDecides(items, here, i);
    }
    if c :| Unsettled(here, c) {
      UnsettledIsAbout(here, c);
      var i := GroupOfValue(items, here, c);
    }
  }

  lemma KeptIsAdded(items: seq<Fact>, here: seq<Fact>)
    requires SortedByValue(items) && multiset(items) == multiset(here)
    ensures NonEmpty(MembersOf(items)) && NoRepeats(KeptContents(MembersOf(items)))
    ensures forall c :: c in KeptContents(MembersOf(items)) <==> Added(here, c)
  {
    GroupsDiffer(items);
    var gs: seq<seq<Fact>> := MembersOf(items);
    hide MembersOf, Undecided, Kept, Unsettled, Added, OrderedWinner, SortedByValue;
    forall i | 0 <= i < |gs|
      ensures OrderedWinner(gs[i]).fact.content == gs[i][0].content
      ensures Kept(gs[i]) <==> Added(here, gs[i][0].content)
    {
      GroupDecides(items, here, i);
    }
    KeptDiffer(gs);
    forall c ensures c in KeptContents(gs) <==> Added(here, c) {
      KeptContentsMember(gs, c);
      if Added(here, c) {
        UnsettledIsAbout(here, c);
        var i := GroupOfValue(items, here, c);
      }
    }
  }

  lemma RepeatableCollects(d: Draft, here: seq<Fact>)
    requires RepeatableOf(d, here)
    ensures Collects(d, here)
  {
    var items :| SortedByValue(items) && multiset(items) == multiset(here)
                 && d == RepeatableDraft(d.field, d.scope, items);
    AnyUndecidedIff(items, here);
    KeptIsAdded(items, here);
    hide Sources, Inputs, Bounded, MemberEvents, MembersOf, KeptContents, AnyUndecided, Unsettled, Added;
  }

  lemma UnsettledIsAbout(here: seq<Fact>, c: Content)
    ensures Unsettled(here, c) || Added(here, c) ==> About(here, c) != []
  {
  }

  // ---------------------------------------------------------------- the drafts a resolution returns

  /** A draft of the field in this scope is returned. */
  ghost predicate Returned(ds: seq<Draft>, field: string, scope: Scope) {
    exists i :: 0 <= i < |ds| && ds[i].field == field && ds[i].scope == scope
  }

  /** Every draft of a collection, and there is one for every scope of its facts, holds what the facts there add. */
  lemma ResolvedCollections(policy: Policy, reg: Registry, facts: seq<Fact>, field: string)
    requires Resolve(policy, reg, facts).Ok? && field in policy && policy[field] == Repeatable
    requires OfField(facts, field) != [] && !FieldIsBlocked(facts, field)
    ensures var ds := Resolve(policy, reg, facts).value;
            && (forall d :: d in ds && d.field == field ==> Collects(d, Among(facts, field, d.scope)))
            && (forall f :: f in facts && f.field == field ==> Returned(ds, field, f.scope))
  {
    hide Resolve, FieldDrafts, Among, OfField, Collects, RepeatableOf, RepeatableField, Returned, FieldScopeIdLe;
    hide ValidScope, FieldIsBlocked, BlockedIds;
    var ds := Resolve(policy, reg, facts).value;
    var g := DraftsOfField(policy, reg, facts, field);
    InField(facts, field, g);
    FieldIsCollection(policy, facts, field, g);
    forall d | d in ds && d.field == field ensures Collects(d, Among(facts, field, d.scope)) {
      RepeatableFieldDrafts(g, facts, field, d);
      RepeatableCollects(d, Among(facts, field, d.scope));
    }
    forall f | f in facts && f.field == field ensures Returned(ds, field, f.scope) {
      CollectionHasDraft(field, g, f, ds);
    }
  }

  lemma InField(facts: seq<Fact>, field: string, g: seq<Fact>)
    requires multiset(g) == multiset(OfField(facts, field))
    ensures forall f :: f in g <==> f in facts && f.field == field
  {
    forall f ensures f in g <==> f in facts && f.field == field {
      OfFieldCount(facts, field, f);
      assert f in g <==> f in multiset(g);
      assert f in facts <==> f in multiset(facts);
    }
  }

  lemma FieldIsCollection(policy: Policy, facts: seq<Fact>, field: string, g: seq<Fact>)
    requires field in policy && policy[field] == Repeatable && !FieldIsBlocked(facts, field)
    requires forall f :: f in g ==> f in facts && f.field == field
    ensures FieldDrafts(policy[field], field, g, BlockedIds(facts)) == RepeatableField(field, g)
  {
    hide BlockedIds, RepeatableField, FieldIsBlocked;
    NobodyBlocked(facts, field, g);
  }

  lemma CollectionHasDraft(field: string, g: seq<Fact>, f: Fact, ds: seq<Draft>)
    requires f in g && (forall h :: h in g ==> ValidScope(h.scope) && h.field == field)
    requires forall d :: d in RepeatableField(field, g) ==> d in ds
    ensures Returned(ds, field, f.scope)
  {
    hide RepeatableField, ValidScope, ValidDraft, ScopeAmong, Cites;
    RepeatableGroupsOk(field, g);
    var here := RepeatableField(field, g);
    assert DraftedScope(here, f.scope);
    var i :| 0 <= i < |here| && here[i].scope == f.scope;
    assert here[i] in ds;
    var k :| 0 <= k < |ds| && ds[k] == here[i];
  }

  /** The draft holds what a replay of the facts leaves, and conflicts exactly when two replays leave different sets. */
  ghost predicate Replays(d: Draft, here: seq<Fact>) {
    && (d.status == Conflicting <==>
          exists t, u :: Schedule(t, here) && Schedule(u, here) && ReplayMembers(t) != ReplayMembers(u))
    && (d.status != Conflicting ==>
          && d.status == Resolved && d.value.Some? && d.value.value.Members?
          && forall t, c :: Schedule(t, here) ==> (c in ReplayMembers(t) <==> c in d.value.value.contents))
  }

  lemma RepeatableReplays(d: Draft, here: seq<Fact>)
    requires RepeatableOf(d, here) && OneArtifact(here) && forall f :: f in here ==> f.operation != Reset
    ensures Replays(d, here)
  {
    var items :| SortedByValue(items) && multiset(items) == multiset(here)
                 && d == RepeatableDraft(d.field, d.scope, items);
    hide SortedByValue, RepeatableDraft, OneArtifact, Replays;
    SameMembers(items, here);
    ItemsReplay(d, items);
    ReplaysAlike(d, items, here);
  }

  lemma ItemsReplay(d: Draft, items: seq<Fact>)
    requires SortedByValue(items) && d == RepeatableDraft(d.field, d.scope, items)
    requires OneArtifact(items) && forall f :: f in items ==> f.operation != Reset
    ensures Replays(d, items)
  {
    hide SortedByValue, RepeatableDraft, OneArtifact, Schedule, ReplayMembers;
    RepeatableIsReplay(d.field, d.scope, items);
  }

  lemma ReplaysAlike(d: Draft, items: seq<Fact>, here: seq<Fact>)
    requires multiset(items) == multiset(here) && Replays(d, items)
    ensures Replays(d, here)
  {
    hide Schedule, ReplayMembers;
    forall t ensures Schedule(t, items) <==> Schedule(t, here) {
      SameSchedule(t, items, here);
    }
  }

  lemma SameSchedule(t: seq<Fact>, items: seq<Fact>, here: seq<Fact>)
    requires multiset(items) == multiset(here)
    ensures Schedule(t, items) <==> Schedule(t, here)
  {
  }

  /** Where the facts of a scope come from one artifact and none of them resets, they are replayed. */
  lemma ResolvedCollectionsReplay(policy: Policy, reg: Registry, facts: seq<Fact>, d: Draft)
    requires Resolve(policy, reg, facts).Ok? && d in Resolve(policy, reg, facts).value
    requires d.field in policy && policy[d.field] == Repeatable && OfField(facts, d.field) != []
    requires !FieldIsBlocked(facts, d.field) && OneArtifact(Among(facts, d.field, d.scope))
    requires forall f :: f in Among(facts, d.field, d.scope) ==> f.operation != Reset
    ensures Replays(d, Among(facts, d.field, d.scope))
  {
    hide Resolve, FieldDrafts, Among, OfField, Replays, RepeatableOf, RepeatableField, FieldScopeIdLe, OneArtifact;
    hide ValidScope, FieldIsBlocked, BlockedIds;
    var g := DraftsOfField(policy, reg, facts, d.field);
    InField(facts, d.field, g);
    FieldIsCollection(policy, facts, d.field, g);
    RepeatableFieldDrafts(g, facts, d.field, d);
    RepeatableReplays(d, Among(facts, d.field, d.scope));
  }

  // ---------------------------------------------------------------- blocked fields and refused facts

  ghost predicate BlockedIn(facts: seq<Fact>, field: string, scope: Scope) {
    exists f :: f in facts && f.field == field && f.id in BlockedIds(facts) && f.scope == scope
  }

  /** A field with blocked facts has a draft for each scope of these and no other, unknown for want of evidence. */
  lemma ResolvedBlocked(policy: Policy, reg: Registry, facts: seq<Fact>, field: string)
    requires Resolve(policy, reg, facts).Ok? && FieldIsBlocked(facts, field)
    ensures var ds := Resolve(policy, reg, facts).value;
            && (forall d :: d in ds && d.field == field ==>
                  && d.status == Unknown && d.value == None && d.reason == Some(MissingEvidence)
                  && BlockedIn(facts, field, d.scope))
            && (forall f :: f in facts && f.field == field && f.id in BlockedIds(facts) ==>
                  Returned(ds, field, f.scope))
  {
    hide Resolve, FieldDrafts, OfField, FieldScopeIdLe, ValidScope, BlockedIds, BlockedField, BlockedAmong, Returned;
    hide BlockedIn;
    var ds, ids := Resolve(policy, reg, facts).value, BlockedIds(facts);
    HasFacts(facts, field);
    var g := DraftsOfField(policy, reg, facts, field);
    InField(facts, field, g);
    var stuck := BlockedAmong(g, ids);
    forall f ensures f in stuck <==> f in facts && f.field == field && f.id in ids {
      StuckMember(g, ids, f);
    }
    FieldIsStuck(policy, field, g, ids);
    forall d | d in ds && d.field == field
      ensures d.status == Unknown && d.value == None && d.reason == Some(MissingEvidence)
      ensures BlockedIn(facts, field, d.scope)
    {
      var f := BlockedDraftOf(field, stuck, d);
      assert BlockedIn(facts, field, d.scope) by { IsBlockedIn(facts, field, f); }
    }
    forall f | f in facts && f.field == field && f.id in ids ensures Returned(ds, field, f.scope) {
      var d := BlockedScopeHasDraft(field, stuck, f);
      IsReturned(ds, field, d);
    }
  }

  lemma HasFacts(facts: seq<Fact>, field: string)
    requires FieldIsBlocked(facts, field)
    ensures OfField(facts, field) != []
  {
    var f :| f in facts && f.field == field && f.id in BlockedIds(facts);
    FilterMember((h: Fact) => h.field == field, facts, f);
  }

  lemma StuckMember(g: seq<Fact>, ids: set<string>, f: Fact)
    ensures f in BlockedAmong(g, ids) <==> f in g && f.id in ids
  {
    FilterMember((h: Fact) => h.id in ids, g, f);
  }

  lemma FieldIsStuck(policy: Policy, field: string, g: seq<Fact>, ids: set<string>)
    requires field in policy && BlockedAmong(g, ids) != []
    ensures FieldDrafts(policy[field], field, g, ids) == BlockedField(field, BlockedAmong(g, ids))
  {
    hide BlockedField, BlockedAmong;
  }

  lemma IsBlockedIn(facts: seq<Fact>, field: string, f: Fact)
    requires f in facts && f.field == field && f.id in BlockedIds(facts)
    ensures BlockedIn(facts, field, f.scope)
  {
    hide BlockedIds;
  }

  lemma IsReturned(ds: seq<Draft>, field: string, d: Draft)
    requires d in ds && d.field == field
    ensures Returned(ds, field, d.scope)
  {
    var i :| 0 <= i < |ds| && ds[i] == d;
  }

  lemma BlockedDraftOf(field: string, stuck: seq<Fact>, d: Draft) returns (f: Fact)
    requires d in BlockedField(field, stuck)
    ensures f in stuck && d.scope == f.scope && d.field == field
    ensures d.status == Unknown && d.value == None && d.reason == Some(MissingEvidence)
  {
    hide Sources, Bounded;
    var all := Map((h: Fact) => h.scope, stuck);
    DedupeKeeps(all);
    var i :| 0 <= i < |BlockedField(field, stuck)| && BlockedField(field, stuck)[i] == d;
    assert Dedupe(all)[i] in Dedupe(all);
    var k :| 0 <= k < |all| && all[k] == Dedupe(all)[i];
    f := stuck[k];
  }

  lemma BlockedScopeHasDraft(field: string, stuck: seq<Fact>, f: Fact) returns (d: Draft)
    requires f in stuck
    ensures d in BlockedField(field, stuck) && d.scope == f.scope && d.field == field
  {
    hide Sources, Bounded;
    var all := Map((h: Fact) => h.scope, stuck);
    DedupeKeeps(all);
    var k :| 0 <= k < |stuck| && stuck[k] == f;
    assert all[k] in all;
    var i :| 0 <= i < |Dedupe(all)| && Dedupe(all)[i] == f.scope;
    d := BlockedField(field, stuck)[i];
  }

  /** One fact without a valid scope, or a reset with a value or a removal without one, refuses the whole resolution. */
  lemma MalformedIff(policy: Policy, reg: Registry, facts: seq<Fact>)
    ensures Resolve(policy, reg, facts) == Err(MalformedFact) <==>
              exists f :: f in facts
                && (!ValidScope(f.scope) || (f.operation == Reset && f.content != Null)
                    || (f.operation == Remove && f.content == Null))
  {
    hide ValidScope, FirstFault, FieldGroups, BlockedIds, DraftsOf;
    FieldGroupsAreNonEmpty(facts);
    FaultIsOfDrafts(policy, reg, FieldGroups(facts), BlockedIds(facts));
    if f :| f in facts && !Classified(f) {
      var i :| 0 <= i < |facts| && facts[i] == f;
    }
  }

  lemma {:induction false} FaultIsOfDrafts(policy: Policy, reg: Registry, gs: seq<seq<Fact>>, blocked: set<string>)
    requires NonEmpty(gs)
    ensures FirstFault(policy, reg, gs, blocked) != Some(MalformedFact)
  {
    hide FieldDrafts, Accepted;
    if gs != [] {
      FaultIsOfDrafts(policy, reg, gs[..|gs| - 1], blocked);
    }
  }

  // ---------------------------------------------------------------- scalar fields

  /** The draft shows what the facts say, and conflicts exactly when they are disputed. */
  ghost predicate Tells(d: Draft, here: seq<Fact>) {
    && (d.status == Conflicting <==> Disputed(here))
    && (!Disputed(here) ==> exists outcome :: Says(here, outcome))
    && forall outcome :: !Disputed(here) && Says(here, outcome) ==> Shows(d, outcome)
  }

  lemma ScalarTells(d: Draft, here: seq<Fact>)
    requires ScalarOf(d, here)
    ensures here != [] && Tells(d, here)
  {
    var items :| items != [] && multiset(items) == multiset(here) && d == ScalarDraft(d.field, d.scope, items);
    hide OrderedWinner, ScalarDraft, Says, Disputed, Shows, Tells, OneArtifact, Schedule;
    SameMembers(items, here);
    ItemsTell(d, items);
    TellAlike(d, items, here);
  }

  lemma ItemsTell(d: Draft, items: seq<Fact>)
    requires items != [] && d == ScalarDraft(d.field, d.scope, items)
    ensures Tells(d, items)
  {
    hide OrderedWinner, ScalarDraft, Says, Disputed, Shows;
    WinnerSays(items);
    ScalarShows(d.field, d.scope, items);
    var w := OrderedWinner(items);
    if !w.conflict {
      assert Says(items, (w.fact.operation, w.fact.content));
    }
  }

  lemma TellAlike(d: Draft, items: seq<Fact>, here: seq<Fact>)
    requires multiset(items) == multiset(here) && Tells(d, items)
    ensures Tells(d, here)
  {
    hide Says, Disputed, Shows;
    SameSaying(items, here);
  }

  lemma ScalarShows(field: string, scope: Scope, items: seq<Fact>)
    requires items != []
    ensures var d, w := ScalarDraft(field, scope, items), OrderedWinner(items);
            && (d.status == Conflicting <==> w.conflict)
            && (!w.conflict ==> Shows(d, (w.fact.operation, w.fact.content)))
  {
    hide OrderedWinner, Sources, Inputs, Saying, Bounded;
  }

  /** On a scalar field with a fact beyond VTY lines, drafts tell what the facts of their scope say. */
  lemma ResolvedScalars(policy: Policy, reg: Registry, facts: seq<Fact>, field: string)
    requires Resolve(policy, reg, facts).Ok? && field in policy && policy[field] == Scalar
    requires exists f :: f in OfField(facts, field) && f.scope.kind != "vty_range"
    requires !FieldIsBlocked(facts, field)
    ensures var ds := Resolve(policy, reg, facts).value;
            && (forall d :: d in ds && d.field == field ==> Tells(d, Among(facts, field, d.scope)))
            && (forall f :: f in facts && f.field == field ==> Returned(ds, field, f.scope))
  {
    hide Resolve, FieldDrafts, Among, OfField, Tells, ScalarOf, ScalarField, Returned, FieldScopeIdLe, ValidScope;
    hide FieldIsBlocked, BlockedIds, VtyPartitions.IsVty;
    var ds := Resolve(policy, reg, facts).value;
    var g := DraftsOfField(policy, reg, facts, field);
    InField(facts, field, g);
    SameMembers(g, OfField(facts, field));
    FieldIsScalar(policy, facts, field, g);
    SomeOtherScope(facts, field, g);
    forall d | d in ds && d.field == field ensures Tells(d, Among(facts, field, d.scope)) {
      ScalarFieldDrafts(g, facts, field, d);
      ScalarTells(d, Among(facts, field, d.scope));
    }
    forall f | f in facts && f.field == field ensures Returned(ds, field, f.scope) {
      ScalarHasDraft(field, g, f, ds);
    }
  }

  lemma SomeOtherScope(facts: seq<Fact>, field: string, g: seq<Fact>)
    requires g != [] && Sorted(FieldScopeIdLe, g) && exists f :: f in g && f.scope.kind != "vty_range"
    requires forall f :: f in g ==> ValidScope(f.scope) && f.field == field
    ensures g[0].scope.kind != "vty_range"
  {
    hide ValidScope, FieldScopeIdLe;
    assert g[0] in g;
    if g[0].scope.kind == "vty_range" {
      VtyFirstMeansVtyOnly(g);
    }
  }

  lemma FieldIsScalar(policy: Policy, facts: seq<Fact>, field: string, g: seq<Fact>)
    requires field in policy && policy[field] == Scalar && !FieldIsBlocked(facts, field)
    requires forall f :: f in g ==> f in facts && f.field == field
    ensures FieldDrafts(policy[field], field, g, BlockedIds(facts)) == ScalarField(field, g)
  {
    hide BlockedIds, ScalarField, FieldIsBlocked;
    NobodyBlocked(facts, field, g);
  }

  lemma ScalarHasDraft(field: string, g: seq<Fact>, f: Fact, ds: seq<Draft>)
    requires f in g && g[0].scope.kind != "vty_range"
    requires forall h :: h in g ==> ValidScope(h.scope) && h.field == field
    requires forall d :: d in ScalarField(field, g) ==> d in ds
    ensures Returned(ds, field, f.scope)
  {
    hide ScalarField, ValidScope, ValidDraft, ScopeAmong, Cites;
    ScalarGroupsOk(field, g);
    var here := ScalarField(field, g);
    assert DraftedScope(here, f.scope);
    var i :| 0 <= i < |here| && here[i].scope == f.scope;
    assert here[i] in ds;
    var k :| 0 <= k < |ds| && ds[k] == here[i];
  }

  // ---------------------------------------------------------------- VTY ranges

  /** The facts of the field whose range covers the line. */
  function OnLineOf(facts: seq<Fact>, field: string, line: int): seq<Fact> {
    Filter((f: Fact) => f.field == field && VtyPartitions.Covers(f, line), facts)
  }

  /** Exactly one draft of the field covers the line, and it tells what the facts on the line say. */
  ghost predicate TellsLine(ds: seq<Draft>, field: string, line: int, here: seq<Fact>) {
    exists i :: 0 <= i < |ds| && ds[i].field == field && DraftCovers(ds[i], line) && Tells(ds[i], here)
      && forall j :: 0 <= j < |ds| && ds[j].field == field && DraftCovers(ds[j], line) ==> ds[j] == ds[i]
  }

  lemma LineFacts(facts: seq<Fact>, field: string, line: int, g: seq<Fact>)
    requires multiset(g) == multiset(OfField(facts, field))
    ensures multiset(VtyPartitions.On(g, line)) == multiset(OnLineOf(facts, field, line))
  {
    hide OfField;
    forall f ensures multiset(VtyPartitions.On(g, line))[f] == multiset(OnLineOf(facts, field, line))[f] {
      FilterCount((h: Fact) => VtyPartitions.Covers(h, line), g, f);
      FilterCount((h: Fact) => h.field == field && VtyPartitions.Covers(h, line), facts, f);
      OfFieldCount(facts, field, f);
    }
  }

  /** On a scalar field of VTY facts every covered line has one draft, and an uncovered one none. */
  lemma ResolvedLines(policy: Policy, reg: Registry, facts: seq<Fact>, field: string, line: int)
    requires Resolve(policy, reg, facts).Ok? && field in policy && policy[field] == Scalar
    requires OfField(facts, field) != [] && forall f :: f in OfField(facts, field) ==> f.scope.kind == "vty_range"
    requires !FieldIsBlocked(facts, field)
    ensures var ds, here := Resolve(policy, reg, facts).value, OnLineOf(facts, field, line);
            && (here == [] ==> forall d :: d in ds && d.field == field ==> !DraftCovers(d, line))
            && (here != [] ==> TellsLine(ds, field, line, here))
  {
    hide Resolve, FieldDrafts, OfField, Tells, ScalarOf, ScalarField, FieldScopeIdLe, ValidScope, OnLineOf, DraftCovers;
    hide FieldIsBlocked, BlockedIds, VtyPartitions.On, TellsLine;
    var ds, here := Resolve(policy, reg, facts).value, OnLineOf(facts, field, line);
    var g := DraftsOfField(policy, reg, facts, field);
    InField(facts, field, g);
    SameMembers(g, OfField(facts, field));
    FieldIsScalar(policy, facts, field, g);
    LineFacts(facts, field, line, g);
    SameMembers(VtyPartitions.On(g, line), here);
    assert forall i :: 0 <= i < |g| ==> g[i] in g;
    LineOfField(field, g, line, ds, here);
  }

  lemma LineOfField(field: string, g: seq<Fact>, line: int, ds: seq<Draft>, here: seq<Fact>)
    requires g != [] && forall i :: 0 <= i < |g| ==> VtyPartitions.IsVty(g[i])
    requires multiset(VtyPartitions.On(g, line)) == multiset(here) && |VtyPartitions.On(g, line)| == |here|
    requires forall d :: d in ds && d.field == field <==> d in ScalarField(field, g)
    ensures here == [] ==> forall d :: d in ds && d.field == field ==> !DraftCovers(d, line)
    ensures here != [] ==> TellsLine(ds, field, line, here)
  {
    hide ScalarField, VtyPartitions.On, DraftCovers, Tells, ScalarDraft, VtyPartitions.IsVty;
    var all := ScalarField(field, g);
    VtyFieldIsLineByLine(field, g, line);
    if here != [] {
      var i :| 0 <= i < |all| && DraftCovers(all[i], line)
               && all[i] == ScalarDraft(field, all[i].scope, VtyPartitions.On(g, line))
               && forall j :: 0 <= j < |all| && j != i ==> !DraftCovers(all[j], line);
      ScalarDraftScope(field, all[i].scope, VtyPartitions.On(g, line));
      assert ScalarOf(all[i], here);
      ScalarTells(all[i], here);
      assert all[i] in all && all[i] in ds;
      var k :| 0 <= k < |ds| && ds[k] == all[i];
      forall j | 0 <= j < |ds| && ds[j].field == field && DraftCovers(ds[j], line) ensures ds[j] == ds[k] {
        assert ds[j] in ds && ds[j] in all;
        var m :| 0 <= m < |all| && all[m] == ds[j];
      }
    }
  }
}
