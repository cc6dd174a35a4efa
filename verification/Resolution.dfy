/** What resolved drafts mean: replaying lines of source, reading VTY lines one by one, citing facts. */
module Resolution {
  import opened Common
  import opened Scopes
  import opened Facts
  import opened Ordering
  import opened Replay
  import opened Resolver
  import VtyPartitions

  // ---------------------------------------------------------------- scalar scopes

  /** What a replay that ended with the given operation shows. */
  ghost predicate Shows(d: Draft, outcome: (Operation, Content)) {
    match outcome.0
    case Assign => d.status == Resolved && d.value == Some(Single(outcome.1)) && d.reason == None
    case Reset => d.status == Unknown && d.value == None && d.reason == Some(UnresolvedDefault)
    case Remove => d.status == Unknown && d.value == None && d.reason == Some(UnknownSemantics)
  }

  /** Within one artifact a scalar draft is what every schedule replays to; it conflicts when they differ. */
  lemma ScalarIsReplay(field: string, scope: Scope, items: seq<Fact>)
    requires items != [] && OneArtifact(items)
    ensures var d := ScalarDraft(field, scope, items);
            && (d.status == Conflicting <==>
                exists t, u :: Schedule(t, items) && Schedule(u, items) && t != [] && u != []
                    && Outcome(t) != Outcome(u))
            && (d.status != Conflicting ==> forall t :: Schedule(t, items) && t != [] ==> Shows(d, Outcome(t)))
  {
    WinnerIsReplay(items);
  }

  /** Across artifacts a scalar draft conflicts unless all facts agree, and then shows what they say. */
  lemma ScalarAcrossArtifacts(field: string, scope: Scope, items: seq<Fact>)
    requires items != [] && !OneArtifact(items)
    ensures var d := ScalarDraft(field, scope, items);
            && (d.status == Conflicting <==> !Agree(items))
            && (Agree(items) ==> Shows(d, (items[0].operation, items[0].content)))
  {
    WinnerAcrossArtifacts(items);
    var w := OrderedWinner(items).fact;
    var i :| 0 <= i < |items| && items[i] == w;
    assert Agree(items) ==> SameVerdict(items[0], items[i]);
  }

  // ---------------------------------------------------------------- collections

  ghost predicate SortedByValue(items: seq<Fact>) {
    SortedByKey(ContentKey, TextLe, items)
  }

  lemma SameKeySameContent(a: Fact, b: Fact)
    ensures ContentKey(a) == ContentKey(b) <==> a.content == b.content
  {
    VerdictTells(a.(operation := Assign), b.(operation := Assign));
  }

  /** The group of a value holds exactly the facts about it. */
  lemma GroupIsAllAbout(items: seq<Fact>, f: Fact) returns (i: nat)
    requires SortedByValue(items) && f in items
    ensures NonEmpty(MembersOf(items)) && i < |MembersOf(items)|
    ensures forall g :: g in MembersOf(items)[i] <==> g in items && g.content == f.content
  {
    var gs := MembersOf(items);
    TextOrder();
    GroupByGroups(ContentKey, TextLe, items);
    GroupsAreNonEmpty(ContentKey, items);
    assert Collected(f, gs);
    i :| 0 <= i < |gs| && f in gs[i];
    forall g
      ensures g in gs[i] <==> g in items && g.content == f.content
    {
      SameKeySameContent(f, g);
      if g in items && g.content == f.content {
        assert Collected(g, gs);
        var j :| 0 <= j < |gs| && g in gs[j];
        OneGroupPerKey(ContentKey, TextLe, gs, i, j);
      }
    }
  }

  lemma {:induction false} KeptContentsMember(gs: seq<seq<Fact>>, c: Content)
    requires NonEmpty(gs)
    ensures c in KeptContents(gs) <==>
        exists i :: 0 <= i < |gs| && Kept(gs[i]) && OrderedWinner(gs[i]).fact.content == c
  {
    hide OrderedWinner;
    if gs != [] {
      var init := gs[..|gs| - 1];
      KeptContentsMember(init, c);
      assert forall i :: 0 <= i < |init| ==> init[i] == gs[i];
    }
  }

  /** Every schedule leaves a decided member in or out as its group's winner says. */
  lemma DecidedMember(items: seq<Fact>, g: seq<Fact>, c: Content, t: seq<Fact>)
    requires g != [] && OneArtifact(g) && !Undecided(g)
    requires forall f :: f in g <==> f in items && f.content == c
    requires Schedule(t, items)
    ensures c in ReplayMembers(t) <==> Kept(g)
  {
    hide OrderedWinner, ReplayMembers;
    ScheduleMembers(t, items);
    WinnerInArtifact(g);
    var w := OrderedWinner(g).fact;
    assert w in t;
    var k :| 0 <= k < |t| && t[k] == w;
    var at := FindLast(t, c);
    assert t[at] in t && t[at] in g;
    var m :| 0 <= m < |g| && g[m] == t[at];
    assert k <= at;
    ReplayFollowsLast(t, c, at);
  }

  lemma LineWithin(g: seq<Fact>, m: nat, f: Fact)
    requires m < |g| && forall k :: 0 <= k < |g| ==> g[k].line <= g[m].line
    ensures f in g ==> f.line <= g[m].line
  {
  }

  /** A schedule in which the chosen fact, on the last line of its group, is the last about its value. */
  lemma EndingWith(items: seq<Fact>, g: seq<Fact>, m: nat) returns (t: seq<Fact>)
    requires m < |g| && g[m].operation != Reset
    requires forall f :: f in g <==> f in items && f.content == g[m].content
    requires forall k :: 0 <= k < |g| ==> g[k].line <= g[m].line
    ensures Schedule(t, items)
    ensures g[m].content in ReplayMembers(t) <==> g[m].operation == Assign
  {
    assert g[m] in g;
    var k :| 0 <= k < |items| && items[k] == g[m];
    var at;
    t, at := Promote(items, k);
    ScheduleMembers(t, items);
    forall j | at < j < |t|
      ensures t[j].content != g[m].content
    {
      assert t[j] in items;
      LineWithin(g, m, t[j]);
    }
    ReplayFollowsLast(t, g[m].content, at);
  }

  /** An undecided member ends differently in two schedules. */
  lemma UndecidedMember(items: seq<Fact>, g: seq<Fact>) returns (t: seq<Fact>, u: seq<Fact>)
    requires g != [] && OneArtifact(g) && Undecided(g) && forall f :: f in items ==> f.operation != Reset
    requires forall f :: f in g <==> f in items && f.content == g[0].content
    ensures Schedule(t, items) && Schedule(u, items) && ReplayMembers(t) != ReplayMembers(u)
  {
    WinnerInArtifact(g);
    var i: nat, j: nat :| Clash(g, i, j);
    assert g[i] in g && g[j] in g && g[0] in g;
    t := EndingWith(items, g, i);
    u := EndingWith(items, g, j);
  }

  lemma OneArtifactWithin(items: seq<Fact>, g: seq<Fact>)
    requires OneArtifact(items) && forall f :: f in g ==> f in items
    ensures OneArtifact(g)
  {
    forall i, j | 0 <= i < |g| && 0 <= j < |g|
      ensures g[i].artifact == g[j].artifact
    {
      assert g[i] in items && g[j] in items;
      var a :| 0 <= a < |items| && items[a] == g[i];
      var b :| 0 <= b < |items| && items[b] == g[j];
    }
  }

  /** The draft holds exactly the members a schedule leaves. */
  lemma ResolvedMembers(field: string, scope: Scope, items: seq<Fact>, t: seq<Fact>, c: Content)
    requires SortedByValue(items) && OneArtifact(items) && RepeatableDraft(field, scope, items).status == Resolved
    requires Schedule(t, items)
    ensures c in RepeatableDraft(field, scope, items).value.value.contents <==> c in ReplayMembers(t)
  {
    hide OrderedWinner;
    var gs := MembersOf(items);
    GroupsAreNonEmpty(ContentKey, items);
    KeptContentsMember(gs, c);
    ScheduleMembers(t, items);
    GroupsSayOneThing(items);
    if f :| f in items && f.content == c {
      var i := GroupIsAllAbout(items, f);
      OneArtifactWithin(items, gs[i]);
      assert !Undecided(gs[i]);
      DecidedMember(items, gs[i], c, t);
      if k :| 0 <= k < |gs| && Kept(gs[k]) && OrderedWinner(gs[k]).fact.content == c {
        assert OrderedWinner(gs[k]).fact in gs[i];
        SameGroup(items, OrderedWinner(gs[k]).fact, i, k);
      }
      WinnerIsMember(gs[i]);
    } else {
      forall i | 0 <= i < |t|
        ensures t[i].content != c
      {
        assert t[i] in items;
      }
      ReplayOnlyMentioned(t, c);
    }
  }

  lemma GroupsSayOneThing(items: seq<Fact>)
    requires SortedByValue(items)
    ensures NonEmpty(MembersOf(items))
    ensures forall i :: 0 <= i < |MembersOf(items)| ==>
              OrderedWinner(MembersOf(items)[i]).fact in MembersOf(items)[i]
                  && OrderedWinner(MembersOf(items)[i]).fact in items
  {
    hide OrderedWinner;
    TextOrder();
    GroupByGroups(ContentKey, TextLe, items);
    var gs := MembersOf(items);
    forall i | 0 <= i < |gs|
      ensures OrderedWinner(gs[i]).fact in gs[i] && OrderedWinner(gs[i]).fact in items
    {
      WinnerIsMember(gs[i]);
    }
  }

  lemma SameGroup(items: seq<Fact>, f: Fact, i: nat, k: nat)
    requires SortedByValue(items) && i < |MembersOf(items)| && k < |MembersOf(items)|
    requires f in MembersOf(items)[i] && f in MembersOf(items)[k]
    ensures i == k
  {
    TextOrder();
    GroupByGroups(ContentKey, TextLe, items);
    var gs := MembersOf(items);
    assert KeyOf(ContentKey, gs[i]) == ContentKey(f) == KeyOf(ContentKey, gs[k]);
    OneGroupPerKey(ContentKey, TextLe, gs, i, k);
  }

  /**
   Within one artifact and without resets a collection is what every schedule of additions and removals
   leaves; it conflicts exactly when two schedules leave different sets.
   */
  lemma RepeatableIsReplay(field: string, scope: Scope, items: seq<Fact>)
    requires SortedByValue(items) && OneArtifact(items) && forall f :: f in items ==> f.operation != Reset
    ensures var d := RepeatableDraft(field, scope, items);
            && (d.status == Conflicting <==>
                exists t, u :: Schedule(t, items) && Schedule(u, items) && ReplayMembers(t) != ReplayMembers(u))
            && (d.status != Conflicting ==>
                  d.status == Resolved && d.value.Some? && d.value.value.Members?
                  && forall t, c :: Schedule(t, items) ==> (c in ReplayMembers(t) <==> c in d.value.value.contents))
  {
    hide OrderedWinner, Sources, Inputs, MemberEvents;
    var d, gs := RepeatableDraft(field, scope, items), MembersOf(items);
    GroupsAreNonEmpty(ContentKey, items);
    if d.status == Conflicting {
      assert AnyUndecided(gs);
      var i :| 0 <= i < |gs| && Undecided(gs[i]);
      GroupsSayOneThing(items);
      assert gs[i][0] in gs[i];
      TextOrder();
      GroupByGroups(ContentKey, TextLe, items);
      var k := GroupIsAllAbout(items, gs[i][0]);
      SameGroup(items, gs[i][0], i, k);
      OneArtifactWithin(items, gs[i]);
      var t, u := UndecidedMember(items, gs[i]);
    } else {
      forall t, c | Schedule(t, items)
        ensures c in ReplayMembers(t) <==> c in d.value.value.contents
      {
        ResolvedMembers(field, scope, items, t, c);
      }
      forall t, u | Schedule(t, items) && Schedule(u, items)
        ensures ReplayMembers(t) == ReplayMembers(u)
      {
        forall c
          ensures c in ReplayMembers(t) <==> c in ReplayMembers(u)
        {
          ResolvedMembers(field, scope, items, t, c);
          ResolvedMembers(field, scope, items, u, c);
        }
      }
    }
  }

  /** A reset in a collection always conflicts when only resets carry no value. */
  lemma ResetConflicts(field: string, scope: Scope, items: seq<Fact>, f: Fact)
    requires SortedByValue(items) && f in items && f.operation == Reset
    requires forall g :: g in items ==> (g.operation == Reset <==> g.content == Null)
    ensures RepeatableDraft(field, scope, items).status == Conflicting
  {
    hide OrderedWinner;
    var gs := MembersOf(items);
    var i := GroupIsAllAbout(items, f);
    WinnerIsMember(gs[i]);
    assert Undecided(gs[i]);
  }

  /** A value that several artifacts speak of survives exactly when all of them add it. */
  lemma MemberAcrossArtifacts(field: string, scope: Scope, items: seq<Fact>, f: Fact, g: Fact)
    requires SortedByValue(items) && f in items && g in items && f.content == g.content && f.artifact != g.artifact
    ensures var d := RepeatableDraft(field, scope, items);
            d.status == Resolved ==>
              && d.value.Some? && d.value.value.Members?
              && (forall h :: h in items && h.content == f.content ==> h.operation == f.operation != Reset)
              && (f.content in d.value.value.contents <==> f.operation == Assign)
  {
    hide OrderedWinner, Sources, Inputs, MemberEvents, Agree;
    var gs := MembersOf(items);
    GroupsAreNonEmpty(ContentKey, items);
    var i := GroupIsAllAbout(items, f);
    if !AnyUndecided(gs) {
      AgreedGroup(items, gs[i], f, g);
      KeptContentsMember(gs, f.content);
      GroupsSayOneThing(items);
      if k :| 0 <= k < |gs| && Kept(gs[k]) && OrderedWinner(gs[k]).fact.content == f.content {
        SameGroup(items, OrderedWinner(gs[k]).fact, i, k);
      }
    }
  }

  lemma AgreedGroup(items: seq<Fact>, grp: seq<Fact>, f: Fact, g: Fact)
    requires forall h :: h in grp <==> h in items && h.content == f.content
    requires f in grp && g in grp && f.artifact != g.artifact && !Undecided(grp)
    ensures forall h :: h in items && h.content == f.content ==> h.operation == f.operation != Reset
    ensures Kept(grp) <==> f.operation == Assign
    ensures OrderedWinner(grp).fact.content == f.content
  {
    hide OrderedWinner;
    var a :| 0 <= a < |grp| && grp[a] == f;
    var b :| 0 <= b < |grp| && grp[b] == g;
    WinnerAcrossArtifacts(grp);
    var w := OrderedWinner(grp).fact;
    var m :| 0 <= m < |grp| && grp[m] == w;
    assert SameVerdict(grp[m], grp[a]);
    forall h | h in items && h.content == f.content
      ensures SameVerdict(h, f)
    {
      assert h in grp;
      var n :| 0 <= n < |grp| && grp[n] == h;
      assert SameVerdict(grp[n], grp[a]);
    }
  }

  // ---------------------------------------------------------------- VTY lines

  ghost predicate DraftCovers(d: Draft, line: int) {
    match VtyBounds(d.scope.key)
    case Some((start, end)) => d.scope.kind == "vty_range" && start <= line <= end
    case None => false
  }

  /** On a field of VTY facts each covered line has one draft: that of the facts on the line. */
  lemma VtyFieldIsLineByLine(field: string, facts: seq<Fact>, line: int)
    requires facts != [] && forall i :: 0 <= i < |facts| ==> VtyPartitions.IsVty(facts[i])
    ensures var ds, here := ScalarField(field, facts), VtyPartitions.On(facts, line);
            && (here == [] ==> forall i :: 0 <= i < |ds| ==> !DraftCovers(ds[i], line))
            && (here != [] ==>
                  exists i :: 0 <= i < |ds| && DraftCovers(ds[i], line)
                      && ds[i] == ScalarDraft(field, ds[i].scope, here)
                           && forall j :: 0 <= j < |ds| && j != i ==> !DraftCovers(ds[j], line))
  {
    hide ScalarDraft, VtyPartitions.On, ScalarField, VtyPartitions.Partition;
    var ps, ds := VtyPartitions.Partition(facts), ScalarField(field, facts);
    VtyPartitions.SweepIsLineByLine(facts);
    SweptField(field, facts);
    forall i | 0 <= i < |ps|
      ensures DraftCovers(ds[i], line) <==> ps[i].start <= line <= ps[i].end
    {
      SweptScope(field, facts, i);
    }
    if VtyPartitions.Within(ps, line) {
      var i :| 0 <= i < |ps| && ps[i].start <= line <= ps[i].end;
      SweptScope(field, facts, i);
    }
  }

  lemma SweptField(field: string, facts: seq<Fact>)
    requires facts != [] && facts[0].scope.kind == "vty_range"
    ensures |ScalarField(field, facts)| == |VtyPartitions.Partition(facts)|
    ensures forall i :: 0 <= i < |VtyPartitions.Partition(facts)| ==>
              && VtyPartitions.Partition(facts)[i].applicable != []
              && ScalarField(field, facts)[i] ==
                 ScalarDraft(field, PieceScope(VtyPartitions.Partition(facts)[i]),
                     VtyPartitions.Partition(facts)[i].applicable)
  {
    hide ScalarDraft, VtyPartitions.PiecesBetween;
    PiecesAreNonEmpty(facts, VtyPartitions.Boundaries(facts));
  }

  lemma ScalarDraftScope(field: string, scope: Scope, items: seq<Fact>)
    requires items != []
    ensures ScalarDraft(field, scope, items).field == field && ScalarDraft(field, scope, items).scope == scope
    ensures ScalarDraft(field, scope, items).sources == Sources(items)
  {
    hide OrderedWinner, Sources, Inputs, Saying;
  }

  lemma SweptScope(field: string, facts: seq<Fact>, i: nat)
    requires facts != [] && forall i :: 0 <= i < |facts| ==> VtyPartitions.IsVty(facts[i])
    requires i < |VtyPartitions.Partition(facts)|
    ensures var ps, ds := VtyPartitions.Partition(facts), ScalarField(field, facts);
            && |ds| == |ps| && ps[i].applicable != []
            && ds[i] == ScalarDraft(field, PieceScope(ps[i]), ps[i].applicable)
            && ds[i].field == field && ds[i].scope == PieceScope(ps[i]) && ValidScope(ds[i].scope)
            && VtyBounds(ds[i].scope.key) == Some((ps[i].start, ps[i].end))
            && (forall line :: ps[i].start <= line <= ps[i].end ==> ps[i].applicable == VtyPartitions.On(facts, line))
  {
    hide ScalarDraft, VtyPartitions.On, ScalarField, VtyPartitions.Partition, VtyBounds, VtyKey;
    var ps := VtyPartitions.Partition(facts);
    VtyPartitions.SweepIsLineByLine(facts);
    SweptField(field, facts);
    ScalarDraftScope(field, PieceScope(ps[i]), ps[i].applicable);
    VtyKeyReadsBack(ps[i].start, ps[i].end);
  }
}
