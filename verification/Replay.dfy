/**
 Which fact wins (`_ordered_winner`, backend/app/effective_state/resolver.py), and replaying.

 A schedule is any order of the facts of one artifact that respects their source lines.  Replaying a
 schedule performs the operations one after the other.  The winner is in conflict exactly when two
 schedules end differently; otherwise every schedule ends with the winner.
 */
module Replay {
  import opened Facts
  import opened Ordering

  datatype Winner = Winner(fact: Fact, conflict: bool)

  predicate IdLe(a: Fact, b: Fact) {
    TextLe(a.id, b.id)
  }

  predicate LineLe(a: Fact, b: Fact) {
    a.line < b.line || (a.line == b.line && TextLe(a.id, b.id))
  }

  function Artifacts(facts: seq<Fact>): set<string> {
    set i | 0 <= i < |facts| :: facts[i].artifact
  }

  function Verdict(f: Fact): (Operation, string) {
    (f.operation, ValueKey(f.content))
  }

  function Verdicts(facts: seq<Fact>): set<(Operation, string)> {
    set i | 0 <= i < |facts| :: Verdict(facts[i])
  }

  function OnLine(facts: seq<Fact>, line: nat): seq<Fact> {
    Filter((f: Fact) => f.line == line, facts)
  }

  function OrderedWinner(facts: seq<Fact>): Winner
    requires facts != []
  {
    if |Artifacts(facts)| > 1 then
      SortSorts(IdLe, facts);
      Winner(Sort(IdLe, facts)[0], |Verdicts(facts)| != 1)
    else
      SortSorts(LineLe, facts);
      var last := Sort(LineLe, facts)[|facts| - 1];
      Winner(last, |Verdicts(OnLine(facts, last.line))| > 1)
  }

  predicate SameVerdict(a: Fact, b: Fact) {
    a.operation == b.operation && a.content == b.content
  }

  lemma VerdictTells(a: Fact, b: Fact)
    ensures Verdict(a) == Verdict(b) <==> SameVerdict(a, b)
  {
    if ValueKey(a.content) == ValueKey(b.content) && a.content.Typed? && b.content.Typed? {
      assert a.content.json == ValueKey(a.content)[1..] && b.content.json == ValueKey(b.content)[1..];
    }
  }

  ghost predicate Agree(facts: seq<Fact>) {
    forall i, j :: 0 <= i < |facts| && 0 <= j < |facts| ==> SameVerdict(facts[i], facts[j])
  }

  lemma OneVerdict(facts: seq<Fact>)
    requires facts != []
    ensures |Verdicts(facts)| >= 1
    ensures |Verdicts(facts)| == 1 <==> Agree(facts)
  {
    var all, first := Verdicts(facts), Verdict(facts[0]);
    assert first in all;
    assert {first} <= all;
    assert all == {first} + (all - {first});
    if Agree(facts) {
      forall i | 0 <= i < |facts|
        ensures Verdict(facts[i]) == first
      {
        VerdictTells(facts[i], facts[0]);
      }
      assert all == {first};
    } else {
      var i, j :| 0 <= i < |facts| && 0 <= j < |facts| && !SameVerdict(facts[i], facts[j]);
      VerdictTells(facts[i], facts[j]);
      var two := {Verdict(facts[i]), Verdict(facts[j])};
      assert Verdict(facts[i]) in all && Verdict(facts[j]) in all;
      assert all == two + (all - two);
    }
  }

  ghost predicate OneArtifact(facts: seq<Fact>) {
    forall i, j :: 0 <= i < |facts| && 0 <= j < |facts| ==> facts[i].artifact == facts[j].artifact
  }

  lemma ArtifactCount(facts: seq<Fact>)
    requires facts != []
    ensures |Artifacts(facts)| > 1 <==> !OneArtifact(facts)
  {
    var all, first := Artifacts(facts), facts[0].artifact;
    assert first in all;
    if OneArtifact(facts) {
      assert all == {first};
    } else {
      var i, j :| 0 <= i < |facts| && 0 <= j < |facts| && facts[i].artifact != facts[j].artifact;
      var two := {facts[i].artifact, facts[j].artifact};
      assert facts[i].artifact in all && facts[j].artifact in all;
      assert all == two + (all - two);
    }
  }

  lemma LineOrder()
    ensures Total(LineLe) && Total(IdLe)
  {
    TextOrder();
  }

  /** Two facts of one line say different things and nothing comes after that line. */
  ghost predicate Clash(facts: seq<Fact>, i: nat, j: nat) {
    && i < |facts| && j < |facts| && facts[i].line == facts[j].line && !SameVerdict(facts[i], facts[j])
    && forall k :: 0 <= k < |facts| ==> facts[k].line <= facts[i].line
  }

  /** Within one artifact the winner stands on the last line, and only that line can conflict. */
  lemma WinnerInArtifact(facts: seq<Fact>)
    requires facts != [] && OneArtifact(facts)
    ensures var w := OrderedWinner(facts);
            && w.fact in facts
            && (forall i :: 0 <= i < |facts| ==> facts[i].line <= w.fact.line)
            && (w.conflict <==> exists i: nat, j: nat :: Clash(facts, i, j))
            && (!w.conflict ==> forall i :: 0 <= i < |facts| && facts[i].line == w.fact.line ==>
                 SameVerdict(facts[i], w.fact))
  {
    ArtifactCount(facts);
    LineOrder();
    SortSorts(LineLe, facts);
    SortMembers(LineLe, facts);
    var sorted := Sort(LineLe, facts);
    var last := sorted[|facts| - 1];
    assert last in sorted;
    forall i | 0 <= i < |facts|
      ensures facts[i].line <= last.line
    {
      assert facts[i] in sorted;
      var k :| 0 <= k < |sorted| && sorted[k] == facts[i];
      assert k < |sorted| - 1 ==> LineLe(sorted[k], last);
    }
    LastLineConflict(facts, last);
  }

  lemma LastLineConflict(facts: seq<Fact>, last: Fact)
    requires last in facts && forall i :: 0 <= i < |facts| ==> facts[i].line <= last.line
    ensures var conflict := |Verdicts(OnLine(facts, last.line))| > 1;
            && (conflict <==> exists i: nat, j: nat :: Clash(facts, i, j))
            && (!conflict ==> forall i :: 0 <= i < |facts| && facts[i].line == last.line ==>
                 SameVerdict(facts[i], last))
  {
    var p := (f: Fact) => f.line == last.line;
    var final := OnLine(facts, last.line);
    FilterMember(p, facts, last);
    OneVerdict(final);
    if Agree(final) {
      forall i | 0 <= i < |facts| && facts[i].line == last.line
        ensures SameVerdict(facts[i], last)
      {
        InFilter(facts, last.line, facts[i]);
        InFilter(facts, last.line, last);
        var a :| 0 <= a < |final| && final[a] == facts[i];
        var b :| 0 <= b < |final| && final[b] == last;
      }
    } else {
      var a, b :| 0 <= a < |final| && 0 <= b < |final| && !SameVerdict(final[a], final[b]);
      InFilter(facts, last.line, final[a]);
      InFilter(facts, last.line, final[b]);
      var i :| 0 <= i < |facts| && facts[i] == final[a];
      var j :| 0 <= j < |facts| && facts[j] == final[b];
      assert Clash(facts, i, j);
    }
  }

  lemma InFilter(facts: seq<Fact>, line: nat, f: Fact)
    ensures f in OnLine(facts, line) <==> f in facts && f.line == line
  {
    FilterMember((g: Fact) => g.line == line, facts, f);
  }

  /** Across artifacts the facts conflict unless they all say the same. */
  lemma WinnerAcrossArtifacts(facts: seq<Fact>)
    requires facts != [] && !OneArtifact(facts)
    ensures OrderedWinner(facts).fact in facts
    ensures OrderedWinner(facts).conflict <==> !Agree(facts)
  {
    ArtifactCount(facts);
    OneVerdict(facts);
    SortMembers(IdLe, facts);
    SortSorts(IdLe, facts);
    assert Sort(IdLe, facts)[0] in Sort(IdLe, facts);
  }

  lemma WinnerIsMember(facts: seq<Fact>)
    requires facts != []
    ensures OrderedWinner(facts).fact in facts
  {
    if OneArtifact(facts) {
      WinnerInArtifact(facts);
    } else {
      WinnerAcrossArtifacts(facts);
    }
  }

  // ---------------------------------------------------------------- schedules

  ghost predicate Schedule(t: seq<Fact>, facts: seq<Fact>) {
    multiset(t) == multiset(facts) && InLineOrder(t)
  }

  lemma ScheduleMembers(t: seq<Fact>, facts: seq<Fact>)
    requires multiset(t) == multiset(facts)
    ensures |t| == |facts| && forall f :: f in t <==> f in facts
  {
    assert |multiset(t)| == |multiset(facts)|;
    forall f
      ensures f in t <==> f in facts
    {
      assert f in multiset(t) <==> f in multiset(facts);
    }
  }

  /** The facts up to a line, and those after it. */
  function UpTo(s: seq<Fact>, line: nat): seq<Fact> {
    if s == [] then [] else (if s[0].line <= line then [s[0]] else []) + UpTo(s[1..], line)
  }

  function After(s: seq<Fact>, line: nat): seq<Fact> {
    if s == [] then [] else (if s[0].line > line then [s[0]] else []) + After(s[1..], line)
  }

  lemma {:induction false} LineSplits(s: seq<Fact>, line: nat)
    ensures multiset(UpTo(s, line)) + multiset(After(s, line)) == multiset(s)
    ensures forall f :: f in UpTo(s, line) ==> f.line <= line
    ensures forall f :: f in After(s, line) ==> f.line > line
  {
    if s != [] {
      LineSplits(s[1..], line);
      assert s == [s[0]] + s[1..];
    }
  }

  /** A schedule that performs the chosen fact last among those of its line or earlier. */
  lemma Promote(facts: seq<Fact>, k: nat) returns (t: seq<Fact>, at: nat)
    requires k < |facts|
    ensures Schedule(t, facts) && at < |t| && t[at] == facts[k]
    ensures forall j :: at < j < |t| ==> t[j].line > facts[k].line
  {
    var x := facts[k];
    var others := facts[..k] + facts[k + 1..];
    assert facts == facts[..k] + [x] + facts[k + 1..];
    LineSplits(others, x.line);
    var lower, upper := Sort(LineLe, UpTo(others, x.line)), Sort(LineLe, After(others, x.line));
    SortByLine(UpTo(others, x.line));
    SortByLine(After(others, x.line));
    t, at := lower + [x] + upper, |lower|;
    assert multiset(t) == multiset(others) + multiset{x};
    assert multiset(facts) == multiset(others) + multiset{x};
    JoinInOrder(lower, x, upper);
  }

  ghost predicate InLineOrder(t: seq<Fact>) {
    forall i, j :: 0 <= i < j < |t| ==> t[i].line <= t[j].line
  }

  lemma JoinInOrder(lower: seq<Fact>, x: Fact, upper: seq<Fact>)
    requires InLineOrder(lower) && InLineOrder(upper)
    requires forall f :: f in lower ==> f.line <= x.line
    requires forall f :: f in upper ==> f.line > x.line
    ensures InLineOrder(lower + [x] + upper)
    ensures forall j :: |lower| < j < |lower + [x] + upper| ==> (lower + [x] + upper)[j].line > x.line
  {
    assert forall j :: 0 <= j < |lower| ==> lower[j] in lower;
    assert forall j :: 0 <= j < |upper| ==> upper[j] in upper;
  }

  lemma SortByLine(s: seq<Fact>)
    ensures multiset(Sort(LineLe, s)) == multiset(s)
    ensures InLineOrder(Sort(LineLe, s))
    ensures forall f :: f in Sort(LineLe, s) ==> f in s
  {
    LineOrder();
    SortSorts(LineLe, s);
    SortMembers(LineLe, s);
    var r := Sort(LineLe, s);
    assert forall i, j :: 0 <= i < j < |r| ==> LineLe(r[i], r[j]);
  }

  // ---------------------------------------------------------------- replaying one value

  /** What the last operation of a schedule leaves. */
  function Outcome(t: seq<Fact>): (Operation, Content)
    requires t != []
  {
    (t[|t| - 1].operation, t[|t| - 1].content)
  }

  /** The winner conflicts exactly when two schedules end differently; otherwise all end with it. */
  lemma WinnerIsReplay(facts: seq<Fact>)
    requires facts != [] && OneArtifact(facts)
    ensures var w := OrderedWinner(facts);
            && (w.conflict <==>
                exists t, u :: Schedule(t, facts) && Schedule(u, facts) && t != [] && u != []
                    && Outcome(t) != Outcome(u))
            && (forall t :: Schedule(t, facts) && t != [] && !w.conflict ==>
                 Outcome(t) == (w.fact.operation, w.fact.content))
  {
    var w := OrderedWinner(facts);
    WinnerInArtifact(facts);
    if w.conflict {
      var i: nat, j: nat :| Clash(facts, i, j);
      var t, a := Promote(facts, i);
      var u, b := Promote(facts, j);
      ScheduleMembers(t, facts);
      ScheduleMembers(u, facts);
      LastOfLastLine(facts, t, a, i);
      LastOfLastLine(facts, u, b, j);
    } else {
      forall t | Schedule(t, facts) && t != []
        ensures Outcome(t) == (w.fact.operation, w.fact.content)
      {
        ScheduleMembers(t, facts);
        var last := t[|t| - 1];
        assert last in t && w.fact in t;
        var k :| 0 <= k < |t| && t[k] == w.fact;
        var m :| 0 <= m < |facts| && facts[m] == last;
      }
    }
  }

  lemma LastOfLastLine(facts: seq<Fact>, t: seq<Fact>, at: nat, k: nat)
    requires k < |facts| && at < |t| && t[at] == facts[k] && forall f :: f in t <==> f in facts
    requires forall j :: at < j < |t| ==> t[j].line > facts[k].line
    requires forall i :: 0 <= i < |facts| ==> facts[i].line <= facts[k].line
    ensures Outcome(t) == (facts[k].operation, facts[k].content)
  {
    assert t[|t| - 1] in t;
    var i :| 0 <= i < |facts| && facts[i] == t[|t| - 1];
    assert at == |t| - 1;
  }

  // ---------------------------------------------------------------- replaying a set of members

  /** Additions and removals performed one after the other. */
  function ReplayMembers(t: seq<Fact>): set<Content> {
    if t == [] then {}
    else
      var before, f := ReplayMembers(t[..|t| - 1]), t[|t| - 1];
      match f.operation
      case Assign => before + {f.content}
      case Remove => before - {f.content}
      case Reset => before
  }

  /** The last fact about `c` in `t` is at `at`. */
  ghost predicate LastAbout(t: seq<Fact>, c: Content, at: int) {
    0 <= at < |t| && t[at].content == c && forall j :: at < j < |t| ==> t[j].content != c
  }

  lemma {:induction false} ReplayFollowsLast(t: seq<Fact>, c: Content, at: nat)
    requires LastAbout(t, c, at) && t[at].operation != Reset
    ensures c in ReplayMembers(t) <==> t[at].operation == Assign
  {
    if at < |t| - 1 {
      ReplayFollowsLast(t[..|t| - 1], c, at);
    }
  }

  lemma {:induction false} ReplayOnlyMentioned(t: seq<Fact>, c: Content)
    requires forall i :: 0 <= i < |t| ==> t[i].content != c
    ensures c !in ReplayMembers(t)
  {
    if t != [] {
      ReplayOnlyMentioned(t[..|t| - 1], c);
    }
  }

  lemma {:induction false} FindLast(t: seq<Fact>, c: Content) returns (at: nat)
    requires exists i :: 0 <= i < |t| && t[i].content == c
    ensures LastAbout(t, c, at)
  {
    if t[|t| - 1].content == c {
      at := |t| - 1;
    } else {
      at := FindLast(t[..|t| - 1], c);
    }
  }
}
