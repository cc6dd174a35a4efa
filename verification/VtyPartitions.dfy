/**
 The sweep over VTY ranges (`_vty_partitions`).

 All range boundaries are sorted and every gap between neighbours becomes a piece unless no fact
 covers it.  Line by line this is what the facts say: the pieces are disjoint and ascending, cover
 exactly the covered lines, carry exactly the facts of each of their lines, and are as long as
 possible.
 */
module VtyPartitions {
  import opened Common
  import opened Scopes
  import opened Facts
  import opened Ordering

  datatype Piece = Piece(start: int, end: int, applicable: seq<Fact>)

  predicate IsVty(f: Fact) {
    f.scope.kind == "vty_range" && ValidScope(f.scope)
  }

  /** `_vty_bounds`; only asked of VTY facts. */
  function Start(f: Fact): int {
    match VtyBounds(f.scope.key) case Some((start, _)) => start case None => 0
  }

  function End(f: Fact): int {
    match VtyBounds(f.scope.key) case Some((_, end)) => end case None => 0
  }

  predicate Covers(f: Fact, line: int) {
    Start(f) <= line <= End(f)
  }

  function On(facts: seq<Fact>, line: int): seq<Fact> {
    Filter((f: Fact) => Covers(f, line), facts)
  }

  lemma OnMember(facts: seq<Fact>, line: int, f: Fact)
    ensures f in On(facts, line) <==> f in facts && Covers(f, line)
  {
    FilterMember((f: Fact) => Covers(f, line), facts, f);
  }

  function Spanning(facts: seq<Fact>, start: int, end: int): seq<Fact> {
    Filter((f: Fact) => Start(f) <= start && End(f) >= end, facts)
  }

  predicate IntLe(a: int, b: int) {
    a <= b
  }

  function Points(facts: seq<Fact>): seq<int> {
    if facts == [] then [] else [Start(facts[0]), End(facts[0]) + 1] + Points(facts[1..])
  }

  function Boundaries(facts: seq<Fact>): seq<int> {
    Sort(IntLe, Dedupe(Points(facts)))
  }

  /** The piece of one gap, if some fact covers it. */
  function Gap(facts: seq<Fact>, start: int, end: int): seq<Piece> {
    var applicable := Spanning(facts, start, end);
    if applicable != [] then [Piece(start, end, applicable)] else []
  }

  function PiecesBetween(facts: seq<Fact>, bs: seq<int>): seq<Piece> {
    if |bs| < 2 then [] else Gap(facts, bs[0], bs[1] - 1) + PiecesBetween(facts, bs[1..])
  }

  function Partition(facts: seq<Fact>): seq<Piece> {
    PiecesBetween(facts, Boundaries(facts))
  }

  predicate Ascends(bs: seq<int>) {
    forall i, j :: 0 <= i < j < |bs| ==> bs[i] < bs[j]
  }

  ghost predicate PointOf(facts: seq<Fact>, x: int) {
    exists i :: 0 <= i < |facts| && (x == Start(facts[i]) || x == End(facts[i]) + 1)
  }

  /** No range starts or ends strictly inside a gap of `bs`. */
  ghost predicate Splits(facts: seq<Fact>, bs: seq<int>) {
    bs != [] ==> forall x :: PointOf(facts, x) ==> x in bs || x < bs[0]
  }

  /** The piece carries exactly the facts of each of its lines. */
  ghost predicate Exact(facts: seq<Fact>, p: Piece) {
    && p.start <= p.end && p.applicable != []
    && forall line :: p.start <= line <= p.end ==> p.applicable == On(facts, line)
  }

  ghost predicate InOrder(ps: seq<Piece>) {
    forall i, j :: 0 <= i < j < |ps| ==> ps[i].end < ps[j].start
  }

  ghost predicate Within(ps: seq<Piece>, line: int) {
    exists i :: 0 <= i < |ps| && ps[i].start <= line <= ps[i].end
  }

  /** Pieces that touch carry different facts. */
  ghost predicate Longest(ps: seq<Piece>) {
    forall i :: 0 < i < |ps| && ps[i - 1].end + 1 == ps[i].start ==> ps[i - 1].applicable != ps[i].applicable
  }

  lemma SameSpan(facts: seq<Fact>, bs: seq<int>, line: int)
    requires |bs| >= 2 && Ascends(bs) && Splits(facts, bs) && bs[0] <= line < bs[1]
    ensures Spanning(facts, bs[0], bs[1] - 1) == On(facts, line)
  {
    forall i | 0 <= i < |facts|
      ensures (Start(facts[i]) <= bs[0] && End(facts[i]) >= bs[1] - 1) <==> Covers(facts[i], line)
    {
      assert PointOf(facts, Start(facts[i])) && PointOf(facts, End(facts[i]) + 1);
    }
    FilterAgrees((f: Fact) => Start(f) <= bs[0] && End(f) >= bs[1] - 1, (f: Fact) => Covers(f, line), facts);
  }

  lemma TailSplits(facts: seq<Fact>, bs: seq<int>)
    requires |bs| >= 2 && Ascends(bs) && Splits(facts, bs)
    ensures Ascends(bs[1..]) && Splits(facts, bs[1..])
  {
    forall x | PointOf(facts, x)
      ensures x in bs[1..] || x < bs[1]
    {
      assert x in bs || x < bs[0];
      if x in bs {
        var i :| 0 <= i < |bs| && bs[i] == x;
        assert i > 0 ==> bs[1..][i - 1] == x;
      }
    }
  }

  lemma GapIsExact(facts: seq<Fact>, bs: seq<int>)
    requires |bs| >= 2 && Ascends(bs) && Splits(facts, bs)
    ensures var g := Gap(facts, bs[0], bs[1] - 1);
            |g| <= 1 && forall i :: 0 <= i < |g| ==> g[i].start == bs[0] && g[i].end == bs[1] - 1 && Exact(facts, g[i])
  {
    forall line | bs[0] <= line < bs[1]
      ensures Spanning(facts, bs[0], bs[1] - 1) == On(facts, line)
    {
      SameSpan(facts, bs, line);
    }
  }

  lemma {:induction false} PiecesBetweenAreExact(facts: seq<Fact>, bs: seq<int>)
    requires Ascends(bs) && Splits(facts, bs)
    ensures var ps := PiecesBetween(facts, bs);
            && (forall i :: 0 <= i < |ps| ==> bs != [] && bs[0] <= ps[i].start && Exact(facts, ps[i]))
            && InOrder(ps)
  {
    hide Exact, Gap;
    if |bs| >= 2 {
      TailSplits(facts, bs);
      PiecesBetweenAreExact(facts, bs[1..]);
      GapIsExact(facts, bs);
      ExactIsOrdered(facts);
    }
  }

  lemma ExactIsOrdered(facts: seq<Fact>)
    ensures forall p :: Exact(facts, p) ==> p.start <= p.end && p.applicable != []
  {
  }

  lemma EndIsPoint(facts: seq<Fact>, f: Fact, line: int)
    requires f in facts && Covers(f, line)
    ensures PointOf(facts, End(f) + 1) && line < End(f) + 1
  {
    var k :| 0 <= k < |facts| && facts[k] == f;
  }

  /** Every covered line from the first boundary on lies in a piece. */
  lemma {:induction false} PiecesBetweenCover(facts: seq<Fact>, bs: seq<int>, line: int, f: Fact)
    requires Ascends(bs) && Splits(facts, bs) && bs != [] && bs[0] <= line
    requires f in facts && Covers(f, line)
    ensures Within(PiecesBetween(facts, bs), line)
  {
    hide Covers, On, PointOf;
    var ps := PiecesBetween(facts, bs);
    EndIsPoint(facts, f, line);
    assert End(f) + 1 in bs;
    if |bs| >= 2 && line < bs[1] {
      SameSpan(facts, bs, line);
      OnMember(facts, line, f);
      assert ps[0].start == bs[0] && ps[0].end == bs[1] - 1;
    } else if |bs| >= 2 {
      TailSplits(facts, bs);
      PiecesBetweenCover(facts, bs[1..], line, f);
      var rest := PiecesBetween(facts, bs[1..]);
      var i :| 0 <= i < |rest| && rest[i].start <= line <= rest[i].end;
      assert ps[|ps| - |rest| + i] == rest[i];
    }
  }

  lemma {:induction false} PiecesBetweenAreLongest(facts: seq<Fact>, bs: seq<int>)
    requires Ascends(bs) && Splits(facts, bs)
    requires forall i :: 0 <= i < |bs| ==> PointOf(facts, bs[i])
    requires forall i :: 0 <= i < |facts| ==> Start(facts[i]) <= End(facts[i])
    ensures Longest(PiecesBetween(facts, bs))
  {
    hide Exact, Gap, PointOf;
    if |bs| >= 2 {
      TailSplits(facts, bs);
      PiecesBetweenAreLongest(facts, bs[1..]);
      GapIsExact(facts, bs);
      PiecesBetweenAreExact(facts, bs[1..]);
      var g, rest := Gap(facts, bs[0], bs[1] - 1), PiecesBetween(facts, bs[1..]);
      if g != [] && rest != [] && rest[0].start == bs[1] {
        TouchingDiffer(facts, g[0], rest[0]);
      }
    }
  }

  /** A boundary is where some fact begins or has just ended. */
  lemma TouchingDiffer(facts: seq<Fact>, p: Piece, q: Piece)
    requires Exact(facts, p) && Exact(facts, q) && p.end + 1 == q.start && PointOf(facts, q.start)
    requires forall i :: 0 <= i < |facts| ==> Start(facts[i]) <= End(facts[i])
    ensures p.applicable != q.applicable
  {
    var k :| 0 <= k < |facts| && (q.start == Start(facts[k]) || q.start == End(facts[k]) + 1);
    OnMember(facts, p.end, facts[k]);
    OnMember(facts, q.start, facts[k]);
    assert p.applicable == On(facts, p.end) && q.applicable == On(facts, q.start);
  }

  lemma {:induction false} PointsAreBounds(facts: seq<Fact>, x: int)
    ensures x in Points(facts) <==> PointOf(facts, x)
  {
    if facts != [] {
      PointsAreBounds(facts[1..], x);
      if PointOf(facts[1..], x) {
        var i :| 0 <= i < |facts[1..]| && (x == Start(facts[1..][i]) || x == End(facts[1..][i]) + 1);
        assert facts[i + 1] == facts[1..][i];
      }
      if PointOf(facts, x) {
        var i :| 0 <= i < |facts| && (x == Start(facts[i]) || x == End(facts[i]) + 1);
        assert i > 0 ==> facts[1..][i - 1] == facts[i];
      }
    }
  }

  lemma BoundariesSplit(facts: seq<Fact>)
    ensures Ascends(Boundaries(facts)) && Splits(facts, Boundaries(facts))
    ensures forall x :: x in Boundaries(facts) <==> PointOf(facts, x)
  {
    hide PointOf, Points;
    var distinct := Dedupe(Points(facts));
    var bs := Boundaries(facts);
    DedupeKeeps(Points(facts));
    SortSorts(IntLe, distinct);
    SortMembers(IntLe, distinct);
    SameMultisetNoRepeats(distinct, bs);
    forall x
      ensures x in bs <==> PointOf(facts, x)
    {
      PointsAreBounds(facts, x);
    }
  }

  // ---------------------------------------------------------------- main result

  /** The sweep is the line-by-line reading of the facts, in maximal pieces. */
  lemma SweepIsLineByLine(facts: seq<Fact>)
    requires forall i :: 0 <= i < |facts| ==> IsVty(facts[i])
    ensures var ps := Partition(facts);
            && InOrder(ps) && Longest(ps)
            && (forall i :: 0 <= i < |ps| ==> 0 <= ps[i].start <= ps[i].end <= MAX_LINE && Exact(facts, ps[i]))
            && (forall line :: Within(ps, line) <==> On(facts, line) != [])
  {
    hide Exact, PointOf, On;
    var bs, ps := Boundaries(facts), Partition(facts);
    BoundariesSplit(facts);
    PiecesBetweenAreExact(facts, bs);
    forall i | 0 <= i < |bs|
      ensures PointOf(facts, bs[i])
    {
      assert bs[i] in bs;
    }
    PiecesBetweenAreLongest(facts, bs);
    forall line
      ensures Within(ps, line) <==> On(facts, line) != []
    {
      CoveredIsWithin(facts, line);
    }
    forall i | 0 <= i < |ps|
      ensures 0 <= ps[i].start <= ps[i].end <= MAX_LINE
    {
      ExactIsInRange(facts, ps[i]);
    }
  }

  lemma CoveredIsWithin(facts: seq<Fact>, line: int)
    ensures Within(Partition(facts), line) <==> On(facts, line) != []
  {
    var bs, ps := Boundaries(facts), Partition(facts);
    BoundariesSplit(facts);
    PiecesBetweenAreExact(facts, bs);
    if On(facts, line) != [] {
      var f := On(facts, line)[0];
      OnMember(facts, line, f);
      var k :| 0 <= k < |facts| && facts[k] == f;
      assert PointOf(facts, Start(f));
      var b :| 0 <= b < |bs| && bs[b] == Start(f);
      PiecesBetweenCover(facts, bs, line, f);
    }
  }

  lemma ExactIsInRange(facts: seq<Fact>, p: Piece)
    requires Exact(facts, p) && forall i :: 0 <= i < |facts| ==> IsVty(facts[i])
    ensures 0 <= p.start <= p.end <= MAX_LINE
  {
    var first, last := On(facts, p.start)[0], On(facts, p.end)[0];
    OnMember(facts, p.start, first);
    OnMember(facts, p.end, last);
  }
}
