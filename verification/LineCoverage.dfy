/**
 Which lines of a configuration reach a node: the reader and the builder put together
 (backend/app/parsing/readers/indentation_cli.py:31-206, backend/app/parsing/ir_builder.py:57-59, 95-96).
 */
module LineCoverage {
  import opened StructuralForest
  import opened StructuralBuilder
  import opened CliReader

  predicate Shows(s: Statement, l: nat) {
    s.sourceStart <= l + 1 <= s.sourceEnd
  }

  predicate Shown(offers: seq<Offer>, l: nat) {
    exists k :: 0 <= k < |offers| && Shows(offers[k].statement, l)
  }

  /** The reader stopped before the line, at an opaque block nothing ends. */
  predicate StopsBefore(offers: seq<Offer>, l: nat) {
    offers != [] && !offers[|offers| - 1].complete && offers[|offers| - 1].statement.sourceEnd <= l
  }

  /** How many statements start on or before the line. */
  function Rank(offers: seq<Offer>, l: nat): (r: nat)
    ensures r <= |offers|
  {
    if offers == [] then 0
    else (if offers[0].statement.sourceStart <= l + 1 then 1 else 0) + Rank(offers[1..], l)
  }

  predicate InOrder(offers: seq<Offer>) {
    forall a, b :: 0 <= a < b < |offers| ==>
      offers[a].complete && offers[a].statement.sourceEnd < offers[b].statement.sourceStart
  }

  predicate Within(offers: seq<Offer>, from: nat, to: nat) {
    forall k :: 0 <= k < |offers| ==>
      && from < offers[k].statement.sourceStart <= offers[k].statement.sourceEnd <= to
      && (!offers[k].complete ==> offers[k].statement.kind == OpaqueNode && offers[k].statement.status == Partial)
  }

  lemma InFront(offers: seq<Offer>, from: nat, to: nat)
    requires offers != [] && from < offers[0].statement.sourceStart <= offers[0].statement.sourceEnd <= to
    requires !offers[0].complete ==>
               |offers| == 1 && offers[0].statement.kind == OpaqueNode && offers[0].statement.status == Partial
    requires InOrder(offers[1..]) && Within(offers[1..], offers[0].statement.sourceEnd, to)
    ensures InOrder(offers) && Within(offers, from, to)
  {
    var rest := offers[1..];
    assert forall k :: 1 <= k < |offers| ==> offers[k] == rest[k - 1];
    forall a, b | 0 <= a < b < |offers|
      ensures offers[a].complete && offers[a].statement.sourceEnd < offers[b].statement.sourceStart
    {
      assert rest[b - 1] == offers[b];
      if a > 0 {
        assert rest[a - 1].complete && rest[a - 1].statement.sourceEnd < rest[b - 1].statement.sourceStart;
      }
    }
  }

  /** Statements follow each other, and only the last can be incomplete. */
  lemma {:induction false} OffersInOrder(lines: seq<Line>, i: nat)
    requires i <= |lines|
    ensures InOrder(Offers(lines, i)) && Within(Offers(lines, i), i, |lines|)
    decreases |lines| - i
  {
    hide OfferAt, Offers, InOrder;
    if i == |lines| {
      NoRounds(lines);
      NoOffers(i, i);
    } else {
      Round(lines, i);
      if lines[i].kind == Blank {
        OffersInOrder(lines, i + 1);
      } else {
        var o := OfferAt(lines, i);
        if o.complete {
          OffersInOrder(lines, o.statement.sourceEnd);
        } else {
          NoOffers(o.statement.sourceEnd, |lines|);
        }
        assert Offers(lines, i)[1..] == if o.complete then Offers(lines, o.statement.sourceEnd) else [];
        InFront(Offers(lines, i), i, |lines|);
      }
    }
  }

  lemma NoOffers(from: nat, to: nat)
    ensures InOrder([]) && Within([], from, to)
  {
  }

  /** Every line that is not blank is part of a statement, unless the reader stopped before it. */
  lemma {:induction false} EveryLineIsOffered(lines: seq<Line>, i: nat, l: nat)
    requires i <= l < |lines| && lines[l].kind != Blank
    ensures Shown(Offers(lines, i), l) || StopsBefore(Offers(lines, i), l)
    decreases |lines| - i
  {
    hide OfferAt;
    var offers := Offers(lines, i);
    Round(lines, i);
    if lines[i].kind == Blank {
      EveryLineIsOffered(lines, i + 1, l);
    } else {
      var o := OfferAt(lines, i);
      assert offers[0] == o;
      if o.complete && o.statement.sourceEnd <= l {
        var rest := Offers(lines, o.statement.sourceEnd);
        EveryLineIsOffered(lines, o.statement.sourceEnd, l);
        assert offers[1..] == rest;
        if k :| 0 <= k < |rest| && Shows(rest[k].statement, l) {
          assert offers[k + 1] == rest[k];
        }
      }
    }
  }

  lemma BehindFirst(offers: seq<Offer>, from: nat, to: nat)
    requires InOrder(offers) && Within(offers, from, to) && offers != []
    ensures InOrder(offers[1..]) && Within(offers[1..], from, to)
    ensures forall k :: 1 <= k < |offers| ==> offers[0].statement.sourceStart < offers[k].statement.sourceStart
  {
    var rest := offers[1..];
    assert forall k :: 0 <= k < |rest| ==> rest[k] == offers[k + 1];
  }

  /** The rank counts the statements up to the line: they come first. */
  lemma {:induction false} RankIs(offers: seq<Offer>, from: nat, to: nat, l: nat, k: nat)
    requires InOrder(offers) && Within(offers, from, to) && k < |offers|
    ensures offers[k].statement.sourceStart <= l + 1 <==> k < Rank(offers, l)
  {
    hide InOrder, Within;
    BehindFirst(offers, from, to);
    if |offers| > 1 {
      RankIs(offers[1..], from, to, l, if k > 0 then k - 1 else 0);
    }
  }

  lemma RankOfShown(offers: seq<Offer>, from: nat, to: nat, l: nat, k: nat)
    requires InOrder(offers) && Within(offers, from, to) && k < |offers| && Shows(offers[k].statement, l)
    ensures Rank(offers, l) == k + 1 && !StopsBefore(offers, l)
  {
    hide Rank;
    RankIs(offers, from, to, l, k);
    if k + 1 < |offers| {
      RankIs(offers, from, to, l, k + 1);
    }
  }

  lemma RankOfStopped(offers: seq<Offer>, from: nat, to: nat, l: nat)
    requires InOrder(offers) && Within(offers, from, to) && StopsBefore(offers, l)
    ensures Rank(offers, l) == |offers| > 0
    ensures var last := offers[|offers| - 1].statement; last.kind == OpaqueNode && last.status == Partial
  {
    hide Rank;
    RankIs(offers, from, to, l, |offers| - 1);
  }

  predicate HasNode(nodes: seq<Node>, l: nat) {
    exists n :: 0 <= n < |nodes| && Shows(nodes[n].statement, l)
  }

  lemma ReadNodes(lines: seq<Line>, limit: nat, cap: nat, nodes: seq<Node>, roots: seq<nat>)
    requires IsRead(lines, limit, cap, nodes, roots)
    ensures |nodes| == Min(cap, |Offers(lines, 0)|)
    ensures forall n :: 0 <= n < |nodes| ==> nodes[n].statement == Offers(lines, 0)[n].statement
    ensures forall n :: 0 <= n < |nodes| ==>
              nodes[n].status == nodes[n].statement.status || nodes[n].status == Partial
    ensures forall n :: 0 <= n < |nodes| && Rooted(nodes[n].statement) ==> nodes[n].status == nodes[n].statement.status
    ensures forall n :: 0 <= n < |nodes| && nodes[n].parent.Some? ==> nodes[n].parent.value < n
  {
    var log := LogOf(Taken(Offers(lines, 0), cap));
    hide HungOn, Raised;
    forall n | 0 <= n < |nodes|
      ensures Rooted(nodes[n].statement) ==> nodes[n].status == nodes[n].statement.status
      ensures nodes[n].statement == Offers(lines, 0)[n].statement
      ensures nodes[n].status == nodes[n].statement.status || nodes[n].status == Partial
      ensures nodes[n].parent.Some? ==> nodes[n].parent.value < n
    {
      assert IsNode(log, limit, n, nodes[n]);
      StatusOfNode(log, limit, n, nodes[n]);
    }
  }

  /** A statement keeps its status or is partial; at the root it keeps it. */
  lemma StatusOfNode(log: seq<Entry>, limit: nat, n: nat, node: Node)
    requires n < |log| && IsNode(log, limit, n, node)
    ensures node.status == node.statement.status || node.status == Partial
    ensures Rooted(node.statement) ==> node.status == node.statement.status
  {
    hide Path, HungOn, Raised;
    if Rooted(node.statement) {
      assert log[..n] + [log[n]] == log[..n + 1];
      RootedArrival(log[..n], limit, log[n]);
    }
  }

  // ---------------------------------------------------------------- which nodes are certain

  /** A line of commands read in full: no mixed indentation, at most 16 384 characters, and a command. */
  predicate Certain(line: Line) {
    line.kind == Plain && !line.mixed && |line.text| <= 16384 && line.command.Some?
  }

  /** The statement of a line: a line of commands is certain exactly in these cases, and a block never is. */
  lemma StatementSays(lines: seq<Line>, i: nat)
    requires i < |lines| && lines[i].kind != Blank
    ensures var s, line := OfferAt(lines, i).statement, lines[i];
            && s.sourceStart == i + 1 && (s.kind == StatementNode <==> line.kind == Plain)
            && (s.kind == CommentNode <==> line.kind == Remark) && (s.canParent <==> line.kind == Plain)
            && (s.forceRoot <==> line.kind == Remark)
            && (line.kind == Plain ==>
                  && s.command == line.command && s.arguments == line.arguments && s.negated == line.negated
                  && s.indent == line.columns && (s.status == Parsed <==> Certain(line)))
            && (line.kind == Banner || line.kind == Certificate ==> s.status == Opaque || s.status == Partial)
  {
    hide BlockAt, BlockCut, Joined, BannerArguments;
  }

  /** The first line after `start` that ends its block. */
  ghost predicate Closes(lines: seq<Line>, start: nat, e: nat) {
    && start < e < |lines| && Ends(lines[start], lines[e])
    && forall m :: start < m < e ==> !Ends(lines[start], lines[m])
  }

  /** A banner that ends on its own line. */
  predicate ClosedAtOnce(line: Line) {
    line.kind == Banner && line.delimiter.Some? && line.closed
  }

  /**
   The statement of a block: whole only when it ends on its own line or at the first closing line, less than 4096 lines
   on, and no line of it is over 16 384 characters; otherwise of uncertain end, and without a closing line the last.
   */
  lemma BlockSays(lines: seq<Line>, i: nat)
    requires i < |lines| && (lines[i].kind == Banner || lines[i].kind == Certificate)
    ensures var o := OfferAt(lines, i);
            && o.statement.kind == OpaqueNode && !o.statement.canParent
            && (o.complete <==> ClosedAtOnce(lines[i]) || exists e: nat :: e < i + 4096 && Closes(lines, i, e))
            && (o.complete && !ClosedAtOnce(lines[i]) ==> Closes(lines, i, o.statement.sourceEnd - 1))
            && (ClosedAtOnce(lines[i]) ==> o.statement.sourceEnd == i + 1)
            && (!o.complete ==> o.statement.sourceEnd == Min(|lines|, i + 4096))
            && (o.statement.status == Opaque <==>
                  o.complete && forall m :: i <= m < o.statement.sourceEnd ==> |lines[m].text| <= 16384)
            && (o.statement.status != Opaque ==> o.statement.status == Partial)
  {
    hide Joined, BannerArguments, BlockEnd, Ends, Closes;
    if !ClosedAtOnce(lines[i]) {
      BlockEndSays(lines, i, i + 1);
    }
  }

  lemma {:induction false} BlockEndSays(lines: seq<Line>, start: nat, from: nat)
    requires start < from <= EndLimit(lines, start)
    requires forall m :: start < m < from ==> !Ends(lines[start], lines[m])
    ensures var (e, complete) := BlockEnd(lines, start, from);
            && (complete ==> Closes(lines, start, e))
            && (complete <==> exists c: nat :: c < start + 4096 && Closes(lines, start, c))
    decreases |lines| - from
  {
    hide Ends;
    if from < EndLimit(lines, start) && !Ends(lines[start], lines[from]) {
      BlockEndSays(lines, start, from + 1);
    }
  }

  /** The statements after `j`, a line of commands, up to `n` are all indented deeper than it, and none is a comment. */
  predicate StandsBelow(nodes: seq<Node>, j: nat, n: nat) {
    && j < n < |nodes| && nodes[j].statement.kind == StatementNode
    && forall k :: j < k <= n ==>
         && nodes[k].statement.kind != CommentNode && nodes[k].statement.indent != 0
         && nodes[j].statement.indent < nodes[k].statement.indent
  }

  /** A certain statement was read in full, and stands at the margin or below another statement. */
  lemma CertainNodeStands(lines: seq<Line>, limit: nat, cap: nat, nodes: seq<Node>, roots: seq<nat>, n: nat)
    requires IsRead(lines, limit, cap, nodes, roots) && n < |nodes| && nodes[n].status == Parsed
    requires nodes[n].statement.kind == StatementNode
    ensures 0 < nodes[n].statement.sourceStart <= |lines| && Certain(lines[nodes[n].statement.sourceStart - 1])
    ensures nodes[n].statement.indent == 0 || exists j: nat :: StandsBelow(nodes, j, n)
  {
    hide Offers, IsRead, Says, LogOf, Taken, Certain, StandsBelow, IsForest, IsNode;
    NodesSay(lines, limit, cap, nodes, roots);
    CertainStatement(lines, nodes[n].statement, nodes[n].status);
    if nodes[n].statement.indent != 0 {
      var log := LogOf(Taken(Offers(lines, 0), cap));
      ReadIsForestOf(lines, limit, cap, nodes, roots);
      var j := CertainIsEnclosed(log, limit, n, nodes[n]);
      EncloserStands(lines, log, nodes, j, n);
    }
  }

  lemma NodesSay(lines: seq<Line>, limit: nat, cap: nat, nodes: seq<Node>, roots: seq<nat>)
    requires IsRead(lines, limit, cap, nodes, roots)
    ensures forall k :: 0 <= k < |nodes| ==> Says(lines, nodes[k].statement)
    ensures forall k :: 0 <= k < |nodes| ==>
              nodes[k].status == nodes[k].statement.status || nodes[k].status == Partial
  {
    hide Offers, IsRead, Says;
    ReadNodes(lines, limit, cap, nodes, roots);
    StatementsSay(lines, 0);
  }

  lemma CertainStatement(lines: seq<Line>, s: Statement, status: ParseStatus)
    requires Says(lines, s) && status == Parsed && (status == s.status || status == Partial)
    requires s.kind == StatementNode
    ensures 0 < s.sourceStart <= |lines| && Certain(lines[s.sourceStart - 1]) && !s.forceRoot
  {
  }

  lemma EncloserStands(lines: seq<Line>, log: seq<Entry>, nodes: seq<Node>, j: nat, n: nat)
    requires n < |nodes| == |log| && Encloses(log, j, n)
    requires forall k :: 0 <= k < |nodes| ==> nodes[k].statement == log[k].statement && Says(lines, nodes[k].statement)
    ensures StandsBelow(nodes, j, n)
  {
    assert Says(lines, nodes[j].statement) && log[j].statement.canParent;
    forall k | j < k <= n
      ensures nodes[k].statement.kind != CommentNode && nodes[k].statement.indent != 0
      ensures nodes[j].statement.indent < nodes[k].statement.indent
    {
      assert Says(lines, nodes[k].statement) && Deeper(log[j], log[k]);
    }
  }

  lemma ReadIsForestOf(lines: seq<Line>, limit: nat, cap: nat, nodes: seq<Node>, roots: seq<nat>)
    requires IsRead(lines, limit, cap, nodes, roots)
    ensures var log := LogOf(Taken(Offers(lines, 0), cap));
            && |log| == |nodes| && (forall k :: 0 <= k < |nodes| ==> IsNode(log, limit, k, nodes[k]))
            && forall k :: 0 <= k < |nodes| ==> nodes[k].statement == log[k].statement
  {
    hide Offers, LogOf, Taken, HungOn, Path, Raised;
  }

  /** A node keeps the status of its statement only when nothing was reported of it: then something encloses it. */
  lemma CertainIsEnclosed(log: seq<Entry>, limit: nat, n: nat, node: Node) returns (j: nat)
    requires n < |log| && IsNode(log, limit, n, node) && node.status == Parsed && !Rooted(node.statement)
    ensures j < n && Encloses(log, j, n)
  {
    hide HungOn, Path, UnmatchedDedent, BoundedByPredecessor, Enclosers;
    var upTo := log[..n + 1];
    assert !Orphan(upTo, limit, n);
    if limit == 0 {
      j := n - 1;
    } else {
      EnclosersMembers(upTo, n);
      j := Enclosers(upTo, n)[0];
      assert j in Enclosers(upTo, n);
    }
    assert forall k :: 0 <= k <= n ==> upTo[k] == log[k];
  }

  /** What `StatementSays` says of a statement, found by its first line. */
  predicate Says(lines: seq<Line>, s: Statement) {
    && 0 < s.sourceStart <= |lines|
    && var line := lines[s.sourceStart - 1];
    && (s.kind == CommentNode ==> s.forceRoot) && (s.canParent ==> s.kind == StatementNode)
    && (s.kind == StatementNode ==>
          line.kind == Plain && !s.forceRoot && s.indent == line.columns && (s.status == Parsed <==> Certain(line)))
  }

  lemma {:induction false} StatementsSay(lines: seq<Line>, i: nat)
    requires i <= |lines|
    ensures forall k :: 0 <= k < |Offers(lines, i)| ==> Says(lines, Offers(lines, i)[k].statement)
    decreases |lines| - i
  {
    hide OfferAt, Offers, Says;
    if i == |lines| {
      NoRounds(lines);
    } else {
      Round(lines, i);
      if lines[i].kind == Blank {
        StatementsSay(lines, i + 1);
      } else {
        var o := OfferAt(lines, i);
        SaysOf(lines, i);
        if o.complete {
          StatementsSay(lines, o.statement.sourceEnd);
        }
        var rest := if o.complete then Offers(lines, o.statement.sourceEnd) else [];
        assert Offers(lines, i) == [o] + rest;
      }
    }
  }

  lemma SaysOf(lines: seq<Line>, i: nat)
    requires i < |lines| && lines[i].kind != Blank
    ensures Says(lines, OfferAt(lines, i).statement)
  {
    hide OfferAt;
    StatementSays(lines, i);
  }

  /**
   A line that is not blank has a node exactly when at most `cap` statements start on or before it and the reader
   has not stopped before it.
   */
  lemma LineHasNodeIff(lines: seq<Line>, limit: nat, cap: nat, nodes: seq<Node>, roots: seq<nat>, l: nat)
    requires IsRead(lines, limit, cap, nodes, roots) && l < |lines| && lines[l].kind != Blank
    ensures HasNode(nodes, l) <==> Rank(Offers(lines, 0), l) <= cap && !StopsBefore(Offers(lines, 0), l)
  {
    var offers := Offers(lines, 0);
    hide Offers, IsRead, Shows, Rank, StopsBefore;
    ReadNodes(lines, limit, cap, nodes, roots);
    OffersInOrder(lines, 0);
    EveryLineIsOffered(lines, 0, l);
    if k :| 0 <= k < |offers| && Shows(offers[k].statement, l) {
      RankOfShown(offers, 0, |lines|, l, k);
      assert k < |nodes| ==> Shows(nodes[k].statement, l);
    }
    if n :| 0 <= n < |nodes| && Shows(nodes[n].statement, l) {
      RankOfShown(offers, 0, |lines|, l, n);
    }
  }

  /**
   The node that answers for a line: the last that starts on or before it.  Where the reader stopped before the
   line, that is the unterminated block.
   */
  lemma NodeForLine(lines: seq<Line>, limit: nat, cap: nat, nodes: seq<Node>, roots: seq<nat>, l: nat)
    requires IsRead(lines, limit, cap, nodes, roots) && l < |lines| && lines[l].kind != Blank
    requires Rank(Offers(lines, 0), l) <= cap
    ensures var n := Rank(Offers(lines, 0), l) - 1;
            && 0 <= n < |nodes|
            && (!Shows(nodes[n].statement, l) ==> nodes[n].statement.kind == OpaqueNode && nodes[n].status == Partial)
  {
    hide Offers, IsRead, Shows, Rank;
    ReadNodes(lines, limit, cap, nodes, roots);
    OfferForLine(lines, l);
  }

  lemma OfferForLine(lines: seq<Line>, l: nat)
    requires l < |lines| && lines[l].kind != Blank
    ensures Answers(Offers(lines, 0), l)
  {
    hide Offers, Shown, StopsBefore, InOrder, Within, Answers;
    OffersInOrder(lines, 0);
    EveryLineIsOffered(lines, 0, l);
    RankAnswers(Offers(lines, 0), 0, |lines|, l);
  }

  /** The last statement that starts on or before the line shows it or is an unterminated block. */
  predicate Answers(offers: seq<Offer>, l: nat) {
    var n := Rank(offers, l) - 1;
    && 0 <= n
    && var s := offers[n].statement;
       Shows(s, l) || (s.kind == OpaqueNode && s.status == Partial)
  }

  lemma RankAnswers(offers: seq<Offer>, from: nat, to: nat, l: nat)
    requires InOrder(offers) && Within(offers, from, to) && (Shown(offers, l) || StopsBefore(offers, l))
    ensures Answers(offers, l)
  {
    hide Shows, Rank, InOrder, Within, StopsBefore;
    if StopsBefore(offers, l) {
      RankOfStopped(offers, from, to, l);
    } else {
      var k :| 0 <= k < |offers| && Shows(offers[k].statement, l);
      RankOfShown(offers, from, to, l, k);
    }
  }

  // ---------------------------------------------------------------- beyond the cap

  lemma {:induction false} BlockEndOfPrefix(lines: seq<Line>, start: nat, from: nat, l: nat)
    requires start < from <= EndLimit(lines, start) && BlockEnd(lines, start, from).1
    requires BlockEnd(lines, start, from).0 < l <= |lines|
    ensures from <= EndLimit(lines[..l], start) && BlockEnd(lines[..l], start, from) == BlockEnd(lines, start, from)
    decreases |lines| - from
  {
    if !Ends(lines[start], lines[from]) {
      BlockEndOfPrefix(lines, start, from + 1, l);
    }
  }

  lemma {:induction false} JoinedOfPrefix(lines: seq<Line>, start: nat, end: nat, l: nat)
    requires start <= end < l <= |lines|
    ensures Joined(lines[..l], start, end) == Joined(lines, start, end)
    ensures LongWithin(lines[..l], start, end) <==> LongWithin(lines, start, end)
  {
    if start < end {
      JoinedOfPrefix(lines, start, end - 1, l);
    }
    assert forall m :: start <= m <= end ==> lines[..l][m] == lines[m];
  }

  /** A complete statement does not depend on the lines behind it. */
  lemma OfferOfPrefix(lines: seq<Line>, i: nat, l: nat)
    requires i < |lines| && lines[i].kind != Blank && OfferAt(lines, i).complete
    requires OfferAt(lines, i).statement.sourceEnd <= l <= |lines|
    ensures lines[..l][i] == lines[i] && OfferAt(lines[..l], i) == OfferAt(lines, i)
  {
    if lines[i].kind in {Banner, Certificate} {
      var (end, complete) := BlockAt(lines, i);
      JoinedOfPrefix(lines, i, end, l);
      if !(lines[i].kind == Banner && lines[i].delimiter.Some? && lines[i].closed) {
        BlockEndOfPrefix(lines, i, i + 1, l);
      }
    }
  }

  /** One round less: the statements behind the first and their rank. */
  lemma RankBehindFirst(lines: seq<Line>, i: nat, l: nat)
    requires i < |lines| && lines[i].kind != Blank && 1 < Rank(Offers(lines, i), l)
    ensures var o := OfferAt(lines, i);
            && o.complete && o.statement.sourceEnd <= l
            && Offers(lines, i) == [o] + Offers(lines, o.statement.sourceEnd)
            && Rank(Offers(lines, o.statement.sourceEnd), l) == Rank(Offers(lines, i), l) - 1
  {
    hide OfferAt;
    var o := OfferAt(lines, i);
    OffersInOrder(lines, i);
    Round(lines, i);
    assert Offers(lines, i)[1..] == if o.complete then Offers(lines, o.statement.sourceEnd) else [];
    RankIs(Offers(lines, i), i, |lines|, l, 1);
  }

  lemma RankPastEnd(lines: seq<Line>, i: nat, l: nat)
    requires l <= i <= |lines| && 0 < Rank(Offers(lines, i), l)
    ensures i == l && i < |lines| && lines[i].kind != Blank
  {
    OffersInOrder(lines, i);
    RankIs(Offers(lines, i), i, |lines|, l, 0);
    if i < |lines| {
      Round(lines, i);
      if lines[i].kind == Blank {
        OffersInOrder(lines, i + 1);
      }
    }
  }

  /** The first `cap` statements are those of the lines before `l`, if more than `cap` start on or before `l`. */
  lemma {:induction false} TakenOfPrefix(lines: seq<Line>, i: nat, l: nat, cap: nat)
    requires i <= l <= |lines| && cap < Rank(Offers(lines, i), l)
    ensures Taken(Offers(lines[..l], i), cap) == Taken(Offers(lines, i), cap)
    decreases |lines| - i
  {
    hide OfferAt, Rank, Offers;
    if i == l {
      RankPastEnd(lines, i, l);
    }
    if cap > 0 {
      if i < |lines| && lines[i].kind == Blank {
        Round(lines, i);
        Round(lines[..l], i);
        TakenOfPrefix(lines, i + 1, l, cap);
      } else {
        RankBehindFirst(lines, i, l);
        OfferOfPrefix(lines, i, l);
        Round(lines[..l], i);
        TakenOfPrefix(lines, OfferAt(lines, i).statement.sourceEnd, l, cap - 1);
      }
    }
  }

  /**
   Beyond the cap nothing is read: a configuration with and without such a line and all that follow gives the
   same forest, and so the same facts, blocks and verdicts.
   */
  lemma {:induction false} BeyondTheCapNothingIsRead(
    lines: seq<Line>, limit: nat, cap: nat, nodes: seq<Node>, roots: seq<nat>, l: nat)
    requires l < |lines| && cap < Rank(Offers(lines, 0), l)
    ensures IsRead(lines, limit, cap, nodes, roots) <==> IsRead(lines[..l], limit, cap, nodes, roots)
  {
    TakenOfPrefix(lines, 0, l, cap);
  }
}
