/**
 The reader of indented command lines (backend/app/parsing/readers/indentation_cli.py:31-206, 243-292): which
 lines of a configuration it offers to the builder as statements, and which lines never reach a node.

 A line comes with what the reader sees in it: its kind, its indentation and its tokens.
 */
module CliReader {
  import opened Common
  import opened StructuralForest
  import opened StructuralBuilder

  datatype LineKind = Blank | Remark | Banner | Certificate | Plain

  /**
   `delimiter` and `closed` are those of a banner: the text that ends it and whether it does so on its own line;
   `quit` says that the line ends a certificate chain.
   */
  datatype Line = Line(
    text: string, kind: LineKind, columns: nat, mixed: bool, command: Option<string>, arguments: seq<string>,
    negated: bool, delimiter: Option<string>, closed: bool, quit: bool)

  /** One call of `add_node`: after a reset or not; the reader goes on only if the statement is complete. */
  datatype Offer = Offer(statement: Statement, reset: bool, complete: bool, cut: bool)

  const MAX_LINE_CHARACTERS: nat := 16 * 1024

  const MAX_OPAQUE_BLOCK_LINES: nat := 4096

  predicate Long(line: Line) {
    |line.text| > MAX_LINE_CHARACTERS
  }

  function Bounded(line: Line): string {
    if Long(line) then line.text[..MAX_LINE_CHARACTERS] else line.text
  }

  // ---------------------------------------------------------------- opaque blocks

  predicate Contains(text: string, part: string) {
    exists k :: 0 <= k <= |text| - |part| && text[k..][..|part|] == part
  }

  /** `line` ends the block that `opening` starts. */
  predicate Ends(opening: Line, line: Line) {
    if opening.kind == Banner then opening.delimiter.Some? && Contains(line.text, opening.delimiter.value)
    else line.quit
  }

  function EndLimit(lines: seq<Line>, start: nat): nat {
    Min(|lines|, start + MAX_OPAQUE_BLOCK_LINES)
  }

  /** The last line of the block, and whether that line ends it. */
  function BlockEnd(lines: seq<Line>, start: nat, from: nat): (r: (nat, bool))
    requires start < from <= EndLimit(lines, start)
    ensures start <= r.0 < EndLimit(lines, start)
    ensures !r.1 ==> r.0 == EndLimit(lines, start) - 1
    decreases |lines| - from
  {
    if from == EndLimit(lines, start) then (from - 1, false)
    else if Ends(lines[start], lines[from]) then (from, true)
    else BlockEnd(lines, start, from + 1)
  }

  function BlockAt(lines: seq<Line>, start: nat): (r: (nat, bool))
    requires start < |lines|
    ensures start <= r.0 < |lines|
  {
    if lines[start].kind == Banner && lines[start].delimiter.Some? && lines[start].closed then (start, true)
    else BlockEnd(lines, start, start + 1)
  }

  function Joined(lines: seq<Line>, start: nat, end: nat): string
    requires start <= end < |lines|
  {
    if start == end then Bounded(lines[start]) else Joined(lines, start, end - 1) + "\n" + Bounded(lines[end])
  }

  predicate LongWithin(lines: seq<Line>, start: nat, end: nat)
    requires start <= end < |lines|
  {
    exists m :: start <= m <= end && Long(lines[m])
  }

  /** The limits cut the block short. */
  predicate BlockCut(lines: seq<Line>, start: nat)
    requires start < |lines|
  {
    var (end, complete) := BlockAt(lines, start);
    LongWithin(lines, start, end) || (!complete && EndLimit(lines, start) < |lines|)
  }

  /** `_scan_banner` and `_scan_certificate_block`. */
  method ScanBlock(lines: seq<Line>, start: nat) returns (end: nat, text: string, complete: bool, cut: bool)
    requires start < |lines|
    ensures (end, complete) == BlockAt(lines, start)
    ensures text == Joined(lines, start, end)
    ensures cut == BlockCut(lines, start)
  {
    hide Bounded, Long, Ends;
    text, cut := Bounded(lines[start]), Long(lines[start]);
    if lines[start].kind == Banner && lines[start].delimiter.Some? && lines[start].closed {
      return start, text, true, cut;
    }
    var limit := EndLimit(lines, start);
    for index := start + 1 to limit
      invariant BlockAt(lines, start) == BlockEnd(lines, start, index)
      invariant text == Joined(lines, start, index - 1)
      invariant cut == LongWithin(lines, start, index - 1)
    {
      text, cut := text + "\n" + Bounded(lines[index]), cut || Long(lines[index]);
      if Ends(lines[start], lines[index]) {
        return index, text, true, cut;
      }
    }
    return limit - 1, text, false, cut || limit < |lines|;
  }

  // ---------------------------------------------------------------- what the reader offers

  function BannerArguments(line: Line): seq<string> {
    if line.delimiter.Some? && line.delimiter.value !in line.arguments then line.arguments + [line.delimiter.value]
    else line.arguments
  }

  function PlainStatus(line: Line): ParseStatus {
    if line.mixed || Long(line) then Partial else if line.command.None? then Unresolved else Parsed
  }

  function RemarkOffer(line: Line, i: nat): Offer {
    var status := if Long(line) then Partial else Parsed;
    var s := Statement(Bounded(line), CommentNode, None, [], false, 0, i + 1, i + 1, status, true, false);
    Offer(s, true, true, Long(line))
  }

  function PlainOffer(line: Line, i: nat): Offer {
    var s := Statement(
      Bounded(line), StatementNode, line.command, line.arguments, line.negated, line.columns, i + 1, i + 1,
      PlainStatus(line), false, true);
    Offer(s, false, true, Long(line))
  }

  function BlockOffer(lines: seq<Line>, i: nat): Offer
    requires i < |lines|
  {
    var line := lines[i];
    var (end, complete) := BlockAt(lines, i);
    var cut := BlockCut(lines, i);
    var status := if complete && !cut then Opaque else Partial;
    var (command, arguments, negated) :=
      if line.kind == Banner then (Some("banner"), BannerArguments(line), false)
      else (line.command, line.arguments, line.negated);
    var s := Statement(
      Joined(lines, i, end), OpaqueNode, command, arguments, negated, line.columns, i + 1, end + 1,
      status, false, false);
    Offer(s, false, complete, cut)
  }

  /** The statement the reader makes of the lines from `i` on. */
  function OfferAt(lines: seq<Line>, i: nat): (o: Offer)
    requires i < |lines| && lines[i].kind != Blank
    ensures o.statement.sourceStart == i + 1 <= o.statement.sourceEnd <= |lines|
    ensures !o.complete ==> o.statement.kind == OpaqueNode && o.statement.status == Partial
    ensures o.reset <==> lines[i].kind == Remark
  {
    if lines[i].kind == Remark then RemarkOffer(lines[i], i)
    else if lines[i].kind == Plain then PlainOffer(lines[i], i)
    else BlockOffer(lines, i)
  }

  /** The statements offered by a builder that takes every one of them. */
  function Offers(lines: seq<Line>, i: nat): seq<Offer>
    requires i <= |lines|
    decreases |lines| - i
  {
    if i == |lines| then []
    else if lines[i].kind == Blank then Offers(lines, i + 1)
    else
      var o := OfferAt(lines, i);
      [o] + if o.complete then Offers(lines, o.statement.sourceEnd) else []
  }

  function Resets(offers: seq<Offer>): nat {
    if offers == [] then 0
    else Resets(offers[..|offers| - 1]) + if offers[|offers| - 1].reset then 1 else 0
  }

  /** The log of a builder that was offered these statements. */
  function LogOf(offers: seq<Offer>): (log: seq<Entry>)
    ensures |log| == |offers| && forall k :: 0 <= k < |log| ==> log[k].statement == offers[k].statement
  {
    if offers == [] then []
    else LogOf(offers[..|offers| - 1]) + [Entry(offers[|offers| - 1].statement, Resets(offers))]
  }

  function Taken(offers: seq<Offer>, cap: nat): seq<Offer> {
    offers[..Min(cap, |offers|)]
  }

  /** The forest the reader makes of the lines: that of the first `cap` statements it would offer. */
  ghost predicate IsRead(lines: seq<Line>, limit: nat, cap: nat, nodes: seq<Node>, roots: seq<nat>) {
    IsForest(LogOf(Taken(Offers(lines, 0), cap)), limit, nodes, roots)
  }

  predicate AnyCut(offers: seq<Offer>) {
    exists k :: 0 <= k < |offers| && offers[k].cut
  }

  /** The arguments of one `add_node` call, as the reader's branches build them. */
  method StatementAt(lines: seq<Line>, i: nat) returns (s: Statement, complete: bool, cut: bool)
    requires i < |lines| && lines[i].kind != Blank
    ensures Offer(s, lines[i].kind == Remark, complete, cut) == OfferAt(lines, i)
  {
    var line := lines[i];
    if line.kind == Remark {
      var status := if Long(line) then Partial else Parsed;
      s := Statement(Bounded(line), CommentNode, None, [], false, 0, i + 1, i + 1, status, true, false);
      return s, true, Long(line);
    }
    if line.kind == Banner || line.kind == Certificate {
      var end, text;
      end, text, complete, cut := ScanBlock(lines, i);
      var status := if complete && !cut then Opaque else Partial;
      var command, arguments, negated := line.command, line.arguments, line.negated;
      if line.kind == Banner {
        command, arguments, negated := Some("banner"), line.arguments, false;
        if line.delimiter.Some? && line.delimiter.value !in arguments {
          arguments := arguments + [line.delimiter.value];
        }
      }
      s := Statement(text, OpaqueNode, command, arguments, negated, line.columns, i + 1, end + 1, status, false, false);
      return s, complete, cut;
    }
    var status := Parsed;
    if line.command.None? {
      status := Unresolved;
    }
    if line.mixed || Long(line) {
      status := Partial;
    }
    s := Statement(Bounded(line), StatementNode, line.command, line.arguments, line.negated, line.columns,
                   i + 1, i + 1, status, false, true);
    return s, true, Long(line);
  }

  lemma OneMore(done: seq<Offer>, o: Offer)
    ensures LogOf(done + [o]) == LogOf(done) + [Entry(o.statement, Resets(done + [o]))]
    ensures Resets(done + [o]) == Resets(done) + if o.reset then 1 else 0
    ensures AnyCut(done + [o]) <==> AnyCut(done) || o.cut
  {
    assert (done + [o])[..|done|] == done;
    assert forall k :: 0 <= k < |done| ==> (done + [o])[k] == done[k];
    assert (done + [o])[|done|] == o;
  }

  lemma NoRounds(lines: seq<Line>)
    ensures Offers(lines, |lines|) == []
  {
  }

  /** One round of the loop: a blank line offers nothing, any other line one statement. */
  lemma Round(lines: seq<Line>, i: nat)
    requires i < |lines|
    ensures lines[i].kind == Blank ==> Offers(lines, i) == Offers(lines, i + 1)
    ensures lines[i].kind != Blank ==>
              var o := OfferAt(lines, i);
              Offers(lines, i) == [o] + if o.complete then Offers(lines, o.statement.sourceEnd) else []
  {
  }

  /** One line that is not blank: offers its statement, after a reset if it is a comment. */
  method ReadStatement(builder: IRBuilder, lines: seq<Line>, i: nat) returns (next: nat, complete: bool, cut: bool)
    requires i < |lines| && lines[i].kind != Blank
    requires builder.Valid() && |builder.log| < builder.maxNodes
    modifies builder
    ensures builder.Valid()
    ensures var o := OfferAt(lines, i);
            && builder.epoch == old(builder.epoch) + (if o.reset then 1 else 0)
            && builder.log == old(builder.log) + [Entry(o.statement, builder.epoch)]
            && next == o.statement.sourceEnd && complete == o.complete && cut == o.cut
  {
    hide OfferAt, Raised, IRBuilder.Valid;
    var s;
    s, complete, cut := StatementAt(lines, i);
    if lines[i].kind == Remark {
      builder.ResetContext();
    }
    var id := builder.AddNode(s);
    next := s.sourceEnd;
  }

  /** What the reader has done before line `i`: `done` was offered, and the rest is what it would offer from there. */
  ghost predicate Reading(lines: seq<Line>, i: nat, done: seq<Offer>, log: seq<Entry>, epoch: nat, cut: bool) {
    && i <= |lines| && Offers(lines, 0) == done + Offers(lines, i)
    && log == LogOf(done) && epoch == Resets(done) && (cut <==> AnyCut(done))
  }

  /** What the reader has done in the end. */
  ghost predicate HasRead(lines: seq<Line>, cap: nat, log: seq<Entry>, cut: bool, capped: bool) {
    && log == LogOf(Taken(Offers(lines, 0), cap))
    && (cut <==> AnyCut(Taken(Offers(lines, 0), cap)))
    && (|Offers(lines, 0)| > cap ==> capped)
    && (capped ==> |Offers(lines, 0)| >= cap)
  }

  lemma ReadingStarts(lines: seq<Line>)
    ensures Reading(lines, 0, [], [], 0, false)
  {
  }

  lemma ReadingBlank(lines: seq<Line>, i: nat, done: seq<Offer>, log: seq<Entry>, epoch: nat, cut: bool)
    requires Reading(lines, i, done, log, epoch, cut) && i < |lines| && lines[i].kind == Blank
    ensures Reading(lines, i + 1, done, log, epoch, cut)
  {
    Round(lines, i);
  }

  lemma ReadingGoesOn(lines: seq<Line>, i: nat, done: seq<Offer>, log: seq<Entry>, epoch: nat, cut: bool)
    requires Reading(lines, i, done, log, epoch, cut) && i < |lines| && lines[i].kind != Blank
    ensures var o := OfferAt(lines, i);
            var epoch' := epoch + if o.reset then 1 else 0;
            var log' := log + [Entry(o.statement, epoch')];
            var next := if o.complete then o.statement.sourceEnd else |lines|;
            && |log'| == |done + [o]|
            && Reading(lines, next, done + [o], log', epoch', cut || o.cut)
  {
    hide OfferAt, LogOf, Resets, AnyCut;
    Round(lines, i);
    OneMore(done, OfferAt(lines, i));
    assert Offers(lines, |lines|) == [];
  }

  lemma ReadingEnds(lines: seq<Line>, i: nat, done: seq<Offer>, log: seq<Entry>, epoch: nat, cut: bool, cap: nat)
    requires Reading(lines, i, done, log, epoch, cut) && |done| <= cap && (i == |lines| || |done| == cap)
    ensures HasRead(lines, cap, log, cut, i < |lines|)
  {
    hide OfferAt, LogOf, Resets, AnyCut;
    assert Offers(lines, |lines|) == [];
    assert done == Taken(Offers(lines, 0), cap);
  }

  method Parse(lines: seq<Line>, inputTruncated: bool, maxDepth: nat, maxNodes: nat) returns (ir: StructuralIR)
    ensures IsRead(lines, maxDepth, maxNodes, ir.nodes, ir.roots)
    ensures inputTruncated || |Offers(lines, 0)| > maxNodes || AnyCut(Taken(Offers(lines, 0), maxNodes)) ==>
              ir.truncated
    ensures ir.truncated ==>
              inputTruncated || |Offers(lines, 0)| >= maxNodes || AnyCut(Taken(Offers(lines, 0), maxNodes))
  {
    hide OfferAt, Offers, LogOf, Resets, AnyCut, IsForest, Open, Raised, IRBuilder.Valid, Reading;
    var builder := new IRBuilder(maxDepth, maxNodes);
    var index, truncated := 0, inputTruncated;
    ghost var done: seq<Offer>, anyCut := [], false;
    ReadingStarts(lines);
    while index < |lines|
      invariant index <= |lines| && |done| == |builder.log| <= maxNodes
      invariant builder.Valid() && builder.maxDepth == maxDepth && builder.maxNodes == maxNodes
      invariant Reading(lines, index, done, builder.log, builder.epoch, anyCut)
      invariant truncated <==> inputTruncated || anyCut
    {
      if builder.NodeLimitReached() {
        truncated := true;
        break;
      }
      if lines[index].kind == Blank {
        ReadingBlank(lines, index, done, builder.log, builder.epoch, anyCut);
        index := index + 1;
        continue;
      }
      ReadingGoesOn(lines, index, done, builder.log, builder.epoch, anyCut);
      done := done + [OfferAt(lines, index)];
      var next, complete, cut := ReadStatement(builder, lines, index);
      truncated, anyCut := truncated || cut, anyCut || cut;
      index := if complete then next else |lines|; // an unterminated block is the last thing read
    }
    ReadingEnds(lines, index, done, builder.log, builder.epoch, anyCut, maxNodes);
    ir := builder.Build(truncated);
  }
}
