/**
 Lines of a configuration and the verdicts on it: reader, builder, interpretation, unresolved blocks and compliance
 put together (backend/app/interpretation/service.py:690-813, backend/app/compliance/service.py:115-172).
 */
module LineVerdicts {
  import opened Common
  import opened Verdicts
  import opened UnresolvedEvidence
  import opened Compliance
  import opened FailClosed
  import opened CliReader
  import opened LineCoverage
  import F = StructuralForest
  import I = Interpretation

  /** Every artifact was read from its lines; the reader's own limits are a depth of 64 and a cap of 20 000 nodes. */
  ghost predicate AllRead(documents: seq<seq<Line>>, limit: nat, cap: nat, evidence: seq<Evidence>) {
    && |evidence| == |documents|
    && forall a :: 0 <= a < |evidence| ==> IsReadAs(documents[a], limit, cap, evidence[a].ir)
  }

  ghost predicate IsReadAs(lines: seq<Line>, limit: nat, cap: nat, nodes: seq<F.Node>) {
    exists roots: seq<nat> :: IsRead(lines, limit, cap, nodes, roots)
  }

  /** What the builder makes is a forest in the sense of interpretation. */
  lemma ReadIsForest(lines: seq<Line>, limit: nat, cap: nat, nodes: seq<F.Node>)
    requires IsReadAs(lines, limit, cap, nodes)
    ensures I.Forest(nodes)
  {
    hide IsRead;
    var roots: seq<nat> :| IsRead(lines, limit, cap, nodes, roots);
    ReadNodes(lines, limit, cap, nodes, roots);
  }

  /** Reads and interprets every artifact and records what is left; a value its field refuses aborts the audit. */
  method InterpretAudit(
    k: I.Knowledge, profile: Profile, rulePack: Option<RulePack>, pack: seq<I.Mapping>, documents: seq<seq<Line>>,
    inputTruncated: bool, unsupported: seq<nat>, limit: nat, cap: nat)
    returns (r: Result<(seq<Evidence>, seq<Block>), (nat, I.NodeId, I.MappingId)>)
    ensures r.Ok? ==> AllRead(documents, limit, cap, r.value.0) && Interpreted(k, pack, r.value.0)
    ensures r.Ok? ==>
              var rules := if rulePack.Some? then rulePack.value.rules else [];
              Recorded(profile, rules, pack, r.value.0, unsupported, r.value.1)
    ensures r.Err? ==> r.error.0 < |documents|
    ensures r.Err? ==> Aborts(k, pack, documents[r.error.0], limit, cap, r.error.1, r.error.2)
  {
    hide I.Complete, Recorded, I.Refuses, IsRead;
    var evidence: seq<Evidence> := [];
    for a := 0 to |documents|
      invariant AllRead(documents[..a], limit, cap, evidence) && Interpreted(k, pack, evidence)
    {
      var ir := Parse(documents[a], inputTruncated, limit, cap);
      ReadIsForest(documents[a], limit, cap, ir.nodes);
      var report := I.InterpretStructuralIR(k, ir.nodes, pack);
      if report.Err? {
        return Err((a, report.error.0, report.error.1));
      }
      evidence := evidence + [Evidence(ir.nodes, report.value)];
      assert documents[..a + 1] == documents[..a] + [documents[a]];
    }
    assert documents[..|documents|] == documents;
    InterpretedIsInReach(k, pack, evidence);
    var blocks := PersistUnresolvedBlocks(profile, rulePack, pack, evidence, unsupported);
    return Ok((evidence, blocks));
  }

  ghost predicate Aborts(
    k: I.Knowledge, pack: seq<I.Mapping>, lines: seq<Line>, limit: nat, cap: nat, n: I.NodeId, j: I.MappingId) {
    exists nodes: seq<F.Node> ::
        IsReadAs(lines, limit, cap, nodes) && I.Forest(nodes) && I.Refuses(k, nodes, pack, n, j)
  }

  /** At most `cap` statements start on or before the line. */
  predicate WithinCap(lines: seq<Line>, cap: nat, l: nat) {
    l < |lines| && lines[l].kind != Blank && Rank(Offers(lines, 0), l) <= cap
  }

  /** The node that answers for a line. */
  function NodeOf(lines: seq<Line>, l: nat): int {
    Rank(Offers(lines, 0), l) - 1
  }

  /**
   An unexplained line never passes, while the cap is not reached.  Some node answers for every line that is not
   blank: it shows the line, or it is an opaque block that never ended.  If that node is left unresolved and is not
   identity syntax, every finding that passes is of a rule that needs no field of the mappings which took the node
   up, and there is such a mapping.  If the block never ended, no finding passes.
   */
  lemma UnexplainedLineNeverPasses(
    k: I.Knowledge, c: Context, profile: Profile, rp: RulePack, pack: seq<I.Mapping>, documents: seq<seq<Line>>,
    limit: nat, cap: nat, evidence: seq<Evidence>, unsupported: seq<nat>, blocks: seq<Block>, states: seq<State>,
    a: nat, l: nat, f: Finding)
    requires AllRead(documents, limit, cap, evidence) && Interpreted(k, pack, evidence)
    requires a < |evidence| && WithinCap(documents[a], cap, l)
    requires Recorded(profile, rp.rules, pack, evidence, unsupported, blocks) && Evaluable(rp.rules)
    requires DistinctRules(rp.rules)
    ensures var n := NodeOf(documents[a], l); 0 <= n < |evidence[a].ir|
    ensures var n: I.NodeId := NodeOf(documents[a], l);
            var ir := evidence[a].ir;
            f in Findings(c, rp, rp.rules, states, blocks) && f.verdict == Pass
            && I.IsUnresolved(k, ir, pack, n) && !IdentityOnly(profile, ir[n]) ==>
              && Shows(ir[n].statement, l)
              && (exists j: I.MappingId :: IsDiagnosed(k, pack, ir, n, j))
              && NeedsNothingOf(k, pack, rp, ir, n, f.rule)
  {
    hide IsRead, Recorded, Findings, I.IsUnresolved, IdentityOnly, IsDiagnosed, Shows, I.Complete;
    var lines, ir := documents[a], evidence[a].ir;
    var roots: seq<nat> :| IsRead(lines, limit, cap, ir, roots);
    NodeForLine(lines, limit, cap, ir, roots, l);
    var n: I.NodeId := NodeOf(lines, l);
    if f in Findings(c, rp, rp.rules, states, blocks) && f.verdict == Pass
       && I.IsUnresolved(k, ir, pack, n) && !IdentityOnly(profile, ir[n]) {
      UnexplainedConfigurationNeverPasses(k, c, profile, rp, pack, evidence, unsupported, blocks, states, a, n, f);
      if !Shows(ir[n].statement, l) {
        PartialBlockStopsAll(k, c, profile, rp, pack, evidence, unsupported, blocks, states, a, n, f);
      }
    }
  }

  /**
   The same for a line of uncertain syntax, as one that is indented below nothing or by mixed blanks: no mapping makes
   a fact of it, so unless a fact has its scope from the line, it stops every rule but those that need no field of the
   mappings that took it up; each of these has reported it as uncertain.
   */
  lemma UncertainLineNeverPasses(
    k: I.Knowledge, c: Context, profile: Profile, rp: RulePack, pack: seq<I.Mapping>, documents: seq<seq<Line>>,
    limit: nat, cap: nat, evidence: seq<Evidence>, unsupported: seq<nat>, blocks: seq<Block>, states: seq<State>,
    a: nat, l: nat, f: Finding)
    requires AllRead(documents, limit, cap, evidence) && Interpreted(k, pack, evidence)
    requires a < |evidence| && WithinCap(documents[a], cap, l)
    requires Recorded(profile, rp.rules, pack, evidence, unsupported, blocks) && Evaluable(rp.rules)
    requires DistinctRules(rp.rules) && f in Findings(c, rp, rp.rules, states, blocks) && f.verdict == Pass
    requires var n, ir := NodeOf(documents[a], l), evidence[a].ir;
             0 <= n < |ir| ==>
               && ir[n].status != F.Parsed && I.IsEvidence(ir[n]) && !IdentityOnly(profile, ir[n])
               && forall i: I.NodeId, j: I.MappingId :: !I.RestsOn(k, ir, pack, i, j, n)
    ensures var n, ir := NodeOf(documents[a], l), evidence[a].ir;
            && 0 <= n < |ir| && (exists j: I.MappingId :: I.TakesUp(k, ir, pack, n, j))
            && exists i :: 0 <= i < |rp.rules| && rp.rules[i].id == f.rule
                 && forall j: I.MappingId :: I.TakesUp(k, ir, pack, n, j) ==>
                      && pack[j].field !in rp.rules[i].required
                      && (!ir[n].statement.negated ==> I.Reports(k, ir, pack, n, j, "uncertain_structural_node"))
  {
    hide Recorded, Findings, IdentityOnly, Shows, IsReadAs, WithinCap, NodeOf, I.RestsOn, I.TakesUp, I.Reports;
    hide I.Complete;
    UnexplainedLineNeverPasses(
      k, c, profile, rp, pack, documents, limit, cap, evidence, unsupported, blocks, states, a, l, f);
    var n: I.NodeId := NodeOf(documents[a], l);
    UncertainNode(k, evidence[a].ir, pack, n);
  }

  /** Uncertain syntax is unresolved unless a fact rests on it, and every mapping that takes it up reports it. */
  lemma UncertainNode(k: I.Knowledge, ir: seq<I.Node>, pack: seq<I.Mapping>, n: I.NodeId)
    requires I.Forest(ir) && n < |ir| && ir[n].status != F.Parsed && I.IsEvidence(ir[n])
    requires forall i: I.NodeId, j: I.MappingId :: !I.RestsOn(k, ir, pack, i, j, n)
    ensures I.IsUnresolved(k, ir, pack, n)
    ensures forall j: I.MappingId :: IsDiagnosed(k, pack, ir, n, j) <==> I.TakesUp(k, ir, pack, n, j)
    ensures forall j: I.MappingId :: I.TakesUp(k, ir, pack, n, j) && !ir[n].statement.negated ==>
              I.Reports(k, ir, pack, n, j, "uncertain_structural_node")
  {
    hide I.Matches, I.Reports, I.RestsOn, I.Explained, I.Refuses;
    forall j: I.MappingId
      ensures IsDiagnosed(k, pack, ir, n, j) <==> I.TakesUp(k, ir, pack, n, j)
      ensures I.TakesUp(k, ir, pack, n, j) && !ir[n].statement.negated ==>
                I.Reports(k, ir, pack, n, j, "uncertain_structural_node")
    {
      I.UncertainIsReported(k, ir, pack, n, j);
      var code := if ir[n].statement.negated then "unsupported_negation" else "uncertain_structural_node";
      assert I.Reports(k, ir, pack, n, j, code) <==> I.TakesUp(k, ir, pack, n, j);
    }
    I.UncertainIsReported(k, ir, pack, n, 0);
  }

  lemma PartialBlockStopsAll(
    k: I.Knowledge, c: Context, profile: Profile, rp: RulePack, pack: seq<I.Mapping>, evidence: seq<Evidence>,
    unsupported: seq<nat>, blocks: seq<Block>, states: seq<State>, a: nat, n: I.NodeId, f: Finding)
    requires Interpreted(k, pack, evidence) && a < |evidence| && I.IsUnresolved(k, evidence[a].ir, pack, n)
    requires n < |evidence[a].ir| && evidence[a].ir[n].statement.kind == F.OpaqueNode
    requires evidence[a].ir[n].status == F.Partial
    requires Recorded(profile, rp.rules, pack, evidence, unsupported, blocks) && Evaluable(rp.rules)
    requires DistinctRules(rp.rules)
    requires f in Findings(c, rp, rp.rules, states, blocks)
    ensures f.verdict != Pass
  {
    hide Findings, Recorded, I.Complete, I.IsUnresolved, DiagnosedFields;
    UnresolvedIsListed(k, pack, evidence[a], n);
    assert Unexplained(profile, evidence, a, n);
    forall rule: Rule ensures Stopped(profile, pack, evidence, unsupported, rule) {
      assert Stops(profile, pack, evidence[a], n, rule);
    }
    if f.verdict == Pass {
      StoppedRuleNeverPasses(c, profile, rp, pack, evidence, unsupported, blocks, states, f);
    }
  }

  /**
   Beyond the cap the promise fails, for every configuration: the line and all that follow leave the nodes, and with
   them the report, the blocks and the findings, as they are without them.
   */
  lemma LineBeyondTheCapChangesNothing(
    lines: seq<Line>, limit: nat, cap: nat, nodes: seq<F.Node>, l: nat)
    requires l < |lines| && lines[l].kind != Blank && !WithinCap(lines, cap, l)
    ensures IsReadAs(lines, limit, cap, nodes) <==> IsReadAs(lines[..l], limit, cap, nodes)
    ensures IsReadAs(lines, limit, cap, nodes) ==> !HasNode(nodes, l)
  {
    hide IsRead, Offers, HasNode;
    forall roots: seq<nat>
      ensures IsRead(lines, limit, cap, nodes, roots) <==> IsRead(lines[..l], limit, cap, nodes, roots)
      ensures IsRead(lines, limit, cap, nodes, roots) ==> !HasNode(nodes, l)
    {
      BeyondTheCapNothingIsRead(lines, limit, cap, nodes, roots, l);
      if IsRead(lines, limit, cap, nodes, roots) {
        LineHasNodeIff(lines, limit, cap, nodes, roots, l);
      }
    }
  }
}
