/**
 Unexplained configuration and the verdicts: interpretation, unresolved blocks and compliance put together
 (backend/app/interpretation/service.py:338-435, 1109-1166, backend/app/compliance/service.py:115-172).
 */
module FailClosed {
  import opened Common
  import opened Verdicts
  import opened UnresolvedEvidence
  import opened Compliance
  import F = StructuralForest
  import I = Interpretation

  /** Every artifact was interpreted by the pack, completely. */
  ghost predicate Interpreted(k: I.Knowledge, pack: seq<I.Mapping>, evidence: seq<Evidence>) {
    forall a :: 0 <= a < |evidence| ==>
        I.Forest(evidence[a].ir) && I.Complete(k, evidence[a].ir, pack, evidence[a].report)
  }

  lemma InterpretedIsInReach(k: I.Knowledge, pack: seq<I.Mapping>, evidence: seq<Evidence>)
    requires Interpreted(k, pack, evidence)
    ensures forall a :: 0 <= a < |evidence| ==> InReach(evidence[a])
  {
    hide I.MakesFact, I.Reports;
    forall a | 0 <= a < |evidence| ensures InReach(evidence[a]) {
      var unresolved := evidence[a].report.unresolved;
      forall v | 0 <= v < |unresolved| ensures unresolved[v] < |evidence[a].ir| {
        assert unresolved[v] in unresolved;
      }
    }
  }

  /** The mapping took the node up and could not use it. */
  ghost predicate IsDiagnosed(k: I.Knowledge, pack: seq<I.Mapping>, ir: seq<I.Node>, n: I.NodeId, j: I.MappingId)
    requires I.Forest(ir)
  {
    j < |pack| && exists code :: I.Reports(k, ir, pack, n, j, code)
  }

  /** The fields a block is narrowed to are those of the mappings that took the node up and could not use it. */
  lemma DiagnosedFieldsAre(k: I.Knowledge, pack: seq<I.Mapping>, e: Evidence, n: I.NodeId, f: FieldId)
    requires I.Forest(e.ir) && I.Complete(k, e.ir, pack, e.report)
    ensures f in DiagnosedFields(pack, e, n) <==>
        exists j: I.MappingId :: IsDiagnosed(k, pack, e.ir, n, j) && pack[j].field == f
  {
    hide I.Explained, I.Consumed, I.IsUnresolved, I.MakesFact, I.Causes, I.Matches;
    if f in DiagnosedFields(pack, e, n) {
      var d :| d in e.report.diagnostics && d.node == n && d.mapping < |pack| && pack[d.mapping].field == f;
      assert IsDiagnosed(k, pack, e.ir, n, d.mapping);
    }
    if j: I.MappingId :| IsDiagnosed(k, pack, e.ir, n, j) && pack[j].field == f {
      var code :| I.Reports(k, e.ir, pack, n, j, code);
      var d := I.Diagnostic(code, n, j);
      assert d in e.report.diagnostics;
    }
  }

  // ---------------------------------------------------------------- which rules unexplained configuration stops

  /**
   The node stops the rule: nothing narrows it down, or a mapping that could not use it is about a field of the rule.
   */
  predicate Stops(profile: Profile, pack: seq<I.Mapping>, e: Evidence, n: I.NodeId, rule: Rule)
    requires n < |e.ir|
  {
    Broad(profile, pack, e, n) || Needs(rule, DiagnosedFields(pack, e, n))
  }

  ghost predicate Stopped(
    profile: Profile, pack: seq<I.Mapping>, evidence: seq<Evidence>, unsupported: seq<nat>, rule: Rule) {
    || unsupported != []
    || exists a: nat, n: I.NodeId :: Unexplained(profile, evidence, a, n) && Stops(profile, pack, evidence[a], n, rule)
  }

  lemma NodeBlockNames(profile: Profile, rp: RulePack, pack: seq<I.Mapping>, a: nat, e: Evidence, n: I.NodeId, i: nat)
    requires n < |e.ir| && i < |rp.rules| && DistinctRules(rp.rules)
    ensures rp.rules[i].id in NamedBy(rp, BlockOf(profile, rp.rules, pack, a, e, n)) <==>
        Stops(profile, pack, e, n, rp.rules[i])
  {
    hide DiagnosedFields, Needs, AllFields;
    var rule := rp.rules[i];
    assert rule in rp.rules && rule.id in IdsOf(rp.rules);
    var fields := DiagnosedFields(pack, e, n);
    if rule.id in RulesOver(rp.rules, fields) {
      var r :| r in rp.rules && Needs(r, fields) && r.id == rule.id;
      var j :| 0 <= j < |rp.rules| && rp.rules[j] == r;
      assert j == i;
    }
  }

  /**
   What the block of a node names.  Where nothing narrows it down, every rule, and every field a rule requires, or those
   of the profile when no rule requires any; otherwise the fields of the mappings that reported the node and the rules
   over these.
   */
  lemma BlockSays(
    profile: Profile, rules: seq<Rule>, pack: seq<I.Mapping>, evidence: seq<Evidence>, unsupported: seq<nat>,
    blocks: seq<Block>, a: nat, n: I.NodeId, b: Block, field: FieldId, id: RuleId)
    requires Recorded(profile, rules, pack, evidence, unsupported, blocks) && b in blocks && b.place == Some((a, n))
    ensures a < |evidence| && n < |evidence[a].ir| && b.artifact == a && b.profile == profile.id
    ensures var e := evidence[a];
            var reported := exists d :: d in e.report.diagnostics && d.node == n && d.mapping < |pack|;
            if !reported || profile.generic
               || (e.ir[n].statement.kind == F.OpaqueNode && e.ir[n].status != F.Opaque)
            then
              && (id in b.rules <==> exists r :: r in rules && r.id == id)
              && (field in b.fields <==>
                    if exists r, f :: r in rules && f in r.required then exists r :: r in rules && field in r.required
                    else field in profile.fields)
            else
              && (field in b.fields <==>
                    exists d :: d in e.report.diagnostics && d.node == n && d.mapping < |pack|
                      && pack[d.mapping].field == field)
              && (id in b.rules <==>
                    exists r, f :: r in rules && r.id == id && f in r.required && f in b.fields)
  {
    hide IdentityOnly;
    assert b == BlockOf(profile, rules, pack, a, evidence[a], n);
    var fields := DiagnosedFields(pack, evidence[a], n);
    if d :| d in evidence[a].report.diagnostics && d.node == n && d.mapping < |pack| {
      assert pack[d.mapping].field in fields;
    }
    if r, f :| r in rules && f in r.required {
      assert f in FieldsOf(rules);
    }
    if f :| f in FieldsOf(rules) {
      var r :| r in rules && f in r.required;
    }
    if r, f :| r in rules && r.id == id && f in r.required && f in fields {
      assert Needs(r, fields);
    }
  }

  /** For a profile with a rule pack of its own, a rule is blocked exactly when something unexplained stops it. */
  lemma BlockedIff(
    profile: Profile, rp: RulePack, pack: seq<I.Mapping>, evidence: seq<Evidence>, unsupported: seq<nat>,
    blocks: seq<Block>, i: nat)
    requires Recorded(profile, rp.rules, pack, evidence, unsupported, blocks) && DistinctRules(rp.rules)
    requires i < |rp.rules|
    ensures Blocked(rp, blocks, rp.rules[i].id) <==> Stopped(profile, pack, evidence, unsupported, rp.rules[i])
  {
    hide BlockOf, Stops, NamedBy, AllFields;
    var rule := rp.rules[i];
    if unsupported != [] {
      assert unsupported[0] in unsupported;
      ArtifactBlockNames(profile, rp, unsupported[0], i);
      assert Blocked(rp, blocks, rule.id);
    }
    if a: nat, n: I.NodeId :| Unexplained(profile, evidence, a, n) && Stops(profile, pack, evidence[a], n, rule) {
      NodeBlockNames(profile, rp, pack, a, evidence[a], n, i);
      assert Blocked(rp, blocks, rule.id);
    }
    if Blocked(rp, blocks, rule.id) {
      var b :| b in blocks && rule.id in NamedBy(rp, b);
      if b.place.Some? {
        var (a, n) := b.place.value;
        NodeBlockNames(profile, rp, pack, a, evidence[a], n, i);
        assert Unexplained(profile, evidence, a, n) && Stops(profile, pack, evidence[a], n, rule);
      }
    }
  }

  lemma ArtifactBlockNames(profile: Profile, rp: RulePack, artifact: nat, i: nat)
    requires i < |rp.rules|
    ensures rp.rules[i].id in NamedBy(rp, ArtifactBlock(profile, rp.rules, artifact))
  {
    assert rp.rules[i] in rp.rules;
  }

  /**
   The exact rule of a pass: where rule and state alone would pass, the audit passes exactly when every artifact
   was supported and every unexplained node that is not identity syntax was narrowed down to fields the rule does
   not need.
   */
  lemma PassesIffNothingStopsIt(
    c: Context, profile: Profile, rp: RulePack, pack: seq<I.Mapping>, evidence: seq<Evidence>, unsupported: seq<nat>,
    blocks: seq<Block>, states: seq<State>, i: nat, s: State)
    requires Recorded(profile, rp.rules, pack, evidence, unsupported, blocks)
    requires Evaluable(rp.rules) && DistinctRules(rp.rules) && i < |rp.rules|
    requires ApplicabilityOf(c, rp) == Applicable && s in states && Holds(c, rp.rules[i], s)
    ensures Finding(rp.rules[i].id, Some(s.scope), Pass, None) in Findings(c, rp, rp.rules, states, blocks)
       <==> !Stopped(profile, pack, evidence, unsupported, rp.rules[i])
  {
    var f := Finding(rp.rules[i].id, Some(s.scope), Pass, None);
    BlockedIff(profile, rp, pack, evidence, unsupported, blocks, i);
    PassesIff(c, rp, states, blocks, f);
    hide Findings, Stopped, Blocked, Recorded, Holds;
    if !Stopped(profile, pack, evidence, unsupported, rp.rules[i]) {
      assert PassesBy(c, rp, rp.rules[i], states, blocks, f);
    }
    if f in Findings(c, rp, rp.rules, states, blocks) {
      var j :| 0 <= j < |rp.rules| && PassesBy(c, rp, rp.rules[j], states, blocks, f);
      assert rp.rules[j].id == rp.rules[i].id;
      assert j == i;
    }
  }

  lemma StoppedRuleNeverPasses(
    c: Context, profile: Profile, rp: RulePack, pack: seq<I.Mapping>, evidence: seq<Evidence>, unsupported: seq<nat>,
    blocks: seq<Block>, states: seq<State>, f: Finding)
    requires Recorded(profile, rp.rules, pack, evidence, unsupported, blocks) && Evaluable(rp.rules)
    requires DistinctRules(rp.rules)
    requires f in Findings(c, rp, rp.rules, states, blocks) && f.verdict == Pass
    ensures exists i ::
              && 0 <= i < |rp.rules| && rp.rules[i].id == f.rule
              && !Stopped(profile, pack, evidence, unsupported, rp.rules[i])
  {
    hide Findings, Stopped, Blocked, Recorded, Holds;
    PassesIff(c, rp, states, blocks, f);
    var i :| 0 <= i < |rp.rules| && PassesBy(c, rp, rp.rules[i], states, blocks, f);
    BlockedIff(profile, rp, pack, evidence, unsupported, blocks, i);
  }

  /** A rule of that name is about no field of a mapping that took the node up and could not use it. */
  ghost predicate NeedsNothingOf(
    k: I.Knowledge, pack: seq<I.Mapping>, rp: RulePack, ir: seq<I.Node>, n: I.NodeId, rule: RuleId)
    requires I.Forest(ir)
  {
    exists i :: 0 <= i < |rp.rules| && rp.rules[i].id == rule
      && forall j: I.MappingId :: IsDiagnosed(k, pack, ir, n, j) ==>
           j < |pack| && pack[j].field !in rp.rules[i].required
  }

  /**
   Unexplained configuration never passes.  Take a statement or opaque line that no mapping makes a fact of, that
   no fact rests on and that is not identity syntax.  If no mapping took it up at all, no finding of the audit
   passes; and no rule passes over a field of a mapping that took it up and could not use it.
   */
  lemma UnexplainedConfigurationNeverPasses(
    k: I.Knowledge, c: Context, profile: Profile, rp: RulePack, pack: seq<I.Mapping>, evidence: seq<Evidence>,
    unsupported: seq<nat>,
    blocks: seq<Block>, states: seq<State>, a: nat, n: I.NodeId, f: Finding)
    requires Interpreted(k, pack, evidence) && a < |evidence|
    requires I.IsUnresolved(k, evidence[a].ir, pack, n) && !IdentityOnly(profile, evidence[a].ir[n])
    requires Recorded(profile, rp.rules, pack, evidence, unsupported, blocks) && Evaluable(rp.rules)
    requires DistinctRules(rp.rules)
    requires f in Findings(c, rp, rp.rules, states, blocks) && f.verdict == Pass
    ensures exists j: I.MappingId :: IsDiagnosed(k, pack, evidence[a].ir, n, j)
    ensures NeedsNothingOf(k, pack, rp, evidence[a].ir, n, f.rule)
  {
    hide Findings, Recorded, I.Complete, I.IsUnresolved, IsDiagnosed, IdentityOnly;
    var e := evidence[a];
    assert n in e.report.unresolved && n < |e.ir| by {
      UnresolvedIsListed(k, pack, e, n);
    }
    assert Unexplained(profile, evidence, a, n);
    StoppedRuleNeverPasses(c, profile, rp, pack, evidence, unsupported, blocks, states, f);
    var i :| 0 <= i < |rp.rules| && rp.rules[i].id == f.rule
        && !Stopped(profile, pack, evidence, unsupported, rp.rules[i]);
    assert !Stops(profile, pack, e, n, rp.rules[i]);
    hide DiagnosedFields;
    var field :| field in DiagnosedFields(pack, e, n);
    DiagnosedFieldsAre(k, pack, e, n, field);
    forall j: I.MappingId | IsDiagnosed(k, pack, e.ir, n, j)
      ensures j < |pack| && pack[j].field !in rp.rules[i].required
    {
      DiagnosedInPack(k, pack, e.ir, n, j);
      DiagnosedFieldsAre(k, pack, e, n, pack[j].field);
    }
  }

  lemma DiagnosedInPack(k: I.Knowledge, pack: seq<I.Mapping>, ir: seq<I.Node>, n: I.NodeId, j: I.MappingId)
    requires I.Forest(ir)
    ensures IsDiagnosed(k, pack, ir, n, j) ==> j < |pack|
    ensures forall code :: I.Reports(k, ir, pack, n, j, code) ==> j < |pack|
  {
  }

  lemma UnresolvedIsListed(k: I.Knowledge, pack: seq<I.Mapping>, e: Evidence, n: I.NodeId)
    requires I.Forest(e.ir) && I.Complete(k, e.ir, pack, e.report) && I.IsUnresolved(k, e.ir, pack, n)
    ensures n in e.report.unresolved && n < |e.ir|
  {
    hide I.MakesFact, I.Reports, I.Explained, I.Consumed;
  }

  /** Neither explained nor a scope of a fact, and no command that only names the device. */
  ghost predicate LeftOver(k: I.Knowledge, profile: Profile, pack: seq<I.Mapping>, ir: seq<I.Node>, n: I.NodeId)
    requires I.Forest(ir)
  {
    && n < |ir| && ir[n].statement.kind != F.CommentNode
    && (forall j: I.MappingId :: !I.MakesFact(k, ir, pack, n, j))
    && (forall i: I.NodeId, j: I.MappingId :: !I.RestsOn(k, ir, pack, i, j, n))
    && (ir[n].statement.kind == F.StatementNode && ir[n].statement.command.Some? ==>
          ir[n].statement.command.value !in profile.identityCommands)
  }

  /**
   A node left over concerns the rule: its profile knows no mappings, it is a block of uncertain end, no mapping
   reported it, or one about a field of the rule did.
   */
  ghost predicate ConcernsRule(
    k: I.Knowledge, profile: Profile, pack: seq<I.Mapping>, ir: seq<I.Node>, n: I.NodeId, rule: Rule)
    requires I.Forest(ir) && n < |ir|
  {
    || profile.generic || (ir[n].statement.kind == F.OpaqueNode && ir[n].status != F.Opaque)
    || (forall j: I.MappingId, code :: !I.Reports(k, ir, pack, n, j, code))
    || exists j: I.MappingId, code :: I.Reports(k, ir, pack, n, j, code) && pack[j].field in rule.required
  }

  /** Exactly this blocks a rule, said of nodes and mappings alone. */
  lemma BlockedByNodesIff(
    k: I.Knowledge, profile: Profile, rp: RulePack, pack: seq<I.Mapping>, evidence: seq<Evidence>,
    unsupported: seq<nat>, blocks: seq<Block>, i: nat)
    requires Interpreted(k, pack, evidence) && i < |rp.rules| && DistinctRules(rp.rules)
    requires Recorded(profile, rp.rules, pack, evidence, unsupported, blocks)
    ensures Blocked(rp, blocks, rp.rules[i].id) <==>
              || unsupported != []
              || exists a: nat, n: I.NodeId ::
                   && a < |evidence| && LeftOver(k, profile, pack, evidence[a].ir, n)
                   && ConcernsRule(k, profile, pack, evidence[a].ir, n, rp.rules[i])
  {
    hide Blocked, Recorded, Stops, LeftOver, ConcernsRule, I.Complete, Unexplained;
    BlockedIff(profile, rp, pack, evidence, unsupported, blocks, i);
    forall a: nat, n: I.NodeId
      ensures a < |evidence| ==>
                (Unexplained(profile, evidence, a, n) <==> LeftOver(k, profile, pack, evidence[a].ir, n))
      ensures Unexplained(profile, evidence, a, n) ==> a < |evidence| && n < |evidence[a].ir|
      ensures Unexplained(profile, evidence, a, n) ==>
                (Stops(profile, pack, evidence[a], n, rp.rules[i])
                 <==> ConcernsRule(k, profile, pack, evidence[a].ir, n, rp.rules[i]))
    {
      if a < |evidence| {
        UnexplainedIsLeftOver(k, profile, pack, evidence, a, n);
      }
      UnexplainedInReach(profile, evidence, a, n);
      if Unexplained(profile, evidence, a, n) {
        StopsIsConcern(k, profile, pack, evidence[a], n, rp.rules[i]);
      }
    }
  }

  lemma UnexplainedInReach(profile: Profile, evidence: seq<Evidence>, a: nat, n: I.NodeId)
    ensures Unexplained(profile, evidence, a, n) ==> a < |evidence| && n < |evidence[a].ir|
  {
  }

  lemma UnexplainedIsLeftOver(
    k: I.Knowledge, profile: Profile, pack: seq<I.Mapping>, evidence: seq<Evidence>, a: nat, n: I.NodeId)
    requires a < |evidence| && I.Forest(evidence[a].ir)
    requires I.Complete(k, evidence[a].ir, pack, evidence[a].report)
    ensures Unexplained(profile, evidence, a, n) <==> LeftOver(k, profile, pack, evidence[a].ir, n)
  {
    hide I.MakesFact, I.Reports, I.RestsOn;
  }

  lemma StopsIsConcern(
    k: I.Knowledge, profile: Profile, pack: seq<I.Mapping>, e: Evidence, n: I.NodeId, rule: Rule)
    requires I.Forest(e.ir) && I.Complete(k, e.ir, pack, e.report) && n < |e.ir|
    ensures Stops(profile, pack, e, n, rule) <==> ConcernsRule(k, profile, pack, e.ir, n, rule)
  {
    hide I.Complete, I.Reports, DiagnosedFields;
    forall f: FieldId
      ensures f in DiagnosedFields(pack, e, n) <==>
                exists j: I.MappingId :: IsDiagnosed(k, pack, e.ir, n, j) && pack[j].field == f
    {
      DiagnosedFieldsAre(k, pack, e, n, f);
    }
    forall j: I.MappingId, code ensures I.Reports(k, e.ir, pack, n, j, code) ==> j < |pack| {
      DiagnosedInPack(k, pack, e.ir, n, j);
    }
    if f :| f in DiagnosedFields(pack, e, n) {
      var j: I.MappingId :| IsDiagnosed(k, pack, e.ir, n, j) && pack[j].field == f;
      var code :| I.Reports(k, e.ir, pack, n, j, code);
    }
    if j: I.MappingId, code :| I.Reports(k, e.ir, pack, n, j, code) {
      assert IsDiagnosed(k, pack, e.ir, n, j) && pack[j].field in DiagnosedFields(pack, e, n);
    }
    if Needs(rule, DiagnosedFields(pack, e, n)) {
      var f :| f in rule.required && f in DiagnosedFields(pack, e, n);
      var j: I.MappingId :| IsDiagnosed(k, pack, e.ir, n, j) && pack[j].field == f;
      var code :| I.Reports(k, e.ir, pack, n, j, code);
    }
    if j: I.MappingId, code :| I.Reports(k, e.ir, pack, n, j, code) && pack[j].field in rule.required {
      assert IsDiagnosed(k, pack, e.ir, n, j) && pack[j].field in DiagnosedFields(pack, e, n);
    }
  }

  /**
   A profile without a built-in rule pack, as every runtime profile.  Its blocks name no rule; one still blocks a
   rule exactly when the pack in use is made for this very profile, the profile declares no fields and a node is
   unexplained with nothing to narrow it down.
   */
  lemma WithoutARulePackBlockedIff(
    profile: Profile, rp: RulePack, pack: seq<I.Mapping>, evidence: seq<Evidence>, unsupported: seq<nat>,
    blocks: seq<Block>, rule: RuleId)
    requires Recorded(profile, [], pack, evidence, unsupported, blocks)
    ensures Blocked(rp, blocks, rule) <==>
              && rule in IdsOf(rp.rules) && rp.profile == profile.id && profile.fields == {}
              && exists a: nat, n: I.NodeId ::
                   Unexplained(profile, evidence, a, n) && Broad(profile, pack, evidence[a], n)
  {
    hide IdentityOnly, Broad, DiagnosedFields;
    assert FieldsOf([]) == {} && IdsOf([]) == {};
    if Blocked(rp, blocks, rule) {
      var b :| b in blocks && rule in NamedBy(rp, b);
      NamedWithoutRules(profile, rp, pack, evidence, unsupported, blocks, b);
      var (a, n) := b.place.value;
      assert Unexplained(profile, evidence, a, n) && Broad(profile, pack, evidence[a], n);
    }
    if rule in IdsOf(rp.rules) && rp.profile == profile.id && profile.fields == {} {
      if a: nat, n: I.NodeId :| Unexplained(profile, evidence, a, n) && Broad(profile, pack, evidence[a], n) {
        assert rule in NamedBy(rp, BlockOf(profile, [], pack, a, evidence[a], n));
      }
    }
  }

  lemma NamedWithoutRules(
    profile: Profile, rp: RulePack, pack: seq<I.Mapping>, evidence: seq<Evidence>, unsupported: seq<nat>,
    blocks: seq<Block>, b: Block)
    requires Recorded(profile, [], pack, evidence, unsupported, blocks) && b in blocks && NamedBy(rp, b) != {}
    ensures b.place.Some? && NamedBy(rp, b) == IdsOf(rp.rules) && rp.profile == profile.id && profile.fields == {}
    ensures var (a, n) := b.place.value; Unexplained(profile, evidence, a, n) && Broad(profile, pack, evidence[a], n)
  {
    hide IdentityOnly;
    assert FieldsOf([]) == {} && IdsOf([]) == {} && RulesOver([], b.fields) == {};
  }

  /**
   One mapping that explains a statement is enough to keep it out of the blocks, whatever the other mappings that
   took it up reported: their diagnostics stop no rule.
   */
  lemma PartlyExplainedLeavesNoBlock(
    k: I.Knowledge, profile: Profile, rules: seq<Rule>, pack: seq<I.Mapping>, evidence: seq<Evidence>,
    unsupported: seq<nat>,
    blocks: seq<Block>, a: nat, n: I.NodeId, b: Block)
    requires Interpreted(k, pack, evidence) && a < |evidence|
    requires Recorded(profile, rules, pack, evidence, unsupported, blocks) && b in blocks
    requires I.Explained(k, evidence[a].ir, pack, n)
    ensures b.place != Some((a, n))
  {
    hide I.Explained, I.MakesFact, I.Reports, BlockOf;
    assert I.Complete(k, evidence[a].ir, pack, evidence[a].report);
    assert n !in evidence[a].report.unresolved by {
      assert !I.IsUnresolved(k, evidence[a].ir, pack, n);
    }
  }
}
