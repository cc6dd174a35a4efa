/**
 What interpretation leaves unexplained, recorded as unresolved blocks
 (backend/app/interpretation/service.py:1080-1254).
 */
module UnresolvedEvidence {
  import opened Common
  import F = StructuralForest
  import I = Interpretation

  type FieldId = I.FieldId

  type RuleId = string

  type ProfileId = string

  datatype Rule = Rule(id: RuleId, required: seq<FieldId>, parameter: Option<string>)

  datatype RulePack = RulePack(profile: ProfileId, rules: seq<Rule>)

  /** What the manifest of a profile says that matters here. */
  datatype Profile = Profile(id: ProfileId, generic: bool, fields: set<FieldId>, identityCommands: set<string>)

  datatype Block = Block(
    place: Option<(nat, I.NodeId)>, artifact: nat, profile: ProfileId, fields: set<FieldId>, rules: set<RuleId>)

  /** One artifact with the report on it. */
  datatype Evidence = Evidence(ir: seq<I.Node>, report: I.Report)

  // ---------------------------------------------------------------- blocks

  function FieldsOf(rules: seq<Rule>): set<FieldId> {
    set r, f | r in rules && f in r.required :: f
  }

  function IdsOf(rules: seq<Rule>): set<RuleId> {
    set r | r in rules :: r.id
  }

  /** The fields a block may concern when nothing narrows it down. */
  function AllFields(profile: Profile, rules: seq<Rule>): set<FieldId> {
    if FieldsOf(rules) != {} then FieldsOf(rules) else profile.fields
  }

  /** The fields of the mappings that reported a diagnostic on the node. */
  function DiagnosedFields(pack: seq<I.Mapping>, e: Evidence, n: I.NodeId): set<FieldId> {
    set d | d in e.report.diagnostics && d.node == n && d.mapping < |pack| :: pack[d.mapping].field
  }

  predicate Needs(rule: Rule, fields: set<FieldId>) {
    exists f :: f in rule.required && f in fields
  }

  function RulesOver(rules: seq<Rule>, fields: set<FieldId>): set<RuleId> {
    set r | r in rules && Needs(r, fields) :: r.id
  }

  /** Nothing narrows the node down, or nothing is allowed to. */
  predicate Broad(profile: Profile, pack: seq<I.Mapping>, e: Evidence, n: I.NodeId)
    requires n < |e.ir|
  {
    DiagnosedFields(pack, e, n) == {} || profile.generic
        || (e.ir[n].statement.kind == F.OpaqueNode && e.ir[n].status != F.Opaque)
  }

  /** Syntax the manifest declares to name the device only. */
  predicate IdentityOnly(profile: Profile, node: I.Node) {
    var s := node.statement;
    s.kind == F.StatementNode && s.command.Some? && s.command.value in profile.identityCommands
  }

  function BlockOf(
    profile: Profile, rules: seq<Rule>, pack: seq<I.Mapping>, artifact: nat, e: Evidence, n: I.NodeId): Block
    requires n < |e.ir|
  {
    if Broad(profile, pack, e, n) then
      Block(Some((artifact, n)), artifact, profile.id, AllFields(profile, rules), IdsOf(rules))
    else
      var fields := DiagnosedFields(pack, e, n);
      Block(Some((artifact, n)), artifact, profile.id, fields, RulesOver(rules, fields))
  }

  function ArtifactBlock(profile: Profile, rules: seq<Rule>, artifact: nat): Block {
    Block(None, artifact, profile.id, AllFields(profile, rules), IdsOf(rules))
  }

  predicate InReach(e: Evidence) {
    forall v :: 0 <= v < |e.report.unresolved| ==> e.report.unresolved[v] < |e.ir|
  }

  /** An unresolved node that is not identity syntax. */
  predicate Unexplained(profile: Profile, evidence: seq<Evidence>, a: nat, n: I.NodeId) {
    && a < |evidence| && n in evidence[a].report.unresolved
    && n < |evidence[a].ir| && !IdentityOnly(profile, evidence[a].ir[n])
  }

  /** Every unexplained node and every unsupported artifact has its block, and there are no others. */
  ghost predicate Recorded(
    profile: Profile, rules: seq<Rule>, pack: seq<I.Mapping>, evidence: seq<Evidence>, unsupported: seq<nat>,
    blocks: seq<Block>)
  {
    && (forall a: nat, n: I.NodeId :: Unexplained(profile, evidence, a, n) ==>
         BlockOf(profile, rules, pack, a, evidence[a], n) in blocks)
    && (forall x :: x in unsupported ==> ArtifactBlock(profile, rules, x) in blocks)
    && forall b :: b in blocks ==>
         if b.place.Some? then Unexplained(profile, evidence, b.place.value.0, b.place.value.1)
              && b == BlockOf(profile, rules, pack, b.place.value.0, evidence[b.place.value.0], b.place.value.1)
         else b.artifact in unsupported && b == ArtifactBlock(profile, rules, b.artifact)
  }

  /** The block is that of one of the first `u` unresolved nodes. */
  ghost predicate FromReport(
    profile: Profile, rules: seq<Rule>, pack: seq<I.Mapping>, artifact: nat, e: Evidence, u: nat, b: Block)
    requires InReach(e) && u <= |e.report.unresolved|
  {
    exists v :: 0 <= v < u && !IdentityOnly(profile, e.ir[e.report.unresolved[v]])
        && b == BlockOf(profile, rules, pack, artifact, e, e.report.unresolved[v])
  }

  /** `rulePack` is the built-in rule pack of the profile, if it has one. */
  method PersistUnresolvedBlocks(
    profile: Profile, rulePack: Option<RulePack>, pack: seq<I.Mapping>, evidence: seq<Evidence>,
    unsupported: seq<nat>) returns (blocks: seq<Block>)
    requires forall a :: 0 <= a < |evidence| ==> InReach(evidence[a])
    ensures Recorded(profile, if rulePack.Some? then rulePack.value.rules else [], pack, evidence, unsupported, blocks)
  {
    var rules := if rulePack.Some? then rulePack.value.rules else [];
    blocks := [];
    for a := 0 to |evidence|
      invariant Recorded(profile, rules, pack, evidence[..a], [], blocks)
    {
      var e := evidence[a];
      var unresolved := e.report.unresolved;
      ghost var before := blocks;
      for u := 0 to |unresolved|
        invariant forall b :: b in blocks <==> b in before || FromReport(profile, rules, pack, a, e, u, b)
      {
        var n := unresolved[u];
        assert n in e.report.unresolved;
        if !IdentityOnly(profile, e.ir[n]) {
          var fields := DiagnosedFields(pack, e, n);
          var affected := RulesOver(rules, fields);
          if fields == {} {
            fields := AllFields(profile, rules);
            affected := IdsOf(rules);
          }
          if profile.generic {
            fields := AllFields(profile, rules);
            affected := IdsOf(rules);
          }
          if e.ir[n].statement.kind == F.OpaqueNode && e.ir[n].status != F.Opaque {
            fields := AllFields(profile, rules);
            affected := IdsOf(rules);
          }
          blocks := blocks + [Block(Some((a, n)), a, profile.id, fields, affected)];
          assert blocks[|blocks| - 1] == BlockOf(profile, rules, pack, a, e, n);
        }
      }
      NextArtifact(profile, rules, pack, evidence, a, before, blocks);
    }
    assert evidence[..|evidence|] == evidence;
    for u := 0 to |unsupported|
      invariant Recorded(profile, rules, pack, evidence, unsupported[..u], blocks)
    {
      var x := unsupported[u];
      assert unsupported[..u + 1] == unsupported[..u] + [x];
      blocks := blocks + [Block(None, x, profile.id, AllFields(profile, rules), IdsOf(rules))];
    }
    assert unsupported[..|unsupported|] == unsupported;
  }

  lemma NextArtifact(
    profile: Profile, rules: seq<Rule>, pack: seq<I.Mapping>, evidence: seq<Evidence>, a: nat, before: seq<Block>,
    blocks: seq<Block>)
    requires a < |evidence| && forall x :: 0 <= x < |evidence| ==> InReach(evidence[x])
    requires Recorded(profile, rules, pack, evidence[..a], [], before)
    requires forall b :: b in blocks <==>
        b in before || FromReport(profile, rules, pack, a, evidence[a], |evidence[a].report.unresolved|, b)
    ensures Recorded(profile, rules, pack, evidence[..a + 1], [], blocks)
  {
    hide BlockOf, IdentityOnly;
    var shown := evidence[..a + 1];
    assert forall x :: 0 <= x < a ==> evidence[..a][x] == shown[x];
    var unresolved := evidence[a].report.unresolved;
    forall x: nat, n: I.NodeId | Unexplained(profile, shown, x, n)
      ensures BlockOf(profile, rules, pack, x, shown[x], n) in blocks
    {
      if x < a {
        assert Unexplained(profile, evidence[..a], x, n);
      } else {
        var v :| 0 <= v < |unresolved| && unresolved[v] == n;
      }
    }
    forall b | b in blocks
      ensures b.place.Some? && Unexplained(profile, shown, b.place.value.0, b.place.value.1)
      ensures b == BlockOf(profile, rules, pack, b.place.value.0, shown[b.place.value.0], b.place.value.1)
    {
      if b in before {
        assert Unexplained(profile, evidence[..a], b.place.value.0, b.place.value.1);
      } else {
        var v :| 0 <= v < |unresolved| && !IdentityOnly(profile, evidence[a].ir[unresolved[v]])
            && b == BlockOf(profile, rules, pack, a, evidence[a], unresolved[v]);
        PlaceOfBlock(profile, rules, pack, a, evidence[a], unresolved[v]);
        assert unresolved[v] in unresolved;
      }
    }
  }

  lemma PlaceOfBlock(profile: Profile, rules: seq<Rule>, pack: seq<I.Mapping>, artifact: nat, e: Evidence, n: I.NodeId)
    requires n < |e.ir|
    ensures BlockOf(profile, rules, pack, artifact, e, n).place == Some((artifact, n))
  {
  }
}
