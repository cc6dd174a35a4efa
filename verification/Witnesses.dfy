/**
 Two audits in which a line nobody explains keeps nothing from passing: one drops it at the node cap, the other is
 judged under a pack made for another profile.  Both read `ssh version 2`, which a mapping explains; the resolver
 makes a state of that fact, and the pass rests on it.
 */
module Witnesses {
  import opened Common
  import opened Verdicts
  import opened Scopes
  import opened UnresolvedEvidence
  import opened Compliance
  import opened FailClosed
  import opened Assessment
  import opened CliReader
  import opened LineCoverage
  import opened LineVerdicts
  import opened RuntimeProfiles
  import opened EvidenceFacts
  import opened AuditVerdicts
  import opened DraftSources
  import F = Facts
  import I = Interpretation
  import R = Resolver
  import S = StructuralForest

  // ---------------------------------------------------------------- the document

  const SSH := Line("ssh version 2", Plain, 0, false, Some("ssh"), ["version", "2"], false, None, false, false)

  const REMARK := Line("!", Remark, 0, false, None, [], false, None, false, false)

  /** A line nobody has written a mapping for. */
  const MYSTERY := Line("mystery", Plain, 0, false, Some("mystery"), [], false, None, false, false)

  function Sample(remarks: nat): seq<Line> {
    [SSH] + seq(remarks, i => REMARK) + [MYSTERY]
  }

  lemma {:induction false} SampleOffers(remarks: nat, i: nat)
    requires 1 <= i <= remarks + 1
    ensures var offers := Offers(Sample(remarks), i);
            && |offers| == remarks - i + 2
            && (forall k :: 0 <= k < remarks - i + 1 ==> offers[k].statement.kind == S.CommentNode)
            && offers[remarks - i + 1].statement == PlainOffer(MYSTERY, remarks + 1).statement
    decreases remarks + 1 - i
  {
    var lines := Sample(remarks);
    assert i <= remarks ==> lines[i] == REMARK;
    assert lines[remarks + 1] == MYSTERY;
    Round(lines, i);
    if i == remarks + 1 {
      NoRounds(lines);
    } else {
      SampleOffers(remarks, i + 1);
    }
  }

  /** What the nodes of the document are, as far as the cap lets them be read. */
  predicate SampleNodes(remarks: nat, nodes: seq<S.Node>) {
    && 1 <= |nodes| <= remarks + 2 && I.Forest(nodes)
    && nodes[0].statement == PlainOffer(SSH, 0).statement && nodes[0].status == S.Parsed
    && (forall n :: 1 <= n < |nodes| && n <= remarks ==> nodes[n].statement.kind == S.CommentNode)
    && (|nodes| == remarks + 2 ==> nodes[remarks + 1].statement == PlainOffer(MYSTERY, remarks + 1).statement)
  }

  lemma SampleIsRead(remarks: nat, limit: nat, cap: nat, nodes: seq<S.Node>)
    requires IsReadAs(Sample(remarks), limit, cap, nodes) && cap > 0
    ensures SampleNodes(remarks, nodes) && |nodes| == S.Min(cap, remarks + 2)
    ensures Rank(Offers(Sample(remarks), 0), remarks + 1) == remarks + 2
  {
    var lines := Sample(remarks);
    hide IsRead, Rank;
    var roots: seq<nat> :| IsRead(lines, limit, cap, nodes, roots);
    ReadIsForest(lines, limit, cap, nodes);
    ReadNodes(lines, limit, cap, nodes, roots);
    Round(lines, 0);
    SampleOffers(remarks, 1);
    OffersInOrder(lines, 0);
    RankIs(Offers(lines, 0), 0, |lines|, remarks + 1, remarks + 1);
  }

  // ---------------------------------------------------------------- mapping, fact and state

  const MAPPING := I.Mapping(
    "ssh.version", I.Matcher("ssh", ["version"], None, [], None, []), I.Unsupported, false, false, false)

  const DEVICE := Scope("device", "device")

  /** The mapping takes the argument after `version` for the whole device. */
  function Knows(): I.Knowledge {
    I.Knowledge(
      (word: string) => word,
      (m: I.Mapping, ir: seq<I.Node>, i: I.NodeId) => false,
      (m: I.Mapping, ir: seq<I.Node>, i: I.NodeId) =>
        if i < |ir| && |ir[i].statement.arguments| == 2 then I.Extracted(I.Value(ir[i].statement.arguments[1], false))
        else I.Nothing,
      (m: I.Mapping, ir: seq<I.Node>, i: I.NodeId) => I.InScope(DEVICE, None),
      (v: I.Value) => v,
      (field: I.FieldId, v: I.Value, scope: Scope) => true,
      (field: I.FieldId, kind: string) => true)
  }

  function Names(): Naming {
    Naming((a: nat, i: I.NodeId, j: I.MappingId) => "fact", (a: nat) => "artifact")
  }

  const SSH_RULE := Rule("ssh-version", ["ssh.version"], None)

  const GENERIC := RulePack("generic.cli@1", [SSH_RULE])

  /** `profile` is that of the audit; the rule holds of version 2. */
  function SampleSetting(profile: ProfileId): Setting {
    Setting(
      Knows(), [MAPPING], Names(), map["ssh.version" := R.Scalar],
      R.Registry((field: string, c: F.Content, kind: string) => true, (c: F.Content) => None),
      Context(true, Some(profile), map[], (rule: RuleId, v: string, p: Option<string>) => Some(v == "2")), GENERIC)
  }

  const SSH_STATE := State("ssh.version", DEVICE, Resolved, None, "2")

  function SampleReport(unresolved: seq<I.NodeId>): I.Report {
    I.Report([(0, 0)], [], {0}, {}, unresolved)
  }

  /** Only the first node is taken up, and a fact comes of it. */
  lemma OnlySshMatches(remarks: nat, nodes: seq<S.Node>)
    requires SampleNodes(remarks, nodes)
    ensures I.MakesFact(Knows(), nodes, [MAPPING], 0, 0) && !nodes[0].statement.negated
    ensures forall n: I.NodeId, j: I.MappingId :: I.TakesUp(Knows(), nodes, [MAPPING], n, j) <==> (n, j) == (0, 0)
  {
    var k := Knows();
    var words := nodes[0].statement.arguments;
    assert words == ["version", "2"] && words[..1] == ["version"];
    assert I.Lowered(k, words[..1]) == I.Lowered(k, ["version"]);
    assert I.Matches(k, nodes, MAPPING, 0);
  }

  /** The mystery line is unresolved if it was read. */
  function LeftOver(remarks: nat, nodes: seq<S.Node>): seq<I.NodeId> {
    if |nodes| == remarks + 2 then [remarks + 1] else []
  }

  lemma SampleIsInterpreted(remarks: nat, nodes: seq<S.Node>)
    requires SampleNodes(remarks, nodes)
    ensures I.Complete(Knows(), nodes, [MAPPING], SampleReport(LeftOver(remarks, nodes)))
  {
    var k, pack, r := Knows(), [MAPPING], SampleReport(LeftOver(remarks, nodes));
    OnlySshMatches(remarks, nodes);
    hide I.TakesUp;
    assert (0, 0) in r.facts;
    forall n: I.NodeId
      ensures I.Explained(k, nodes, pack, n) <==> n == 0
      ensures !I.Consumed(k, nodes, pack, n)
    {
      assert I.MakesFact(k, nodes, pack, 0, 0);
    }
    forall n: I.NodeId ensures n in r.unresolved <==> I.IsUnresolved(k, nodes, pack, n) {
      assert 1 <= n < |nodes| && n <= remarks ==> !I.IsEvidence(nodes[n]);
    }
  }

  function SshFact(): F.Fact {
    F.Fact("fact", "ssh.version", DEVICE, F.Typed("2"), F.Assign, "artifact", 1, [])
  }

  lemma SampleFacts(remarks: nat, nodes: seq<S.Node>, unresolved: seq<I.NodeId>)
    requires SampleNodes(remarks, nodes)
    ensures var evidence := [Evidence(nodes, SampleReport(unresolved))];
            && AllInReach([MAPPING], evidence)
            && AllFacts(Knows(), [MAPPING], Names(), evidence) == [SshFact()]
  {
    var e := Evidence(nodes, SampleReport(unresolved));
    assert [e][..0] == [];
    assert FactsOf(Knows(), [MAPPING], Names(), 0, e) == [SshFact()];
  }

  function SampleDrafts(): seq<F.Draft> {
    [R.ScalarDraft("ssh.version", DEVICE, [SshFact()])]
  }

  function SampleEvidence(nodes: seq<S.Node>, unresolved: seq<I.NodeId>): Evidence {
    Evidence(nodes, SampleReport(unresolved))
  }

  /** The document is interpreted completely, and the resolver makes the state of its fact. */
  lemma SampleIsAudited(remarks: nat, nodes: seq<S.Node>, profile: ProfileId)
    requires SampleNodes(remarks, nodes)
    ensures Audited(SampleSetting(profile), [SampleEvidence(nodes, LeftOver(remarks, nodes))], SampleDrafts())
  {
    SampleIsInterpreted(remarks, nodes);
    SampleFacts(remarks, nodes, LeftOver(remarks, nodes));
    SampleResolves(profile);
    hide R.Resolve, AllFacts, I.Complete, FactsInReach, Knows, SampleDrafts;
  }

  lemma SampleResolves(profile: ProfileId)
    ensures var s := SampleSetting(profile); R.Resolve(s.policy, s.registry, [SshFact()]) == Ok(SampleDrafts())
  {
    var s := SampleSetting(profile);
    hide R.ScalarDraft, R.Resolve, Knows;
    OneFactIsResolved(s.policy, s.registry, SshFact());
  }

  lemma DraftIsState()
    ensures StatesFrom(SampleDrafts()) == [SSH_STATE]
  {
    OneFactIsShown(SshFact());
    ScalarDraftShowsWinner("ssh.version", DEVICE, [SshFact()]);
    ResolvedHasNoReason("ssh.version", DEVICE, [SshFact()]);
    hide R.ScalarDraft;
  }

  lemma ResolvedHasNoReason(field: string, scope: Scope, items: seq<F.Fact>)
    requires items != []
    ensures var d := R.ScalarDraft(field, scope, items); d.status == F.Resolved ==> d.reason == None
  {
  }

  /** What the audit of the profile finds under these blocks. */
  ghost function SampleFindings(profile: ProfileId, states: seq<State>, blocks: seq<Block>): seq<Finding> {
    Findings(SampleSetting(profile).context, GENERIC, GENERIC.rules, states, blocks)
  }

  // ---------------------------------------------------------------- one statement over the cap

  function DeviceProfile(): Profile {
    Profile(GENERIC.profile, false, {"ssh.version"}, {})
  }

  /**
   One statement over the cap, whatever the cap: the line nobody explains is dropped, leaves no block, and the
   finding on the line before passes.
   */
  lemma OneOverTheCapPasses(remarks: nat, limit: nat, nodes: seq<S.Node>)
    requires IsReadAs(Sample(remarks), limit, remarks + 1, nodes)
    ensures !WithinCap(Sample(remarks), remarks + 1, remarks + 1)
    ensures var s, e := SampleSetting(GENERIC.profile), SampleEvidence(nodes, []);
            && Audited(s, [e], SampleDrafts())
            && Recorded(DeviceProfile(), GENERIC.rules, s.pack, [e], [], [])
            && Finding("ssh-version", Some(DEVICE), Pass, None)
               in SampleFindings(GENERIC.profile, StatesFrom(SampleDrafts()), [])
  {
    SampleIsRead(remarks, limit, remarks + 1, nodes);
    hide SampleFindings, Recorded, IsReadAs, Rank, Offers, Audited, SampleDrafts, StatesFrom, SampleNodes;
    SampleIsAudited(remarks, nodes, GENERIC.profile);
    NothingToRecord(DeviceProfile(), GENERIC.rules, [MAPPING], nodes);
    DraftIsState();
    SshPasses();
  }

  lemma NothingToRecord(profile: Profile, rules: seq<Rule>, pack: seq<I.Mapping>, nodes: seq<S.Node>)
    ensures Recorded(profile, rules, pack, [SampleEvidence(nodes, [])], [], [])
  {
  }

  lemma SshPasses()
    ensures Finding("ssh-version", Some(DEVICE), Pass, None) in SampleFindings(GENERIC.profile, [SSH_STATE], [])
  {
    var c := SampleSetting(GENERIC.profile).context;
    var f := Finding("ssh-version", Some(DEVICE), Pass, None);
    PassesIff(c, GENERIC, [SSH_STATE], [], f);
    assert PassesBy(c, GENERIC, GENERIC.rules[0], [SSH_STATE], [], f);
  }

  /** The same configuration, with room for one more statement: no finding passes. */
  lemma OneMoreNodeStopsAll(
    remarks: nat, limit: nat, rp: RulePack, evidence: seq<Evidence>, blocks: seq<Block>, states: seq<State>, f: Finding)
    requires var s := SampleSetting(GENERIC.profile);
             && AllRead([Sample(remarks)], limit, remarks + 2, evidence) && Interpreted(s.k, s.pack, evidence)
             && Recorded(DeviceProfile(), rp.rules, s.pack, evidence, [], blocks)
             && Evaluable(rp.rules) && DistinctRules(rp.rules) && f in Findings(s.context, rp, rp.rules, states, blocks)
    ensures f.verdict != Pass
  {
    var s := SampleSetting(GENERIC.profile);
    hide Findings, Recorded, IsReadAs, Offers, I.Complete, Rank;
    SampleIsRead(remarks, limit, remarks + 2, evidence[0].ir);
    MysteryIsUnresolved(remarks, evidence[0].ir, remarks + 1);
    UnexplainedLineNeverPasses(
      s.k, s.context, DeviceProfile(), rp, s.pack, [Sample(remarks)], limit, remarks + 2, evidence, [], blocks, states,
      0, remarks + 1, f);
  }

  lemma MysteryIsUnresolved(remarks: nat, nodes: seq<S.Node>, n: I.NodeId)
    requires SampleNodes(remarks, nodes) && |nodes| == remarks + 2 && n == remarks + 1
    ensures I.IsUnresolved(Knows(), nodes, [MAPPING], n)
    ensures forall j: I.MappingId :: !IsDiagnosed(Knows(), [MAPPING], nodes, n, j)
  {
    OnlySshMatches(remarks, nodes);
    hide I.TakesUp;
  }

  // ---------------------------------------------------------------- a runtime profile

  /** A runtime profile with its default, empty list of fields. */
  const PROFILE := Profile("acme@1", false, {}, {})

  /** The block of the second line. */
  function MysteryBlock(e: Evidence): seq<Block> {
    if 1 < |e.ir| then [BlockOf(PROFILE, [], [MAPPING], 0, e, 1)] else []
  }

  function SshObligation(): Obligation {
    Obligation(Implemented, true, SSH_RULE, true, true, (value: string) => Some(value == "2"))
  }

  /**
   An audit of that profile, with room for both lines: the second is unresolved and has its block, every finding is
   NOT_APPLICABLE, and the obligation passes on the state of the first.
   */
  lemma RuntimeProfilePassesUnexplained(limit: nat, cap: nat, nodes: seq<S.Node>)
    requires IsReadAs(Sample(0), limit, cap, nodes) && 2 <= cap
    ensures var s, e := SampleSetting(PROFILE.id), SampleEvidence(nodes, [1]);
            && Audited(s, [e], SampleDrafts()) && Unexplained(PROFILE, [e], 0, 1)
            && Recorded(PROFILE, [], s.pack, [e], [], MysteryBlock(e))
            && var findings := SampleFindings(PROFILE.id, StatesFrom(SampleDrafts()), MysteryBlock(e));
            && (forall f :: f in findings ==> f.verdict == NotApplicable)
            && VerdictOf(SshObligation(), StatesFrom(SampleDrafts()), findings) == Some(Pass)
  {
    SampleIsRead(0, limit, cap, nodes);
    SampleIsAudited(0, nodes, PROFILE.id);
    hide IsReadAs, Audited, SampleDrafts, StatesFrom, SampleNodes, Recorded, SampleFindings, VerdictOf, MysteryBlock;
    OneBlock(SampleEvidence(nodes, [1]));
    DraftIsState();
    RuntimePasses(MysteryBlock(SampleEvidence(nodes, [1])));
  }

  lemma RuntimePasses(blocks: seq<Block>)
    ensures var findings := SampleFindings(PROFILE.id, [SSH_STATE], blocks);
            && (forall f :: f in findings ==> f.verdict == NotApplicable)
            && VerdictOf(SshObligation(), [SSH_STATE], findings) == Some(Pass)
  {
    hide Findings;
    OneConcerned();
    RuntimeVerdicts(SampleSetting(PROFILE.id).context, PROFILE, GENERIC, SshObligation(), [SSH_STATE], blocks);
  }

  lemma OneBlock(e: Evidence)
    requires 2 <= |e.ir| && e.report.unresolved == [1]
    ensures Unexplained(PROFILE, [e], 0, 1) && Recorded(PROFILE, [], [MAPPING], [e], [], MysteryBlock(e))
  {
    assert 1 in e.report.unresolved;
  }

  lemma OneConcerned()
    ensures OnlyOne(SSH_RULE, [SSH_STATE], SSH_STATE)
  {
    assert [SSH_STATE][..0] == [];
  }
}
