/**
 A whole audit, from lines to findings (backend/app/audit/pipeline.py:98-170): reading and interpretation, the
 facts, their resolution into states, and compliance; and what a passing finding rests on.
 */
module AuditVerdicts {
  import opened Common
  import opened Verdicts
  import opened UnresolvedEvidence
  import opened Compliance
  import opened FailClosed
  import opened Assessment
  import opened CliReader
  import opened LineCoverage
  import opened LineVerdicts
  import opened EvidenceFacts
  import opened DraftSources
  import DS = DraftSources
  import F = Facts
  import I = Interpretation
  import SF = StructuralForest
  import R = Resolver

  // ---------------------------------------------------------------- states from drafts

  function ContentText(c: F.Content): string {
    match c case Null => "null" case Typed(json) => json
  }

  function Listed(cs: seq<F.Content>): string {
    if cs == [] then "" else ContentText(cs[0]) + (if |cs| == 1 then "" else "," + Listed(cs[1..]))
  }

  /** The text of an effective value. */
  function Rendered(v: F.Effective): string {
    match v case Single(c) => ContentText(c) case Members(cs) => "[" + Listed(cs) + "]"
  }

  function ReasonOf(r: F.Reason): Reason {
    match r
    case MissingEvidence => MissingEvidence
    case UnresolvedDefault => Other("unresolved_default")
    case UnknownSemantics => Other("unknown_semantics")
    case ConflictingEvidence => ConflictingEvidence
  }

  /** The row a draft is stored as, and compliance reads. */
  function StateOf(d: F.Draft): State {
    var status := match d.status case Resolved => Resolved case Unknown => Undetermined case Conflicting => Conflicting;
    var reason := if d.reason.Some? then Some(ReasonOf(d.reason.value)) else None;
    State(d.field, d.scope, status, reason, if d.value.Some? then Rendered(d.value.value) else "")
  }

  function StatesFrom(ds: seq<F.Draft>): seq<State> {
    seq(|ds|, i requires 0 <= i < |ds| => StateOf(ds[i]))
  }

  // ---------------------------------------------------------------- what a pass rests on

  /** The settings of an audit. */
  datatype Setting = Setting(
    k: I.Knowledge, pack: seq<I.Mapping>, names: Naming, policy: R.Policy, registry: R.Registry, context: Context,
    rulePack: RulePack)

  /**
   The state rests on this certain node: a mapping about its field makes a fact of it, in whose scope the state lies;
   on a scalar field the fact assigns the very value.
   */
  ghost predicate Backs(s: Setting, evidence: seq<Evidence>, state: State, a: nat, n: I.NodeId, j: I.MappingId) {
    && a < |evidence| && I.Forest(evidence[a].ir) && I.MakesFact(s.k, evidence[a].ir, s.pack, n, j)
    && evidence[a].ir[n].status == SF.Parsed && s.pack[j].field == state.field
    && var fact := FactOf(s.k, s.pack, s.names, a, evidence[a].ir, n, j);
    && ScopeWithin(state.scope, fact.scope)
    && (state.field in s.policy && s.policy[state.field] == R.Scalar ==>
          fact.operation == F.Assign && state.value == ContentText(fact.content))
  }

  ghost predicate Backed(s: Setting, evidence: seq<Evidence>, state: State) {
    exists a: nat, n: I.NodeId, j: I.MappingId :: Backs(s, evidence, state, a, n, j)
  }

  ghost predicate Resolves(s: Setting, evidence: seq<Evidence>, drafts: seq<F.Draft>)
    requires AllInReach(s.pack, evidence)
  {
    R.Resolve(s.policy, s.registry, AllFacts(s.k, s.pack, s.names, evidence)) == Ok(drafts)
  }

  /** The evidence was interpreted completely, and its facts resolve to the drafts. */
  ghost predicate Audited(s: Setting, evidence: seq<Evidence>, drafts: seq<F.Draft>) {
    Interpreted(s.k, s.pack, evidence) && AllInReach(s.pack, evidence) && Resolves(s, evidence, drafts)
  }

  /** A resolved state is that of a draft. */
  lemma StateHasDraft(ds: seq<F.Draft>, state: State) returns (i: nat)
    requires state in StatesFrom(ds)
    ensures i < |ds| && state == StateOf(ds[i])
  {
    i :| 0 <= i < |StatesFrom(ds)| && StatesFrom(ds)[i] == state;
  }

  lemma DraftHasNode(s: Setting, evidence: seq<Evidence>, drafts: seq<F.Draft>, i: nat) returns (f: F.Fact)
    requires Audited(s, evidence, drafts)
    requires i < |drafts| && drafts[i].status == F.Resolved
    ensures drafts[i].field in s.policy && DS.Rests(s.policy[drafts[i].field], drafts[i], f)
    ensures exists a: nat, n: I.NodeId, j: I.MappingId :: Produced(s.k, s.pack, s.names, evidence, f, a, n, j)
  {
    hide R.Resolve, DS.Rests, Produced, Interpreted;
    var facts := AllFacts(s.k, s.pack, s.names, evidence);
    ResolvedDraftsRestOnFacts(s.policy, s.registry, facts);
    assert Sourced(s.policy[drafts[i].field], drafts[i], facts);
    var x :| 0 <= x < |facts| && DS.Rests(s.policy[drafts[i].field], drafts[i], facts[x]);
    f := facts[x];
    FactsAreProduced(s.k, s.pack, s.names, evidence, f);
  }

  /** Every resolved state rests on a node of the evidence that a mapping about its field explains. */
  lemma ResolvedStatesAreBacked(s: Setting, evidence: seq<Evidence>, drafts: seq<F.Draft>, state: State)
    requires Audited(s, evidence, drafts)
    requires state in StatesFrom(drafts) && state.status == Resolved
    ensures Backed(s, evidence, state)
  {
    hide Resolves, Interpreted, StatesFrom, DS.Rests, Produced, Backs;
    var x := StateHasDraft(drafts, state);
    var fact := DraftHasNode(s, evidence, drafts, x);
    var a: nat, n: I.NodeId, j: I.MappingId :| Produced(s.k, s.pack, s.names, evidence, fact, a, n, j);
    ProducedBacks(s, evidence, drafts[x], fact, a, n, j);
  }

  lemma ProducedBacks(
    s: Setting, evidence: seq<Evidence>, d: F.Draft, fact: F.Fact, a: nat, n: I.NodeId, j: I.MappingId)
    requires d.field in s.policy && DS.Rests(s.policy[d.field], d, fact)
    requires Produced(s.k, s.pack, s.names, evidence, fact, a, n, j)
    ensures Backs(s, evidence, StateOf(d), a, n, j)
  {
    hide I.Matches, ScopeWithin;
  }

  /**
   The node a state rests on is a line of its document, read in full and without mixed indentation, at the margin or
   below another statement.
   */
  lemma BackedByALine(
    s: Setting, documents: seq<seq<Line>>, limit: nat, cap: nat, evidence: seq<Evidence>, state: State, a: nat,
    n: I.NodeId, j: I.MappingId)
    requires AllRead(documents, limit, cap, evidence) && Backs(s, evidence, state, a, n, j)
    ensures a < |documents| && n < |evidence[a].ir|
    ensures var l := evidence[a].ir[n].statement.sourceStart - 1;
            && 0 <= l < |documents[a]| && Certain(documents[a][l])
            && (evidence[a].ir[n].statement.indent == 0 || exists i: nat :: StandsBelow(evidence[a].ir, i, n))
  {
    hide IsRead, Certain, StandsBelow, I.Matches;
    var nodes := evidence[a].ir;
    var roots: seq<nat> :| IsRead(documents[a], limit, cap, nodes, roots);
    CertainNodeStands(documents[a], limit, cap, nodes, roots, n);
  }

  /** The finding passes by the rule on a state that rests on the evidence. */
  ghost predicate PassesOn(s: Setting, evidence: seq<Evidence>, f: Finding, rule: Rule, state: State) {
    && rule in s.rulePack.rules && rule.id == f.rule && f.scope == Some(state.scope)
    && Holds(s.context, rule, state) && Backed(s, evidence, state)
  }

  ghost predicate Rests(s: Setting, evidence: seq<Evidence>, f: Finding) {
    exists rule: Rule, state: State :: PassesOn(s, evidence, f, rule, state)
  }

  /**
   Every pass rests on the evidence: on a node that a mapping about the rule's field makes a fact of, whose value, on
   a scalar field, is the one that meets the rule.  Without such a node no finding of the rule passes.
   */
  lemma PassRestsOnANode(
    s: Setting, evidence: seq<Evidence>, drafts: seq<F.Draft>, blocks: seq<Block>, f: Finding)
    requires Audited(s, evidence, drafts)
    requires Evaluable(s.rulePack.rules)
    requires f in Findings(s.context, s.rulePack, s.rulePack.rules, StatesFrom(drafts), blocks) && f.verdict == Pass
    ensures Rests(s, evidence, f)
  {
    hide Findings, Resolves, Interpreted, StatesFrom, Blocked, Backed;
    var states := StatesFrom(drafts);
    PassesIff(s.context, s.rulePack, states, blocks, f);
    var i :| 0 <= i < |s.rulePack.rules| && PassesBy(s.context, s.rulePack, s.rulePack.rules[i], states, blocks, f);
    var rule := s.rulePack.rules[i];
    var state :| state in states && Holds(s.context, rule, state)
                 && f == Finding(rule.id, Some(state.scope), Pass, None);
    ResolvedStatesAreBacked(s, evidence, drafts, state);
    assert PassesOn(s, evidence, f, rule, state);
  }

  /** So does every obligation that passes, whatever findings it is judged with. */
  lemma ObligationRestsOnANode(
    s: Setting, evidence: seq<Evidence>, drafts: seq<F.Draft>, o: Obligation, findings: seq<Finding>)
    requires Audited(s, evidence, drafts)
    requires VerdictOf(o, StatesFrom(drafts), findings) == Some(Pass)
    ensures exists state :: Meets(o, StatesFrom(drafts), state) && Backed(s, evidence, state)
  {
    hide Resolves, Interpreted, StatesFrom, Backed;
    var state := PassingState(o, StatesFrom(drafts), findings);
    ResolvedStatesAreBacked(s, evidence, drafts, state);
  }

  /** The one state the obligation concerns, which meets it. */
  ghost predicate Meets(o: Obligation, states: seq<State>, state: State) {
    OnlyOne(o.rule, states, state) && state.status == Resolved && o.meets(state.value) == Some(true)
  }

  lemma PassingState(o: Obligation, states: seq<State>, findings: seq<Finding>) returns (state: State)
    requires VerdictOf(o, states, findings) == Some(Pass)
    ensures state in states && Meets(o, states, state)
  {
    state := Concerned(o.rule, states)[0];
    assert Concerned(o.rule, states) == [state];
    ConcernedMember(o.rule, states, state);
  }

  // ---------------------------------------------------------------- the whole audit

  datatype Failure = Refused(artifact: nat, node: I.NodeId, mapping: I.MappingId) | Unresolvable(error: R.ResolveError)

  method CollectFacts(k: I.Knowledge, pack: seq<I.Mapping>, names: Naming, evidence: seq<Evidence>)
    returns (facts: seq<F.Fact>)
    requires AllInReach(pack, evidence)
    ensures facts == AllFacts(k, pack, names, evidence)
  {
    hide FactsOf;
    facts := [];
    for a := 0 to |evidence|
      invariant facts == AllFacts(k, pack, names, evidence[..a])
    {
      assert evidence[..a + 1][..a] == evidence[..a];
      facts := facts + FactsOf(k, pack, names, a, evidence[a]);
    }
    assert evidence[..|evidence|] == evidence;
  }

  /** Nothing unexplained stops the rule of the finding. */
  ghost predicate Unstopped(s: Setting, profile: Profile, evidence: seq<Evidence>, unsupported: seq<nat>, f: Finding) {
    exists i :: 0 <= i < |s.rulePack.rules| && s.rulePack.rules[i].id == f.rule
      && !Stopped(profile, s.pack, evidence, unsupported, s.rulePack.rules[i])
  }

  /**
   Reads, interprets, resolves and evaluates, for a profile with a rule pack of its own.  No finding passes unless it
   rests on an explained node of the evidence and nothing unexplained stops its rule.
   */
  method Audit(
    s: Setting, profile: Profile, documents: seq<seq<Line>>, inputTruncated: bool, unsupported: seq<nat>, limit: nat,
    cap: nat)
    returns (r: Common.Result<seq<Finding>, Failure>, evidence: seq<Evidence>)
    requires Evaluable(s.rulePack.rules) && DistinctRules(s.rulePack.rules)
    ensures r.Ok? ==> AllRead(documents, limit, cap, evidence) && Interpreted(s.k, s.pack, evidence)
    ensures r.Ok? ==> forall f :: f in r.value && f.verdict == Pass ==>
              Rests(s, evidence, f) && Unstopped(s, profile, evidence, unsupported, f)
  {
    hide Recorded, Interpreted, AllRead, Findings, Rests, Stopped, R.Resolve;
    var read := InterpretAudit(
      s.k, profile, Some(s.rulePack), s.pack, documents, inputTruncated, unsupported, limit, cap);
    if read.Err? {
      return Err(Refused(read.error.0, read.error.1, read.error.2)), [];
    }
    evidence := read.value.0;
    InterpretedFactsInReach(s.k, s.pack, evidence);
    var facts := CollectFacts(s.k, s.pack, s.names, evidence);
    var drafts := R.ResolveSecurityFacts(s.policy, s.registry, facts);
    if drafts.Err? {
      return Err(Unresolvable(drafts.error)), evidence;
    }
    var findings := EvaluateAuditCompliance(s.context, s.rulePack, StatesFrom(drafts.value), read.value.1);
    forall f | f in findings && f.verdict == Pass
      ensures Rests(s, evidence, f) && Unstopped(s, profile, evidence, unsupported, f)
    {
      PassRestsOnANode(s, evidence, drafts.value, read.value.1, f);
      StoppedRuleNeverPasses(
        s.context, profile, s.rulePack, s.pack, evidence, unsupported, read.value.1, StatesFrom(drafts.value), f);
    }
    return Ok(findings), evidence;
  }
}
