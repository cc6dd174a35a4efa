/**
 Compliance findings: every rule of a pack against the effective states, stopped from passing by unresolved
 blocks (backend/app/compliance/service.py:72-177, backend/app/compliance/applicability.py).

 `evaluate_condition` is taken as a function of the rule, the value and the policy parameter; it has no result
 where the source raises.
 */
module Compliance {
  import opened Common
  import opened Verdicts
  import opened Scopes
  import opened UnresolvedEvidence

  datatype Reason =
    | MissingEvidence | ConflictingEvidence | UnsupportedFeature | UnsupportedProfile | AmbiguousScope
    | Other(code: string)

  datatype ResolutionStatus = Resolved | Conflicting | Undetermined

  datatype State = State(field: FieldId, scope: Scope, status: ResolutionStatus, reason: Option<Reason>, value: string)

  datatype Finding = Finding(rule: RuleId, scope: Option<Scope>, verdict: FindingVerdict, reason: Option<Reason>)

  /** What a call finds besides rules, states and blocks: the audit's profile resolution and the policy. */
  datatype Context = Context(
    resolved: bool, profile: Option<ProfileId>, policy: map<string, string>,
    evaluate: (RuleId, string, Option<string>) -> Option<bool>)

  datatype Applicability = Applicable | Inapplicable | Unsettled

  /** Uncertainty about the profile is never taken for non-applicability. */
  function ApplicabilityOf(c: Context, pack: RulePack): Applicability {
    if !c.resolved then Unsettled
    else if c.profile != Some(pack.profile) then Inapplicable
    else Applicable
  }

  // ---------------------------------------------------------------- which rules a block names

  /** A block that names nothing, from the pack's own profile and a real node, names every rule. */
  function NamedBy(pack: RulePack, b: Block): set<RuleId> {
    if b.rules == {} && b.fields == {} && b.profile == pack.profile && b.place.Some? then IdsOf(pack.rules) else b.rules
  }

  ghost predicate Blocked(pack: RulePack, blocks: seq<Block>, rule: RuleId) {
    exists b :: b in blocks && rule in NamedBy(pack, b)
  }

  // ---------------------------------------------------------------- the findings, rule by rule

  function Parameter(c: Context, rule: Rule): Option<string> {
    if rule.parameter.Some? && rule.parameter.value in c.policy then Some(c.policy[rule.parameter.value]) else None
  }

  function StateFinding(c: Context, rule: Rule, state: State, blocked: bool): Finding {
    if state.status != Resolved then
      var reason := if state.status == Conflicting then Some(ConflictingEvidence) else state.reason;
      Finding(rule.id, Some(state.scope), Unknown, reason)
    else if rule.parameter.Some? && Parameter(c, rule).None? then
      Finding(rule.id, Some(state.scope), ManualReview, None)
    else
      match c.evaluate(rule.id, state.value, Parameter(c, rule))
      case None => Finding(rule.id, Some(state.scope), ProcessError, None)
      case Some(holds) =>
        if holds && blocked then Finding(rule.id, Some(state.scope), Unknown, Some(UnsupportedFeature))
        else Finding(rule.id, Some(state.scope), if holds then Pass else Fail, None)
  }

  function StatesOf(states: seq<State>, field: FieldId): seq<State> {
    if states == [] then []
    else
      var last := states[|states| - 1];
      StatesOf(states[..|states| - 1], field) + if last.field == field then [last] else []
  }

  function StateFindings(c: Context, rule: Rule, states: seq<State>, blocked: bool): (r: seq<Finding>)
    ensures |r| == |states| && forall i :: 0 <= i < |states| ==> r[i] == StateFinding(c, rule, states[i], blocked)
  {
    if states == [] then []
    else [StateFinding(c, rule, states[0], blocked)] + StateFindings(c, rule, states[1..], blocked)
  }

  /** The registry admits rules with a required field only. */
  predicate Evaluable(rules: seq<Rule>) {
    forall i :: 0 <= i < |rules| ==> rules[i].required != []
  }

  ghost function RuleFindings(
    c: Context, pack: RulePack, rule: Rule, states: seq<State>, blocks: seq<Block>): seq<Finding>
    requires rule.required != []
  {
    var concerned := StatesOf(states, rule.required[0]);
    match ApplicabilityOf(c, pack)
    case Inapplicable => [Finding(rule.id, None, NotApplicable, None)]
    case Unsettled => [Finding(rule.id, None, Unknown, Some(UnsupportedProfile))]
    case Applicable =>
      if concerned == [] then [Finding(rule.id, None, Unknown, Some(MissingEvidence))]
      else StateFindings(c, rule, concerned, Blocked(pack, blocks, rule.id))
  }

  ghost function Findings(
    c: Context, pack: RulePack, rules: seq<Rule>, states: seq<State>, blocks: seq<Block>): seq<Finding>
    requires Evaluable(rules)
  {
    if rules == [] then []
    else
      var init, last := rules[..|rules| - 1], rules[|rules| - 1];
      Findings(c, pack, init, states, blocks) + RuleFindings(c, pack, last, states, blocks)
  }

  // ---------------------------------------------------------------- the findings, case by case

  predicate Concerns(rule: Rule, states: seq<State>, s: State) {
    rule.required != [] && s in states && s.field == rule.required[0]
  }

  /** The policy does not set the parameter the rule needs. */
  predicate Lacks(c: Context, rule: Rule) {
    rule.parameter.Some? && rule.parameter.value !in c.policy
  }

  function Evaluated(c: Context, rule: Rule, s: State): Option<bool>
    requires !Lacks(c, rule)
  {
    c.evaluate(rule.id, s.value, if rule.parameter.Some? then Some(c.policy[rule.parameter.value]) else None)
  }

  /** A resolved state of the rule's field comes to this under the policy. */
  predicate Comes(c: Context, rule: Rule, states: seq<State>, s: State, to: Option<bool>) {
    Concerns(rule, states, s) && s.status == Resolved && !Lacks(c, rule) && Evaluated(c, rule, s) == to
  }

  /** A resolved state of the rule's field waits for a parameter. */
  predicate Awaits(c: Context, rule: Rule, states: seq<State>, s: State) {
    Concerns(rule, states, s) && s.status == Resolved && Lacks(c, rule)
  }

  /** A block names the rule, or one of the pack's profile that names nothing stands for every rule. */
  ghost predicate IsNamed(pack: RulePack, blocks: seq<Block>, rule: Rule) {
    exists b :: b in blocks
      && (rule.id in b.rules
          || (b.rules == {} && b.fields == {} && b.profile == pack.profile && b.place.Some? && rule in pack.rules))
  }

  /** Why a state leaves a finding UNKNOWN. */
  ghost predicate Doubts(
    c: Context, pack: RulePack, rule: Rule, states: seq<State>, blocks: seq<Block>, s: State, reason: Option<Reason>) {
    && Concerns(rule, states, s)
    && ((s.status == Conflicting && reason == Some(ConflictingEvidence))
        || (s.status == Undetermined && reason == s.reason)
        || (Comes(c, rule, states, s, Some(true)) && IsNamed(pack, blocks, rule) && reason == Some(UnsupportedFeature)))
  }

  /** What a state makes of a rule under a pack that applies. */
  ghost predicate JudgedBy(
    c: Context, pack: RulePack, rule: Rule, states: seq<State>, blocks: seq<Block>, f: Finding, s: State) {
    && f.scope == Some(s.scope) && (f.verdict != Unknown ==> f.reason.None?)
    && match f.verdict
       case Pass => Comes(c, rule, states, s, Some(true)) && !IsNamed(pack, blocks, rule)
       case Fail => Comes(c, rule, states, s, Some(false))
       case ProcessError => Comes(c, rule, states, s, None)
       case ManualReview => Awaits(c, rule, states, s)
       case Unknown => Doubts(c, pack, rule, states, blocks, s, f.reason)
       case NotApplicable => false
  }

  /** A finding of the rule: without a settled profile, for another one, without any state, or of a state. */
  ghost predicate FindingOf(
    c: Context, pack: RulePack, rule: Rule, states: seq<State>, blocks: seq<Block>, f: Finding) {
    && f.rule == rule.id
    && if !c.resolved then f == Finding(rule.id, None, Unknown, Some(UnsupportedProfile))
       else if c.profile != Some(pack.profile) then f == Finding(rule.id, None, NotApplicable, None)
       else if forall s :: !Concerns(rule, states, s) then f == Finding(rule.id, None, Unknown, Some(MissingEvidence))
       else exists s :: JudgedBy(c, pack, rule, states, blocks, f, s)
  }

  ghost predicate JudgedBySome(c: Context, pack: RulePack, states: seq<State>, blocks: seq<Block>, f: Finding) {
    exists i :: 0 <= i < |pack.rules| && FindingOf(c, pack, pack.rules[i], states, blocks, f)
  }

  // ---------------------------------------------------------------- the code

  predicate Indexed(byField: map<FieldId, seq<State>>, states: seq<State>) {
    && (forall f :: f in byField ==> byField[f] == StatesOf(states, f))
    && forall i :: 0 <= i < |states| ==> states[i].field in byField
  }

  lemma {:induction false} NotIndexed(byField: map<FieldId, seq<State>>, states: seq<State>, field: FieldId)
    requires forall i :: 0 <= i < |states| ==> states[i].field in byField
    requires field !in byField
    ensures StatesOf(states, field) == []
  {
    if states != [] {
      NotIndexed(byField, states[..|states| - 1], field);
    }
  }

  lemma IndexedNext(byField: map<FieldId, seq<State>>, before: seq<State>, state: State)
    requires Indexed(byField, before)
    ensures Indexed(byField[state.field := (if state.field in byField then byField[state.field] else []) + [state]],
        before + [state])
  {
    if state.field !in byField {
      NotIndexed(byField, before, state.field);
    }
    var all := before + [state];
    assert all[..|all| - 1] == before;
    var next := byField[state.field := (if state.field in byField then byField[state.field] else []) + [state]];
    forall f | f in next ensures next[f] == StatesOf(all, f) {
      assert StatesOf(all, f) == StatesOf(before, f) + if state.field == f then [state] else [];
    }
  }

  method IndexStates(states: seq<State>) returns (byField: map<FieldId, seq<State>>)
    ensures Indexed(byField, states)
  {
    hide StatesOf, Indexed;
    byField := map[];
    assert Indexed(byField, states[..0]) by {
      NothingIndexed();
    }
    for i := 0 to |states|
      invariant Indexed(byField, states[..i])
    {
      var state := states[i];
      assert states[..i + 1] == states[..i] + [state];
      IndexedNext(byField, states[..i], state);
      byField := byField[state.field := (if state.field in byField then byField[state.field] else []) + [state]];
    }
    assert states[..|states|] == states;
  }

  lemma NothingIndexed()
    ensures Indexed(map[], [])
  {
  }

  method BlockedRules(pack: RulePack, blocks: seq<Block>) returns (blocked: set<RuleId>)
    ensures forall r: RuleId :: r in blocked <==> Blocked(pack, blocks, r)
  {
    blocked := {};
    for i := 0 to |blocks|
      invariant forall r: RuleId :: r in blocked <==> Blocked(pack, blocks[..i], r)
    {
      var affected := blocks[i].rules;
      if affected == {} && blocks[i].fields == {} && blocks[i].profile == pack.profile && blocks[i].place.Some? {
        affected := IdsOf(pack.rules);
      }
      assert blocks[..i + 1] == blocks[..i] + [blocks[i]];
      assert affected == NamedBy(pack, blocks[i]);
      blocked := blocked + affected;
    }
    assert blocks[..|blocks|] == blocks;
  }

  method EvaluateAuditCompliance(c: Context, pack: RulePack, states: seq<State>, blocks: seq<Block>)
    returns (drafts: seq<Finding>)
    requires Evaluable(pack.rules)
    ensures drafts == Findings(c, pack, pack.rules, states, blocks)
    ensures forall f :: f in drafts <==> JudgedBySome(c, pack, states, blocks, f)
  {
    hide Blocked, JudgedBySome;
    var byField := IndexStates(states);
    var blocked := BlockedRules(pack, blocks);
    var applicability := ApplicabilityOf(c, pack);
    drafts := [];
    for i := 0 to |pack.rules|
      invariant drafts == Findings(c, pack, pack.rules[..i], states, blocks)
    {
      var rule := pack.rules[i];
      assert pack.rules[..i + 1][..i] == pack.rules[..i];
      if applicability == Inapplicable {
        drafts := drafts + [Finding(rule.id, None, NotApplicable, None)];
      } else if applicability == Unsettled {
        drafts := drafts + [Finding(rule.id, None, Unknown, Some(UnsupportedProfile))];
      } else {
        var concerned := if rule.required[0] in byField then byField[rule.required[0]] else [];
        if rule.required[0] !in byField {
          NotIndexed(byField, states, rule.required[0]);
        }
        if concerned == [] {
          drafts := drafts + [Finding(rule.id, None, Unknown, Some(MissingEvidence))];
        } else {
          var added := EvaluateStates(c, rule, concerned, rule.id in blocked);
          drafts := drafts + added;
        }
      }
    }
    assert pack.rules[..|pack.rules|] == pack.rules;
    forall f ensures f in drafts <==> JudgedBySome(c, pack, states, blocks, f) {
      FindingsAreJudged(c, pack, states, blocks, f);
    }
  }

  method EvaluateStates(c: Context, rule: Rule, states: seq<State>, blocked: bool) returns (added: seq<Finding>)
    ensures added == StateFindings(c, rule, states, blocked)
  {
    added := [];
    for i := 0 to |states|
      invariant |added| == i && forall j :: 0 <= j < i ==> added[j] == StateFinding(c, rule, states[j], blocked)
    {
      var state := states[i];
      var finding: Finding;
      if state.status != Resolved {
        var reason := if state.status == Conflicting then Some(ConflictingEvidence) else state.reason;
        finding := Finding(rule.id, Some(state.scope), Unknown, reason);
      } else {
        var parameter := Parameter(c, rule);
        if rule.parameter.Some? && parameter.None? {
          finding := Finding(rule.id, Some(state.scope), ManualReview, None);
        } else {
          var holds := c.evaluate(rule.id, state.value, parameter);
          if holds.None? {
            finding := Finding(rule.id, Some(state.scope), ProcessError, None);
          } else if holds.value && blocked {
            finding := Finding(rule.id, Some(state.scope), Unknown, Some(UnsupportedFeature));
          } else {
            finding := Finding(rule.id, Some(state.scope), if holds.value then Pass else Fail, None);
          }
        }
      }
      added := added + [finding];
    }
  }

  // ---------------------------------------------------------------- what a pass means

  lemma {:induction false} StatesOfMember(states: seq<State>, field: FieldId, s: State)
    ensures s in StatesOf(states, field) <==> s in states && s.field == field
  {
    if states != [] {
      StatesOfMember(states[..|states| - 1], field, s);
      assert states == states[..|states| - 1] + [states[|states| - 1]];
    }
  }

  lemma {:induction false} FindingsMember(
    c: Context, pack: RulePack, rules: seq<Rule>, states: seq<State>, blocks: seq<Block>, f: Finding)
    requires Evaluable(rules)
    ensures f in Findings(c, pack, rules, states, blocks) <==>
              exists i :: 0 <= i < |rules| && f in RuleFindings(c, pack, rules[i], states, blocks)
  {
    hide RuleFindings;
    if rules != [] {
      var init, last := rules[..|rules| - 1], rules[|rules| - 1];
      FindingsMember(c, pack, init, states, blocks, f);
      if i :| 0 <= i < |init| && f in RuleFindings(c, pack, init[i], states, blocks) {
        assert rules[i] == init[i];
      }
      if i :| 0 <= i < |rules| && f in RuleFindings(c, pack, rules[i], states, blocks) {
        assert i < |init| ==> init[i] == rules[i];
      }
    }
  }

  /** Rule and state give a pass when nothing unresolved stands in the way. */
  predicate Holds(c: Context, rule: Rule, state: State) {
    && rule.required != [] && state.field == rule.required[0] && state.status == Resolved
    && (rule.parameter.Some? ==> Parameter(c, rule).Some?)
    && c.evaluate(rule.id, state.value, Parameter(c, rule)) == Some(true)
  }

  /**
   A finding passes exactly for an applicable pack, a resolved state that meets the rule, and no block on the rule.
   */
  lemma PassesIff(c: Context, pack: RulePack, states: seq<State>, blocks: seq<Block>, f: Finding)
    requires Evaluable(pack.rules)
    ensures f in Findings(c, pack, pack.rules, states, blocks) && f.verdict == Pass <==>
              exists i :: 0 <= i < |pack.rules| && PassesBy(c, pack, pack.rules[i], states, blocks, f)
  {
    hide RuleFindings, PassesBy;
    FindingsMember(c, pack, pack.rules, states, blocks, f);
    forall i | 0 <= i < |pack.rules|
      ensures f in RuleFindings(c, pack, pack.rules[i], states, blocks) && f.verdict == Pass <==>
                PassesBy(c, pack, pack.rules[i], states, blocks, f)
    {
      RulePassesIff(c, pack, pack.rules[i], states, blocks, f);
    }
  }

  ghost predicate PassesBy(c: Context, pack: RulePack, rule: Rule, states: seq<State>, blocks: seq<Block>, f: Finding) {
    && ApplicabilityOf(c, pack) == Applicable && !Blocked(pack, blocks, rule.id)
    && exists s :: s in states && Holds(c, rule, s) && f == Finding(rule.id, Some(s.scope), Pass, None)
  }

  /** Where a finding of one rule comes from: a state it concerns, or the lack of a profile or of any state. */
  lemma OriginOf(c: Context, pack: RulePack, rule: Rule, states: seq<State>, blocks: seq<Block>, f: Finding)
    returns (s: Option<State>)
    requires rule.required != [] && f in RuleFindings(c, pack, rule, states, blocks)
    ensures s.Some? ==>
              && ApplicabilityOf(c, pack) == Applicable && s.value in states && s.value.field == rule.required[0]
              && f == StateFinding(c, rule, s.value, Blocked(pack, blocks, rule.id))
    ensures s.None? ==> f.scope == None && f.rule == rule.id && f.verdict != Pass
    ensures s.None? ==> (f.verdict == Unknown <==> f.reason.Some?)
  {
    hide Blocked, StatesOf, StateFinding;
    var concerned := StatesOf(states, rule.required[0]);
    var blocked := Blocked(pack, blocks, rule.id);
    if ApplicabilityOf(c, pack) == Applicable && concerned != [] {
      var found := StateFindings(c, rule, concerned, blocked);
      var i :| 0 <= i < |found| && found[i] == f;
      StatesOfMember(states, rule.required[0], concerned[i]);
      s := Some(concerned[i]);
    } else {
      s := None;
    }
  }

  lemma OnlyAStatePasses(c: Context, pack: RulePack, rule: Rule, states: seq<State>, blocks: seq<Block>, f: Finding)
    requires rule.required != [] && f in RuleFindings(c, pack, rule, states, blocks) && f.verdict == Pass
    ensures PassesBy(c, pack, rule, states, blocks, f)
  {
    hide Blocked, StatesOf, RuleFindings;
    var s := OriginOf(c, pack, rule, states, blocks, f);
    assert Holds(c, rule, s.value);
  }

  lemma AStatePasses(c: Context, pack: RulePack, rule: Rule, states: seq<State>, blocks: seq<Block>, s: State)
    requires ApplicabilityOf(c, pack) == Applicable && !Blocked(pack, blocks, rule.id) && s in states
    requires Holds(c, rule, s)
    ensures Finding(rule.id, Some(s.scope), Pass, None) in RuleFindings(c, pack, rule, states, blocks)
  {
    hide Blocked, StatesOf;
    var concerned := StatesOf(states, rule.required[0]);
    StatesOfMember(states, rule.required[0], s);
    var i :| 0 <= i < |concerned| && concerned[i] == s;
    assert RuleFindings(c, pack, rule, states, blocks)[i] == StateFinding(c, rule, s, false);
  }

  lemma RulePassesIff(c: Context, pack: RulePack, rule: Rule, states: seq<State>, blocks: seq<Block>, f: Finding)
    requires rule.required != []
    ensures f in RuleFindings(c, pack, rule, states, blocks) && f.verdict == Pass <==>
        PassesBy(c, pack, rule, states, blocks, f)
  {
    hide Blocked, RuleFindings, Holds;
    if f in RuleFindings(c, pack, rule, states, blocks) && f.verdict == Pass {
      OnlyAStatePasses(c, pack, rule, states, blocks, f);
    }
    if PassesBy(c, pack, rule, states, blocks, f) {
      var s :| s in states && Holds(c, rule, s) && f == Finding(rule.id, Some(s.scope), Pass, None);
      AStatePasses(c, pack, rule, states, blocks, s);
    }
  }

  // ---------------------------------------------------------------- what each verdict means

  lemma StateIsJudged(
    c: Context, pack: RulePack, rule: Rule, states: seq<State>, blocks: seq<Block>, f: Finding, s: State)
    requires Concerns(rule, states, s) && rule in pack.rules
    ensures f == StateFinding(c, rule, s, Blocked(pack, blocks, rule.id)) <==>
              f.rule == rule.id && JudgedBy(c, pack, rule, states, blocks, f, s)
  {
    NamedIsBlocked(pack, blocks, rule);
    hide Blocked, IsNamed;
  }

  lemma NamedIsBlocked(pack: RulePack, blocks: seq<Block>, rule: Rule)
    requires rule in pack.rules
    ensures Blocked(pack, blocks, rule.id) <==> IsNamed(pack, blocks, rule)
  {
    if Blocked(pack, blocks, rule.id) {
      var b :| b in blocks && rule.id in NamedBy(pack, b);
    }
    if IsNamed(pack, blocks, rule) {
      var b :| b in blocks
               && (rule.id in b.rules
                   || (b.rules == {} && b.fields == {} && b.profile == pack.profile && b.place.Some?));
      assert rule.id in NamedBy(pack, b);
    }
  }

  lemma RuleIsJudged(c: Context, pack: RulePack, rule: Rule, states: seq<State>, blocks: seq<Block>, f: Finding)
    requires rule.required != [] && rule in pack.rules
    ensures f in RuleFindings(c, pack, rule, states, blocks) <==> FindingOf(c, pack, rule, states, blocks, f)
  {
    hide Blocked, StatesOf, StateFinding, JudgedBy;
    var concerned := StatesOf(states, rule.required[0]);
    forall s ensures s in concerned <==> Concerns(rule, states, s) {
      StatesOfMember(states, rule.required[0], s);
    }
    if ApplicabilityOf(c, pack) == Applicable && concerned != [] {
      assert concerned[0] in concerned;
      StatesAreJudged(c, pack, rule, states, blocks, f, concerned);
    }
  }

  lemma StatesAreJudged(
    c: Context, pack: RulePack, rule: Rule, states: seq<State>, blocks: seq<Block>, f: Finding, concerned: seq<State>)
    requires rule in pack.rules && forall s :: s in concerned <==> Concerns(rule, states, s)
    ensures f in StateFindings(c, rule, concerned, Blocked(pack, blocks, rule.id)) <==>
              f.rule == rule.id && exists s :: JudgedBy(c, pack, rule, states, blocks, f, s)
  {
    hide Blocked, StateFinding, StateFindings, JudgedBy;
    var found := StateFindings(c, rule, concerned, Blocked(pack, blocks, rule.id));
    if f in found {
      var i :| 0 <= i < |found| && found[i] == f;
      StateIsJudged(c, pack, rule, states, blocks, f, concerned[i]);
    }
    if s :| f.rule == rule.id && JudgedBy(c, pack, rule, states, blocks, f, s) {
      JudgedConcerns(c, pack, rule, states, blocks, f, s);
      StateIsJudged(c, pack, rule, states, blocks, f, s);
      var i :| 0 <= i < |concerned| && concerned[i] == s;
      assert found[i] == f;
    }
  }

  lemma JudgedConcerns(
    c: Context, pack: RulePack, rule: Rule, states: seq<State>, blocks: seq<Block>, f: Finding, s: State)
    requires JudgedBy(c, pack, rule, states, blocks, f, s)
    ensures Concerns(rule, states, s)
  {
    hide IsNamed;
  }

  /** The findings of an audit are exactly those the cases give. */
  lemma FindingsAreJudged(c: Context, pack: RulePack, states: seq<State>, blocks: seq<Block>, f: Finding)
    requires Evaluable(pack.rules)
    ensures f in Findings(c, pack, pack.rules, states, blocks) <==> JudgedBySome(c, pack, states, blocks, f)
  {
    hide RuleFindings, FindingOf, Findings;
    FindingsMember(c, pack, pack.rules, states, blocks, f);
    forall i | 0 <= i < |pack.rules|
      ensures f in RuleFindings(c, pack, pack.rules[i], states, blocks) <==>
                FindingOf(c, pack, pack.rules[i], states, blocks, f)
    {
      RuleIsJudged(c, pack, pack.rules[i], states, blocks, f);
    }
  }

  /** A verdict on a state, given under an applicable pack. */
  ghost predicate Given(c: Context, pack: RulePack, f: Finding, rule: Rule, s: State) {
    && c.resolved && c.profile == Some(pack.profile) && rule in pack.rules
    && f.rule == rule.id && f.scope == Some(s.scope) && f.reason == None
  }

  lemma JudgedUnder(
    c: Context, pack: RulePack, states: seq<State>, blocks: seq<Block>, f: Finding, rule: Rule, s: State)
    requires Evaluable(pack.rules) && Given(c, pack, f, rule, s) && JudgedBy(c, pack, rule, states, blocks, f, s)
    ensures f in Findings(c, pack, pack.rules, states, blocks)
  {
    hide JudgedBy, Findings;
    FindingsAreJudged(c, pack, states, blocks, f);
    JudgedConcerns(c, pack, rule, states, blocks, f, s);
    var i :| 0 <= i < |pack.rules| && pack.rules[i] == rule;
    assert FindingOf(c, pack, pack.rules[i], states, blocks, f);
  }

  lemma UnderARule(c: Context, pack: RulePack, states: seq<State>, blocks: seq<Block>, f: Finding)
    returns (rule: Rule, s: State)
    requires Evaluable(pack.rules) && f in Findings(c, pack, pack.rules, states, blocks)
    requires f.verdict != Unknown && f.verdict != NotApplicable
    ensures Given(c, pack, f, rule, s) && JudgedBy(c, pack, rule, states, blocks, f, s)
  {
    hide Findings;
    FindingsAreJudged(c, pack, states, blocks, f);
    var i :| 0 <= i < |pack.rules| && FindingOf(c, pack, pack.rules[i], states, blocks, f);
    rule := pack.rules[i];
    s :| JudgedBy(c, pack, rule, states, blocks, f, s);
  }

  /** FAIL: a resolved state of the rule's field does not meet it; whatever is blocked. */
  lemma FailsIff(c: Context, pack: RulePack, states: seq<State>, blocks: seq<Block>, f: Finding)
    requires Evaluable(pack.rules)
    ensures f in Findings(c, pack, pack.rules, states, blocks) && f.verdict == Fail <==>
              && f.verdict == Fail
              && exists rule, s :: Given(c, pack, f, rule, s) && Comes(c, rule, states, s, Some(false))
  {
    hide Findings, Comes, Given;
    if f in Findings(c, pack, pack.rules, states, blocks) && f.verdict == Fail {
      var rule, s := UnderARule(c, pack, states, blocks, f);
    }
    if rule, s :| f.verdict == Fail && Given(c, pack, f, rule, s) && Comes(c, rule, states, s, Some(false)) {
      GivenReason(c, pack, f, rule, s);
      JudgedUnder(c, pack, states, blocks, f, rule, s);
    }
  }

  lemma GivenReason(c: Context, pack: RulePack, f: Finding, rule: Rule, s: State)
    requires Given(c, pack, f, rule, s)
    ensures f.scope == Some(s.scope) && f.reason == None
  {
  }

  /** MANUAL_REVIEW: the state is resolved and the policy does not set the parameter the rule needs. */
  lemma ManualReviewIff(c: Context, pack: RulePack, states: seq<State>, blocks: seq<Block>, f: Finding)
    requires Evaluable(pack.rules)
    ensures f in Findings(c, pack, pack.rules, states, blocks) && f.verdict == ManualReview <==>
              f.verdict == ManualReview && exists rule, s :: Given(c, pack, f, rule, s) && Awaits(c, rule, states, s)
  {
    hide Findings, Given, Concerns, Lacks;
    if f in Findings(c, pack, pack.rules, states, blocks) && f.verdict == ManualReview {
      var rule, s := UnderARule(c, pack, states, blocks, f);
    }
    if f.verdict == ManualReview && exists rule, s :: Given(c, pack, f, rule, s) && Awaits(c, rule, states, s) {
      var rule, s :| Given(c, pack, f, rule, s) && Awaits(c, rule, states, s);
      GivenReason(c, pack, f, rule, s);
      JudgedUnder(c, pack, states, blocks, f, rule, s);
    }
  }

  /** PROCESS_ERROR: the state is resolved, a needed parameter is set, and the condition cannot be evaluated. */
  lemma ProcessErrorIff(c: Context, pack: RulePack, states: seq<State>, blocks: seq<Block>, f: Finding)
    requires Evaluable(pack.rules)
    ensures f in Findings(c, pack, pack.rules, states, blocks) && f.verdict == ProcessError <==>
              && f.verdict == ProcessError
              && exists rule, s :: Given(c, pack, f, rule, s) && Comes(c, rule, states, s, None)
  {
    hide Findings, Comes, Given;
    if f in Findings(c, pack, pack.rules, states, blocks) && f.verdict == ProcessError {
      var rule, s := UnderARule(c, pack, states, blocks, f);
    }
    if rule, s :| f.verdict == ProcessError && Given(c, pack, f, rule, s) && Comes(c, rule, states, s, None) {
      GivenReason(c, pack, f, rule, s);
      JudgedUnder(c, pack, states, blocks, f, rule, s);
    }
  }

  /** The cause of an UNKNOWN finding, reason by reason. */
  ghost predicate InDoubt(
    c: Context, pack: RulePack, states: seq<State>, blocks: seq<Block>, rule: Rule, f: Finding) {
    && f.rule == rule.id
    && if !c.resolved then f.scope == None && f.reason == Some(UnsupportedProfile)
       else
         && c.profile == Some(pack.profile)
         && (if forall s :: !Concerns(rule, states, s) then f.scope == None && f.reason == Some(MissingEvidence)
             else exists s: State :: f.scope == Some(s.scope) && Doubts(c, pack, rule, states, blocks, s, f.reason))
  }

  /**
   UNKNOWN, with its reason: the profile is not settled; no state; conflicting states; a state without a value, for its
   own reason; or a state that meets a blocked rule.
   */
  lemma UnknownIff(c: Context, pack: RulePack, states: seq<State>, blocks: seq<Block>, f: Finding)
    requires Evaluable(pack.rules)
    ensures f in Findings(c, pack, pack.rules, states, blocks) && f.verdict == Unknown <==>
              && f.verdict == Unknown
              && exists i :: 0 <= i < |pack.rules| && InDoubt(c, pack, states, blocks, pack.rules[i], f)
  {
    hide Findings, Doubts, Concerns;
    FindingsAreJudged(c, pack, states, blocks, f);
    if i :| f.verdict == Unknown && 0 <= i < |pack.rules| && InDoubt(c, pack, states, blocks, pack.rules[i], f) {
      assert FindingOf(c, pack, pack.rules[i], states, blocks, f) by {
        if exists s :: Concerns(pack.rules[i], states, s) && c.resolved {
          var s: State :| f.scope == Some(s.scope) && Doubts(c, pack, pack.rules[i], states, blocks, s, f.reason);
          assert JudgedBy(c, pack, pack.rules[i], states, blocks, f, s);
        }
      }
    }
  }

  /** NOT_APPLICABLE: the profile is settled and is not that of the pack. */
  lemma NotApplicableIff(c: Context, pack: RulePack, states: seq<State>, blocks: seq<Block>, f: Finding)
    requires Evaluable(pack.rules)
    ensures f in Findings(c, pack, pack.rules, states, blocks) && f.verdict == NotApplicable <==>
              && c.resolved && c.profile != Some(pack.profile) && f.rule in IdsOf(pack.rules)
              && f == Finding(f.rule, None, NotApplicable, None)
  {
    hide Findings, Doubts, Concerns;
    FindingsAreJudged(c, pack, states, blocks, f);
    if c.resolved && c.profile != Some(pack.profile) && f.rule in IdsOf(pack.rules) {
      var i :| 0 <= i < |pack.rules| && pack.rules[i].id == f.rule;
      assert f == Finding(f.rule, None, NotApplicable, None) ==> FindingOf(c, pack, pack.rules[i], states, blocks, f);
    }
  }

  // ---------------------------------------------------------------- findings as a whole

  /** A state that is not resolved and not in conflict says why. */
  ghost predicate Reasoned(states: seq<State>) {
    forall i :: 0 <= i < |states| ==> states[i].status == Undetermined ==> states[i].reason.Some?
  }

  lemma RuleUnknownIffReason(c: Context, pack: RulePack, rule: Rule, states: seq<State>, blocks: seq<Block>, f: Finding)
    requires rule.required != [] && Reasoned(states) && f in RuleFindings(c, pack, rule, states, blocks)
    ensures f.verdict == Unknown <==> f.reason.Some?
  {
    hide Blocked, StatesOf, RuleFindings;
    var s := OriginOf(c, pack, rule, states, blocks, f);
    if s.Some? {
      var i :| 0 <= i < |states| && states[i] == s.value;
    }
  }

  /** A finding is UNKNOWN exactly when it carries a reason. */
  lemma UnknownIffReason(c: Context, pack: RulePack, states: seq<State>, blocks: seq<Block>, f: Finding)
    requires Evaluable(pack.rules) && Reasoned(states) && f in Findings(c, pack, pack.rules, states, blocks)
    ensures f.verdict == Unknown <==> f.reason.Some?
  {
    hide RuleFindings, Findings, Reasoned;
    FindingsMember(c, pack, pack.rules, states, blocks, f);
    var r :| 0 <= r < |pack.rules| && f in RuleFindings(c, pack, pack.rules[r], states, blocks);
    RuleUnknownIffReason(c, pack, pack.rules[r], states, blocks, f);
  }

  /** Blocks can only take a pass away. */
  predicate OnlyBlocked(f: Finding, f': Finding) {
    f' == f || (f.verdict == Pass && f' == f.(verdict := Unknown, reason := Some(UnsupportedFeature)))
  }

  ghost predicate AllOnlyBlocked(fs: seq<Finding>, fs': seq<Finding>) {
    |fs| == |fs'| && forall i :: 0 <= i < |fs| ==> OnlyBlocked(fs[i], fs'[i])
  }

  lemma MoreBlocksOnOneRule(
    c: Context, pack: RulePack, rule: Rule, states: seq<State>, blocks: seq<Block>, more: seq<Block>)
    requires rule.required != [] && forall b :: b in blocks ==> b in more
    ensures AllOnlyBlocked(RuleFindings(c, pack, rule, states, blocks), RuleFindings(c, pack, rule, states, more))
  {
    hide StatesOf, NamedBy;
    assert Blocked(pack, blocks, rule.id) ==> Blocked(pack, more, rule.id);
    hide Blocked;
  }

  /** Adding unresolved blocks turns some passes into UNKNOWN and changes no other finding. */
  lemma {:induction false} MoreBlocksOnlyBlock(
    c: Context, pack: RulePack, rules: seq<Rule>, states: seq<State>, blocks: seq<Block>, more: seq<Block>)
    requires Evaluable(rules) && forall b :: b in blocks ==> b in more
    ensures AllOnlyBlocked(Findings(c, pack, rules, states, blocks), Findings(c, pack, rules, states, more))
  {
    hide RuleFindings;
    if rules != [] {
      MoreBlocksOnlyBlock(c, pack, rules[..|rules| - 1], states, blocks, more);
      MoreBlocksOnOneRule(c, pack, rules[|rules| - 1], states, blocks, more);
    }
  }

  ghost predicate DistinctRules(rules: seq<Rule>) {
    forall i, j :: 0 <= i < j < |rules| ==> rules[i].id != rules[j].id
  }

  /** One state per field and scope, as the resolver's drafts are. */
  ghost predicate DistinctStates(states: seq<State>) {
    forall i, j :: 0 <= i < j < |states| && states[i].field == states[j].field ==> states[i].scope != states[j].scope
  }

  predicate SameKey(f: Finding, g: Finding) {
    f.rule == g.rule && f.scope == g.scope
  }

  ghost predicate DistinctKeys(fs: seq<Finding>) {
    forall i, j :: 0 <= i < j < |fs| ==> !SameKey(fs[i], fs[j])
  }

  lemma {:induction false} StatesOfDistinct(states: seq<State>, field: FieldId)
    requires DistinctStates(states)
    ensures forall i, j :: 0 <= i < j < |StatesOf(states, field)| ==>
        StatesOf(states, field)[i].scope != StatesOf(states, field)[j].scope
  {
    if states != [] {
      var init, last := states[..|states| - 1], states[|states| - 1];
      StatesOfDistinct(init, field);
      var before := StatesOf(init, field);
      forall i | 0 <= i < |before| && last.field == field ensures before[i].scope != last.scope {
        StatesOfMember(init, field, before[i]);
      }
    }
  }

  lemma RuleKeysDistinct(c: Context, pack: RulePack, rule: Rule, states: seq<State>, blocks: seq<Block>)
    requires rule.required != [] && DistinctStates(states)
    ensures DistinctKeys(RuleFindings(c, pack, rule, states, blocks))
    ensures forall i :: 0 <= i < |RuleFindings(c, pack, rule, states, blocks)| ==>
        RuleFindings(c, pack, rule, states, blocks)[i].rule == rule.id
  {
    hide Blocked, StatesOf;
    StatesOfDistinct(states, rule.required[0]);
  }

  /** No two findings of an audit share rule and scope. */
  lemma {:induction false} FindingsHaveDistinctKeys(
    c: Context, pack: RulePack, rules: seq<Rule>, states: seq<State>, blocks: seq<Block>)
    requires Evaluable(rules) && DistinctRules(rules) && DistinctStates(states)
    ensures DistinctKeys(Findings(c, pack, rules, states, blocks))
    ensures forall i :: 0 <= i < |Findings(c, pack, rules, states, blocks)| ==>
              exists r :: 0 <= r < |rules| && rules[r].id == Findings(c, pack, rules, states, blocks)[i].rule
  {
    hide RuleFindings;
    if rules != [] {
      var init, last := rules[..|rules| - 1], rules[|rules| - 1];
      FindingsHaveDistinctKeys(c, pack, init, states, blocks);
      RuleKeysDistinct(c, pack, last, states, blocks);
      var front: seq<Finding> := Findings(c, pack, init, states, blocks);
      var back: seq<Finding> := RuleFindings(c, pack, last, states, blocks);
      var all: seq<Finding> := front + back;
      assert Findings(c, pack, rules, states, blocks) == all;
      forall i | 0 <= i < |all| ensures exists r :: 0 <= r < |rules| && rules[r].id == all[i].rule {
        if i < |front| {
          var r :| 0 <= r < |init| && init[r].id == front[i].rule;
          assert rules[r].id == all[i].rule;
        } else {
          assert rules[|rules| - 1].id == all[i].rule;
        }
      }
      forall i, j | 0 <= i < j < |all| ensures !SameKey(all[i], all[j]) {
        if i < |front| && j >= |front| {
          var r :| 0 <= r < |init| && init[r].id == front[i].rule;
          assert rules[r].id == front[i].rule && rules[r].id != last.id;
        }
      }
    }
  }
}
