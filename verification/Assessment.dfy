/**
 The verdict of one obligation of an assessment pack (backend/app/assessment_packs/service.py:283-370).

 An obligation evaluates the effective state itself, with its own parameters, and looks at the findings of its
 rule only to see whether one of them is UNKNOWN.
 */
module Assessment {
  import opened Common
  import opened Verdicts
  import opened UnresolvedEvidence
  import opened Compliance

  datatype Implementation = Implemented | Manual | Unimplemented

  /**
   `concerns` says whether the obligation applies to the profile, `supported` whether the profile's fields carry
   the evidence it needs, `meets` what its own condition makes of a value.
   */
  datatype Obligation = Obligation(
    implementation: Implementation, automatic: bool, rule: Rule, concerns: bool, supported: bool,
    meets: string -> Option<bool>)

  datatype Result = Result(applicable: bool, verdict: Option<FindingVerdict>, reason: Option<Reason>)

  function Concerned(rule: Rule, states: seq<State>): seq<State> {
    if states == [] then []
    else
      var last := states[|states| - 1];
      Concerned(rule, states[..|states| - 1]) + if last.field in rule.required then [last] else []
  }

  predicate IsUnknownOf(f: Finding, rule: RuleId) {
    f.rule == rule && f.verdict == Unknown
  }

  predicate AnyUnknown(findings: seq<Finding>, rule: RuleId) {
    exists i :: 0 <= i < |findings| && IsUnknownOf(findings[i], rule)
  }

  predicate Automatic(o: Obligation) {
    o.implementation == Implemented && o.automatic
  }

  /** What the one state that concerns the obligation comes to. */
  function Judged(o: Obligation, s: State): (FindingVerdict, Option<Reason>) {
    if s.status != Resolved then (Unknown, Some(if s.reason.Some? then s.reason.value else ConflictingEvidence))
    else
      match o.meets(s.value)
      case None => (Unknown, Some(Other("assessment_evaluation_error")))
      case Some(holds) => (if holds then Pass else Fail, None)
  }

  /** An UNKNOWN finding of the rule comes first, then anything but exactly one state over its fields. */
  function VerdictOf(o: Obligation, states: seq<State>, findings: seq<Finding>): Option<FindingVerdict> {
    if !o.concerns || !Automatic(o) || !o.supported then None
    else if AnyUnknown(findings, o.rule.id) || |Concerned(o.rule, states)| != 1 then Some(Unknown)
    else Some(Judged(o, Concerned(o.rule, states)[0]).0)
  }

  method FirstUnknown(findings: seq<Finding>, rule: RuleId) returns (found: Option<Finding>)
    ensures found.Some? <==> AnyUnknown(findings, rule)
    ensures found.Some? ==> found.value in findings && IsUnknownOf(found.value, rule)
  {
    found := None;
    for i := 0 to |findings|
      invariant found.None? && forall j :: 0 <= j < i ==> !IsUnknownOf(findings[j], rule)
    {
      if findings[i].rule == rule && findings[i].verdict == Unknown {
        return Some(findings[i]);
      }
    }
  }

  /** States over a field the rule requires, in order. */
  method SelectConcerned(rule: Rule, states: seq<State>) returns (concerned: seq<State>)
    ensures concerned == Concerned(rule, states)
  {
    concerned := [];
    for i := 0 to |states|
      invariant concerned == Concerned(rule, states[..i])
    {
      assert states[..i + 1][..i] == states[..i];
      if states[i].field in rule.required {
        concerned := concerned + [states[i]];
      }
    }
    assert states[..|states|] == states;
  }

  method AssessObligation(o: Obligation, states: seq<State>, findings: seq<Finding>) returns (r: Result)
    ensures r.applicable <==> o.concerns && (Automatic(o) ==> o.supported)
    ensures r.verdict == VerdictOf(o, states, findings)
    ensures r.verdict == Some(Unknown) && !AnyUnknown(findings, o.rule.id) ==>
              r.reason == (if Concerned(o.rule, states) == [] then Some(MissingEvidence)
                           else if |Concerned(o.rule, states)| > 1 then Some(AmbiguousScope)
                           else Judged(o, Concerned(o.rule, states)[0]).1)
    ensures r.verdict == Some(Unknown) ==> r.reason.Some?
    ensures r.verdict.Some? && AnyUnknown(findings, o.rule.id) ==>
              exists f :: f in findings && IsUnknownOf(f, o.rule.id)
                && r.reason == if f.reason.Some? then f.reason else Some(Other("unknown_semantics"))
  {
    var applicable := o.concerns;
    if applicable && Automatic(o) && !o.supported {
      applicable := false;
    }
    if !applicable || !Automatic(o) {
      return Result(applicable, None, None);
    }
    var concerned := SelectConcerned(o.rule, states);
    var finding := FirstUnknown(findings, o.rule.id);
    if finding.Some? {
      var reason := finding.value.reason;
      r := Result(true, Some(Unknown), if reason.Some? then reason else Some(Other("unknown_semantics")));
    } else if concerned == [] {
      r := Result(true, Some(Unknown), Some(MissingEvidence));
    } else if |concerned| != 1 {
      r := Result(true, Some(Unknown), Some(AmbiguousScope));
    } else {
      var state := concerned[0];
      if state.status != Resolved {
        r := Result(true, Some(Unknown), Some(if state.reason.Some? then state.reason.value else ConflictingEvidence));
      } else {
        var holds := o.meets(state.value);
        if holds.None? {
          r := Result(true, Some(Unknown), Some(Other("assessment_evaluation_error")));
        } else {
          r := Result(true, Some(if holds.value then Pass else Fail), None);
        }
      }
    }
  }

  lemma {:induction false} ConcernedMember(rule: Rule, states: seq<State>, s: State)
    ensures s in Concerned(rule, states) <==> s in states && s.field in rule.required
  {
    if states != [] {
      ConcernedMember(rule, states[..|states| - 1], s);
      assert states == states[..|states| - 1] + [states[|states| - 1]];
    }
  }

  /** One state and no other, one time, is over a field of the rule. */
  ghost predicate OnlyOne(rule: Rule, states: seq<State>, s: State) {
    Concerned(rule, states) == [s]
  }

  /** A pass or a failure is claimed only on exactly one resolved state and with no UNKNOWN finding of the rule. */
  lemma DecidedIff(o: Obligation, states: seq<State>, findings: seq<Finding>)
    ensures VerdictOf(o, states, findings) in {Some(Pass), Some(Fail)} <==>
              && o.concerns && o.supported && Automatic(o) && !AnyUnknown(findings, o.rule.id)
              && exists s :: OnlyOne(o.rule, states, s) && s.status == Resolved && o.meets(s.value).Some?
  {
    var concerned := Concerned(o.rule, states);
    if |concerned| == 1 {
      assert concerned == [concerned[0]];
      assert OnlyOne(o.rule, states, concerned[0]);
    }
  }

  // ---------------------------------------------------------------- the cases of an obligation

  /** The state at this place, and no other, is over a field of the rule. */
  ghost predicate Sole(rule: Rule, states: seq<State>, i: nat) {
    && i < |states| && states[i].field in rule.required
    && forall j :: 0 <= j < |states| && j != i ==> states[j].field !in rule.required
  }

  lemma {:induction false} NoneOver(rule: Rule, states: seq<State>)
    ensures Concerned(rule, states) == [] <==> forall j :: 0 <= j < |states| ==> states[j].field !in rule.required
  {
    if states != [] {
      NoneOver(rule, states[..|states| - 1]);
    }
  }

  lemma {:induction false} SoleIsConcerned(rule: Rule, states: seq<State>, i: nat)
    requires Sole(rule, states, i)
    ensures Concerned(rule, states) == [states[i]]
  {
    var n := |states| - 1;
    if i == n {
      NoneOver(rule, states[..n]);
    } else {
      assert Sole(rule, states[..n], i);
      SoleIsConcerned(rule, states[..n], i);
      assert states[n].field !in rule.required;
    }
  }

  lemma {:induction false} ConcernedIsSole(rule: Rule, states: seq<State>) returns (i: nat)
    requires |Concerned(rule, states)| == 1
    ensures Sole(rule, states, i) && Concerned(rule, states) == [states[i]]
  {
    var n := |states| - 1;
    if states[n].field in rule.required {
      i := n;
      NoneOver(rule, states[..n]);
    } else {
      i := ConcernedIsSole(rule, states[..n]);
      assert forall j :: 0 <= j < n ==> states[..n][j] == states[j];
    }
  }

  /** Some finding of the obligation's rule is UNKNOWN. */
  ghost predicate LeftOpen(o: Obligation, findings: seq<Finding>) {
    exists f :: f in findings && f.rule == o.rule.id && f.verdict == Unknown
  }

  /** Exactly one state is over the rule's fields, it is resolved, and the condition comes to this. */
  ghost predicate ComesTo(o: Obligation, states: seq<State>, to: Option<bool>) {
    exists i: nat :: Sole(o.rule, states, i) && states[i].status == Resolved && o.meets(states[i].value) == to
  }

  /** The obligation is judged by the program: implemented, automatic, and about something this profile shows. */
  predicate Judges(o: Obligation) {
    && o.concerns && o.supported
    && match o.implementation case Implemented => o.automatic case Manual => false case Unimplemented => false
  }

  /** Every verdict of an obligation by its cause; one that is not implemented or not automatic has none. */
  lemma ObligationVerdicts(o: Obligation, states: seq<State>, findings: seq<Finding>)
    ensures VerdictOf(o, states, findings).Some? <==> Judges(o)
    ensures VerdictOf(o, states, findings) == Some(Pass) <==>
              Judges(o) && !LeftOpen(o, findings) && ComesTo(o, states, Some(true))
    ensures VerdictOf(o, states, findings) == Some(Fail) <==>
              Judges(o) && !LeftOpen(o, findings) && ComesTo(o, states, Some(false))
    ensures VerdictOf(o, states, findings) == Some(Unknown) <==>
              && Judges(o)
              && (LeftOpen(o, findings) || (!ComesTo(o, states, Some(true)) && !ComesTo(o, states, Some(false))))
  {
    hide Sole, Concerned;
    if LeftOpen(o, findings) {
      var f :| f in findings && f.rule == o.rule.id && f.verdict == Unknown;
      var i :| 0 <= i < |findings| && findings[i] == f;
      assert IsUnknownOf(findings[i], o.rule.id);
    }
    forall i: nat | Sole(o.rule, states, i) ensures i < |states| && Concerned(o.rule, states) == [states[i]] {
      SoleIsConcerned(o.rule, states, i);
      SoleInRange(o.rule, states, i);
    }
    if |Concerned(o.rule, states)| == 1 {
      var i := ConcernedIsSole(o.rule, states);
    }
  }

  lemma SoleInRange(rule: Rule, states: seq<State>, i: nat)
    requires Sole(rule, states, i)
    ensures i < |states|
  {
  }

  // ---------------------------------------------------------------- obligations and unresolved blocks

  lemma FindingsNameTheirRule(
    c: Context, pack: RulePack, rule: Rule, states: seq<State>, blocks: seq<Block>, f: Finding)
    requires rule.required != [] && f in RuleFindings(c, pack, rule, states, blocks)
    ensures f.rule == rule.id
  {
    hide RuleFindings, Blocked, StatesOf;
    var s := OriginOf(c, pack, rule, states, blocks, f);
  }

  /** A finding of this rule is UNKNOWN: for want of a profile, of states or of a resolved state, or for a block. */
  ghost predicate RuleUnsettled(c: Context, pack: RulePack, rule: Rule, states: seq<State>, blocks: seq<Block>) {
    match ApplicabilityOf(c, pack)
    case Inapplicable => false
    case Unsettled => true
    case Applicable =>
      || rule.required == [] || (forall s :: s in states ==> s.field != rule.required[0])
      || (exists s :: s in states && s.field == rule.required[0] && s.status != Resolved)
      || (Blocked(pack, blocks, rule.id) && exists s :: s in states && Holds(c, rule, s))
  }

  lemma UnknownStateFinding(c: Context, rule: Rule, s: State, blocked: bool)
    requires rule.required != [] && s.field == rule.required[0]
    ensures StateFinding(c, rule, s, blocked).verdict == Unknown <==>
        s.status != Resolved || (blocked && Holds(c, rule, s))
  {
  }

  lemma RuleUnsettledIff(c: Context, pack: RulePack, rule: Rule, states: seq<State>, blocks: seq<Block>)
    requires rule.required != []
    ensures RuleUnsettled(c, pack, rule, states, blocks) <==>
              exists f :: f in RuleFindings(c, pack, rule, states, blocks) && f.verdict == Unknown
  {
    var found := RuleFindings(c, pack, rule, states, blocks);
    var concerned := StatesOf(states, rule.required[0]);
    hide Blocked, StatesOf, StateFinding, Holds;
    var blocked := Blocked(pack, blocks, rule.id);
    if ApplicabilityOf(c, pack) == Applicable {
      NoneConcerned(rule, states);
      if concerned != [] {
        forall s | s in states && s.field == rule.required[0]
          ensures StateFinding(c, rule, s, blocked) in found
          ensures StateFinding(c, rule, s, blocked).verdict == Unknown <==>
              s.status != Resolved || (blocked && Holds(c, rule, s))
        {
          StatesOfMember(states, rule.required[0], s);
          var i :| 0 <= i < |concerned| && concerned[i] == s;
          assert found[i] == StateFinding(c, rule, s, blocked);
          UnknownStateFinding(c, rule, s, blocked);
        }
        if f :| f in found && f.verdict == Unknown {
          var i :| 0 <= i < |found| && found[i] == f;
          StatesOfMember(states, rule.required[0], concerned[i]);
          assert concerned[i] in states;
        }
        if blocked {
          if s :| s in states && Holds(c, rule, s) {
            HoldsOverItsField(c, rule, s);
          }
        }
      } else {
        assert found[0].verdict == Unknown;
      }
    } else {
      assert found[0] in found;
    }
  }

  lemma HoldsOverItsField(c: Context, rule: Rule, s: State)
    requires Holds(c, rule, s)
    ensures rule.required != [] && s.field == rule.required[0]
  {
  }

  lemma NoneConcerned(rule: Rule, states: seq<State>)
    requires rule.required != []
    ensures StatesOf(states, rule.required[0]) == [] <==> forall s :: s in states ==> s.field != rule.required[0]
  {
    hide StatesOf;
    var concerned := StatesOf(states, rule.required[0]);
    if concerned != [] {
      StatesOfMember(states, rule.required[0], concerned[0]);
    }
    forall s ensures s in concerned <==> s in states && s.field == rule.required[0] {
      StatesOfMember(states, rule.required[0], s);
    }
  }

  /** Some rule of the pack with this identifier has an UNKNOWN finding. */
  ghost predicate IdUnsettled(c: Context, pack: RulePack, id: RuleId, states: seq<State>, blocks: seq<Block>) {
    exists i :: 0 <= i < |pack.rules| && pack.rules[i].id == id && RuleUnsettled(c, pack, pack.rules[i], states, blocks)
  }

  /** When an audit has an UNKNOWN finding under an identifier, in terms of pack, states and blocks alone. */
  lemma AnyUnknownIff(c: Context, pack: RulePack, id: RuleId, states: seq<State>, blocks: seq<Block>)
    requires Evaluable(pack.rules)
    ensures AnyUnknown(Findings(c, pack, pack.rules, states, blocks), id) <==> IdUnsettled(c, pack, id, states, blocks)
  {
    hide Findings, RuleFindings, RuleUnsettled;
    var all := Findings(c, pack, pack.rules, states, blocks);
    if IdUnsettled(c, pack, id, states, blocks) {
      var i :| 0 <= i < |pack.rules| && pack.rules[i].id == id && RuleUnsettled(c, pack, pack.rules[i], states, blocks);
      RuleUnsettledIff(c, pack, pack.rules[i], states, blocks);
      var f :| f in RuleFindings(c, pack, pack.rules[i], states, blocks) && f.verdict == Unknown;
      FindingsMember(c, pack, pack.rules, states, blocks, f);
      FindingsNameTheirRule(c, pack, pack.rules[i], states, blocks, f);
      var j :| 0 <= j < |all| && all[j] == f;
      assert IsUnknownOf(all[j], id);
    }
    if AnyUnknown(all, id) {
      var j :| 0 <= j < |all| && IsUnknownOf(all[j], id);
      FindingsMember(c, pack, pack.rules, states, blocks, all[j]);
      var i :| 0 <= i < |pack.rules| && all[j] in RuleFindings(c, pack, pack.rules[i], states, blocks);
      FindingsNameTheirRule(c, pack, pack.rules[i], states, blocks, all[j]);
      RuleUnsettledIff(c, pack, pack.rules[i], states, blocks);
    }
  }

  /**
   When an obligation passes, over all cases: the pack may be the profile's own or another's, settled or not, and
   the obligation's rule may be a baseline rule, an administrator's under a baseline identifier, or neither.
   */
  lemma ObligationPassesIff(c: Context, pack: RulePack, o: Obligation, states: seq<State>, blocks: seq<Block>)
    requires Evaluable(pack.rules)
    ensures VerdictOf(o, states, Findings(c, pack, pack.rules, states, blocks)) == Some(Pass) <==>
              && o.concerns && o.supported && Automatic(o)
              && (exists s :: OnlyOne(o.rule, states, s) && s.status == Resolved && o.meets(s.value) == Some(true))
              && !IdUnsettled(c, pack, o.rule.id, states, blocks)
  {
    hide Findings, IdUnsettled;
    AnyUnknownIff(c, pack, o.rule.id, states, blocks);
    var concerned := Concerned(o.rule, states);
    if |concerned| == 1 {
      assert concerned == [concerned[0]];
      assert OnlyOne(o.rule, states, concerned[0]);
    }
  }

  /** A pack made for another profile settles nothing: no rule of it has an UNKNOWN finding, so no block has a say. */
  lemma OtherProfilesPackStopsNothing(c: Context, pack: RulePack, o: Obligation, states: seq<State>, blocks: seq<Block>)
    requires Evaluable(pack.rules) && ApplicabilityOf(c, pack) == Inapplicable
    ensures forall f :: f in Findings(c, pack, pack.rules, states, blocks) ==> f.verdict == NotApplicable
    ensures VerdictOf(o, states, Findings(c, pack, pack.rules, states, blocks)) == Some(Pass) <==>
              && o.concerns && o.supported && Automatic(o)
              && exists s :: OnlyOne(o.rule, states, s) && s.status == Resolved && o.meets(s.value) == Some(true)
  {
    ObligationPassesIff(c, pack, o, states, blocks);
    hide Findings, Automatic, OnlyOne;
    forall f | f in Findings(c, pack, pack.rules, states, blocks) ensures f.verdict == NotApplicable {
      FindingsMember(c, pack, pack.rules, states, blocks, f);
    }
  }

  lemma OnlyStateIsConcerned(rule: Rule, states: seq<State>, s: State)
    requires |rule.required| == 1 && OnlyOne(rule, states, s)
    ensures forall t :: t in states && t.field == rule.required[0] <==> t == s
  {
    hide Concerned;
    forall t ensures t in states && t.field == rule.required[0] <==> t == s {
      ConcernedMember(rule, states, t);
      assert t.field in rule.required <==> t.field == rule.required[0];
      assert t in [s] <==> t == s;
    }
  }

  /** For one resolved state, the rule has an UNKNOWN finding exactly when it would pass but is blocked. */
  lemma UnknownByBlockIff(c: Context, pack: RulePack, states: seq<State>, blocks: seq<Block>, i: nat, s: State)
    requires Evaluable(pack.rules) && DistinctRules(pack.rules) && i < |pack.rules| && |pack.rules[i].required| == 1
    requires ApplicabilityOf(c, pack) == Applicable && OnlyOne(pack.rules[i], states, s) && s.status == Resolved
    ensures AnyUnknown(Findings(c, pack, pack.rules, states, blocks), pack.rules[i].id)
       <==> Holds(c, pack.rules[i], s) && Blocked(pack, blocks, pack.rules[i].id)
  {
    hide Findings, Blocked, Holds;
    var rule := pack.rules[i];
    AnyUnknownIff(c, pack, rule.id, states, blocks);
    OnlyStateIsConcerned(rule, states, s);
    assert IdUnsettled(c, pack, rule.id, states, blocks) <==> RuleUnsettled(c, pack, rule, states, blocks);
    forall t | Holds(c, rule, t) ensures t.field == rule.required[0] {
      HoldsOverItsField(c, rule, t);
    }
  }

  /**
   What a block on the rule does to an obligation over it.  It keeps the obligation from passing exactly when the
   rule itself, under the organization's own policy, would have passed: where the rule fails, lacks its policy
   parameter or cannot be evaluated, its finding is not UNKNOWN, and an obligation with other parameters passes
   in the face of configuration nothing explains.
   */
  lemma BlockedObligationPassesIff(
    c: Context, pack: RulePack, o: Obligation, states: seq<State>, blocks: seq<Block>, i: nat, s: State)
    requires Evaluable(pack.rules) && DistinctRules(pack.rules) && i < |pack.rules| && |pack.rules[i].required| == 1
    requires ApplicabilityOf(c, pack) == Applicable && OnlyOne(pack.rules[i], states, s) && s.status == Resolved
    requires o.rule == pack.rules[i] && o.concerns && o.supported && Automatic(o) && o.meets(s.value) == Some(true)
    requires Blocked(pack, blocks, o.rule.id)
    ensures VerdictOf(o, states, Findings(c, pack, pack.rules, states, blocks)) == Some(Pass) <==> !Holds(c, o.rule, s)
  {
    hide Findings, Blocked, Holds;
    UnknownByBlockIff(c, pack, states, blocks, i, s);
  }

  /** An administrator's rule has no findings of its own, so no block reaches an obligation over it. */
  lemma ForeignRuleIsNeverStopped(
    c: Context, pack: RulePack, o: Obligation, states: seq<State>, blocks: seq<Block>, s: State)
    requires Evaluable(pack.rules) && forall i :: 0 <= i < |pack.rules| ==> pack.rules[i].id != o.rule.id
    requires OnlyOne(o.rule, states, s) && s.status == Resolved
    requires o.concerns && o.supported && Automatic(o) && o.meets(s.value) == Some(true)
    ensures VerdictOf(o, states, Findings(c, pack, pack.rules, states, blocks)) == Some(Pass)
  {
    hide Findings, RuleUnsettled;
    ObligationPassesIff(c, pack, o, states, blocks);
  }
}
