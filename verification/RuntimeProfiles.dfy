/**
 Audits of a runtime profile: interpreted under the profile's own mappings, but judged under a generic rule pack made
 for another profile (backend/app/audit/pipeline.py:178-188, backend/app/compliance/applicability.py).
 */
module RuntimeProfiles {
  import opened Common
  import opened Verdicts
  import opened UnresolvedEvidence
  import opened Compliance
  import opened Assessment

  /**
   Whatever is unresolved, no finding of such an audit passes or is UNKNOWN, and an obligation passes exactly when
   its own condition holds of the one resolved state it concerns.
   */
  lemma RuntimeVerdicts(
    c: Context, profile: Profile, rp: RulePack, o: Obligation, states: seq<State>, blocks: seq<Block>)
    requires c.resolved && c.profile == Some(profile.id) && rp.profile != profile.id && Evaluable(rp.rules)
    ensures forall f :: f in Findings(c, rp, rp.rules, states, blocks) ==> f.verdict == NotApplicable
    ensures VerdictOf(o, states, Findings(c, rp, rp.rules, states, blocks)) == Some(Pass) <==>
              && o.concerns && o.supported && Automatic(o)
              && exists s :: OnlyOne(o.rule, states, s) && s.status == Resolved && o.meets(s.value) == Some(true)
  {
    OtherProfilesPackStopsNothing(c, rp, o, states, blocks);
  }
}
