/**
 What an approval and a publication go by: the surroundings in which the passed run was executed, and those of the
 call (backend/app/training/service.py:158-172, 203-236, 239-270, 365-399).

 A history is looked at run by run: a call in its surroundings, or anything that touches no run, as the steps of a
 publication that overlaps others.
 */
module ApprovalEvidence {
  import opened Common
  import opened MappingLifecycle
  import opened Text
  import C = ConcurrentPublication

  ghost predicate RunTrace(states: seq<Store>, events: seq<Option<Event>>) {
    && |states| == |events| + 1
    && forall i :: 0 <= i < |events| ==> Moment(states[i], events[i], states[i + 1])
  }

  ghost predicate Moment(s: Store, e: Option<Event>, s': Store) {
    if e.Some? then Step(s, e.value.call, e.value.env, s') else s'.runs == s.runs
  }

  function Calls(events: seq<Event>): seq<Option<Event>> {
    seq(|events|, i requires 0 <= i < |events| => Some(events[i]))
  }

  lemma HistoryIsTrace(states: seq<Store>, events: seq<Event>)
    requires History(states, events)
    ensures RunTrace(states, Calls(events))
  {
    hide Step;
  }

  function StoresOf(desks: seq<C.Desk>): seq<Store> {
    seq(|desks|, i requires 0 <= i < |desks| => desks[i].store)
  }

  /** The calls of a history with overlapping publications that neither publish nor wait. */
  function CallsOf(desks: seq<C.Desk>, events: seq<C.Event>): seq<Option<Event>>
    requires |desks| >= |events|
  {
    seq(|events|, i requires 0 <= i < |events| =>
      if events[i].Serial? && !events[i].call.Publish? && !C.Waits(desks[i], events[i].call)
      then Some(Event(events[i].call, events[i].env)) else None)
  }

  lemma OverlappingIsTrace(desks: seq<C.Desk>, events: seq<C.Event>)
    requires C.Concurrent(desks, events)
    ensures RunTrace(StoresOf(desks), CallsOf(desks, events))
  {
    hide Step, C.ReadsPrior, C.CanPrepare, C.Waits, NextPackVersion, Superseding;
    var states, calls := StoresOf(desks), CallsOf(desks, events);
    forall i | 0 <= i < |calls| ensures Moment(states[i], calls[i], states[i + 1]) {
      assert C.Next(desks[i], events[i], desks[i + 1]);
    }
  }

  // ---------------------------------------------------------------- what a finished run went by

  /** No run has finished yet. */
  predicate Unrun(s: Store) {
    forall r :: r in s.runs ==> s.runs[r].status == Pending && s.runs[r].results == None
  }

  /** This moment finished the run. */
  ghost predicate ExecutedAt(states: seq<Store>, events: seq<Option<Event>>, m: nat, r: RunId)
    requires |states| == |events| + 1
  {
    && m < |events| && events[m].Some? && events[m].value.call.Execute? && events[m].value.call.run == r
    && r in states[m].runs && states[m].runs[r].status == Pending
    && r in states[m + 1].runs && states[m + 1].runs[r].status != Pending
  }

  predicate Uses(run: ValidationRun, a: ArtifactId) {
    run.evidence == Some(a) || run.negative == Some(a)
  }

  /** The results name the definition, the manifests in force and the digests of the artifacts of the run. */
  ghost predicate WentBy(results: Results, definition: Definition, run: ValidationRun, env: Env) {
    && results.definition == definition
    && (forall p :: p in results.profiles <==> p in definition.profiles)
    && (forall p :: p in results.profiles ==>
          results.profiles[p] == if p in env.manifests then Some(env.manifests[p]) else None)
    && (forall a :: Uses(run, a) ==> a in env.digests)
    && (forall e :: e in results.evidence <==> Uses(run, e.0) && e.0 in env.digests && e.1 == env.digests[e.0])
  }

  lemma RunStays(s: Store, e: Option<Event>, s': Store, r: RunId)
    requires Moment(s, e, s') && r in s.runs
    ensures r in s'.runs && (s.runs[r].status != Pending ==> s'.runs[r] == s.runs[r])
  {
    hide Step;
    if e.Some? {
      FinishedRunsStay(s, e.value.call, e.value.env, s', r);
    }
  }

  lemma {:induction false} RunsStay(states: seq<Store>, events: seq<Option<Event>>, i: nat, j: nat, r: RunId)
    requires RunTrace(states, events) && i <= j <= |events| && r in states[i].runs
    ensures r in states[j].runs && (states[i].runs[r].status != Pending ==> states[j].runs[r] == states[i].runs[r])
    decreases j - i
  {
    hide Moment;
    if i < j {
      RunsStay(states, events, i, j - 1, r);
      RunStays(states[j - 1], events[j - 1], states[j], r);
    }
  }

  /** A run finishes only by its execution, and its results say what it went by. */
  lemma RunFinishes(s: Store, call: Call, env: Env, s': Store, r: RunId)
    requires Step(s, call, env, s') && r in s'.runs && s'.runs[r].status != Pending
    requires r in s.runs ==> s.runs[r].status == Pending
    ensures call.Execute? && call.run == r && r in s.runs && s.runs[r].mapping == call.id && call.id in s.mappings
    ensures s'.runs[r].mapping == call.id && s'.runs[r].results.Some?
    ensures WentBy(s'.runs[r].results.value, s.mappings[call.id].definition, s'.runs[r], env)
  {
    hide WentBy, CurrentlyValidated, NextPackVersion, Superseding, Evaluated, Usable;
    assert call.Execute? && call.run == r;
    ResultsWentBy(s, call.id, s.runs[r], call.cases, env);
    assert s'.runs[r].evidence == s.runs[r].evidence && s'.runs[r].negative == s.runs[r].negative;
    var results := Evaluated(s, call.id, s.runs[r], call.cases, env);
    SameUse(results, s.mappings[call.id].definition, s.runs[r], s'.runs[r], env);
  }

  lemma SameUse(results: Results, definition: Definition, run: ValidationRun, run': ValidationRun, env: Env)
    requires WentBy(results, definition, run, env) && run'.evidence == run.evidence && run'.negative == run.negative
    ensures WentBy(results, definition, run', env)
  {
    assert forall a :: Uses(run, a) <==> Uses(run', a);
  }

  lemma ResultsWentBy(s: Store, id: VersionId, run: ValidationRun, cases: bool, env: Env)
    requires id in s.mappings && Usable(run.evidence, run.negative, env)
    ensures WentBy(Evaluated(s, id, run, cases, env), s.mappings[id].definition, run, env)
  {
    hide Collision;
    var artifacts := Given(run.evidence) + Given(run.negative);
    var results := Evaluated(s, id, run, cases, env);
    forall a ensures Uses(run, a) <==> a in artifacts {
    }
    forall e ensures e in results.evidence <==> Uses(run, e.0) && e.0 in env.digests && e.1 == env.digests[e.0] {
      if e in results.evidence {
        var i :| 0 <= i < |artifacts| && results.evidence[i] == e;
        assert artifacts[i] in artifacts;
      }
      if Uses(run, e.0) {
        var i :| 0 <= i < |artifacts| && artifacts[i] == e.0;
        assert results.evidence[i] == (e.0, env.digests[e.0]);
      }
    }
  }

  /** Every finished run was executed at one moment of the history, on the definition its mapping had then. */
  lemma {:induction false} FinishedRunWasExecuted(
    states: seq<Store>, events: seq<Option<Event>>, n: nat, r: RunId) returns (m: nat)
    requires RunTrace(states, events) && Unrun(states[0]) && n <= |events|
    requires r in states[n].runs && states[n].runs[r].status != Pending
    ensures m < n && ExecutedAt(states, events, m, r)
    ensures states[n].runs[r].mapping in states[m].mappings && states[n].runs[r].results.Some?
    ensures WentBy(states[n].runs[r].results.value, states[m].mappings[states[n].runs[r].mapping].definition,
                   states[n].runs[r], events[m].value.env)
  {
    hide WentBy, Step;
    var s, e := states[n - 1], events[n - 1];
    assert Moment(s, e, states[n]);
    if r in s.runs && s.runs[r].status != Pending {
      m := FinishedRunWasExecuted(states, events, n - 1, r);
      RunStays(s, e, states[n], r);
    } else {
      m := n - 1;
      RunFinishes(s, e.value.call, e.value.env, states[n], r);
    }
  }

  lemma ExecutedOnce(states: seq<Store>, events: seq<Option<Event>>, m: nat, m': nat, r: RunId)
    requires RunTrace(states, events) && ExecutedAt(states, events, m, r) && ExecutedAt(states, events, m', r)
    ensures m == m'
  {
    hide Moment;
    if m < m' {
      RunsStay(states, events, m + 1, m', r);
    } else if m' < m {
      RunsStay(states, events, m' + 1, m, r);
    }
  }

  // ---------------------------------------------------------------- what has not changed since

  /** The profiles have the manifests they had, or still have none. */
  predicate SameManifests(profiles: seq<ProfileId>, past: Env, now: Env) {
    forall p :: p in profiles ==>
      && (p in past.manifests <==> p in now.manifests)
      && (p in past.manifests ==> past.manifests[p] == now.manifests[p])
  }

  /** The artifacts of the run are there, with the digests they had. */
  ghost predicate SameArtifacts(run: ValidationRun, past: Env, now: Env) {
    forall a :: Uses(run, a) ==> a in past.digests && a in now.digests && past.digests[a] == now.digests[a]
  }

  lemma CurrentIffSame(
    results: Results, was: Definition, definition: Definition, run: ValidationRun, past: Env, now: Env)
    requires WentBy(results, was, run, past)
    ensures Current(results, definition, now) <==>
              definition == was && SameManifests(definition.profiles, past, now) && SameArtifacts(run, past, now)
  {
    if definition == was && SameManifests(definition.profiles, past, now) {
      assert results.profiles == ManifestsOf(definition.profiles, now);
    }
    if Current(results, definition, now) {
      forall p | p in definition.profiles
        ensures p in past.manifests <==> p in now.manifests
        ensures p in past.manifests ==> past.manifests[p] == now.manifests[p]
      {
        assert results.profiles[p] == ManifestsOf(definition.profiles, now)[p];
      }
      forall a | Uses(run, a) ensures a in now.digests && past.digests[a] == now.digests[a] {
        assert (a, past.digests[a]) in results.evidence;
      }
    }
  }

  /** The run passed and no run of the mapping was requested after it. */
  ghost predicate LastPassed(s: Store, id: VersionId, r: RunId) {
    && r in s.runs && s.runs[r].mapping == id && s.runs[r].status == Passed
    && forall q :: q in s.runs && s.runs[q].mapping == id ==>
         s.runs[q].createdAt < s.runs[r].createdAt || (s.runs[q].createdAt == s.runs[r].createdAt && q <= r)
  }

  /** Definition, manifests and artifacts are what they were when the run was executed. */
  ghost predicate Unchanged(
    states: seq<Store>, events: seq<Option<Event>>, m: nat, n: nat, r: RunId, id: VersionId, env: Env)
    requires |states| == |events| + 1 && m < n <= |events| && ExecutedAt(states, events, m, r)
  {
    && id in states[m].mappings && id in states[n].mappings && r in states[n].runs
    && states[n].mappings[id].definition == states[m].mappings[id].definition
    && SameManifests(states[n].mappings[id].definition.profiles, events[m].value.env, env)
    && SameArtifacts(states[n].runs[r], events[m].value.env, env)
  }

  /** The last run of the mapping passed, and nothing it went by is different in these surroundings. */
  ghost predicate StillValid(states: seq<Store>, events: seq<Option<Event>>, n: nat, id: VersionId, env: Env)
    requires |states| == |events| + 1 && n <= |events|
  {
    exists m: nat, r: RunId ::
      && m < n && LastPassed(states[n], id, r) && ExecutedAt(states, events, m, r)
      && Unchanged(states, events, m, n, r, id, env)
  }

  lemma PassedIsLast(s: Store, id: VersionId, r: RunId)
    ensures LastPassed(s, id, r) && s.runs[r].results.Some? <==> PassedBy(s, id, r)
  {
  }

  /** Current validation, said of the moment of execution and of now. */
  lemma ValidIff(states: seq<Store>, events: seq<Option<Event>>, n: nat, id: VersionId, env: Env)
    requires RunTrace(states, events) && Unrun(states[0]) && n <= |events| && id in states[n].mappings
    ensures CurrentlyValidated(states[n], id, env) <==> StillValid(states, events, n, id, env)
  {
    hide WentBy, Current, SameManifests, SameArtifacts, Moment, LastPassed, NotNewer, ExecutedAt;
    forall r ensures PassedBy(states[n], id, r) ==> LastPassed(states[n], id, r) {
      PassedIsLast(states[n], id, r);
    }
    if CurrentlyValidated(states[n], id, env) {
      var r :| PassedBy(states[n], id, r)
               && Current(states[n].runs[r].results.value, states[n].mappings[id].definition, env);
      var m := Executed(states, events, n, id, r, env);
    }
    if StillValid(states, events, n, id, env) {
      var m: nat, r: RunId :|
        && m < n && LastPassed(states[n], id, r) && ExecutedAt(states, events, m, r)
        && Unchanged(states, events, m, n, r, id, env);
      var m' := Executed(states, events, n, id, r, env);
      ExecutedOnce(states, events, m, m', r);
      PassedIsLast(states[n], id, r);
    }
  }

  /** The moment that finished the last run decides whether its results are current. */
  lemma Executed(states: seq<Store>, events: seq<Option<Event>>, n: nat, id: VersionId, r: RunId, env: Env)
    returns (m: nat)
    requires RunTrace(states, events) && Unrun(states[0]) && n <= |events| && id in states[n].mappings
    requires LastPassed(states[n], id, r)
    ensures m < n && ExecutedAt(states, events, m, r) && r in states[n].runs && states[n].runs[r].results.Some?
    ensures Current(states[n].runs[r].results.value, states[n].mappings[id].definition, env)
       <==> Unchanged(states, events, m, n, r, id, env)
  {
    hide WentBy, Current, SameManifests, SameArtifacts, Moment;
    m := FinishedRunWasExecuted(states, events, n, r);
    CurrentIffSame(states[n].runs[r].results.value, states[m].mappings[id].definition,
                   states[n].mappings[id].definition, states[n].runs[r], events[m].value.env, env);
  }

  // ---------------------------------------------------------------- approval and publication

  /**
   Over every history: an approval goes through exactly when an administrator asks for it on a version under test whose
   last run passed, on the definition, the manifests and the artifacts there are now; otherwise nothing changes.
   */
  lemma ApprovedIff(states: seq<Store>, events: seq<Option<Event>>, n: nat, id: VersionId, user: User, env: Env)
    requires RunTrace(states, events) && Unrun(states[0]) && n < |events|
    requires events[n] == Some(Event(Approve(id, user), env))
    ensures var s, s' := states[n], states[n + 1];
            if user.admin && id in s.mappings && s.mappings[id].status == Testing
               && StillValid(states, events, n, id, env)
            then
              s' == s.(mappings := s.mappings[id := s.mappings[id].(status := Approved, approvedBy := Some(user.id))])
            else s' == s
  {
    hide StillValid, CurrentlyValidated;
    assert Moment(states[n], events[n], states[n + 1]);
    if id in states[n].mappings {
      ValidIff(states, events, n, id, env);
    }
  }

  /** A publication needs the same on the approved version, and profiles that are all in force. */
  lemma PublishedIff(
    states: seq<Store>, events: seq<Option<Event>>, n: nat, id: VersionId, user: User, now: real, env: Env)
    requires RunTrace(states, events) && Unrun(states[0]) && n < |events|
    requires events[n] == Some(Event(Publish(id, user, now), env))
    ensures var s, s' := states[n], states[n + 1];
            if user.admin && id in s.mappings && s.mappings[id].status == Approved && s.mappings[id].approvedBy.Some?
               && s.mappings[id].definition.profiles != []
               && (forall p :: p in s.mappings[id].definition.profiles ==> p in env.available)
               && StillValid(states, events, n, id, env)
            then id in s'.mappings && s'.mappings[id].status == Published && |s'.packs| == |s.packs| + 1
            else s' == s
  {
    hide StillValid, CurrentlyValidated, NextPackVersion;
    assert Moment(states[n], events[n], states[n + 1]);
    if id in states[n].mappings {
      ValidIff(states, events, n, id, env);
    }
  }

  /** Where publications overlap, one is begun exactly under the same conditions, when neither row nor pack is held. */
  lemma PreparedIff(desks: seq<C.Desk>, events: seq<C.Event>, n: nat, id: VersionId, user: User, env: Env)
    requires C.Concurrent(desks, events) && Unrun(desks[0].store) && n < |events|
    requires events[n] == C.Prepare(id, user, env) && id !in desks[n].pending
    ensures desks[n + 1].store == desks[n].store
    ensures var s := desks[n].store;
            id in desks[n + 1].pending <==>
              && user.admin && id in s.mappings && s.mappings[id].status == Approved && s.mappings[id].approvedBy.Some?
              && s.mappings[id].definition.profiles != []
              && (forall p :: p in s.mappings[id].definition.profiles ==> p in env.available)
              && StillValid(StoresOf(desks), CallsOf(desks, events), n, id, env)
              && forall p :: p in desks[n].pending && p in s.mappings ==>
                   multiset(s.mappings[p].definition.profiles) != multiset(s.mappings[id].definition.profiles)
  {
    hide StillValid, CurrentlyValidated, C.ReadsPrior;
    OverlappingIsTrace(desks, events);
    assert C.Next(desks[n], events[n], desks[n + 1]);
    if id in desks[n].store.mappings {
      ValidIff(StoresOf(desks), CallsOf(desks, events), n, id, env);
    }
  }

  /**
   One changed or newly missing manifest, one absent or changed artifact, or another definition is enough: approval and
   publication are refused and change nothing.
   */
  lemma ChangedEvidenceRefuses(
    states: seq<Store>, events: seq<Option<Event>>, m: nat, n: nat, r: RunId, id: VersionId)
    requires RunTrace(states, events) && Unrun(states[0]) && m < n < |events| && events[n].Some?
    requires events[n].value.call.Approve? || events[n].value.call.Publish?
    requires events[n].value.call.id == id && id in states[m].mappings && id in states[n].mappings
    requires ExecutedAt(states, events, m, r) && LastPassed(states[n], id, r)
    requires var past, env := events[m].value.env, events[n].value.env;
             || states[n].mappings[id].definition != states[m].mappings[id].definition
             || (exists p :: p in states[n].mappings[id].definition.profiles && p in past.manifests
                    && (p in env.manifests ==> env.manifests[p] != past.manifests[p]))
             || (exists p :: p in states[n].mappings[id].definition.profiles && p !in past.manifests
                    && p in env.manifests)
             || (exists a :: Uses(states[n].runs[r], a) && a !in env.digests)
             || (exists a :: Uses(states[n].runs[r], a) && a in past.digests && a in env.digests
                    && env.digests[a] != past.digests[a])
    ensures states[n + 1] == states[n]
  {
    var call, env := events[n].value.call, events[n].value.env;
    assert !Unchanged(states, events, m, n, r, id, env);
    hide Unchanged, Moment, ExecutedAt, LastPassed;
    if StillValid(states, events, n, id, env) {
      var m': nat, r': RunId :|
        && m' < n && LastPassed(states[n], id, r') && ExecutedAt(states, events, m', r')
        && Unchanged(states, events, m', n, r', id, env);
      OneLast(states[n], id, r, r');
      ExecutedOnce(states, events, m, m', r);
      assert false;
    }
    if call.Approve? {
      ApprovedIff(states, events, n, id, call.user, env);
    } else {
      PublishedIff(states, events, n, id, call.user, call.now, env);
    }
  }

  lemma OneLast(s: Store, id: VersionId, r: RunId, r': RunId)
    requires LastPassed(s, id, r) && LastPassed(s, id, r')
    ensures r == r'
  {
  }

  // ---------------------------------------------------------------- the other calls

  /**
   A version comes to be exactly under a key that is not blank and not over 255 characters, and after a predecessor that
   is there and whose next number is free, or as the first of a new lineage; always as a draft nobody has approved.
   */
  lemma CreatedIff(s: Store, call: Call, env: Env, s': Store)
    requires Step(s, call, env, s') && call.Create? && call.id !in s.mappings
    ensures call.id in s'.mappings <==>
              && Strip(call.key) != "" && |call.key| <= 255
              && match call.previous
                 case None => forall q :: q in s.mappings ==> s.mappings[q].mappingId != call.lineage
                 case Some(p) =>
                   && p in s.mappings
                   && forall q :: q in s.mappings && s.mappings[q].mappingId == s.mappings[p].mappingId ==>
                        s.mappings[q].version != s.mappings[p].version + 1
    ensures call.id in s'.mappings ==>
              var m := s'.mappings[call.id];
              && m.status == Draft && m.definition == call.definition && m.previous == call.previous
              && m.results == None && m.approvedBy == None && m.publishedAt == None && m.packVersion == None
              && s' == s.(mappings := s.mappings[call.id := m])
    ensures call.id !in s'.mappings ==> s' == s
  {
    hide Strip;
  }

  /** An artifact may be used as evidence. */
  predicate Offered(a: Option<ArtifactId>, env: Env) {
    a.None? || (a.value in env.ready && a.value in env.digests)
  }

  /** A run is requested exactly for a draft or version under test, on distinct, usable artifacts, two if structured. */
  lemma RequestedIff(s: Store, call: Call, env: Env, s': Store)
    requires Step(s, call, env, s') && call.Request? && call.run !in s.runs
    ensures call.run in s'.runs <==>
              && call.id in s.mappings && (s.mappings[call.id].status == Draft || s.mappings[call.id].status == Testing)
              && (s.mappings[call.id].definition.structured ==> call.evidence.Some? && call.negative.Some?)
              && (call.evidence.Some? && call.negative.Some? ==> call.evidence.value != call.negative.value)
              && Offered(call.evidence, env) && Offered(call.negative, env)
    ensures call.run !in s'.runs ==> s' == s
  {
    assert forall a :: a in Given(call.evidence) + Given(call.negative) <==>
        call.evidence == Some(a) || call.negative == Some(a);
  }

  /** Edits and rejections go through exactly on suggestions, drafts and versions under test. */
  lemma EditedIff(s: Store, call: Call, env: Env, s': Store)
    requires Step(s, call, env, s') && (call.Update? || (call.Reject? && call.user.admin)) && call.id in s.mappings
    ensures call.id in s'.mappings
    ensures var before := s.mappings[call.id].status;
            if before == Suggested || before == Draft || before == Testing
            then s'.mappings[call.id].status == if call.Update? then Draft else Rejected
            else s' == s
  {
  }

  /** A pending run on usable evidence finishes, and passes exactly when its cases do and it has no published twin. */
  lemma FinishedIff(s: Store, call: Call, env: Env, s': Store)
    requires Step(s, call, env, s') && call.Execute? && call.id in s.mappings && call.run in s.runs
    requires s.runs[call.run].mapping == call.id && s.runs[call.run].status == Pending
    requires Offered(s.runs[call.run].evidence, env) && Offered(s.runs[call.run].negative, env)
    ensures call.run in s'.runs
    ensures s'.runs[call.run].status == Passed || s'.runs[call.run].status == Failed
    ensures s'.runs[call.run].status == Passed <==>
              call.cases && forall q :: q in s.mappings && s.mappings[q].status == Published ==>
                || s.mappings[q].mappingId == s.mappings[call.id].mappingId
                || s.mappings[q].definition.target != s.mappings[call.id].definition.target
                || s.mappings[q].definition.structuralMatch != s.mappings[call.id].definition.structuralMatch
  {
    var run := s.runs[call.run];
    assert forall a :: a in Given(run.evidence) + Given(run.negative) <==> Uses(run, a);
  }
}
