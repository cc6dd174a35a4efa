/**
 Audits over sealed snapshots: creation, submission, the processing pipeline and re-evaluation
 (backend/app/audit/service.py, backend/app/audit/pipeline.py, backend/app/reevaluation/service.py,
 backend/app/assessment_packs/service.py:152-202).

 The pipeline of an audit is a program of separate transactions, and one of them reads the pinned versions
 without a lock and writes them back whole.  A run of the program keeps what it knows in `Pc` between its
 transactions, and any other call may come in between.  A worker gets a run by claiming the audit's job, which
 the lease protocol hands out at most once (JobLease.ClaimedAtMostOnce).
 */
module Audits {
  import opened Common
  import opened Verdicts
  import S = Snapshots

  type AuditId = nat

  type JobId = nat

  type ProfileId = string

  type PackId = nat

  type RulePackId = nat

  type PolicyId = nat

  type AssessmentId = nat

  datatype Status = Draft | Queued | Processing | Completed | CompletedWithUnknowns | CompletedWithErrors | Failed

  /** `Audit.version_refs`: the versions an audit is pinned to. */
  datatype Refs = Refs(
    profile: Option<ProfileId>, pack: Option<PackId>, rulePacks: Option<seq<RulePackId>>, policy: Option<PolicyId>,
    requested: Option<AssessmentId>, assessments: Option<seq<AssessmentId>>)

  /** `Audit.profile_resolution`: the profile version found, and whether the resolution is settled. */
  datatype Resolution = Resolution(profile: Option<ProfileId>, resolved: bool)

  datatype Audit = Audit(
    snapshot: S.SnapshotId, device: S.DeviceId, revision: nat, previous: Option<AuditId>, status: Status,
    refs: Refs, resolution: Resolution, frameworks: seq<string>, completedAt: bool)

  /** How far a run has come; `stages` counts the checkpoints passed (parsing, interpreting, resolving state). */
  datatype Pc =
    | Claimed
    | Begun
    | Identified(profile: ProfileId)
    | Read(profile: ProfileId, seen: Refs)
    | Assessed(profile: ProfileId)
    | Loaded(profile: ProfileId, pack: PackId, stages: nat)
    | Complied(profile: ProfileId, pack: PackId)
    | Failing
    | Done

  datatype World = World(shelf: S.Shelf, audits: map<AuditId, Audit>, jobs: map<JobId, AuditId>, runs: map<JobId, Pc>)

  datatype Call =
    | OnShelf(call: S.Call)
    | CreateAudit(
        id: AuditId, snapshot: S.SnapshotId, frameworks: seq<string>, requested: Option<AssessmentId>,
        published: set<AssessmentId>)
    | StartAudit(id: AuditId, job: JobId)
    | Reevaluate(
        admin: bool, source: AuditId, id: AuditId, job: JobId, target: PackId, compatible: set<PackId>,
        requested: Option<AssessmentId>, published: set<AssessmentId>)
    | Claim(job: JobId)
    | Begin(job: JobId)
    | Identify(job: JobId, selected: Option<ProfileId>, resolved: bool)
    | ReadRefs(job: JobId)
    | Assess(job: JobId, chosen: Option<seq<AssessmentId>>)
    | LoadPack(job: JobId, active: PackId)
    | Pin(job: JobId)
    | Comply(job: JobId, expected: RulePackId, policy: PolicyId)
    | Finalize(job: JobId, verdicts: seq<FindingVerdict>)
    | FailRun(job: JobId)

  // ---------------------------------------------------------------- user calls

  predicate IsCompleted(status: Status) {
    status in {Completed, CompletedWithUnknowns, CompletedWithErrors}
  }

  predicate IsTerminal(status: Status) {
    IsCompleted(status) || status == Failed
  }

  const NO_REFS := Refs(None, None, None, None, None, None)

  /** The snapshot's device, status and evidence allow an audit to be created or submitted. */
  ghost predicate Auditable(w: World, snapshot: S.SnapshotId) {
    && snapshot in w.shelf.snapshots && w.shelf.snapshots[snapshot].status == S.Ready
    && S.EvidenceValid(w.shelf, snapshot)
  }

  predicate OfSnapshot(w: World, id: AuditId, snapshot: S.SnapshotId) {
    id in w.audits && w.audits[id].snapshot == snapshot
  }

  /** `latest` is the highest revision of the snapshot, zero when it has none. */
  ghost predicate HighestRevision(w: World, snapshot: S.SnapshotId, latest: nat) {
    && (forall id :: OfSnapshot(w, id, snapshot) ==> w.audits[id].revision <= latest)
    && (latest > 0 ==> exists id :: OfSnapshot(w, id, snapshot) && w.audits[id].revision == latest)
  }

  /** The profile the source was evaluated under. */
  function SourceProfile(source: Audit): Option<ProfileId> {
    if source.refs.profile.Some? then source.refs.profile else source.resolution.profile
  }

  predicate UnderWay(w: World, source: AuditId, target: PackId, id: AuditId) {
    && id in w.audits && w.audits[id].previous == Some(source) && w.audits[id].refs.pack == Some(target)
    && w.audits[id].status in {Draft, Queued, Processing}
  }

  /** A requested assessment pack must be published. */
  predicate Offered(requested: Option<AssessmentId>, published: set<AssessmentId>) {
    requested.Some? ==> requested.value in published
  }

  ghost predicate Eligible(w: World, call: Call)
    requires call.Reevaluate?
  {
    && call.admin && call.source in w.audits
    && var source := w.audits[call.source];
    && IsCompleted(source.status)
    && source.snapshot in w.shelf.snapshots && w.shelf.snapshots[source.snapshot].device == source.device
    && S.Frozen(w.shelf.snapshots[source.snapshot].status) && S.EvidenceValid(w.shelf, source.snapshot)
    && SourceProfile(source).Some? && call.target in call.compatible && source.refs.pack != Some(call.target)
    && Offered(call.requested, call.published)
  }

  function Revised(source: Audit, call: Call, latest: nat): Audit
    requires call.Reevaluate?
  {
    var requested := if call.requested.Some? then call.requested else source.refs.requested;
    Audit(source.snapshot, source.device, latest + 1, Some(call.source), Queued,
          source.refs.(pack := Some(call.target), requested := requested), source.resolution, source.frameworks, false)
  }

  // ---------------------------------------------------------------- one transaction of a run

  /** What a transaction leaves: the audit's row and where the run stands. */
  type Outcome = (Audit, Pc)

  function BeginProcessing(audit: Audit): Outcome {
    if audit.status in {Queued, Processing} then (audit.(status := Processing, completedAt := false), Begun)
    else (audit, Done)
  }

  predicate Conflicts<T(==)>(pinned: Option<T>, value: T) {
    pinned.Some? && pinned.value != value
  }

  function Settled(resolution: Resolution): Pc {
    if resolution.resolved && resolution.profile.Some? then Identified(resolution.profile.value) else Failing
  }

  /** A re-evaluation keeps its source's profile; a first audit resolves its own, unless pinned differently. */
  function IdentifyProfile(audit: Audit, usable: bool, selected: Option<ProfileId>, resolved: bool): Outcome {
    if audit.previous.Some? then (audit, if audit.resolution.profile.None? then Failing else Settled(audit.resolution))
    else if !usable || (audit.refs.profile.Some? && audit.refs.profile != selected) then (audit, Failing)
    else (audit.(resolution := Resolution(selected, resolved)), Settled(Resolution(selected, resolved)))
  }

  /**
   Writes back the versions read before, with the assessment packs chosen since; none chosen though some were
   asked for is an error.
   */
  function WriteAssessment(audit: Audit, profile: ProfileId, seen: Refs, chosen: Option<seq<AssessmentId>>): Outcome {
    if seen.requested.None? && audit.frameworks == [] then (audit, Assessed(profile))
    else if chosen.None? then (audit, Failing)
    else
      var selected := if seen.requested.Some? then Some([seen.requested.value]) else chosen;
      (audit.(refs := seen.(assessments := selected)), Assessed(profile))
  }

  function PinVersions(audit: Audit, profile: ProfileId, pack: PackId, stages: nat): Outcome {
    if audit.status != Processing || audit.resolution.profile != Some(profile)
       || Conflicts(audit.refs.profile, profile) || Conflicts(audit.refs.pack, pack)
    then (audit, Failing)
    else (audit.(refs := audit.refs.(profile := Some(profile), pack := Some(pack))), Loaded(profile, pack, stages + 1))
  }

  function PinCompliance(
    audit: Audit, profile: ProfileId, pack: PackId, expected: RulePackId, policy: PolicyId): Outcome {
    if audit.status != Processing || (audit.refs.rulePacks.Some? && expected !in audit.refs.rulePacks.value)
       || Conflicts(audit.refs.policy, policy)
    then (audit, Failing)
    else
      var packs := if audit.refs.rulePacks.Some? then audit.refs.rulePacks else Some([expected]);
      (audit.(refs := audit.refs.(rulePacks := packs, policy := Some(policy))), Complied(profile, pack))
  }

  function Terminal(verdicts: seq<FindingVerdict>): (status: Status)
    ensures IsCompleted(status)
  {
    if ProcessError in verdicts then CompletedWithErrors
    else if Unknown in verdicts || ManualReview in verdicts then CompletedWithUnknowns
    else Completed
  }

  function FinalizeAudit(audit: Audit, verdicts: seq<FindingVerdict>): Outcome {
    if audit.status != Processing then (audit, Failing)
    else (audit.(status := Terminal(verdicts), completedAt := true), Done)
  }

  function FinalizeFailure(audit: Audit): Outcome {
    if audit.status == Processing && !audit.completedAt then (audit.(status := Failed, completedAt := true), Done)
    else (audit, Done)
  }

  /** The call advances a run, and the run is where the program makes that call. */
  predicate Enabled(pc: Option<Pc>, call: Call) {
    match call
    case Claim(_) => pc.None?
    case Begin(_) => pc == Some(Claimed)
    case Identify(_, _, _) => pc == Some(Begun)
    case ReadRefs(_) => pc.Some? && pc.value.Identified?
    case Assess(_, _) => pc.Some? && pc.value.Read?
    case LoadPack(_, _) => pc.Some? && pc.value.Assessed?
    case Pin(_) => pc.Some? && pc.value.Loaded? && pc.value.stages < 3
    case Comply(_, _, _) => pc.Some? && pc.value.Loaded? && pc.value.stages == 3
    case Finalize(_, _) => pc.Some? && pc.value.Complied?
    case FailRun(_) => pc.Some? && !pc.value.Claimed? && !pc.value.Done?
    case _ => false
  }

  function Advance(audit: Audit, pc: Option<Pc>, call: Call, usable: bool): Outcome
    requires Enabled(pc, call)
  {
    match call
    case Claim(_) => (audit, Claimed)
    case Begin(_) => BeginProcessing(audit)
    case Identify(_, selected, resolved) => IdentifyProfile(audit, usable, selected, resolved)
    case ReadRefs(_) => (audit, Read(pc.value.profile, audit.refs))
    case Assess(_, chosen) => WriteAssessment(audit, pc.value.profile, pc.value.seen, chosen)
    case LoadPack(_, active) =>
      (audit, Loaded(pc.value.profile, if audit.refs.pack.Some? then audit.refs.pack.value else active, 0))
    case Pin(_) => PinVersions(audit, pc.value.profile, pc.value.pack, pc.value.stages)
    case Comply(_, expected, policy) => PinCompliance(audit, pc.value.profile, pc.value.pack, expected, policy)
    case Finalize(_, verdicts) => FinalizeAudit(audit, verdicts)
    case FailRun(_) => FinalizeFailure(audit)
  }

  /** The evidence may still be read for profile resolution. */
  ghost predicate Resolvable(w: World, audit: Audit) {
    && audit.snapshot in w.shelf.snapshots && w.shelf.snapshots[audit.snapshot].device == audit.device
    && S.Frozen(w.shelf.snapshots[audit.snapshot].status) && S.EvidenceValid(w.shelf, audit.snapshot)
  }

  function PcOf(w: World, job: JobId): Option<Pc> {
    if job in w.runs then Some(w.runs[job]) else None
  }

  function Moved(w: World, job: JobId, outcome: Outcome): World
    requires job in w.jobs
  {
    w.(audits := w.audits[w.jobs[job] := outcome.0], runs := w.runs[job := outcome.1])
  }

  /** The job whose run a call advances. */
  function RunOf(call: Call): Option<JobId> {
    match call
    case OnShelf(_) => None
    case CreateAudit(_, _, _, _, _) => None
    case StartAudit(_, _) => None
    case Reevaluate(_, _, _, _, _, _, _, _) => None
    case _ => Some(call.job)
  }

  // ---------------------------------------------------------------- one call

  ghost predicate Allowed(w: World, call: Call) {
    match call
    case OnShelf(c) => !c.Lock? && S.Allowed(w.shelf, c)
    case CreateAudit(id, snapshot, _, requested, published) =>
      && id !in w.audits && Auditable(w, snapshot) && Offered(requested, published)
      && forall q :: OfSnapshot(w, q, snapshot) ==> w.audits[q].revision != 1
    case StartAudit(id, job) =>
      && id in w.audits && w.audits[id].status == Draft && job !in w.jobs
      && Auditable(w, w.audits[id].snapshot) && w.shelf.snapshots[w.audits[id].snapshot].device == w.audits[id].device
    case Reevaluate(_, source, id, job, target, _, _, _) =>
      id !in w.audits && job !in w.jobs && Eligible(w, call) && forall q :: !UnderWay(w, source, target, q)
    case _ => call.job in w.jobs && w.jobs[call.job] in w.audits && Enabled(PcOf(w, call.job), call)
  }

  ghost predicate Effect(w: World, call: Call, w': World)
    requires Allowed(w, call)
  {
    match call
    case OnShelf(c) => S.Effect(w.shelf, c, w'.shelf) && w' == w.(shelf := w'.shelf)
    case CreateAudit(id, snapshot, frameworks, requested, _) =>
      w' == w.(audits := w.audits[id := Audit(snapshot, w.shelf.snapshots[snapshot].device, 1, None, Draft,
                                              NO_REFS.(requested := requested), Resolution(None, false),
                                              frameworks, false)])
    case StartAudit(id, job) =>
      && S.Effect(w.shelf, S.Call.Lock(w.audits[id].snapshot), w'.shelf)
      && w' == World(w'.shelf, w.audits[id := w.audits[id].(status := Queued, completedAt := false)], w.jobs[job := id],
           w.runs)
    case Reevaluate(_, source, id, job, _, _, _, _) =>
      exists latest: nat :: HighestRevision(w, w.audits[source].snapshot, latest)
        && w' == w.(audits := w.audits[id := Revised(w.audits[source], call, latest)], jobs := w.jobs[job := id])
    case _ =>
      var audit := w.audits[w.jobs[call.job]];
      w' == Moved(w, call.job, Advance(audit, PcOf(w, call.job), call, Resolvable(w, audit)))
  }

  ghost predicate Step(w: World, call: Call, w': World) {
    if Allowed(w, call) then Effect(w, call, w') else w' == w
  }

  // ---------------------------------------------------------------- what always holds of runs

  /** What the audit of a run looks like while the run stands at `pc`. */
  predicate Agrees(audit: Audit, pc: Pc) {
    match pc
    case Claimed => audit.status == Queued
    case Begun => InProgress(audit)
    case Identified(profile) => InProgress(audit) && audit.resolution.profile == Some(profile)
    case Read(profile, seen) => InProgress(audit) && audit.resolution.profile == Some(profile) && audit.refs == seen
    case Assessed(profile) => InProgress(audit) && audit.resolution.profile == Some(profile)
    case Loaded(profile, pack, stages) =>
      && InProgress(audit) && audit.resolution.profile == Some(profile)
      && (stages > 0 ==> audit.refs.profile == Some(profile) && audit.refs.pack == Some(pack))
    case Complied(profile, pack) =>
      && InProgress(audit) && audit.resolution.profile == Some(profile) && FullyPinned(audit.refs)
    case Failing => InProgress(audit)
    case Done => IsTerminal(audit.status)
  }

  predicate InProgress(audit: Audit) {
    audit.status == Processing && !audit.completedAt
  }

  predicate FullyPinned(refs: Refs) {
    refs.profile.Some? && refs.pack.Some? && refs.rulePacks.Some? && refs.policy.Some?
  }

  ghost predicate JobOk(w: World, job: JobId)
    requires job in w.jobs
  {
    && w.jobs[job] in w.audits
    && RowAgrees(w.audits[w.jobs[job]], PcOf(w, job))
  }

  predicate SameAudit(w: World, a: JobId, b: JobId) {
    a in w.jobs && b in w.jobs && w.jobs[a] == w.jobs[b]
  }

  predicate HasJob(w: World, id: AuditId) {
    exists job :: job in w.jobs && w.jobs[job] == id
  }

  /** Every submitted audit has exactly one job, a draft has none, and the audit agrees with the job's run. */
  ghost predicate JobsOk(w: World) {
    && (forall job :: job in w.jobs ==> JobOk(w, job))
    && (forall a, b :: SameAudit(w, a, b) ==> a == b)
    && (forall id :: id in w.audits && w.audits[id].status != Draft ==> HasJob(w, id))
    && (forall job :: job in w.runs ==> job in w.jobs)
  }

  /** A pinned profile is the resolved profile, and a completed audit is pinned in full. */
  predicate AuditOk(audit: Audit) {
    && (audit.refs.profile.Some? ==> audit.resolution.profile == audit.refs.profile)
    && (IsCompleted(audit.status) ==> FullyPinned(audit.refs))
  }

  ghost predicate AuditsOk(w: World) {
    forall id :: id in w.audits ==> AuditOk(w.audits[id])
  }

  /** Everything pinned stays pinned to the same version; a terminal audit does not change at all. */
  predicate Evolves(audit: Audit, audit': Audit) {
    && audit'.snapshot == audit.snapshot && audit'.device == audit.device && audit'.revision == audit.revision
    && audit'.previous == audit.previous && audit'.frameworks == audit.frameworks
    && PinsStay(audit.refs, audit'.refs)
    && (IsTerminal(audit.status) ==> audit' == audit)
    && (audit.status != Draft ==> audit'.status != Draft)
  }

  predicate PinsStay(refs: Refs, refs': Refs) {
    && (refs.profile.Some? ==> refs'.profile == refs.profile)
    && (refs.pack.Some? ==> refs'.pack == refs.pack)
    && (refs.rulePacks.Some? ==> refs'.rulePacks == refs.rulePacks)
    && (refs.policy.Some? ==> refs'.policy == refs.policy)
    && refs'.requested == refs.requested
  }

  predicate RowAgrees(audit: Audit, pc: Option<Pc>) {
    if pc.Some? then Agrees(audit, pc.value) else audit.status == Queued
  }

  /** One transaction, on the row it works on. */
  lemma TransactionOk(audit: Audit, pc: Option<Pc>, call: Call, usable: bool)
    requires Enabled(pc, call) && RowAgrees(audit, pc) && AuditOk(audit)
    ensures var outcome := Advance(audit, pc, call, usable);
      Agrees(outcome.0, outcome.1) && AuditOk(outcome.0) && Evolves(audit, outcome.0) && audit.status != Draft
  {
  }

  // ---------------------------------------------------------------- what a user's call decides

  /** Ready, with evidence that holds. */
  ghost predicate Presents(w: World, snapshot: S.SnapshotId) {
    snapshot in w.shelf.snapshots && w.shelf.snapshots[snapshot].status == S.Ready && S.EvidenceValid(w.shelf, snapshot)
  }

  /** A first audit comes to be exactly on such a snapshot, with a published pack if one is asked for, and only once. */
  lemma CreatedIff(
    w: World, id: AuditId, snapshot: S.SnapshotId, frameworks: seq<string>, requested: Option<AssessmentId>,
    published: set<AssessmentId>, w': World)
    requires Step(w, CreateAudit(id, snapshot, frameworks, requested, published), w') && id !in w.audits
    ensures id in w'.audits <==>
              && Presents(w, snapshot) && (requested == None || requested.value in published)
              && forall q :: q in w.audits && w.audits[q].snapshot == snapshot ==> w.audits[q].revision != 1
    ensures id in w'.audits ==>
              var a := w'.audits[id];
              && a.snapshot == snapshot && a.device == w.shelf.snapshots[snapshot].device && a.revision == 1
              && a.previous == None && a.status == Draft && a.refs.requested == requested && a.refs.profile == None
              && a.refs.pack == None && a.refs.rulePacks == None && a.refs.policy == None
              && a.frameworks == frameworks && !a.completedAt
    ensures id !in w'.audits ==> w' == w
  {
    hide S.EvidenceValid, S.Allowed, S.Effect;
    assert forall q :: OfSnapshot(w, q, snapshot) <==> q in w.audits && w.audits[q].snapshot == snapshot;
  }

  /** A draft is submitted exactly while its snapshot still presents the evidence of its device. */
  lemma StartedIff(w: World, id: AuditId, job: JobId, w': World)
    requires Step(w, StartAudit(id, job), w') && job !in w.jobs
    ensures job in w'.jobs <==>
              && id in w.audits && w.audits[id].status == Draft && Presents(w, w.audits[id].snapshot)
              && w.shelf.snapshots[w.audits[id].snapshot].device == w.audits[id].device
    ensures job in w'.jobs ==>
              && w'.jobs[job] == id && id in w'.audits && w'.audits[id].status == Queued
              && w.audits[id].snapshot in w'.shelf.snapshots
              && w'.shelf.snapshots[w.audits[id].snapshot].status == S.Locked
    ensures job !in w'.jobs ==> w' == w
  {
    hide S.EvidenceValid, S.Allowed;
  }

  /** The audit is completed, and its snapshot still shows the evidence it was judged on. */
  ghost predicate CanBeRevised(w: World, source: AuditId) {
    && source in w.audits
    && var a := w.audits[source];
    && (a.status == Completed || a.status == CompletedWithUnknowns || a.status == CompletedWithErrors)
    && a.snapshot in w.shelf.snapshots && w.shelf.snapshots[a.snapshot].device == a.device
    && w.shelf.snapshots[a.snapshot].status != S.Draft && S.EvidenceValid(w.shelf, a.snapshot)
    && (a.refs.profile.Some? || a.resolution.profile.Some?)
  }

  predicate OfKind(audit: Audit, source: AuditId, target: PackId) {
    audit.previous == Some(source) && audit.refs.pack == Some(target)
  }

  /**
   A re-evaluation comes to be exactly when an administrator asks for it on such an audit, for another pack that is
   compatible, and none of the same kind is under way.
   */
  lemma ReevaluatedIff(w: World, call: Call, w': World)
    requires Step(w, call, w') && call.Reevaluate? && call.id !in w.audits && call.job !in w.jobs
    ensures call.id in w'.audits <==>
              && call.admin && CanBeRevised(w, call.source) && call.target in call.compatible
              && w.audits[call.source].refs.pack != Some(call.target)
              && (call.requested == None || call.requested.value in call.published)
              && forall q :: q in w.audits && OfKind(w.audits[q], call.source, call.target) ==>
                   w.audits[q].status != Draft && w.audits[q].status != Queued && w.audits[q].status != Processing
    ensures call.id in w'.audits ==>
              var a, source := w'.audits[call.id], w.audits[call.source];
              && a.previous == Some(call.source) && a.snapshot == source.snapshot && a.device == source.device
              && a.status == Queued && a.refs.pack == Some(call.target) && a.refs.profile == source.refs.profile
              && a.refs.rulePacks == source.refs.rulePacks && a.refs.policy == source.refs.policy
              && a.refs.requested == (if call.requested == None then source.refs.requested else call.requested)
              && a.resolution == source.resolution
              && (forall q :: q in w.audits && w.audits[q].snapshot == source.snapshot ==>
                    w.audits[q].revision < a.revision)
              && call.job in w'.jobs && w'.jobs[call.job] == call.id
    ensures call.id !in w'.audits ==> w' == w
  {
    hide S.EvidenceValid, S.Allowed, S.Effect;
    if Allowed(w, call) {
      var source := w.audits[call.source];
      var latest: nat :| HighestRevision(w, source.snapshot, latest)
        && w' == w.(audits := w.audits[call.id := Revised(source, call, latest)], jobs := w.jobs[call.job := call.id]);
      forall q | q in w.audits && w.audits[q].snapshot == source.snapshot ensures w.audits[q].revision <= latest {
        assert OfSnapshot(w, q, source.snapshot);
      }
    }
    if call.source in w.audits {
      forall q ensures UnderWay(w, call.source, call.target, q) <==>
          q in w.audits && OfKind(w.audits[q], call.source, call.target)
          && (w.audits[q].status == Draft || w.audits[q].status == Queued || w.audits[q].status == Processing) {
      }
    }
  }

  // ---------------------------------------------------------------- what the last two steps of a run decide

  predicate Settles(verdict: FindingVerdict) {
    verdict == Pass || verdict == Fail || verdict == NotApplicable
  }

  /** The status an audit finishes with, by the verdicts found: an error first, then anything left open. */
  predicate Befits(status: Status, verdicts: seq<FindingVerdict>) {
    match status
    case CompletedWithErrors => exists k :: 0 <= k < |verdicts| && verdicts[k] == ProcessError
    case CompletedWithUnknowns =>
      && (exists k :: 0 <= k < |verdicts| && (verdicts[k] == Unknown || verdicts[k] == ManualReview))
      && forall k :: 0 <= k < |verdicts| ==> verdicts[k] != ProcessError
    case Completed => forall k :: 0 <= k < |verdicts| ==> Settles(verdicts[k])
    case _ => false
  }

  lemma FinalizeSays(audit: Audit, pc: Option<Pc>, job: JobId, verdicts: seq<FindingVerdict>, usable: bool)
    requires pc.Some? && pc.value.Complied?
    ensures var outcome := Advance(audit, pc, Finalize(job, verdicts), usable);
            if audit.status == Processing then
              && Befits(outcome.0.status, verdicts) && outcome.0.completedAt && outcome.1 == Done
              && outcome.0 == audit.(status := outcome.0.status, completedAt := true)
            else outcome == (audit, Failing)
  {
    TerminalBefits(verdicts);
  }

  lemma TerminalBefits(verdicts: seq<FindingVerdict>)
    ensures Befits(Terminal(verdicts), verdicts)
  {
    forall k | 0 <= k < |verdicts|
      ensures Settles(verdicts[k]) || verdicts[k] in {ProcessError, Unknown, ManualReview}
    {
      assert verdicts[k] in verdicts;
    }
  }

  /**
   Identification settles on a profile exactly when a re-evaluation inherits a settled one, or a first audit finds one
   on valid evidence that is not the wrong one.
   */
  lemma IdentifySays(
    audit: Audit, pc: Option<Pc>, job: JobId, selected: Option<ProfileId>, resolved: bool, usable: bool,
    profile: ProfileId)
    requires Enabled(pc, Identify(job, selected, resolved))
    ensures var outcome := Advance(audit, pc, Identify(job, selected, resolved), usable);
            && (outcome.1 == Identified(profile) <==>
                  if audit.previous == None then
                    && usable && resolved && selected == Some(profile)
                    && (audit.refs.profile == None || audit.refs.profile == Some(profile))
                  else audit.resolution == Resolution(Some(profile), true))
            && (outcome.1.Identified? && audit.previous == None ==>
                  outcome.0.resolution == Resolution(selected, resolved))
            && outcome.0 == audit.(resolution := outcome.0.resolution)
            && (audit.previous != None ==> outcome.0 == audit)
  {
  }

  /** The knowledge pack is the pinned one, or the active one where none is pinned. */
  lemma LoadSays(audit: Audit, pc: Option<Pc>, job: JobId, active: PackId, usable: bool, pack: PackId)
    requires Enabled(pc, LoadPack(job, active))
    ensures var outcome := Advance(audit, pc, LoadPack(job, active), usable);
            && outcome.0 == audit && outcome.1.Loaded? && outcome.1.profile == pc.value.profile
            && (outcome.1.pack == pack <==>
                  audit.refs.pack == Some(pack) || (audit.refs.pack == None && active == pack))
  {
  }

  /** A stage is passed exactly while nothing else is pinned or resolved, and then both are pinned. */
  lemma PinSays(audit: Audit, pc: Option<Pc>, job: JobId, usable: bool)
    requires Enabled(pc, Pin(job))
    ensures var outcome := Advance(audit, pc, Pin(job), usable);
            && (outcome.1.Loaded? <==>
                  && audit.status == Processing && audit.resolution.profile == Some(pc.value.profile)
                  && (audit.refs.profile == None || audit.refs.profile == Some(pc.value.profile))
                  && (audit.refs.pack == None || audit.refs.pack == Some(pc.value.pack)))
            && (outcome.1.Loaded? ==>
                  && outcome.0.refs.profile == Some(pc.value.profile) && outcome.0.refs.pack == Some(pc.value.pack)
                  && outcome.1 == Loaded(pc.value.profile, pc.value.pack, pc.value.stages + 1))
            && (!outcome.1.Loaded? ==> outcome == (audit, Failing))
  {
  }

  /** The rule pack used is among the pinned ones and the policy used is the pinned one, or the run fails. */
  lemma ComplySays(
    audit: Audit, pc: Option<Pc>, job: JobId, expected: RulePackId, policy: PolicyId, usable: bool)
    requires Enabled(pc, Comply(job, expected, policy))
    ensures var outcome := Advance(audit, pc, Comply(job, expected, policy), usable);
            && (outcome.1.Complied? <==>
                  && audit.status == Processing
                  && (audit.refs.rulePacks.Some? ==> expected in audit.refs.rulePacks.value)
                  && (audit.refs.policy.Some? ==> audit.refs.policy.value == policy))
            && (outcome.1.Complied? ==>
                  && outcome.0.refs.rulePacks.Some? && expected in outcome.0.refs.rulePacks.value
                  && outcome.0.refs.policy == Some(policy))
            && (!outcome.1.Complied? ==> outcome == (audit, Failing))
  {
  }

  // ---------------------------------------------------------------- one call, on the whole world

  /** A user's call leaves every run where it is; a transaction of a run touches its own audit and run only. */
  lemma RunFrame(w: World, call: Call, w': World, job: JobId)
    requires Step(w, call, w') && RunOf(call) == Some(job) && Allowed(w, call)
    ensures job in w.jobs && w.jobs[job] in w.audits && Enabled(PcOf(w, job), call)
    ensures w'.jobs == w.jobs && w'.shelf == w.shelf && w'.audits.Keys == w.audits.Keys
    ensures w'.runs.Keys == w.runs.Keys + {job}
    ensures forall other :: other != job ==> PcOf(w', other) == PcOf(w, other)
    ensures forall id :: id in w.audits && id != w.jobs[job] ==> w'.audits[id] == w.audits[id]
    ensures var outcome := Advance(w.audits[w.jobs[job]], PcOf(w, job), call, Resolvable(w, w.audits[w.jobs[job]]));
      PcOf(w', job) == Some(outcome.1) && w'.audits[w.jobs[job]] == outcome.0
  {
    hide S.EvidenceValid, S.Frozen, Advance;
  }

  lemma UserFrame(w: World, call: Call, w': World)
    requires Step(w, call, w') && RunOf(call).None?
    ensures w'.runs == w.runs && w.jobs.Keys <= w'.jobs.Keys && w.audits.Keys <= w'.audits.Keys
    ensures forall job :: job in w.jobs ==> w'.jobs[job] == w.jobs[job]
    ensures forall id :: id in w.audits ==>
              w'.audits[id] == w.audits[id]
              || (call == StartAudit(id, call.job) && Allowed(w, call)
                  && w'.audits[id] == w.audits[id].(status := Queued, completedAt := false))
    ensures forall id :: id in w'.audits && id !in w.audits ==>
        Allowed(w, call) && (call.CreateAudit? || call.Reevaluate?) && call.id == id
    ensures forall job :: job in w'.jobs && job !in w.jobs ==>
              Allowed(w, call) && (call.StartAudit? || call.Reevaluate?) && call.job == job && w'.jobs[job] == call.id
  {
    hide S.EvidenceValid, S.Effect, S.Allowed;
  }

  lemma EveryAuditEvolves(w: World, call: Call, w': World, id: AuditId)
    requires Step(w, call, w') && JobsOk(w) && AuditsOk(w) && id in w.audits
    ensures id in w'.audits && Evolves(w.audits[id], w'.audits[id]) && AuditOk(w'.audits[id])
  {
    hide Advance, Agrees;
    if RunOf(call).Some? {
      if Allowed(w, call) {
        var job := RunOf(call).value;
        hide Step, Allowed;
        RunFrame(w, call, w', job);
        assert JobOk(w, job);
        TransactionOk(w.audits[w.jobs[job]], PcOf(w, job), call, Resolvable(w, w.audits[w.jobs[job]]));
      }
    } else {
      UserFrame(w, call, w');
    }
  }

  lemma RunKeepsJobs(w: World, call: Call, w': World)
    requires Step(w, call, w') && JobsOk(w) && AuditsOk(w) && RunOf(call).Some? && Allowed(w, call)
    ensures JobsOk(w')
  {
    var job := RunOf(call).value;
    hide Step, Allowed, Advance, Agrees, RowAgrees, Enabled;
    RunFrame(w, call, w', job);
    forall other | other in w'.jobs ensures JobOk(w', other) {
      assert JobOk(w, other);
      if other == job {
        var audit := w.audits[w.jobs[job]];
        TransactionOk(audit, PcOf(w, job), call, Resolvable(w, audit));
        AgreesRow(w'.audits[w.jobs[job]], PcOf(w', job));
      } else {
        assert SameAudit(w, job, other) ==> job == other;
      }
    }
    forall a, b | SameAudit(w', a, b) ensures a == b {
      assert SameAudit(w, a, b);
    }
    forall id | id in w'.audits && w'.audits[id].status != Draft ensures HasJob(w', id) {
      assert HasJob(w, id);
      var j :| j in w.jobs && w.jobs[j] == id;
      assert w'.jobs[j] == id;
    }
  }

  lemma AgreesRow(audit: Audit, pc: Option<Pc>)
    requires pc.Some?
    ensures RowAgrees(audit, pc) <==> Agrees(audit, pc.value)
  {
  }

  lemma NeverDraft(audit: Audit, pc: Option<Pc>)
    requires RowAgrees(audit, pc)
    ensures audit.status != Draft
  {
  }

  /** A submission gives a job to a draft or to a new audit, and leaves it queued; other user calls give no jobs. */
  lemma UserFrameJobs(w: World, call: Call, w': World)
    requires Step(w, call, w') && RunOf(call).None?
    ensures w'.jobs == w.jobs
         || ((call.StartAudit? || call.Reevaluate?) && call.job !in w.jobs && w'.jobs == w.jobs[call.job := call.id]
             && call.id in w'.audits && w'.audits[call.id].status == Queued
             && (call.id in w.audits ==> w.audits[call.id].status == Draft))
    ensures w'.jobs == w.jobs ==> forall id :: id in w'.audits ==>
        if id in w.audits then w'.audits[id] == w.audits[id] else w'.audits[id].status == Draft
    ensures w'.jobs != w.jobs ==> forall id :: id in w'.audits && id != call.id ==>
        id in w.audits && w'.audits[id] == w.audits[id]
    ensures w'.runs == w.runs && w.audits.Keys <= w'.audits.Keys
  {
    hide S.EvidenceValid, S.Effect, S.Allowed, HighestRevision;
  }

  lemma UserKeepsRows(w: World, call: Call, w': World, job: JobId)
    requires Step(w, call, w') && JobsOk(w) && RunOf(call).None? && job in w'.jobs
    ensures JobOk(w', job)
  {
    UserFrameJobs(w, call, w');
    hide Step, RowAgrees;
    if job in w.jobs {
      assert JobOk(w, job);
      NeverDraft(w.audits[w.jobs[job]], PcOf(w, job));
    } else {
      QueuedRow(w'.audits[call.id]);
    }
  }

  lemma UserKeepsOne(w: World, call: Call, w': World, a: JobId, b: JobId)
    requires Step(w, call, w') && JobsOk(w) && RunOf(call).None? && SameAudit(w', a, b)
    ensures a == b
  {
    UserFrameJobs(w, call, w');
    hide Step, RowAgrees, HasJob;
    assert SameAudit(w, a, b) ==> a == b;
    if a in w.jobs {
      assert JobOk(w, a);
      NeverDraft(w.audits[w.jobs[a]], PcOf(w, a));
    }
    if b in w.jobs {
      assert JobOk(w, b);
      NeverDraft(w.audits[w.jobs[b]], PcOf(w, b));
    }
  }

  lemma UserKeepsJobs(w: World, call: Call, w': World)
    requires Step(w, call, w') && JobsOk(w) && RunOf(call).None?
    ensures JobsOk(w')
  {
    UserFrameJobs(w, call, w');
    hide Step, RowAgrees, JobOk;
    forall job | job in w'.jobs ensures JobOk(w', job) {
      UserKeepsRows(w, call, w', job);
    }
    forall a, b | SameAudit(w', a, b) ensures a == b {
      UserKeepsOne(w, call, w', a, b);
    }
    forall id | id in w'.audits && w'.audits[id].status != Draft ensures HasJob(w', id) {
      if id in w.audits && w.audits[id].status != Draft {
        assert HasJob(w, id);
        var job :| job in w.jobs && w.jobs[job] == id;
        assert w'.jobs[job] == id;
      } else {
        assert w'.jobs[call.job] == id;
      }
    }
  }

  lemma QueuedRow(audit: Audit)
    requires audit.status == Queued
    ensures RowAgrees(audit, None)
  {
  }
}
