/** The audit services and the transactions of the pipeline, proved to take the steps of Audits. */
module AuditService {
  import opened Common
  import opened Verdicts
  import opened Audits
  import S = Snapshots
  import SnapshotService

  datatype AuditError = NotFound | Forbidden | SnapshotNotReady | IdentityInvalid | EvidenceInvalid | AlreadySubmitted
                      | InitialExists | Unavailable | PackIneligible | Conflict

  class AuditStore {
    var shelf: S.Shelf
    var audits: map<AuditId, Audit>
    var jobs: map<JobId, AuditId>
    var runs: map<JobId, Pc>

    constructor (onShelf: S.Shelf)
      ensures W() == World(onShelf, map[], map[], map[])
    {
      shelf, audits, jobs, runs := onShelf, map[], map[], map[];
    }

    ghost function W(): World
      reads this
    {
      World(shelf, audits, jobs, runs)
    }

    method CreateAudit(
      id: AuditId, snapshot: S.SnapshotId, frameworks: seq<string>, requested: Option<AssessmentId>,
      published: set<AssessmentId>)
      returns (r: Result<Audit, AuditError>)
      requires id !in audits
      modifies this
      ensures Step(old(W()), Call.CreateAudit(id, snapshot, frameworks, requested, published), W())
      ensures r.Ok? <==> Allowed(old(W()), Call.CreateAudit(id, snapshot, frameworks, requested, published))
      ensures r.Ok? ==> id in audits && r.value == audits[id]
    {
      if snapshot !in shelf.snapshots {
        return Err(NotFound);
      }
      if shelf.snapshots[snapshot].status != S.Ready {
        return Err(SnapshotNotReady);
      }
      var evidence := SnapshotService.ValidateSnapshotEvidence(shelf, snapshot);
      if evidence.Err? {
        return Err(EvidenceInvalid);
      }
      if requested.Some? && requested.value !in published {
        return Err(PackIneligible);
      }
      if exists q :: q in audits && audits[q].snapshot == snapshot && audits[q].revision == 1 {
        ghost var q :| q in audits && audits[q].snapshot == snapshot && audits[q].revision == 1;
        assert OfSnapshot(W(), q, snapshot);
        return Err(InitialExists);
      }
      var refs := NO_REFS.(requested := requested);
      var audit := Audit(snapshot, shelf.snapshots[snapshot].device, 1, None, Draft, refs, Resolution(None, false),
          frameworks, false);
      audits := audits[id := audit];
      return Ok(audit);
    }

    method StartAudit(id: AuditId, job: JobId) returns (r: Result<Audit, AuditError>)
      requires job !in jobs
      modifies this
      ensures Step(old(W()), Call.StartAudit(id, job), W())
      ensures r.Ok? <==> Allowed(old(W()), Call.StartAudit(id, job))
      ensures r.Ok? ==> id in audits && r.value == audits[id]
    {
      if id !in audits {
        return Err(NotFound);
      }
      var audit := audits[id];
      if audit.status != Draft {
        return Err(AlreadySubmitted);
      }
      var snapshot := audit.snapshot;
      if snapshot !in shelf.snapshots || shelf.snapshots[snapshot].device != audit.device {
        return Err(IdentityInvalid);
      }
      if shelf.snapshots[snapshot].status != S.Ready {
        return Err(SnapshotNotReady);
      }
      var evidence := SnapshotService.ValidateSnapshotEvidence(shelf, snapshot);
      if evidence.Err? {
        return Err(EvidenceInvalid);
      }
      shelf := shelf.(snapshots := shelf.snapshots[snapshot := shelf.snapshots[snapshot].(status := S.Locked)]);
      audits := audits[id := audit.(status := Queued, completedAt := false)];
      jobs := jobs[job := id];
      return Ok(audits[id]);
    }

    /** The highest revision of the snapshot, row by row. */
    method LatestRevision(snapshot: S.SnapshotId) returns (latest: nat)
      ensures HighestRevision(W(), snapshot, latest)
    {
      latest := 0;
      var rest := audits.Keys;
      while rest != {}
        invariant rest <= audits.Keys
        invariant forall id :: OfSnapshot(W(), id, snapshot) && id !in rest ==> audits[id].revision <= latest
        invariant latest > 0 ==> exists id :: OfSnapshot(W(), id, snapshot) && audits[id].revision == latest
        decreases rest
      {
        var id :| id in rest;
        rest := rest - {id};
        if audits[id].snapshot == snapshot && audits[id].revision > latest {
          latest := audits[id].revision;
          assert OfSnapshot(W(), id, snapshot);
        }
      }
    }

    /** Returns the new audit, or the re-evaluation of the same kind that is still under way. */
    method StartReevaluation(
      user: bool, source: AuditId, id: AuditId, job: JobId, target: PackId, compatible: set<PackId>,
      requested: Option<AssessmentId>, published: set<AssessmentId>)
      returns (r: Result<AuditId, AuditError>)
      requires id !in audits && job !in jobs
      modifies this
      ensures Step(old(W()), Reevaluate(user, source, id, job, target, compatible, requested, published), W())
      ensures r == Ok(id) <==> Allowed(old(W()),
          Reevaluate(user, source, id, job, target, compatible, requested, published))
      ensures r.Ok? <==> Eligible(old(W()), Reevaluate(user, source, id, job, target, compatible, requested, published))
      ensures r.Ok? && r.value != id ==> UnderWay(old(W()), source, target, r.value)
    {
      if !user {
        return Err(Forbidden);
      }
      if source !in audits {
        return Err(NotFound);
      }
      var from := audits[source];
      if !IsCompleted(from.status) || from.snapshot !in shelf.snapshots
         || shelf.snapshots[from.snapshot].device != from.device || !S.Frozen(shelf.snapshots[from.snapshot].status)
      {
        return Err(Unavailable);
      }
      var evidence := SnapshotService.ValidateSnapshotEvidence(shelf, from.snapshot);
      if evidence.Err? {
        return Err(Unavailable);
      }
      if SourceProfile(from).None? || target !in compatible || from.refs.pack == Some(target) {
        return Err(PackIneligible);
      }
      if requested.Some? && requested.value !in published {
        return Err(PackIneligible);
      }
      var latest := LatestRevision(from.snapshot);
      if exists q :: q in audits && UnderWay(World(shelf, audits, jobs, runs), source, target, q) {
        var q :| q in audits && UnderWay(World(shelf, audits, jobs, runs), source, target, q);
        return Ok(q);
      }
      var refs := from.refs.(pack := Some(target));
      if requested.Some? {
        refs := refs.(requested := requested);
      }
      var audit := Audit(
        from.snapshot, from.device, latest + 1, Some(source), Queued, refs, from.resolution, from.frameworks, false);
      audits := audits[id := audit];
      jobs := jobs[job := id];
      assert audits[id] == Revised(from, Reevaluate(user, source, id, job, target, compatible, requested, published),
          latest);
      return Ok(id);
    }

    // The transactions of a run: each is called where the program of the run calls it.

    ghost predicate Ready(call: Call)
      requires RunOf(call).Some?
      reads this
    {
      Allowed(W(), call)
    }

    method ClaimJob(job: JobId)
      requires Ready(Claim(job))
      modifies this
      ensures Step(old(W()), Claim(job), W())
    {
      assert audits == audits[jobs[job] := audits[jobs[job]]];
      runs := runs[job := Claimed];
    }

    method BeginRun(job: JobId)
      requires Ready(Begin(job))
      modifies this
      ensures Step(old(W()), Begin(job), W())
    {
      var id := jobs[job];
      var audit := audits[id];
      if audit.status !in {Queued, Processing} {
        runs := runs[job := Done];
      } else {
        audit := audit.(status := Processing);
        audit := audit.(completedAt := false);
        runs := runs[job := Begun];
      }
      audits := audits[id := audit];
    }

    /** `selected` and `resolved` are what identification makes of the evidence. */
    method ResolveAuditProfile(job: JobId, selected: Option<ProfileId>, resolved: bool)
      requires Ready(Identify(job, selected, resolved))
      modifies this
      ensures Step(old(W()), Identify(job, selected, resolved), W())
    {
      var id := jobs[job];
      var audit := audits[id];
      var next := Failing;
      if audit.previous.Some? {
        if audit.resolution.profile.Some? {
          next := Settled(audit.resolution);
        }
      } else {
        var usable := false;
        if audit.snapshot in shelf.snapshots && shelf.snapshots[audit.snapshot].device == audit.device
           && S.Frozen(shelf.snapshots[audit.snapshot].status)
        {
          var evidence := SnapshotService.ValidateSnapshotEvidence(shelf, audit.snapshot);
          usable := evidence.Ok?;
        }
        assert usable <==> Resolvable(W(), audit);
        if usable && !(audit.refs.profile.Some? && audit.refs.profile != selected) {
          audit := audit.(resolution := Resolution(selected, resolved));
          next := Settled(audit.resolution);
        }
      }
      audits, runs := audits[id := audit], runs[job := next];
    }

    method ReadPinnedVersions(job: JobId)
      requires Ready(ReadRefs(job))
      modifies this
      ensures Step(old(W()), ReadRefs(job), W())
    {
      var id := jobs[job];
      assert audits == audits[id := audits[id]];
      runs := runs[job := Read(runs[job].profile, audits[id].refs)];
    }

    method PinAssessment(job: JobId, chosen: Option<seq<AssessmentId>>)
      requires Ready(Assess(job, chosen))
      modifies this
      ensures Step(old(W()), Assess(job, chosen), W())
    {
      var id := jobs[job];
      var audit, seen, profile := audits[id], runs[job].seen, runs[job].profile;
      var next := Assessed(profile);
      if seen.requested.Some? || audit.frameworks != [] {
        if chosen.None? {
          next := Failing;
        } else {
          var packs := chosen;
          if seen.requested.Some? {
            packs := Some([seen.requested.value]);
          }
          audit := audit.(refs := seen.(assessments := packs));
        }
      }
      audits, runs := audits[id := audit], runs[job := next];
    }

    method LoadAuditPack(job: JobId, active: PackId)
      requires Ready(LoadPack(job, active))
      modifies this
      ensures Step(old(W()), LoadPack(job, active), W())
    {
      var id := jobs[job];
      var pack := active;
      if audits[id].refs.pack.Some? {
        pack := audits[id].refs.pack.value;
      }
      assert audits == audits[id := audits[id]];
      runs := runs[job := Loaded(runs[job].profile, pack, 0)];
    }

    method PinVersionsAndSetStage(job: JobId)
      requires Ready(Pin(job))
      modifies this
      ensures Step(old(W()), Pin(job), W())
    {
      var id, pc := jobs[job], runs[job];
      var audit := audits[id];
      var next := Failing;
      if audit.status == Processing && audit.resolution.profile == Some(pc.profile)
         && !(audit.refs.profile.Some? && audit.refs.profile != Some(pc.profile))
         && !(audit.refs.pack.Some? && audit.refs.pack != Some(pc.pack))
      {
        var refs := audit.refs.(profile := Some(pc.profile));
        refs := refs.(pack := Some(pc.pack));
        audit := audit.(refs := refs);
        next := pc.(stages := pc.stages + 1);
      }
      audits, runs := audits[id := audit], runs[job := next];
    }

    method PinComplianceVersionsAndSetStage(job: JobId, expected: RulePackId, policy: PolicyId)
      requires Ready(Comply(job, expected, policy))
      modifies this
      ensures Step(old(W()), Comply(job, expected, policy), W())
    {
      var id, pc := jobs[job], runs[job];
      var audit := audits[id];
      var next := Failing;
      if audit.status == Processing {
        var packs := [expected];
        var conflict := false;
        if audit.refs.rulePacks.Some? {
          if expected in audit.refs.rulePacks.value {
            packs := audit.refs.rulePacks.value;
          } else {
            conflict := true;
          }
        }
        if !conflict && !(audit.refs.policy.Some? && audit.refs.policy.value != policy) {
          audit := audit.(refs := audit.refs.(rulePacks := Some(packs), policy := Some(policy)));
          next := Complied(pc.profile, pc.pack);
        }
      }
      audits, runs := audits[id := audit], runs[job := next];
    }

    method FinalizeRun(job: JobId, verdicts: seq<FindingVerdict>)
      requires Ready(Finalize(job, verdicts))
      modifies this
      ensures Step(old(W()), Finalize(job, verdicts), W())
      ensures job in jobs && jobs[job] in audits && jobs == old(jobs) && jobs[job] in old(audits)
      ensures if old(audits)[jobs[job]].status == Processing then Befits(audits[jobs[job]].status, verdicts)
              else audits == old(audits)
    {
      var id := jobs[job];
      var audit := audits[id];
      var errors, open := 0, 0;
      for i := 0 to |verdicts|
        invariant errors > 0 <==> ProcessError in verdicts[..i]
        invariant open > 0 <==> Unknown in verdicts[..i] || ManualReview in verdicts[..i]
        invariant errors >= 0 && open >= 0
        invariant W() == old(W())
      {
        assert verdicts[..i + 1] == verdicts[..i] + [verdicts[i]];
        if verdicts[i] == ProcessError {
          errors := errors + 1;
        } else if verdicts[i] in {Unknown, ManualReview} {
          open := open + 1;
        }
      }
      assert verdicts[..|verdicts|] == verdicts;
      TerminalBefits(verdicts);
      var terminal := if errors > 0 then CompletedWithErrors else if open > 0 then CompletedWithUnknowns else Completed;
      if audit.status != Processing {
        runs := runs[job := Failing];
      } else {
        audit := audit.(status := terminal, completedAt := true);
        runs := runs[job := Done];
      }
      audits := audits[id := audit];
    }

    method FinalizeFailureOf(job: JobId)
      requires Ready(FailRun(job))
      modifies this
      ensures Step(old(W()), FailRun(job), W())
    {
      var id := jobs[job];
      var audit := audits[id];
      if audit.status == Processing && !audit.completedAt {
        audit := audit.(status := Failed, completedAt := true);
      }
      audits, runs := audits[id := audit], runs[job := Done];
    }
  }
}
