/** What holds over whole histories of audits: pins, revision chains, evidence and finality. */
module AuditHistories {
  import opened Common
  import opened Audits
  import S = Snapshots

  // ---------------------------------------------------------------- revisions, sources and evidence

  predicate SameRevision(a: Audit, b: Audit) {
    a.snapshot == b.snapshot && a.revision == b.revision
  }

  ghost predicate HasRevision(w: World, snapshot: S.SnapshotId, revision: nat) {
    exists id :: OfSnapshot(w, id, snapshot) && w.audits[id].revision == revision
  }

  ghost predicate RevisionsOk(w: World) {
    && (forall a, b :: a in w.audits && b in w.audits && SameRevision(w.audits[a], w.audits[b]) ==> a == b)
    && (forall id :: id in w.audits ==>
         w.audits[id].revision > 0 && (w.audits[id].revision == 1 <==> w.audits[id].previous.None?))
    && (forall id :: id in w.audits && w.audits[id].revision > 1 ==>
         HasRevision(w, w.audits[id].snapshot, w.audits[id].revision - 1))
  }

  /** A re-evaluation comes after a completed audit of the same snapshot and keeps its device profile. */
  predicate Descends(w: World, audit: Audit) {
    audit.previous.Some? ==>
      && OfSnapshot(w, audit.previous.value, audit.snapshot)
      && var source := w.audits[audit.previous.value];
      && IsCompleted(source.status) && source.revision < audit.revision
      && audit.refs.profile.Some? && audit.refs.profile == source.refs.profile
  }

  ghost predicate SourcesOk(w: World) {
    forall id :: id in w.audits ==> Descends(w, w.audits[id])
  }

  /** Every audit stands on a sealed snapshot of its device. */
  predicate Placed(w: World, audit: Audit) {
    && audit.snapshot in w.shelf.snapshots && S.Frozen(w.shelf.snapshots[audit.snapshot].status)
    && w.shelf.snapshots[audit.snapshot].device == audit.device
  }

  ghost predicate PlacesOk(w: World) {
    S.ShelfOk(w.shelf) && forall id :: id in w.audits ==> Placed(w, w.audits[id])
  }

  ghost predicate WorldOk(w: World) {
    JobsOk(w) && AuditsOk(w) && RevisionsOk(w) && SourcesOk(w) && PlacesOk(w)
  }

  lemma NewAudits(w: World, call: Call, w': World, id: AuditId)
    requires Step(w, call, w') && id in w'.audits && id !in w.audits
    ensures Allowed(w, call) && (call.CreateAudit? || call.Reevaluate?) && call.id == id && w'.shelf == w.shelf
    ensures w'.audits.Keys == w.audits.Keys + {id} && forall q :: q in w.audits ==> w'.audits[q] == w.audits[q]
    ensures call.CreateAudit? ==>
              && w'.audits[id] == Audit(call.snapshot, w.shelf.snapshots[call.snapshot].device, 1, None, Draft,
                                        NO_REFS.(requested := call.requested), Resolution(None, false),
                                        call.frameworks, false)
    ensures call.Reevaluate? ==>
              && call.source in w.audits
              && exists latest: nat :: HighestRevision(w, w.audits[call.source].snapshot, latest)
                   && w'.audits[id] == Revised(w.audits[call.source], call, latest)
  {
    hide S.EvidenceValid, S.Effect, S.Allowed, HighestRevision, Advance;
    if RunOf(call).Some? && Allowed(w, call) {
      RunFrame(w, call, w', RunOf(call).value);
    }
  }

  lemma StepKeepsAudits(w: World, call: Call, w': World)
    requires Step(w, call, w') && WorldOk(w)
    ensures AuditsOk(w')
  {
    hide Step, Allowed, S.ShelfOk, RevisionsOk, JobsOk;
    forall id | id in w'.audits ensures AuditOk(w'.audits[id]) {
      if id in w.audits {
        EveryAuditEvolves(w, call, w', id);
      } else {
        NewAudits(w, call, w', id);
        NewAuditIsOk(w, call, w', id);
      }
    }
  }

  lemma NewAuditIsOk(w: World, call: Call, w': World, id: AuditId)
    requires Step(w, call, w') && AuditsOk(w) && id in w'.audits && id !in w.audits
    ensures AuditOk(w'.audits[id])
  {
    hide Step, Allowed, HighestRevision;
    NewAudits(w, call, w', id);
    if call.Reevaluate? {
      assert AuditOk(w.audits[call.source]);
    }
  }

  lemma NewRevisionIsNext(w: World, call: Call, w': World, id: AuditId)
    requires Step(w, call, w') && RevisionsOk(w) && id in w'.audits && id !in w.audits
    ensures forall q :: OfSnapshot(w, q, w'.audits[id].snapshot) ==> w.audits[q].revision < w'.audits[id].revision
    ensures w'.audits[id].revision == 1 <==> w'.audits[id].previous.None?
    ensures w'.audits[id].revision > 1 ==> HasRevision(w, w'.audits[id].snapshot, w'.audits[id].revision - 1)
    ensures w'.audits[id].revision > 0
  {
    NewAudits(w, call, w', id);
    if call.CreateAudit? {
      FirstRevision(w, call.snapshot);
    } else {
      hide Step, Allowed;
      var snapshot := w.audits[call.source].snapshot;
      var latest: nat :| HighestRevision(w, snapshot, latest)
          && w'.audits[id] == Revised(w.audits[call.source], call, latest);
      assert OfSnapshot(w, call.source, snapshot);
    }
  }

  /** A snapshot without a first revision has no audit. */
  lemma FirstRevision(w: World, snapshot: S.SnapshotId)
    requires RevisionsOk(w) && forall q :: OfSnapshot(w, q, snapshot) ==> w.audits[q].revision != 1
    ensures forall q :: !OfSnapshot(w, q, snapshot)
  {
    forall q | OfSnapshot(w, q, snapshot) ensures false {
      var _ := EveryLowerRevision(w, q, 1);
    }
  }

  lemma {:induction false} EveryLowerRevision(w: World, id: AuditId, revision: nat) returns (lower: AuditId)
    requires RevisionsOk(w) && id in w.audits && 1 <= revision <= w.audits[id].revision
    ensures OfSnapshot(w, lower, w.audits[id].snapshot) && w.audits[lower].revision == revision
    decreases w.audits[id].revision
  {
    if revision == w.audits[id].revision {
      lower := id;
    } else {
      var below: AuditId :| OfSnapshot(w, below, w.audits[id].snapshot)
          && w.audits[below].revision == w.audits[id].revision - 1;
      lower := EveryLowerRevision(w, below, revision);
    }
  }

  lemma NewRevisionIsAbove(w: World, call: Call, w': World, id: AuditId, q: AuditId)
    requires Step(w, call, w') && RevisionsOk(w) && id in w'.audits && id !in w.audits
    ensures q in w.audits && w.audits[q].snapshot == w'.audits[id].snapshot ==>
        w.audits[q].revision < w'.audits[id].revision
  {
    hide Step, Allowed, RevisionsOk;
    NewRevisionIsNext(w, call, w', id);
    assert q in w.audits && w.audits[q].snapshot == w'.audits[id].snapshot ==> OfSnapshot(w, q, w'.audits[id].snapshot);
  }

  lemma RevisionStaysUnique(w: World, call: Call, w': World, a: AuditId, b: AuditId)
    requires Step(w, call, w') && WorldOk(w) && a in w'.audits && b in w'.audits
    requires SameRevision(w'.audits[a], w'.audits[b])
    ensures a == b
  {
    hide Step, Allowed, JobsOk, AuditsOk, S.ShelfOk, SourcesOk, PlacesOk;
    if a in w.audits {
      EveryAuditEvolves(w, call, w', a);
    } else {
      NewAudits(w, call, w', a);
      NewRevisionIsAbove(w, call, w', a, b);
    }
    if b in w.audits {
      EveryAuditEvolves(w, call, w', b);
    } else {
      NewAudits(w, call, w', b);
      NewRevisionIsAbove(w, call, w', b, a);
    }
    if a in w.audits && b in w.audits {
      assert SameRevision(w.audits[a], w.audits[b]);
    }
  }

  lemma KeepsLowerRevision(w: World, call: Call, w': World, id: AuditId)
    requires Step(w, call, w') && WorldOk(w) && id in w'.audits && w'.audits[id].revision > 1
    ensures HasRevision(w', w'.audits[id].snapshot, w'.audits[id].revision - 1)
  {
    hide Step, Allowed, JobsOk, AuditsOk, S.ShelfOk, SourcesOk, PlacesOk;
    var snapshot, lower := w'.audits[id].snapshot, w'.audits[id].revision - 1;
    if id in w.audits {
      EveryAuditEvolves(w, call, w', id);
    } else {
      NewRevisionIsNext(w, call, w', id);
    }
    assert HasRevision(w, snapshot, lower);
    hide RevisionsOk;
    var below: AuditId :| OfSnapshot(w, below, snapshot) && w.audits[below].revision == lower;
    EveryAuditEvolves(w, call, w', below);
    assert OfSnapshot(w', below, snapshot);
  }

  lemma StepKeepsRevisions(w: World, call: Call, w': World)
    requires Step(w, call, w') && WorldOk(w)
    ensures RevisionsOk(w')
  {
    hide Step, Allowed, JobsOk, AuditsOk, S.ShelfOk, SourcesOk, PlacesOk, HasRevision;
    forall id | id in w'.audits
      ensures w'.audits[id].revision > 0 && (w'.audits[id].revision == 1 <==> w'.audits[id].previous.None?)
      ensures w'.audits[id].revision > 1 ==> HasRevision(w', w'.audits[id].snapshot, w'.audits[id].revision - 1)
    {
      if id in w.audits {
        EveryAuditEvolves(w, call, w', id);
      } else {
        NewRevisionIsNext(w, call, w', id);
      }
      if w'.audits[id].revision > 1 {
        KeepsLowerRevision(w, call, w', id);
      }
    }
    forall a, b | a in w'.audits && b in w'.audits && SameRevision(w'.audits[a], w'.audits[b]) ensures a == b {
      RevisionStaysUnique(w, call, w', a, b);
    }
  }

  lemma StepKeepsSources(w: World, call: Call, w': World)
    requires Step(w, call, w') && WorldOk(w)
    ensures SourcesOk(w')
  {
    hide Step, JobsOk, S.ShelfOk, PlacesOk;
    forall id | id in w'.audits ensures Descends(w', w'.audits[id]) {
      if id in w.audits {
        hide Allowed;
        EveryAuditEvolves(w, call, w', id);
        assert Descends(w, w.audits[id]);
        if w.audits[id].previous.Some? {
          EveryAuditEvolves(w, call, w', w.audits[id].previous.value);
        }
      } else {
        NewAudits(w, call, w', id);
        if call.Reevaluate? {
          SourceOfNew(w, call, w', id);
        }
      }
    }
  }

  lemma SourceOfNew(w: World, call: Call, w': World, id: AuditId)
    requires Step(w, call, w') && WorldOk(w) && id in w'.audits && id !in w.audits && call.Reevaluate?
    ensures Descends(w', w'.audits[id])
  {
    NewAudits(w, call, w', id);
    NewRevisionIsNext(w, call, w', id);
    hide Step, JobsOk, S.ShelfOk, PlacesOk, HighestRevision;
    assert AuditOk(w.audits[call.source]) && IsCompleted(w.audits[call.source].status);
    assert OfSnapshot(w, call.source, w.audits[call.source].snapshot);
  }

  /** One call takes the shelf at most one step of its own. */
  lemma ShelfSteps(w: World, call: Call, w': World) returns (c: S.Call)
    requires Step(w, call, w')
    ensures w'.shelf == w.shelf || S.Step(w.shelf, c, w'.shelf)
  {
    hide S.EvidenceValid, S.Effect, HighestRevision, Advance;
    c := S.Call.Lock(0);
    if call.OnShelf? {
      c := call.call;
    } else if call.StartAudit? && call.id in w.audits {
      c := S.Call.Lock(w.audits[call.id].snapshot);
    }
    if RunOf(call).Some? && Allowed(w, call) {
      RunFrame(w, call, w', RunOf(call).value);
    }
  }

  lemma StepKeepsPlaces(w: World, call: Call, w': World)
    requires Step(w, call, w') && WorldOk(w)
    ensures PlacesOk(w')
  {
    var c := ShelfSteps(w, call, w');
    hide Step, JobsOk, AuditsOk, SourcesOk, RevisionsOk, S.ShelfOk, S.Step;
    if w'.shelf != w.shelf {
      S.StepKeepsShelf(w.shelf, c, w'.shelf);
    }
    forall id | id in w'.audits ensures Placed(w', w'.audits[id]) {
      if id in w.audits {
        EveryAuditEvolves(w, call, w', id);
        assert Placed(w, w.audits[id]);
        if w'.shelf != w.shelf {
          S.MembersStay(w.shelf, c, w'.shelf, w.audits[id].snapshot);
        }
      } else {
        NewAudits(w, call, w', id);
        assert call.Reevaluate? ==> Placed(w, w.audits[call.source]);
      }
    }
  }

  lemma StepKeepsWorld(w: World, call: Call, w': World)
    requires Step(w, call, w') && WorldOk(w)
    ensures WorldOk(w')
  {
    hide Step, AuditsOk, SourcesOk, RevisionsOk, PlacesOk, JobsOk;
    StepKeepsAudits(w, call, w');
    StepKeepsRevisions(w, call, w');
    StepKeepsSources(w, call, w');
    StepKeepsPlaces(w, call, w');
    if RunOf(call).Some? {
      if Allowed(w, call) {
        RunKeepsJobs(w, call, w');
      } else {
        RefusedChangesNothing(w, call, w');
      }
    } else {
      UserKeepsJobs(w, call, w');
    }
  }

  lemma RefusedChangesNothing(w: World, call: Call, w': World)
    requires Step(w, call, w') && !Allowed(w, call)
    ensures w' == w
  {
  }

  // ---------------------------------------------------------------- whole histories

  ghost predicate History(states: seq<World>, calls: seq<Call>) {
    |states| == |calls| + 1 && forall i :: 0 <= i < |calls| ==> Step(states[i], calls[i], states[i + 1])
  }

  lemma {:induction false} EveryWorldIsOk(states: seq<World>, calls: seq<Call>, n: nat)
    requires History(states, calls) && WorldOk(states[0]) && n <= |calls|
    ensures WorldOk(states[n])
  {
    hide Step, WorldOk;
    if n > 0 {
      EveryWorldIsOk(states, calls, n - 1);
      StepKeepsWorld(states[n - 1], calls[n - 1], states[n]);
    }
  }

  lemma EmptyWorldIsOk()
    ensures WorldOk(World(S.Shelf(map[], map[]), map[], map[], map[]))
  {
  }

  /**
   Whatever runs, users and other workers do in between: a version an audit is pinned to never changes, and an
   audit that has completed or failed never changes at all, so it is never processed again.
   */
  lemma {:induction false} PinsNeverChange(states: seq<World>, calls: seq<Call>, i: nat, j: nat, id: AuditId)
    requires History(states, calls) && WorldOk(states[0]) && i <= j <= |calls| && id in states[i].audits
    ensures id in states[j].audits && Evolves(states[i].audits[id], states[j].audits[id])
    decreases j - i
  {
    hide Step, AuditOk, RevisionsOk, SourcesOk, PlacesOk, JobsOk;
    if i < j {
      PinsNeverChange(states, calls, i, j - 1, id);
      EveryWorldIsOk(states, calls, j - 1);
      EveryAuditEvolves(states[j - 1], calls[j - 1], states[j], id);
    }
  }

  // ---------------------------------------------------------------- what a completed audit tells

  /** The run of this job pinned its rule pack and policy at this call. */
  ghost predicate CompliedAt(states: seq<World>, calls: seq<Call>, c: nat, job: JobId)
    requires |states| == |calls| + 1
  {
    && c < |calls| && calls[c].Comply? && calls[c].job == job && job in states[c + 1].jobs
    && states[c + 1].jobs[job] in states[c + 1].audits
    && var refs := states[c + 1].audits[states[c + 1].jobs[job]].refs;
    && refs.rulePacks.Some? && calls[c].expected in refs.rulePacks.value && refs.policy == Some(calls[c].policy)
  }

  lemma StepOnRun(w: World, call: Call, w': World, job: JobId)
    requires Step(w, call, w') && JobsOk(w) && job in w'.runs && w'.runs[job].Complied?
    ensures job in w'.jobs && w'.jobs[job] in w'.audits
    ensures (job in w.runs && w.runs[job].Complied? && job in w.jobs && w'.jobs[job] == w.jobs[job])
         || (call.Comply? && call.job == job
             && var refs := w'.audits[w'.jobs[job]].refs;
                refs.rulePacks.Some? && call.expected in refs.rulePacks.value && refs.policy == Some(call.policy))
  {
    hide Step, Allowed, Advance, RowAgrees, Resolvable, S.ShelfOk;
    if RunOf(call).None? {
      UserFrame(w, call, w');
      assert JobOk(w, job);
    } else if Allowed(w, call) {
      RunFrame(w, call, w', RunOf(call).value);
      if RunOf(call).value == job {
        assert PcOf(w', job) == Some(w'.runs[job]);
        OnlyComplyComplies(w.audits[w.jobs[job]], PcOf(w, job), call, Resolvable(w, w.audits[w.jobs[job]]));
      } else {
        assert PcOf(w', job) == PcOf(w, job);
        assert JobOk(w, job);
      }
    } else {
      RefusedCall(w, call, w');
      assert JobOk(w, job);
    }
  }

  lemma RefusedCall(w: World, call: Call, w': World)
    requires Step(w, call, w') && !Allowed(w, call)
    ensures w' == w
  {
  }

  lemma OnlyComplyComplies(audit: Audit, pc: Option<Pc>, call: Call, usable: bool)
    requires Enabled(pc, call) && Advance(audit, pc, call, usable).1.Complied?
    ensures call.Comply?
    ensures var refs := Advance(audit, pc, call, usable).0.refs;
            refs.rulePacks.Some? && call.expected in refs.rulePacks.value && refs.policy == Some(call.policy)
  {
    hide Terminal;
    if call.Comply? {
      ComplySays(audit, pc, call.job, call.expected, call.policy, usable);
    }
  }

  lemma {:induction false} CompliedRun(states: seq<World>, calls: seq<Call>, n: nat, job: JobId) returns (c: nat)
    requires History(states, calls) && WorldOk(states[0]) && states[0].runs == map[] && n <= |calls|
    requires job in states[n].runs && states[n].runs[job].Complied?
    ensures c < n && CompliedAt(states, calls, c, job) && job in states[n].jobs
    ensures states[c + 1].jobs[job] == states[n].jobs[job]
  {
    hide Step, WorldOk;
    EveryWorldIsOk(states, calls, n - 1);
    assert JobsOk(states[n - 1]) by {
      WorldHasJobs(states[n - 1]);
    }
    StepOnRun(states[n - 1], calls[n - 1], states[n], job);
    if calls[n - 1].Comply? && calls[n - 1].job == job && CompliedAt(states, calls, n - 1, job) {
      c := n - 1;
    } else {
      c := CompliedRun(states, calls, n - 1, job);
    }
  }

  lemma WorldHasJobs(w: World)
    requires WorldOk(w)
    ensures JobsOk(w) && AuditsOk(w)
  {
  }

  /** An audit only completes at the last step of its run, with the status its verdicts call for. */
  lemma OnlyFinalizeCompletes(w: World, call: Call, w': World, id: AuditId)
    requires Step(w, call, w') && WorldOk(w) && id in w'.audits && IsCompleted(w'.audits[id].status)
    requires id in w.audits ==> !IsCompleted(w.audits[id].status)
    ensures call.Finalize? && call.job in w.jobs && w.jobs[call.job] == id
    ensures Befits(w'.audits[id].status, call.verdicts)
    ensures call.job in w.runs && w.runs[call.job].Complied?
  {
    hide Step, Allowed, Advance, RowAgrees, Resolvable, S.ShelfOk, Befits, RevisionsOk, SourcesOk, PlacesOk;
    if id !in w.audits {
      NewAudits(w, call, w', id);
    } else if RunOf(call).None? {
      UserFrame(w, call, w');
    } else if Allowed(w, call) {
      var job := RunOf(call).value;
      RunFrame(w, call, w', job);
      OnlyFinalizing(w.audits[w.jobs[job]], PcOf(w, job), call, Resolvable(w, w.audits[w.jobs[job]]));
    } else {
      RefusedCall(w, call, w');
    }
  }

  lemma OnlyFinalizing(audit: Audit, pc: Option<Pc>, call: Call, usable: bool)
    requires Enabled(pc, call) && !IsCompleted(audit.status)
    ensures IsCompleted(Advance(audit, pc, call, usable).0.status) ==>
              && call.Finalize? && pc.Some? && pc.value.Complied?
              && Befits(Advance(audit, pc, call, usable).0.status, call.verdicts)
  {
    hide Befits, Terminal;
    if call.Finalize? {
      FinalizeSays(audit, pc, call.job, call.verdicts, usable);
    }
  }

  /**
   A completed audit tells how it was judged, over every history: its run finalized it on verdicts that call for its
   status, after a step that evaluated it under a rule pack among those it is pinned to and the policy it is pinned to.
   */
  lemma {:induction false} CompletedAuditTells(states: seq<World>, calls: seq<Call>, n: nat, id: AuditId)
    returns (c: nat, k: nat)
    requires History(states, calls) && WorldOk(states[0]) && states[0].runs == map[] && n <= |calls|
    requires forall q :: q in states[0].audits ==> !IsCompleted(states[0].audits[q].status)
    requires id in states[n].audits && IsCompleted(states[n].audits[id].status)
    ensures c < k < n && calls[k].Finalize? && calls[c].Comply? && calls[c].job == calls[k].job
    ensures calls[k].job in states[k].jobs && states[k].jobs[calls[k].job] == id
    ensures Befits(states[n].audits[id].status, calls[k].verdicts)
    ensures var refs := states[n].audits[id].refs;
            && refs.rulePacks.Some? && calls[c].expected in refs.rulePacks.value
            && refs.policy == Some(calls[c].policy)
  {
    hide Step, WorldOk, Befits;
    var w := states[n - 1];
    EveryWorldIsOk(states, calls, n - 1);
    if id in w.audits && IsCompleted(w.audits[id].status) {
      c, k := CompletedAuditTells(states, calls, n - 1, id);
      PinsNeverChange(states, calls, n - 1, n, id);
    } else {
      k := n - 1;
      OnlyFinalizeCompletes(w, calls[k], states[n], id);
      c := CompliedRun(states, calls, k, calls[k].job);
      PinsNeverChange(states, calls, c + 1, n, id);
    }
  }


  /** A snapshot's audits are numbered 1, 2, … without gaps: the numbers up to any of them are all taken, once. */
  lemma RevisionsAreConsecutive(states: seq<World>, calls: seq<Call>, n: nat, id: AuditId, revision: nat)
    returns (other: AuditId)
    requires History(states, calls) && WorldOk(states[0]) && n <= |calls| && id in states[n].audits
    requires 1 <= revision <= states[n].audits[id].revision
    ensures OfSnapshot(states[n], other, states[n].audits[id].snapshot) && states[n].audits[other].revision == revision
    ensures forall q :: OfSnapshot(states[n], q, states[n].audits[id].snapshot) ==>
              states[n].audits[q].revision == revision ==> q == other
    ensures revision == 1 <==> states[n].audits[other].previous.None?
  {
    hide Step, JobsOk, AuditsOk, SourcesOk, PlacesOk;
    EveryWorldIsOk(states, calls, n);
    other := EveryLowerRevision(states[n], id, revision);
    forall q | OfSnapshot(states[n], q, states[n].audits[id].snapshot) && states[n].audits[q].revision == revision
      ensures q == other
    {
      assert SameRevision(states[n].audits[q], states[n].audits[other]);
    }
  }

  /** Following `previous` from any audit leads to the first revision of its snapshot, under the same profile. */
  lemma {:induction false} FirstOf(w: World, id: AuditId) returns (first: AuditId)
    requires RevisionsOk(w) && SourcesOk(w) && id in w.audits
    ensures OfSnapshot(w, first, w.audits[id].snapshot) && w.audits[first].revision == 1
    ensures w.audits[id].previous.Some? ==> w.audits[first].refs.profile == w.audits[id].refs.profile
    ensures w.audits[id].previous.None? ==> first == id
    decreases w.audits[id].revision
  {
    if w.audits[id].previous.None? {
      first := id;
    } else {
      assert Descends(w, w.audits[id]);
      first := FirstOf(w, w.audits[id].previous.value);
    }
  }

  /** All revisions of a snapshot that are pinned to a device profile are pinned to the same one. */
  lemma RevisionsShareTheProfile(states: seq<World>, calls: seq<Call>, n: nat, a: AuditId, b: AuditId)
    requires History(states, calls) && WorldOk(states[0]) && n <= |calls| && a in states[n].audits
    requires b in states[n].audits
    requires states[n].audits[a].snapshot == states[n].audits[b].snapshot
    requires states[n].audits[a].refs.profile.Some? && states[n].audits[b].refs.profile.Some?
    ensures states[n].audits[a].refs.profile == states[n].audits[b].refs.profile
  {
    hide Step, JobsOk, AuditsOk, PlacesOk;
    EveryWorldIsOk(states, calls, n);
    var firstA := FirstOf(states[n], a);
    var firstB := FirstOf(states[n], b);
    assert SameRevision(states[n].audits[firstA], states[n].audits[firstB]);
  }

  /** From the moment an audit exists, the evidence of its snapshot is the same, digest for digest. */
  lemma {:induction false} EvidenceStands(states: seq<World>, calls: seq<Call>, i: nat, j: nat, id: AuditId)
    requires History(states, calls) && WorldOk(states[0]) && i <= j <= |calls| && id in states[i].audits
    ensures id in states[j].audits && states[j].audits[id].snapshot == states[i].audits[id].snapshot
    ensures Placed(states[j], states[j].audits[id])
    ensures S.SameMembers(states[i].shelf.artifacts, states[j].shelf.artifacts, states[i].audits[id].snapshot)
    decreases j - i
  {
    hide Step, JobsOk, AuditsOk, RevisionsOk, SourcesOk, S.ShelfOk, S.Step;
    EveryWorldIsOk(states, calls, j);
    if i < j {
      EvidenceStands(states, calls, i, j - 1, id);
      EveryWorldIsOk(states, calls, j - 1);
      var w, w' := states[j - 1], states[j];
      EveryAuditEvolves(w, calls[j - 1], w', id);
      var c := ShelfSteps(w, calls[j - 1], w');
      if w'.shelf != w.shelf {
        S.MembersStay(w.shelf, c, w'.shelf, w.audits[id].snapshot);
      }
    }
  }
}
