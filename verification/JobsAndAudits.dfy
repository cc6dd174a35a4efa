/**
 Jobs and the audits they stand for (backend/app/jobs/runner.py:87-147, backend/app/jobs/handlers/audit.py:28-69,
 backend/app/audit/pipeline.py:56-170, 241-270).

 A worker claims the job of an audit, makes the transactions of the run and ends the job.  The lease guards only the
 calls on the job: a worker whose job recovery has failed goes on with its run.  An event is one call on the table of
 jobs, one transaction on the audits, the return of a handler, or the terminal update of its worker.
 */
module JobsAndAudits {
  import opened Common
  import opened Verdicts
  import J = JobLease
  import A = Audits
  import H = AuditHistories
  import W = Worker

  type JobId = nat

  /** How a run goes: on, to an exception, or to a profile that stays unsettled, which is a failure without one. */
  datatype Course = Going | Raised | Unsettled

  /** Where the worker stands; a handler that returns has failed or not. */
  datatype Phase = Running | Returned(failed: bool) | Over(failed: bool)

  datatype Hand = Hand(owner: string, phase: Phase, course: Course)

  /** `recovered` remembers the jobs that recovery has failed. */
  datatype System = System(table: J.Table, world: A.World, hands: map<JobId, Hand>, recovered: set<JobId>)

  datatype Event =
    | User(call: A.Call, jobType: string)
    | Lease(lease: J.Call)
    | Work(call: A.Call)
    | Return(job: JobId, failed: bool)
    | End(job: JobId)

  // ---------------------------------------------------------------- one event

  predicate Submits(call: A.Call) {
    call.StartAudit? || call.Reevaluate?
  }

  /** The profile is looked up without error and is not settled. */
  predicate StaysUnsettled(audit: A.Audit, usable: bool, selected: Option<A.ProfileId>, resolved: bool) {
    if audit.previous.Some? then audit.resolution.profile.Some? && A.Settled(audit.resolution) == A.Failing
    else
      && usable && !(audit.refs.profile.Some? && audit.refs.profile != selected)
      && A.Settled(A.Resolution(selected, resolved)) == A.Failing
  }

  /** How the run goes after one of its transactions. */
  function CourseAfter(course: Course, audit: A.Audit, pc: A.Pc, call: A.Call, usable: bool): Course
    requires A.Enabled(Some(pc), call)
  {
    var after := A.Advance(audit, Some(pc), call, usable).1;
    if call.FailRun? then if pc == A.Failing then course else Raised
    else if call.Identify? && after == A.Failing then
      if StaysUnsettled(audit, usable, call.selected, call.resolved) then Unsettled else Raised
    else if after == A.Failing || (call.Begin? && after == A.Done) then Raised
    else course
  }

  /** The handler may come back so: with an exception, or at the end of its run. */
  predicate MayReturn(s: System, job: JobId, failed: bool) {
    && job in s.hands && s.hands[job].phase == Running && job in s.world.runs
    && CameBack(s.world.runs[job], s.hands[job].course, failed)
  }

  function Ending(job: JobId, hand: Hand, failed: bool): J.Call {
    if failed then J.Fail(job, hand.owner, W.HANDLER_FAILURE_CODE, W.HANDLER_FAILURE_MESSAGE)
    else J.Complete(job, hand.owner)
  }

  function Changed(t: J.Table, t': J.Table): set<JobId> {
    set id | id in t && id in t' && t'[id] != t[id]
  }

  /** The claim takes the job of an audit. */
  ghost predicate Takes(s: System, call: J.Call, job: JobId) {
    J.Starts(s.table, call, job) && job in s.world.jobs
  }

  ghost predicate UserNext(s: System, call: A.Call, jobType: string, now: real, s': System) {
    if A.RunOf(call).Some? || (Submits(call) && call.job in s.table) then s' == s
    else
      && A.Step(s.world, call, s'.world)
      && s'.table == (if Submits(call) && call.job in s'.world.jobs && call.job !in s.world.jobs
                      then s.table[call.job := J.Fresh(jobType, now)] else s.table)
      && s'.hands == s.hands && s'.recovered == s.recovered
  }

  /** Submission enqueues the jobs of audits, and their workers end them. */
  predicate Elsewhere(s: System, call: J.Call) {
    call.Enqueue? || call.Complete? || call.Fail? ==> call.id !in s.world.jobs
  }

  ghost predicate LeaseNext(s: System, call: J.Call, now: real, s': System) {
    if !Elsewhere(s, call) then s' == s
    else
      && J.Step(s.table, call, now, s'.table)
      && s'.recovered == s.recovered + (if call.Recover? then Changed(s.table, s'.table) else {})
      && ((exists job: JobId :: Takes(s, call, job) && Claimed(s, call, job, s'))
          || ((forall job: JobId :: !Takes(s, call, job)) && s'.world == s.world && s'.hands == s.hands))
  }

  ghost predicate Claimed(s: System, call: J.Call, job: JobId, s': System) {
    && call.Claim? && A.Step(s.world, A.Claim(job), s'.world)
    && s'.hands == s.hands[job := Hand(call.owner, Running, Going)]
  }

  /** The next transaction of a run, whatever has become of the job. */
  ghost predicate MayWork(s: System, call: A.Call) {
    && A.RunOf(call).Some? && !call.Claim? && A.Allowed(s.world, call)
    && call.job in s.hands && s.hands[call.job].phase == Running && call.job in s.world.runs
  }

  ghost predicate WorkNext(s: System, call: A.Call, s': System) {
    if !MayWork(s, call) then s' == s
    else
      var audit, hand := s.world.audits[s.world.jobs[call.job]], s.hands[call.job];
      var usable := A.Resolvable(s.world, audit);
      && A.Step(s.world, call, s'.world)
      && s'.hands == s.hands[call.job := hand.(course :=
           CourseAfter(hand.course, audit, s.world.runs[call.job], call, usable))]
      && s'.table == s.table && s'.recovered == s.recovered
  }

  ghost predicate EndNext(s: System, job: JobId, now: real, s': System) {
    if !(job in s.hands && s.hands[job].phase.Returned?) then s' == s
    else
      var hand := s.hands[job];
      && J.Step(s.table, Ending(job, hand, hand.phase.failed), now, s'.table)
      && s'.hands == s.hands[job := hand.(phase := Over(hand.phase.failed))]
      && s'.world == s.world && s'.recovered == s.recovered
  }

  ghost predicate Next(s: System, e: Event, now: real, s': System) {
    match e
    case User(call, jobType) => UserNext(s, call, jobType, now, s')
    case Lease(call) => LeaseNext(s, call, now, s')
    case Work(call) => WorkNext(s, call, s')
    case Return(job, failed) =>
      if MayReturn(s, job, failed) then s' == s.(hands := s.hands[job := s.hands[job].(phase := Returned(failed))])
      else s' == s
    case End(job) => EndNext(s, job, now, s')
  }

  // ---------------------------------------------------------------- what always holds

  /** A course off the way shows in where the run stands, and an audit completes on the way only. */
  predicate CourseOk(audit: A.Audit, pc: A.Pc, course: Course) {
    && (course == Going ==> pc != A.Failing && (pc == A.Done ==> A.IsCompleted(audit.status)))
    && (course != Going ==> pc in {A.Failing, A.Done} && !A.IsCompleted(audit.status))
  }

  /** A handler fails on an exception or short of the end of its run; without one it comes back at the end. */
  predicate CameBack(pc: A.Pc, course: Course, failed: bool) {
    if failed then course == Raised || pc != A.Done else pc == A.Done && course != Raised
  }

  predicate PhaseOk(pc: A.Pc, hand: Hand) {
    hand.phase.Running? || CameBack(pc, hand.course, hand.phase.failed)
  }

  /** How the job and its worker go together. */
  predicate EndOk(status: J.Status, hand: Hand, recovered: bool) {
    && status != J.Queued
    && (status == J.Completed ==> hand.phase == Over(false))
    && (status == J.Failed ==> recovered || hand.phase == Over(true))
    && (recovered ==> status == J.Failed)
  }

  predicate Handled(s: System, job: JobId)
    requires job in s.world.jobs
  {
    && job in s.table && s.world.jobs[job] in s.world.audits
    && (job in s.hands <==> s.table[job].status != J.Queued) && (job in s.hands <==> job in s.world.runs)
    && (job !in s.hands ==> job !in s.recovered)
    && (job in s.hands ==>
          && CourseOk(s.world.audits[s.world.jobs[job]], s.world.runs[job], s.hands[job].course)
          && PhaseOk(s.world.runs[job], s.hands[job])
          && EndOk(s.table[job].status, s.hands[job], job in s.recovered))
  }

  ghost predicate SystemOk(s: System) {
    && H.WorldOk(s.world) && s.hands.Keys <= s.world.jobs.Keys && s.recovered <= s.table.Keys
    && forall job :: job in s.world.jobs ==> Handled(s, job)
  }

  // ---------------------------------------------------------------- one event keeps it

  lemma CourseKept(audit: A.Audit, pc: A.Pc, course: Course, call: A.Call, usable: bool)
    requires A.Enabled(Some(pc), call) && A.Agrees(audit, pc) && CourseOk(audit, pc, course)
    ensures var outcome := A.Advance(audit, Some(pc), call, usable);
            CourseOk(outcome.0, outcome.1, CourseAfter(course, audit, pc, call, usable))
  {
  }

  lemma WorldFacts(w: A.World, job: JobId)
    requires H.WorldOk(w) && job in w.jobs
    ensures w.jobs[job] in w.audits && A.RowAgrees(w.audits[w.jobs[job]], A.PcOf(w, job))
    ensures w.audits[w.jobs[job]].status != A.Draft
    ensures forall other :: other in w.jobs && w.jobs[other] == w.jobs[job] ==> other == job
    ensures forall run :: run in w.runs ==> run in w.jobs
  {
    hide H.RevisionsOk, H.SourcesOk, H.PlacesOk, A.AuditsOk;
    assert A.JobOk(w, job);
    A.NeverDraft(w.audits[w.jobs[job]], A.PcOf(w, job));
    forall other | other in w.jobs && w.jobs[other] == w.jobs[job] ensures other == job {
      assert A.SameAudit(w, other, job);
    }
  }

  lemma WorkKeeps(s: System, call: A.Call, s': System)
    requires SystemOk(s) && WorkNext(s, call, s')
    ensures SystemOk(s')
  {
    hide A.Step, A.Allowed, A.Advance, A.Agrees, H.WorldOk, CourseAfter, A.Resolvable, Handled;
    if MayWork(s, call) {
      H.StepKeepsWorld(s.world, call, s'.world);
      A.RunFrame(s.world, call, s'.world, call.job);
      forall job | job in s'.world.jobs ensures Handled(s', job) {
        WorkKeepsJob(s, call, s', job);
      }
    }
  }

  lemma WorkKeepsJob(s: System, call: A.Call, s': System, job: JobId)
    requires SystemOk(s) && WorkNext(s, call, s') && MayWork(s, call) && job in s'.world.jobs
    ensures Handled(s', job)
  {
    hide A.Step, A.Allowed, A.Advance, A.Agrees, H.WorldOk, CourseAfter, CourseOk, A.Resolvable;
    A.RunFrame(s.world, call, s'.world, call.job);
    assert Handled(s, job);
    WorldFacts(s.world, job);
    WorldFacts(s.world, call.job);
    if job == call.job {
      var audit := s.world.audits[s.world.jobs[job]];
      CourseKept(audit, s.world.runs[job], s.hands[job].course, call, A.Resolvable(s.world, audit));
    } else {
      assert A.PcOf(s'.world, job) == A.PcOf(s.world, job);
    }
  }

  /** What a call on the table does to the job of an audit. */
  lemma LeaseMoves(s: System, call: J.Call, now: real, t': J.Table, job: JobId)
    requires J.Step(s.table, call, now, t') && Elsewhere(s, call) && job in s.world.jobs && job in s.table
    ensures job in t'
    ensures t'[job].status == s.table[job].status
         || (J.Starts(s.table, call, job) && t'[job].status == J.Processing && s.table[job].status == J.Queued)
         || (call.Recover? && t'[job].status == J.Failed && s.table[job].status == J.Processing)
    ensures call.Recover? && t'[job] != s.table[job] ==>
              t'[job].status == J.Failed && s.table[job].status == J.Processing
    ensures J.Starts(s.table, call, job) ==> t'[job].status == J.Processing
  {
    hide J.ValidCode, J.ValidMessage;
    J.EveryJobMoves(s.table, call, now, t', job);
    if J.Starts(s.table, call, job) {
      J.ClaimTakesTheOldest(s.table, call, now, t', job);
    }
  }

  lemma TableGrows(t: J.Table, call: J.Call, now: real, t': J.Table)
    requires J.Step(t, call, now, t')
    ensures t.Keys <= t'.Keys
  {
    forall id | id in t ensures id in t' {
      J.EveryJobMoves(t, call, now, t', id);
    }
  }

  lemma ClaimAllowed(s: System, call: J.Call, job: JobId)
    requires SystemOk(s) && Takes(s, call, job)
    ensures job !in s.hands && A.Allowed(s.world, A.Claim(job)) && A.RunOf(A.Claim(job)) == Some(job)
  {
    assert Handled(s, job);
    WorldFacts(s.world, job);
  }

  lemma LeaseKeeps(s: System, call: J.Call, now: real, s': System)
    requires SystemOk(s) && LeaseNext(s, call, now, s')
    ensures SystemOk(s')
  {
    hide J.Step, J.Starts, A.Step, A.Allowed, A.Advance, H.WorldOk, CourseOk;
    if Elsewhere(s, call) {
      TableGrows(s.table, call, now, s'.table);
      if claimed: JobId :| Takes(s, call, claimed) && Claimed(s, call, claimed, s') {
        ClaimAllowed(s, call, claimed);
        H.StepKeepsWorld(s.world, A.Claim(claimed), s'.world);
        A.RunFrame(s.world, A.Claim(claimed), s'.world, claimed);
        forall job | job in s'.world.jobs ensures Handled(s', job) {
          ClaimKeepsJob(s, call, now, s', claimed, job);
        }
      } else {
        forall job | job in s'.world.jobs ensures Handled(s', job) {
          assert Handled(s, job);
          LeaseMoves(s, call, now, s'.table, job);
          assert !Takes(s, call, job);
        }
      }
    }
  }

  lemma ClaimKeepsJob(s: System, call: J.Call, now: real, s': System, claimed: JobId, job: JobId)
    requires SystemOk(s) && LeaseNext(s, call, now, s') && Elsewhere(s, call)
    requires Takes(s, call, claimed) && Claimed(s, call, claimed, s') && job in s'.world.jobs
    ensures Handled(s', job)
  {
    hide J.Step, J.Starts, A.Step, A.Allowed, A.Agrees, H.WorldOk, Handled;
    ClaimAllowed(s, call, claimed);
    A.RunFrame(s.world, A.Claim(claimed), s'.world, claimed);
    if job == claimed {
      ClaimedIsHandled(s, call, now, s', job);
    } else {
      OthersAreHandled(s, call, now, s', claimed, job);
    }
  }

  lemma ClaimedIsHandled(s: System, call: J.Call, now: real, s': System, job: JobId)
    requires SystemOk(s) && LeaseNext(s, call, now, s') && Elsewhere(s, call)
    requires Takes(s, call, job) && Claimed(s, call, job, s') && job in s'.world.jobs
    ensures Handled(s', job)
  {
    hide J.Step, J.Starts, A.Step, A.Allowed, A.Agrees, H.WorldOk;
    ClaimAllowed(s, call, job);
    A.RunFrame(s.world, A.Claim(job), s'.world, job);
    assert Handled(s, job);
    WorldFacts(s.world, job);
    LeaseMoves(s, call, now, s'.table, job);
    assert A.PcOf(s'.world, job) == Some(A.Claimed);
  }

  lemma OthersAreHandled(s: System, call: J.Call, now: real, s': System, claimed: JobId, job: JobId)
    requires SystemOk(s) && LeaseNext(s, call, now, s') && Elsewhere(s, call) && job != claimed
    requires Takes(s, call, claimed) && Claimed(s, call, claimed, s') && job in s'.world.jobs
    ensures Handled(s', job)
  {
    hide J.Step, J.Starts, A.Step, A.Allowed, A.Agrees, H.WorldOk, CourseOk, PhaseOk, EndOk;
    ClaimAllowed(s, call, claimed);
    A.RunFrame(s.world, A.Claim(claimed), s'.world, claimed);
    assert Handled(s, job) && Handled(s, claimed);
    WorldFacts(s.world, job);
    WorldFacts(s.world, claimed);
    OneIsStarted(s.table, call, now, s'.table, claimed, job);
    assert A.PcOf(s'.world, job) == A.PcOf(s.world, job);
  }

  lemma OneIsStarted(t: J.Table, call: J.Call, now: real, t': J.Table, claimed: JobId, job: JobId)
    requires J.Step(t, call, now, t') && J.Starts(t, call, claimed) && job != claimed && job in t
    ensures job in t' && t'[job] == t[job]
  {
    J.ClaimTakesTheOldest(t, call, now, t', claimed);
  }

  lemma EndKeeps(s: System, job: JobId, now: real, s': System)
    requires SystemOk(s) && EndNext(s, job, now, s')
    ensures SystemOk(s')
  {
    hide H.WorldOk, CourseOk, J.Step;
    if job in s.hands && s.hands[job].phase.Returned? {
      var call := Ending(job, s.hands[job], s.hands[job].phase.failed);
      TableGrows(s.table, call, now, s'.table);
      forall other | other in s'.world.jobs ensures Handled(s', other) {
        assert Handled(s, other);
        EndMoves(s.table, call, now, s'.table, other);
      }
    }
  }

  /** The terminal update changes its own job only, from processing to the end it asks for. */
  lemma EndMoves(t: J.Table, call: J.Call, now: real, t': J.Table, job: JobId)
    requires J.Step(t, call, now, t') && (call.Complete? || call.Fail?) && job in t
    ensures job in t'
    ensures t'[job] == t[job] || (call.id == job && t[job].status == J.Processing
                                  && t'[job].status == if call.Complete? then J.Completed else J.Failed)
  {
    hide J.ValidCode, J.ValidMessage;
    J.EveryJobMoves(t, call, now, t', job);
  }

  lemma UserKeeps(s: System, call: A.Call, jobType: string, now: real, s': System)
    requires SystemOk(s) && UserNext(s, call, jobType, now, s')
    ensures SystemOk(s')
  {
    hide A.Step, A.Allowed, A.Agrees, H.WorldOk, Handled;
    if A.RunOf(call).None? && !(Submits(call) && call.job in s.table) {
      H.StepKeepsWorld(s.world, call, s'.world);
      A.UserFrame(s.world, call, s'.world);
      forall job | job in s'.world.jobs ensures Handled(s', job) {
        UserKeepsJob(s, call, jobType, now, s', job);
      }
    }
  }

  lemma UserKeepsJob(s: System, call: A.Call, jobType: string, now: real, s': System, job: JobId)
    requires SystemOk(s) && UserNext(s, call, jobType, now, s') && H.WorldOk(s'.world) && job in s'.world.jobs
    requires A.RunOf(call).None? && !(Submits(call) && call.job in s.table)
    ensures Handled(s', job)
  {
    hide A.Step, A.Allowed, A.Agrees, H.WorldOk, CourseOk, PhaseOk, EndOk;
    A.UserFrame(s.world, call, s'.world);
    WorldFacts(s'.world, job);
    if job in s.world.jobs {
      assert Handled(s, job);
      WorldFacts(s.world, job);
      DraftsOnly(s.world, call, s'.world, s.world.jobs[job]);
    } else {
      NotRunning(s.world, job);
    }
  }

  lemma NotRunning(w: A.World, job: JobId)
    requires H.WorldOk(w) && job !in w.jobs
    ensures job !in w.runs
  {
  }

  /** A user's call changes no audit that was submitted. */
  lemma DraftsOnly(w: A.World, call: A.Call, w': A.World, id: A.AuditId)
    requires A.Step(w, call, w') && A.RunOf(call).None? && id in w.audits && w.audits[id].status != A.Draft
    ensures id in w'.audits && w'.audits[id] == w.audits[id]
  {
    A.UserFrame(w, call, w');
  }

  lemma NextKeepsSystem(s: System, e: Event, now: real, s': System)
    requires SystemOk(s) && Next(s, e, now, s')
    ensures SystemOk(s')
  {
    match e {
      case User(call, jobType) => UserKeeps(s, call, jobType, now, s');
      case Lease(call) => LeaseKeeps(s, call, now, s');
      case Work(call) => WorkKeeps(s, call, s');
      case End(job) => EndKeeps(s, job, now, s');
      case Return(job, failed) => ReturnKeeps(s, job, failed, s');
    }
  }

  lemma ReturnKeeps(s: System, job: JobId, failed: bool, s': System)
    requires SystemOk(s) && Next(s, Return(job, failed), 0.0, s')
    ensures SystemOk(s')
  {
    hide H.WorldOk, CourseOk;
    forall other | other in s'.world.jobs ensures Handled(s', other) {
      assert Handled(s, other);
    }
  }

  // ---------------------------------------------------------------- whole histories

  ghost predicate History(states: seq<System>, events: seq<Event>, times: seq<real>) {
    && |states| == |events| + 1 && |times| == |events|
    && forall i :: 0 <= i < |events| ==> Next(states[i], events[i], times[i], states[i + 1])
  }

  lemma {:induction false} EverySystemIsOk(states: seq<System>, events: seq<Event>, times: seq<real>, n: nat)
    requires History(states, events, times) && SystemOk(states[0]) && n <= |events|
    ensures SystemOk(states[n])
  {
    hide Next, SystemOk;
    if n > 0 {
      EverySystemIsOk(states, events, times, n - 1);
      NextKeepsSystem(states[n - 1], events[n - 1], times[n - 1], states[n]);
    }
  }

  // ---------------------------------------------------------------- when job and audit disagree

  function StatusOf(s: System, job: JobId): A.Status
    requires job in s.world.jobs && s.world.jobs[job] in s.world.audits
  {
    s.world.audits[s.world.jobs[job]].status
  }

  /** What the status of a job says of its audit. */
  predicate Agree(job: J.Status, audit: A.Status) {
    match job
    case Queued => audit == A.Queued
    case Processing => audit in {A.Queued, A.Processing}
    case Completed => A.IsCompleted(audit)
    case Failed => audit == A.Failed
  }

  /** The job has ended in a way its audit does not show. */
  predicate Disagree(s: System, job: JobId)
    requires job in s.world.jobs && s.world.jobs[job] in s.world.audits && job in s.table
  {
    s.table[job].status in {J.Completed, J.Failed} && !Agree(s.table[job].status, StatusOf(s, job))
  }

  /** The run is over, on its way to the end. */
  predicate Finished(s: System, job: JobId) {
    job in s.hands && job in s.world.runs && s.world.runs[job] == A.Done && s.hands[job].course == Going
  }

  predicate Unfinished(s: System, job: JobId) {
    job in s.world.runs && s.world.runs[job] != A.Done
  }

  /**
   A job that has ended disagrees with its audit in exactly three cases: recovery failed the job and the run finished
   all the same; the profile stayed unsettled, which fails the audit and completes the job; or the run was left
   unfinished, by recovery or by a handler that could not fail the audit.
   */
  lemma DisagreeIff(s: System, job: JobId)
    requires SystemOk(s) && job in s.world.jobs && s.table[job].status in {J.Completed, J.Failed}
    ensures Disagree(s, job) <==>
              || (job in s.recovered && Finished(s, job))
              || (job !in s.recovered && s.hands[job] == Hand(s.hands[job].owner, Over(false), Unsettled))
              || Unfinished(s, job)
  {
    hide H.WorldOk;
    assert Handled(s, job);
    WorldFacts(s.world, job);
  }

  /** So, without recovery, a job fails only if its handler did, and then its audit is never completed. */
  lemma UnrecoveredJobsTell(s: System, job: JobId)
    requires SystemOk(s) && job in s.world.jobs && job !in s.recovered
    ensures s.table[job].status == J.Completed ==> A.IsTerminal(StatusOf(s, job))
    ensures s.table[job].status == J.Failed ==> !A.IsCompleted(StatusOf(s, job))
  {
    hide H.WorldOk;
    assert Handled(s, job);
    WorldFacts(s.world, job);
  }

  /** A job is among the recovered exactly when a recovery has failed it. */
  lemma {:induction false} RecoveredIff(
    states: seq<System>, events: seq<Event>, times: seq<real>, n: nat, job: JobId)
    requires History(states, events, times) && n <= |events| && job !in states[0].recovered
    ensures job in states[n].recovered <==> exists k: nat :: k < n && FailedByRecovery(states, events, k, job)
  {
    hide Next, FailedByRecovery;
    if n > 0 {
      RecoveredIff(states, events, times, n - 1, job);
      RecoveredNext(states, events, times, n - 1, job);
    }
  }

  ghost predicate FailedByRecovery(states: seq<System>, events: seq<Event>, k: nat, job: JobId)
    requires |states| == |events| + 1 && k < |events|
  {
    && events[k].Lease? && events[k].lease.Recover? && job in states[k].table && job in states[k + 1].table
    && states[k].table[job] != states[k + 1].table[job]
  }

  lemma RecoveredNext(states: seq<System>, events: seq<Event>, times: seq<real>, k: nat, job: JobId)
    requires History(states, events, times) && k < |events|
    ensures job in states[k + 1].recovered <==>
              job in states[k].recovered || FailedByRecovery(states, events, k, job)
  {
    hide J.Step, A.Step;
    assert Next(states[k], events[k], times[k], states[k + 1]);
  }

  /** The job is FAILED and its audit completed. */
  predicate FailedAndCompleted(s: System, job: JobId) {
    && job in s.table && s.table[job].status == J.Failed
    && job in s.world.jobs && s.world.jobs[job] in s.world.audits && A.IsCompleted(StatusOf(s, job))
  }

  /** Recovery does not stop a run: at its last step it completes its audit, under a failed job. */
  lemma RecoveredRunStillFinalizes(
    s: System, job: JobId, verdicts: seq<FindingVerdict>, now: real, s': System)
    requires SystemOk(s) && Next(s, Work(A.Finalize(job, verdicts)), now, s')
    requires job in s.recovered && job in s.world.jobs && job in s.hands && s.hands[job].phase == Running
    requires job in s.world.runs && s.world.runs[job].Complied?
    ensures FailedAndCompleted(s', job)
  {
    hide H.WorldOk, A.Step, A.Advance, A.Allowed, A.Agrees, A.Resolvable, A.Terminal;
    var call, id := A.Finalize(job, verdicts), s.world.jobs[job];
    assert Handled(s, job);
    WorldFacts(s.world, job);
    FinalizeIsAllowed(s.world, call);
    A.RunFrame(s.world, call, s'.world, job);
    FinalizeCompletes(s.world.audits[id], s.world.runs[job], call, A.Resolvable(s.world, s.world.audits[id]));
  }

  lemma FinalizeIsAllowed(w: A.World, call: A.Call)
    requires call.Finalize? && call.job in w.jobs && w.jobs[call.job] in w.audits
    requires call.job in w.runs && w.runs[call.job].Complied?
    ensures A.Allowed(w, call)
  {
  }

  lemma FinalizeCompletes(audit: A.Audit, pc: A.Pc, call: A.Call, usable: bool)
    requires call.Finalize? && pc.Complied? && A.Agrees(audit, pc)
    ensures A.IsCompleted(A.Advance(audit, Some(pc), call, usable).0.status)
  {
  }

  /** The worker of the job is over. */
  predicate WorkerGone(s: System, job: JobId) {
    job in s.world.jobs && job in s.hands && s.hands[job].phase.Over?
  }

  /** Job, audit and worker stand as they stood. */
  predicate Unmoved(s: System, s': System, job: JobId)
    requires job in s.world.jobs && job in s.hands
  {
    var id := s.world.jobs[job];
    && job in s'.world.jobs && s'.world.jobs[job] == id && job in s'.hands && s'.hands[job] == s.hands[job]
    && id in s.world.audits && id in s'.world.audits && s'.world.audits[id] == s.world.audits[id]
  }

  lemma UserLeavesJob(s: System, call: A.Call, jobType: string, now: real, s': System, job: JobId)
    requires SystemOk(s) && UserNext(s, call, jobType, now, s') && WorkerGone(s, job)
    ensures Unmoved(s, s', job)
  {
    hide H.WorldOk, A.Step, Handled;
    WorldFacts(s.world, job);
    if A.RunOf(call).None? && !(Submits(call) && call.job in s.table) {
      A.UserFrame(s.world, call, s'.world);
      DraftsOnly(s.world, call, s'.world, s.world.jobs[job]);
    }
  }

  lemma LeaseLeavesJob(s: System, call: J.Call, now: real, s': System, job: JobId)
    requires SystemOk(s) && LeaseNext(s, call, now, s') && WorkerGone(s, job)
    ensures Unmoved(s, s', job)
  {
    hide H.WorldOk, A.Step, A.Allowed, A.Advance, J.Step, Handled;
    WorldFacts(s.world, job);
    if claimed: JobId :| Elsewhere(s, call) && Takes(s, call, claimed) && Claimed(s, call, claimed, s') {
      ClaimAllowed(s, call, claimed);
      A.RunFrame(s.world, A.Claim(claimed), s'.world, claimed);
      WorldFacts(s.world, claimed);
    }
  }

  lemma WorkLeavesJob(s: System, call: A.Call, s': System, job: JobId)
    requires SystemOk(s) && WorkNext(s, call, s') && WorkerGone(s, job)
    ensures Unmoved(s, s', job)
  {
    hide H.WorldOk, A.Step, A.Allowed, A.Advance, CourseAfter, Handled;
    WorldFacts(s.world, job);
    if MayWork(s, call) {
      A.RunFrame(s.world, call, s'.world, call.job);
      WorldFacts(s.world, call.job);
    }
  }

  /** An audit whose worker has gone is never touched again. */
  lemma AbandonedAuditStays(s: System, e: Event, now: real, s': System, job: JobId)
    requires SystemOk(s) && Next(s, e, now, s') && WorkerGone(s, job)
    ensures Unmoved(s, s', job)
  {
    hide H.WorldOk, J.Step, Handled, UserNext, LeaseNext, WorkNext;
    WorldFacts(s.world, job);
    match e {
      case User(call, jobType) => UserLeavesJob(s, call, jobType, now, s', job);
      case Lease(call) => LeaseLeavesJob(s, call, now, s', job);
      case Work(call) => WorkLeavesJob(s, call, s', job);
      case _ =>
    }
  }

  /** So an audit left unfinished stays in progress for ever: no call takes it up again. */
  lemma {:induction false} AbandonedForEver(
    states: seq<System>, events: seq<Event>, times: seq<real>, m: nat, n: nat, job: JobId)
    requires History(states, events, times) && SystemOk(states[0]) && m <= n <= |events| && WorkerGone(states[m], job)
    ensures Unmoved(states[m], states[n], job)
    decreases n - m
  {
    hide Next, SystemOk;
    EverySystemIsOk(states, events, times, m);
    HasAudit(states[m], job);
    if m < n {
      AbandonedForEver(states, events, times, m, n - 1, job);
      EverySystemIsOk(states, events, times, n - 1);
      AbandonedAuditStays(states[n - 1], events[n - 1], times[n - 1], states[n], job);
    }
  }

  lemma HasAudit(s: System, job: JobId)
    requires SystemOk(s) && job in s.world.jobs
    ensures s.world.jobs[job] in s.world.audits
  {
    assert Handled(s, job);
  }
}
