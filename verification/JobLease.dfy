/**
 The job lease protocol (backend/app/jobs/service.py, repository.py, runner.py).

 Every service call is one transaction on rows it has locked, so a run of any number of workers is a
 sequence of calls on one table with a clock that never goes back.  A claim and a recovery pass over the rows
 other transactions hold at that moment, whatever becomes of those transactions: `skipped`.  `Step` says what
 one call does; `JobQueue` is the code, proved to do it; the lemmas speak of whole runs.
 */
module JobLease {
  import opened Common
  import opened Text

  type JobId = nat

  type Time = real

  datatype Status = Queued | Processing | Completed | Failed

  datatype Job = Job(
    jobType: string, createdAt: Time, status: Status, progress: nat, attempts: nat,
    startedAt: Option<Time>, completedAt: Option<Time>, errorCode: Option<string>, errorMessage: Option<string>,
    owner: Option<string>, heartbeatAt: Option<Time>, expiresAt: Option<Time>)

  type Table = map<JobId, Job>

  datatype Call =
    | Enqueue(id: JobId, jobType: string)
    | Claim(allowed: Option<set<string>>, owner: string, seconds: real, skipped: set<JobId>)
    | Heartbeat(id: JobId, owner: string, seconds: real)
    | Complete(id: JobId, owner: string)
    | Fail(id: JobId, owner: string, code: string, message: string)
    | Recover(limit: int, skipped: set<JobId>)

  datatype JobError = InvalidArgument | NotFound | InvalidTransition | LeaseLost

  // ---------------------------------------------------------------- validation

  predicate ValidOwner(owner: string) {
    1 <= |Strip(owner)| <= 128
  }

  predicate ValidSeconds(seconds: real) {
    0.0 < seconds <= 3600.0
  }

  predicate IsCodeChar(c: char) {
    'A' <= c <= 'Z' || 'a' <= c <= 'z' || '0' <= c <= '9' || c in {'_', '.', '-'}
  }

  predicate ValidCode(code: string) {
    1 <= |Strip(code)| <= 64 && forall i :: 0 <= i < |Strip(code)| ==> IsCodeChar(Strip(code)[i])
  }

  predicate ValidMessage(message: string) {
    1 <= |Strip(message)| <= 1000 && '\n' !in Strip(message) && '\r' !in Strip(message)
  }

  // ---------------------------------------------------------------- one job

  function Fresh(jobType: string, now: Time): Job {
    Job(jobType, now, Queued, 0, 0, None, None, None, None, None, None, None)
  }

  function Leased(j: Job, owner: string, seconds: real, now: Time): Job {
    j.(owner := Some(Strip(owner)), heartbeatAt := Some(now), expiresAt := Some(now + seconds))
  }

  function Started(j: Job, owner: string, seconds: real, now: Time): Job {
    Leased(j.(status := Processing, attempts := j.attempts + 1, startedAt := Some(now), completedAt := None),
           owner, seconds, now)
  }

  function Renewed(j: Job, seconds: real, now: Time): Job {
    j.(heartbeatAt := Some(now), expiresAt := Some(now + seconds))
  }

  function Released(j: Job): Job {
    j.(owner := None, heartbeatAt := None, expiresAt := None)
  }

  function Finished(j: Job, now: Time): Job {
    var done := j.(status := Completed, progress := 100, completedAt := Some(now));
    Released(done.(errorCode := None, errorMessage := None))
  }

  function Broken(j: Job, code: string, message: string, now: Time): Job {
    Released(j.(status := Failed, completedAt := Some(now), errorCode := Some(code), errorMessage := Some(message)))
  }

  function Expired(j: Job, now: Time): Job {
    Broken(j, "worker_lease_expired", "Job worker lease expired before completion", now)
  }

  /** The owner of an unexpired lease may act. */
  predicate MayAct(s: Table, id: JobId, owner: string, now: Time) {
    && id in s && s[id].status == Processing
    && ValidOwner(owner) && s[id].owner == Some(Strip(owner))
    && s[id].expiresAt.Some? && now < s[id].expiresAt.value
  }

  predicate Stale(j: Job, now: Time) {
    j.status == Processing && (j.expiresAt.None? || j.expiresAt.value < now)
  }

  predicate Eligible(j: Job, allowed: Option<set<string>>) {
    j.status == Queued && (allowed.Some? ==> j.jobType in allowed.value)
  }

  /** Claim order: creation time, then identifier. */
  predicate Earlier(s: Table, a: JobId, b: JobId)
    requires a in s && b in s
  {
    s[a].createdAt < s[b].createdAt || (s[a].createdAt == s[b].createdAt && a <= b)
  }

  /** The job is there to be claimed: eligible and not held by another transaction. */
  predicate Free(s: Table, allowed: Option<set<string>>, skipped: set<JobId>, id: JobId) {
    id in s && id !in skipped && Eligible(s[id], allowed)
  }

  ghost predicate Oldest(s: Table, allowed: Option<set<string>>, skipped: set<JobId>, id: JobId) {
    Free(s, allowed, skipped, id) && forall other :: Free(s, allowed, skipped, other) ==> Earlier(s, id, other)
  }

  /** A queued job of one of the types asked for, or of any when none are named. */
  predicate Waits(s: Table, allowed: Option<set<string>>, id: JobId) {
    id in s && s[id].status == Queued && (allowed == None || s[id].jobType in allowed.value)
  }

  /** Of the waiting jobs no other transaction holds none was created before this one, nor has a smaller id at a tie. */
  ghost predicate FirstWaiting(s: Table, allowed: Option<set<string>>, skipped: set<JobId>, id: JobId) {
    && Waits(s, allowed, id) && id !in skipped
    && forall other :: Waits(s, allowed, other) && other !in skipped ==>
         && s[id].createdAt <= s[other].createdAt
         && (s[id].createdAt == s[other].createdAt ==> id <= other)
  }

  /** Recovery order: jobs without an expiry first, then by expiry, then by identifier. */
  predicate StaleFirst(s: Table, a: JobId, b: JobId)
    requires a in s && b in s
  {
    match (s[a].expiresAt, s[b].expiresAt)
    case (None, None) => a <= b
    case (None, Some(_)) => true
    case (Some(_), None) => false
    case (Some(x), Some(y)) => x < y || (x == y && a <= b)
  }

  function StaleJobs(s: Table, now: Time, skipped: set<JobId>): set<JobId> {
    set id | id in s && id !in skipped && Stale(s[id], now)
  }

  /** The jobs one recovery takes: as many stale jobs as the limit admits, the stalest. */
  ghost predicate Batch(s: Table, limit: int, skipped: set<JobId>, now: Time, batch: set<JobId>) {
    var stale := StaleJobs(s, now, skipped);
    && batch <= stale
    && |batch| == (if |stale| <= limit then |stale| else limit)
    && forall a, b :: a in batch && b in stale - batch ==> StaleFirst(s, a, b)
  }

  function Members(ids: seq<JobId>): set<JobId> {
    set id | id in ids
  }

  function FailAll(s: Table, batch: set<JobId>, now: Time): Table {
    map id | id in s :: if id in batch then Expired(s[id], now) else s[id]
  }

  // ---------------------------------------------------------------- one call

  /** The call starts job `id`. */
  ghost predicate Starts(s: Table, call: Call, id: JobId) {
    call.Claim? && Oldest(s, call.allowed, call.skipped, id) && ValidOwner(call.owner) && ValidSeconds(call.seconds)
  }

  /** The call finds the lease of `id` live and in the hands of its caller, and its arguments valid. */
  ghost predicate Acts(s: Table, call: Call, id: JobId, now: Time) {
    match call
    case Heartbeat(job, owner, seconds) => id == job && MayAct(s, id, owner, now) && ValidSeconds(seconds)
    case Complete(job, owner) => id == job && MayAct(s, id, owner, now)
    case Fail(job, owner, code, message) => id == job && MayAct(s, id, owner, now) && ValidCode(code)
        && ValidMessage(message)
    case _ => false
  }

  function Acted(j: Job, call: Call, now: Time): Job {
    match call
    case Heartbeat(_, _, seconds) => Renewed(j, seconds, now)
    case Complete(_, _) => Finished(j, now)
    case Fail(_, _, code, message) => Broken(j, Strip(code), Strip(message), now)
    case _ => j
  }

  /** What a committed or rolled-back call does to the table. */
  ghost predicate Step(s: Table, call: Call, now: Time, s': Table) {
    match call
    case Enqueue(id, jobType) => id !in s && s' == s[id := Fresh(jobType, now)]
    case Claim(_, owner, seconds, _) =>
      || (exists id :: Starts(s, call, id) && s' == s[id := Started(s[id], owner, seconds, now)])
      || ((forall id :: !Starts(s, call, id)) && s' == s)
    case Recover(limit, skipped) =>
      if 1 <= limit <= 1000 then exists batch :: Batch(s, limit, skipped, now, batch) && s' == FailAll(s, batch, now)
      else s' == s
    case _ =>
      if Acts(s, call, call.id, now) then s' == s[call.id := Acted(s[call.id], call, now)] else s' == s
  }

  /** Why a call on a job is refused, in the order the source checks. */
  function Refusal(s: Table, id: JobId, owner: string, now: Time): Option<JobError> {
    if id !in s then Some(NotFound)
    else if s[id].status != Processing then Some(InvalidTransition)
    else if !ValidOwner(owner) then Some(InvalidArgument)
    else if s[id].owner != Some(Strip(owner)) then Some(LeaseLost)
    else if s[id].expiresAt.None? || s[id].expiresAt.value <= now then Some(LeaseLost)
    else None
  }

  class JobQueue {
    var jobs: Table

    constructor ()
      ensures jobs == map[]
    {
      jobs := map[];
    }

    method Enqueue(id: JobId, jobType: string, now: Time)
      requires id !in jobs
      modifies this
      ensures Step(old(jobs), Call.Enqueue(id, jobType), now, jobs)
    {
      jobs := jobs[id := Fresh(jobType, now)];
    }

    /** The oldest eligible job no other transaction holds, found row by row. */
    method NextQueued(allowed: Option<set<string>>, skipped: set<JobId>) returns (found: Option<JobId>)
      ensures found.Some? ==> Oldest(jobs, allowed, skipped, found.value)
      ensures found.None? ==> forall id :: !Free(jobs, allowed, skipped, id)
      ensures found.Some? ==> FirstWaiting(jobs, allowed, skipped, found.value)
      ensures found.None? ==> forall id :: Waits(jobs, allowed, id) ==> id in skipped
    {
      found := None;
      var rest := jobs.Keys;
      while rest != {}
        invariant rest <= jobs.Keys
        invariant found.Some? ==> Free(jobs, allowed, skipped, found.value)
        invariant forall id :: id !in rest && Free(jobs, allowed, skipped, id) ==>
                    found.Some? && Earlier(jobs, found.value, id)
        decreases rest
      {
        var id :| id in rest;
        rest := rest - {id};
        if Free(jobs, allowed, skipped, id) && (found.None? || !Earlier(jobs, found.value, id)) {
          found := Some(id);
        }
      }
      FreeIsWaiting(jobs, allowed, skipped);
    }

    method ClaimNext(allowed: Option<set<string>>, owner: string, seconds: real, skipped: set<JobId>, now: Time)
      returns (r: Result<Option<JobId>, JobError>)
      modifies this
      ensures Step(old(jobs), Claim(allowed, owner, seconds, skipped), now, jobs)
      ensures match r
              case Ok(Some(id)) =>
                && Starts(old(jobs), Claim(allowed, owner, seconds, skipped), id)
                && jobs == old(jobs)[id := Started(old(jobs)[id], owner, seconds, now)]
              case Ok(None) => jobs == old(jobs) && forall id :: !Free(jobs, allowed, skipped, id)
              case Err(_) => jobs == old(jobs) && !(ValidOwner(owner) && ValidSeconds(seconds))
      ensures match r
              case Ok(Some(id)) => FirstWaiting(old(jobs), allowed, skipped, id)
              case Ok(None) => forall id :: Waits(jobs, allowed, id) ==> id in skipped
              case Err(_) => exists id :: Waits(jobs, allowed, id) && id !in skipped
    {
      if allowed == Some({}) {
        return Ok(None);
      }
      var found := NextQueued(allowed, skipped);
      if found.None? {
        return Ok(None);
      }
      var id := found.value;
      var job := jobs[id];
      job := job.(status := Processing, attempts := job.attempts + 1, startedAt := Some(now), completedAt := None);
      if !ValidOwner(owner) || !ValidSeconds(seconds) {
        return Err(InvalidArgument);
      }
      job := job.(owner := Some(Strip(owner)), heartbeatAt := Some(now), expiresAt := Some(now + seconds));
      jobs := jobs[id := job];
      assert Starts(old(jobs), Claim(allowed, owner, seconds, skipped), id);
      return Ok(Some(id));
    }

    method HeartbeatJob(id: JobId, owner: string, seconds: real, now: Time) returns (r: Result<Job, JobError>)
      modifies this
      ensures Step(old(jobs), Heartbeat(id, owner, seconds), now, jobs)
      ensures r.Ok? <==> Acts(old(jobs), Heartbeat(id, owner, seconds), id, now)
      ensures r.Ok? ==> id in jobs && r.value == jobs[id]
      ensures Refusal(old(jobs), id, owner, now).Some? ==> r == Err(Refusal(old(jobs), id, owner, now).value)
    {
      var refusal := Refusal(jobs, id, owner, now);
      if refusal.Some? {
        return Err(refusal.value);
      }
      var job := jobs[id].(heartbeatAt := Some(now));
      if !ValidSeconds(seconds) {
        return Err(InvalidArgument);
      }
      job := job.(expiresAt := Some(now + seconds));
      jobs := jobs[id := job];
      return Ok(job);
    }

    method CompleteJob(id: JobId, owner: string, now: Time) returns (r: Result<Job, JobError>)
      modifies this
      ensures Step(old(jobs), Complete(id, owner), now, jobs)
      ensures r.Ok? <==> Acts(old(jobs), Complete(id, owner), id, now)
      ensures r.Ok? ==> id in jobs && r.value == jobs[id]
      ensures Refusal(old(jobs), id, owner, now).Some? ==> r == Err(Refusal(old(jobs), id, owner, now).value)
    {
      var refusal := Refusal(jobs, id, owner, now);
      if refusal.Some? {
        return Err(refusal.value);
      }
      var job := jobs[id].(status := Completed, progress := 100, completedAt := Some(now));
      job := job.(errorCode := None, errorMessage := None);
      job := job.(owner := None, heartbeatAt := None, expiresAt := None);
      jobs := jobs[id := job];
      return Ok(job);
    }

    method FailJob(id: JobId, owner: string, code: string, message: string, now: Time)
      returns (r: Result<Job, JobError>)
      modifies this
      ensures Step(old(jobs), Fail(id, owner, code, message), now, jobs)
      ensures r.Ok? <==> Acts(old(jobs), Fail(id, owner, code, message), id, now)
      ensures r.Ok? ==> id in jobs && r.value == jobs[id]
      ensures ValidCode(code) && ValidMessage(message) && Refusal(old(jobs), id, owner, now).Some? ==>
                r == Err(Refusal(old(jobs), id, owner, now).value)
    {
      if !ValidCode(code) || !ValidMessage(message) {
        return Err(InvalidArgument);
      }
      var refusal := Refusal(jobs, id, owner, now);
      if refusal.Some? {
        return Err(refusal.value);
      }
      var job := jobs[id].(status := Failed, completedAt := Some(now));
      job := job.(errorCode := Some(Strip(code)), errorMessage := Some(Strip(message)));
      job := job.(owner := None, heartbeatAt := None, expiresAt := None);
      jobs := jobs[id := job];
      return Ok(job);
    }

    /** The stale jobs to fail, stalest first, up to the limit. */
    method StaleBatch(now: Time, limit: nat, skipped: set<JobId>) returns (batch: seq<JobId>)
      ensures Batch(jobs, limit, skipped, now, Members(batch))
      ensures forall i, j :: 0 <= i < j < |batch| ==> batch[i] != batch[j]
    {
      hide StaleFirst, Stale;
      batch := [];
      var rest := StaleJobs(jobs, now, skipped);
      while rest != {} && |batch| < limit
        invariant rest <= StaleJobs(jobs, now, skipped) && |batch| <= limit
        invariant forall i, j :: 0 <= i < j < |batch| ==> batch[i] != batch[j]
        invariant forall id :: id in batch <==> id in StaleJobs(jobs, now, skipped) - rest
        invariant forall a, b :: a in batch && b in rest ==> StaleFirst(jobs, a, b)
        decreases rest
      {
        var next := Stalest(jobs, rest);
        rest := rest - {next};
        batch := batch + [next];
      }
      DistinctCount(batch);
      assert Members(batch) == StaleJobs(jobs, now, skipped) - rest;
      assert StaleJobs(jobs, now, skipped) == Members(batch) + rest;
      assert |StaleJobs(jobs, now, skipped)| == |batch| + |rest|;
    }

    method RecoverStale(limit: int, skipped: set<JobId>, now: Time) returns (r: Result<seq<JobId>, JobError>)
      modifies this
      ensures Step(old(jobs), Recover(limit, skipped), now, jobs)
      ensures r.Ok? <==> 1 <= limit <= 1000
      ensures r.Ok? ==> Batch(old(jobs), limit, skipped, now, Members(r.value))
      ensures r.Ok? ==> jobs == FailAll(old(jobs), Members(r.value), now)
    {
      if !(1 <= limit <= 1000) {
        return Err(InvalidArgument);
      }
      var batch := StaleBatch(now, limit, skipped);
      ghost var before := jobs;
      for i := 0 to |batch|
        invariant jobs == FailAll(before, Members(batch[..i]), now)
      {
        assert batch[i] in Members(batch) && batch[i] in before;
        var job := jobs[batch[i]].(status := Failed, completedAt := Some(now));
        job := job.(errorCode := Some("worker_lease_expired"));
        job := job.(errorMessage := Some("Job worker lease expired before completion"));
        job := job.(owner := None, heartbeatAt := None, expiresAt := None);
        assert batch[i] !in batch[..i];
        jobs := jobs[batch[i] := job];
        assert batch[..i + 1] == batch[..i] + [batch[i]];
      }
      assert batch[..|batch|] == batch;
      return Ok(batch);
    }
  }

  /** The first of a set of stale jobs in recovery order. */
  method Stalest(s: Table, ids: set<JobId>) returns (first: JobId)
    requires ids != {} && ids <= s.Keys
    ensures first in ids && forall id :: id in ids ==> StaleFirst(s, first, id)
  {
    first :| first in ids;
    var rest := ids - {first};
    while rest != {}
      invariant first in ids && rest <= ids
      invariant forall id :: id in ids && id !in rest ==> StaleFirst(s, first, id)
      decreases rest
    {
      var id :| id in rest;
      rest := rest - {id};
      if !StaleFirst(s, first, id) {
        first := id;
      }
    }
  }

  lemma {:induction false} DistinctCount(ids: seq<JobId>)
    requires forall i, j :: 0 <= i < j < |ids| ==> ids[i] != ids[j]
    ensures |Members(ids)| == |ids|
  {
    if ids != [] {
      var init, last := ids[..|ids| - 1], ids[|ids| - 1];
      DistinctCount(init);
      assert ids == init + [last];
      assert last !in init && last !in Members(init);
      assert Members(ids) == Members(init) + {last};
    }
  }

  // ---------------------------------------------------------------- one job through one call

  /** Everything a call can do to one job that is already in the table. */
  ghost predicate Move(s: Table, call: Call, now: Time, id: JobId, after: Job)
    requires id in s
  {
    || after == s[id]
    || (Starts(s, call, id) && after == Started(s[id], call.owner, call.seconds, now))
    || (Acts(s, call, id, now) && after == Acted(s[id], call, now))
    || (call.Recover? && Stale(s[id], now) && after == Expired(s[id], now))
  }

  lemma EveryJobMoves(s: Table, call: Call, now: Time, s': Table, id: JobId)
    requires Step(s, call, now, s') && id in s
    ensures id in s' && Move(s, call, now, id, s'[id])
    ensures Acts(s, call, id, now) ==> s'[id] == Acted(s[id], call, now)
  {
    if call.Recover? && 1 <= call.limit <= 1000 {
      var batch :| Batch(s, call.limit, call.skipped, now, batch) && s' == FailAll(s, batch, now);
      assert id in batch ==> id in StaleJobs(s, now, call.skipped);
    }
  }

  /** At most one free job is the oldest, so a successful claim takes exactly it. */
  lemma ClaimTakesTheOldest(s: Table, call: Call, now: Time, s': Table, id: JobId)
    requires Step(s, call, now, s') && Starts(s, call, id)
    ensures s' == s[id := Started(s[id], call.owner, call.seconds, now)]
  {
    var other :| Starts(s, call, other) && s' == s[other := Started(s[other], call.owner, call.seconds, now)];
    assert Earlier(s, id, other) && Earlier(s, other, id);
  }

  /** A claim starts the first waiting job that no other transaction holds, and nothing else. */
  lemma StartsIff(s: Table, call: Call, id: JobId)
    ensures Starts(s, call, id) <==>
              call.Claim? && ValidOwner(call.owner) && ValidSeconds(call.seconds)
              && FirstWaiting(s, call.allowed, call.skipped, id)
  {
    hide ValidOwner, ValidSeconds, Free, Waits;
    if call.Claim? {
      FreeIsWaiting(s, call.allowed, call.skipped);
    }
  }

  lemma FreeIsWaiting(s: Table, allowed: Option<set<string>>, skipped: set<JobId>)
    ensures forall id :: Free(s, allowed, skipped, id) <==> Waits(s, allowed, id) && id !in skipped
  {
  }

  /** The jobs recovery takes have no expiry or one in the past, and none it leaves is due before one it takes. */
  lemma BatchIsStalest(s: Table, limit: int, skipped: set<JobId>, now: Time, batch: set<JobId>, a: JobId, b: JobId)
    requires Batch(s, limit, skipped, now, batch) && a in batch
    ensures a in s && s[a].status == Processing && a !in skipped
    ensures s[a].expiresAt.Some? ==> s[a].expiresAt.value < now
    ensures b in s && s[b].status == Processing && b !in skipped && b !in batch && s[b].expiresAt.None? ==>
              s[a].expiresAt.None? && a <= b
    ensures b in s && s[b].status == Processing && b !in skipped && b !in batch && s[b].expiresAt.Some?
              && s[a].expiresAt.Some? ==>
                s[a].expiresAt.value < s[b].expiresAt.value || (s[a].expiresAt == s[b].expiresAt && a <= b)
  {
    assert a in StaleJobs(s, now, skipped);
    assert b in s && Stale(s[b], now) && b !in skipped && b !in batch ==> b in StaleJobs(s, now, skipped) - batch;
  }

  /** The live owner and recovery exclude each other, and at the very instant of expiry neither may act. */
  lemma OwnerOrRecovery(s: Table, id: JobId, now: Time, owner: string)
    requires id in s && s[id].status == Processing && s[id].expiresAt.Some?
    requires ValidOwner(owner) && s[id].owner == Some(Strip(owner))
    ensures !(MayAct(s, id, owner, now) && Stale(s[id], now))
    ensures !MayAct(s, id, owner, now) && !Stale(s[id], now) <==> now == s[id].expiresAt.value
  {
  }

  // ---------------------------------------------------------------- whole runs

  datatype Event = Event(call: Call, now: Time)

  /** A run: any calls of any workers, one after the other, under a clock that never goes back. */
  ghost predicate Run(states: seq<Table>, events: seq<Event>) {
    && |states| == |events| + 1
    && (forall i :: 0 <= i < |events| ==> Step(states[i], events[i].call, events[i].now, states[i + 1]))
    && (forall i, j :: 0 <= i <= j < |events| ==> events[i].now <= events[j].now)
  }

  predicate Leaseless(j: Job) {
    j.owner.None? && j.heartbeatAt.None? && j.expiresAt.None?
  }

  /** A row written before leases existed is a processing job without a lease. */
  predicate JobOk(j: Job) {
    match j.status
    case Queued => j.attempts == 0 && Leaseless(j) && j.errorCode.None? && j.completedAt.None?
    case Processing => j.attempts == 1 && (Leaseless(j) || (j.owner.Some? && j.heartbeatAt.Some? && j.expiresAt.Some?))
                    && j.errorCode.None? && j.completedAt.None?
    case Completed => j.attempts == 1 && Leaseless(j) && j.errorCode.None? && j.completedAt.Some? && j.progress == 100
    case Failed => j.attempts == 1 && Leaseless(j) && j.errorCode.Some? && j.completedAt.Some?
  }

  ghost predicate TableOk(s: Table) {
    forall id :: id in s ==> JobOk(s[id])
  }

  lemma StepKeepsTable(s: Table, call: Call, now: Time, s': Table)
    requires Step(s, call, now, s') && TableOk(s)
    ensures TableOk(s')
  {
    forall id | id in s' ensures JobOk(s'[id]) {
      if id in s {
        EveryJobMoves(s, call, now, s', id);
      }
    }
  }

  /** In every reachable table: no attempts while queued, exactly one afterwards, leases only on processing jobs. */
  lemma {:induction false} EveryTableIsOk(states: seq<Table>, events: seq<Event>, n: nat)
    requires Run(states, events) && TableOk(states[0]) && n <= |events|
    ensures TableOk(states[n])
  {
    if n > 0 {
      EveryTableIsOk(states, events, n - 1);
      StepKeepsTable(states[n - 1], events[n - 1].call, events[n - 1].now, states[n]);
    }
  }

  function Rank(status: Status): nat {
    match status case Queued => 0 case Processing => 1 case _ => 2
  }

  /** Jobs are never deleted, never go back, and a completed or failed job never changes again. */
  lemma {:induction false} JobsOnlyGoForward(states: seq<Table>, events: seq<Event>, i: nat, j: nat, id: JobId)
    requires Run(states, events) && i <= j <= |events| && id in states[i]
    ensures id in states[j] && Rank(states[i][id].status) <= Rank(states[j][id].status)
    ensures Rank(states[i][id].status) == 2 ==> states[j][id] == states[i][id]
    decreases j - i
  {
    if i < j {
      JobsOnlyGoForward(states, events, i, j - 1, id);
      EveryJobMoves(states[j - 1], events[j - 1].call, events[j - 1].now, states[j], id);
    }
  }

  /** Call `i` of the run took job `id` from one status to another. */
  ghost predicate Passes(states: seq<Table>, i: nat, id: JobId, from: nat, to: nat)
    requires i + 1 < |states|
  {
    id in states[i] && id in states[i + 1] && Rank(states[i][id].status) == from && Rank(states[i + 1][id].status) == to
  }

  lemma PassesOnce(states: seq<Table>, events: seq<Event>, i: nat, j: nat, id: JobId, from: nat, to: nat)
    requires Run(states, events) && i < |events| && j < |events|
    requires from < to && Passes(states, i, id, from, to) && Passes(states, j, id, from, to)
    ensures i == j
  {
    if i < j {
      JobsOnlyGoForward(states, events, i + 1, j, id);
    } else if j < i {
      JobsOnlyGoForward(states, events, j + 1, i, id);
    }
  }

  /** Over any interleaving, no two claims take the same job. */
  lemma ClaimedAtMostOnce(states: seq<Table>, events: seq<Event>, i: nat, j: nat, id: JobId)
    requires Run(states, events) && i < |events| && j < |events|
    requires Starts(states[i], events[i].call, id) && Starts(states[j], events[j].call, id)
    ensures i == j
  {
    ClaimTakesTheOldest(states[i], events[i].call, events[i].now, states[i + 1], id);
    ClaimTakesTheOldest(states[j], events[j].call, events[j].now, states[j + 1], id);
    PassesOnce(states, events, i, j, id, 0, 1);
  }

  lemma {:induction false} BirthStays(states: seq<Table>, events: seq<Event>, i: nat, j: nat, id: JobId)
    requires Run(states, events) && i <= j <= |events| && id in states[i]
    ensures id in states[j] && states[j][id].createdAt == states[i][id].createdAt
    ensures states[j][id].jobType == states[i][id].jobType
    decreases j - i
  {
    hide Step, Strip, ValidCode, ValidMessage, Oldest;
    if i < j {
      BirthStays(states, events, i, j - 1, id);
      EveryJobMoves(states[j - 1], events[j - 1].call, events[j - 1].now, states[j], id);
    }
  }

  /**
   Over every history: a job that leaves the queue by a claim for certain types is of one of them, then and ever after,
   and its row was free.
   */
  lemma ClaimedTypes(states: seq<Table>, events: seq<Event>, i: nat, j: nat, id: JobId)
    requires Run(states, events) && i < j <= |events| && id in states[i]
    requires states[i][id].status == Queued && states[i + 1][id].status != Queued
    ensures events[i].call.Claim? && id !in events[i].call.skipped && id in states[j]
    ensures events[i].call.allowed.Some? ==> states[j][id].jobType in events[i].call.allowed.value
  {
    hide Step, Acts, Acted;
    EveryJobMoves(states[i], events[i].call, events[i].now, states[i + 1], id);
    assert Starts(states[i], events[i].call, id) by {
      QueuedIsOnlyStarted(states[i], events[i].call, events[i].now, id, states[i + 1][id]);
    }
    StartsIff(states[i], events[i].call, id);
    BirthStays(states, events, i, j, id);
  }

  lemma QueuedIsOnlyStarted(s: Table, call: Call, now: Time, id: JobId, after: Job)
    requires id in s && s[id].status == Queued && after.status != Queued && Move(s, call, now, id, after)
    ensures Starts(s, call, id)
  {
    hide Starts;
  }

  /** A valid claim that changes nothing found every waiting job of its types in the hands of another transaction. */
  lemma IdleClaims(states: seq<Table>, events: seq<Event>, i: nat, id: JobId)
    requires Run(states, events) && i < |events| && events[i].call.Claim? && states[i + 1] == states[i]
    requires ValidOwner(events[i].call.owner) && ValidSeconds(events[i].call.seconds)
    requires id in states[i] && states[i][id].status == Queued
    requires events[i].call.allowed.Some? ==> states[i][id].jobType in events[i].call.allowed.value
    ensures id in events[i].call.skipped
  {
    var s, call := states[i], events[i].call;
    assert Step(s, call, events[i].now, s);
    if other :| Starts(s, call, other) && s == s[other := Started(s[other], call.owner, call.seconds, events[i].now)] {
      assert false;
    }
    if id !in call.skipped {
      var first := OldestFree(s, call.allowed, call.skipped, id);
      assert Starts(s, call, first);
    }
  }

  /** Among the free jobs one is the oldest. */
  lemma OldestFree(s: Table, allowed: Option<set<string>>, skipped: set<JobId>, id: JobId) returns (first: JobId)
    requires Free(s, allowed, skipped, id)
    ensures Oldest(s, allowed, skipped, first)
  {
    first := id;
    var rest := set other | other in s && Free(s, allowed, skipped, other);
    while rest != {}
      invariant Free(s, allowed, skipped, first)
      invariant forall other :: Free(s, allowed, skipped, other) && other !in rest ==> Earlier(s, first, other)
      decreases rest
    {
      var other :| other in rest;
      rest := rest - {other};
      if !Earlier(s, first, other) {
        first := other;
      }
    }
  }

  /** A job that was queued and no longer is was claimed in between. */
  lemma {:induction false} LeavesTheQueueByClaim(states: seq<Table>, events: seq<Event>, i: nat, j: nat, id: JobId)
    returns (c: nat)
    requires Run(states, events) && i <= j <= |events| && id in states[i] && states[i][id].status == Queued
    requires id in states[j] && states[j][id].status != Queued
    ensures i <= c < j && Starts(states[c], events[c].call, id)
    decreases j - i
  {
    hide Step, Strip, ValidCode, ValidMessage, Oldest;
    JobsOnlyGoForward(states, events, i, j - 1, id);
    if states[j - 1][id].status == Queued {
      EveryJobMoves(states[j - 1], events[j - 1].call, events[j - 1].now, states[j], id);
      c := j - 1;
    } else {
      c := LeavesTheQueueByClaim(states, events, i, j - 1, id);
    }
  }

  /**
   First come, first served: an older job that the claim could have taken, of an allowed type and not held by
   another transaction, was claimed before the younger one.
   */
  lemma OlderIsClaimedFirst(states: seq<Table>, events: seq<Event>, i: nat, j: nat, older: JobId, younger: JobId)
    returns (c: nat)
    requires Run(states, events) && i <= j < |events| && older in states[i] && younger in states[i]
    requires states[i][older].status == Queued && states[i][older].createdAt < states[i][younger].createdAt
    requires Starts(states[j], events[j].call, younger)
    requires events[j].call.allowed.Some? ==> states[i][older].jobType in events[j].call.allowed.value
    requires older !in events[j].call.skipped
    ensures i <= c < j && Starts(states[c], events[c].call, older)
  {
    hide Step, Strip, ValidCode, ValidMessage;
    BirthStays(states, events, i, j, older);
    BirthStays(states, events, i, j, younger);
    var call := events[j].call;
    assert Free(states[j], call.allowed, call.skipped, older) <==> states[j][older].status == Queued;
    c := LeavesTheQueueByClaim(states, events, i, j, older);
  }

  ghost predicate Recovers(states: seq<Table>, events: seq<Event>, i: nat, id: JobId)
    requires |states| == |events| + 1 && i < |events|
  {
    events[i].call.Recover? && id in states[i] && id in states[i + 1] && states[i + 1][id] != states[i][id]
  }

  ghost predicate Ends(states: seq<Table>, events: seq<Event>, i: nat, id: JobId)
    requires |states| == |events| + 1 && i < |events|
  {
    || Recovers(states, events, i, id)
    || ((events[i].call.Complete? || events[i].call.Fail?) && Acts(states[i], events[i].call, id, events[i].now))
  }

  /** At most one call of a run ends a job: it is not both recovered and completed, nor completed twice. */
  lemma EndsAtMostOnce(states: seq<Table>, events: seq<Event>, i: nat, j: nat, id: JobId)
    requires Run(states, events) && i < |events| && j < |events|
    requires Ends(states, events, i, id) && Ends(states, events, j, id)
    ensures i == j
  {
    hide Step, Strip, ValidCode, ValidMessage, Oldest;
    EveryJobMoves(states[i], events[i].call, events[i].now, states[i + 1], id);
    EveryJobMoves(states[j], events[j].call, events[j].now, states[j + 1], id);
    PassesOnce(states, events, i, j, id, 1, 2);
  }

  // ---------------------------------------------------------------- who may act, and until when

  /** What an ended job shows for ever: who ended it and how, when, and nothing of its lease. */
  lemma EndedJobTells(states: seq<Table>, events: seq<Event>, i: nat, j: nat, id: JobId)
    requires Run(states, events) && i < j <= |events| && id in states[i] && states[i][id].status == Processing
    requires states[i + 1][id].status == Completed || states[i + 1][id].status == Failed
    ensures id in states[j] && Leaseless(states[j][id])
    ensures states[j][id].completedAt == Some(events[i].now) && states[j][id].startedAt == states[i][id].startedAt
    ensures states[j][id].attempts == states[i][id].attempts
    ensures match events[i].call
            case Complete(_, _) =>
              && states[j][id].status == Completed && states[j][id].progress == 100
              && states[j][id].errorCode == None && states[j][id].errorMessage == None
            case Fail(_, _, code, message) =>
              && states[j][id].status == Failed && states[j][id].progress == states[i][id].progress
              && states[j][id].errorCode == Some(Strip(code)) && states[j][id].errorMessage == Some(Strip(message))
            case Recover(_, _) =>
              && states[j][id].status == Failed && states[j][id].progress == states[i][id].progress
              && states[j][id].errorCode == Some("worker_lease_expired")
              && states[j][id].errorMessage == Some("Job worker lease expired before completion")
            case _ => false
  {
    hide Step, Starts, MayAct, Strip, ValidCode, ValidMessage, ValidSeconds, Stale;
    EveryJobMoves(states[i], events[i].call, events[i].now, states[i + 1], id);
    NotStarted(states[i], events[i].call, id);
    JobsOnlyGoForward(states, events, i + 1, j, id);
  }

  lemma NotStarted(s: Table, call: Call, id: JobId)
    requires id in s && s[id].status != Queued
    ensures !Starts(s, call, id)
  {
  }

  /** A refused call says why: first the job, then its status, then the name, then the lease. */
  lemma RefusalSays(s: Table, id: JobId, owner: string, now: Time)
    ensures Refusal(s, id, owner, now) == Some(NotFound) <==> id !in s
    ensures Refusal(s, id, owner, now) == Some(InvalidTransition) <==> id in s && s[id].status != Processing
    ensures Refusal(s, id, owner, now) == Some(InvalidArgument) <==>
              id in s && s[id].status == Processing && !ValidOwner(owner)
    ensures Refusal(s, id, owner, now) == Some(LeaseLost) <==>
              && id in s && s[id].status == Processing && ValidOwner(owner)
              && (s[id].owner == Some(Strip(owner)) ==> s[id].expiresAt.None? || s[id].expiresAt.value <= now)
    ensures Refusal(s, id, owner, now) == None <==> MayAct(s, id, owner, now)
  {
    hide ValidOwner, Strip;
  }

  /** Call `p` gave `id` to `owner` or renewed its lease, until `expiry`. */
  ghost predicate Grants(states: seq<Table>, events: seq<Event>, p: nat, id: JobId, owner: string, expiry: Time)
    requires |states| == |events| + 1 && p < |events|
  {
    var call := events[p].call;
    && (Starts(states[p], call, id) || (call.Heartbeat? && Acts(states[p], call, id, events[p].now)))
    && Strip(call.owner) == owner && expiry == events[p].now + call.seconds
  }

  ghost predicate GrantedBefore(states: seq<Table>, events: seq<Event>, n: nat, id: JobId, owner: string, expiry: Time)
    requires |states| == |events| + 1 && n <= |events|
  {
    exists p: nat :: p < n && Grants(states, events, p, id, owner, expiry)
  }

  ghost predicate ClaimedBefore(states: seq<Table>, events: seq<Event>, n: nat, id: JobId, owner: string)
    requires |states| == |events| + 1 && n <= |events|
  {
    exists c: nat :: c < n && Starts(states[c], events[c].call, id) && Strip(events[c].call.owner) == owner
  }

  /** Every lease was granted: its owner is the worker that claimed the job, its end the end some grant gave it. */
  lemma {:induction false} LeasesAreGranted(states: seq<Table>, events: seq<Event>, n: nat, id: JobId)
    requires Run(states, events) && n <= |events| && (id in states[0] ==> states[0][id].status == Queued)
    requires id in states[n] && states[n][id].status == Processing
    ensures states[n][id].owner.Some? && states[n][id].expiresAt.Some?
    ensures ClaimedBefore(states, events, n, id, states[n][id].owner.value)
    ensures GrantedBefore(states, events, n, id, states[n][id].owner.value, states[n][id].expiresAt.value)
  {
    var s, e, s' := states[n - 1], events[n - 1], states[n];
    assert Step(s, e.call, e.now, s');
    if id in s {
      EveryJobMoves(s, e.call, e.now, s', id);
      if Starts(s, e.call, id) {
        ClaimTakesTheOldest(s, e.call, e.now, s', id);
        assert Grants(states, events, n - 1, id, s'[id].owner.value, s'[id].expiresAt.value);
      } else {
        LeasesAreGranted(states, events, n - 1, id);
        if Acts(s, e.call, id, e.now) {
          assert Grants(states, events, n - 1, id, s'[id].owner.value, s'[id].expiresAt.value);
        }
      }
    }
  }

  /**
   Only the worker that claimed a job can renew, complete or fail it, and only strictly before the end of a
   lease that was granted to it; recovery takes a job only strictly after the end of its lease.
   */
  lemma LeaseExclusion(states: seq<Table>, events: seq<Event>, i: nat, id: JobId)
    requires Run(states, events) && i < |events| && (id in states[0] ==> states[0][id].status == Queued)
    requires id in states[i] && states[i][id].status == Processing
    ensures Acts(states[i], events[i].call, id, events[i].now) ==>
              && ClaimedBefore(states, events, i, id, Strip(events[i].call.owner))
              && exists expiry :: GrantedBefore(states, events, i, id, Strip(events[i].call.owner), expiry)
                   && events[i].now < expiry
    ensures Recovers(states, events, i, id) ==>
              exists owner, expiry :: GrantedBefore(states, events, i, id, owner, expiry) && expiry < events[i].now
  {
    LeasesAreGranted(states, events, i, id);
    EveryJobMoves(states[i], events[i].call, events[i].now, states[i + 1], id);
  }

  // ---------------------------------------------------------------- a worker that keeps renewing

  predicate ByOwner(call: Call, id: JobId, owner: string) {
    (call.Heartbeat? || call.Complete? || call.Fail?) && call.id == id && Strip(call.owner) == Strip(owner)
  }

  /** The worker's own calls on its job: the claim `c`, then heartbeats. */
  predicate Beat(events: seq<Event>, c: nat, p: nat, id: JobId, owner: string)
    requires p < |events|
  {
    p == c || ByOwner(events[p].call, id, owner)
  }

  ghost predicate InTime(events: seq<Event>, c: nat, q: nat, id: JobId, owner: string, seconds: real)
    requires q < |events|
  {
    exists p: nat :: c <= p < q && Beat(events, c, p, id, owner) && events[q].now < events[p].now + seconds
  }

  /**
   What WorkerRuntime does for the job it claimed at `c`: heartbeats of one lease length, then call `z`; and,
   since its timer is shorter than the lease, no call comes a lease length after the one before it.
   */
  ghost predicate Diligent(events: seq<Event>, c: nat, z: nat, id: JobId, owner: string, seconds: real) {
    && c < z < |events|
    && ByOwner(events[z].call, id, owner)
    && (forall k :: c < k < z && ByOwner(events[k].call, id, owner) ==>
         events[k].call.Heartbeat? && events[k].call.seconds == seconds)
    && (forall q :: c < q <= z && ByOwner(events[q].call, id, owner) ==> InTime(events, c, q, id, owner, seconds))
  }

  /** The last call of the worker before call `k` is `p`, and the lease runs from it. */
  ghost predicate Held(
    states: seq<Table>, events: seq<Event>, c: nat, p: nat, k: nat, id: JobId, owner: string, seconds: real)
    requires |states| == |events| + 1 && k <= |events|
  {
    && c <= p < k && Beat(events, c, p, id, owner)
    && (forall b :: p < b < k ==> !Beat(events, c, b, id, owner))
    && id in states[k] && states[k][id].status == Processing
    && states[k][id].owner == Some(Strip(owner)) && states[k][id].expiresAt == Some(events[p].now + seconds)
  }

  lemma {:induction false} NextBeat(events: seq<Event>, c: nat, k: nat, z: nat, id: JobId, owner: string)
    returns (q: nat)
    requires c < k <= z < |events| && ByOwner(events[z].call, id, owner)
    ensures k <= q <= z && ByOwner(events[q].call, id, owner)
    ensures forall b :: k <= b < q ==> !Beat(events, c, b, id, owner)
    decreases z - k
  {
    if ByOwner(events[k].call, id, owner) {
      q := k;
    } else {
      q := NextBeat(events, c, k + 1, z, id, owner);
    }
  }

  /** While its next call comes in time, the lease is live at every call of anyone in between. */
  lemma HeldIsLive(
    states: seq<Table>, events: seq<Event>, c: nat, p: nat, k: nat, z: nat, id: JobId, owner: string, seconds: real)
    requires Run(states, events) && Diligent(events, c, z, id, owner, seconds) && k <= z
    requires Held(states, events, c, p, k, id, owner, seconds)
    ensures events[k].now < states[k][id].expiresAt.value
  {
    var q := NextBeat(events, c, k, z, id, owner);
    assert InTime(events, c, q, id, owner, seconds);
    var r: nat :| c <= r < q && Beat(events, c, r, id, owner) && events[q].now < events[r].now + seconds;
    assert r <= p;
  }

  lemma HeldGoesOn(
    states: seq<Table>, events: seq<Event>, c: nat, p: nat, k: nat, z: nat, id: JobId, owner: string, seconds: real)
    returns (p': nat)
    requires Run(states, events) && Diligent(events, c, z, id, owner, seconds) && k < z
    requires ValidOwner(owner) && ValidSeconds(seconds)
    requires Held(states, events, c, p, k, id, owner, seconds)
    ensures Held(states, events, c, p', k + 1, id, owner, seconds)
  {
    hide Step, Strip, ValidCode, ValidMessage, InTime;
    HeldIsLive(states, events, c, p, k, z, id, owner, seconds);
    var s, e := states[k], events[k];
    EveryJobMoves(s, e.call, e.now, states[k + 1], id);
    if ByOwner(e.call, id, owner) {
      assert Acts(s, e.call, id, e.now);
      p' := k;
    } else {
      p' := p;
    }
  }

  lemma {:induction false} KeepsHolding(
    states: seq<Table>, events: seq<Event>, c: nat, k: nat, z: nat, id: JobId, owner: string, seconds: real)
    returns (p: nat)
    requires Run(states, events) && Diligent(events, c, z, id, owner, seconds) && c < k <= z
    requires Starts(states[c], events[c].call, id) && events[c].call.owner == owner && events[c].call.seconds == seconds
    ensures Held(states, events, c, p, k, id, owner, seconds)
  {
    hide Step, Strip, Oldest, InTime;
    if k == c + 1 {
      ClaimTakesTheOldest(states[c], events[c].call, events[c].now, states[k], id);
      p := c;
    } else {
      var before := KeepsHolding(states, events, c, k - 1, z, id, owner, seconds);
      p := HeldGoesOn(states, events, c, before, k - 1, z, id, owner, seconds);
    }
  }

  /**
   A worker whose calls come less than a lease apart keeps its job: whatever everyone else does, the job stays
   its own and processing, no recovery takes it, and every one of its calls up to the last finds the lease live.
   */
  lemma DiligentWorkerIsNeverRecovered(
    states: seq<Table>, events: seq<Event>, c: nat, k: nat, z: nat, id: JobId, owner: string, seconds: real)
    requires Run(states, events) && Diligent(events, c, z, id, owner, seconds) && c < k <= z
    requires Starts(states[c], events[c].call, id) && events[c].call.owner == owner && events[c].call.seconds == seconds
    ensures MayAct(states[k], id, owner, events[k].now)
    ensures !Recovers(states, events, k, id)
    ensures k < z && ByOwner(events[k].call, id, owner) ==> Acts(states[k], events[k].call, id, events[k].now)
  {
    var p := KeepsHolding(states, events, c, k, z, id, owner, seconds);
    HeldIsLive(states, events, c, p, k, z, id, owner, seconds);
    EveryJobMoves(states[k], events[k].call, events[k].now, states[k + 1], id);
  }
}
