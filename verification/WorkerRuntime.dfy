/**
 The worker side of the lease protocol (backend/app/jobs/runner.py): one iteration recovers stale jobs, claims
 one, beats while the handler runs and ends the job.  Calls of other workers come in between in reality; what they
 can do to the job is the subject of JobLease.DiligentWorkerIsNeverRecovered.  Here the iteration is on its own,
 and is proved to make the calls that theorem asks for.
 */
module Worker {
  import opened Common
  import opened Text
  import opened JobLease

  const RECOVERY_LIMIT: int := 100

  /** Times that never go back. */
  ghost predicate Ascending(times: seq<Time>) {
    forall i, j :: 0 <= i <= j < |times| ==> times[i] <= times[j]
  }

  /** Each time comes less than `seconds` after the one before it. */
  ghost predicate Spaced(times: seq<Time>, seconds: real) {
    forall i :: 0 < i < |times| ==> times[i] < times[i - 1] + seconds
  }

  /** What one iteration came to: whether it ran a job, and whether it ended it itself. */
  datatype Iteration = Idle | Ran(job: JobId, ended: bool)

  predicate Accepted(owner: string, pollSeconds: real, leaseSeconds: real, heartbeatSeconds: real) {
    && 0.1 <= pollSeconds && ValidSeconds(leaseSeconds) && 0.0 < heartbeatSeconds < leaseSeconds
    && ValidOwner(owner) && |owner| <= 128
  }

  lemma {:induction false} StripShortens(s: string)
    ensures |Strip(s)| <= |s|
  {
    if s != [] {
      StripShortens(s[1..]);
      StripShortens(s[..|s| - 1]);
    }
  }

  /** The job is queued, of a type the worker has a handler for, and the oldest of these that nobody holds. */
  predicate FirstSupported(s: Table, supported: set<string>, held: set<JobId>, id: JobId) {
    && id in s && id !in held && s[id].status == Queued && s[id].jobType in supported
    && forall other :: other in s && other !in held && s[other].status == Queued && s[other].jobType in supported ==>
         s[id].createdAt < s[other].createdAt || (s[id].createdAt == s[other].createdAt && id <= other)
  }

  /** Every queued job of a type the worker has a handler for is held by another transaction. */
  predicate NoneSupported(s: Table, supported: set<string>, held: set<JobId>) {
    forall id :: id in s && s[id].status == Queued && s[id].jobType in supported ==> id in held
  }

  class WorkerRuntime {
    const owner: string
    const pollSeconds: real
    const leaseSeconds: real
    const heartbeatSeconds: real
    const supported: set<string>
    var shutdown: bool

    predicate Valid() {
      Accepted(owner, pollSeconds, leaseSeconds, heartbeatSeconds)
    }

    constructor (owner: string, pollSeconds: real, leaseSeconds: real, heartbeatSeconds: real, supported: set<string>)
      ensures this.owner == owner && this.pollSeconds == pollSeconds && this.leaseSeconds == leaseSeconds
      ensures this.heartbeatSeconds == heartbeatSeconds && this.supported == supported && !shutdown
    {
      this.owner, this.pollSeconds, this.leaseSeconds, this.heartbeatSeconds :=
          owner, pollSeconds, leaseSeconds, heartbeatSeconds;
      this.supported, shutdown := supported, false;
    }

    /**
     The settings the source accepts; with any others there is no worker. An empty owner is replaced by a drawn one.
     */
    static method Create(
      owner: string, drawn: string, pollSeconds: real, leaseSeconds: real, heartbeatSeconds: real,
      supported: set<string>)
      returns (r: Result<WorkerRuntime, JobError>)
      ensures r.Ok? ==> fresh(r.value) && r.value.Valid() && !r.value.shutdown && r.value.supported == supported
      ensures r.Ok? ==> r.value.owner == if owner == "" then drawn else owner
      ensures r.Ok? <==> Accepted(if owner == "" then drawn else owner, pollSeconds, leaseSeconds, heartbeatSeconds)
    {
      if pollSeconds < 0.1 || !ValidSeconds(leaseSeconds) || !(0.0 < heartbeatSeconds < leaseSeconds) {
        return Err(InvalidArgument);
      }
      var mine := if owner == "" then drawn else owner;
      var worker := new WorkerRuntime(mine, pollSeconds, leaseSeconds, heartbeatSeconds, supported);
      if Strip(worker.owner) == "" || |worker.owner| > 128 {
        return Err(InvalidArgument);
      }
      StripShortens(worker.owner);
      return Ok(worker);
    }

    /** Recovers stale jobs, then claims the oldest supported one; others hold the rows `stuck`, then `held`. */
    method ClaimOne(queue: JobQueue, start: Time, stuck: set<JobId>, held: set<JobId>)
      returns (claimed: Option<JobId>, ghost states: seq<Table>, ghost events: seq<Event>)
      requires Valid()
      modifies queue
      ensures Traced(states, events, old(queue.jobs), queue.jobs)
      ensures events == Opening(start, stuck, held)
      ensures if claimed.Some? then
                && Starts(states[1], events[1].call, claimed.value)
                && HeldUntil(queue.jobs, claimed.value, owner, start + leaseSeconds)
              else forall id :: !Free(queue.jobs, Some(supported), held, id)
      ensures claimed.Some? ==> FirstSupported(states[1], supported, held, claimed.value)
      ensures claimed.None? ==> NoneSupported(queue.jobs, supported, held)
    {
      hide Step, Oldest, Batch, FailAll, Strip;
      states := [queue.jobs];
      var recovered := queue.RecoverStale(RECOVERY_LIMIT, stuck, start);
      states := states + [queue.jobs];
      var r := queue.ClaimNext(Some(supported), owner, leaseSeconds, held, start);
      states := states + [queue.jobs];
      events := Opening(start, stuck, held);
      if supported == {} {
        claimed := None;
      } else {
        claimed := r.value;
      }
    }

    function Opening(start: Time, stuck: set<JobId>, held: set<JobId>): seq<Event> {
      [Event(Recover(RECOVERY_LIMIT, stuck), start), Event(Claim(Some(supported), owner, leaseSeconds, held), start)]
    }

    /** Renews at each of the times until a renewal is refused; `last` is the last grant. */
    method HeartbeatLoop(queue: JobQueue, id: JobId, start: Time, beats: seq<Time>)
      returns (ghost states: seq<Table>, ghost events: seq<Event>, ghost last: Time)
      requires Valid() && Ascending([start] + beats) && HeldUntil(queue.jobs, id, owner, start + leaseSeconds)
      modifies queue
      ensures Traced(states, events, old(queue.jobs), queue.jobs) && |events| <= |beats|
      ensures forall k :: 0 <= k < |events| ==> events[k] == Event(Heartbeat(id, owner, leaseSeconds), beats[k])
      ensures HeldUntil(queue.jobs, id, owner, last + leaseSeconds)
      ensures (last == ([start] + beats)[|events|] && |events| == |beats|)
           || (|events| > 0 && last == ([start] + beats)[|events| - 1] && last + leaseSeconds <= beats[|events| - 1])
    {
      hide Step, Strip;
      ghost var times := [start] + beats;
      states, events, last := [queue.jobs], [], start;
      var b := 0;
      while b < |beats|
        invariant b <= |beats| && |events| == b && Traced(states, events, old(queue.jobs), queue.jobs)
        invariant forall k :: 0 <= k < b ==> events[k] == Event(Heartbeat(id, owner, leaseSeconds), beats[k])
        invariant HeldUntil(queue.jobs, id, owner, last + leaseSeconds) && last == times[b]
      {
        assert times[b] <= times[b + 1] == beats[b];
        ghost var before := queue.jobs;
        var beat := queue.HeartbeatJob(id, owner, leaseSeconds, beats[b]);
        Extends(states, events, Event(Heartbeat(id, owner, leaseSeconds), beats[b]), queue.jobs);
        HeartbeatOutcome(before, id, owner, leaseSeconds, beats[b], queue.jobs, last + leaseSeconds);
        events, states := events + [Event(Heartbeat(id, owner, leaseSeconds), beats[b])], states + [queue.jobs];
        b := b + 1;
        if beat.Err? {
          return;
        }
        last := beats[b - 1];
      }
    }

    /** The job's end, as the handler came out of it; `ended` says whether it was accepted. */
    method EndJob(queue: JobQueue, id: JobId, end: Time, failed: bool, ghost until: Time) returns (ended: bool)
      requires HeldUntil(queue.jobs, id, owner, until) && ValidOwner(owner)
      modifies queue
      ensures Step(old(queue.jobs), Ending(id, failed), end, queue.jobs)
      ensures ended <==> end < until
      ensures id in queue.jobs
      ensures queue.jobs[id].status == if !ended then Processing else if failed then Failed else Completed
    {
      HandlerTextsAreValid();
      hide Strip, ValidCode, ValidMessage;
      if failed {
        var done := queue.FailJob(id, owner, HANDLER_FAILURE_CODE, HANDLER_FAILURE_MESSAGE, end);
        ended := done.Ok?;
      } else {
        var done := queue.CompleteJob(id, owner, end);
        ended := done.Ok?;
      }
    }

    function Ending(id: JobId, failed: bool): Call {
      if failed then Fail(id, owner, HANDLER_FAILURE_CODE, HANDLER_FAILURE_MESSAGE) else Complete(id, owner)
    }

    /**
     One iteration at the given times: recovery and claim at `start`, a heartbeat at each of `beats` until one is
     refused, and the end of the job at `end`.  It ends the job itself exactly when its last grant still holds,
     and always when its calls come less than a lease apart: then it is the program of a diligent worker.
     */
    method RunIteration(
      queue: JobQueue, start: Time, beats: seq<Time>, end: Time, failed: bool, stuck: set<JobId>, held: set<JobId>)
      returns (r: Iteration, ghost states: seq<Table>, ghost events: seq<Event>)
      requires Valid() && Ascending([start] + beats + [end])
      modifies queue
      ensures Traced(states, events, old(queue.jobs), queue.jobs)
      ensures r.Idle? ==> shutdown || supported == {} || forall id :: !Free(queue.jobs, Some(supported), held, id)
      ensures r.Ran? ==> |events| > 2 && Starts(states[1], events[1].call, r.job) && r.job in queue.jobs
      ensures r.Idle? ==> shutdown || NoneSupported(queue.jobs, supported, held)
      ensures r.Ran? ==> FirstSupported(states[1], supported, held, r.job)
      ensures r.Ran? && r.ended ==> queue.jobs[r.job].status == if failed then Failed else Completed
      ensures r.Ran? && !r.ended ==> queue.jobs[r.job].status == Processing
      ensures r.Ran? && Spaced([start] + beats + [end], leaseSeconds) ==>
          r.ended && Diligent(events, 1, |events| - 1, r.job, owner, leaseSeconds)
    {
      hide Step, Strip, Starts, Diligent, Run;
      states, events := [queue.jobs], [];
      NothingYet(queue.jobs);
      if shutdown || supported == {} {
        return Idle, states, events;
      }
      var claimed;
      claimed, states, events := ClaimOne(queue, start, stuck, held);
      if claimed.None? {
        return Idle, states, events;
      }
      var id := claimed.value;
      TimesOf(start, beats, end);
      ghost var claimedJobs := queue.jobs;
      ghost var beatStates, beatEvents, last := HeartbeatLoop(queue, id, start, beats);
      ghost var beaten := queue.jobs;
      var ended := EndJob(queue, id, end, failed, last + leaseSeconds);
      ghost var e := Event(Ending(id, failed), end);
      JoinsAll(states, events, beatStates, beatEvents, e, old(queue.jobs), claimedJobs, beaten, queue.jobs);
      r := Ran(id, ended);
      if Spaced([start] + beats + [end], leaseSeconds) {
        SpacedLast(start, beats, end, leaseSeconds);
        IterationIsDiligent(events, beatEvents, e, start, beats, id, owner, leaseSeconds);
      }
      states, events := states + beatStates[1..] + [queue.jobs], events + beatEvents + [e];
    }
  }

  lemma NothingYet(s: Table)
    ensures Traced([s], [], s, s)
  {
  }

  lemma JoinsAll(
    a: seq<Table>, x: seq<Event>, b: seq<Table>, y: seq<Event>, e: Event, first: Table, middle: Table, held: Table,
    last: Table)
    requires Traced(a, x, first, middle) && Traced(b, y, middle, held) && Step(held, e.call, e.now, last)
    requires x != [] && x[|x| - 1].now <= e.now && forall j :: 0 <= j < |y| ==> x[|x| - 1].now <= y[j].now <= e.now
    ensures Traced(a + b[1..] + [last], x + y + [e], first, last)
  {
    hide Step;
    Joins(a, x, b, y, first, middle, held);
    Extends(a + b[1..], x + y, e, last);
  }

  /** Calls less than a lease apart are the calls of a diligent worker. */
  lemma IterationIsDiligent(
    opening: seq<Event>, beating: seq<Event>, e: Event, start: Time, beats: seq<Time>, id: JobId, owner: string,
    seconds: real)
    requires Spaced([start] + beats + [e.now], seconds) && |opening| == 2 && opening[1].now == start
    requires |beating| == |beats|
    requires forall k :: 0 <= k < |beats| ==> beating[k] == Event(Heartbeat(id, owner, seconds), beats[k])
    requires ByOwner(e.call, id, owner)
    ensures Diligent(opening + beating + [e], 1, |beating| + 2, id, owner, seconds)
  {
    var events := opening + beating + [e];
    forall q | 1 < q <= |events| - 1 && ByOwner(events[q].call, id, owner)
      ensures InTime(events, 1, q, id, owner, seconds)
    {
      var times := [start] + beats + [e.now];
      assert times[q - 1] == events[q].now && times[q - 2] == events[q - 1].now;
      assert Beat(events, 1, q - 1, id, owner) && events[q].now < events[q - 1].now + seconds;
    }
  }

  lemma TimesOf(start: Time, beats: seq<Time>, end: Time)
    requires Ascending([start] + beats + [end])
    ensures Ascending([start] + beats) && start <= end && forall k :: 0 <= k < |beats| ==> start <= beats[k] <= end
  {
    var times := [start] + beats + [end];
    assert forall i :: 0 <= i <= |beats| ==> ([start] + beats)[i] == times[i];
    assert times[0] == start && times[|times| - 1] == end && forall k :: 0 <= k < |beats| ==> times[k + 1] == beats[k];
  }

  lemma SpacedLast(start: Time, beats: seq<Time>, end: Time, seconds: real)
    requires Spaced([start] + beats + [end], seconds)
    ensures forall k :: 0 <= k < |beats| ==> beats[k] < ([start] + beats)[k] + seconds
    ensures end < ([start] + beats)[|beats|] + seconds
  {
    var times := [start] + beats + [end];
    assert forall i :: 0 <= i <= |beats| ==> ([start] + beats)[i] == times[i];
    assert forall k :: 0 <= k < |beats| ==> times[k + 1] == beats[k];
    assert times[|times| - 1] == end;
  }

  const HANDLER_FAILURE_CODE: string := "handler_failed"

  const HANDLER_FAILURE_MESSAGE: string := "Job handler execution failed"

  lemma HandlerTextsAreValid()
    ensures ValidCode(HANDLER_FAILURE_CODE) && ValidMessage(HANDLER_FAILURE_MESSAGE)
  {
    assert Strip(HANDLER_FAILURE_CODE) == HANDLER_FAILURE_CODE;
    assert Strip(HANDLER_FAILURE_MESSAGE) == HANDLER_FAILURE_MESSAGE;
  }

  /** The worker holds a lease on the job until that time. */
  predicate HeldUntil(s: Table, id: JobId, owner: string, until: Time) {
    id in s && s[id].status == Processing && s[id].owner == Some(Strip(owner)) && s[id].expiresAt == Some(until)
  }

  ghost predicate Traced(states: seq<Table>, events: seq<Event>, first: Table, last: Table) {
    |states| == |events| + 1 && Run(states, events) && states[0] == first && states[|states| - 1] == last
  }

  lemma HeartbeatOutcome(s: Table, id: JobId, owner: string, seconds: real, now: Time, s': Table, until: Time)
    requires Step(s, Heartbeat(id, owner, seconds), now, s') && HeldUntil(s, id, owner, until)
    requires ValidOwner(owner) && ValidSeconds(seconds)
    ensures if now < until then HeldUntil(s', id, owner, now + seconds) else s' == s
    ensures Acts(s, Heartbeat(id, owner, seconds), id, now) <==> now < until
  {
  }

  lemma Joins(a: seq<Table>, x: seq<Event>, b: seq<Table>, y: seq<Event>, first: Table, middle: Table, last: Table)
    requires Traced(a, x, first, middle) && Traced(b, y, middle, last)
    requires x != [] && forall j :: 0 <= j < |y| ==> x[|x| - 1].now <= y[j].now
    ensures Traced(a + b[1..], x + y, first, last)
  {
    hide Step;
    var all, calls := a + b[1..], x + y;
    forall i | 0 <= i < |calls| ensures Step(all[i], calls[i].call, calls[i].now, all[i + 1]) {
      if i < |x| {
        assert Step(a[i], x[i].call, x[i].now, a[i + 1]);
      } else {
        assert Step(b[i - |x|], y[i - |x|].call, y[i - |x|].now, b[i - |x| + 1]);
        assert all[i] == b[i - |x|] && all[i + 1] == b[i - |x| + 1];
      }
    }
  }

  lemma Extends(states: seq<Table>, events: seq<Event>, e: Event, after: Table)
    requires Run(states, events) && Step(states[|states| - 1], e.call, e.now, after)
    requires events != [] ==> events[|events| - 1].now <= e.now
    ensures Run(states + [after], events + [e])
  {
    hide Step;
    var all, calls := states + [after], events + [e];
    forall i | 0 <= i < |calls| ensures Step(all[i], calls[i].call, calls[i].now, all[i + 1]) {
      if i < |events| {
        assert all[i] == states[i] && all[i + 1] == states[i + 1];
      }
    }
  }
}
