/**
 Any number of runs of one audit at once (backend/app/audit/pipeline.py:75-84, 349-394,
 backend/app/assessment_packs/service.py:152-202).

 The protocol never lets this happen: an audit has one job and a job is claimed once.  This module says what that
 rules out.  The assessment transaction writes back versions its run read earlier without a lock, and with a second
 run of the same audit a pin made in between is lost; nothing else loses one.
 */
module AuditRaces {
  import opened Common
  import opened Audits

  /** One audit and every run of it. */
  datatype Race = Race(audit: Audit, runs: map<JobId, Pc>)

  /** A run's next transaction; `usable` says whether the evidence could be read. */
  datatype Event = Event(job: JobId, call: Call, usable: bool)

  function At(r: Race, job: JobId): Option<Pc> {
    if job in r.runs then Some(r.runs[job]) else None
  }

  predicate Happens(r: Race, e: Event) {
    Enabled(At(r, e.job), e.call)
  }

  function After(r: Race, e: Event): Race {
    if Happens(r, e) then
      var outcome := Advance(r.audit, At(r, e.job), e.call, e.usable);
      Race(outcome.0, r.runs[e.job := outcome.1])
    else r
  }

  /** Any transactions of any runs, from a state where no run stands between its read and its write. */
  ghost predicate History(states: seq<Race>, events: seq<Event>) {
    && |states| == |events| + 1 && (forall job :: job in states[0].runs ==> !states[0].runs[job].Read?)
    && forall i :: 0 <= i < |events| ==> states[i + 1] == After(states[i], events[i])
  }

  // ---------------------------------------------------------------- what a caller can see before a transaction

  /** The transaction is accepted and pins a version where there was none. */
  predicate PinsAnew(r: Race, e: Event) {
    && Happens(r, e)
    && if e.call.Pin? then
         var pc := r.runs[e.job];
         && r.audit.status == Processing && r.audit.resolution.profile == Some(pc.profile)
         && !Conflicts(r.audit.refs.profile, pc.profile) && !Conflicts(r.audit.refs.pack, pc.pack)
         && (r.audit.refs.profile.None? || r.audit.refs.pack.None?)
       else
         && e.call.Comply? && r.audit.status == Processing
         && (r.audit.refs.rulePacks.None? || e.call.expected in r.audit.refs.rulePacks.value)
         && !Conflicts(r.audit.refs.policy, e.call.policy)
         && (r.audit.refs.rulePacks.None? || r.audit.refs.policy.None?)
  }

  /** The transaction writes versions back. */
  predicate WritesBack(r: Race, e: Event) {
    && Happens(r, e) && e.call.Assess? && e.call.chosen.Some?
    && (r.runs[e.job].seen.requested.Some? || r.audit.frameworks != [])
  }

  /** The run has stood between its read and its write from state `t` to state `k`. */
  ghost predicate Holding(states: seq<Race>, job: JobId, t: nat, k: nat) {
    && t <= k < |states| && At(states[k], job).Some? && At(states[k], job).value.Read?
    && forall u :: t <= u <= k ==> At(states[u], job) == At(states[k], job)
  }

  /** Write `k` comes after a pin that another run made since this run read. */
  ghost predicate Crosses(states: seq<Race>, events: seq<Event>, k: nat)
    requires |states| == |events| + 1
  {
    && k < |events| && WritesBack(states[k], events[k])
    && exists t: nat :: t < k && PinsAnew(states[t], events[t]) && Holding(states, events[k].job, t, k)
  }

  ghost predicate Kept(states: seq<Race>, n: nat)
    requires n < |states|
  {
    forall k :: 0 <= k < n ==> PinsStay(states[k].audit.refs, states[k + 1].audit.refs)
  }

  // ---------------------------------------------------------------- one transaction

  lemma OnlyWritesLose(r: Race, e: Event)
    ensures !WritesBack(r, e) ==> PinsStay(r.audit.refs, After(r, e).audit.refs)
    ensures WritesBack(r, e) ==>
              (PinsStay(r.audit.refs, After(r, e).audit.refs) <==> PinsStay(r.audit.refs, r.runs[e.job].seen))
  {
  }

  /** Outside the write-backs, new pins are exactly those of accepted pinning transactions. */
  lemma OnlyPinsAdd(r: Race, e: Event)
    ensures !WritesBack(r, e) && !PinsAnew(r, e) ==> PinsStay(After(r, e).audit.refs, r.audit.refs)
    ensures PinsAnew(r, e) ==> !PinsStay(After(r, e).audit.refs, r.audit.refs) && !WritesBack(r, e)
  {
  }

  lemma OthersStand(r: Race, e: Event, job: JobId)
    requires !Happens(r, e) || job != e.job
    ensures At(After(r, e), job) == At(r, job)
  {
  }

  /** A run starts to hold exactly what it reads. */
  lemma StartsHolding(r: Race, e: Event)
    requires Happens(r, e) && At(After(r, e), e.job).Some? && At(After(r, e), e.job).value.Read?
    ensures At(After(r, e), e.job).value.seen == r.audit.refs && After(r, e).audit == r.audit
  {
  }

  lemma PinsStayTransitive(a: Refs, b: Refs, c: Refs)
    requires PinsStay(a, b) && PinsStay(b, c)
    ensures PinsStay(a, c)
  {
  }

  // ---------------------------------------------------------------- whole histories

  /** While nothing is lost, a run between read and write holds versions that were all there. */
  lemma {:induction false} SeenIsOld(states: seq<Race>, events: seq<Event>, n: nat, job: JobId)
    requires History(states, events) && n <= |events| && Kept(states, n)
    requires At(states[n], job).Some? && At(states[n], job).value.Read?
    ensures PinsStay(At(states[n], job).value.seen, states[n].audit.refs)
  {
    hide After, PinsStay, Happens;
    var r, e := states[n - 1], events[n - 1];
    if Happens(r, e) && e.job == job {
      StartsHolding(r, e);
      SameStay(r.audit.refs);
    } else {
      OthersStand(r, e, job);
      SeenIsOld(states, events, n - 1, job);
      PinsStayTransitive(At(r, job).value.seen, r.audit.refs, states[n].audit.refs);
    }
  }

  lemma SameStay(a: Refs)
    ensures PinsStay(a, a)
  {
  }

  ghost predicate PinnedWhileHolding(states: seq<Race>, events: seq<Event>, n: nat, job: JobId)
    requires |states| == |events| + 1 && n <= |events|
  {
    exists t: nat :: t < n && PinsAnew(states[t], events[t]) && Holding(states, job, t, n)
  }

  /** A run between read and write has seen every pin there is, unless one was made since it read. */
  lemma {:induction false} SeenAllUnlessPinned(states: seq<Race>, events: seq<Event>, n: nat, job: JobId)
    requires History(states, events) && n <= |events|
    requires forall k :: 0 <= k < n ==> !Crosses(states, events, k)
    requires At(states[n], job).Some? && At(states[n], job).value.Read?
    ensures PinsStay(states[n].audit.refs, At(states[n], job).value.seen) || PinnedWhileHolding(states, events, n, job)
    decreases n, 1
  {
    hide After, PinsStay, Happens, PinsAnew, WritesBack;
    var r, e := states[n - 1], events[n - 1];
    if Happens(r, e) && e.job == job {
      StartsHolding(r, e);
      SameStay(r.audit.refs);
    } else {
      OthersStand(r, e, job);
      SeenAllUnlessPinned(states, events, n - 1, job);
      if PinsAnew(r, e) {
        assert Holding(states, job, n - 1, n);
      } else if PinnedWhileHolding(states, events, n - 1, job) {
        var t: nat :| t < n - 1 && PinsAnew(states[t], events[t]) && Holding(states, job, t, n - 1);
        assert Holding(states, job, t, n);
      } else {
        NoNewPins(states, events, n - 1);
        PinsStayTransitive(states[n].audit.refs, r.audit.refs, At(r, job).value.seen);
      }
    }
  }

  /** Neither a pinning transaction nor an uncrossed write-back leaves more than there was. */
  lemma {:induction false} NoNewPins(states: seq<Race>, events: seq<Event>, k: nat)
    requires History(states, events) && k < |events| && !PinsAnew(states[k], events[k])
    requires forall i :: 0 <= i < k ==> !Crosses(states, events, i)
    ensures PinsStay(states[k + 1].audit.refs, states[k].audit.refs)
    decreases k, 2
  {
    hide PinsStay, PinsAnew;
    var r, e := states[k], events[k];
    OnlyPinsAdd(r, e);
    if WritesBack(r, e) {
      KeptBeforeCrossing(states, events, k);
      SeenIsOld(states, events, k, e.job);
      WrittenIsSeen(r, e);
    }
  }

  lemma WrittenIsSeen(r: Race, e: Event)
    requires WritesBack(r, e) && PinsStay(r.runs[e.job].seen, r.audit.refs)
    ensures PinsStay(After(r, e).audit.refs, r.audit.refs)
  {
  }

  /** Until a write crosses a pin nothing is lost. */
  lemma {:induction false} KeptBeforeCrossing(states: seq<Race>, events: seq<Event>, n: nat)
    requires History(states, events) && n <= |events|
    requires forall k :: 0 <= k < n ==> !Crosses(states, events, k)
    ensures Kept(states, n)
    decreases n, 0
  {
    hide PinsStay, PinsAnew, WritesBack, Happens;
    if n > 0 {
      KeptBeforeCrossing(states, events, n - 1);
      var r, e := states[n - 1], events[n - 1];
      OnlyWritesLose(r, e);
      if WritesBack(r, e) {
        assert !Crosses(states, events, n - 1);
        WriterHolds(r, e);
        SeenAllUnlessPinned(states, events, n - 1, e.job);
      }
    }
  }

  lemma WriterHolds(r: Race, e: Event)
    requires WritesBack(r, e)
    ensures At(r, e.job).Some? && At(r, e.job).value.Read? && At(r, e.job).value.seen == r.runs[e.job].seen
  {
  }

  lemma {:induction false} KeptBetween(states: seq<Race>, i: nat, j: nat)
    requires i <= j < |states| && Kept(states, j)
    ensures PinsStay(states[i].audit.refs, states[j].audit.refs)
    decreases j - i
  {
    hide PinsStay;
    if i == j {
      SameStay(states[i].audit.refs);
    } else {
      KeptBetween(states, i, j - 1);
      PinsStayTransitive(states[i].audit.refs, states[j - 1].audit.refs, states[j].audit.refs);
    }
  }

  /** A write that crosses a pin loses it, or one was lost before. */
  lemma CrossingLoses(states: seq<Race>, events: seq<Event>, k: nat)
    requires History(states, events) && k < |events| && Crosses(states, events, k)
    ensures !Kept(states, k + 1)
  {
    hide PinsStay, PinsAnew, WritesBack, After, Happens;
    if Kept(states, k + 1) {
      var r, e := states[k], events[k];
      var t: nat :| t < k && PinsAnew(states[t], events[t]) && Holding(states, e.job, t, k);
      OnlyPinsAdd(states[t], events[t]);
      assert Kept(states, t) && Kept(states, k);
      WriterHolds(r, e);
      SeenIsOld(states, events, t, e.job);
      KeptBetween(states, t + 1, k);
      OnlyWritesLose(r, e);
      assert PinsStay(states[k].audit.refs, states[k + 1].audit.refs);
      var seen := r.runs[e.job].seen;
      PinsStayTransitive(states[t + 1].audit.refs, r.audit.refs, seen);
      PinsStayTransitive(states[t + 1].audit.refs, seen, states[t].audit.refs);
      assert false;
    }
  }

  /**
   Over every history of any number of runs of one audit: no pin is ever lost if and only if no run writes its
   versions back after another run has pinned something new since it read them.
   */
  lemma PinsKeptIff(states: seq<Race>, events: seq<Event>, n: nat)
    requires History(states, events) && n <= |events|
    ensures Kept(states, n) <==> forall k :: 0 <= k < n ==> !Crosses(states, events, k)
  {
    hide PinsStay, Crosses;
    if forall k :: 0 <= k < n ==> !Crosses(states, events, k) {
      KeptBeforeCrossing(states, events, n);
    } else {
      var k :| 0 <= k < n && Crosses(states, events, k);
      CrossingLoses(states, events, k);
    }
  }

  /** The pin of run 1 falls between the read and the write of run 0. */
  function FourCalls(pack: PackId, chosen: seq<AssessmentId>): seq<Event> {
    [Event(0, ReadRefs(0), true), Event(1, LoadPack(1, pack), true), Event(1, Pin(1), true),
        Event(0, Assess(0, Some(chosen)), true)]
  }

  function FourStates(r: Race, e: seq<Event>): seq<Race>
    requires |e| == 4
  {
    var r1 := After(r, e[0]);
    var r2 := After(r1, e[1]);
    var r3 := After(r2, e[2]);
    [r, r1, r2, r3, After(r3, e[3])]
  }

  /**
   Two runs of one audit, one past identification and one past its assessment: the write of the first crosses the
   pin of the second, so a pin is lost, and it is the one just made.
   */
  lemma TwoRunsLosePins(audit: Audit, profile: ProfileId, pack: PackId, chosen: seq<AssessmentId>)
    requires InProgress(audit) && audit.resolution.profile == Some(profile) && audit.refs == NO_REFS
    requires audit.frameworks != []
    ensures var events := FourCalls(pack, chosen);
      var states := FourStates(Race(audit, map[0 := Identified(profile), 1 := Assessed(profile)]), events);
      && History(states, events) && Crosses(states, events, 3) && !Kept(states, 4)
      && states[3].audit.refs.pack == Some(pack) && states[4].audit.refs.pack == None
  {
    var events := FourCalls(pack, chosen);
    var states := FourStates(Race(audit, map[0 := Identified(profile), 1 := Assessed(profile)]), events);
    assert History(states, events);
    assert PinsAnew(states[2], events[2]) && Holding(states, 0, 2, 3);
    assert Crosses(states, events, 3);
    PinsKeptIff(states, events, 4);
  }
}
