/**
 Publications that overlap (backend/app/training/service.py:261-290).

 `publish_mapping` holds the row of its own version and the pack of its profiles.  Two versions of one mapping made
 for different profiles share neither lock, and the query for the version in force sees what was committed when it
 started.  So a publication is two steps here: `Prepare` takes the locks, checks, and reads the version in force;
 `Commit` writes.  A version read as in force is looked at again when its row is locked, so one that is no longer
 published is passed over.  Every other call is one step, and waits for the row of its mapping.
 */
module ConcurrentPublication {
  import opened Common
  import opened MappingLifecycle

  /** What a publication under way has read: the version in force, and how many pack versions there were. */
  datatype Prepared = Prepared(prior: Option<VersionId>, since: nat)

  datatype Desk = Desk(store: Store, pending: map<VersionId, Prepared>)

  datatype Event =
    | Serial(call: Call, env: Env)
    | Prepare(id: VersionId, user: User, env: Env)
    | Commit(id: VersionId, now: real)
    | Rollback(id: VersionId)

  /** The mapping row a call locks. */
  function Locked(call: Call): Option<VersionId> {
    if call.Create? then call.previous else Some(call.id)
  }

  predicate Waits(d: Desk, call: Call) {
    Locked(call).Some? && Locked(call).value in d.pending
  }

  /** The pack of these profiles is held by a publication under way. */
  predicate PackHeld(d: Desk, key: PackKey) {
    exists p :: p in d.pending && p in d.store.mappings && KeyOf(d.store.mappings[p].definition) == key
  }

  ghost predicate CanPrepare(d: Desk, id: VersionId, user: User, env: Env) {
    && id !in d.pending && Allowed(d.store, Publish(id, user, 0.0), env)
    && !PackHeld(d, KeyOf(d.store.mappings[id].definition))
  }

  /** The version to supersede: the one read, if it is still in force. */
  function InForce(d: Desk, id: VersionId): Option<VersionId>
    requires id in d.pending
  {
    var prior := d.pending[id].prior;
    if prior.Some? && prior.value in d.store.mappings && d.store.mappings[prior.value].status == Published then prior
    else None
  }

  ghost predicate ReadsPrior(s: Store, id: VersionId, prior: Option<VersionId>)
    requires id in s.mappings
  {
    if prior.Some? then PublishedTwin(s, id, prior.value) else forall q :: !PublishedTwin(s, id, q)
  }

  ghost predicate Next(d: Desk, e: Event, d': Desk) {
    match e
    case Serial(call, env) =>
      if call.Publish? || Waits(d, call) then d' == d
      else Step(d.store, call, env, d'.store) && d'.pending == d.pending
    case Prepare(id, user, env) =>
      if CanPrepare(d, id, user, env) then
        exists prior :: ReadsPrior(d.store, id, prior)
            && d' == d.(pending := d.pending[id := Prepared(prior, |d.store.packs|)])
      else d' == d
    case Commit(id, now) =>
      if id in d.pending && id in d.store.mappings then
        d' == Desk(PublishedStore(d.store, id, InForce(d, id), now), d.pending - {id})
      else d' == d
    case Rollback(id) => d' == d.(pending := d.pending - {id})
  }

  /** Another version of the mapping has been published since this publication read the version in force. */
  predicate OvertakenBy(d: Desk, id: VersionId, x: VersionId) {
    && id in d.pending && id in d.store.mappings && x in d.store.mappings
    && d.store.mappings[x].mappingId == d.store.mappings[id].mappingId && Released(d.store.mappings[x].status)
    && d.store.mappings[x].packVersion.Some? && d.pending[id].since <= d.store.mappings[x].packVersion.value
  }

  predicate Overtaken(d: Desk, id: VersionId) {
    exists x :: x in d.store.mappings && OvertakenBy(d, id, x)
  }

  // ---------------------------------------------------------------- what always holds

  /** A released version remembers the pack version that brought it, one of its own pack. */
  predicate PlaceOk(s: Store, m: Mapping) {
    Released(m.status) ==>
      m.packVersion.Some? && m.packVersion.value < |s.packs| && s.packs[m.packVersion.value].key == KeyOf(m.definition)
  }

  predicate PlacesOk(s: Store) {
    forall id :: id in s.mappings ==> PlaceOk(s, s.mappings[id])
  }

  predicate ReleasedTwin(s: Store, id: VersionId, q: VersionId)
    requires id in s.mappings
  {
    q in s.mappings && s.mappings[q].mappingId == s.mappings[id].mappingId && Released(s.mappings[q].status)
  }

  /** A publication under way: its version is approved, and nobody adds to its pack. */
  predicate PendingOk(d: Desk, id: VersionId)
    requires id in d.pending
  {
    var p := d.pending[id];
    && id in d.store.mappings && d.store.mappings[id].status == Approved && p.since <= |d.store.packs|
    && (forall r :: p.since <= r < |d.store.packs| ==> d.store.packs[r].key != KeyOf(d.store.mappings[id].definition))
    && (p.prior.Some? ==> ReleasedTwin(d.store, id, p.prior.value))
  }

  predicate SamePack(d: Desk, p: VersionId, q: VersionId) {
    && p in d.pending && q in d.pending && p in d.store.mappings && q in d.store.mappings
    && KeyOf(d.store.mappings[p].definition) == KeyOf(d.store.mappings[q].definition)
  }

  predicate LocksOk(d: Desk) {
    && (forall id :: id in d.pending ==> PendingOk(d, id))
    && (forall p, q :: p in d.pending && q in d.pending && SamePack(d, p, q) ==> p == q)
  }

  /** What holds whatever overlaps: runs, approvals, lineages and the chain of pack versions. */
  ghost predicate BasicsOk(s: Store) {
    RunsOk(s) && ApprovalsRest(s) && LineageOk(s) && Chained(s.packs) && RowsOk(s) && RowsReplace(s) && PlacesOk(s)
  }

  ghost predicate DeskOk(d: Desk) {
    BasicsOk(d.store) && LocksOk(d)
  }

  /**
   While each mapping has one published version, a publication not overtaken has read it, and an overtaken one has
   not.
   */
  ghost predicate ReadOk(d: Desk, id: VersionId)
    requires id in d.pending && id in d.store.mappings
  {
    if Overtaken(d, id) then (exists y: VersionId :: PublishedTwin(d.store, id, y)) && InForce(d, id) == None
    else ReadsPrior(d.store, id, d.pending[id].prior)
  }

  ghost predicate ReadsOk(d: Desk) {
    forall id :: id in d.pending && id in d.store.mappings ==> ReadOk(d, id)
  }

  lemma CommitIsRelease(d: Desk, id: VersionId, now: real, d': Desk)
    requires Next(d, Commit(id, now), d') && id in d.pending && LocksOk(d)
    ensures id in d.store.mappings && Release(d.store, id, InForce(d, id), now, d'.store)
    ensures d'.pending == d.pending - {id}
  {
    hide PublishedStore;
    assert PendingOk(d, id);
  }

  // ---------------------------------------------------------------- the basics, whatever overlaps

  lemma ReleaseKeepsRest(s: Store, id: VersionId, prior: Option<VersionId>, now: real, s': Store)
    requires Release(s, id, prior, now, s') && RunsOk(s) && ApprovalsRest(s)
    ensures RunsOk(s') && ApprovalsRest(s')
  {
    hide PublishedStore, NextPackVersion, RunOk;
    PublicationOnMappings(s, id, prior, now, s', id);
    forall q | q in s'.mappings && Vetted(s'.mappings[q].status)
      ensures s'.mappings[q].approvedBy.Some? && exists r :: RestsOn(s', q, r)
    {
      PublicationOnMappings(s, id, prior, now, s', q);
      var r :| RestsOn(s, q, r);
      assert RestsOn(s', q, r);
    }
  }

  lemma ReleaseKeepsLineage(s: Store, id: VersionId, prior: Option<VersionId>, now: real, s': Store)
    requires Release(s, id, prior, now, s') && LineageOk(s)
    ensures LineageOk(s')
  {
    hide PublishedStore, NextPackVersion;
    PublicationOnMappings(s, id, prior, now, s', id);
    forall q | q in s'.mappings ensures s'.mappings[q].version > 0 && Continues(s', s'.mappings[q]) {
      PublicationOnMappings(s, id, prior, now, s', q);
      assert Continues(s, s.mappings[q]);
      if s.mappings[q].previous.Some? {
        PublicationOnMappings(s, id, prior, now, s', s.mappings[q].previous.value);
      }
    }
    forall a, b | a in s'.mappings && b in s'.mappings && SameVersion(s'.mappings[a], s'.mappings[b]) ensures a == b {
      PublicationOnMappings(s, id, prior, now, s', a);
      PublicationOnMappings(s, id, prior, now, s', b);
      assert SameVersion(s.mappings[a], s.mappings[b]);
    }
  }

  lemma ReleaseKeepsPlaces(s: Store, id: VersionId, prior: Option<VersionId>, now: real, s': Store)
    requires Release(s, id, prior, now, s') && PlacesOk(s)
    ensures PlacesOk(s')
  {
    hide PublishedStore, NextPackVersion;
    PublicationAppends(s, id, prior, now, s');
    PublicationOnMappings(s, id, prior, now, s', id);
    forall q | q in s'.mappings ensures PlaceOk(s', s'.mappings[q]) {
      PublicationOnMappings(s, id, prior, now, s', q);
      assert PlaceOk(s, s.mappings[q]);
    }
  }

  lemma ReleaseKeepsBasics(s: Store, id: VersionId, prior: Option<VersionId>, now: real, s': Store)
    requires Release(s, id, prior, now, s') && BasicsOk(s)
    ensures BasicsOk(s')
  {
    hide Release, RunsOk, ApprovalsRest, LineageOk, Chained, RowsOk, RowsReplace, PlacesOk;
    ReleaseKeepsRest(s, id, prior, now, s');
    ReleaseKeepsLineage(s, id, prior, now, s');
    ReleaseKeepsPlaces(s, id, prior, now, s');
    PublicationKeepsChain(s, id, prior, now, s');
    PublicationKeepsRows(s, id, prior, now, s');
  }

  lemma SerialKeepsPlaces(s: Store, call: Call, env: Env, s': Store)
    requires Step(s, call, env, s') && !call.Publish? && PlacesOk(s)
    ensures PlacesOk(s')
  {
    OtherCallsRelease(s, call, env, s');
    hide Step;
    forall q | q in s'.mappings ensures PlaceOk(s', s'.mappings[q]) {
      if q in s.mappings {
        EveryMappingEvolves(s, call, env, s', q);
        assert PlaceOk(s, s.mappings[q]);
      }
    }
  }

  lemma SerialKeepsBasics(s: Store, call: Call, env: Env, s': Store)
    requires Step(s, call, env, s') && !call.Publish? && BasicsOk(s)
    ensures BasicsOk(s')
  {
    hide Step, RunsOk, ApprovalsRest, LineageOk, Chained, RowsOk, RowsReplace, PlacesOk;
    StepKeepsRuns(s, call, env, s');
    StepKeepsApprovals(s, call, env, s');
    StepKeepsLineage(s, call, env, s');
    SerialKeepsPlaces(s, call, env, s');
    OtherCallsRelease(s, call, env, s');
    SameReleasesKeepRows(s, s');
    SamePacks(s, s');
  }

  lemma SamePacks(s: Store, s': Store)
    requires SameReleases(s, s')
    ensures s'.packs == s.packs
  {
  }

  // ---------------------------------------------------------------- the locks

  /** A call that does not wait leaves every version under publication alone. */
  lemma SerialLeavesOthers(s: Store, call: Call, env: Env, s': Store, q: VersionId)
    requires Step(s, call, env, s') && !call.Publish? && q in s.mappings && Locked(call) != Some(q)
    ensures q in s'.mappings && s'.mappings[q] == s.mappings[q]
  {
    hide IsLatest, Current, LatestPack, Collision, Usable, CurrentlyValidated;
  }

  lemma SerialKeepsPending(d: Desk, call: Call, env: Env, d': Desk, id: VersionId)
    requires Step(d.store, call, env, d'.store) && !call.Publish? && !Waits(d, call) && d'.pending == d.pending
    requires id in d.pending && PendingOk(d, id)
    ensures PendingOk(d', id) && d'.store.mappings[id] == d.store.mappings[id] && d'.store.packs == d.store.packs
  {
    OtherCallsRelease(d.store, call, env, d'.store);
    SerialLeavesOthers(d.store, call, env, d'.store, id);
    hide Step;
    if d.pending[id].prior.Some? {
      EveryMappingEvolves(d.store, call, env, d'.store, d.pending[id].prior.value);
    }
  }

  lemma CommitKeepsPending(d: Desk, a: VersionId, now: real, d': Desk, id: VersionId)
    requires Next(d, Commit(a, now), d') && a in d.pending && LocksOk(d) && id in d'.pending
    ensures id in d.pending && d'.pending[id] == d.pending[id] && PendingOk(d, id)
    ensures PendingOk(d', id) && d'.store.mappings[id] == d.store.mappings[id]
  {
    CommitIsRelease(d, a, now, d');
    var s, s', prior := d.store, d'.store, InForce(d, a);
    hide Next, PublishedStore, NextPackVersion;
    assert PendingOk(d, id) && PendingOk(d, a);
    PublicationAppends(s, a, prior, now, s');
    PublicationOnMappings(s, a, prior, now, s', id);
    assert SamePack(d, a, id) ==> a == id;
    if d.pending[id].prior.Some? {
      PublicationOnMappings(s, a, prior, now, s', d.pending[id].prior.value);
    }
  }

  lemma NextKeepsLocks(d: Desk, e: Event, d': Desk)
    requires Next(d, e, d') && LocksOk(d)
    ensures LocksOk(d')
  {
    forall id | id in d'.pending ensures PendingOk(d', id) {
      NextKeepsPending(d, e, d', id);
    }
    forall p, q | p in d'.pending && q in d'.pending && SamePack(d', p, q) ensures p == q {
      NextKeepsApart(d, e, d', p, q);
    }
  }

  lemma NextKeepsPending(d: Desk, e: Event, d': Desk, id: VersionId)
    requires Next(d, e, d') && LocksOk(d) && id in d'.pending
    ensures PendingOk(d', id)
    ensures id in d.pending ==> d'.store.mappings[id] == d.store.mappings[id] && d'.pending[id] == d.pending[id]
    ensures id !in d.pending ==> e.Prepare? && e.id == id && CanPrepare(d, id, e.user, e.env) && d'.store == d.store
  {
    hide PublishedStore, CurrentlyValidated, Step;
    match e
    case Serial(call, env) =>
      assert PendingOk(d, id);
      if !call.Publish? && !Waits(d, call) {
        SerialKeepsPending(d, call, env, d', id);
      }
    case Prepare(a, user, env) => assert id in d.pending ==> PendingOk(d, id);
    case Commit(a, now) =>
      if a in d.pending && a in d.store.mappings {
        CommitKeepsPending(d, a, now, d', id);
      } else {
        assert PendingOk(d, id);
      }
    case Rollback(_) => assert PendingOk(d, id);
  }

  lemma NextKeepsApart(d: Desk, e: Event, d': Desk, p: VersionId, q: VersionId)
    requires Next(d, e, d') && LocksOk(d) && p in d'.pending && q in d'.pending && SamePack(d', p, q)
    ensures p == q
  {
    NextKeepsPending(d, e, d', p);
    NextKeepsPending(d, e, d', q);
    hide Next, Allowed;
    assert p in d.pending ==> PendingOk(d, p);
    assert q in d.pending ==> PendingOk(d, q);
    assert p in d.pending && q in d.pending ==> SamePack(d, p, q);
  }

  // ---------------------------------------------------------------- what a publication has read

  lemma ReadOkFrame(d: Desk, d': Desk, id: VersionId)
    requires id in d.pending && id in d'.pending && d'.pending[id] == d.pending[id]
    requires id in d.store.mappings && id in d'.store.mappings && ReadOk(d, id)
    requires forall y :: PublishedTwin(d.store, id, y) <==> PublishedTwin(d'.store, id, y)
    requires Overtaken(d, id) <==> Overtaken(d', id)
    requires InForce(d, id) == None ==> InForce(d', id) == None
    ensures ReadOk(d', id)
  {
    hide PublishedTwin, Overtaken;
  }

  lemma SerialKeepsRead(d: Desk, call: Call, env: Env, d': Desk, id: VersionId)
    requires Next(d, Serial(call, env), d') && LocksOk(d) && id in d.pending && id in d.store.mappings && ReadOk(d, id)
    ensures id in d'.pending && id in d'.store.mappings && ReadOk(d', id)
  {
    NextKeepsPending(d, Serial(call, env), d', id);
    if !call.Publish? && !Waits(d, call) {
      OtherCallsRelease(d.store, call, env, d'.store);
      hide Step, ReadOk;
      forall x | x in d.store.mappings
        ensures x in d'.store.mappings && (OvertakenBy(d, id, x) <==> OvertakenBy(d', id, x))
      {
        EveryMappingEvolves(d.store, call, env, d'.store, x);
      }
      assert Overtaken(d, id) <==> Overtaken(d', id) by {
        if x :| x in d'.store.mappings && OvertakenBy(d', id, x) {
          assert x in d.store.mappings && OvertakenBy(d, id, x);
        }
      }
      assert PendingOk(d, id);
      ReadOkFrame(d, d', id);
    }
  }

  lemma CommitKeepsRead(d: Desk, a: VersionId, now: real, d': Desk, id: VersionId)
    requires Next(d, Commit(a, now), d') && a in d.pending && LocksOk(d) && id in d'.pending && PlacesOk(d.store)
    requires id in d.pending && id in d.store.mappings && ReadOk(d, id) && OnePublished(d'.store)
    ensures id in d'.store.mappings && ReadOk(d', id)
  {
    CommitIsRelease(d, a, now, d');
    CommitKeepsPending(d, a, now, d', id);
    var s, s', prior := d.store, d'.store, InForce(d, a);
    hide Next, PublishedStore, NextPackVersion, ReadOk;
    PublicationAppends(s, a, prior, now, s');
    PublicationOnMappings(s, a, prior, now, s', a);
    if s.mappings[a].mappingId == s.mappings[id].mappingId {
      SameMappingIsOvertaken(d, a, d', id);
    } else {
      forall x | x in s.mappings
        ensures x in s'.mappings && (OvertakenBy(d, id, x) <==> OvertakenBy(d', id, x))
        ensures (PublishedTwin(s, id, x) <==> PublishedTwin(s', id, x))
      {
        PublicationOnMappings(s, a, prior, now, s', x);
      }
      assert Overtaken(d, id) <==> Overtaken(d', id) by {
        if x :| x in s'.mappings && OvertakenBy(d', id, x) {
          assert x in s.mappings && OvertakenBy(d, id, x);
        }
      }
      ReadOkFrame(d, d', id);
    }
  }

  lemma SameMappingIsOvertaken(d: Desk, a: VersionId, d': Desk, id: VersionId)
    requires id in d'.pending && id in d'.store.mappings && PendingOk(d', id) && OnePublished(d'.store)
    requires PublishedTwin(d'.store, id, a) && d'.store.mappings[a].packVersion.Some?
    requires d'.pending[id].since <= d'.store.mappings[a].packVersion.value
    requires d'.pending[id].prior != Some(a)
    ensures ReadOk(d', id)
  {
    assert OvertakenBy(d', id, a);
    forall q | PublishedTwin(d'.store, id, q) ensures q == a {
      assert PublishedTwin(d'.store, a, q) && PublishedTwin(d'.store, q, a);
    }
  }

  lemma NextKeepsReads(d: Desk, e: Event, d': Desk)
    requires Next(d, e, d') && DeskOk(d) && ReadsOk(d) && OnePublished(d'.store)
    ensures ReadsOk(d')
  {
    hide BasicsOk, PublishedStore, CurrentlyValidated, Step, ReadOk, OnePublished;
    assert PlacesOk(d.store) by {
      BasicsIncludePlaces(d.store);
    }
    forall id | id in d'.pending && id in d'.store.mappings ensures ReadOk(d', id) {
      NextKeepsPending(d, e, d', id);
      match e
      case Serial(call, env) =>
        assert PendingOk(d, id);
        SerialKeepsRead(d, call, env, d', id);
      case Prepare(a, user, env) => PrepareReads(d, a, user, env, d', id);
      case Commit(a, now) =>
        assert PendingOk(d, id);
        if a in d.pending && a in d.store.mappings {
          CommitKeepsRead(d, a, now, d', id);
        } else {
          assert ReadOk(d, id);
        }
      case Rollback(_) =>
        assert PendingOk(d, id);
        RollbackKeepsRead(d, e, d', id);
    }
  }

  lemma BasicsIncludePlaces(s: Store)
    requires BasicsOk(s)
    ensures PlacesOk(s)
  {
  }

  lemma RollbackKeepsRead(d: Desk, e: Event, d': Desk, id: VersionId)
    requires Next(d, e, d') && e.Rollback? && id in d.pending && id in d'.pending && id in d.store.mappings
    requires ReadOk(d, id)
    ensures ReadOk(d', id)
  {
    assert d'.store == d.store;
    forall x ensures OvertakenBy(d', id, x) <==> OvertakenBy(d, id, x) {
    }
    ReadOkFrame(d, d', id);
  }

  lemma PrepareReads(d: Desk, a: VersionId, user: User, env: Env, d': Desk, id: VersionId)
    requires Next(d, Prepare(a, user, env), d') && PlacesOk(d.store) && id in d'.pending && id in d'.store.mappings
    requires id in d.pending ==> ReadOk(d, id)
    ensures ReadOk(d', id)
  {
    hide CurrentlyValidated;
    assert d'.store == d.store;
    if id in d.pending {
      assert d'.pending[id] == d.pending[id];
      forall x ensures OvertakenBy(d', id, x) <==> OvertakenBy(d, id, x) {
      }
      ReadOkFrame(d, d', id);
    } else {
      forall x | x in d'.store.mappings ensures !OvertakenBy(d', id, x) {
        assert PlaceOk(d.store, d.store.mappings[x]);
      }
    }
  }

  // ---------------------------------------------------------------- one published version of each mapping

  lemma MissedTwinStands(s: Store, id: VersionId, now: real, s': Store, y: VersionId)
    requires Release(s, id, None, now, s') && PublishedTwin(s, id, y)
    ensures !OnePublished(s')
  {
    hide PublishedStore, NextPackVersion;
    PublicationOnMappings(s, id, None, now, s', id);
    PublicationOnMappings(s, id, None, now, s', y);
    assert PublishedTwin(s', id, y) && PublishedTwin(s', y, id);
  }

  /** A commit keeps one published version per mapping exactly when it has not been overtaken. */
  lemma CommitKeepsOneIff(d: Desk, id: VersionId, now: real, d': Desk)
    requires Next(d, Commit(id, now), d') && id in d.pending && DeskOk(d) && ReadsOk(d) && OnePublished(d.store)
    ensures OnePublished(d'.store) <==> !Overtaken(d, id)
  {
    hide Next, PublishedStore, NextPackVersion, BasicsOk, Overtaken, OnePublished, Release, LocksOk;
    CommitIsRelease(d, id, now, d');
    assert ReadOk(d, id);
    if Overtaken(d, id) {
      var y: VersionId :| PublishedTwin(d.store, id, y);
      MissedTwinStands(d.store, id, now, d'.store, y);
    } else {
      UnovertakenIsPublication(d, id, now, d');
      PublicationKeepsOne(d.store, id, InForce(d, id), now, d'.store);
    }
  }

  lemma UnovertakenIsPublication(d: Desk, id: VersionId, now: real, d': Desk)
    requires id in d.pending && id in d.store.mappings && ReadOk(d, id) && !Overtaken(d, id)
    requires Release(d.store, id, InForce(d, id), now, d'.store)
    ensures Publication(d.store, id, InForce(d, id), now, d'.store)
  {
    hide PublishedStore, Overtaken;
  }

  ghost predicate TwoPublished(s: Store, x: VersionId, y: VersionId) {
    x != y && x in s.mappings && y in s.mappings && PublishedTwin(s, x, y) && PublishedTwin(s, y, x)
  }

  lemma NotOneIsTwo(s: Store)
    ensures !OnePublished(s) <==> exists x: VersionId, y: VersionId :: TwoPublished(s, x, y)
  {
    if !OnePublished(s) {
      var a: VersionId, b: VersionId :| a in s.mappings && b in s.mappings && PublishedTwin(s, a, b)
          && PublishedTwin(s, b, a) && a != b;
      assert TwoPublished(s, a, b);
    }
  }

  lemma ReleaseKeepsTwo(
    s: Store, id: VersionId, prior: Option<VersionId>, now: real, s': Store, x: VersionId, y: VersionId)
    requires Release(s, id, prior, now, s') && TwoPublished(s, x, y)
    ensures TwoPublished(s', x, y) || TwoPublished(s', y, id) || TwoPublished(s', x, id)
  {
    hide PublishedStore, NextPackVersion;
    PublicationOnMappings(s, id, prior, now, s', x);
    PublicationOnMappings(s, id, prior, now, s', y);
    PublicationOnMappings(s, id, prior, now, s', id);
  }

  lemma SerialKeepsTwo(s: Store, s': Store, x: VersionId, y: VersionId)
    requires SameReleases(s, s') && TwoPublished(s, x, y)
    ensures TwoPublished(s', x, y)
  {
  }

  /** Two published versions of a mapping are never reduced to one. */
  lemma TwoStayTwo(d: Desk, e: Event, d': Desk)
    requires Next(d, e, d') && LocksOk(d) && !OnePublished(d.store)
    ensures !OnePublished(d'.store)
  {
    hide OnePublished, PublishedStore, CurrentlyValidated, Step, TwoPublished;
    NotOneIsTwo(d.store);
    NotOneIsTwo(d'.store);
    var x: VersionId, y: VersionId :| TwoPublished(d.store, x, y);
    if e.Commit? && e.id in d.pending {
      CommitIsRelease(d, e.id, e.now, d');
      ReleaseKeepsTwo(d.store, e.id, InForce(d, e.id), e.now, d'.store, x, y);
    } else if e.Serial? && !e.call.Publish? && !Waits(d, e.call) {
      OtherCallsRelease(d.store, e.call, e.env, d'.store);
      SerialKeepsTwo(d.store, d'.store, x, y);
    }
  }

  // ---------------------------------------------------------------- whole histories

  ghost predicate Concurrent(states: seq<Desk>, events: seq<Event>) {
    && |states| == |events| + 1 && states[0].pending == map[]
    && forall i :: 0 <= i < |events| ==> Next(states[i], events[i], states[i + 1])
  }

  lemma NextKeepsDesk(d: Desk, e: Event, d': Desk)
    requires Next(d, e, d') && DeskOk(d)
    ensures DeskOk(d')
  {
    NextKeepsLocks(d, e, d');
    hide BasicsOk, LocksOk, PublishedStore, CurrentlyValidated, Step;
    if e.Serial? && !e.call.Publish? && !Waits(d, e.call) {
      SerialKeepsBasics(d.store, e.call, e.env, d'.store);
    } else if e.Commit? && e.id in d.pending {
      CommitIsRelease(d, e.id, e.now, d');
      ReleaseKeepsBasics(d.store, e.id, InForce(d, e.id), e.now, d'.store);
    }
  }

  /**
   Whatever overlaps: approvals rest on passed runs, lineages and pack versions are numbered without gaps, and every
   pack version replaces its predecessor as it should.
   */
  lemma {:induction false} EveryDeskIsOk(states: seq<Desk>, events: seq<Event>, n: nat)
    requires Concurrent(states, events) && BasicsOk(states[0].store) && n <= |events|
    ensures DeskOk(states[n])
  {
    hide Next, DeskOk;
    if n == 0 {
      NothingPending(states[0]);
    } else {
      EveryDeskIsOk(states, events, n - 1);
      NextKeepsDesk(states[n - 1], events[n - 1], states[n]);
    }
  }

  lemma NothingPending(d: Desk)
    requires BasicsOk(d.store) && d.pending == map[]
    ensures DeskOk(d) && ReadsOk(d)
  {
  }

  /** Event `k` commits a publication that another of the same mapping has overtaken. */
  ghost predicate CommitsOvertaken(states: seq<Desk>, events: seq<Event>, k: nat)
    requires |states| == |events| + 1 && k < |events|
  {
    events[k].Commit? && Overtaken(states[k], events[k].id)
  }

  lemma {:induction false} ReadsStayOk(states: seq<Desk>, events: seq<Event>, n: nat)
    requires Concurrent(states, events) && BasicsOk(states[0].store) && n <= |events|
    requires forall k :: 0 <= k <= n ==> OnePublished(states[k].store)
    ensures ReadsOk(states[n])
  {
    hide Next, DeskOk, BasicsOk, OnePublished, ReadsOk;
    if n == 0 {
      NothingPending(states[0]);
    } else {
      ReadsStayOk(states, events, n - 1);
      EveryDeskIsOk(states, events, n - 1);
      NextKeepsReads(states[n - 1], events[n - 1], states[n]);
    }
  }

  lemma OneStaysIff(states: seq<Desk>, events: seq<Event>, n: nat)
    requires Concurrent(states, events) && BasicsOk(states[0].store) && n < |events|
    requires forall k :: 0 <= k <= n ==> OnePublished(states[k].store)
    ensures OnePublished(states[n + 1].store) <==> !CommitsOvertaken(states, events, n)
  {
    EveryDeskIsOk(states, events, n);
    ReadsStayOk(states, events, n);
    var d, e, d' := states[n], events[n], states[n + 1];
    hide DeskOk, ReadsOk, PublishedStore, CurrentlyValidated, Step;
    if e.Commit? && e.id in d.pending {
      CommitKeepsOneIff(d, e.id, e.now, d');
    } else if e.Serial? && !e.call.Publish? && !Waits(d, e.call) {
      OtherCallsRelease(d.store, e.call, e.env, d'.store);
      forall a, b | a in d'.store.mappings && b in d'.store.mappings && PublishedTwin(d'.store, a, b)
          && PublishedTwin(d'.store, b, a)
        ensures a == b
      {
        assert PublishedTwin(d.store, a, b) && PublishedTwin(d.store, b, a);
      }
    }
  }

  /**
   Over every history of overlapping publications: each mapping has at most one published version if and only if no
   publication was committed after another version of its mapping had been published since it read the version in
   force.
   */
  lemma {:induction false} OnePublishedIff(states: seq<Desk>, events: seq<Event>, n: nat)
    requires Concurrent(states, events) && BasicsOk(states[0].store) && OnePublished(states[0].store) && n <= |events|
    ensures OnePublished(states[n].store) <==> forall k :: 0 <= k < n ==> !CommitsOvertaken(states, events, k)
    ensures OnePublished(states[n].store) ==> forall k :: 0 <= k <= n ==> OnePublished(states[k].store)
  {
    hide Next, DeskOk, OnePublished, BasicsOk, Overtaken;
    if n > 0 {
      OnePublishedIff(states, events, n - 1);
      if OnePublished(states[n - 1].store) {
        OneStaysIff(states, events, n - 1);
      } else {
        EveryDeskIsOk(states, events, n - 1);
        LocksOfDesk(states[n - 1]);
        TwoStayTwo(states[n - 1], events[n - 1], states[n]);
      }
    }
  }

  lemma LocksOfDesk(d: Desk)
    requires DeskOk(d)
    ensures LocksOk(d)
  {
  }

  /** Without overtaken commits every store is as good as if publications had been made one by one. */
  lemma {:induction false} UnovertakenStoresAreOk(states: seq<Desk>, events: seq<Event>, n: nat)
    requires Concurrent(states, events) && StoreOk(states[0].store) && PlacesOk(states[0].store) && n <= |events|
    requires forall k :: 0 <= k < n ==> !CommitsOvertaken(states, events, k)
    ensures StoreOk(states[n].store)
  {
    hide Next, StoreOk, DeskOk, ReadsOk, BasicsOk;
    if n > 0 {
      UnovertakenStoresAreOk(states, events, n - 1);
      GoodStoresAreBasic(states[0].store);
      EveryDeskIsOk(states, events, n - 1);
      OnePublishedIff(states, events, n - 1);
      GoodStoreHasOne(states[n - 1].store);
      ReadsStayOk(states, events, n - 1);
      assert !CommitsOvertaken(states, events, n - 1);
      UnovertakenNextIsOk(states[n - 1], events[n - 1], states[n]);
    }
  }

  lemma GoodStoresAreBasic(s: Store)
    requires StoreOk(s) && PlacesOk(s)
    ensures BasicsOk(s) && OnePublished(s)
  {
  }

  lemma GoodStoreHasOne(s: Store)
    requires StoreOk(s)
    ensures OnePublished(s)
  {
  }

  lemma UnovertakenNextIsOk(d: Desk, e: Event, d': Desk)
    requires Next(d, e, d') && DeskOk(d) && ReadsOk(d) && StoreOk(d.store)
    requires e.Commit? ==> !Overtaken(d, e.id)
    ensures StoreOk(d'.store)
  {
    if e.Commit? && e.id in d.pending {
      CommitIsRelease(d, e.id, e.now, d');
      assert ReadOk(d, e.id);
      UnovertakenIsPublication(d, e.id, e.now, d');
      var prior := InForce(d, e.id);
      hide Next, PublishedStore, RunsOk, ApprovalsRest, LineageOk, Chained, RowsOk, RowsReplace, PlacesOk,
        OnePublished, ReleasesOk, Overtaken;
      ReleaseKeepsBasics(d.store, e.id, prior, e.now, d'.store);
      PublicationKeepsOne(d.store, e.id, prior, e.now, d'.store);
      PublicationKeepsReleases(d.store, e.id, prior, e.now, d'.store);
    } else if e.Serial? && !e.call.Publish? && !Waits(d, e.call) {
      hide StoreOk;
      StepKeepsStore(d.store, e.call, e.env, d'.store);
    }
  }

  /** Only a publication made for other profiles can overtake: the pack of the same profiles is held. */
  lemma OvertakenForOtherProfiles(d: Desk, id: VersionId, x: VersionId)
    requires DeskOk(d) && OvertakenBy(d, id, x)
    ensures KeyOf(d.store.mappings[x].definition) != KeyOf(d.store.mappings[id].definition)
  {
    assert PendingOk(d, id) && PlaceOk(d.store, d.store.mappings[x]);
  }

  // ---------------------------------------------------------------- two publications that overlap

  const ADMIN := User(7, true)

  const SURROUNDINGS := Env(map[], {"p", "q"}, {}, map[])

  function Made(profile: ProfileId): Definition {
    Definition([profile], false, "match", "target", "rest")
  }

  function Proof(profile: ProfileId): Results {
    Results(true, Made(profile), ManifestsOf([profile], SURROUNDINGS), [])
  }

  /** Two approved versions of one mapping, made for different profiles, each with its passed run. */
  function TwoApproved(): Store {
    Store(map[0 := Mapping(0, 1, None, Approved, Made("p"), Some(Proof("p")), Some(7), None, None),
              1 := Mapping(0, 2, Some(0), Approved, Made("q"), Some(Proof("q")), Some(7), None, None)],
          map[0 := ValidationRun(0, 1.0, None, None, Passed, Some(Proof("p"))),
              1 := ValidationRun(1, 2.0, None, None, Passed, Some(Proof("q")))], [])
  }

  function Overlapping(): seq<Event> {
    [Prepare(0, ADMIN, SURROUNDINGS), Prepare(1, ADMIN, SURROUNDINGS), Commit(0, 3.0), Commit(1, 4.0)]
  }

  function OverlappingDesks(): seq<Desk> {
    var s := TwoApproved();
    var first := PublishedStore(s, 0, None, 3.0);
    [Desk(s, map[]), Desk(s, map[0 := Prepared(None, 0)]), Desk(s, map[0 := Prepared(None, 0), 1 := Prepared(None, 0)]),
     Desk(first, map[1 := Prepared(None, 0)]), Desk(PublishedStore(first, 1, None, 4.0), map[])]
  }

  lemma TwoApprovedRest()
    ensures RunsOk(TwoApproved()) && ApprovalsRest(TwoApproved())
  {
    var s := TwoApproved();
    assert IsLatest(s.runs, 0, 0) && IsLatest(s.runs, 1, 1);
    assert RestsOn(s, 0, 0) && RestsOn(s, 1, 1);
  }

  lemma TwoApprovedContinue()
    ensures LineageOk(TwoApproved())
  {
    hide Proof, Made;
    var s := TwoApproved();
    assert Continues(s, s.mappings[0]) && Continues(s, s.mappings[1]);
    assert !SameVersion(s.mappings[0], s.mappings[1]);
  }

  lemma NoneReleased()
    ensures PlacesOk(TwoApproved()) && OnePublished(TwoApproved())
  {
    hide Proof, Made;
    assert forall q :: q in TwoApproved().mappings ==> TwoApproved().mappings[q].status == Approved;
  }

  lemma TwoApprovedAreOk()
    ensures BasicsOk(TwoApproved()) && OnePublished(TwoApproved())
  {
    TwoApprovedRest();
    TwoApprovedContinue();
    NoneReleased();
    hide RunsOk, ApprovalsRest, LineageOk, PlacesOk, OnePublished;
  }

  lemma FirstIsValidated()
    ensures CurrentlyValidated(TwoApproved(), 0, SURROUNDINGS)
  {
    assert IsLatest(TwoApproved().runs, 0, 0);
    assert PassedBy(TwoApproved(), 0, 0);
  }

  lemma SecondIsValidated()
    ensures CurrentlyValidated(TwoApproved(), 1, SURROUNDINGS)
  {
    assert IsLatest(TwoApproved().runs, 1, 1);
    assert PassedBy(TwoApproved(), 1, 1);
  }

  lemma BothPrepare()
    ensures Next(OverlappingDesks()[0], Overlapping()[0], OverlappingDesks()[1])
    ensures Next(OverlappingDesks()[1], Overlapping()[1], OverlappingDesks()[2])
  {
    FirstIsValidated();
    SecondIsValidated();
    KeysDiffer();
    hide CurrentlyValidated, PublishedStore, KeyOf;
    var ds := OverlappingDesks();
    assert CanPrepare(ds[0], 0, ADMIN, SURROUNDINGS) && CanPrepare(ds[1], 1, ADMIN, SURROUNDINGS);
    assert ReadsPrior(ds[0].store, 0, None) && ReadsPrior(ds[1].store, 1, None);
  }

  lemma BothCommit()
    ensures Next(OverlappingDesks()[2], Overlapping()[2], OverlappingDesks()[3])
    ensures Next(OverlappingDesks()[3], Overlapping()[3], OverlappingDesks()[4])
  {
    FirstCommit();
    hide PublishedStore;
    var ds := OverlappingDesks();
    assert ds[2].pending - {0} == ds[3].pending && ds[3].pending - {1} == ds[4].pending;
  }

  lemma OverlappingRuns()
    ensures Concurrent(OverlappingDesks(), Overlapping())
  {
    BothPrepare();
    BothCommit();
    hide Next, PublishedStore;
  }

  lemma KeysDiffer()
    ensures KeyOf(Made("p")) != KeyOf(Made("q"))
  {
    assert "p" in multiset(["p"]) && "p" !in multiset(["q"]);
  }

  lemma FirstCommit()
    ensures var first := PublishedStore(TwoApproved(), 0, None, 3.0);
      && first.mappings.Keys == {0, 1} && first.mappings[0].status == Published && first.mappings[0].mappingId == 0
      && first.mappings[0].packVersion == Some(0) && first.mappings[1] == TwoApproved().mappings[1]
  {
  }

  /** Both publications commit, the second overtaken by the first, and both versions stand published. */
  lemma OverlappingPublicationsBothStand()
    ensures var ds, es := OverlappingDesks(), Overlapping();
      && Concurrent(ds, es) && BasicsOk(ds[0].store) && OnePublished(ds[0].store)
      && CommitsOvertaken(ds, es, 3) && !OnePublished(ds[4].store)
  {
    OverlappingRuns();
    TwoApprovedAreOk();
    FirstCommit();
    hide BasicsOk, PublishedStore, CurrentlyValidated;
    assert OvertakenBy(OverlappingDesks()[3], 1, 0);
    OnePublishedIff(OverlappingDesks(), Overlapping(), 4);
  }
}
