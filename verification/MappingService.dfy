/**
 The training service itself (backend/app/training/service.py): the calls that change mappings, validation
 runs and packs, each proved to take the step MappingLifecycle describes.
 */
module MappingService {
  import opened Common
  import opened MappingLifecycle
  import opened Text
  import C = ConcurrentPublication

  datatype TrainingError = NotAdministrator | NotFound | InvalidKey | Conflict | Integrity

  /** Why a mapping cannot be created: the predecessor is looked up first, then the key, then the version. */
  function CreateRefusal(s: Store, previous: Option<VersionId>, key: string): TrainingError {
    if previous.Some? && previous.value !in s.mappings then NotFound
    else if !ValidKey(key) then InvalidKey
    else Integrity
  }

  class TrainingService {
    var mappings: map<VersionId, Mapping>
    var runs: map<RunId, ValidationRun>
    var packs: seq<PackVersion>
    var pending: map<VersionId, C.Prepared>

    constructor ()
      ensures S() == Store(map[], map[], []) && pending == map[]
    {
      mappings, runs, packs, pending := map[], map[], [], map[];
    }

    ghost function S(): Store
      reads this
    {
      Store(mappings, runs, packs)
    }

    /** The tables and the publications under way. */
    ghost function D(): C.Desk
      reads this
    {
      C.Desk(S(), pending)
    }

    /** `lineage` is the identifier drawn for a mapping that continues no other. */
    method CreateMapping(
      id: VersionId, lineage: MappingId, previous: Option<VersionId>, key: string, definition: Definition,
      ghost env: Env)
      returns (r: Result<VersionId, TrainingError>)
      requires id !in mappings
      requires previous.None? ==> forall q :: q in mappings ==> mappings[q].mappingId != lineage
      modifies `mappings, `runs
      ensures Step(old(S()), Create(id, lineage, previous, key, definition), env, S())
      ensures r.Ok? <==> Allowed(old(S()), Create(id, lineage, previous, key, definition), env)
      ensures r.Err? ==> r.error == CreateRefusal(old(S()), previous, key)
    {
      var mappingId, version := lineage, 1;
      if previous.Some? {
        if previous.value !in mappings {
          return Err(NotFound);
        }
        mappingId, version := mappings[previous.value].mappingId, mappings[previous.value].version + 1;
      }
      if Strip(key) == [] || |key| > 255 {
        return Err(InvalidKey);
      }
      if previous.Some? && exists q ::
          q in mappings && mappings[q].mappingId == mappingId && mappings[q].version == version
      {
        return Err(Integrity);
      }
      mappings := mappings[id := Mapping(mappingId, version, previous, Draft, definition, None, None, None, None)];
      return Ok(id);
    }

    method UpdateMapping(id: VersionId, definition: Definition, ghost env: Env)
      returns (r: Result<Mapping, TrainingError>)
      modifies `mappings, `runs
      ensures Step(old(S()), Update(id, definition), env, S())
      ensures r.Ok? <==> Allowed(old(S()), Update(id, definition), env)
      ensures r.Ok? ==> id in mappings && r.value == mappings[id]
      ensures r.Err? ==> r.error == if id !in old(mappings) then NotFound else Conflict
    {
      if id !in mappings {
        return Err(NotFound);
      }
      if !Mutable(mappings[id].status) {
        return Err(Conflict);
      }
      var mapping := mappings[id].(definition := definition);
      mapping := mapping.(status := Draft, results := None);
      mappings := mappings[id := mapping];
      return Ok(mapping);
    }

    method RequestValidation(
      id: VersionId, run: RunId, evidence: Option<ArtifactId>, negative: Option<ArtifactId>, createdAt: real, env: Env)
      returns (r: Result<RunId, TrainingError>)
      requires run !in runs
      modifies `mappings, `runs
      ensures Step(old(S()), Request(id, run, evidence, negative, createdAt), env, S())
      ensures r.Ok? <==> Allowed(old(S()), Request(id, run, evidence, negative, createdAt), env)
      ensures r.Err? ==> r.error == if id !in old(mappings) then NotFound else Conflict
    {
      if id !in mappings {
        return Err(NotFound);
      }
      var mapping := mappings[id];
      if mapping.status !in {Draft, Testing} {
        return Err(Conflict);
      }
      if mapping.definition.structured && (evidence.None? || negative.None?) {
        return Err(Conflict);
      }
      if evidence.Some? && evidence == negative {
        return Err(Conflict);
      }
      if !Usable(evidence, negative, env) {
        return Err(Conflict);
      }
      runs := runs[run := ValidationRun(id, createdAt, evidence, negative, Pending, None)];
      mappings := mappings[id := mapping.(status := Testing)];
      return Ok(run);
    }

    /** `cases` is what the examples and the evidence say of the definition the mapping has now. */
    method ExecuteValidation(id: VersionId, run: RunId, cases: bool, env: Env) returns (r: Result<bool, TrainingError>)
      modifies `mappings, `runs
      ensures Step(old(S()), Execute(id, run, cases), env, S())
      ensures r.Ok? <==> Allowed(old(S()), Execute(id, run, cases), env)
      ensures r.Ok? ==> r.value == (cases && !Collision(old(S()), id))
      ensures r.Err? ==> r == Err(Conflict)
    {
      if run !in runs || runs[run].mapping != id || id !in mappings || runs[run].status != Pending {
        return Err(Conflict);
      }
      if !Usable(runs[run].evidence, runs[run].negative, env) {
        return Err(Conflict);
      }
      var mapping := mappings[id];
      var collision := exists q :: q in mappings && Collides(Store(mappings, runs, packs), id, q);
      var results := Results(cases && !collision, mapping.definition, ManifestsOf(mapping.definition.profiles, env),
                             Digested(Given(runs[run].evidence) + Given(runs[run].negative), env));
      assert results == Evaluated(S(), id, runs[run], cases, env);
      runs := runs[run := runs[run].(status := if results.passed then Passed else Failed, results := Some(results))];
      mappings := mappings[id := mapping.(results := Some(results))];
      return Ok(results.passed);
    }

    /** The mapping's run with the latest creation time, row by row. */
    method LatestValidation(id: VersionId) returns (found: Option<RunId>)
      ensures found.Some? ==> IsLatest(runs, id, found.value)
      ensures found.None? ==> forall r :: r in runs ==> runs[r].mapping != id
    {
      found := None;
      var rest := runs.Keys;
      while rest != {}
        invariant rest <= runs.Keys
        invariant found.Some? ==> found.value in runs && runs[found.value].mapping == id
        invariant forall r :: r in runs && r !in rest && runs[r].mapping == id ==>
            found.Some? && NotNewer(runs, r, found.value)
        decreases rest
      {
        var r :| r in rest;
        rest := rest - {r};
        if runs[r].mapping == id && (found.None? || !NotNewer(runs, r, found.value)) {
          found := Some(r);
        }
      }
    }

    method ValidationIsCurrent(id: VersionId, env: Env) returns (current: bool)
      requires id in mappings
      ensures current <==> CurrentlyValidated(S(), id, env)
      ensures current <==> exists r :: UpToDate(S(), id, r, env)
    {
      ValidatedIsUpToDate(S(), id, env);
      hide UpToDate;
      var latest := LatestValidation(id);
      current := false;
      if latest.Some? {
        var run := runs[latest.value];
        current := run.status == Passed && run.results.Some?
            && Current(run.results.value, mappings[id].definition, env);
        assert current ==> PassedBy(S(), id, latest.value);
        forall r | PassedBy(S(), id, r) ensures r == latest.value {
          assert NotNewer(runs, r, latest.value) && NotNewer(runs, latest.value, r);
        }
      }
    }

    method ApproveMapping(id: VersionId, user: User, env: Env) returns (r: Result<Mapping, TrainingError>)
      modifies `mappings, `runs
      ensures Step(old(S()), Approve(id, user), env, S())
      ensures r.Ok? <==> Allowed(old(S()), Approve(id, user), env)
      ensures r.Ok? ==> id in mappings && r.value == mappings[id]
      ensures r.Err? ==> r.error == if !user.admin then NotAdministrator else if id !in old(mappings) then NotFound
          else Conflict
    {
      if !user.admin {
        return Err(NotAdministrator);
      }
      if id !in mappings {
        return Err(NotFound);
      }
      var current := ValidationIsCurrent(id, env);
      if mappings[id].status != Testing || !current {
        return Err(Conflict);
      }
      mappings := mappings[id := mappings[id].(status := Approved, approvedBy := Some(user.id))];
      return Ok(mappings[id]);
    }

    method RejectMapping(id: VersionId, user: User, ghost env: Env) returns (r: Result<Mapping, TrainingError>)
      modifies `mappings, `runs
      ensures Step(old(S()), Reject(id, user), env, S())
      ensures r.Ok? <==> Allowed(old(S()), Reject(id, user), env)
      ensures r.Ok? ==> id in mappings && r.value == mappings[id]
      ensures r.Err? ==> r.error == if !user.admin then NotAdministrator else if id !in old(mappings) then NotFound
          else Conflict
    {
      if !user.admin {
        return Err(NotAdministrator);
      }
      if id !in mappings {
        return Err(NotFound);
      }
      if !Mutable(mappings[id].status) {
        return Err(Conflict);
      }
      mappings := mappings[id := mappings[id].(status := Rejected)];
      return Ok(mappings[id]);
    }

    /** The highest version of the pack. */
    method PreviousPack(key: PackKey) returns (last: Option<nat>)
      ensures last == LatestPack(packs, key)
    {
      last := None;
      for i := 0 to |packs|
        invariant last == LatestPack(packs[..i], key)
      {
        assert packs[..i + 1][..i] == packs[..i];
        if packs[i].key == key && (last.None? || packs[last.value].version < packs[i].version) {
          last := Some(i);
        }
      }
      assert packs[..|packs|] == packs;
    }

    /** The published version of the same mapping, if there is one. */
    method PreviousMapping(id: VersionId) returns (prior: Option<VersionId>)
      requires id in mappings
      ensures if prior.Some? then PublishedTwin(S(), id, prior.value) else forall q :: !PublishedTwin(S(), id, q)
    {
      prior := None;
      var rest := mappings.Keys;
      while rest != {}
        invariant rest <= mappings.Keys
        invariant if prior.Some? then PublishedTwin(S(), id, prior.value)
                  else forall q :: q in mappings && q !in rest ==> !PublishedTwin(S(), id, q)
        decreases rest
      {
        var q :| q in rest;
        rest := rest - {q};
        if mappings[q].mappingId == mappings[id].mappingId && mappings[q].status == Published {
          prior := Some(q);
        }
      }
    }

    /** The pack of these profiles is held by a publication under way. */
    predicate PackIsHeld(key: PackKey)
      reads this
    {
      exists p :: p in pending && p in mappings && KeyOf(mappings[p].definition) == key
    }

    /** Takes the locks, checks, and reads the version in force.  A held row or pack means waiting, not an error. */
    method PreparePublication(id: VersionId, user: User, env: Env) returns (r: Result<VersionId, TrainingError>)
      requires id !in pending && (id in mappings ==> !PackIsHeld(KeyOf(mappings[id].definition)))
      modifies `pending
      ensures C.Next(old(D()), C.Prepare(id, user, env), D())
      ensures r.Ok? <==> C.CanPrepare(old(D()), id, user, env)
      ensures r.Ok? ==> id in pending && C.ReadsPrior(S(), id, pending[id].prior) && pending[id].since == |packs|
      ensures r.Err? ==> r.error == if !user.admin then NotAdministrator else if id !in old(mappings) then NotFound
          else Conflict
    {
      if !user.admin {
        return Err(NotAdministrator);
      }
      if id !in mappings {
        return Err(NotFound);
      }
      var mapping := mappings[id];
      var current := ValidationIsCurrent(id, env);
      if mapping.status != Approved || mapping.approvedBy.None? || !current {
        return Err(Conflict);
      }
      var profiles := mapping.definition.profiles;
      if profiles == [] || exists p :: p in profiles && p !in env.available {
        return Err(Conflict);
      }
      assert C.CanPrepare(D(), id, user, env);
      var prior := PreviousMapping(id);
      assert C.ReadsPrior(D().store, id, prior);
      pending := pending[id := C.Prepared(prior, |packs|)];
      return Ok(id);
    }

    /**
     Writes the next pack version, supersedes the version read if it is still in force and marks this one published.
     */
    method CommitPublication(id: VersionId, now: real) returns (row: PackVersion)
      requires id in pending && id in mappings
      modifies this
      ensures C.Next(old(D()), C.Commit(id, now), D())
      ensures packs == old(packs) + [row] && runs == old(runs)
    {
      var mapping := mappings[id];
      var key := KeyOf(mapping.definition);
      var last := PreviousPack(key);
      var retained: set<VersionId> := {};
      if last.Some? {
        retained := set q | q in packs[last.value].members && q in mappings
            && mappings[q].mappingId != mapping.mappingId;
      }
      row := PackVersion(key, if last.Some? then packs[last.value].version + 1 else 1, last, retained + {id}, now);
      assert row == NextPackVersion(S(), id, now);
      packs := packs + [row];
      var prior := pending[id].prior;
      if prior.Some? && prior.value in mappings && mappings[prior.value].status == Published {
        mappings := mappings[prior.value := mappings[prior.value].(status := Superseded)];
      }
      mapping := mapping.(status := Published, publishedAt := Some(now), packVersion := Some(|packs| - 1));
      mappings := mappings[id := mapping];
      assert S() == PublishedStore(old(S()), id, C.InForce(old(D()), id), now);
      pending := pending - {id};
    }

    /** Both steps with nothing in between: the publication of the serial histories. */
    method PublishMapping(id: VersionId, user: User, now: real, env: Env)
      returns (r: Result<PackVersion, TrainingError>)
      requires pending == map[]
      modifies this
      ensures Step(old(S()), Publish(id, user, now), env, S()) && pending == map[]
      ensures r.Ok? <==> Allowed(old(S()), Publish(id, user, now), env)
      ensures r.Ok? ==> packs == old(packs) + [r.value]
      ensures r.Err? ==> r.error == if !user.admin then NotAdministrator else if id !in old(mappings) then NotFound
          else Conflict
    {
      hide PublishedStore, CurrentlyValidated;
      ghost var s := S();
      var prepared := PreparePublication(id, user, env);
      assert C.CanPrepare(C.Desk(s, map[]), id, user, env) <==> Allowed(s, Publish(id, user, now), env);
      if prepared.Err? {
        return Err(prepared.error);
      }
      assert C.InForce(D(), id) == pending[id].prior;
      var row := CommitPublication(id, now);
      return Ok(row);
    }
  }
}
