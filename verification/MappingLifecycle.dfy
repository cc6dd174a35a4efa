/**
 The life of administrator mappings and of the knowledge packs they are published in
 (backend/app/training/service.py, repository.py).

 Every service call is one transaction holding the row lock of its mapping, so a history is a sequence of
 calls on one store.  `Step` says what a call does; MappingService.dfy holds the code, proved to do it.
 Digests are taken to be injective: a definition digest is the definition, a profile digest the manifests of
 the definition's profiles.
 */
module MappingLifecycle {
  import opened Common
  import opened Text

  type VersionId = nat

  type MappingId = nat

  type RunId = nat

  type ProfileId = string

  type ArtifactId = nat

  datatype Status = Suggested | Draft | Testing | Approved | Published | Superseded | Rejected

  /** The parts of a definition that a rule of this file looks at; `rest` is everything else, examples included. */
  datatype Definition = Definition(profiles: seq<ProfileId>, structured: bool, structuralMatch: string, target: string,
      rest: string)

  datatype Results = Results(
    passed: bool, definition: Definition, profiles: map<ProfileId, Option<string>>, evidence: seq<(ArtifactId, string)>)

  datatype Mapping = Mapping(
    mappingId: MappingId, version: nat, previous: Option<VersionId>, status: Status, definition: Definition,
    results: Option<Results>, approvedBy: Option<nat>, publishedAt: Option<real>, packVersion: Option<nat>)

  datatype RunStatus = Pending | Passed | Failed

  datatype ValidationRun = ValidationRun(
    mapping: VersionId, createdAt: real, evidence: Option<ArtifactId>, negative: Option<ArtifactId>,
    status: RunStatus, results: Option<Results>)

  /** A pack is named by its profile identifiers in sorted order, that is by their multiset. */
  type PackKey = multiset<ProfileId>

  datatype PackVersion = PackVersion(
    key: PackKey, version: nat, previous: Option<nat>, members: set<VersionId>, publishedAt: real)

  /** The tables; a pack version's identity is its place in `packs`. */
  datatype Store = Store(mappings: map<VersionId, Mapping>, runs: map<RunId, ValidationRun>, packs: seq<PackVersion>)

  /**
   What a call finds outside the tables: registered manifests, profiles in force, evidence files and their digests.
   */
  datatype Env = Env(
    manifests: map<ProfileId, string>, available: set<ProfileId>, ready: set<ArtifactId>, digests: map<ArtifactId,
    string>)

  datatype User = User(id: nat, admin: bool)

  datatype Call =
    | Create(id: VersionId, lineage: MappingId, previous: Option<VersionId>, key: string, definition: Definition)
    | Update(id: VersionId, definition: Definition)
    | Request(id: VersionId, run: RunId, evidence: Option<ArtifactId>, negative: Option<ArtifactId>, createdAt: real)
    | Execute(id: VersionId, run: RunId, cases: bool)
    | Approve(id: VersionId, user: User)
    | Reject(id: VersionId, user: User)
    | Publish(id: VersionId, user: User, now: real)

  // ---------------------------------------------------------------- validation

  predicate Mutable(status: Status) {
    status in {Suggested, Draft, Testing}
  }

  predicate Vetted(status: Status) {
    status in {Approved, Published, Superseded}
  }

  function ManifestsOf(profiles: seq<ProfileId>, env: Env): map<ProfileId, Option<string>> {
    map p | p in profiles :: if p in env.manifests then Some(env.manifests[p]) else None
  }

  /** The run's results still speak about this definition: same definition, same manifests, same evidence. */
  predicate Current(results: Results, definition: Definition, env: Env) {
    && results.definition == definition
    && results.profiles == ManifestsOf(definition.profiles, env)
    && forall e :: e in results.evidence ==> e.0 in env.digests && env.digests[e.0] == e.1
  }

  predicate NotNewer(runs: map<RunId, ValidationRun>, q: RunId, r: RunId)
    requires q in runs && r in runs
  {
    runs[q].createdAt < runs[r].createdAt || (runs[q].createdAt == runs[r].createdAt && q <= r)
  }

  /** The run with the latest creation time of its mapping, then the greatest identifier. */
  ghost predicate IsLatest(runs: map<RunId, ValidationRun>, id: VersionId, r: RunId) {
    && r in runs && runs[r].mapping == id
    && forall q :: q in runs && runs[q].mapping == id ==> NotNewer(runs, q, r)
  }

  /** The latest run of the mapping passed. */
  ghost predicate PassedBy(s: Store, id: VersionId, r: RunId) {
    IsLatest(s.runs, id, r) && s.runs[r].status == Passed && s.runs[r].results.Some?
  }

  ghost predicate CurrentlyValidated(s: Store, id: VersionId, env: Env)
    requires id in s.mappings
  {
    exists r :: PassedBy(s, id, r) && Current(s.runs[r].results.value, s.mappings[id].definition, env)
  }

  /**
   No run of the mapping was requested after this one, it passed, and its results name the definition there is, the
   manifest each of its profiles has or lacks, and artifacts that are there under the same digests.
   */
  ghost predicate UpToDate(s: Store, id: VersionId, r: RunId, env: Env)
    requires id in s.mappings
  {
    && r in s.runs && s.runs[r].mapping == id && s.runs[r].status == Passed && s.runs[r].results.Some?
    && (forall q :: q in s.runs && s.runs[q].mapping == id ==>
         s.runs[q].createdAt < s.runs[r].createdAt || (s.runs[q].createdAt == s.runs[r].createdAt && q <= r))
    && var results, definition := s.runs[r].results.value, s.mappings[id].definition;
    && results.definition == definition
    && (forall p :: p in results.profiles <==> p in definition.profiles)
    && (forall p :: p in results.profiles ==>
          if p in env.manifests then results.profiles[p] == Some(env.manifests[p]) else results.profiles[p] == None)
    && (forall e :: e in results.evidence ==> e.0 in env.digests && env.digests[e.0] == e.1)
  }

  lemma ValidatedIsUpToDate(s: Store, id: VersionId, env: Env)
    requires id in s.mappings
    ensures CurrentlyValidated(s, id, env) <==> exists r :: UpToDate(s, id, r, env)
  {
    forall r
      ensures UpToDate(s, id, r, env) <==>
                PassedBy(s, id, r) && Current(s.runs[r].results.value, s.mappings[id].definition, env)
    {
      if UpToDate(s, id, r, env) {
        assert s.runs[r].results.value.profiles == ManifestsOf(s.mappings[id].definition.profiles, env);
      }
    }
  }

  predicate Collides(s: Store, id: VersionId, q: VersionId)
    requires id in s.mappings && q in s.mappings
  {
    && s.mappings[q].status == Published && s.mappings[q].mappingId != s.mappings[id].mappingId
    && s.mappings[q].definition.target == s.mappings[id].definition.target
    && s.mappings[q].definition.structuralMatch == s.mappings[id].definition.structuralMatch
  }

  predicate Collision(s: Store, id: VersionId)
    requires id in s.mappings
  {
    exists q :: q in s.mappings && Collides(s, id, q)
  }

  function Given(artifact: Option<ArtifactId>): seq<ArtifactId> {
    if artifact.Some? then [artifact.value] else []
  }

  /** Evidence that may be used: named artifacts that are ready. */
  predicate Usable(evidence: Option<ArtifactId>, negative: Option<ArtifactId>, env: Env) {
    forall a :: a in Given(evidence) + Given(negative) ==> a in env.ready && a in env.digests
  }

  function Digested(artifacts: seq<ArtifactId>, env: Env): seq<(ArtifactId, string)>
    requires forall a :: a in artifacts ==> a in env.digests
  {
    seq(|artifacts|, i requires 0 <= i < |artifacts| => (artifacts[i], env.digests[artifacts[i]]))
  }

  /** `cases` is the verdict of the examples and the evidence; a published twin of another mapping fails the run. */
  function Evaluated(s: Store, id: VersionId, run: ValidationRun, cases: bool, env: Env): Results
    requires id in s.mappings && Usable(run.evidence, run.negative, env)
  {
    var definition := s.mappings[id].definition;
    Results(cases && !Collision(s, id), definition, ManifestsOf(definition.profiles, env),
            Digested(Given(run.evidence) + Given(run.negative), env))
  }

  // ---------------------------------------------------------------- packs

  function KeyOf(definition: Definition): PackKey {
    multiset(definition.profiles)
  }

  /** The place of the highest version of a pack. */
  function LatestPack(packs: seq<PackVersion>, key: PackKey): (r: Option<nat>)
    ensures r.Some? ==> r.value < |packs| && packs[r.value].key == key
  {
    if packs == [] then None
    else
      var i := |packs| - 1;
      var before := LatestPack(packs[..i], key);
      assert before.Some? ==> packs[..i][before.value] == packs[before.value];
      if packs[i].key == key && (before.None? || packs[before.value].version < packs[i].version) then Some(i)
      else before
  }

  /** The members of the latest version that are not versions of the mapping being published. */
  function Retained(s: Store, key: PackKey, mappingId: MappingId): set<VersionId> {
    var last := LatestPack(s.packs, key);
    if last.None? then {}
    else set id | id in s.packs[last.value].members && id in s.mappings && s.mappings[id].mappingId != mappingId
  }

  function NextPackVersion(s: Store, id: VersionId, now: real): PackVersion
    requires id in s.mappings
  {
    var key := KeyOf(s.mappings[id].definition);
    var last := LatestPack(s.packs, key);
    PackVersion(key, if last.Some? then s.packs[last.value].version + 1 else 1, last,
                Retained(s, key, s.mappings[id].mappingId) + {id}, now)
  }

  ghost predicate PublishedTwin(s: Store, id: VersionId, q: VersionId)
    requires id in s.mappings
  {
    q in s.mappings && s.mappings[q].mappingId == s.mappings[id].mappingId && s.mappings[q].status == Published
  }

  function Superseding(s: Store, prior: Option<VersionId>): map<VersionId, Mapping>
    requires prior.Some? ==> prior.value in s.mappings
  {
    if prior.Some? then s.mappings[prior.value := s.mappings[prior.value].(status := Superseded)] else s.mappings
  }

  function PublishedStore(s: Store, id: VersionId, prior: Option<VersionId>, now: real): Store
    requires id in s.mappings && (prior.Some? ==> prior.value in s.mappings)
  {
    var mapping := s.mappings[id].(status := Published, publishedAt := Some(now), packVersion := Some(|s.packs|));
    Store(Superseding(s, prior)[id := mapping], s.runs, s.packs + [NextPackVersion(s, id, now)])
  }

  // ---------------------------------------------------------------- one call

  predicate ValidKey(key: string) {
    Strip(key) != [] && |key| <= 255
  }

  predicate UniqueVersion(s: Store, mappingId: MappingId, version: nat) {
    forall id :: id in s.mappings ==> !(s.mappings[id].mappingId == mappingId && s.mappings[id].version == version)
  }

  predicate RequestAllowed(s: Store, call: Call, env: Env)
    requires call.Request?
  {
    && call.id in s.mappings && s.mappings[call.id].status in {Draft, Testing} && call.run !in s.runs
    && (s.mappings[call.id].definition.structured ==> call.evidence.Some? && call.negative.Some?)
    && (call.evidence.Some? ==> call.evidence != call.negative)
    && Usable(call.evidence, call.negative, env)
  }

  ghost predicate Allowed(s: Store, call: Call, env: Env) {
    match call
    case Create(id, lineage, previous, key, _) =>
      && id !in s.mappings && ValidKey(key)
      && (previous.None? ==> forall q :: q in s.mappings ==> s.mappings[q].mappingId != lineage)
      && (previous.Some? ==>
            && previous.value in s.mappings
            && UniqueVersion(s, s.mappings[previous.value].mappingId, s.mappings[previous.value].version + 1))
    case Update(id, _) => id in s.mappings && Mutable(s.mappings[id].status)
    case Request(_, _, _, _, _) => RequestAllowed(s, call, env)
    case Execute(id, run, _) =>
      && id in s.mappings && run in s.runs && s.runs[run].mapping == id && s.runs[run].status == Pending
      && Usable(s.runs[run].evidence, s.runs[run].negative, env)
    case Approve(id, user) =>
      user.admin && id in s.mappings && s.mappings[id].status == Testing && CurrentlyValidated(s, id, env)
    case Reject(id, user) => user.admin && id in s.mappings && Mutable(s.mappings[id].status)
    case Publish(id, user, _) =>
      && user.admin && id in s.mappings && s.mappings[id].status == Approved && s.mappings[id].approvedBy.Some?
      && CurrentlyValidated(s, id, env)
      && s.mappings[id].definition.profiles != []
      && forall p :: p in s.mappings[id].definition.profiles ==> p in env.available
  }

  function NewVersion(s: Store, call: Call): Mapping
    requires call.Create? && (call.previous.Some? ==> call.previous.value in s.mappings)
  {
    var (lineage, version) :=
      if call.previous.None? then (call.lineage, 1)
      else (s.mappings[call.previous.value].mappingId, s.mappings[call.previous.value].version + 1);
    Mapping(lineage, version, call.previous, Draft, call.definition, None, None, None, None)
  }

  /** The store after a call that goes through. */
  ghost predicate Effect(s: Store, call: Call, env: Env, s': Store)
    requires Allowed(s, call, env)
  {
    match call
    case Create(id, _, _, _, _) => s' == s.(mappings := s.mappings[id := NewVersion(s, call)])
    case Update(id, definition) =>
      var mapping := s.mappings[id].(definition := definition, status := Draft, results := None);
      s' == s.(mappings := s.mappings[id := mapping])
    case Request(id, run, evidence, negative, createdAt) =>
      s' == s.(runs := s.runs[run := ValidationRun(id, createdAt, evidence, negative, Pending, None)],
               mappings := s.mappings[id := s.mappings[id].(status := Testing)])
    case Execute(id, run, cases) =>
      var results := Evaluated(s, id, s.runs[run], cases, env);
      var finished := s.runs[run].(status := if results.passed then Passed else Failed, results := Some(results));
      s' == s.(runs := s.runs[run := finished],
               mappings := s.mappings[id := s.mappings[id].(results := Some(results))])
    case Approve(id, user) =>
      s' == s.(mappings := s.mappings[id := s.mappings[id].(status := Approved, approvedBy := Some(user.id))])
    case Reject(id, _) => s' == s.(mappings := s.mappings[id := s.mappings[id].(status := Rejected)])
    case Publish(id, _, now) =>
      || ((forall q :: !PublishedTwin(s, id, q)) && s' == PublishedStore(s, id, None, now))
      || (exists q: VersionId :: PublishedTwin(s, id, q) && s' == PublishedStore(s, id, Some(q), now))
  }

  ghost predicate Step(s: Store, call: Call, env: Env, s': Store) {
    if Allowed(s, call, env) then Effect(s, call, env, s') else s' == s
  }

  // ---------------------------------------------------------------- what one call can do to a mapping or a run

  /** No call rewrites the definition of a vetted or rejected version, or takes it back; lineage never changes. */
  predicate Evolves(m: Mapping, m': Mapping) {
    && m'.mappingId == m.mappingId && m'.version == m.version && m'.previous == m.previous
    && (Vetted(m.status) ==> m'.definition == m.definition && m'.approvedBy == m.approvedBy && Vetted(m'.status))
    && (m.status == Approved ==> m'.status in {Approved, Published})
    && (m.status == Published ==> m'.status in {Published, Superseded})
    && (m.status == Superseded ==> m'.status == Superseded)
    && (m.status == Rejected ==> m'.status == Rejected && m'.definition == m.definition)
    && (m.status in {Published, Superseded} ==> m'.publishedAt == m.publishedAt && m'.packVersion == m.packVersion)
  }

  lemma EveryMappingEvolves(s: Store, call: Call, env: Env, s': Store, id: VersionId)
    requires Step(s, call, env, s') && id in s.mappings
    ensures id in s'.mappings && Evolves(s.mappings[id], s'.mappings[id])
  {
    hide IsLatest, Current, LatestPack, Retained, Collision, Usable;
  }

  /** A finished run never changes; new runs are only requested for drafts and versions under test. */
  lemma FinishedRunsStay(s: Store, call: Call, env: Env, s': Store, r: RunId)
    requires Step(s, call, env, s')
    ensures r in s.runs ==> r in s'.runs && s'.runs[r].mapping == s.runs[r].mapping
    ensures r in s.runs ==> s'.runs[r].createdAt == s.runs[r].createdAt
    ensures r in s.runs && s.runs[r].status != Pending ==> s'.runs[r] == s.runs[r]
    ensures r in s'.runs && r !in s.runs ==>
        s'.runs[r].mapping in s.mappings && s.mappings[s'.runs[r].mapping].status in {Draft, Testing}
  {
    hide IsLatest, Current, LatestPack, Retained, Collision, Usable;
  }

  // ---------------------------------------------------------------- approval rests on a passed validation

  ghost predicate RestsOn(s: Store, id: VersionId, r: RunId)
    requires id in s.mappings
  {
    PassedBy(s, id, r) && s.runs[r].results.value.passed
        && s.runs[r].results.value.definition == s.mappings[id].definition
  }

  predicate RunOk(run: ValidationRun) {
    match run.status
    case Pending => run.results.None?
    case Passed => run.results.Some? && run.results.value.passed
    case Failed => run.results.Some? && !run.results.value.passed
  }

  ghost predicate RunsOk(s: Store) {
    forall r :: r in s.runs ==> RunOk(s.runs[r]) && s.runs[r].mapping in s.mappings
  }

  /** Every approved, published or superseded version: its latest run passed, and evaluated this very definition. */
  ghost predicate ApprovalsRest(s: Store) {
    forall id :: id in s.mappings && Vetted(s.mappings[id].status) ==>
      s.mappings[id].approvedBy.Some? && exists r :: RestsOn(s, id, r)
  }

  lemma StepKeepsRuns(s: Store, call: Call, env: Env, s': Store)
    requires Step(s, call, env, s') && RunsOk(s)
    ensures RunsOk(s')
  {
    hide IsLatest, Current, LatestPack, Retained, Collision, Usable;
  }

  lemma StaysLatest(s: Store, call: Call, env: Env, s': Store, id: VersionId, r: RunId)
    requires Step(s, call, env, s') && id in s.mappings && Vetted(s.mappings[id].status) && RestsOn(s, id, r)
    ensures id in s'.mappings && RestsOn(s', id, r)
  {
    hide Step, Current;
    EveryMappingEvolves(s, call, env, s', id);
    FinishedRunsStay(s, call, env, s', r);
    forall q | q in s'.runs && s'.runs[q].mapping == id ensures NotNewer(s'.runs, q, r) {
      FinishedRunsStay(s, call, env, s', q);
      assert NotNewer(s.runs, q, r);
    }
  }

  lemma ApprovalRests(s: Store, call: Call, env: Env, s': Store)
    requires Step(s, call, env, s') && call.Approve? && Allowed(s, call, env) && RunsOk(s)
    ensures exists r :: RestsOn(s', call.id, r)
  {
    hide LatestPack, Retained, Collision, Usable;
    var r :| PassedBy(s, call.id, r) && Current(s.runs[r].results.value, s.mappings[call.id].definition, env);
    assert RestsOn(s', call.id, r);
  }

  lemma OnlyApprovalVets(s: Store, call: Call, env: Env, s': Store, id: VersionId)
    requires Step(s, call, env, s') && id in s'.mappings && Vetted(s'.mappings[id].status)
    ensures (id in s.mappings && Vetted(s.mappings[id].status))
        || (call.Approve? && call.id == id && Allowed(s, call, env))
    ensures call.Approve? && call.id == id && Allowed(s, call, env) ==> s'.mappings[id].approvedBy.Some?
  {
    hide IsLatest, Current, LatestPack, Retained, Collision, Usable;
  }

  lemma StepKeepsApprovals(s: Store, call: Call, env: Env, s': Store)
    requires Step(s, call, env, s') && RunsOk(s) && ApprovalsRest(s)
    ensures ApprovalsRest(s')
  {
    hide Step, Allowed, RestsOn, RunsOk;
    forall id | id in s'.mappings && Vetted(s'.mappings[id].status)
      ensures s'.mappings[id].approvedBy.Some? && exists r :: RestsOn(s', id, r)
    {
      OnlyApprovalVets(s, call, env, s', id);
      if id in s.mappings && Vetted(s.mappings[id].status) {
        var r :| RestsOn(s, id, r);
        EveryMappingEvolves(s, call, env, s', id);
        StaysLatest(s, call, env, s', id, r);
      } else {
        ApprovalRests(s, call, env, s');
      }
    }
  }

  // ---------------------------------------------------------------- what stays true of packs and lineages

  predicate Released(status: Status) {
    status in {Published, Superseded}
  }

  /** Each row follows the highest earlier version of its pack. */
  predicate Chained(packs: seq<PackVersion>) {
    forall i :: 0 <= i < |packs| ==> Follows(packs[..i], packs[i])
  }

  predicate Follows(earlier: seq<PackVersion>, row: PackVersion) {
    var last := LatestPack(earlier, row.key);
    row.previous == last && row.version == if last.Some? then earlier[last.value].version + 1 else 1
  }

  /** Members are released versions made for exactly the pack's profiles, one version of a mapping at most. */
  ghost predicate MembersOk(s: Store, row: PackVersion) {
    && (forall id :: id in row.members ==>
         id in s.mappings && Released(s.mappings[id].status) && KeyOf(s.mappings[id].definition) == row.key)
    && (forall a, b :: a in row.members && b in row.members && s.mappings[a].mappingId == s.mappings[b].mappingId ==>
         a == b)
  }

  ghost predicate RowsOk(s: Store) {
    forall i :: 0 <= i < |s.packs| ==> MembersOk(s, s.packs[i])
  }

  /** The row is its predecessor without other versions of `added`, and with `added`. */
  predicate Replaces(s: Store, before: set<VersionId>, row: PackVersion, added: VersionId) {
    && added in row.members && added in s.mappings
    && row.members == (set id | id in before && id in s.mappings
         && s.mappings[id].mappingId != s.mappings[added].mappingId) + {added}
  }

  function Before(packs: seq<PackVersion>, row: PackVersion): set<VersionId> {
    if row.previous.Some? && row.previous.value < |packs| then packs[row.previous.value].members else {}
  }

  ghost predicate RowReplaces(s: Store, row: PackVersion) {
    exists added :: Replaces(s, Before(s.packs, row), row, added)
  }

  ghost predicate RowsReplace(s: Store) {
    forall i :: 0 <= i < |s.packs| ==> RowReplaces(s, s.packs[i])
  }

  ghost predicate OnePublished(s: Store) {
    forall a, b :: a in s.mappings && b in s.mappings && PublishedTwin(s, a, b) && PublishedTwin(s, b, a) ==> a == b
  }

  predicate InLatest(s: Store, id: VersionId)
    requires id in s.mappings
  {
    var last := LatestPack(s.packs, KeyOf(s.mappings[id].definition));
    last.Some? && id in s.packs[last.value].members
  }

  /** A published version is in the latest version of its pack; a superseded one has a published successor. */
  ghost predicate ReleasesOk(s: Store) {
    && (forall id :: id in s.mappings && s.mappings[id].status == Published ==> InLatest(s, id))
    && (forall id :: id in s.mappings && s.mappings[id].status == Superseded ==>
         exists q: VersionId :: PublishedTwin(s, id, q))
    && (forall id :: id in s.mappings && Released(s.mappings[id].status) ==> s.mappings[id].publishedAt.Some?)
  }

  /** Version `n + 1` of a mapping continues its version `n`, and no number is given twice. */
  ghost predicate LineageOk(s: Store) {
    && (forall id :: id in s.mappings ==> s.mappings[id].version > 0 && Continues(s, s.mappings[id]))
    && (forall a, b :: a in s.mappings && b in s.mappings && SameVersion(s.mappings[a], s.mappings[b]) ==> a == b)
  }

  predicate SameVersion(m: Mapping, n: Mapping) {
    m.mappingId == n.mappingId && m.version == n.version
  }

  predicate Continues(s: Store, m: Mapping) {
    match m.previous
    case None => m.version == 1
    case Some(p) => p in s.mappings && s.mappings[p].mappingId == m.mappingId && m.version == s.mappings[p].version + 1
  }

  ghost predicate PacksOk(s: Store) {
    Chained(s.packs) && RowsOk(s) && RowsReplace(s) && OnePublished(s) && ReleasesOk(s)
  }

  ghost predicate StoreOk(s: Store) {
    RunsOk(s) && ApprovalsRest(s) && PacksOk(s) && LineageOk(s)
  }

  /** The call published nothing. */
  ghost predicate SameReleases(s: Store, s': Store) {
    && s'.packs == s.packs
    && (forall id :: id in s.mappings ==> id in s'.mappings && SameRelease(s.mappings[id], s'.mappings[id]))
    && (forall id :: id in s'.mappings && id !in s.mappings ==> !Released(s'.mappings[id].status))
  }

  predicate SameRelease(m: Mapping, m': Mapping) {
    && m'.mappingId == m.mappingId && (Released(m.status) <==> Released(m'.status))
    && (Released(m.status) ==>
         m'.status == m.status && m'.definition == m.definition && m'.publishedAt == m.publishedAt)
  }

  lemma OtherCallsRelease(s: Store, call: Call, env: Env, s': Store)
    requires Step(s, call, env, s') && !(call.Publish? && Allowed(s, call, env))
    ensures SameReleases(s, s')
  {
    hide IsLatest, Current, LatestPack, Retained, Collision, Usable, CurrentlyValidated;
  }

  lemma SameReleasesKeepRows(s: Store, s': Store)
    requires SameReleases(s, s') && Chained(s.packs) && RowsOk(s) && RowsReplace(s)
    ensures RowsOk(s') && RowsReplace(s')
  {
    hide LatestPack, Chained, RowReplaces;
    forall i | 0 <= i < |s'.packs| ensures MembersOk(s', s'.packs[i]) && RowReplaces(s', s'.packs[i]) {
      assert MembersOk(s, s.packs[i]);
      ReplacesStays(s, s', i);
    }
  }

  lemma SameReleasesKeepPacks(s: Store, s': Store)
    requires SameReleases(s, s') && PacksOk(s)
    ensures PacksOk(s')
  {
    hide LatestPack, Chained, RowsOk, RowsReplace;
    SameReleasesKeepRows(s, s');
    forall id | id in s'.mappings
      ensures s'.mappings[id].status == Published ==> InLatest(s', id)
      ensures s'.mappings[id].status == Superseded ==> exists q: VersionId :: PublishedTwin(s', id, q)
    {
      if s'.mappings[id].status == Published {
        assert InLatest(s, id);
      } else if s'.mappings[id].status == Superseded {
        var q: VersionId :| PublishedTwin(s, id, q);
        assert PublishedTwin(s', id, q);
      }
    }
    forall a, b | a in s'.mappings && b in s'.mappings && PublishedTwin(s', a, b) && PublishedTwin(s', b, a)
      ensures a == b
    {
      assert PublishedTwin(s, a, b) && PublishedTwin(s, b, a);
    }
  }

  ghost predicate SameLineages(s: Store, s': Store) {
    forall id :: id in s.mappings ==> id in s'.mappings && s'.mappings[id].mappingId == s.mappings[id].mappingId
  }

  /** Lineages never change, so a row goes on replacing what it replaced. */
  lemma ReplacesStays(s: Store, s': Store, i: nat)
    requires RowsOk(s) && RowsReplace(s) && i < |s.packs| && Chained(s.packs)
    requires |s.packs| <= |s'.packs| && s'.packs[..|s.packs|] == s.packs
    requires SameLineages(s, s')
    ensures RowReplaces(s', s'.packs[i])
  {
    hide LatestPack;
    var row := s.packs[i];
    assert s'.packs[..|s.packs|][i] == row;
    assert Follows(s.packs[..i], row);
    var before := Before(s.packs, row);
    assert before == Before(s'.packs, row) && before <= s.mappings.Keys by {
      if row.previous.Some? {
        assert s'.packs[..|s.packs|][row.previous.value] == s.packs[row.previous.value];
        assert MembersOk(s, s.packs[row.previous.value]);
      }
    }
    assert RowReplaces(s, row);
    var added :| Replaces(s, before, row, added);
    assert MembersOk(s, row) && added in s'.mappings;
    ReplacesAcross(s, s', before, row, added);
  }

  lemma ReplacesAcross(s: Store, s': Store, before: set<VersionId>, row: PackVersion, added: VersionId)
    requires SameLineages(s, s') && before <= s.mappings.Keys && Replaces(s, before, row, added)
    ensures Replaces(s', before, row, added)
  {
    assert (set id | id in before && id in s.mappings && s.mappings[id].mappingId != s.mappings[added].mappingId)
        == (set id | id in before && id in s'.mappings && s'.mappings[id].mappingId != s'.mappings[added].mappingId);
  }

  // ---------------------------------------------------------------- publication

  /** A publication that supersedes `prior`, whether or not that is every published version of the mapping. */
  ghost predicate Release(s: Store, id: VersionId, prior: Option<VersionId>, now: real, s': Store) {
    && id in s.mappings && s.mappings[id].status == Approved
    && (prior.Some? ==> PublishedTwin(s, id, prior.value))
    && s' == PublishedStore(s, id, prior, now)
  }

  /** A publication as `Effect` describes it: it misses no published version. */
  ghost predicate Publication(s: Store, id: VersionId, prior: Option<VersionId>, now: real, s': Store) {
    Release(s, id, prior, now, s') && (prior.None? ==> forall q :: !PublishedTwin(s, id, q))
  }

  lemma PublishIsPublication(s: Store, call: Call, env: Env, s': Store) returns (prior: Option<VersionId>)
    requires Step(s, call, env, s') && call.Publish? && Allowed(s, call, env)
    ensures Publication(s, call.id, prior, call.now, s')
  {
    hide PublishedStore, CurrentlyValidated;
    if forall q :: !PublishedTwin(s, call.id, q) {
      prior := None;
    } else {
      var q: VersionId :| PublishedTwin(s, call.id, q) && s' == PublishedStore(s, call.id, Some(q), call.now);
      prior := Some(q);
    }
  }

  lemma LatestAfterAppend(packs: seq<PackVersion>, row: PackVersion, key: PackKey)
    requires Follows(packs, row)
    ensures LatestPack(packs + [row], key) == if key == row.key then Some(|packs|) else LatestPack(packs, key)
  {
    assert (packs + [row])[..|packs|] == packs;
  }

  lemma PublicationKeepsChain(s: Store, id: VersionId, prior: Option<VersionId>, now: real, s': Store)
    requires Release(s, id, prior, now, s') && Chained(s.packs)
    ensures Follows(s.packs, NextPackVersion(s, id, now)) && Chained(s'.packs)
  {
    hide Retained;
    forall i | 0 <= i < |s'.packs| ensures Follows(s'.packs[..i], s'.packs[i]) {
      if i < |s.packs| {
        assert s'.packs[..i] == s.packs[..i] && Follows(s.packs[..i], s.packs[i]);
      } else {
        assert s'.packs[..i] == s.packs;
      }
    }
  }

  /** What a publication does to each mapping. */
  lemma PublicationOnMappings(s: Store, id: VersionId, prior: Option<VersionId>, now: real, s': Store, q: VersionId)
    requires Release(s, id, prior, now, s') && q in s.mappings
    ensures q in s'.mappings && s'.mappings[q].definition == s.mappings[q].definition
    ensures s'.mappings[q].mappingId == s.mappings[q].mappingId
    ensures s'.mappings[q].status == if q == id then Published else if prior == Some(q) then Superseded
        else s.mappings[q].status
    ensures s'.mappings[q].publishedAt == if q == id then Some(now) else s.mappings[q].publishedAt
    ensures s'.mappings.Keys == s.mappings.Keys
    ensures s'.mappings[q] ==
            if q == id then
              s.mappings[q].(status := Published, publishedAt := Some(now), packVersion := Some(|s.packs|))
            else if prior == Some(q) then s.mappings[q].(status := Superseded)
            else s.mappings[q]
    ensures s'.runs == s.runs
  {
    hide NextPackVersion;
  }

  lemma OldRowsStayOk(s: Store, id: VersionId, prior: Option<VersionId>, now: real, s': Store, row: PackVersion)
    requires Release(s, id, prior, now, s') && MembersOk(s, row)
    ensures MembersOk(s', row)
  {
    hide NextPackVersion, PublishedStore;
    forall q | q in row.members
      ensures q in s'.mappings && Released(s'.mappings[q].status) && KeyOf(s'.mappings[q].definition) == row.key
    {
      PublicationOnMappings(s, id, prior, now, s', q);
    }
    forall a, b | a in row.members && b in row.members && s'.mappings[a].mappingId == s'.mappings[b].mappingId
      ensures a == b
    {
      PublicationOnMappings(s, id, prior, now, s', a);
      PublicationOnMappings(s, id, prior, now, s', b);
    }
  }

  lemma NewRowOk(s: Store, id: VersionId, prior: Option<VersionId>, now: real, s': Store)
    requires Release(s, id, prior, now, s') && RowsOk(s)
    ensures MembersOk(s', NextPackVersion(s, id, now))
    ensures RowReplaces(s', NextPackVersion(s, id, now))
  {
    var row := NextPackVersion(s, id, now);
    var kept := Retained(s, row.key, s.mappings[id].mappingId);
    var last := LatestPack(s.packs, row.key);
    if last.Some? {
      assert MembersOk(s, s.packs[last.value]);
      OldRowsStayOk(s, id, prior, now, s', s.packs[last.value]);
    }
    forall q | q in s.mappings ensures q in s'.mappings && s'.mappings[q].mappingId == s.mappings[q].mappingId {
      PublicationOnMappings(s, id, prior, now, s', q);
    }
    PublicationOnMappings(s, id, prior, now, s', id);
    assert row.members == kept + {id};
    assert MembersOk(s', row);
    var before := Before(s'.packs, row);
    assert kept == (set q | q in before && q in s'.mappings && s'.mappings[q].mappingId != s'.mappings[id].mappingId);
    assert Replaces(s', before, row, id);
  }

  lemma PublicationAppends(s: Store, id: VersionId, prior: Option<VersionId>, now: real, s': Store)
    requires Release(s, id, prior, now, s')
    ensures s'.packs == s.packs + [NextPackVersion(s, id, now)]
    ensures NextPackVersion(s, id, now).key == KeyOf(s.mappings[id].definition)
    ensures NextPackVersion(s, id, now).members ==
        Retained(s, KeyOf(s.mappings[id].definition), s.mappings[id].mappingId) + {id}
  {
  }

  lemma PublicationKeepsRows(s: Store, id: VersionId, prior: Option<VersionId>, now: real, s': Store)
    requires Release(s, id, prior, now, s') && RowsOk(s) && RowsReplace(s) && Chained(s.packs)
    ensures RowsOk(s') && RowsReplace(s')
  {
    hide PublishedStore, NextPackVersion, MembersOk, RowReplaces, LatestPack, Chained;
    PublicationAppends(s, id, prior, now, s');
    NewRowOk(s, id, prior, now, s');
    forall q | q in s.mappings ensures q in s'.mappings && s'.mappings[q].mappingId == s.mappings[q].mappingId {
      PublicationOnMappings(s, id, prior, now, s', q);
    }
    assert s'.packs[..|s.packs|] == s.packs;
    forall i | 0 <= i < |s'.packs| ensures MembersOk(s', s'.packs[i]) && RowReplaces(s', s'.packs[i]) {
      if i < |s.packs| {
        OldRowsStayOk(s, id, prior, now, s', s.packs[i]);
        ReplacesStays(s, s', i);
      }
    }
  }

  lemma PriorIsTheTwin(s: Store, id: VersionId, prior: Option<VersionId>, now: real, s': Store, q: VersionId)
    requires Publication(s, id, prior, now, s') && OnePublished(s) && PublishedTwin(s, id, q)
    ensures prior == Some(q)
  {
    hide PublishedStore;
    assert prior.Some?;
    assert PublishedTwin(s, q, prior.value) && PublishedTwin(s, prior.value, q);
  }

  lemma PublicationKeepsOne(s: Store, id: VersionId, prior: Option<VersionId>, now: real, s': Store)
    requires Publication(s, id, prior, now, s') && OnePublished(s)
    ensures OnePublished(s')
  {
    hide PublishedStore;
    forall a, b | a in s'.mappings && b in s'.mappings && PublishedTwin(s', a, b) && PublishedTwin(s', b, a)
      ensures a == b
    {
      PublicationOnMappings(s, id, prior, now, s', id);
      PublicationOnMappings(s, id, prior, now, s', a);
      PublicationOnMappings(s, id, prior, now, s', b);
      if a == id && PublishedTwin(s, id, b) {
        PriorIsTheTwin(s, id, prior, now, s', b);
      } else if b == id && PublishedTwin(s, id, a) {
        PriorIsTheTwin(s, id, prior, now, s', a);
      } else if a != id && b != id {
        assert PublishedTwin(s, a, b) && PublishedTwin(s, b, a);
      }
    }
  }

  lemma StaysInLatest(s: Store, id: VersionId, prior: Option<VersionId>, now: real, s': Store, q: VersionId)
    requires Publication(s, id, prior, now, s') && Chained(s.packs) && OnePublished(s)
    requires q in s.mappings && (q == id || (s.mappings[q].status == Published && InLatest(s, q) && prior != Some(q)))
    ensures q in s'.mappings && InLatest(s', q)
  {
    PublicationAppends(s, id, prior, now, s');
    PublicationKeepsChain(s, id, prior, now, s');
    PublicationOnMappings(s, id, prior, now, s', q);
    LatestAfterAppend(s.packs, NextPackVersion(s, id, now), KeyOf(s.mappings[q].definition));
    hide PublishedStore, NextPackVersion, LatestPack, Chained;
    if q != id && PublishedTwin(s, id, q) {
      PriorIsTheTwin(s, id, prior, now, s', q);
    }
  }

  lemma KeepsATwin(s: Store, id: VersionId, prior: Option<VersionId>, now: real, s': Store, q: VersionId)
    requires Publication(s, id, prior, now, s') && q in s.mappings && q != id
    requires prior == Some(q) || exists t: VersionId :: PublishedTwin(s, q, t)
    ensures q in s'.mappings && exists t: VersionId :: PublishedTwin(s', q, t)
  {
    hide PublishedStore;
    PublicationOnMappings(s, id, prior, now, s', id);
    PublicationOnMappings(s, id, prior, now, s', q);
    if prior == Some(q) {
      assert PublishedTwin(s', q, id);
    } else {
      var t: VersionId :| PublishedTwin(s, q, t);
      PublicationOnMappings(s, id, prior, now, s', t);
      assert if prior == Some(t) then PublishedTwin(s', q, id) else PublishedTwin(s', q, t);
    }
  }

  lemma PublicationKeepsReleases(s: Store, id: VersionId, prior: Option<VersionId>, now: real, s': Store)
    requires Publication(s, id, prior, now, s') && ReleasesOk(s) && OnePublished(s) && Chained(s.packs)
    ensures ReleasesOk(s')
  {
    hide PublishedStore, InLatest, Chained, OnePublished;
    PublicationOnMappings(s, id, prior, now, s', id);
    forall q | q in s'.mappings
      ensures s'.mappings[q].status == Published ==> InLatest(s', q)
      ensures s'.mappings[q].status == Superseded ==> exists t: VersionId :: PublishedTwin(s', q, t)
      ensures Released(s'.mappings[q].status) ==> s'.mappings[q].publishedAt.Some?
    {
      PublicationOnMappings(s, id, prior, now, s', q);
      if s'.mappings[q].status == Published {
        StaysInLatest(s, id, prior, now, s', q);
      } else if s'.mappings[q].status == Superseded {
        KeepsATwin(s, id, prior, now, s', q);
      }
    }
  }

  lemma StepKeepsPacks(s: Store, call: Call, env: Env, s': Store)
    requires Step(s, call, env, s') && PacksOk(s)
    ensures PacksOk(s')
  {
    if call.Publish? && Allowed(s, call, env) {
      var prior := PublishIsPublication(s, call, env, s');
      hide Step, Allowed, Publication, RowsOk, RowsReplace, OnePublished, ReleasesOk, Chained;
      PublicationKeepsChain(s, call.id, prior, call.now, s');
      PublicationKeepsRows(s, call.id, prior, call.now, s');
      PublicationKeepsOne(s, call.id, prior, call.now, s');
      PublicationKeepsReleases(s, call.id, prior, call.now, s');
    } else {
      OtherCallsRelease(s, call, env, s');
      SameReleasesKeepPacks(s, s');
    }
  }

  lemma NewcomersAreCreated(s: Store, call: Call, env: Env, s': Store, id: VersionId)
    requires Step(s, call, env, s') && id in s'.mappings && id !in s.mappings
    ensures call.Create? && call.id == id && Allowed(s, call, env) && s'.mappings[id] == NewVersion(s, call)
  {
    hide IsLatest, Current, LatestPack, Retained, Collision, Usable, CurrentlyValidated;
  }

  lemma StepKeepsLineage(s: Store, call: Call, env: Env, s': Store)
    requires Step(s, call, env, s') && LineageOk(s)
    ensures LineageOk(s')
  {
    hide Step;
    forall id | id in s'.mappings ensures s'.mappings[id].version > 0 && Continues(s', s'.mappings[id]) {
      if id in s.mappings {
        EveryMappingEvolves(s, call, env, s', id);
        assert Continues(s, s.mappings[id]);
      } else {
        NewcomersAreCreated(s, call, env, s', id);
      }
      if s'.mappings[id].previous.Some? {
        EveryMappingEvolves(s, call, env, s', s'.mappings[id].previous.value);
      }
    }
    forall a, b | a in s'.mappings && b in s'.mappings && SameVersion(s'.mappings[a], s'.mappings[b]) ensures a == b {
      if b in s.mappings {
        VersionsStayUnique(s, call, env, s', a, b);
      } else if a in s.mappings {
        VersionsStayUnique(s, call, env, s', b, a);
      } else {
        NewcomersAreCreated(s, call, env, s', a);
        NewcomersAreCreated(s, call, env, s', b);
      }
    }
  }

  lemma VersionsStayUnique(s: Store, call: Call, env: Env, s': Store, a: VersionId, b: VersionId)
    requires Step(s, call, env, s') && LineageOk(s)
    requires a in s'.mappings && b in s.mappings && b in s'.mappings && SameVersion(s'.mappings[a], s'.mappings[b])
    ensures a == b
  {
    hide Step, Continues;
    EveryMappingEvolves(s, call, env, s', b);
    if a in s.mappings {
      EveryMappingEvolves(s, call, env, s', a);
      assert SameVersion(s.mappings[a], s.mappings[b]);
    } else {
      NewcomersAreCreated(s, call, env, s', a);
    }
  }

  // ---------------------------------------------------------------- whole histories

  datatype Event = Event(call: Call, env: Env)

  /** Any calls, in any order, in any surroundings. */
  ghost predicate History(states: seq<Store>, events: seq<Event>) {
    && |states| == |events| + 1
    && forall i :: 0 <= i < |events| ==> Step(states[i], events[i].call, events[i].env, states[i + 1])
  }

  lemma StepKeepsStore(s: Store, call: Call, env: Env, s': Store)
    requires StoreOk(s) && Step(s, call, env, s')
    ensures StoreOk(s')
  {
    hide Step, RunsOk, ApprovalsRest, PacksOk, LineageOk;
    StepKeepsRuns(s, call, env, s');
    StepKeepsApprovals(s, call, env, s');
    StepKeepsPacks(s, call, env, s');
    StepKeepsLineage(s, call, env, s');
  }

  lemma EmptyStoreIsOk()
    ensures StoreOk(Store(map[], map[], []))
  {
  }

  lemma {:induction false} EveryStoreIsOk(states: seq<Store>, events: seq<Event>, n: nat)
    requires History(states, events) && StoreOk(states[0]) && n <= |events|
    ensures StoreOk(states[n])
  {
    hide Step, StoreOk;
    if n > 0 {
      EveryStoreIsOk(states, events, n - 1);
      StepKeepsStore(states[n - 1], events[n - 1].call, events[n - 1].env, states[n]);
    }
  }

  /**
   Whatever edits, re-validations and late runs come before or after: an approved, published or superseded
   version carries a definition that a passed run evaluated, and carries it forever, and that run stays the latest.
   */
  lemma {:induction false} ApprovedDefinitionsStand(
    states: seq<Store>, events: seq<Event>, i: nat, j: nat, id: VersionId)
    returns (r: RunId)
    requires History(states, events) && StoreOk(states[0]) && i <= j <= |events|
    requires id in states[i].mappings && Vetted(states[i].mappings[id].status)
    ensures id in states[j].mappings && Vetted(states[j].mappings[id].status)
    ensures states[j].mappings[id].definition == states[i].mappings[id].definition
    ensures RestsOn(states[i], id, r) && RestsOn(states[j], id, r) && states[j].runs[r] == states[i].runs[r]
    decreases j - i
  {
    hide Step, RunsOk, PacksOk, LineageOk, RestsOn;
    if i == j {
      EveryStoreIsOk(states, events, i);
      r :| RestsOn(states[i], id, r);
    } else {
      r := ApprovedDefinitionsStand(states, events, i, j - 1, id);
      var s, e, s' := states[j - 1], events[j - 1], states[j];
      EveryMappingEvolves(s, e.call, e.env, s', id);
      StaysLatest(s, e.call, e.env, s', id, r);
      RestingRunIsFinished(s, e.call, e.env, s', id, r);
    }
  }

  lemma RestingRunIsFinished(s: Store, call: Call, env: Env, s': Store, id: VersionId, r: RunId)
    requires Step(s, call, env, s') && id in s.mappings && RestsOn(s, id, r)
    ensures r in s'.runs && s'.runs[r] == s.runs[r]
  {
    FinishedRunsStay(s, call, env, s', r);
  }

  /**
   The results shown on an approved, published or superseded version change exactly when a run of that version
   that was still pending executes with another outcome.
   */
  lemma ShownResultsChangeIff(s: Store, call: Call, env: Env, s': Store, id: VersionId)
    requires Step(s, call, env, s') && id in s.mappings && Vetted(s.mappings[id].status)
    ensures id in s'.mappings
    ensures s'.mappings[id].results != s.mappings[id].results <==>
              && call.Execute? && call.id == id && Allowed(s, call, env)
              && s.mappings[id].results != Some(Evaluated(s, id, s.runs[call.run], call.cases, env))
  {
    hide Current, LatestPack, Collision, IsLatest;
  }

  /**
   A run requested before approval may execute after it.  Whatever its outcome, it overwrites the results shown on
   the version and nothing else; so a published version shows a failed validation exactly when the cases or a
   published twin fail the late run, and the approval still rests on the run that passed.
   */
  lemma LateRunOverwritesResults(s: Store, id: VersionId, run: RunId, cases: bool, env: Env, s': Store, r: RunId)
    requires Step(s, Execute(id, run, cases), env, s') && Allowed(s, Execute(id, run, cases), env)
    requires Vetted(s.mappings[id].status) && RestsOn(s, id, r)
    ensures id in s'.mappings && s'.mappings[id] == s.mappings[id].(results := s'.mappings[id].results)
    ensures s'.mappings[id].results.Some?
    ensures !s'.mappings[id].results.value.passed <==> !cases || Collision(s, id)
    ensures RestsOn(s', id, r) && s'.runs[r].results.value.passed
  {
    hide Current, LatestPack, Collision;
    StaysLatest(s, Execute(id, run, cases), env, s', id, r);
  }

  /** A request newer than every run of the mapping reopens the question: no approval until that run has passed. */
  lemma NewerRequestReopens(s: Store, call: Call, env: Env, s': Store, later: Env)
    requires Step(s, call, env, s') && call.Request? && Allowed(s, call, env)
    requires forall q :: q in s.runs && s.runs[q].mapping == call.id ==> s.runs[q].createdAt < call.createdAt
    ensures call.id in s'.mappings && !CurrentlyValidated(s', call.id, later)
  {
    hide Current, LatestPack, Collision;
    forall r ensures !PassedBy(s', call.id, r) {
      assert PassedBy(s', call.id, r) ==> NotNewer(s'.runs, call.run, r);
    }
  }
}
