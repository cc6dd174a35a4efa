/**
 What publication makes of knowledge packs (backend/app/training/service.py:261-290), and which of them a fresh
 audit loads (backend/app/interpretation/service.py:231-283).
 */
module KnowledgePacks {
  import opened Common
  import opened MappingLifecycle

  // ---------------------------------------------------------------- the chain of versions

  function Count(packs: seq<PackVersion>, key: PackKey): nat {
    if packs == [] then 0
    else Count(packs[..|packs| - 1], key) + if packs[|packs| - 1].key == key then 1 else 0
  }

  lemma ChainedPrefix(packs: seq<PackVersion>, n: nat)
    requires Chained(packs) && n <= |packs|
    ensures Chained(packs[..n])
  {
    hide LatestPack;
    forall i | 0 <= i < n ensures Follows(packs[..n][..i], packs[..n][i]) {
      assert packs[..n][..i] == packs[..i];
    }
  }

  /** The highest version of a pack is its newest, and its number is how many there are. */
  predicate HighestIsNewest(packs: seq<PackVersion>, key: PackKey) {
    match LatestPack(packs, key)
    case None => Count(packs, key) == 0
    case Some(i) => packs[i].version == Count(packs, key) && forall j :: i < j < |packs| ==> packs[j].key != key
  }

  lemma AppendedIsNewest(before: seq<PackVersion>, row: PackVersion, key: PackKey)
    requires HighestIsNewest(before, row.key) && HighestIsNewest(before, key) && Follows(before, row)
    ensures HighestIsNewest(before + [row], key)
  {
    LatestAfterAppend(before, row, key);
    hide LatestPack;
    assert (before + [row])[..|before|] == before;
  }

  lemma {:induction false} NewestByChain(packs: seq<PackVersion>, key: PackKey)
    requires Chained(packs)
    ensures HighestIsNewest(packs, key)
  {
    if packs != [] {
      hide LatestPack, HighestIsNewest, Count;
      var n := |packs| - 1;
      ChainedPrefix(packs, n);
      NewestByChain(packs[..n], key);
      NewestByChain(packs[..n], packs[n].key);
      assert Follows(packs[..n], packs[n]);
      AppendedIsNewest(packs[..n], packs[n], key);
      assert packs == packs[..n] + [packs[n]];
    }
  }

  lemma CountPrefix(packs: seq<PackVersion>, i: nat)
    requires i < |packs|
    ensures Count(packs[..i + 1], packs[i].key) == Count(packs[..i], packs[i].key) + 1
  {
    assert packs[..i + 1][..i] == packs[..i];
  }

  lemma {:induction false} CountGrows(packs: seq<PackVersion>, i: nat, j: nat, key: PackKey)
    requires i <= j <= |packs|
    ensures Count(packs[..i], key) <= Count(packs[..j], key)
    decreases j - i
  {
    if i < j {
      CountGrows(packs, i, j - 1, key);
      assert packs[..j][..j - 1] == packs[..j - 1];
    }
  }

  /** A row's number is its rank among the rows of its pack. */
  lemma VersionIsRank(packs: seq<PackVersion>, i: nat)
    requires Chained(packs) && i < |packs|
    ensures packs[i].version == Count(packs[..i + 1], packs[i].key)
  {
    ChainedPrefix(packs, i);
    NewestByChain(packs[..i], packs[i].key);
    CountPrefix(packs, i);
    assert Follows(packs[..i], packs[i]);
  }

  predicate IsVersion(packs: seq<PackVersion>, key: PackKey, v: nat, i: nat) {
    i < |packs| && packs[i].key == key && packs[i].version == v
  }

  lemma {:induction false} VersionExists(packs: seq<PackVersion>, key: PackKey, v: nat) returns (i: nat)
    requires Chained(packs) && 1 <= v <= Count(packs, key)
    ensures IsVersion(packs, key, v, i)
  {
    var n := |packs| - 1;
    if packs[n].key == key && v == Count(packs, key) {
      VersionIsRank(packs, n);
      assert packs[..n + 1] == packs;
      i := n;
    } else {
      ChainedPrefix(packs, n);
      i := VersionExists(packs[..n], key, v);
    }
  }

  lemma VersionIsUnique(packs: seq<PackVersion>, key: PackKey, v: nat, i: nat, j: nat)
    requires Chained(packs) && IsVersion(packs, key, v, i) && IsVersion(packs, key, v, j)
    ensures i == j
  {
    VersionIsRank(packs, i);
    VersionIsRank(packs, j);
    if i < j {
      CountGrows(packs, i + 1, j, key);
      CountPrefix(packs, j);
    } else if j < i {
      CountGrows(packs, j + 1, i, key);
      CountPrefix(packs, i);
    }
  }

  /**
   In every reachable store the versions of a pack are exactly 1..n; each but the first names the one numbered
   just below it, and holds what that one held, less other versions of one mapping, plus that mapping.
   */
  lemma PackVersionsFormAChain(s: Store, key: PackKey, v: nat) returns (i: nat)
    requires StoreOk(s)
    ensures (exists j: nat :: IsVersion(s.packs, key, v, j)) <==> 1 <= v <= Count(s.packs, key)
    ensures 1 <= v <= Count(s.packs, key) ==>
              && IsVersion(s.packs, key, v, i) && (forall j: nat :: IsVersion(s.packs, key, v, j) ==> j == i)
              && RowReplaces(s, s.packs[i]) && MembersOk(s, s.packs[i])
              && (if v == 1 then s.packs[i].previous.None?
                  else s.packs[i].previous.Some? && IsVersion(s.packs, key, v - 1, s.packs[i].previous.value))
  {
    hide LatestPack, RowReplaces, MembersOk, RunsOk, ApprovalsRest, LineageOk, ReleasesOk, OnePublished;
    i := 0;
    forall j: nat | IsVersion(s.packs, key, v, j) ensures 1 <= v <= Count(s.packs, key) {
      VersionIsRank(s.packs, j);
      CountPrefix(s.packs, j);
      CountGrows(s.packs, j + 1, |s.packs|, key);
      assert s.packs[..|s.packs|] == s.packs;
    }
    if 1 <= v <= Count(s.packs, key) {
      i := VersionExists(s.packs, key, v);
      forall j: nat | IsVersion(s.packs, key, v, j) ensures j == i {
        VersionIsUnique(s.packs, key, v, i, j);
      }
      PreviousIsOneLess(s.packs, i);
    }
  }

  lemma PreviousIsOneLess(packs: seq<PackVersion>, i: nat)
    requires Chained(packs) && i < |packs|
    ensures packs[i].version == 1 ==> packs[i].previous.None?
    ensures packs[i].version != 1 ==>
              && packs[i].previous.Some?
              && IsVersion(packs, packs[i].key, packs[i].version - 1, packs[i].previous.value)
  {
    var earlier := packs[..i];
    assert Follows(earlier, packs[i]);
    ChainedPrefix(packs, i);
    NewestByChain(earlier, packs[i].key);
    if packs[i].previous.Some? {
      var p := packs[i].previous.value;
      VersionIsRank(earlier, p);
      CountPrefix(earlier, p);
      assert earlier[p] == packs[p];
    }
  }

  /** Versions are numbered without gaps: version `v + 1` of a mapping has a version `v` before it. */
  lemma {:induction false} EveryLowerVersionExists(s: Store, id: VersionId, v: nat) returns (earlier: VersionId)
    requires LineageOk(s) && id in s.mappings && 1 <= v <= s.mappings[id].version
    ensures earlier in s.mappings && s.mappings[earlier].mappingId == s.mappings[id].mappingId
    ensures s.mappings[earlier].version == v
    decreases s.mappings[id].version
  {
    if v == s.mappings[id].version {
      earlier := id;
    } else {
      assert Continues(s, s.mappings[id]);
      earlier := EveryLowerVersionExists(s, s.mappings[id].previous.value, v);
    }
  }

  /** Pack versions are never rewritten or withdrawn. */
  lemma {:induction false} PacksOnlyGrow(states: seq<Store>, events: seq<Event>, i: nat, j: nat)
    requires History(states, events) && i <= j <= |events|
    ensures states[i].packs <= states[j].packs
    decreases j - i
  {
    if i < j {
      PacksOnlyGrow(states, events, i, j - 1);
      var s, e, s' := states[j - 1], events[j - 1], states[j];
      if e.call.Publish? && Allowed(s, e.call, e.env) {
        var prior := PublishIsPublication(s, e.call, e.env, s');
        PublicationAppends(s, e.call.id, prior, e.call.now, s');
      } else {
        OtherCallsRelease(s, e.call, e.env, s');
      }
    }
  }

  // ---------------------------------------------------------------- which pack a fresh audit loads

  /** What a fresh audit demands of each member of a pack's newest version. */
  predicate Serves(s: Store, id: VersionId, profile: ProfileId) {
    && id in s.mappings && s.mappings[id].status == Published
    && s.mappings[id].approvedBy.Some? && s.mappings[id].publishedAt.Some?
    && profile in s.mappings[id].definition.profiles
  }

  predicate Loadable(s: Store, row: PackVersion, profile: ProfileId) {
    row.members != {} && forall id :: id in row.members ==> Serves(s, id, profile)
  }

  /** Publication time first, then version: how a fresh audit orders the versions of a pack. */
  predicate NotLater(a: PackVersion, b: PackVersion) {
    a.publishedAt < b.publishedAt || (a.publishedAt == b.publishedAt && a.version <= b.version)
  }

  /** The place of the pack version a fresh audit looks at. */
  function NewestPack(packs: seq<PackVersion>, key: PackKey): (r: Option<nat>)
    ensures r.Some? ==> r.value < |packs| && packs[r.value].key == key
  {
    if packs == [] then None
    else
      var i := |packs| - 1;
      var before := NewestPack(packs[..i], key);
      if packs[i].key == key && (before.None? || NotLater(packs[before.value], packs[i])) then Some(i) else before
  }

  lemma {:induction false} NewestIsLatestInTime(packs: seq<PackVersion>, key: PackKey, j: nat)
    requires j < |packs| && packs[j].key == key
    ensures NewestPack(packs, key).Some? && NotLater(packs[j], packs[NewestPack(packs, key).value])
  {
    var i := |packs| - 1;
    if j < i {
      NewestIsLatestInTime(packs[..i], key, j);
    }
  }

  lemma NewestAfterAppend(packs: seq<PackVersion>, row: PackVersion, key: PackKey)
    ensures row.key != key ==> NewestPack(packs + [row], key) == NewestPack(packs, key)
    ensures row.key == key && NewestPack(packs, key).None? ==> NewestPack(packs + [row], key) == Some(|packs|)
  {
    assert (packs + [row])[..|packs|] == packs;
  }

  /** The versions of each pack were published in the order of their numbers. */
  ghost predicate ClockKept(packs: seq<PackVersion>) {
    forall i, j :: 0 <= i <= j < |packs| ==> packs[i].publishedAt <= packs[j].publishedAt
  }

  lemma NewestWithRow(before: seq<PackVersion>, row: PackVersion, key: PackKey)
    requires NewestPack(before, key) == LatestPack(before, key) && Follows(before, row)
    requires forall i :: 0 <= i < |before| ==> before[i].publishedAt <= row.publishedAt
    ensures NewestPack(before + [row], key) == LatestPack(before + [row], key)
  {
    LatestAfterAppend(before, row, key);
    hide LatestPack;
    assert (before + [row])[..|before|] == before;
  }

  /** While the clock does not go back, the version looked at is the highest. */
  lemma {:induction false} NewestIsHighest(packs: seq<PackVersion>, key: PackKey)
    requires Chained(packs) && ClockKept(packs)
    ensures NewestPack(packs, key) == LatestPack(packs, key)
  {
    if packs != [] {
      hide LatestPack, NewestPack;
      var n := |packs| - 1;
      var before := packs[..n];
      ChainedPrefix(packs, n);
      NewestIsHighest(before, key);
      assert Follows(before, packs[n]);
      NewestWithRow(before, packs[n], key);
      assert packs == before + [packs[n]];
    }
  }

  predicate Candidate(s: Store, key: PackKey, profile: ProfileId) {
    var newest := NewestPack(s.packs, key);
    newest.Some? && Loadable(s, s.packs[newest.value], profile)
  }

  /** A pack is loaded when it is the only candidate; with two, the audit gets none. */
  ghost predicate Selected(s: Store, key: PackKey, profile: ProfileId) {
    Candidate(s, key, profile) && forall other :: Candidate(s, other, profile) ==> other == key
  }

  /** Wherever the mapping of this member is published now, it is published for these profiles. */
  ghost predicate Stays(s: Store, id: VersionId, key: PackKey) {
    id in s.mappings && forall q :: PublishedTwin(s, id, q) ==> KeyOf(s.mappings[q].definition) == key
  }

  /** The highest version of the pack still holds this member. */
  predicate StillHeld(s: Store, id: VersionId, key: PackKey) {
    var last := LatestPack(s.packs, key);
    last.Some? && id in s.packs[last.value].members
  }

  lemma MemberServesIff(s: Store, i: nat, id: VersionId, profile: ProfileId)
    requires StoreOk(s) && i < |s.packs| && id in s.packs[i].members
    ensures Serves(s, id, profile) <==>
              profile in s.packs[i].key && Stays(s, id, s.packs[i].key) && StillHeld(s, id, s.packs[i].key)
  {
    hide RunsOk, LineageOk, Chained, RowsReplace, LatestPack, RestsOn;
    var row := s.packs[i];
    assert MembersOk(s, row);
    assert profile in multiset(s.mappings[id].definition.profiles) <==> profile in s.mappings[id].definition.profiles;
    if s.mappings[id].status == Published {
      forall q | PublishedTwin(s, id, q) ensures q == id {
        assert PublishedTwin(s, q, id);
      }
      assert InLatest(s, id);
    } else {
      SupersededDoesNotServe(s, id, row.key);
    }
  }

  lemma SupersededDoesNotServe(s: Store, id: VersionId, key: PackKey)
    requires StoreOk(s) && id in s.mappings && s.mappings[id].status == Superseded
    ensures !(Stays(s, id, key) && StillHeld(s, id, key))
  {
    hide RunsOk, LineageOk, Chained, RowsReplace, LatestPack, RestsOn;
    var q: VersionId :| PublishedTwin(s, id, q);
    assert InLatest(s, q);
    var last := LatestPack(s.packs, key);
    assert last.Some? ==> MembersOk(s, s.packs[last.value]);
  }

  /**
   A pack is a candidate for a profile exactly when it is made for that profile, none of its mappings has moved
   (wherever one of them is published now, it is published for the same profiles) and none has been replaced in a
   higher version, as can only be when the clock went back between publications.
   */
  lemma CandidateIff(s: Store, i: nat, profile: ProfileId)
    requires StoreOk(s) && i < |s.packs| && NewestPack(s.packs, s.packs[i].key) == Some(i)
    ensures Candidate(s, s.packs[i].key, profile) <==>
              && profile in s.packs[i].key
              && forall id :: id in s.packs[i].members ==>
                   Stays(s, id, s.packs[i].key) && StillHeld(s, id, s.packs[i].key)
  {
    hide StoreOk, NewestPack, Serves, Stays, StillHeld;
    var row := s.packs[i];
    RowHasAMember(s, i);
    forall id | id in row.members
      ensures Serves(s, id, profile) <==> profile in row.key && Stays(s, id, row.key) && StillHeld(s, id, row.key)
    {
      MemberServesIff(s, i, id, profile);
    }
  }

  lemma RowHasAMember(s: Store, i: nat)
    requires StoreOk(s) && i < |s.packs|
    ensures s.packs[i].members != {}
  {
    hide LatestPack, Chained, RunsOk, ApprovalsRest, LineageOk, OnePublished, ReleasesOk, RowsOk;
    assert RowReplaces(s, s.packs[i]);
  }

  lemma MovedMember(s: Store, i: nat, id: VersionId, q: VersionId, profile: ProfileId)
    requires StoreOk(s) && i < |s.packs| && NewestPack(s.packs, s.packs[i].key) == Some(i) && id in s.packs[i].members
    requires id in s.mappings && PublishedTwin(s, id, q) && KeyOf(s.mappings[q].definition) != s.packs[i].key
    ensures !Candidate(s, s.packs[i].key, profile)
  {
    hide StoreOk, NewestPack, Candidate;
    CandidateIff(s, i, profile);
    assert !Stays(s, id, s.packs[i].key);
  }

  lemma OtherPacksStay(s: Store, id: VersionId, prior: Option<VersionId>, now: real, s': Store, i: nat)
    requires Publication(s, id, prior, now, s') && Chained(s.packs)
    requires i < |s.packs| && NewestPack(s.packs, s.packs[i].key) == Some(i)
    requires s.packs[i].key != KeyOf(s.mappings[id].definition)
    ensures i < |s'.packs| && s'.packs[i] == s.packs[i] && NewestPack(s'.packs, s.packs[i].key) == Some(i)
  {
    PublicationAppends(s, id, prior, now, s');
    NewestAfterAppend(s.packs, NextPackVersion(s, id, now), s.packs[i].key);
  }

  /**
   Publishing a mapping for other profiles takes the pack of its old profiles out of use, with every other
   mapping in it: no profile's audits load that pack any more.
   */
  lemma MovingAMappingStrandsItsPack(
    s: Store, call: Call, env: Env, s': Store, i: nat, id: VersionId, profile: ProfileId)
    requires StoreOk(s) && Step(s, call, env, s') && call.Publish? && Allowed(s, call, env)
    requires i < |s.packs| && NewestPack(s.packs, s.packs[i].key) == Some(i) && id in s.packs[i].members
    requires id in s.mappings && s.mappings[id].mappingId == s.mappings[call.id].mappingId
    requires s.packs[i].key != KeyOf(s.mappings[call.id].definition)
    ensures !Candidate(s', s.packs[i].key, profile)
  {
    hide Step, LatestPack, Candidate, PublishedStore, CurrentlyValidated, RowsOk, RowsReplace, OnePublished,
      ReleasesOk, Chained;
    StepKeepsStore(s, call, env, s');
    var prior := PublishIsPublication(s, call, env, s');
    OtherPacksStay(s, call.id, prior, call.now, s', i);
    PublicationOnMappings(s, call.id, prior, call.now, s', id);
    PublicationOnMappings(s, call.id, prior, call.now, s', call.id);
    assert PublishedTwin(s', id, call.id);
    MovedMember(s', i, id, call.id, profile);
  }

  /** A publication for other profiles of a mapping without a published version leaves a loaded pack loadable. */
  lemma LoadedPackStays(s: Store, id: VersionId, now: real, s': Store, i: nat, profile: ProfileId)
    requires Publication(s, id, None, now, s') && ApprovalsRest(s') && Chained(s.packs) && ReleasesOk(s)
    requires i < |s.packs| && Candidate(s, s.packs[i].key, profile) && NewestPack(s.packs, s.packs[i].key) == Some(i)
    requires s.packs[i].key != KeyOf(s.mappings[id].definition)
    ensures Candidate(s', s.packs[i].key, profile)
  {
    hide LatestPack, NewestPack, PublishedStore, Chained, RestsOn;
    OtherPacksStay(s, id, None, now, s', i);
    forall q | q in s.packs[i].members ensures Serves(s', q, profile) {
      assert Serves(s, q, profile);
      PublicationOnMappings(s, id, None, now, s', q);
    }
  }

  /** The first version of a pack holds its one mapping and is loadable for each of its profiles. */
  lemma FirstVersionServes(s: Store, id: VersionId, prior: Option<VersionId>, now: real, s': Store, profile: ProfileId)
    requires Publication(s, id, prior, now, s') && ApprovalsRest(s') && profile in s.mappings[id].definition.profiles
    requires forall j :: 0 <= j < |s.packs| ==> s.packs[j].key != KeyOf(s.mappings[id].definition)
    ensures Candidate(s', KeyOf(s.mappings[id].definition), profile)
  {
    var key := KeyOf(s.mappings[id].definition);
    assert LatestPack(s.packs, key) == None && NewestPack(s.packs, key) == None;
    PublicationAppends(s, id, prior, now, s');
    NewestAfterAppend(s.packs, NextPackVersion(s, id, now), key);
    PublicationOnMappings(s, id, prior, now, s', id);
    hide LatestPack, NewestPack, PublishedStore, RestsOn;
    assert Serves(s', id, profile);
  }

  /**
   Publishing a first mapping for a wider or narrower set of profiles silences the pack in force: both packs
   are candidates for a profile they share, and an audit with two candidates loads neither.
   */
  lemma SecondPackSilencesBoth(s: Store, call: Call, env: Env, s': Store, i: nat, profile: ProfileId)
    requires StoreOk(s) && Step(s, call, env, s') && call.Publish? && Allowed(s, call, env)
    requires i < |s.packs| && Selected(s, s.packs[i].key, profile) && NewestPack(s.packs, s.packs[i].key) == Some(i)
    requires profile in s.mappings[call.id].definition.profiles
    requires forall j :: 0 <= j < |s.packs| ==> s.packs[j].key != KeyOf(s.mappings[call.id].definition)
    requires forall q :: !PublishedTwin(s, call.id, q)
    ensures forall key :: !Selected(s', key, profile)
  {
    hide Step, LatestPack, NewestPack, PublishedStore, CurrentlyValidated, RowsOk, RowsReplace, OnePublished,
      ReleasesOk, Chained;
    StepKeepsApprovals(s, call, env, s');
    var prior := PublishIsPublication(s, call, env, s');
    hide Allowed, ApprovalsRest, RunsOk, Candidate;
    LoadedPackStays(s, call.id, call.now, s', i, profile);
    FirstVersionServes(s, call.id, prior, call.now, s', profile);
  }
}
