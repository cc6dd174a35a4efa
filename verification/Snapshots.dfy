/**
 Artifacts, the snapshots that collect them, and the hash that seals a snapshot
 (backend/app/snapshots/service.py, backend/app/audit/service.py:336-354).

 sha256 is taken to be injective, so the hash of a snapshot is the text it is computed from.
 */
module Snapshots {
  import opened Common
  import opened Ordering

  type ArtifactId = nat

  type SnapshotId = nat

  type DeviceId = nat

  datatype Artifact = Artifact(snapshot: Option<SnapshotId>, sha: string, eligible: bool)

  datatype SnapshotStatus = Draft | Ready | Locked

  datatype Snapshot = Snapshot(device: DeviceId, status: SnapshotStatus, count: nat, hash: string)

  datatype Shelf = Shelf(artifacts: map<ArtifactId, Artifact>, snapshots: map<SnapshotId, Snapshot>)

  datatype Call =
    | Upload(id: ArtifactId, sha: string, eligible: bool)
    | Reclassify(id: ArtifactId, eligible: bool)
    | Open(snapshot: SnapshotId, device: DeviceId)
    | Add(snapshot: SnapshotId, id: ArtifactId)
    | Remove(snapshot: SnapshotId, id: ArtifactId)
    | Finalize(snapshot: SnapshotId)
    | Lock(snapshot: SnapshotId)

  // ---------------------------------------------------------------- the hash

  const DIGEST_LENGTH: nat := 64

  predicate Digest(text: string) {
    |text| == DIGEST_LENGTH
  }

  ghost predicate Digests(hashes: seq<string>) {
    forall i :: 0 <= i < |hashes| ==> Digest(hashes[i])
  }

  /** The direct concatenation of the sorted digests. */
  function SnapshotHash(hashes: seq<string>): string {
    Concat(Sort(TextLe, hashes))
  }

  lemma {:induction false} JoinedTextSplits(a: seq<string>, b: seq<string>)
    requires Digests(a) && Digests(b) && Concat(a) == Concat(b)
    ensures a == b
  {
    if a != [] && b != [] {
      assert Concat(a)[..DIGEST_LENGTH] == a[0] && Concat(a)[DIGEST_LENGTH..] == Concat(a[1..]);
      assert Concat(b)[..DIGEST_LENGTH] == b[0] && Concat(b)[DIGEST_LENGTH..] == Concat(b[1..]);
      JoinedTextSplits(a[1..], b[1..]);
      assert a == [a[0]] + a[1..] && b == [b[0]] + b[1..];
    }
  }

  /** The hash forgets the order of the digests and nothing else. */
  lemma HashIdentifiesContents(a: seq<string>, b: seq<string>)
    requires Digests(a) && Digests(b)
    ensures SnapshotHash(a) == SnapshotHash(b) <==> multiset(a) == multiset(b)
  {
    TextOrder();
    if multiset(a) == multiset(b) {
      SortForgetsOrder(TextLe, a, b);
    }
    if SnapshotHash(a) == SnapshotHash(b) {
      SortSorts(TextLe, a);
      SortSorts(TextLe, b);
      SortedDigests(a);
      SortedDigests(b);
      JoinedTextSplits(Sort(TextLe, a), Sort(TextLe, b));
    }
  }

  lemma SortedDigests(a: seq<string>)
    requires Digests(a)
    ensures Digests(Sort(TextLe, a))
  {
    var sorted := Sort(TextLe, a);
    SortMembers(TextLe, a);
    forall i | 0 <= i < |sorted| ensures Digest(sorted[i]) {
      assert sorted[i] in a;
    }
  }

  // ---------------------------------------------------------------- membership

  /** `ids` lists the members of a snapshot, each once, in some order. */
  ghost predicate Lists(artifacts: map<ArtifactId, Artifact>, snapshot: SnapshotId, ids: seq<ArtifactId>) {
    NoRepeats(ids) && forall id :: id in ids <==> IsMember(artifacts, snapshot, id)
  }

  function Shas(artifacts: map<ArtifactId, Artifact>, ids: seq<ArtifactId>): (r: seq<string>)
    requires forall id :: id in ids ==> id in artifacts
    ensures |r| == |ids|
  {
    if ids == [] then [] else [artifacts[ids[0]].sha] + Shas(artifacts, ids[1..])
  }

  lemma {:induction false} ShasAppend(artifacts: map<ArtifactId, Artifact>, a: seq<ArtifactId>, b: seq<ArtifactId>)
    requires forall id :: id in a + b ==> id in artifacts
    ensures forall id :: id in a ==> id in artifacts
    ensures forall id :: id in b ==> id in artifacts
    ensures Shas(artifacts, a + b) == Shas(artifacts, a) + Shas(artifacts, b)
  {
    assert forall id :: id in a ==> id in a + b;
    assert forall id :: id in b ==> id in a + b;
    if a == [] {
      assert a + b == b;
    } else {
      assert (a + b)[1..] == a[1..] + b;
      ShasAppend(artifacts, a[1..], b);
    }
  }

  /** Taking out the id at `k` takes out its digest. */
  lemma ShasWithout(artifacts: map<ArtifactId, Artifact>, b: seq<ArtifactId>, k: nat)
    requires k < |b| && forall id :: id in b ==> id in artifacts
    ensures forall id :: id in b[..k] + b[k + 1..] ==> id in artifacts
    ensures multiset(b) == multiset(b[..k] + b[k + 1..]) + multiset{b[k]}
    ensures multiset(Shas(artifacts, b)) ==
        multiset(Shas(artifacts, b[..k] + b[k + 1..])) + multiset{artifacts[b[k]].sha}
  {
    var before, after := b[..k], b[k + 1..];
    assert b == before + ([b[k]] + after);
    assert forall id :: id in before + after ==> id in b;
    ShasAppend(artifacts, before, [b[k]] + after);
    ShasAppend(artifacts, [b[k]], after);
    ShasAppend(artifacts, before, after);
    assert Shas(artifacts, [b[k]]) == [artifacts[b[k]].sha];
  }

  lemma ShasHead(artifacts: map<ArtifactId, Artifact>, a: seq<ArtifactId>)
    requires a != [] && forall id :: id in a ==> id in artifacts
    ensures multiset(a) == multiset(a[1..]) + multiset{a[0]}
    ensures multiset(Shas(artifacts, a)) == multiset(Shas(artifacts, a[1..])) + multiset{artifacts[a[0]].sha}
  {
    assert a == [a[0]] + a[1..];
  }

  lemma CancelOne<T>(x: multiset<T>, y: multiset<T>, e: T)
    requires x + multiset{e} == y + multiset{e}
    ensures x == y
  {
    forall t ensures x[t] == y[t] {
      assert (x + multiset{e})[t] == (y + multiset{e})[t];
    }
  }

  lemma {:induction false} ShasForgetOrder(artifacts: map<ArtifactId, Artifact>, a: seq<ArtifactId>, b: seq<ArtifactId>)
    requires multiset(a) == multiset(b) && forall id :: id in a ==> id in artifacts
    ensures forall id :: id in b ==> id in artifacts
    ensures multiset(Shas(artifacts, a)) == multiset(Shas(artifacts, b))
  {
    assert forall id :: id in b ==> id in multiset(a);
    if a == [] {
      assert |multiset(b)| == 0;
    } else {
      hide Shas;
      assert a[0] in multiset(b);
      var k :| 0 <= k < |b| && b[k] == a[0];
      var rest := b[..k] + b[k + 1..];
      ShasWithout(artifacts, b, k);
      ShasHead(artifacts, a);
      CancelOne(multiset(a[1..]), multiset(rest), a[0]);
      ShasForgetOrder(artifacts, a[1..], rest);
    }
  }

  lemma {:induction false} SameSetSameBag(a: seq<ArtifactId>, b: seq<ArtifactId>)
    requires NoRepeats(a) && NoRepeats(b) && forall id :: id in a <==> id in b
    ensures multiset(a) == multiset(b)
  {
    forall id ensures multiset(a)[id] == multiset(b)[id] {
      NoRepeatsCount(a, id);
      NoRepeatsCount(b, id);
      assert id in a <==> id in b;
      assert id in a <==> multiset(a)[id] > 0;
      assert id in b <==> multiset(b)[id] > 0;
    }
  }

  /** The count and the hash of these members, whichever way they are listed. */
  ghost predicate Matches(artifacts: map<ArtifactId, Artifact>, snapshot: SnapshotId, count: nat, hash: string) {
    exists ids :: Sealed(artifacts, snapshot, ids, count, hash)
  }

  ghost predicate Sealed(
    artifacts: map<ArtifactId, Artifact>, snapshot: SnapshotId, ids: seq<ArtifactId>, count: nat, hash: string) {
    Lists(artifacts, snapshot, ids) && count == |ids| && hash == SnapshotHash(Shas(artifacts, ids))
  }

  lemma EveryListingMatches(
    artifacts: map<ArtifactId, Artifact>, snapshot: SnapshotId, count: nat, hash: string, ids: seq<ArtifactId>)
    requires Matches(artifacts, snapshot, count, hash) && Lists(artifacts, snapshot, ids)
    ensures Sealed(artifacts, snapshot, ids, count, hash)
  {
    var other :| Sealed(artifacts, snapshot, other, count, hash);
    SameSetSameBag(ids, other);
    assert |multiset(ids)| == |ids|;
    ShasForgetOrder(artifacts, ids, other);
    TextOrder();
    SortForgetsOrder(TextLe, Shas(artifacts, ids), Shas(artifacts, other));
  }

  predicate IsMember(artifacts: map<ArtifactId, Artifact>, snapshot: SnapshotId, id: ArtifactId) {
    id in artifacts && artifacts[id].snapshot == Some(snapshot)
  }

  ghost predicate HasMember(s: Shelf, snapshot: SnapshotId) {
    exists id :: IsMember(s.artifacts, snapshot, id)
  }

  ghost predicate AllEligible(s: Shelf, snapshot: SnapshotId) {
    forall id :: IsMember(s.artifacts, snapshot, id) ==> s.artifacts[id].eligible
  }

  /** The check every audit makes of its evidence. */
  ghost predicate EvidenceValid(s: Shelf, snapshot: SnapshotId)
    requires snapshot in s.snapshots
  {
    && HasMember(s, snapshot) && AllEligible(s, snapshot)
    && Matches(s.artifacts, snapshot, s.snapshots[snapshot].count, s.snapshots[snapshot].hash)
  }

  // ---------------------------------------------------------------- one call

  predicate IsDraft(s: Shelf, snapshot: SnapshotId) {
    snapshot in s.snapshots && s.snapshots[snapshot].status == Draft
  }

  ghost predicate Allowed(s: Shelf, call: Call) {
    match call
    case Upload(id, sha, _) => id !in s.artifacts && Digest(sha)
    case Reclassify(id, _) => id in s.artifacts
    case Open(snapshot, _) => snapshot !in s.snapshots
    case Add(snapshot, id) =>
      && IsDraft(s, snapshot) && id in s.artifacts && s.artifacts[id].eligible
      && (s.artifacts[id].snapshot.None? || s.artifacts[id].snapshot == Some(snapshot))
    case Remove(snapshot, id) => IsDraft(s, snapshot) && id in s.artifacts && s.artifacts[id].snapshot == Some(snapshot)
    case Finalize(snapshot) => IsDraft(s, snapshot) && HasMember(s, snapshot) && AllEligible(s, snapshot)
    case Lock(snapshot) =>
      snapshot in s.snapshots && s.snapshots[snapshot].status == Ready && EvidenceValid(s, snapshot)
  }

  /** The snapshot with the count and hash of the members it has among `artifacts`. */
  ghost predicate Resealed(
    s: Shelf, artifacts: map<ArtifactId, Artifact>, snapshot: SnapshotId, status: SnapshotStatus, s': Shelf)
    requires snapshot in s.snapshots
  {
    exists count: nat, hash: string ::
      && Matches(artifacts, snapshot, count, hash)
      && s' == Shelf(artifacts,
           s.snapshots[snapshot := s.snapshots[snapshot].(status := status, count := count, hash := hash)])
  }

  ghost predicate Effect(s: Shelf, call: Call, s': Shelf)
    requires Allowed(s, call)
  {
    match call
    case Upload(id, sha, eligible) => s' == s.(artifacts := s.artifacts[id := Artifact(None, sha, eligible)])
    case Reclassify(id, eligible) => s' == s.(artifacts := s.artifacts[id := s.artifacts[id].(eligible := eligible)])
    case Open(snapshot, device) => s' ==
        s.(snapshots := s.snapshots[snapshot := Snapshot(device, Draft, 0, SnapshotHash([]))])
    case Add(snapshot, id) =>
      Resealed(s, s.artifacts[id := s.artifacts[id].(snapshot := Some(snapshot))], snapshot, Draft, s')
    case Remove(snapshot, id) =>
      Resealed(s, s.artifacts[id := s.artifacts[id].(snapshot := None)], snapshot, Draft, s')
    case Finalize(snapshot) => Resealed(s, s.artifacts, snapshot, Ready, s')
    case Lock(snapshot) => s' == s.(snapshots := s.snapshots[snapshot := s.snapshots[snapshot].(status := Locked)])
  }

  ghost predicate Step(s: Shelf, call: Call, s': Shelf) {
    if Allowed(s, call) then Effect(s, call, s') else s' == s
  }

  /** An artifact joins exactly a draft, when it is eligible and in no other snapshot; nothing else changes hands. */
  lemma AddedIff(s: Shelf, snapshot: SnapshotId, id: ArtifactId, s': Shelf)
    requires Step(s, Add(snapshot, id), s')
    ensures if snapshot in s.snapshots && s.snapshots[snapshot].status == Draft && id in s.artifacts
               && s.artifacts[id].eligible
               && (s.artifacts[id].snapshot == None || s.artifacts[id].snapshot == Some(snapshot))
            then IsMember(s'.artifacts, snapshot, id) && Resized(s, snapshot, Draft, s') && OnlyMoves(s, id, s')
            else s' == s
  {
  }

  /** An artifact leaves exactly a draft it is in. */
  lemma RemovedIff(s: Shelf, snapshot: SnapshotId, id: ArtifactId, s': Shelf)
    requires Step(s, Remove(snapshot, id), s')
    ensures if snapshot in s.snapshots && s.snapshots[snapshot].status == Draft && IsMember(s.artifacts, snapshot, id)
            then s'.artifacts[id].snapshot == None && Resized(s, snapshot, Draft, s') && OnlyMoves(s, id, s')
            else s' == s
  {
  }

  /** A draft is sealed exactly when it has members and all of them are eligible. */
  lemma FinalizedIff(s: Shelf, snapshot: SnapshotId, s': Shelf)
    requires Step(s, Finalize(snapshot), s')
    ensures if snapshot in s.snapshots && s.snapshots[snapshot].status == Draft
               && (exists id :: id in s.artifacts && s.artifacts[id].snapshot == Some(snapshot))
               && (forall id :: id in s.artifacts && s.artifacts[id].snapshot == Some(snapshot) ==>
                     s.artifacts[id].eligible)
            then s'.artifacts == s.artifacts && Resized(s, snapshot, Ready, s')
            else s' == s
  {
    if exists id :: id in s.artifacts && s.artifacts[id].snapshot == Some(snapshot) {
      var id :| id in s.artifacts && s.artifacts[id].snapshot == Some(snapshot);
      assert IsMember(s.artifacts, snapshot, id);
    }
  }

  /** The snapshot has this status, its own device, and the count and hash of the members it has now. */
  ghost predicate Resized(s: Shelf, snapshot: SnapshotId, status: SnapshotStatus, s': Shelf)
    requires snapshot in s.snapshots
  {
    && s'.snapshots.Keys == s.snapshots.Keys
    && s'.snapshots[snapshot].status == status && s'.snapshots[snapshot].device == s.snapshots[snapshot].device
    && Matches(s'.artifacts, snapshot, s'.snapshots[snapshot].count, s'.snapshots[snapshot].hash)
    && forall other :: other in s.snapshots && other != snapshot ==> s'.snapshots[other] == s.snapshots[other]
  }

  /** At most this artifact changes, and it only changes its snapshot. */
  predicate OnlyMoves(s: Shelf, id: ArtifactId, s': Shelf) {
    && s'.artifacts.Keys == s.artifacts.Keys
    && (forall other :: other in s.artifacts && other != id ==> s'.artifacts[other] == s.artifacts[other])
    && (id in s.artifacts ==>
          s'.artifacts[id].sha == s.artifacts[id].sha && s'.artifacts[id].eligible == s.artifacts[id].eligible)
  }

  // ---------------------------------------------------------------- what always holds

  predicate Frozen(status: SnapshotStatus) {
    status != Draft
  }

  /** Every snapshot's count and hash are those of its members; a sealed snapshot has members. */
  ghost predicate SnapshotOk(s: Shelf, snapshot: SnapshotId)
    requires snapshot in s.snapshots
  {
    && Matches(s.artifacts, snapshot, s.snapshots[snapshot].count, s.snapshots[snapshot].hash)
    && (Frozen(s.snapshots[snapshot].status) ==> HasMember(s, snapshot))
  }

  ghost predicate ShelfOk(s: Shelf) {
    && (forall snapshot :: snapshot in s.snapshots ==> SnapshotOk(s, snapshot))
    && (forall id :: id in s.artifacts ==>
          && Digest(s.artifacts[id].sha)
          && (s.artifacts[id].snapshot.Some? ==> s.artifacts[id].snapshot.value in s.snapshots))
  }

  ghost predicate SameMembers(a: map<ArtifactId, Artifact>, b: map<ArtifactId, Artifact>, snapshot: SnapshotId) {
    forall id :: (IsMember(a, snapshot, id) <==> IsMember(b, snapshot, id))
        && (IsMember(a, snapshot, id) ==> a[id].sha == b[id].sha)
  }

  lemma {:induction false} SameShas(a: map<ArtifactId, Artifact>, b: map<ArtifactId, Artifact>, ids: seq<ArtifactId>)
    requires forall id :: id in ids ==> id in a && id in b && a[id].sha == b[id].sha
    ensures Shas(a, ids) == Shas(b, ids)
  {
    if ids != [] {
      SameShas(a, b, ids[1..]);
    }
  }

  lemma MatchesSameMembers(
    a: map<ArtifactId, Artifact>, b: map<ArtifactId, Artifact>, snapshot: SnapshotId, count: nat, hash: string)
    requires SameMembers(a, b, snapshot) && Matches(a, snapshot, count, hash)
    ensures Matches(b, snapshot, count, hash)
  {
    var ids :| Sealed(a, snapshot, ids, count, hash);
    SameShas(a, b, ids);
    assert Sealed(b, snapshot, ids, count, hash);
  }

  /** The snapshot a call works on. */
  function Target(call: Call): Option<SnapshotId> {
    match call
    case Upload(_, _, _) => None
    case Reclassify(_, _) => None
    case _ => Some(call.snapshot)
  }

  /** No call touches the members of another snapshot, or of a snapshot that is sealed. */
  lemma MembersStay(s: Shelf, call: Call, s': Shelf, snapshot: SnapshotId)
    requires Step(s, call, s') && snapshot in s.snapshots
    requires Target(call) != Some(snapshot) || Frozen(s.snapshots[snapshot].status)
    ensures SameMembers(s.artifacts, s'.artifacts, snapshot) && snapshot in s'.snapshots
    ensures s'.snapshots[snapshot].count == s.snapshots[snapshot].count
    ensures s'.snapshots[snapshot].hash == s.snapshots[snapshot].hash
    ensures s'.snapshots[snapshot].device == s.snapshots[snapshot].device
    ensures s'.snapshots[snapshot].status == s.snapshots[snapshot].status
         || (s.snapshots[snapshot].status == Ready && s'.snapshots[snapshot].status == Locked)
  {
    hide Matches, SnapshotHash;
  }

  lemma WorkedOnIsOk(s: Shelf, call: Call, s': Shelf, snapshot: SnapshotId)
    requires Step(s, call, s') && ShelfOk(s) && Target(call) == Some(snapshot) && snapshot in s'.snapshots
    ensures SnapshotOk(s', snapshot)
  {
    hide SnapshotHash, Matches;
    if snapshot in s.snapshots {
      assert SnapshotOk(s, snapshot);
    } else {
      assert forall id :: !IsMember(s.artifacts, snapshot, id);
      EmptyMatches(s.artifacts, snapshot);
    }
    if call.Finalize? && Allowed(s, call) {
      var id :| IsMember(s.artifacts, snapshot, id);
      assert IsMember(s'.artifacts, snapshot, id);
    }
  }

  lemma EmptyMatches(artifacts: map<ArtifactId, Artifact>, snapshot: SnapshotId)
    requires forall id :: !IsMember(artifacts, snapshot, id)
    ensures Matches(artifacts, snapshot, 0, SnapshotHash([]))
  {
    assert Sealed(artifacts, snapshot, [], 0, SnapshotHash([]));
  }

  lemma OtherStaysOk(s: Shelf, call: Call, s': Shelf, snapshot: SnapshotId)
    requires Step(s, call, s') && ShelfOk(s) && Target(call) != Some(snapshot) && snapshot in s'.snapshots
    ensures snapshot in s.snapshots && SnapshotOk(s', snapshot)
  {
    hide Matches, SnapshotHash;
    assert snapshot in s.snapshots && SnapshotOk(s, snapshot);
    MembersStay(s, call, s', snapshot);
    MatchesSameMembers(s.artifacts, s'.artifacts, snapshot, s.snapshots[snapshot].count, s.snapshots[snapshot].hash);
    if HasMember(s, snapshot) {
      var id :| IsMember(s.artifacts, snapshot, id);
      assert IsMember(s'.artifacts, snapshot, id);
    }
  }

  lemma StepKeepsShelf(s: Shelf, call: Call, s': Shelf)
    requires Step(s, call, s') && ShelfOk(s)
    ensures ShelfOk(s')
  {
    hide SnapshotOk, Matches, SnapshotHash;
    forall snapshot | snapshot in s'.snapshots ensures SnapshotOk(s', snapshot) {
      if Target(call) == Some(snapshot) {
        WorkedOnIsOk(s, call, s', snapshot);
      } else {
        OtherStaysOk(s, call, s', snapshot);
      }
    }
  }

  // ---------------------------------------------------------------- whole histories

  ghost predicate History(states: seq<Shelf>, calls: seq<Call>) {
    |states| == |calls| + 1 && forall i :: 0 <= i < |calls| ==> Step(states[i], calls[i], states[i + 1])
  }

  lemma {:induction false} EveryShelfIsOk(states: seq<Shelf>, calls: seq<Call>, n: nat)
    requires History(states, calls) && ShelfOk(states[0]) && n <= |calls|
    ensures ShelfOk(states[n])
  {
    hide Step, ShelfOk;
    if n > 0 {
      EveryShelfIsOk(states, calls, n - 1);
      StepKeepsShelf(states[n - 1], calls[n - 1], states[n]);
    }
  }

  /** From the moment a snapshot is sealed its members, their digests, its count and its hash never change. */
  lemma {:induction false} SealedSnapshotsStand(
    states: seq<Shelf>, calls: seq<Call>, i: nat, j: nat, snapshot: SnapshotId)
    requires History(states, calls) && i <= j <= |calls|
    requires snapshot in states[i].snapshots && Frozen(states[i].snapshots[snapshot].status)
    ensures snapshot in states[j].snapshots && Frozen(states[j].snapshots[snapshot].status)
    ensures SameMembers(states[i].artifacts, states[j].artifacts, snapshot)
    ensures states[j].snapshots[snapshot].count == states[i].snapshots[snapshot].count
    ensures states[j].snapshots[snapshot].hash == states[i].snapshots[snapshot].hash
    decreases j - i
  {
    hide Step;
    if i < j {
      SealedSnapshotsStand(states, calls, i, j - 1, snapshot);
      MembersStay(states[j - 1], calls[j - 1], states[j], snapshot);
    }
  }

  /** So in every reachable store a sealed snapshot's evidence is valid exactly while its artifacts are eligible. */
  lemma SealedEvidenceIsValidIff(states: seq<Shelf>, calls: seq<Call>, n: nat, snapshot: SnapshotId)
    requires History(states, calls) && ShelfOk(states[0]) && n <= |calls|
    requires snapshot in states[n].snapshots && Frozen(states[n].snapshots[snapshot].status)
    ensures EvidenceValid(states[n], snapshot) <==> AllEligible(states[n], snapshot)
  {
    hide Step;
    EveryShelfIsOk(states, calls, n);
    assert SnapshotOk(states[n], snapshot);
  }

  /** In a good store two snapshots have the same hash exactly when they hold the same evidence, digest for digest. */
  lemma EqualHashesEqualEvidence(s: Shelf, x: SnapshotId, y: SnapshotId, inX: seq<ArtifactId>, inY: seq<ArtifactId>)
    requires ShelfOk(s) && x in s.snapshots && y in s.snapshots
    requires Lists(s.artifacts, x, inX) && Lists(s.artifacts, y, inY)
    ensures s.snapshots[x].hash == s.snapshots[y].hash
       <==> multiset(Shas(s.artifacts, inX)) == multiset(Shas(s.artifacts, inY))
  {
    hide SnapshotHash;
    assert SnapshotOk(s, x) && SnapshotOk(s, y);
    EveryListingMatches(s.artifacts, x, s.snapshots[x].count, s.snapshots[x].hash, inX);
    EveryListingMatches(s.artifacts, y, s.snapshots[y].count, s.snapshots[y].hash, inY);
    ShasAreDigests(s.artifacts, inX);
    ShasAreDigests(s.artifacts, inY);
    HashIdentifiesContents(Shas(s.artifacts, inX), Shas(s.artifacts, inY));
  }

  lemma {:induction false} ShasAreDigests(artifacts: map<ArtifactId, Artifact>, ids: seq<ArtifactId>)
    requires forall id :: id in ids ==> id in artifacts && Digest(artifacts[id].sha)
    ensures Digests(Shas(artifacts, ids))
  {
    if ids != [] {
      ShasAreDigests(artifacts, ids[1..]);
    }
  }
}
