/** The snapshot service (backend/app/snapshots/service.py), proved to take the steps of Snapshots. */
module SnapshotService {
  import opened Common
  import opened Ordering
  import opened Snapshots

  datatype SnapshotError = NotFound | NotDraft | Ineligible | Assigned | Empty

  datatype EvidenceError = EvidenceInvalid | EvidenceIncoherent

  /** The members, row by row, in whatever order the rows come. */
  method Members(artifacts: map<ArtifactId, Artifact>, snapshot: SnapshotId) returns (ids: seq<ArtifactId>)
    ensures Lists(artifacts, snapshot, ids)
  {
    ids := [];
    var rest := artifacts.Keys;
    while rest != {}
      invariant rest <= artifacts.Keys && NoRepeats(ids)
      invariant forall id :: id in ids <==> id !in rest && IsMember(artifacts, snapshot, id)
      decreases rest
    {
      var id :| id in rest;
      rest := rest - {id};
      if artifacts[id].snapshot == Some(snapshot) {
        ids := ids + [id];
      }
    }
  }

  /** Recomputes what the snapshot says of its members; refuses evidence that is missing, ineligible or changed. */
  method ValidateSnapshotEvidence(s: Shelf, snapshot: SnapshotId) returns (r: Result<seq<ArtifactId>, EvidenceError>)
    requires snapshot in s.snapshots
    ensures r.Ok? <==> EvidenceValid(s, snapshot)
    ensures r.Ok? ==> Lists(s.artifacts, snapshot, r.value)
    ensures r == Err(EvidenceInvalid) <==> !HasMember(s, snapshot) || !AllEligible(s, snapshot)
  {
    var ids := Members(s.artifacts, snapshot);
    assert forall id :: id in ids <==> IsMember(s.artifacts, snapshot, id);
    if ids == [] || exists id :: id in ids && !s.artifacts[id].eligible {
      return Err(EvidenceInvalid);
    }
    assert IsMember(s.artifacts, snapshot, ids[0]);
    var expected := SnapshotHash(Shas(s.artifacts, ids));
    if s.snapshots[snapshot].count != |ids| || s.snapshots[snapshot].hash != expected {
      assert !Matches(s.artifacts, snapshot, s.snapshots[snapshot].count, s.snapshots[snapshot].hash) by {
        if Matches(s.artifacts, snapshot, s.snapshots[snapshot].count, s.snapshots[snapshot].hash) {
          EveryListingMatches(s.artifacts, snapshot, s.snapshots[snapshot].count, s.snapshots[snapshot].hash, ids);
        }
      }
      return Err(EvidenceIncoherent);
    }
    assert Sealed(s.artifacts, snapshot, ids, s.snapshots[snapshot].count, s.snapshots[snapshot].hash);
    return Ok(ids);
  }

  /** Why an artifact is not added, in the order the source checks. */
  function AddRefusal(s: Shelf, snapshot: SnapshotId, id: ArtifactId): SnapshotError {
    if snapshot !in s.snapshots then NotFound
    else if s.snapshots[snapshot].status != Draft then NotDraft
    else if id !in s.artifacts then NotFound
    else if !s.artifacts[id].eligible then Ineligible
    else Assigned
  }

  class Service {
    var artifacts: map<ArtifactId, Artifact>
    var snapshots: map<SnapshotId, Snapshot>

    constructor ()
      ensures S() == Shelf(map[], map[])
    {
      artifacts, snapshots := map[], map[];
    }

    ghost function S(): Shelf
      reads this
    {
      Shelf(artifacts, snapshots)
    }

    method CreateSnapshot(id: SnapshotId, device: DeviceId)
      requires id !in snapshots
      modifies this
      ensures Step(old(S()), Open(id, device), S())
    {
      snapshots := snapshots[id := Snapshot(device, Draft, 0, SnapshotHash([]))];
    }

    /** Writes the count and hash of the members a snapshot has now. */
    method RefreshMembership(snapshot: SnapshotId, status: SnapshotStatus)
      requires snapshot in snapshots
      modifies this
      ensures Resealed(old(S()), old(artifacts), snapshot, status, S())
    {
      var ids := Members(artifacts, snapshot);
      var hashes := Shas(artifacts, ids);
      var hash := SnapshotHash(hashes);
      assert Sealed(artifacts, snapshot, ids, |hashes|, hash);
      snapshots := snapshots[snapshot := snapshots[snapshot].(status := status, count := |hashes|, hash := hash)];
    }

    method AddArtifact(snapshot: SnapshotId, id: ArtifactId) returns (r: Result<Snapshot, SnapshotError>)
      modifies this
      ensures Step(old(S()), Add(snapshot, id), S())
      ensures r.Ok? <==> Allowed(old(S()), Add(snapshot, id))
      ensures r.Ok? ==> snapshot in snapshots && r.value == snapshots[snapshot]
      ensures r.Err? ==> r.error == AddRefusal(old(S()), snapshot, id)
    {
      if snapshot !in snapshots {
        return Err(NotFound);
      }
      if snapshots[snapshot].status != Draft {
        return Err(NotDraft);
      }
      if id !in artifacts {
        return Err(NotFound);
      }
      if !artifacts[id].eligible {
        return Err(Ineligible);
      }
      if artifacts[id].snapshot.Some? && artifacts[id].snapshot.value != snapshot {
        return Err(Assigned);
      }
      artifacts := artifacts[id := artifacts[id].(snapshot := Some(snapshot))];
      RefreshMembership(snapshot, Draft);
      return Ok(snapshots[snapshot]);
    }

    method RemoveArtifact(snapshot: SnapshotId, id: ArtifactId) returns (r: Result<Snapshot, SnapshotError>)
      modifies this
      ensures Step(old(S()), Remove(snapshot, id), S())
      ensures r.Ok? <==> Allowed(old(S()), Remove(snapshot, id))
      ensures r.Ok? ==> snapshot in snapshots && r.value == snapshots[snapshot]
      ensures r == Err(NotDraft) <==> snapshot in old(snapshots) && old(snapshots[snapshot].status) != Draft
      ensures r.Err? ==> r.error in {NotDraft, NotFound}
    {
      if snapshot !in snapshots {
        return Err(NotFound);
      }
      if snapshots[snapshot].status != Draft {
        return Err(NotDraft);
      }
      if id !in artifacts || artifacts[id].snapshot != Some(snapshot) {
        return Err(NotFound);
      }
      artifacts := artifacts[id := artifacts[id].(snapshot := None)];
      RefreshMembership(snapshot, Draft);
      return Ok(snapshots[snapshot]);
    }

    method FinalizeSnapshot(snapshot: SnapshotId) returns (r: Result<Snapshot, SnapshotError>)
      modifies this
      ensures Step(old(S()), Finalize(snapshot), S())
      ensures r.Ok? <==> Allowed(old(S()), Finalize(snapshot))
      ensures r.Ok? ==> snapshot in snapshots && r.value == snapshots[snapshot]
      ensures r == Err(Empty) ==> !HasMember(old(S()), snapshot)
    {
      if snapshot !in snapshots {
        return Err(NotFound);
      }
      if snapshots[snapshot].status != Draft {
        return Err(NotDraft);
      }
      var ids := Members(artifacts, snapshot);
      if ids == [] {
        assert forall id :: id in ids <==> IsMember(artifacts, snapshot, id);
        return Err(Empty);
      }
      assert IsMember(artifacts, snapshot, ids[0]);
      if exists id :: id in ids && !artifacts[id].eligible {
        return Err(Ineligible);
      }
      var hashes := Shas(artifacts, ids);
      assert Sealed(artifacts, snapshot, ids, |ids|, SnapshotHash(hashes));
      var ready := snapshots[snapshot].(status := Ready, count := |ids|, hash := SnapshotHash(hashes));
      snapshots := snapshots[snapshot := ready];
      return Ok(snapshots[snapshot]);
    }
  }
}
