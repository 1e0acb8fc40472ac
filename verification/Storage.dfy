/** Values shared by the storage backend and the metadata store. */
module Storage {
  import opened Bytes

  /** One stored copy of a chunk on one provider. */
  datatype Replica = Replica(provider: string, locator: string, token: string)

  /** What the backend needs to reach a chunk. */
  datatype ChunkRef = ChunkRef(size: nat, replicas: seq<Replica>)

  datatype ReadResult = Got(data: bytes) | Failed(code: int)

  ghost predicate DistinctProviders(reps: seq<Replica>) {
    forall i, j :: 0 <= i < j < |reps| ==> reps[i].provider != reps[j].provider
  }
}
