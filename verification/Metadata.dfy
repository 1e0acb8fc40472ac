/**
 The metadata store: relational tables changed in transactions.  `Store` keeps the rows as the
 schema has them; `view` is what the rows mean, one version per object with its chunks and
 their replicas as lists.  That the rows keep representing such lists is the point: part
 sequence numbers and replica indices stay dense from 0 and no chunk row is ever left behind.
 */
module Metadata {
  import opened Bytes

  datatype Key = Key(bucket: string, key: string)

  datatype Replica = Replica(provider: string, locator: string, token: string, alive: bool)

  /** A chunk with the list of its replicas, in replica_idx order. */
  datatype Chunk = Chunk(size: nat, offset: nat, replicas: seq<Replica>)

  datatype Version = Version(size: nat, etag: string, chunks: seq<Chunk>)

  type View = map<Key, Version>

  datatype ObjectRow = ObjectRow(size: nat, etag: string)
  datatype ChunkRow = ChunkRow(size: nat, offset: nat)
  /** Chunk and replica rows belong to an owner: an object, or a part of a multipart upload. */
  datatype ChunkKey<K> = ChunkKey(obj: K, seqNo: nat)
  datatype ReplicaKey<K> = ReplicaKey(obj: K, seqNo: nat, idx: nat)

  type ChunkTable<!K(==)> = map<ChunkKey<K>, ChunkRow>
  type ReplicaTable<!K(==)> = map<ReplicaKey<K>, Replica>

  ghost predicate DistinctProviders(reps: seq<Replica>) {
    forall i, j :: 0 <= i < j < |reps| ==> reps[i].provider != reps[j].provider
  }

  // ---------------------------------------------------------------- what rows mean

  /** The chunk rows of one owner are `chunks`, numbered 0, 1, ... */
  ghost predicate ChunkRows<K>(t: ChunkTable<K>, k: K, chunks: seq<Chunk>) {
    && (forall i: nat :: ChunkKey(k, i) in t <==> i < |chunks|)
    && (forall i: nat :: i < |chunks| ==> t[ChunkKey(k, i)] == ChunkRow(chunks[i].size, chunks[i].offset))
  }

  /** The replica rows of one chunk are `reps`, numbered 0, 1, ... */
  ghost predicate ReplicaRows<K>(t: ReplicaTable<K>, k: K, i: nat, reps: seq<Replica>) {
    && (forall j: nat :: ReplicaKey(k, i, j) in t <==> j < |reps|)
    && (forall j: nat :: j < |reps| ==> t[ReplicaKey(k, i, j)] == reps[j])
  }

  /** The replica rows of every chunk in the list. */
  ghost predicate AllReplicaRows<K>(t: ReplicaTable<K>, k: K, chunks: seq<Chunk>) {
    forall i: nat :: i < |chunks| ==> ReplicaRows(t, k, i, chunks[i].replicas)
  }

  /**
   The rows of each owner are its chunk list.  Replica rows of a part number without a chunk row are
   not excluded: the store can write such rows, and nothing reads them.
   */
  ghost predicate RowsMean<K(!new)>(ct: ChunkTable<K>, rt: ReplicaTable<K>, of: K -> seq<Chunk>) {
    && (forall k :: ChunkRows(ct, k, of(k)))
    && (forall k :: AllReplicaRows(rt, k, of(k)))
  }

  function ChunksOf(v: View, k: Key): seq<Chunk> {
    if k in v then v[k].chunks else []
  }

  function ChunksIn(v: View): Key -> seq<Chunk> {
    (k: Key) => ChunksOf(v, k)
  }

  /** Chunk rows exist only for object rows, and the rows of each object are its version. */
  ghost predicate Represents(objects: map<Key, ObjectRow>, ct: ChunkTable<Key>, rt: ReplicaTable<Key>, v: View) {
    && objects.Keys == v.Keys
    && (forall k :: k in v ==> objects[k] == ObjectRow(v[k].size, v[k].etag))
    && RowsMean(ct, rt, ChunksIn(v))
  }

  // ---------------------------------------------------------------- the transactions on the view

  function PutV(v: View, k: Key, ver: Version): View {
    v[k := ver]
  }

  function WithReps(ver: Version, i: nat, reps: seq<Replica>): Version
    requires i < |ver.chunks|
  {
    ver.(chunks := ver.chunks[i := ver.chunks[i].(replicas := reps)])
  }

  predicate HasProvider(reps: seq<Replica>, p: string) {
    exists j :: 0 <= j < |reps| && reps[j].provider == p
  }

  /** A late replica: dropped unless the object still has the expected etag and the provider is new to the chunk. */
  function AppendV(v: View, k: Key, i: nat, r: Replica, etag: string): View {
    if k !in v || v[k].etag != etag || i >= |v[k].chunks| || HasProvider(v[k].chunks[i].replicas, r.provider) then v
    else v[k := WithReps(v[k], i, v[k].chunks[i].replicas + [r])]
  }

  function MarkDeadV(v: View, k: Key, i: nat, j: nat): View {
    if k !in v || i >= |v[k].chunks| || j >= |v[k].chunks[i].replicas| then v
    else
      var reps := v[k].chunks[i].replicas;
      v[k := WithReps(v[k], i, reps[j := reps[j].(alive := false)])]
  }

  function UpdateV(v: View, k: Key, i: nat, reps: seq<Replica>): View {
    if k !in v || i >= |v[k].chunks| then v else v[k := WithReps(v[k], i, reps)]
  }

  function DeleteV(v: View, k: Key): View {
    v - {k}
  }

  // ---------------------------------------------------------------- what a transaction changes

  /** Every other object is there iff it was, and as it was. */
  ghost predicate OthersKept(v: View, u: View, k: Key) {
    forall o :: o != k ==> (o in u <==> o in v) && (o in v ==> u[o] == v[o])
  }

  /** Nothing changed but the replicas of chunk i of the object, which now are `reps`. */
  ghost predicate RepsBecome(v: View, u: View, k: Key, i: nat, reps: seq<Replica>) {
    && OthersKept(v, u, k) && k in v && k in u
    && u[k].size == v[k].size && u[k].etag == v[k].etag && DifferAt(v[k].chunks, u[k].chunks, i)
    && i < |u[k].chunks| && u[k].chunks[i].replicas == reps
  }

  ghost predicate HasChunk(v: View, k: Key, i: nat) {
    k in v && i < |v[k].chunks|
  }

  // ---------------------------------------------------------------- statements on the tables

  function DropChunks<K(==)>(t: ChunkTable<K>, k: K): ChunkTable<K> {
    map x | x in t && x.obj != k :: t[x]
  }

  function DropReplicas<K(==)>(t: ReplicaTable<K>, k: K): ReplicaTable<K> {
    map x | x in t && x.obj != k :: t[x]
  }

  function DropChunkReplicas<K(==)>(t: ReplicaTable<K>, k: K, i: nat): ReplicaTable<K> {
    map x | x in t && !(x.obj == k && x.seqNo == i) :: t[x]
  }

  /** The tables agree on every row of another owner. */
  ghost predicate OtherChunkRows<K(!new)>(t: ChunkTable<K>, u: ChunkTable<K>, k: K) {
    forall x: ChunkKey<K> :: x.obj != k ==> (x in u <==> x in t) && (x in t ==> u[x] == t[x])
  }

  ghost predicate OtherReplicaRows<K(!new)>(t: ReplicaTable<K>, u: ReplicaTable<K>, k: K) {
    forall x: ReplicaKey<K> :: x.obj != k ==> (x in u <==> x in t) && (x in t ==> u[x] == t[x])
  }

  /** The tables agree on every row of another chunk. */
  ghost predicate OnlyChunk<K(!new)>(t: ReplicaTable<K>, u: ReplicaTable<K>, k: K, i: nat) {
    forall x: ReplicaKey<K> :: !(x.obj == k && x.seqNo == i) ==> (x in u <==> x in t) && (x in t ==> u[x] == t[x])
  }

  /** Inserts one row per replica, numbered from 0. */
  method InsertReplicas<K(==, !new)>(t: ReplicaTable<K>, k: K, i: nat, reps: seq<Replica>) returns (u: ReplicaTable<K>)
    requires forall j: nat :: ReplicaKey(k, i, j) !in t
    ensures ReplicaRows(u, k, i, reps)
    ensures OnlyChunk(t, u, k, i)
  {
    u := t;
    for j := 0 to |reps|
      invariant ReplicaRows(u, k, i, reps[..j])
      invariant OnlyChunk(t, u, k, i)
    {
      u := u[ReplicaKey(k, i, j) := reps[j]];
    }
    assert reps[..|reps|] == reps;
  }

  /** Deletes the owner's chunk map and writes the new one, chunk by chunk. */
  method ReplaceChunks<K(==, !new)>(ct: ChunkTable<K>, rt: ReplicaTable<K>, k: K, chunks: seq<Chunk>)
    returns (ct': ChunkTable<K>, rt': ReplicaTable<K>)
    ensures ChunkRows(ct', k, chunks) && AllReplicaRows(rt', k, chunks)
    ensures forall i: nat, j: nat :: i >= |chunks| ==> ReplicaKey(k, i, j) !in rt'
    ensures OtherChunkRows(ct, ct', k) && OtherReplicaRows(rt, rt', k)
  {
    ct', rt' := DropChunks(ct, k), DropReplicas(rt, k);
    for n := 0 to |chunks|
      invariant ChunkRows(ct', k, chunks[..n]) && AllReplicaRows(rt', k, chunks[..n])
      invariant forall i: nat, j: nat :: i >= n ==> ReplicaKey(k, i, j) !in rt'
      invariant OtherChunkRows(ct, ct', k) && OtherReplicaRows(rt, rt', k)
    {
      ct' := ct'[ChunkKey(k, n) := ChunkRow(chunks[n].size, chunks[n].offset)];
      ghost var was := rt';
      rt' := InsertReplicas(rt', k, n, chunks[n].replicas);
      OtherChunksKept(was, rt', k, chunks[..n], chunks[..n + 1]);
    }
    assert chunks[..|chunks|] == chunks;
  }

  lemma OtherChunksKept<K(!new)>(t: ReplicaTable<K>, u: ReplicaTable<K>, k: K, was: seq<Chunk>, now: seq<Chunk>)
    requires |now| == |was| + 1 && now[..|was|] == was && ReplicaRows(u, k, |was|, now[|was|].replicas)
    requires AllReplicaRows(t, k, was) && OnlyChunk(t, u, k, |was|)
    ensures AllReplicaRows(u, k, now)
  {
    forall i: nat | i < |now| ensures ReplicaRows(u, k, i, now[i].replicas) {
      if i < |was| {
        assert now[i] == was[i];
        assert ReplicaRows(t, k, i, was[i].replicas);
      }
    }
  }

  /** The replica rows of a chunk, in index order. */
  method ReadReplicas<K(==)>(rt: ReplicaTable<K>, k: K, i: nat, ghost all: seq<Replica>) returns (reps: seq<Replica>)
    requires ReplicaRows(rt, k, i, all)
    ensures reps == all
  {
    reps := [];
    while ReplicaKey(k, i, |reps|) in rt
      invariant |reps| <= |all| && reps == all[..|reps|]
      decreases |all| - |reps|
    {
      reps := reps + [rt[ReplicaKey(k, i, |reps|)]];
    }
  }

  /** The chunk rows of an owner in part order, each with its replicas in index order. */
  method ReadChunks<K(==)>(ct: ChunkTable<K>, rt: ReplicaTable<K>, k: K, ghost all: seq<Chunk>) returns (r: seq<Chunk>)
    requires ChunkRows(ct, k, all) && AllReplicaRows(rt, k, all)
    ensures r == all
  {
    r := [];
    while ChunkKey(k, |r|) in ct
      invariant |r| <= |all| && r == all[..|r|]
      decreases |all| - |r|
    {
      var row := ct[ChunkKey(k, |r|)];
      assert ReplicaRows(rt, k, |r|, all[|r|].replicas);
      var reps := ReadReplicas(rt, k, |r|, all[|r|].replicas);
      r := r + [Chunk(row.size, row.offset, reps)];
    }
  }

  /** One past the largest element, 0 for the empty set. */
  method NextAbove(s: set<nat>) returns (n: nat)
    ensures forall j :: j in s ==> j < n
    ensures n > 0 ==> n - 1 in s
  {
    var todo := s;
    n := 0;
    while todo != {}
      invariant todo <= s
      invariant forall j :: j in s ==> j in todo || j < n
      invariant n > 0 ==> n - 1 in s
      decreases |todo|
    {
      var j :| j in todo;
      todo := todo - {j};
      if j + 1 > n {
        n := j + 1;
      }
    }
  }

  // ---------------------------------------------------------------- the store

  class Store {
    var objects: map<Key, ObjectRow>
    var chunks: ChunkTable<Key>
    var replicas: ReplicaTable<Key>
    ghost var view: View

    ghost predicate Valid()
      reads this
    {
      Represents(objects, chunks, replicas, view)
    }

    constructor ()
      ensures Valid() && view == map[]
    {
      objects, chunks, replicas, view := map[], map[], map[], map[];
    }

    /** Upserts the object row and replaces the chunk map in one transaction. */
    method PutObject(k: Key, ver: Version)
      requires Valid()
      modifies this
      ensures Valid() && view == PutV(old(view), k, ver)
      ensures k in view && view[k] == ver && OthersKept(old(view), view, k)
    {
      objects := objects[k := ObjectRow(ver.size, ver.etag)];
      chunks, replicas := ReplaceChunks(chunks, replicas, k, ver.chunks);
      view := PutV(view, k, ver);
      OneOwnerChanged(old(chunks), chunks, old(replicas), replicas, ChunksIn(old(view)), ChunksIn(view), k);
    }

    method DeleteObject(k: Key)
      requires Valid()
      modifies this
      ensures Valid() && view == DeleteV(old(view), k)
      ensures k !in view && OthersKept(old(view), view, k)
      ensures forall x :: x in chunks ==> x.obj != k
      ensures forall x :: x in replicas ==> x.obj != k
    {
      objects, chunks, replicas := objects - {k}, DropChunks(chunks, k), DropReplicas(replicas, k);
      view := DeleteV(view, k);
      OneOwnerChanged(old(chunks), chunks, old(replicas), replicas, ChunksIn(old(view)), ChunksIn(view), k);
    }

    /** Replaces the replica rows of one chunk; where there is no such chunk, nobody will read them. */
    method UpdateChunkReplicas(k: Key, i: nat, reps: seq<Replica>)
      requires Valid()
      modifies this`replicas, this`view
      ensures Valid() && view == UpdateV(old(view), k, i, reps)
      ensures if HasChunk(old(view), k, i) then RepsBecome(old(view), view, k, i, reps) else view == old(view)
    {
      replicas := DropChunkReplicas(replicas, k, i);
      replicas := InsertReplicas(replicas, k, i, reps);
      view := UpdateV(view, k, i, reps);
      OneChunkChanged(chunks, old(replicas), replicas, ChunksIn(old(view)), ChunksIn(view), k, i);
    }

    /** Clears the alive flag of one replica row, if there is such a row. */
    method MarkReplicaDead(k: Key, i: nat, j: nat)
      requires Valid()
      modifies this`replicas, this`view
      ensures Valid() && view == MarkDeadV(old(view), k, i, j)
      ensures if HasChunk(old(view), k, i) && j < |old(view)[k].chunks[i].replicas| then
                var reps := old(view)[k].chunks[i].replicas;
                RepsBecome(old(view), view, k, i, reps[j := reps[j].(alive := false)])
              else view == old(view)
    {
      var key := ReplicaKey(k, i, j);
      ghost var all := ChunksIn(view)(k);
      assert i < |all| ==> ReplicaRows(replicas, k, i, all[i].replicas);
      if key in replicas {
        replicas := replicas[key := replicas[key].(alive := false)];
        view := MarkDeadV(view, k, i, j);
        OneChunkChanged(chunks, old(replicas), replicas, ChunksIn(old(view)), ChunksIn(view), k, i);
      }
    }

    /** The replica indices in use for a chunk. */
    function Indices(k: Key, i: nat): set<nat>
      reads this
    {
      set x | x in replicas && x.obj == k && x.seqNo == i :: x.idx
    }

    /** The replica index that comes next: no row has it, and it keeps the indices of a chunk dense. */
    method NextIndex(k: Key, i: nat) returns (n: nat)
      requires Valid()
      ensures ReplicaKey(k, i, n) !in replicas
      ensures i < |ChunksOf(view, k)| ==> n == |ChunksOf(view, k)[i].replicas|
    {
      n := NextAbove(Indices(k, i));
      assert ReplicaKey(k, i, n) in replicas ==> n in Indices(k, i);
      ghost var all := ChunksIn(view)(k);
      if i < |all| {
        ghost var reps := all[i].replicas;
        assert ReplicaRows(replicas, k, i, reps);
        assert |reps| > 0 ==> ReplicaKey(k, i, |reps| - 1) in replicas;
        assert |reps| > 0 ==> |reps| - 1 in Indices(k, i);
        assert n > 0 ==> ReplicaKey(k, i, n - 1) in replicas;
      }
    }

    /** The replica rows of a chunk, in index order. */
    method GetReplicas(k: Key, i: nat) returns (reps: seq<Replica>)
      requires Valid() && i < |ChunksOf(view, k)|
      ensures reps == ChunksOf(view, k)[i].replicas
    {
      ghost var all := ChunksIn(view)(k);
      assert ReplicaRows(replicas, k, i, all[i].replicas);
      reps := ReadReplicas(replicas, k, i, all[i].replicas);
    }

    /** The chunk map as it was stored: rows in part order, each with its replicas in index order. */
    method GetObjectChunks(k: Key) returns (r: seq<Chunk>)
      requires Valid()
      ensures r == ChunksOf(view, k)
      ensures r == if k in view then view[k].chunks else []
    {
      r := ReadChunks(chunks, replicas, k, ChunksIn(view)(k));
    }

    /** Whether the provider already has a replica row for the part number. */
    method IsDuplicate(k: Key, i: nat, provider: string) returns (dup: bool)
      requires Valid()
      ensures i < |ChunksOf(view, k)| ==> (dup <==> HasProvider(ChunksOf(view, k)[i].replicas, provider))
    {
      var rows := set x | x in replicas && x.obj == k && x.seqNo == i && replicas[x].provider == provider;
      dup := rows != {};
      ghost var all := ChunksIn(view)(k);
      if i < |all| {
        ghost var reps := all[i].replicas;
        assert ReplicaRows(replicas, k, i, reps);
        if dup {
          ghost var x :| x in rows;
          assert x == ReplicaKey(k, i, x.idx) && reps[x.idx].provider == provider;
        } else {
          forall j | 0 <= j < |reps| ensures reps[j].provider != provider {
            assert ReplicaKey(k, i, j) !in rows;
          }
        }
      }
    }

    /** Adds one late replica, guarded by the etag and by the provider. */
    method AppendChunkReplica(k: Key, i: nat, r: Replica, etag: string)
      requires Valid()
      modifies this`replicas, this`view
      ensures Valid() && view == AppendV(old(view), k, i, r, etag)
      ensures if && HasChunk(old(view), k, i) && old(view)[k].etag == etag
                 && forall j :: 0 <= j < |old(view)[k].chunks[i].replicas| ==>
                      old(view)[k].chunks[i].replicas[j].provider != r.provider
              then RepsBecome(old(view), view, k, i, old(view)[k].chunks[i].replicas + [r])
              else view == old(view)
    {
      if k !in objects || objects[k].etag != etag {
        return;
      }
      var dup := IsDuplicate(k, i, r.provider);
      if dup {
        return;
      }
      var n := NextIndex(k, i);
      ghost var all := ChunksIn(view)(k);
      assert i < |all| ==> ReplicaRows(replicas, k, i, all[i].replicas);
      replicas := replicas[ReplicaKey(k, i, n) := r];
      view := AppendV(view, k, i, r, etag);
      OneChunkChanged(chunks, old(replicas), replicas, ChunksIn(old(view)), ChunksIn(view), k, i);
    }
  }

  /** The rows of one owner were replaced. */
  lemma OneOwnerChanged<K(!new)>(ct: ChunkTable<K>, ct': ChunkTable<K>, rt: ReplicaTable<K>, rt': ReplicaTable<K>,
                                     f: K -> seq<Chunk>, g: K -> seq<Chunk>, k: K)
    requires RowsMean(ct, rt, f) && forall o :: o != k ==> g(o) == f(o)
    requires ChunkRows(ct', k, g(k)) && AllReplicaRows(rt', k, g(k))
    requires OtherChunkRows(ct, ct', k) && OtherReplicaRows(rt, rt', k)
    ensures RowsMean(ct', rt', g)
  {
    forall o ensures ChunkRows(ct', o, g(o)) {
      if o != k { assert ChunkRows(ct, o, f(o)); }
    }
    forall o ensures AllReplicaRows(rt', o, g(o)) {
      if o != k {
        assert AllReplicaRows(rt, o, f(o));
        forall i: nat | i < |f(o)| ensures ReplicaRows(rt', o, i, f(o)[i].replicas) {
          assert ReplicaRows(rt, o, i, f(o)[i].replicas);
        }
      }
    }
  }

  /** The lists differ in the replicas of chunk i at most. */
  ghost predicate DifferAt(a: seq<Chunk>, b: seq<Chunk>, i: nat) {
    && |b| == |a|
    && forall n :: 0 <= n < |a| ==>
         (n != i ==> b[n] == a[n]) && b[n].size == a[n].size && b[n].offset == a[n].offset
  }

  /** The replica rows of one part number were changed. */
  lemma OneChunkChanged<K(!new)>(ct: ChunkTable<K>, rt: ReplicaTable<K>, rt': ReplicaTable<K>,
                                     f: K -> seq<Chunk>, g: K -> seq<Chunk>, k: K, i: nat)
    requires RowsMean(ct, rt, f) && (forall o :: o != k ==> g(o) == f(o)) && DifferAt(f(k), g(k), i)
    requires i < |g(k)| ==> ReplicaRows(rt', k, i, g(k)[i].replicas)
    requires OnlyChunk(rt, rt', k, i)
    ensures RowsMean(ct, rt', g)
  {
    forall o ensures ChunkRows(ct, o, g(o)) {
      assert ChunkRows(ct, o, f(o));
    }
    forall o ensures AllReplicaRows(rt', o, g(o)) {
      assert AllReplicaRows(rt, o, f(o));
      forall n: nat | n < |g(o)| ensures ReplicaRows(rt', o, n, g(o)[n].replicas) {
        assert ReplicaRows(rt, o, n, f(o)[n].replicas);
      }
    }
  }
}
