/**
 The sweep with its window open: it reads a chunk's rows, repairs, and writes back later, while any
 other transactions come between.  The store's write-back has no guard; with one, nothing can go wrong.
 */
module RepairRuns {
  import opened Bytes
  import opened Splitting
  import opened Metadata
  import opened MetadataRuns

  /** What the sweep saw of a chunk when it read it. */
  datatype Seen = Seen(k: Key, i: nat, etag: string, offset: nat, size: nat)

  datatype Step =
    | Tx(op: Op)
    | ReadChunk(id: nat, k: Key, i: nat)
    | WriteBack(id: nat, reps: seq<Replica>)

  datatype State = State(view: View, seen: map<nat, Seen>)

  /** The chunk is still the one that was seen: same ETag, same place in the object. */
  predicate Current(v: View, s: Seen) {
    && s.k in v && v[s.k].etag == s.etag && s.i < |v[s.k].chunks|
    && v[s.k].chunks[s.i].offset == s.offset && v[s.k].chunks[s.i].size == s.size
  }

  /** The repaired replicas are on distinct providers and hold the bytes that were seen. */
  ghost predicate Repaired(w: World, s: Seen, reps: seq<Replica>) {
    && DistinctProviders(reps) && s.offset + s.size <= |w.body(s.etag)|
    && forall j :: 0 <= j < |reps| ==> w.blob(reps[j].locator) == w.body(s.etag)[s.offset..s.offset + s.size]
  }

  ghost predicate Possible(w: World, s: State, step: Step)
    requires w.cs > 0
  {
    match step
    case Tx(op) => Legit(w, s.view, op)
    case ReadChunk(id, k, i) => id !in s.seen && k in s.view && i < |s.view[k].chunks|
    case WriteBack(id, reps) => id in s.seen && Repaired(w, s.seen[id], reps)
  }

  function SeenIn(v: View, k: Key, i: nat): Seen
    requires k in v && i < |v[k].chunks|
  {
    Seen(k, i, v[k].etag, v[k].chunks[i].offset, v[k].chunks[i].size)
  }

  /** The code writes back as it is; `guarded` is the write-back that first looks whether the chunk is current. */
  ghost function Next(w: World, guarded: bool, s: State, step: Step): State
    requires w.cs > 0 && Possible(w, s, step)
  {
    match step
    case Tx(op) => s.(view := Apply(s.view, op))
    case ReadChunk(id, k, i) => s.(seen := s.seen[id := SeenIn(s.view, k, i)])
    case WriteBack(id, reps) =>
      var x := s.seen[id];
      State(if guarded && !Current(s.view, x) then s.view else UpdateV(s.view, x.k, x.i, reps), s.seen - {id})
  }

  ghost function Exec(w: World, guarded: bool, steps: seq<Step>): State
    requires w.cs > 0
  {
    if steps == [] then State(map[], map[])
    else
      var s := Exec(w, guarded, steps[..|steps| - 1]);
      if Possible(w, s, steps[|steps| - 1]) then Next(w, guarded, s, steps[|steps| - 1]) else s
  }

  // ---------------------------------------------------------------- the guarded sweep

  /** A chunk that was seen of a plain object lies where the upload loop put it. */
  ghost predicate SeenAsCut(w: World, s: Seen)
    requires w.cs > 0
  {
    w.plain(s.etag) ==>
      s.i < |Cuts(w, s.etag)| && s.offset == Cuts(w, s.etag)[s.i].offset && s.size == |Cuts(w, s.etag)[s.i].data|
  }

  lemma CurrentWriteBack(w: World, v: View, s: Seen, reps: seq<Replica>)
    requires w.cs > 0 && Good(w, v) && Current(v, s) && Repaired(w, s, reps)
    ensures Good(w, UpdateV(v, s.k, s.i, reps))
  {
    RepairKeeps(w, v, s.k, s.i, reps);
  }

  lemma OpKeeps(w: World, v: View, op: Op)
    requires w.cs > 0 && Good(w, v) && Legit(w, v, op)
    ensures Good(w, Apply(v, op))
  {
    match op
    case Append(k, i, r, etag) => AppendKeeps(w, v, k, i, r, etag);
    case MarkDead(k, i, j) => MarkDeadKeeps(w, v, k, i, j);
    case Repair(k, i, reps) => RepairKeeps(w, v, k, i, reps);
    case _ =>
  }

  /** With the guard, every interleaving of sweeps and transactions keeps every row on its object's own bytes. */
  lemma {:induction false} GuardedStaysGood(w: World, steps: seq<Step>)
    requires w.cs > 0
    ensures Good(w, Exec(w, true, steps).view)
    ensures forall id :: id in Exec(w, true, steps).seen ==> SeenAsCut(w, Exec(w, true, steps).seen[id])
  {
    if steps != [] {
      var s, step := Exec(w, true, steps[..|steps| - 1]), steps[|steps| - 1];
      GuardedStaysGood(w, steps[..|steps| - 1]);
      if Possible(w, s, step) {
        match step
        case Tx(op) => OpKeeps(w, s.view, op);
        case ReadChunk(id, k, i) => SeenIsCut(w, s.view, k, i);
        case WriteBack(id, reps) =>
          if Current(s.view, s.seen[id]) { CurrentWriteBack(w, s.view, s.seen[id], reps); }
      }
    }
  }

  /** The guarded write-back installs the repaired replicas of a current chunk and otherwise does nothing. */
  lemma GuardedWrites(w: World, s: State, id: nat, reps: seq<Replica>)
    requires w.cs > 0 && Possible(w, s, WriteBack(id, reps))
    ensures var x, u := s.seen[id], Next(w, true, s, WriteBack(id, reps)).view;
            if Current(s.view, x) then RepsBecome(s.view, u, x.k, x.i, reps) else u == s.view
  {
  }

  lemma SeenIsCut(w: World, v: View, k: Key, i: nat)
    requires w.cs > 0 && Good(w, v) && k in v && i < |v[k].chunks|
    ensures SeenAsCut(w, SeenIn(v, k, i))
  {
    assert GoodVersion(w, v[k]);
  }

  /** For a plain object the ETag alone decides: it is all a guard needs to compare. */
  lemma EtagDecides(w: World, v: View, s: Seen)
    requires w.cs > 0 && Good(w, v) && w.plain(s.etag) && SeenAsCut(w, s)
    ensures Current(v, s) <==> s.k in v && v[s.k].etag == s.etag
  {
    if s.k in v && v[s.k].etag == s.etag {
      assert GoodVersion(w, v[s.k]);
    }
  }

  // ---------------------------------------------------------------- the sweep as it is

  /** A version is put, the sweep reads chunk i, another version is put, and the sweep writes back. */
  function Race(k: Key, a: Version, i: nat, b: Version, reps: seq<Replica>): seq<Step> {
    [Tx(Put(k, a)), ReadChunk(0, k, i), Tx(Put(k, b)), WriteBack(0, reps)]
  }

  ghost predicate Uploads(w: World, k: Key, a: Version, i: nat, b: Version, reps: seq<Replica>)
    requires w.cs > 0
  {
    && w.plain(a.etag) && GoodVersion(w, a) && w.plain(b.etag) && GoodVersion(w, b)
    && i < |a.chunks| && i < |b.chunks| && reps != [] && Repaired(w, SeenIn(map[k := a], k, i), reps)
  }

  ghost function Slice(w: World, ver: Version, i: nat): bytes
    requires w.cs > 0 && GoodVersion(w, ver) && i < |ver.chunks|
  {
    w.body(ver.etag)[ver.chunks[i].offset..ver.chunks[i].offset + ver.chunks[i].size]
  }

  lemma RaceEnds(w: World, k: Key, a: Version, i: nat, b: Version, reps: seq<Replica>)
    requires w.cs > 0 && Uploads(w, k, a, i, b, reps)
    ensures Exec(w, false, Race(k, a, i, b, reps)).view == UpdateV(map[k := b], k, i, reps)
  {
    var r := Race(k, a, i, b, reps);
    assert r[..1][..0] == [] && r[..2][..1] == r[..1] && r[..3][..2] == r[..2] && r[..4][..3] == r[..3] && r[..4] == r;
    assert Exec(w, false, r[..1]) == State(map[k := a], map[]);
    assert Exec(w, false, r[..2]) == State(map[k := a], map[0 := SeenIn(map[k := a], k, i)]);
    assert Exec(w, false, r[..3]) == State(map[k := b], map[0 := SeenIn(map[k := a], k, i)]);
  }

  /** Without a guard, this run ends with wrong rows exactly when chunk i of the two versions differs. */
  lemma UnguardedRace(w: World, k: Key, a: Version, i: nat, b: Version, reps: seq<Replica>)
    requires w.cs > 0 && Uploads(w, k, a, i, b, reps)
    ensures Good(w, Exec(w, false, Race(k, a, i, b, reps)).view) <==> Slice(w, a, i) == Slice(w, b, i)
  {
    RaceEnds(w, k, a, i, b, reps);
    RepairWriteBack(w, map[k := b], k, i, reps, Slice(w, a, i));
  }

  /** A world in which it happens: two one-byte bodies under one key. */
  function TwoBodies(): World {
    World((l: string) => if l == "a" then [1] else [2], (e: string) => if e == "a" then [1] else [2],
          (e: string) => true, 1)
  }

  function OneByte(name: string): Version {
    Version(1, name, [Chunk(1, 0, [Replica("host", name, "", true)])])
  }

  lemma OneByteIsGood(name: string)
    ensures GoodVersion(TwoBodies(), OneByte(name))
  {
    var w := TwoBodies();
    var body := w.body(name);
    assert body[..1] == body && body[1..] == [];
    assert Split(body, 1) == [body] + Split([], 1) == [body];
    assert Layout([body], 0, 0) == [Piece(0, 0, body)];
    assert Cuts(w, name) == [Piece(0, 0, body)];
    assert body[0..1] == body;
  }

  lemma UnguardedBreaks(k: Key)
    ensures var run := Race(k, OneByte("a"), 0, OneByte("b"), OneByte("a").chunks[0].replicas);
            !Good(TwoBodies(), Exec(TwoBodies(), false, run).view)
  {
    var w, a, b := TwoBodies(), OneByte("a"), OneByte("b");
    OneByteIsGood("a");
    OneByteIsGood("b");
    assert w.body("a")[0..1] == [1] && w.body("b")[0..1] == [2];
    UnguardedRace(w, k, a, 0, b, a.chunks[0].replicas);
  }
}
