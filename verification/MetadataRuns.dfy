/** What every interleaving of store transactions keeps: rows always locate the current version's own bytes. */
module MetadataRuns {
  import opened Bytes
  import opened Splitting
  import opened Metadata

  /**
   The world the store describes.  A locator determines the bytes stored there (uploads get
   fresh locators); an etag determines the object's bytes; `plain` tells the etags of plain
   PUTs from those of multipart objects; plain PUTs cut bodies every `cs` bytes.
   */
  datatype World = World(blob: string -> bytes, body: string -> bytes, plain: string -> bool, cs: nat)

  /** The chunks lie end to end and cover [0, size). */
  ghost predicate Tiled(chunks: seq<Chunk>, size: nat) {
    && (chunks == [] ==> size == 0)
    && (chunks != [] ==>
          chunks[0].offset == 0 && chunks[|chunks| - 1].offset + chunks[|chunks| - 1].size == size)
    && (forall i :: 0 <= i < |chunks| - 1 ==> chunks[i + 1].offset == chunks[i].offset + chunks[i].size)
  }

  /** Every replica of the chunk holds obj[offset .. offset + size). */
  ghost predicate Locates(w: World, obj: bytes, c: Chunk) {
    && c.offset + c.size <= |obj|
    && forall j :: 0 <= j < |c.replicas| ==> w.blob(c.replicas[j].locator) == obj[c.offset..c.offset + c.size]
  }

  ghost function Cuts(w: World, etag: string): seq<Piece>
    requires w.cs > 0
  {
    Layout(Split(w.body(etag), w.cs), 0, 0)
  }

  /** A plain object's chunks are where the upload loop puts them. */
  ghost predicate CutAsUploaded(w: World, ver: Version)
    requires w.cs > 0
  {
    && |ver.chunks| == |Cuts(w, ver.etag)|
    && forall i :: 0 <= i < |ver.chunks| ==>
         ver.chunks[i].offset == Cuts(w, ver.etag)[i].offset && ver.chunks[i].size == |Cuts(w, ver.etag)[i].data|
  }

  ghost predicate GoodChunks(w: World, obj: bytes, chunks: seq<Chunk>) {
    forall i :: 0 <= i < |chunks| ==> Locates(w, obj, chunks[i]) && DistinctProviders(chunks[i].replicas)
  }

  ghost predicate GoodVersion(w: World, ver: Version)
    requires w.cs > 0
  {
    && ver.size == |w.body(ver.etag)|
    && Tiled(ver.chunks, ver.size)
    && GoodChunks(w, w.body(ver.etag), ver.chunks)
    && (w.plain(ver.etag) ==> CutAsUploaded(w, ver))
  }

  ghost predicate Good(w: World, v: View)
    requires w.cs > 0
  {
    forall k :: k in v ==> GoodVersion(w, v[k])
  }

  // ---------------------------------------------------------------- runs

  datatype Op =
    | Put(k: Key, ver: Version)
    | Finalize(k: Key, ver: Version)
    | Append(k: Key, i: nat, r: Replica, etag: string)
    | MarkDead(k: Key, i: nat, j: nat)
    | Repair(k: Key, i: nat, reps: seq<Replica>)
    | Delete(k: Key)

  /** What each caller brings: a put stores what it uploaded, a late replica is chunk i of the body its PUT had. */
  ghost predicate Legit(w: World, v: View, op: Op)
    requires w.cs > 0
  {
    match op
    case Put(k, ver) => w.plain(ver.etag) && GoodVersion(w, ver)
    case Finalize(k, ver) => !w.plain(ver.etag) && GoodVersion(w, ver)
    case Append(k, i, r, etag) =>
      w.plain(etag) && i < |Cuts(w, etag)| && w.blob(r.locator) == Cuts(w, etag)[i].data
    case MarkDead(k, i, j) => true
    case Repair(k, i, reps) =>
      && k in v && i < |v[k].chunks| && DistinctProviders(reps)
      && Locates(w, w.body(v[k].etag), v[k].chunks[i].(replicas := reps))
    case Delete(k) => true
  }

  function Apply(v: View, op: Op): View {
    match op
    case Put(k, ver) => PutV(v, k, ver)
    case Finalize(k, ver) => PutV(v, k, ver)
    case Append(k, i, r, etag) => AppendV(v, k, i, r, etag)
    case MarkDead(k, i, j) => MarkDeadV(v, k, i, j)
    case Repair(k, i, reps) => UpdateV(v, k, i, reps)
    case Delete(k) => DeleteV(v, k)
  }

  /** The view after a run; an operation its caller could not bring about is skipped. */
  ghost function Run(w: World, ops: seq<Op>): View
    requires w.cs > 0
  {
    if ops == [] then map[]
    else
      var v := Run(w, ops[..|ops| - 1]);
      if Legit(w, v, ops[|ops| - 1]) then Apply(v, ops[|ops| - 1]) else v
  }

  /** Deletions and liveness marks can always come, and what can come takes effect. */
  lemma {:induction false} RunGoesOn(w: World, ops: seq<Op>, op: Op)
    requires w.cs > 0 && (op.Delete? || op.MarkDead? || Legit(w, Run(w, ops), op))
    ensures Run(w, ops + [op]) == Apply(Run(w, ops), op)
    ensures op.Delete? ==> op.k !in Run(w, ops + [op]) && OthersKept(Run(w, ops), Run(w, ops + [op]), op.k)
    ensures op.Put? || op.Finalize? ==>
              && op.k in Run(w, ops + [op]) && Run(w, ops + [op])[op.k] == op.ver
              && OthersKept(Run(w, ops), Run(w, ops + [op]), op.k)
  {
    assert (ops + [op])[..|ops|] == ops;
  }

  lemma GoodWithReps(w: World, ver: Version, i: nat, reps: seq<Replica>)
    requires w.cs > 0 && GoodVersion(w, ver) && i < |ver.chunks| && DistinctProviders(reps)
    requires Locates(w, w.body(ver.etag), ver.chunks[i].(replicas := reps))
    ensures GoodVersion(w, WithReps(ver, i, reps))
  {
    var u := WithReps(ver, i, reps);
    assert forall n :: 0 <= n < |ver.chunks| ==>
        u.chunks[n].offset == ver.chunks[n].offset && u.chunks[n].size == ver.chunks[n].size;
  }

  /** Chunk i of a plain version is exactly what the upload loop cut as piece i. */
  lemma PlainSlice(w: World, ver: Version, i: nat)
    requires w.cs > 0 && GoodVersion(w, ver) && w.plain(ver.etag) && i < |ver.chunks|
    ensures var c := ver.chunks[i];
            c.offset + c.size <= |w.body(ver.etag)|
            && w.body(ver.etag)[c.offset..c.offset + c.size] == Cuts(w, ver.etag)[i].data
  {
    var parts := Split(w.body(ver.etag), w.cs);
    SplitConcat(w.body(ver.etag), w.cs);
    assert [] + Concat(parts) == w.body(ver.etag);
    LayoutSlices(parts, 0, [], i);
  }

  /**
   A late replica that passes the etag guard holds the right bytes even if another PUT of the same body came between.
   */
  lemma AppendKeeps(w: World, v: View, k: Key, i: nat, r: Replica, etag: string)
    requires w.cs > 0 && Good(w, v) && Legit(w, v, Append(k, i, r, etag))
    ensures Good(w, AppendV(v, k, i, r, etag))
    ensures k in v && v[k].etag == etag ==> i < |v[k].chunks|
  {
    if k in v && v[k].etag == etag && !HasProvider(v[k].chunks[i].replicas, r.provider) {
      PlainSlice(w, v[k], i);
      GoodWithReps(w, v[k], i, v[k].chunks[i].replicas + [r]);
    }
  }

  lemma MarkDeadKeeps(w: World, v: View, k: Key, i: nat, j: nat)
    requires w.cs > 0 && Good(w, v)
    ensures Good(w, MarkDeadV(v, k, i, j))
  {
    if k in v && i < |v[k].chunks| && j < |v[k].chunks[i].replicas| {
      var reps := v[k].chunks[i].replicas;
      GoodWithReps(w, v[k], i, reps[j := reps[j].(alive := false)]);
    }
  }

  lemma RepairKeeps(w: World, v: View, k: Key, i: nat, reps: seq<Replica>)
    requires w.cs > 0 && Good(w, v) && Legit(w, v, Repair(k, i, reps))
    ensures Good(w, UpdateV(v, k, i, reps))
  {
    GoodWithReps(w, v[k], i, reps);
  }

  /** The version a plain PUT writes: the pieces of its body with the replicas that hold them. */
  ghost function Uploaded(w: World, etag: string, reps: seq<seq<Replica>>): Version
    requires w.cs > 0 && |reps| == |Cuts(w, etag)|
  {
    Version(|w.body(etag)|, etag,
            seq(|reps|, i requires 0 <= i < |reps| => Chunk(|Cuts(w, etag)[i].data|, Cuts(w, etag)[i].offset, reps[i])))
  }

  lemma UploadedIsGood(w: World, etag: string, reps: seq<seq<Replica>>)
    requires w.cs > 0 && |reps| == |Cuts(w, etag)|
    requires forall i :: 0 <= i < |reps| ==> DistinctProviders(reps[i])
    requires forall i, j :: 0 <= i < |reps| && 0 <= j < |reps[i]| ==>
               w.blob(reps[i][j].locator) == Cuts(w, etag)[i].data
    ensures GoodVersion(w, Uploaded(w, etag, reps))
  {
    var body, ver := w.body(etag), Uploaded(w, etag, reps);
    CutsTile(w, etag);
    forall i: nat | i < |reps| ensures Locates(w, body, ver.chunks[i]) {
      CutSlices(w, etag, i);
    }
  }

  lemma CutsTile(w: World, etag: string)
    requires w.cs > 0
    ensures var l, body := Cuts(w, etag), w.body(etag);
            && (|l| == 0 <==> body == [])
            && (|l| > 0 ==> l[0].offset == 0 && l[|l| - 1].offset + |l[|l| - 1].data| == |body|)
            && (forall i :: 0 <= i < |l| - 1 ==> l[i + 1].offset == l[i].offset + |l[i].data|)
  {
    var parts := Split(w.body(etag), w.cs);
    SplitConcat(w.body(etag), w.cs);
    LayoutTiles(parts, 0, 0);
  }

  lemma CutSlices(w: World, etag: string, i: nat)
    requires w.cs > 0 && i < |Cuts(w, etag)|
    ensures var p, body := Cuts(w, etag)[i], w.body(etag);
            p.offset + |p.data| <= |body| && body[p.offset..p.offset + |p.data|] == p.data
  {
    var parts := Split(w.body(etag), w.cs);
    SplitConcat(w.body(etag), w.cs);
    assert [] + Concat(parts) == w.body(etag);
    LayoutSlices(parts, 0, [], i);
  }

  /** Over every run, every object's chunks tile it and every replica row locates that slice of the current version. */
  lemma {:induction false} RunsStayGood(w: World, ops: seq<Op>)
    requires w.cs > 0
    ensures Good(w, Run(w, ops))
  {
    if ops != [] {
      var v, op := Run(w, ops[..|ops| - 1]), ops[|ops| - 1];
      RunsStayGood(w, ops[..|ops| - 1]);
      if Legit(w, v, op) {
        match op
        case Append(k, i, r, etag) => AppendKeeps(w, v, k, i, r, etag);
        case MarkDead(k, i, j) => MarkDeadKeeps(w, v, k, i, j);
        case Repair(k, i, reps) => RepairKeeps(w, v, k, i, reps);
        case _ =>
      }
    }
  }

  /**
   Writing repaired replicas back has no etag guard.  It keeps the object good exactly when the
   bytes that were repaired are still the bytes of that chunk of the version stored by then.
   */
  lemma RepairWriteBack(w: World, v: View, k: Key, i: nat, reps: seq<Replica>, repaired: bytes)
    requires w.cs > 0 && Good(w, v) && k in v && i < |v[k].chunks|
    requires reps != [] && DistinctProviders(reps)
    requires forall j :: 0 <= j < |reps| ==> w.blob(reps[j].locator) == repaired
    ensures var c := v[k].chunks[i];
            Good(w, UpdateV(v, k, i, reps)) <==> repaired == w.body(v[k].etag)[c.offset..c.offset + c.size]
  {
    var c := v[k].chunks[i];
    var u := UpdateV(v, k, i, reps);
    if repaired == w.body(v[k].etag)[c.offset..c.offset + c.size] {
      GoodWithReps(w, v[k], i, reps);
    } else {
      assert u[k].chunks[i].replicas == reps && w.blob(reps[0].locator) == repaired;
      assert !Locates(w, w.body(u[k].etag), u[k].chunks[i]);
    }
  }
}
