/** A PUT from the request body to the committed rows, and the GET that reads it back. */
module PutThenGet {
  import opened Bytes
  import opened Splitting
  import opened RequestBody
  import U = Uploading
  import R = Replication
  import S = Storage
  import opened Metadata
  import opened MetadataRuns
  import opened Conversion
  import P = Prefetch
  import PP = PrefetchProgress
  import E = EndToEnd
  import C = ChunkSource

  // ---------------------------------------------------------------- what the upload hands over

  /**
   The hosts an upload meets: an accepted chunk is stored under its locator as it is, and different
   candidates are different providers.
   */
  ghost predicate HonestNet(w: World, net: U.Net) {
    && (forall p: Piece, i: nat :: net.attempt(p)(i).Some? ==> w.blob(net.attempt(p)(i).value.locator) == p.data)
    && (forall p: Piece, i: nat, j: nat :: i != j && net.attempt(p)(i).Some? && net.attempt(p)(j).Some? ==>
          net.attempt(p)(i).value.provider != net.attempt(p)(j).value.provider)
  }

  /** The replicas hold the piece and are on distinct providers, early and late ones together. */
  ghost predicate Holds(w: World, p: Piece, s: U.Stored) {
    && S.DistinctProviders(s.replicas + s.late)
    && forall j :: 0 <= j < |s.replicas + s.late| ==> w.blob((s.replicas + s.late)[j].locator) == p.data
  }

  lemma SettledHolds(w: World, net: U.Net, p: Piece, s: U.Stored)
    requires HonestNet(w, net) && U.Settled(net, p, s)
    ensures Holds(w, p, s)
  {
    var first, later, tried :| U.SettledBy(net, p, s, first, later, tried);
    var ids, reps := first + later, s.replicas + s.late;
    AttemptsAt(net.attempt(p), first, later, s);
    forall j | 0 <= j < |reps| ensures w.blob(reps[j].locator) == p.data {
      assert net.attempt(p)(ids[j]) == Some(reps[j]);
    }
    forall i, j | 0 <= i < j < |reps| ensures reps[i].provider != reps[j].provider {
      assert ids[i] != ids[j];
      assert net.attempt(p)(ids[i]) == Some(reps[i]) && net.attempt(p)(ids[j]) == Some(reps[j]);
    }
  }

  lemma AttemptsAt(attempt: R.Attempt, first: seq<nat>, later: seq<nat>, s: U.Stored)
    requires R.ReplicasOf(attempt, first, s.replicas) && R.ReplicasOf(attempt, later, s.late)
    ensures R.ReplicasOf(attempt, first + later, s.replicas + s.late)
  {
  }

  /** Freshly uploaded replicas as rows: all alive. */
  function AsRows(reps: seq<S.Replica>): seq<Replica> {
    seq(|reps|, j requires 0 <= j < |reps| => Replica(reps[j].provider, reps[j].locator, reps[j].token, true))
  }

  function RowsOf(stored: seq<U.Stored>): seq<seq<Replica>> {
    seq(|stored|, i requires 0 <= i < |stored| => AsRows(stored[i].replicas))
  }

  /** The chunk map a PUT commits. */
  function ToMetaChunks(pieces: seq<Piece>, stored: seq<U.Stored>): seq<Chunk>
    requires |stored| == |pieces|
  {
    seq(|pieces|, i requires 0 <= i < |pieces| => Chunk(|pieces[i].data|, pieces[i].offset, AsRows(stored[i].replicas)))
  }

  function Joined(pieces: seq<Piece>): bytes {
    if pieces == [] then [] else pieces[0].data + Joined(pieces[1..])
  }

  lemma {:induction false} JoinedIsConcat(parts: seq<bytes>, first: nat, offset: nat)
    ensures Joined(Layout(parts, first, offset)) == Concat(parts)
    decreases |parts|
  {
    if parts != [] {
      JoinedIsConcat(parts[1..], first + 1, offset + |parts[0]|);
      assert Layout(parts, first, offset)[1..] == Layout(parts[1..], first + 1, offset + |parts[0]|);
    }
  }

  /** The hashed bytes are the payload. */
  lemma JoinedIsPayload(payload: bytes, cs: nat)
    requires cs > 0
    ensures Joined(Layout(Split(payload, cs), 0, 0)) == payload
  {
    JoinedIsConcat(Split(payload, cs), 0, 0);
    SplitConcat(payload, cs);
  }

  // ---------------------------------------------------------------- the PUT

  datatype PutResult = Committed(etag: string, stored: seq<U.Stored>) | BadBody | BadGateway | SizeMismatch

  /** The ETag of a body determines it, and is a plain one. */
  ghost predicate Hashes(w: World, hash: bytes -> string, payload: bytes) {
    w.body(hash(payload)) == payload && w.plain(hash(payload))
  }

  /** The rows a PUT commits, seen as the version the store run puts. */
  lemma CommitsUploaded(w: World, etag: string, net: U.Net, pieces: seq<Piece>, stored: seq<U.Stored>)
    requires w.cs > 0 && w.plain(etag) && pieces == Cuts(w, etag) && HonestNet(w, net)
             && U.AllSettled(net, pieces, stored)
    ensures Version(|w.body(etag)|, etag, ToMetaChunks(pieces, stored)) == Uploaded(w, etag, RowsOf(stored))
    ensures GoodVersion(w, Uploaded(w, etag, RowsOf(stored)))
  {
    var reps := RowsOf(stored);
    forall i | 0 <= i < |stored|
      ensures DistinctProviders(reps[i])
      ensures forall j :: 0 <= j < |reps[i]| ==> w.blob(reps[i][j].locator) == Cuts(w, etag)[i].data
    {
      SettledHolds(w, net, pieces[i], stored[i]);
      EarlyRows(w, pieces[i], stored[i]);
    }
    UploadedIsGood(w, etag, reps);
    assert ToMetaChunks(pieces, stored) == Uploaded(w, etag, reps).chunks;
  }

  lemma EarlyRows(w: World, p: Piece, s: U.Stored)
    requires Holds(w, p, s)
    ensures DistinctProviders(AsRows(s.replicas))
    ensures forall j :: 0 <= j < |s.replicas| ==> w.blob(AsRows(s.replicas)[j].locator) == p.data
  {
    assert forall j :: 0 <= j < |s.replicas| ==> (s.replicas + s.late)[j] == s.replicas[j];
  }

  /** Uploads the body, checks its declared length, and commits the object under its ETag. */
  method Put(store: Store, k: Key, body: Body, cs: nat, net: U.Net, cancellable: bool, declared: bytes,
             hash: bytes -> string, ghost w: World) returns (r: PutResult)
    requires store.Valid() && body.Valid() && body.count == 0 && cs > 0 && cs == w.cs && net.replicas >= 1
    requires HonestNet(w, net) && Hashes(w, hash, body.Meaning(cs).payload)
    modifies store, body
    ensures store.Valid()
    ensures !r.Committed? ==> store.view == old(store.view)
    ensures var was := old(body.Meaning(cs));
            && (r.Committed? || r.SizeMismatch? ==> was.end.Clean? || was.end.CutOff?)
            && (r.BadBody? ==> was.end.Truncated? || was.end.Garbled?)
            && (r.SizeMismatch? ==> !U.DeclaredSizeOk(declared, |was.payload|))
    ensures !r.Committed? && !cancellable ==>
              var was := old(body.Meaning(cs));
              || !U.Verdict(was.end).Done? || !U.DeclaredSizeOk(declared, |was.payload|)
              || exists p :: p in Cuts(w, hash(was.payload)) && !U.Taken(net, p)
    ensures r.Committed? ==>
              var was := old(body.Meaning(cs));
              && U.Verdict(was.end).Done? && U.DeclaredSizeOk(declared, |was.payload|)
              && r.etag == hash(was.payload)
              && U.AllSettled(net, Cuts(w, r.etag), r.stored)
              && store.view == PutV(old(store.view), k, Uploaded(w, r.etag, RowsOf(r.stored)))
              && k in store.view && store.view[k].etag == r.etag && store.view[k].size == |was.payload|
              && OthersKept(old(store.view), store.view, k)
              && GoodVersion(w, Uploaded(w, r.etag, RowsOf(r.stored)))
  {
    ghost var was := body.Meaning(cs);
    var pieces, stored, err := U.Upload(body, cs, net, cancellable);
    if err.Broken? {
      return BadBody;
    } else if !err.Done? {
      return BadGateway;
    } else if !U.DeclaredSizeOk(declared, body.count) {
      return SizeMismatch;
    }
    var etag := hash(Joined(pieces));
    JoinedIsPayload(was.payload, cs);
    CommitsUploaded(w, etag, net, pieces, stored);
    store.PutObject(k, Version(body.count, etag, ToMetaChunks(pieces, stored)));
    r := Committed(etag, stored);
  }

  // ---------------------------------------------------------------- what may come after it

  lemma {:induction false} RunThen(w: World, ops: seq<Op>, op: Op)
    requires w.cs > 0 && Legit(w, Run(w, ops), op)
    ensures Run(w, ops + [op]) == Apply(Run(w, ops), op)
  {
    assert (ops + [op])[..|ops|] == ops;
  }

  /** Transactions that leave the object's content alone. */
  predicate Harmless(op: Op) {
    op.Append? || op.MarkDead? || op.Repair?
  }

  /** Each of the operations is one its caller can bring about when its turn comes. */
  ghost predicate LegitRun(w: World, ops: seq<Op>, more: seq<Op>)
    requires w.cs > 0
  {
    forall n :: 0 <= n < |more| ==> Legit(w, Run(w, ops + more[..n]), more[n])
  }

  /** The store's methods carry out the transactions of a run. */
  method Execute(store: Store, op: Op)
    requires store.Valid()
    modifies store
    ensures store.Valid() && store.view == Apply(old(store.view), op)
  {
    match op
    case Put(k, ver) => store.PutObject(k, ver);
    case Finalize(k, ver) => store.PutObject(k, ver);
    case Append(k, i, r, etag) => store.AppendChunkReplica(k, i, r, etag);
    case MarkDead(k, i, j) => store.MarkReplicaDead(k, i, j);
    case Repair(k, i, reps) => store.UpdateChunkReplicas(k, i, reps);
    case Delete(k) => store.DeleteObject(k);
  }

  /** `views` are the views before, between and after the operations. */
  ghost predicate Views(views: seq<View>, more: seq<Op>) {
    |views| == |more| + 1 && forall n :: 0 <= n < |more| ==> views[n + 1] == Apply(views[n], more[n])
  }

  lemma {:induction false} RunViews(w: World, ops: seq<Op>, more: seq<Op>) returns (views: seq<View>)
    requires w.cs > 0 && LegitRun(w, ops, more)
    ensures Views(views, more) && views[0] == Run(w, ops) && views[|more|] == Run(w, ops + more)
  {
    views := seq(|more| + 1, n requires 0 <= n <= |more| => Run(w, ops + more[..n]));
    forall n | 0 <= n < |more| ensures views[n + 1] == Apply(views[n], more[n]) {
      RunStep(w, ops, more, n);
    }
    assert ops + more[..0] == ops && ops + more[..|more|] == ops + more;
  }

  lemma {:induction false} RunStep(w: World, ops: seq<Op>, more: seq<Op>, n: nat)
    requires w.cs > 0 && n < |more| && Legit(w, Run(w, ops + more[..n]), more[n])
    ensures Run(w, ops + more[..n + 1]) == Apply(Run(w, ops + more[..n]), more[n])
  {
    assert ops + more[..n + 1] == (ops + more[..n]) + [more[n]];
    RunThen(w, ops + more[..n], more[n]);
  }

  method ExecuteAll(store: Store, more: seq<Op>, ghost views: seq<View>)
    requires store.Valid() && Views(views, more) && store.view == views[0]
    modifies store
    ensures store.Valid() && store.view == views[|more|]
  {
    for n := 0 to |more|
      invariant store.Valid() && store.view == views[n]
    {
      Execute(store, more[n]);
    }
  }

  /** The same objects, with the same sizes, ETags and numbers of chunks. */
  ghost predicate SameObjects(v: View, u: View) {
    forall o ::
      && (o in u <==> o in v)
      && (o in v ==> u[o].etag == v[o].etag && u[o].size == v[o].size && |u[o].chunks| == |v[o].chunks|)
  }

  lemma HarmlessKeeps(v: View, op: Op)
    requires Harmless(op)
    ensures SameObjects(v, Apply(v, op))
  {
  }

  lemma {:induction false} ContentKept(views: seq<View>, more: seq<Op>, n: nat)
    requires Views(views, more) && (forall n :: 0 <= n < |more| ==> Harmless(more[n])) && n <= |more|
    ensures SameObjects(views[0], views[n])
  {
    if n > 0 {
      ContentKept(views, more, n - 1);
      assert views[(n - 1) + 1] == Apply(views[n - 1], more[n - 1]);
      HarmlessKeeps(views[n - 1], more[n - 1]);
    }
  }

  /** Harmless operations that follow a run, carried out on the store. */
  method Follow(store: Store, more: seq<Op>, ghost w: World, ghost ops: seq<Op>)
    requires store.Valid() && w.cs > 0 && store.view == Run(w, ops) && LegitRun(w, ops, more)
    requires forall n :: 0 <= n < |more| ==> Harmless(more[n])
    modifies store
    ensures store.Valid() && store.view == Run(w, ops + more)
    ensures SameObjects(old(store.view), store.view)
  {
    ghost var views := RunViews(w, ops, more);
    ContentKept(views, more, |more|);
    ExecuteAll(store, more, views);
  }

  /** The appends of the stragglers of one chunk. */
  function LateOf(k: Key, etag: string, i: nat, late: seq<S.Replica>): seq<Op> {
    seq(|late|, j requires 0 <= j < |late| => Append(k, i, AsRows(late)[j], etag))
  }

  /** The appends of all stragglers of a PUT, chunk by chunk. */
  function LateOps(k: Key, etag: string, stored: seq<U.Stored>): seq<Op> {
    if stored == [] then []
    else
      var i := |stored| - 1;
      LateOps(k, etag, stored[..i]) + LateOf(k, etag, i, stored[i].late)
  }

  /** Every one of them is legitimate whenever it comes, and harmless. */
  lemma {:induction false} LateIsLegit(w: World, net: U.Net, k: Key, etag: string, stored: seq<U.Stored>, n: nat,
                                       v: View)
    requires w.cs > 0 && w.plain(etag) && HonestNet(w, net) && |stored| <= |Cuts(w, etag)|
    requires U.AllSettled(net, Cuts(w, etag)[..|stored|], stored) && n < |LateOps(k, etag, stored)|
    ensures Harmless(LateOps(k, etag, stored)[n]) && Legit(w, v, LateOps(k, etag, stored)[n])
    decreases |stored|
  {
    var i := |stored| - 1;
    var front := LateOps(k, etag, stored[..i]);
    if n < |front| {
      assert Cuts(w, etag)[..i] == Cuts(w, etag)[..|stored|][..i];
      LateIsLegit(w, net, k, etag, stored[..i], n, v);
    } else {
      var p, s, j := Cuts(w, etag)[i], stored[i], n - |front|;
      assert p == Cuts(w, etag)[..|stored|][i];
      SettledHolds(w, net, p, s);
      assert (s.replicas + s.late)[|s.replicas| + j] == s.late[j];
      assert LateOps(k, etag, stored)[n] == LateOf(k, etag, i, s.late)[j] == Append(k, i, AsRows(s.late)[j], etag);
    }
  }

  /** Each late replica of each chunk is among them. */
  lemma {:induction false} LateOpsAll(k: Key, etag: string, stored: seq<U.Stored>, i: nat, j: nat)
    requires i < |stored| && j < |stored[i].late|
    ensures var r := stored[i].late[j];
            Append(k, i, Replica(r.provider, r.locator, r.token, true), etag) in LateOps(k, etag, stored)
    decreases |stored|
  {
    var last := |stored| - 1;
    if i < last {
      LateOpsAll(k, etag, stored[..last], i, j);
    } else {
      assert LateOf(k, etag, i, stored[i].late)[j] == Append(k, i, AsRows(stored[i].late)[j], etag);
    }
  }

  /** A straggler of the PUT, or a liveness mark. */
  ghost predicate StragglerOrMark(k: Key, etag: string, stored: seq<U.Stored>, op: Op) {
    op.MarkDead? || op in LateOps(k, etag, stored)
  }

  /** Stragglers may come in any order, any number of them or none, between any marks, after any run. */
  lemma StragglersAnywhere(w: World, net: U.Net, k: Key, etag: string, stored: seq<U.Stored>, ops: seq<Op>,
                           more: seq<Op>)
    requires w.cs > 0 && w.plain(etag) && HonestNet(w, net) && U.AllSettled(net, Cuts(w, etag), stored)
    requires forall n :: 0 <= n < |more| ==> StragglerOrMark(k, etag, stored, more[n])
    ensures LegitRun(w, ops, more)
    ensures forall n :: 0 <= n < |more| ==> Harmless(more[n])
  {
    assert Cuts(w, etag)[..|stored|] == Cuts(w, etag);
    forall n | 0 <= n < |more| ensures Harmless(more[n]) && Legit(w, Run(w, ops + more[..n]), more[n]) {
      if !more[n].MarkDead? {
        var late := LateOps(k, etag, stored);
        var j :| 0 <= j < |late| && late[j] == more[n];
        LateIsLegit(w, net, k, etag, stored, j, Run(w, ops + more[..n]));
      }
    }
  }

  // ---------------------------------------------------------------- the round trip

  /** The response is right for that body, and its reader delivers the slice if no needed read fails or is late. */
  ghost predicate ReadsBack(payload: bytes, header: bytes, r: E.Response, b: C.Backend, chunks: seq<Chunk>,
                            locs: seq<C.ChunkLoc>, late: seq<bool>, timeout: int, all: seq<P.Step>,
                            picks: P.Config -> PP.Scheduler)
  {
    && E.Responds(payload, header, r)
    && (!r.NotSatisfiable? ==> E.LocsOf(locs, chunks) && E.FailsWith(b, locs, |payload|, r.sel.c, late, timeout))
    && (r.Body? ==>
          E.Streams(payload, r.sel, all, picks(r.sel.c), E.ReadsSucceed(b, locs, |payload|, r.sel.c) && E.InTime(late)))
  }

  /** The run up to and including the PUT. */
  ghost function AfterPut(w: World, before: seq<Op>, k: Key, etag: string, stored: seq<U.Stored>): seq<Op>
    requires w.cs > 0 && |stored| == |Cuts(w, etag)|
  {
    before + [Op.Put(k, Uploaded(w, etag, RowsOf(stored)))]
  }

  /** Whatever replicas the upload ended with, the operations that follow are harmless ones their callers can bring. */
  ghost predicate MayFollow(w: World, net: U.Net, before: seq<Op>, k: Key, etag: string,
                            after: seq<U.Stored> -> seq<Op>)
    requires w.cs > 0
  {
    forall stored :: U.AllSettled(net, Cuts(w, etag), stored) ==>
      && LegitRun(w, AfterPut(w, before, k, etag, stored), after(stored))
      && forall n :: 0 <= n < |after(stored)| ==> Harmless(after(stored)[n])
  }

  /**
   PUT then GET.  A body is uploaded chunk by chunk to providers that answer in any order and committed;
   then come any harmless transactions, such as the PUT's own stragglers in any order and number
   (`StragglersAnywhere`), or none; then a GET with any Range header answers as the header asks of the
   body's payload, and if every part it needs can be read from some enabled replica in time, the
   reader delivers exactly that slice under every diligent scheduler.
   */
  method PutGet(store: Store, k: Key, body: Body, cs: nat, net: U.Net, cancellable: bool, declared: bytes,
                hash: bytes -> string, after: seq<U.Stored> -> seq<Op>, header: bytes, b: C.Backend, cfg: E.Settings,
                ghost w: World, ghost before: seq<Op>, ghost picks: P.Config -> PP.Scheduler)
    returns (put: PutResult, got: Option<E.Response>, ghost locs: seq<C.ChunkLoc>, ghost late: seq<bool>,
             ghost all: seq<P.Step>)
    requires body.Valid() && body.count == 0 && cs > 0 && cs == w.cs && net.replicas >= 1
    requires store.Valid() && store.view == Run(w, before)
    requires HonestNet(w, net) && Hashes(w, hash, body.Meaning(cs).payload) && E.Honest(w, b)
    requires MayFollow(w, net, before, k, hash(body.Meaning(cs).payload), after)
    requires forall c :: PP.Diligent(c, picks(c))
    modifies store, body
    ensures !put.Committed? ==> store.view == old(store.view)
    ensures put.Committed? ==>
              && k in store.view && store.view[k].etag == put.etag
              && forall o :: o != k ==>
                   && (o in store.view <==> o in old(store.view))
                   && (o in store.view ==>
                         store.view[o].etag == old(store.view)[o].etag && store.view[o].size == old(store.view)[o].size)
    ensures put.Committed? ==>
              && got.Some? && k in store.view
              && ReadsBack(old(body.Meaning(cs).payload), header, got.value, b, store.view[k].chunks, locs, late,
                           cfg.timeout, all, picks)
  {
    got, locs, late, all := None, [], [], [];
    put := Put(store, k, body, cs, net, cancellable, declared, hash, w);
    if !put.Committed? {
      return;
    }
    ghost var ops := AfterPut(w, before, k, put.etag, put.stored);
    RunThen(w, before, Op.Put(k, Uploaded(w, put.etag, RowsOf(put.stored))));
    var more := after(put.stored);
    Follow(store, more, w, ops);
    RunsStayGood(w, ops + more);
    got, locs, late, all := E.Download(store, k, header, b, cfg, w, ops + more, picks);
  }
}
