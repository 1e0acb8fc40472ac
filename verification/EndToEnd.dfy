/** A GET from the stored rows to the bytes on the wire. */
module EndToEnd {
  import opened Bytes
  import opened Alignment
  import opened ChunkSource
  import opened Ranges
  import opened Storage
  import opened Conversion
  import M = Metadata
  import opened MetadataRuns
  import P = Prefetch
  import PS = PrefetchSafety
  import PP = PrefetchProgress

  // ---------------------------------------------------------------- planning the read

  /** The location describes the chunk row: same extent, and only replicas of that row. */
  ghost predicate LocOf(loc: ChunkLoc, c: M.Chunk) {
    && loc.offset == c.offset && loc.size == c.size && loc.ref.size == c.size
    && loc.ref.replicas == StoredIf(c.replicas, true) + StoredIf(c.replicas, false)
    && forall x :: x in loc.ref.replicas <==> exists j :: 0 <= j < |c.replicas| && Stored(c.replicas[j]) == x
  }

  ghost predicate LocsOf(locs: seq<ChunkLoc>, chunks: seq<M.Chunk>) {
    |locs| == |chunks| && forall i :: 0 <= i < |locs| ==> LocOf(locs[i], chunks[i])
  }

  /** Chunk locations and the half-open range to read; without a range, the whole object. */
  method PlanRead(ver: M.Version, rng: Answer) returns (locs: seq<ChunkLoc>, start: nat, end: nat)
    requires rng.Partial? ==> rng.start <= rng.end < ver.size
    ensures LocsOf(locs, ver.chunks)
    ensures start <= end <= ver.size
    ensures if rng.Partial? then start == rng.start && end == rng.end + 1 else start == 0 && end == ver.size
  {
    if rng.Partial? {
      start, end := rng.start, rng.end + 1;
    } else {
      start, end := 0, ver.size;
    }
    locs := [];
    for i := 0 to |ver.chunks|
      invariant LocsOf(locs, ver.chunks[..i])
    {
      var c := ver.chunks[i];
      var reps := StorageReplicas(c.replicas);
      locs := locs + [ChunkLoc(ChunkRef(c.size, reps), c.offset, c.size)];
    }
  }

  // ---------------------------------------------------------------- the backend

  /** A host that answers a read yields exactly the bytes it stores there. */
  ghost predicate Honest(w: World, b: Backend) {
    forall x, off: nat, n: nat :: b.read(x, off, n).Got? ==>
      off + n <= |w.blob(x.locator)| && b.read(x, off, n).data == w.blob(x.locator)[off..off + n]
  }

  lemma GoodTiles(w: World, ver: M.Version, locs: seq<ChunkLoc>)
    requires w.cs > 0 && GoodVersion(w, ver) && LocsOf(locs, ver.chunks)
    ensures Tiles(locs, ver.size)
  {
    assert forall i :: 0 <= i < |locs| ==> LocOf(locs[i], ver.chunks[i]);
  }

  /** What a replica of a chunk yields for a part of it is that part of the object. */
  lemma ReadsSlice(w: World, obj: bytes, c: M.Chunk, loc: ChunkLoc, b: Backend, x: Replica, off: nat, n: nat)
    requires Locates(w, obj, c) && LocOf(loc, c) && Honest(w, b) && off + n <= loc.size
    requires x in loc.ref.replicas && b.read(x, off, n).Got?
    ensures b.read(x, off, n).data == obj[loc.offset + off..loc.offset + off + n]
  {
    var j :| 0 <= j < |c.replicas| && Stored(c.replicas[j]) == x;
    assert w.blob(x.locator) == obj[c.offset..c.offset + c.size];
    SubSlice(obj, c.offset, c.size, off, n);
  }

  lemma SubSlice(obj: bytes, a: nat, size: nat, off: nat, n: nat)
    requires a + size <= |obj| && off + n <= size
    ensures obj[a..a + size][off..off + n] == obj[a + off..a + off + n]
  {
    var part := obj[a..a + size];
    assert forall i :: 0 <= i < size ==> part[i] == obj[a + i];
    assert |part[off..off + n]| == |obj[a + off..a + off + n]|;
  }

  lemma ChunkReads(w: World, ver: M.Version, locs: seq<ChunkLoc>, b: Backend, k: nat, x: Replica, off: nat, n: nat)
    requires w.cs > 0 && GoodVersion(w, ver) && LocsOf(locs, ver.chunks) && Honest(w, b)
    requires k < |locs| && x in locs[k].ref.replicas && off + n <= locs[k].size && b.read(x, off, n).Got?
    ensures locs[k].offset + off + n <= |w.body(ver.etag)|
    ensures b.read(x, off, n).data == w.body(ver.etag)[locs[k].offset + off..locs[k].offset + off + n]
  {
    assert Locates(w, w.body(ver.etag), ver.chunks[k]);
    assert LocOf(locs[k], ver.chunks[k]);
    ReadsSlice(w, w.body(ver.etag), ver.chunks[k], locs[k], b, x, off, n);
  }

  /** Over a good version, honest hosts are truthful about the object and complete. */
  lemma GoodReads(w: World, ver: M.Version, locs: seq<ChunkLoc>, b: Backend)
    requires w.cs > 0 && GoodVersion(w, ver) && LocsOf(locs, ver.chunks) && Honest(w, b)
    ensures Truthful(b, locs, w.body(ver.etag)) && ChunkSource.Complete(b, locs)
  {
    forall k, x, off: nat, n: nat | 0 <= k < |locs| && x in locs[k].ref.replicas && off + n <= locs[k].size
      && b.read(x, off, n).Got?
      ensures locs[k].offset + off + n <= |w.body(ver.etag)|
      ensures b.read(x, off, n).data == w.body(ver.etag)[locs[k].offset + off..locs[k].offset + off + n]
    {
      ChunkReads(w, ver, locs, b, k, x, off, n);
    }
  }

  // ---------------------------------------------------------------- windows

  /** Some part that window [off, off + window) needs cannot be read from any enabled replica. */
  ghost predicate WindowFails(b: Backend, locs: seq<ChunkLoc>, size: nat, off: nat, window: nat) {
    SomeNeededFails(b, locs, off, Min(off + window, size))
  }

  /**
   What one window fetch yields: the whole window, and then every part it needs can be read; or a failure,
   and then some part cannot, or the window was `late`.
   */
  ghost predicate FetchOf(o: P.Outcome, late: bool, b: Backend, locs: seq<ChunkLoc>, obj: bytes, off: nat, window: nat)
  {
    && (o.Data? ==> o.data == Span(obj, off, off + window) && !WindowFails(b, locs, |obj|, off, window))
    && (o.Fail? ==> WindowFails(b, locs, |obj|, off, window) || late)
    && (late ==> o.Fail?)
  }

  method FetchWindow(b: Backend, locs: seq<ChunkLoc>, ghost obj: bytes, size: nat, off: nat, window: nat,
                     deadline: bool)
    returns (o: P.Outcome, late: bool)
    requires Tiles(locs, size) && |obj| == size && Truthful(b, locs, obj) && ChunkSource.Complete(b, locs)
    ensures FetchOf(o, late, b, locs, obj, off, window) && (late ==> deadline)
  {
    var r;
    r, late := Chunk(b, locs, obj, size, off, window, deadline);
    match r
    case Got(d) => o := P.Data(d);
    case Failed(code) => o := P.Fail(code);
  }

  method FetchWindows(b: Backend, locs: seq<ChunkLoc>, ghost obj: bytes, size: nat, start: nat, window: nat, n: nat,
                      deadline: bool)
    returns (outcomes: seq<P.Outcome>, late: seq<bool>)
    requires Tiles(locs, size) && |obj| == size && Truthful(b, locs, obj) && ChunkSource.Complete(b, locs) && window > 0
    ensures |outcomes| == |late| == n && (!deadline ==> InTime(late))
    ensures forall i: nat :: i < n ==>
              FetchOf(outcomes[i], late[i], b, locs, obj, WindowStart(start, window, i), window)
  {
    outcomes, late := [], [];
    for i := 0 to n
      invariant |outcomes| == |late| == i && (!deadline ==> InTime(late))
      invariant forall j: nat :: j < i ==>
                  FetchOf(outcomes[j], late[j], b, locs, obj, WindowStart(start, window, j), window)
    {
      var o, expired := FetchWindow(b, locs, obj, size, WindowStart(start, window, i), window, deadline);
      outcomes, late := outcomes + [o], late + [expired];
    }
  }

  // ---------------------------------------------------------------- the response

  /** Server settings: prefetch window, concurrency, delivery buffers, window timeout, whatever the operator wrote. */
  datatype Settings = Settings(window: int, concurrency: int, buffers: int, timeout: int)

  /** `length` bytes from `start`, streamed through a reader with configuration `c`. */
  datatype Selection = Selection(partial: bool, start: nat, length: nat, c: P.Config)

  /** 416, 502 with the error of the first window, or the announced body. */
  datatype Response = NotSatisfiable | BadGateway(code: int, sel: Selection) | Body(sel: Selection)

  /** The header reads as no range: it is absent, of another unit, several ranges or malformed. */
  ghost predicate NoRange(header: bytes) {
    forall spec :: !ReadsAs(header, spec)
  }

  /**
   What the header asks for, with a reader set up over the object's own bytes: the whole object, or exactly
   the bytes that the spec it reads as wants.
   */
  ghost predicate Selects(obj: bytes, header: bytes, s: Selection) {
    && s.start + s.length <= |obj|
    && (NoRange(header) ==> !s.partial && s.start == 0 && s.length == |obj|)
    && (forall spec :: ReadsAs(header, spec) ==> WellFormed(spec) && s.partial && SelectsWanted(spec, |obj|, s))
    && PS.Faithful(s.c, obj) && s.c.start == s.start && s.c.end == s.start + s.length
  }

  ghost predicate SelectsWanted(spec: Spec, size: nat, s: Selection)
    requires WellFormed(spec)
  {
    s.length > 0 && forall i: nat :: s.start <= i < s.start + s.length <==> Wanted(spec, size, i)
  }

  /** The header reads as a spec that wants nothing of the object. */
  ghost predicate WantsNothing(header: bytes, size: nat) {
    exists spec :: ReadsAs(header, spec) && WellFormed(spec) && forall i: nat :: !Wanted(spec, size, i)
  }

  /** The parser's answer selects what the header asks for. */
  lemma AnswerSelects(obj: bytes, header: bytes, s: Selection)
    requires var rng := ParseByteRange(header, |obj|);
             && !rng.Unsatisfiable? && s.partial == rng.Partial? && s.start + s.length <= |obj|
             && (s.partial ==> s.start == rng.start && s.start + s.length == rng.end + 1)
             && (!s.partial ==> s.start == 0 && s.length == |obj|)
    requires PS.Faithful(s.c, obj) && s.c.start == s.start && s.c.end == s.start + s.length
    ensures Selects(obj, header, s)
  {
    ParserMeans(header, |obj|);
    forall spec | ReadsAs(header, spec) ensures WellFormed(spec) && s.partial && SelectsWanted(spec, |obj|, s) {
      assert Conforms(spec, |obj|, ParseByteRange(header, |obj|));
    }
  }

  lemma AnswerRefuses(header: bytes, size: nat)
    requires ParseByteRange(header, size).Unsatisfiable?
    ensures WantsNothing(header, size)
  {
    ParserMeans(header, size);
    var spec :| ReadsAs(header, spec);
    assert Conforms(spec, size, ParseByteRange(header, size));
  }

  /** The first window is there, or there is none. */
  ghost predicate Primed(c: P.Config) {
    c.fetch == [] || c.fetch[0].Data?
  }

  ghost predicate Responds(obj: bytes, header: bytes, r: Response) {
    match r
    case NotSatisfiable => WantsNothing(header, |obj|)
    case BadGateway(code, s) => Selects(obj, header, s) && s.c.fetch != [] && s.c.fetch[0] == P.Fail(code)
    case Body(s) => Selects(obj, header, s) && Primed(s.c)
  }

  /** No read that the reader's windows need fails. */
  ghost predicate ReadsSucceed(b: Backend, locs: seq<ChunkLoc>, size: nat, c: P.Config) {
    c.window > 0 &&
    forall i: nat :: i < |c.fetch| ==> !WindowFails(b, locs, size, WindowStart(c.start, c.window, i), c.window)
  }

  /** No window was given up because its deadline expired. */
  ghost predicate InTime(late: seq<bool>) {
    forall i :: 0 <= i < |late| ==> !late[i]
  }

  /** No window fails iff every part the windows need can be read and none was late; none is without a timeout. */
  ghost predicate FailsWith(b: Backend, locs: seq<ChunkLoc>, size: nat, c: P.Config, late: seq<bool>, timeout: int) {
    && (PS.FirstFailure(c, 0) == |c.fetch| <==> ReadsSucceed(b, locs, size, c) && InTime(late))
    && (timeout <= 0 ==> InTime(late))
  }

  /** Resolves the range, plans the read, sets up the prefetch reader and looks at its first window. */
  method GetObject(ver: M.Version, header: bytes, b: Backend, cfg: Settings, ghost w: World)
    returns (r: Response, ghost locs: seq<ChunkLoc>, ghost late: seq<bool>)
    requires w.cs > 0 && GoodVersion(w, ver) && Honest(w, b)
    ensures Responds(w.body(ver.etag), header, r)
    ensures !r.NotSatisfiable? ==>
              LocsOf(locs, ver.chunks) && FailsWith(b, locs, ver.size, r.sel.c, late, cfg.timeout)
  {
    var rng := ParseByteRange(header, ver.size);
    if rng.Unsatisfiable? {
      AnswerRefuses(header, ver.size);
      return NotSatisfiable, [], [];
    }
    var c;
    c, locs, late := OpenReader(ver, rng, b, cfg, w);
    var s := Selection(rng.Partial?, c.start, c.end - c.start, c);
    AnswerSelects(w.body(ver.etag), header, s);
    r := if c.fetch != [] && c.fetch[0].Fail? then BadGateway(c.fetch[0].code, s) else Body(s);
  }

  method OpenReader(ver: M.Version, rng: Answer, b: Backend, cfg: Settings, ghost w: World)
    returns (c: P.Config, ghost locs: seq<ChunkLoc>, ghost late: seq<bool>)
    requires w.cs > 0 && GoodVersion(w, ver) && Honest(w, b)
    requires rng.Partial? ==> rng.start <= rng.end < ver.size
    ensures PS.Faithful(c, w.body(ver.etag)) && c.end <= ver.size
    ensures if rng.Partial? then c.start == rng.start && c.end == rng.end + 1 else c.start == 0 && c.end == ver.size
    ensures LocsOf(locs, ver.chunks) && FailsWith(b, locs, ver.size, c, late, cfg.timeout)
  {
    ghost var obj := w.body(ver.etag);
    var plan, start, end := PlanRead(ver, rng);
    locs := plan;
    GoodTiles(w, ver, plan);
    GoodReads(w, ver, plan, b);
    var window := ChunkSize(cfg.window, start, end);
    var n := WindowCount(start, end, window);
    var fetch, expired := FetchWindows(b, plan, obj, ver.size, start, window, n, cfg.timeout > 0);
    late := expired;
    var fetched := (i: nat) => if i < |fetch| then fetch[i] else P.Data([]);
    PS.NewConfigIsValid(start, end, window, cfg.concurrency, cfg.buffers, fetched);
    c := P.NewConfig(start, end, window, cfg.concurrency, cfg.buffers, fetched);
    assert c.fetch == fetch;
    ConfigReads(c, b, plan, obj, late, cfg.timeout);
  }

  lemma ConfigReads(c: P.Config, b: Backend, locs: seq<ChunkLoc>, obj: bytes, late: seq<bool>, timeout: int)
    requires P.ValidConfig(c) && |late| == |c.fetch| && (timeout <= 0 ==> InTime(late))
    requires forall i: nat :: i < |c.fetch| ==>
               FetchOf(c.fetch[i], late[i], b, locs, obj, WindowStart(c.start, c.window, i), c.window)
    ensures PS.Faithful(c, obj)
    ensures FailsWith(b, locs, |obj|, c, late, timeout)
  {
    AllFetched(c, b, locs, obj, late);
  }

  lemma AllFetched(c: P.Config, b: Backend, locs: seq<ChunkLoc>, obj: bytes, late: seq<bool>)
    requires P.ValidConfig(c) && |late| == |c.fetch|
    requires forall i: nat :: i < |c.fetch| ==>
               FetchOf(c.fetch[i], late[i], b, locs, obj, WindowStart(c.start, c.window, i), c.window)
    ensures (forall i :: 0 <= i < |c.fetch| ==> c.fetch[i].Data?) <==> ReadsSucceed(b, locs, |obj|, c) && InTime(late)
  {
    if forall i :: 0 <= i < |c.fetch| ==> c.fetch[i].Data? {
      forall i: nat | i < |c.fetch|
        ensures !late[i] && !WindowFails(b, locs, |obj|, WindowStart(c.start, c.window, i), c.window)
      {
        assert FetchOf(c.fetch[i], late[i], b, locs, obj, WindowStart(c.start, c.window, i), c.window);
      }
    }
    if ReadsSucceed(b, locs, |obj|, c) && InTime(late) {
      forall i: nat | i < |c.fetch| ensures c.fetch[i].Data? {
        assert FetchOf(c.fetch[i], late[i], b, locs, obj, WindowStart(c.start, c.window, i), c.window);
      }
    }
  }

  /** Whatever the schedule, Prime reports an error other than end of file exactly in the 502 case, and that error. */
  lemma PrimeDecides(obj: bytes, header: bytes, r: Response, steps: seq<P.Step>)
    requires Responds(obj, header, r) && !r.NotSatisfiable?
    requires var s := P.Exec(r.sel.c, steps);
             && !s.cancelled && s.p.taken == 0 && s.r.cur.None? && s.r.err.None?
             && (s.p.out != [] || s.p.drainer.Stopped?)
    ensures var e := PS.PrimeResult(P.Exec(r.sel.c, steps));
            && (r.BadGateway? <==> e.Some? && e.value != P.EndOfFile)
            && (r.BadGateway? ==> e == Some(P.FetchFailed(r.code)))
  {
    PS.InitialPrime(r.sel.c, obj, steps);
  }

  /** Without a Range header, with another unit, with several ranges or without a dash, the whole object is served. */
  lemma ServesAll(obj: bytes, header: bytes, r: Response)
    requires Responds(obj, header, r)
    requires |header| < 6 || header[..6] != [98, 121, 116, 101, 115, 61] || 44 in header || 45 !in header
    ensures !r.NotSatisfiable? && !r.sel.partial && r.sel.start == 0 && r.sel.length == |obj|
  {
    forall spec ensures !ReadsAs(header, spec) { NotARange(header, spec); }
  }

  /** The run delivered exactly what the response announced. */
  ghost predicate DeliversAll(obj: bytes, s: Selection, end: P.Client)
    requires s.start + s.length <= |obj|
  {
    end.delivered == obj[s.start..s.start + s.length] && |end.delivered| == s.length && end.err == Some(P.EndOfFile)
  }

  /**
   The end-to-end read.  In every run a GET delivers, until its reader is closed, only a prefix of the
   selected slice, and under every diligent scheduler the run ends with all goroutines gone; if no
   needed read failed it ends with all of the slice, of exactly the announced length.
   */
  lemma RoundTrip(obj: bytes, header: bytes, s: Selection, steps: seq<P.Step>, pick: PP.Scheduler)
    returns (all: seq<P.Step>)
    requires Selects(obj, header, s) && PP.Diligent(s.c, pick)
    ensures !P.Exec(s.c, steps).closed ==> P.Exec(s.c, steps).r.delivered <= obj[s.start..s.start + s.length]
    ensures forall n :: 0 <= n < |all| ==> all[n] == pick(n, P.Exec(s.c, all[..n]))
    ensures PP.AllExited(P.Exec(s.c, all))
    ensures PS.FirstFailure(s.c, 0) == |s.c.fetch| ==> DeliversAll(obj, s, P.Exec(s.c, all).r)
  {
    PS.DeliversPrefix(s.c, obj, steps);
    all := PP.RunEnds(s.c, obj, pick);
    PS.UptoAll(s.c, obj);
  }

  /** The reader's run under a scheduler: its steps are the scheduler's, and it delivers all when no read fails. */
  ghost predicate Streams(obj: bytes, s: Selection, all: seq<P.Step>, pick: PP.Scheduler, complete: bool)
    requires s.start + s.length <= |obj|
  {
    && (forall n :: 0 <= n < |all| ==> all[n] == pick(n, P.Exec(s.c, all[..n])))
    && PP.AllExited(P.Exec(s.c, all))
    && (complete ==> DeliversAll(obj, s, P.Exec(s.c, all).r))
  }

  /**
   GET on a store that any run of transactions has produced: reads the object row and its chunk
   map, answers, and the reader runs under whatever scheduler it is given.  `late` tells the windows
   whose deadline expired.
   */
  method Download(store: M.Store, k: M.Key, header: bytes, b: Backend, cfg: Settings,
                  ghost w: World, ghost ops: seq<Op>, ghost picks: P.Config -> PP.Scheduler)
    returns (found: Option<Response>, ghost locs: seq<ChunkLoc>, ghost late: seq<bool>, ghost all: seq<P.Step>)
    requires store.Valid() && w.cs > 0 && store.view == Run(w, ops) && Honest(w, b)
    requires forall c :: PP.Diligent(c, picks(c))
    ensures found.None? <==> k !in store.view
    ensures found.Some? ==> Responds(w.body(store.view[k].etag), header, found.value)
    ensures found.Some? && !found.value.NotSatisfiable? ==>
              && LocsOf(locs, store.view[k].chunks)
              && FailsWith(b, locs, store.view[k].size, found.value.sel.c, late, cfg.timeout)
    ensures found.Some? && found.value.Body? ==>
              var c := found.value.sel.c;
              Streams(w.body(store.view[k].etag), found.value.sel, all, picks(c),
                      ReadsSucceed(b, locs, store.view[k].size, c) && InTime(late))
  {
    locs, late, all := [], [], [];
    if k !in store.objects {
      return None, locs, late, all;
    }
    var chunks := store.GetObjectChunks(k);
    RunsStayGood(w, ops);
    var r;
    r, locs, late := GetObject(M.Version(store.objects[k].size, store.objects[k].etag, chunks), header, b, cfg, w);
    if r.Body? {
      all := RoundTrip(w.body(store.view[k].etag), header, r.sel, [], picks(r.sel.c));
    }
    found := Some(r);
  }
}
